/**
 Text in a PDF content stream: the escaping of literal strings and a reader for
 them after ISO 32000-1, section 7.3.4.2. Python strings are strings of Unicode
 scalar values; a file is a sequence of bytes.
 */
module PdfText {
  import opened Wrappers

  type Byte = b: int | 0 <= b < 256
  type Bytes = seq<Byte>

  // ---------- UTF-8 ----------

  function Utf8(c: char): (r: Bytes)
    ensures |r| > 0
  {
    var u := c as int;
    if u < 0x80 then [u]
    else if u < 0x800 then [0xC0 + u / 64, 0x80 + u % 64]
    else if u < 0x1_0000 then [0xE0 + u / 4096, 0x80 + u / 64 % 64, 0x80 + u % 64]
    else [0xF0 + u / 262144 % 8, 0x80 + u / 4096 % 64, 0x80 + u / 64 % 64, 0x80 + u % 64]
  }

  function Encode(s: string): Bytes {
    if s == "" then [] else Utf8(s[0]) + Encode(s[1..])
  }

  lemma Assoc<T>(a: seq<T>, b: seq<T>, c: seq<T>)
    ensures a + b + c == a + (b + c)
  {
  }

  lemma {:induction false} EncodeConcat(s: string, t: string)
    ensures Encode(s + t) == Encode(s) + Encode(t)
  {
    if s == "" {
      assert s + t == t;
    } else {
      EncodeConcat(s[1..], t);
      assert (s + t)[1..] == s[1..] + t;
      Assoc(Utf8(s[0]), Encode(s[1..]), Encode(t));
    }
  }

  /** How many bytes the character has that begins with this byte (RFC 3629, section 3); 0 if none does. */
  function LengthFrom(b: Byte): nat {
    if b < 0x80 then 1 else if b < 0xC0 then 0 else if b < 0xE0 then 2 else if b < 0xF0 then 3 else if b < 0xF8 then 4
    else 0
  }

  predicate Follows(b: Byte) { 0x80 <= b < 0xC0 }

  /** The bits of a byte that belong to the number of its character. */
  function Bits(b: Byte): nat {
    b - if b < 0x80 then 0 else if b < 0xC0 then 0x80 else if b < 0xE0 then 0xC0 else if b < 0xF0 then 0xE0 else 0xF0
  }

  /** The number that the first bytes stand for, if they are well-formed and no fewer bytes would do. */
  function Scalar(b: Bytes): Option<nat> {
    if b == [] || LengthFrom(b[0]) == 0 || LengthFrom(b[0]) > |b| then None else
    match LengthFrom(b[0])
    case 1 => Some(Bits(b[0]))
    case 2 =>
      var u := 64 * Bits(b[0]) + Bits(b[1]);
      if Follows(b[1]) && u >= 0x80 then Some(u) else None
    case 3 =>
      var u := 4096 * Bits(b[0]) + 64 * Bits(b[1]) + Bits(b[2]);
      if Follows(b[1]) && Follows(b[2]) && u >= 0x800 then Some(u) else None
    case _ =>
      var u := 262144 * Bits(b[0]) + 4096 * Bits(b[1]) + 64 * Bits(b[2]) + Bits(b[3]);
      if Follows(b[1]) && Follows(b[2]) && Follows(b[3]) && u >= 0x1_0000 then Some(u) else None
  }

  /** The text that the bytes encode. */
  function Decode(b: Bytes): Option<string>
    decreases |b|
  {
    if b == [] then Some("") else
    var u := Scalar(b);
    if u.None? || 0xD800 <= u.value < 0xE000 || u.value >= 0x11_0000 then None else
    var more := Decode(b[LengthFrom(b[0])..]);
    if more.None? then None else Some([u.value as char] + more.value)
  }

  lemma ScalarOfTwo(u: nat, a: Byte, b: Byte, rest: Bytes)
    requires 0x80 <= u < 0x800 && a == 0xC0 + u / 64 && b == 0x80 + u % 64
    ensures Scalar([a, b] + rest) == Some(u) && LengthFrom(a) == 2
  {
  }

  lemma ScalarOfThree(u: nat, a: Byte, b: Byte, c: Byte, rest: Bytes)
    requires 0x800 <= u < 0x1_0000 && a == 0xE0 + u / 4096 && b == 0x80 + u / 64 % 64 && c == 0x80 + u % 64
    ensures Scalar([a, b, c] + rest) == Some(u) && LengthFrom(a) == 3
  {
  }

  lemma InFours(u: nat)
    ensures u == 262144 * (u / 262144) + 4096 * (u / 4096 % 64) + 64 * (u / 64 % 64) + u % 64
  {
    var v := u / 64;
    var w := v / 64;
    assert u / 4096 == w && u / 262144 == w / 64;
  }

  lemma ScalarOfFour(u: nat, a: Byte, b: Byte, c: Byte, d: Byte, rest: Bytes)
    requires 0x1_0000 <= u < 0x11_0000 && a == 0xF0 + u / 262144
    requires b == 0x80 + u / 4096 % 64 && c == 0x80 + u / 64 % 64 && d == 0x80 + u % 64
    ensures Scalar([a, b, c, d] + rest) == Some(u) && LengthFrom(a) == 4
  {
    InFours(u);
  }

  lemma ScalarOf(c: char, rest: Bytes)
    ensures Scalar(Utf8(c) + rest) == Some(c as nat) && LengthFrom(Utf8(c)[0]) == |Utf8(c)|
  {
    var u, b := c as int, Utf8(c);
    if 0x80 <= u < 0x800 {
      ScalarOfTwo(u, b[0], b[1], rest);
    } else if 0x800 <= u < 0x1_0000 {
      ScalarOfThree(u, b[0], b[1], b[2], rest);
    } else if u >= 0x1_0000 {
      ScalarOfFour(u, b[0], b[1], b[2], b[3], rest);
    }
  }

  /** Every text comes back from its encoding. */
  lemma {:induction false} DecodeEncode(s: string)
    ensures Decode(Encode(s)) == Some(s)
  {
    if s != "" {
      DecodeEncode(s[1..]);
      ScalarOf(s[0], Encode(s[1..]));
      assert (Utf8(s[0]) + Encode(s[1..]))[|Utf8(s[0])|..] == Encode(s[1..]);
      assert s == [s[0]] + s[1..];
    }
  }

  // ---------- the three replace passes ----------

  /** `s.replace(c, repl)` for a one-character pattern. */
  function ReplaceAll(s: string, c: char, repl: string): string {
    if s == "" then "" else (if s[0] == c then repl else [s[0]]) + ReplaceAll(s[1..], c, repl)
  }

  function EscapePdfText(s: string): string {
    ReplaceAll(ReplaceAll(ReplaceAll(s, '\\', "\\\\"), '(', "\\("), ')', "\\)")
  }

  predicate Special(c: char) { c == '\\' || c == '(' || c == ')' }

  /** The reference: one pass that puts a backslash before each special character. */
  function EscapeEach(s: string): string {
    if s == "" then "" else (if Special(s[0]) then ['\\', s[0]] else [s[0]]) + EscapeEach(s[1..])
  }

  lemma {:induction false} ReplaceConcat(s: string, t: string, c: char, repl: string)
    ensures ReplaceAll(s + t, c, repl) == ReplaceAll(s, c, repl) + ReplaceAll(t, c, repl)
  {
    if s == "" {
      assert s + t == t;
    } else {
      ReplaceConcat(s[1..], t, c, repl);
      assert (s + t)[1..] == s[1..] + t;
      Assoc(if s[0] == c then repl else [s[0]], ReplaceAll(s[1..], c, repl), ReplaceAll(t, c, repl));
    }
  }

  lemma ReplaceOne(c: char, pattern: char, repl: string)
    ensures ReplaceAll([c], pattern, repl) == if c == pattern then repl else [c]
  {
    assert [c][1..] == "";
  }

  lemma ReplacePair(c: char, d: char, pattern: char, repl: string)
    requires c != pattern
    ensures ReplaceAll([c, d], pattern, repl) == [c] + if d == pattern then repl else [d]
  {
    assert [c, d] == [c] + [d];
    ReplaceConcat([c], [d], pattern, repl);
    ReplaceOne(c, pattern, repl);
    ReplaceOne(d, pattern, repl);
  }

  /** The passes together escape each character once: later passes do not escape what earlier ones added. */
  lemma {:induction false} ThreePassesAreOne(s: string)
    ensures EscapePdfText(s) == EscapeEach(s)
  {
    if s != "" {
      ThreePassesAreOne(s[1..]);
      var c, rest := s[0], s[1..];
      var first := if c == '\\' then "\\\\" else [c];
      var rest1 := ReplaceAll(rest, '\\', "\\\\");
      ReplaceConcat(first, rest1, '(', "\\(");
      var second := ReplaceAll(first, '(', "\\(");
      var rest2 := ReplaceAll(rest1, '(', "\\(");
      ReplaceConcat(second, rest2, ')', "\\)");
      ReplaceOne(c, '(', "\\(");
      ReplaceOne(c, ')', "\\)");
      ReplacePair('\\', '\\', '(', "\\(");
      ReplacePair('\\', '\\', ')', "\\)");
      ReplacePair('\\', '(', ')', "\\)");
    }
  }

  // ---------- the literal-string reader ----------

  const BACKSLASH: Byte := 92
  const OPEN: Byte := 40
  const CLOSE: Byte := 41
  const CR: Byte := 13
  const LF: Byte := 10

  predicate IsOctal(b: Byte) { 48 <= b <= 55 }

  /** The number of octal digits, at most three, at the start of `t`. */
  function OctalLength(t: Bytes): (n: nat)
    ensures n <= |t| && n <= 3
    ensures forall k | 0 <= k < n :: IsOctal(t[k])
  {
    if t == [] || !IsOctal(t[0]) then 0
    else if |t| == 1 || !IsOctal(t[1]) then 1
    else if |t| == 2 || !IsOctal(t[2]) then 2
    else 3
  }

  /** High-order overflow is ignored. */
  function OctalValue(t: Bytes): Byte
    requires 1 <= |t| <= 3 && forall k | 0 <= k < |t| :: IsOctal(t[k])
  {
    var a := t[0] as int - 48;
    var b: int := if |t| > 1 then t[1] as int - 48 else 0;
    var c: int := if |t| > 2 then t[2] as int - 48 else 0;
    (if |t| == 1 then a else if |t| == 2 then 8 * a + b else 64 * a + 8 * b + c) % 256
  }

  /** The bytes that an escape sequence stands for and its length after the backslash. */
  function Escaped(t: Bytes): (r: (Bytes, nat))
    requires t != []
    ensures 1 <= r.1 <= |t|
  {
    var b := t[0];
    if b == 110 then ([LF], 1)
    else if b == 114 then ([CR], 1)
    else if b == 116 then ([9], 1)
    else if b == 98 then ([8], 1)
    else if b == 102 then ([12], 1)
    else if b == LF then ([], 1)
    else if b == CR then ([], if |t| > 1 && t[1] == LF then 2 else 1)
    else if IsOctal(b) then ([OctalValue(t[..OctalLength(t)])], OctalLength(t))
    else ([b], 1)   // a parenthesis, a backslash, or a backslash that is ignored
  }

  function Prepend(value: Bytes, r: Option<(Bytes, Bytes)>): Option<(Bytes, Bytes)> {
    if r.None? then None else Some((value + r.value.0, r.value.1))
  }

  /**
   Reads a literal string whose opening parenthesis has been read already, with
   `depth` balanced parentheses open inside it. Gives the value and the bytes
   from the closing parenthesis on; None if there is none.
   */
  function ReadLiteral(t: Bytes, depth: nat): (r: Option<(Bytes, Bytes)>)
    ensures r.Some? ==> 0 < |r.value.1| <= |t| && r.value.1[0] == CLOSE
    decreases |t|
  {
    if t == [] then None
    else if t[0] == CLOSE && depth == 0 then Some(([], t))
    else if t[0] == CLOSE then Prepend([CLOSE], ReadLiteral(t[1..], depth - 1))
    else if t[0] == OPEN then Prepend([OPEN], ReadLiteral(t[1..], depth + 1))
    else if t[0] == BACKSLASH then
      if |t| == 1 then None
      else var (value, n) := Escaped(t[1..]); Prepend(value, ReadLiteral(t[1 + n..], depth))
    else if t[0] == CR then Prepend([LF], ReadLiteral(if |t| > 1 && t[1] == LF then t[2..] else t[1..], depth))
    else Prepend([t[0]], ReadLiteral(t[1..], depth))
  }

  /** An end of line inside a literal string is read as one line feed. */
  function NormalEol(s: string): string
    decreases |s|
  {
    if s == "" then ""
    else if s[0] == '\r' then "\n" + NormalEol(if |s| > 1 && s[1] == '\n' then s[2..] else s[1..])
    else [s[0]] + NormalEol(s[1..])
  }

  /** Bytes that mean themselves inside a literal string. */
  predicate Plain(b: Byte) { b != BACKSLASH && b != OPEN && b != CLOSE && b != CR }

  lemma ReadByte(b: Byte, rest: Bytes, depth: nat)
    requires Plain(b)
    ensures ReadLiteral([b] + rest, depth) == Prepend([b], ReadLiteral(rest, depth))
  {
    assert ([b] + rest)[1..] == rest;
  }

  lemma ReadPlainFirst(first: Byte, more: Bytes, rest: Bytes)
    requires Plain(first) && ReadLiteral(more + rest, 0) == Prepend(more, ReadLiteral(rest, 0))
    ensures ReadLiteral([first] + more + rest, 0) == Prepend([first] + more, ReadLiteral(rest, 0))
  {
    Assoc([first], more, rest);
    ReadByte(first, more + rest, 0);
    PrependTwice([first], more, ReadLiteral(rest, 0));
  }

  lemma {:induction false} ReadPlain(t: Bytes, rest: Bytes)
    requires forall b | b in t :: Plain(b)
    ensures ReadLiteral(t + rest, 0) == Prepend(t, ReadLiteral(rest, 0))
  {
    if t == [] {
      assert t + rest == rest;
      PrependTwice([], [], ReadLiteral(rest, 0));
    } else {
      var first, more := t[0], t[1..];
      assert t == [first] + more && first in t && forall b | b in more :: b in t;
      ReadPlain(more, rest);
      ReadPlainFirst(first, more, rest);
    }
  }

  lemma PrependTwice(a: Bytes, b: Bytes, r: Option<(Bytes, Bytes)>)
    ensures Prepend(a, Prepend(b, r)) == Prepend(a + b, r)
    ensures Prepend([], r) == r
  {
    if r.Some? {
      assert a + (b + r.value.0) == (a + b) + r.value.0;
      assert [] + r.value.0 == r.value.0;
    }
  }

  lemma PlainChar(c: char)
    requires !Special(c) && c != '\r'
    ensures forall b | b in Utf8(c) :: Plain(b)
  {
  }

  lemma EncodeOne(c: char, s: string)
    ensures Encode([c] + s) == Utf8(c) + Encode(s)
  {
    assert ([c] + s)[1..] == s;
  }

  /** What the reader has before it: the escaped text, the writer's closing parenthesis, and anything after it. */
  function Written(s: string, rest: Bytes): (r: Bytes)
    ensures r != []
  {
    Encode(EscapeEach(s)) + ([CLOSE] + rest)
  }

  lemma BackslashByte()
    ensures Utf8('\\') == [BACKSLASH]
  {
  }

  lemma EncodeTwo(c: char, d: char, s: string)
    ensures Encode([c, d] + s) == Utf8(c) + Utf8(d) + Encode(s)
  {
    assert [c, d] + s == [c] + ([d] + s);
    EncodeOne(c, [d] + s);
    EncodeOne(d, s);
    Assoc(Utf8(c), Utf8(d), Encode(s));
  }

  lemma EscapedStep(s: string)
    requires s != ""
    ensures Encode(EscapeEach(s)) == (if Special(s[0]) then [BACKSLASH] + Utf8(s[0]) else Utf8(s[0]))
            + Encode(EscapeEach(s[1..]))
  {
    BackslashByte();
    EncodeTwo('\\', s[0], EscapeEach(s[1..]));
    EncodeOne(s[0], EscapeEach(s[1..]));
  }

  lemma WrittenStep(s: string, rest: Bytes)
    requires s != ""
    ensures Written(s, rest) == (if Special(s[0]) then [BACKSLASH] + Utf8(s[0]) else Utf8(s[0])) + Written(s[1..], rest)
  {
    EscapedStep(s);
    var head := if Special(s[0]) then [BACKSLASH] + Utf8(s[0]) else Utf8(s[0]);
    Assoc(head, Encode(EscapeEach(s[1..])), [CLOSE] + rest);
  }

  lemma ReadEscaped(c: char, tail: Bytes)
    requires Special(c)
    ensures ReadLiteral([BACKSLASH] + Utf8(c) + tail, 0) == Prepend(Utf8(c), ReadLiteral(tail, 0))
  {
    var t := [BACKSLASH] + Utf8(c) + tail;
    assert t[1..] == Utf8(c) + tail;
    assert t[2..] == tail;
  }

  /** A carriage return, with or without a line feed after it, is read as one line feed. */
  lemma ReadCr(tail: Bytes)
    requires tail != []
    ensures ReadLiteral([CR] + tail, 0) == Prepend([LF], ReadLiteral(if tail[0] == LF then tail[1..] else tail, 0))
  {
    var t := [CR] + tail;
    assert t[1..] == tail;
    if tail[0] == LF { assert t[2..] == tail[1..]; }
  }

  lemma StartsWithLineFeed(s: string, rest: Bytes)
    ensures Written(s, rest)[0] == LF <==> s != "" && s[0] == '\n'
    ensures s != "" && s[0] == '\n' ==> Written(s, rest)[1..] == Written(s[1..], rest)
  {
    if s != "" { WrittenStep(s, rest); }
  }

  /**
   For every string, the reader started after the writer's opening parenthesis
   stops exactly at the writer's closing parenthesis, whatever follows, and the
   value is the text with its line ends normalised.
   */
  lemma {:induction false} ReaderStopsAtWritersParenthesis(s: string, rest: Bytes)
    ensures ReadLiteral(Written(s, rest), 0) == Some((Encode(NormalEol(s)), [CLOSE] + rest))
    decreases |s|
  {
    if s == "" {
      assert Written(s, rest) == [CLOSE] + rest;
    } else {
      WrittenStep(s, rest);
      if s[0] == '\r' {
        ReadCr(Written(s[1..], rest));
        StartsWithLineFeed(s[1..], rest);
        var more := if |s| > 1 && s[1] == '\n' then s[2..] else s[1..];
        assert |s| > 1 ==> s[1..][1..] == s[2..];
        ReaderStopsAtWritersParenthesis(more, rest);
        EncodeOne('\n', NormalEol(more));
      } else {
        ReaderStopsAtWritersParenthesis(s[1..], rest);
        EncodeOne(s[0], NormalEol(s[1..]));
        if Special(s[0]) {
          ReadEscaped(s[0], Written(s[1..], rest));
        } else {
          PlainChar(s[0]);
          ReadPlain(Utf8(s[0]), Written(s[1..], rest));
        }
      }
    }
  }

  /** Normalising changes nothing exactly when the text has no carriage return. */
  lemma {:induction false} NormalEolExact(s: string)
    ensures NormalEol(s) == s <==> '\r' !in s
    decreases |s|
  {
    if s != "" && s[0] != '\r' {
      NormalEolExact(s[1..]);
      assert s == [s[0]] + s[1..];
    }
  }

  lemma {:induction false} NormalEolHasNone(s: string)
    ensures '\r' !in NormalEol(s)
    decreases |s|
  {
    if s != "" {
      NormalEolHasNone(if s[0] == '\r' && |s| > 1 && s[1] == '\n' then s[2..] else s[1..]);
    }
  }

  lemma OneCharacterCr(c: char)
    ensures CR in Utf8(c) <==> c == '\r'
  {
    if c == '\r' { assert Utf8(c)[0] == CR; }
  }

  lemma {:induction false} EncodedCr(s: string)
    ensures CR in Encode(s) <==> '\r' in s
  {
    if s != "" {
      OneCharacterCr(s[0]);
      EncodedCr(s[1..]);
      assert s == [s[0]] + s[1..] && Encode(s) == Utf8(s[0]) + Encode(s[1..]);
    }
  }

  /** Unescaping what was escaped returns exactly the text if and only if the text has no carriage return. */
  lemma RoundTripExactly(s: string, rest: Bytes)
    ensures ReadLiteral(Encode(EscapePdfText(s)) + ([CLOSE] + rest), 0) == Some((Encode(s), [CLOSE] + rest))
            <==> '\r' !in s
  {
    ThreePassesAreOne(s);
    ReaderStopsAtWritersParenthesis(s, rest);
    NormalEolExact(s);
    NormalEolHasNone(s);
    EncodedCr(s);
    EncodedCr(NormalEol(s));
  }
}
