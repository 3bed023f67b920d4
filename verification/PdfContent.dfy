/**
 The content stream of the page: the writer, and a reader after ISO 32000-1
 that takes the stream apart into operands and operators (section 7.8.2) and
 follows the text operators (9.4) to find what is shown, and where.
 */
module PdfContent {
  import opened Wrappers
  import opened PdfText
  import opened PdfFile
  import opened PythonText

  // ---------- the writer ----------

  function ShowLine(line: string): string { "(" + EscapePdfText(line) + ") Tj" }

  function TextLines(lines: seq<string>, first: bool): seq<string> {
    if lines == [] then []
    else (if first then [] else ["0 -14 Td"]) + [ShowLine(lines[0])] + TextLines(lines[1..], false)
  }

  function Content(lines: seq<string>): seq<string> {
    ["BT", "/F1 11 Tf", "50 780 Td"] + TextLines(lines, true) + ["ET"]
  }

  function Stream(lines: seq<string>): Bytes { Encode(Joined(Content(lines))) }

  method WriteStream(lines: seq<string>) returns (stream: Bytes)
    ensures stream == Stream(lines)
  {
    var content := ["BT", "/F1 11 Tf", "50 780 Td"];
    var first := true;
    ghost var head := content;
    for i := 0 to |lines|
      invariant content + TextLines(lines[i..], first) == head + TextLines(lines, true)
    {
      var escaped := EscapePdfText(lines[i]);
      ghost var before := content;
      ghost var wasFirst := first;
      if first {
        content := content + ["(" + escaped + ") Tj"];
        first := false;
      } else {
        content := content + ["0 -14 Td"];
        content := content + ["(" + escaped + ") Tj"];
      }
      assert lines[i..][1..] == lines[i + 1..];
      assert content + TextLines(lines[i + 1..], false) == before + TextLines(lines[i..], wasFirst);
    }
    content := content + ["ET"];
    assert content == Content(lines);
    stream := Encode(Joined(content));
  }

  // ---------- the reader: tokens ----------

  datatype Op = BeginText | EndText | SetFont | NextLine | Show | Unknown

  datatype Token = Number(value: int) | Name(name: Bytes) | Text(bytes: Bytes) | Operator(op: Op)

  const SLASH: Byte := 47
  const MINUS: Byte := 45

  predicate IsWhite(b: Byte) { b == 0 || b == 9 || b == LF || b == 12 || b == CR || b == 32 }

  predicate IsDelimiter(b: Byte) {
    // ( ) < > [ ] { } / %
    || b == OPEN || b == CLOSE || b == 60 || b == 62 || b == 91 || b == 93 || b == 123 || b == 125 || b == SLASH
    || b == 37
  }

  predicate Regular(b: Byte) { !IsWhite(b) && !IsDelimiter(b) }

  predicate AllRegular(w: Bytes) { forall b | b in w :: Regular(b) }

  function Word(t: Bytes): (w: Bytes)
    ensures |w| <= |t|
  {
    if t == [] || !Regular(t[0]) then [] else [t[0]] + Word(t[1..])
  }

  function OpOf(w: Bytes): Op {
    if |w| != 2 then Unknown else
    match (w[0], w[1])
    case (66, 84) => BeginText     // BT
    case (69, 84) => EndText       // ET
    case (84, 102) => SetFont      // Tf
    case (84, 100) => NextLine     // Td
    case (84, 106) => Show         // Tj
    case _ => Unknown
  }

  function WordToken(w: Bytes): Token
    requires w != []
  {
    if Digits(w) then Number(Value(w))
    else if w[0] == MINUS && |w| > 1 && Digits(w[1..]) then Number(0 - Value(w[1..]))
    else Operator(OpOf(w))
  }

  function Before(first: seq<Token>, more: Option<seq<Token>>): Option<seq<Token>> {
    if more.None? then None else Some(first + more.value)
  }

  function Tokens(t: Bytes): Option<seq<Token>>
    decreases |t|
  {
    if t == [] then Some([])
    else if IsWhite(t[0]) then Tokens(t[1..])
    else if t[0] == OPEN then
      var r := ReadLiteral(t[1..], 0);
      if r.None? then None else Before([Text(r.value.0)], Tokens(r.value.1[1..]))
    else if t[0] == SLASH then Before([Name(Word(t[1..]))], Tokens(t[1 + |Word(t[1..])|..]))
    else if !Regular(t[0]) then None
    else Before([WordToken(Word(t))], Tokens(t[|Word(t)|..]))
  }

  // ---------- the reader: what is shown ----------

  datatype Font = Font(name: Bytes, size: int)

  /** A string that is shown: where its line begins, and in what font. */
  datatype Placed = Placed(x: int, y: int, font: Font, bytes: Bytes)

  /** Whether a text object is open, where its present line begins, the font, and what has been shown. */
  datatype Page = Page(open: bool, x: int, y: int, font: Option<Font>, shown: seq<Placed>)

  const BLANK := Page(false, 0, 0, None, [])

  function Apply(op: Op, operands: seq<Token>, p: Page): Option<Page> {
    match op
    case BeginText => if operands == [] && !p.open then Some(p.(open := true, x := 0, y := 0)) else None
    case EndText => if operands == [] && p.open then Some(p.(open := false)) else None
    case SetFont =>
      if |operands| == 2 && operands[0].Name? && operands[1].Number?
      then Some(p.(font := Some(Font(operands[0].name, operands[1].value)))) else None
    case NextLine =>
      if |operands| == 2 && operands[0].Number? && operands[1].Number? && p.open
      then Some(p.(x := p.x + operands[0].value, y := p.y + operands[1].value)) else None
    case Show =>
      if |operands| == 1 && operands[0].Text? && p.open && p.font.Some?
      then Some(p.(shown := p.shown + [Placed(p.x, p.y, p.font.value, operands[0].bytes)])) else None
    case Unknown => None
  }

  /** The page after the tokens; `operands` waits for its operator. */
  function Follow(tokens: seq<Token>, operands: seq<Token>, p: Page): Option<Page>
    decreases |tokens|
  {
    if tokens == [] then (if operands == [] then Some(p) else None)
    else if !tokens[0].Operator? then Follow(tokens[1..], operands + [tokens[0]], p)
    else
      var after := Apply(tokens[0].op, operands, p);
      if after.None? then None else Follow(tokens[1..], [], after.value)
  }

  /** What a content stream shows; None if it is malformed. */
  function ShownBy(t: Bytes): Option<seq<Placed>> {
    var tokens := Tokens(t);
    if tokens.None? then None else
    var page := Follow(tokens.value, [], BLANK);
    if page.None? || page.value.open then None else Some(page.value.shown)
  }

  // ---------- reading tokens that were written ----------

  /** The tokens go on with something that is no regular byte. */
  predicate Ends(rest: Bytes) { rest == [] || !Regular(rest[0]) }

  lemma {:induction false} WordFound(w: Bytes, rest: Bytes)
    requires AllRegular(w) && Ends(rest)
    ensures Word(w + rest) == w
  {
    if w == [] {
      assert w + rest == rest;
    } else {
      assert w[0] in w && forall b | b in w[1..] :: b in w;
      WordFound(w[1..], rest);
      assert (w + rest)[1..] == w[1..] + rest && w == [w[0]] + w[1..];
    }
  }

  lemma WordRead(w: Bytes, rest: Bytes)
    requires w != [] && AllRegular(w) && Ends(rest)
    ensures Tokens(w + rest) == Before([WordToken(w)], Tokens(rest))
  {
    WordFound(w, rest);
    Cut(w, rest);
    assert (w + rest)[0] == w[0] && w[0] in w;
  }

  lemma NameRead(w: Bytes, rest: Bytes)
    requires AllRegular(w) && Ends(rest)
    ensures Tokens([SLASH] + (w + rest)) == Before([Name(w)], Tokens(rest))
  {
    WordFound(w, rest);
    Cut([SLASH], w + rest);
    Cut(w, rest);
    var t := [SLASH] + (w + rest);
    assert t[1 + |w|..] == t[1..][|w|..];
  }

  lemma WhiteRead(b: Byte, rest: Bytes)
    requires IsWhite(b)
    ensures Tokens([b] + rest) == Tokens(rest)
  {
    Cut([b], rest);
  }

  // ---------- items: tokens as the writer spells them ----------

  /** A token, its bytes, and the white space after it. */
  datatype Item = Item(bytes: Bytes, token: Token, after: Byte)

  function Quoted(s: string): Bytes { [OPEN] + (Encode(EscapePdfText(s)) + [CLOSE]) }

  ghost predicate Good(i: Item) {
    && IsWhite(i.after)
    && match i.token
       case Name(name) => i.bytes == [SLASH] + name && AllRegular(name)
       case Text(value) => exists s :: '\r' !in s && i.bytes == Quoted(s) && value == Encode(s)
       case _ => i.bytes != [] && AllRegular(i.bytes) && WordToken(i.bytes) == i.token
  }

  ghost predicate AllGood(items: seq<Item>) { forall i | i in items :: Good(i) }

  lemma QuotedRead(s: string, rest: Bytes)
    requires '\r' !in s
    ensures Tokens(Quoted(s) + rest) == Before([Text(Encode(s))], Tokens(rest))
  {
    var escaped := Encode(EscapePdfText(s));
    Nest([OPEN], escaped, [CLOSE], rest);
    RoundTripExactly(s, rest);
    LiteralRead(escaped + ([CLOSE] + rest), Encode(s), rest);
  }

  lemma Nest(a: Bytes, b: Bytes, c: Bytes, rest: Bytes)
    ensures a + (b + c) + rest == a + (b + (c + rest))
  {
  }

  lemma LiteralRead(t: Bytes, value: Bytes, rest: Bytes)
    requires ReadLiteral(t, 0) == Some((value, [CLOSE] + rest))
    ensures Tokens([OPEN] + t) == Before([Text(value)], Tokens(rest))
  {
    Cut([OPEN], t);
    Cut([CLOSE], rest);
  }

  lemma ItemRead(i: Item, rest: Bytes)
    requires Good(i)
    ensures Tokens(i.bytes + ([i.after] + rest)) == Before([i.token], Tokens(rest))
  {
    WhiteRead(i.after, rest);
    if i.token.Name? {
      NameRead(i.token.name, [i.after] + rest);
      Assoc([SLASH], i.token.name, [i.after] + rest);
    } else if i.token.Text? {
      var s :| '\r' !in s && i.bytes == Quoted(s) && i.token.bytes == Encode(s);
      QuotedRead(s, [i.after] + rest);
    } else {
      WordRead(i.bytes, [i.after] + rest);
    }
  }

  function Spelled(items: seq<Item>, tail: Bytes): Bytes {
    if items == [] then tail else items[0].bytes + ([items[0].after] + Spelled(items[1..], tail))
  }

  function TokensOf(items: seq<Item>): seq<Token> {
    if items == [] then [] else [items[0].token] + TokensOf(items[1..])
  }

  lemma {:induction false} SpelledRead(items: seq<Item>, tail: Bytes, last: seq<Token>)
    requires AllGood(items) && Tokens(tail) == Some(last)
    ensures Tokens(Spelled(items, tail)) == Some(TokensOf(items) + last)
  {
    if items == [] {
      assert TokensOf(items) + last == last;
    } else {
      assert Good(items[0]) && forall i | i in items[1..] :: i in items;
      SpelledRead(items[1..], tail, last);
      ItemBefore(items[0], Spelled(items[1..], tail), TokensOf(items[1..]), last);
    }
  }

  lemma ItemBefore(i: Item, t: Bytes, more: seq<Token>, last: seq<Token>)
    requires Good(i) && Tokens(t) == Some(more + last)
    ensures Tokens(i.bytes + ([i.after] + t)) == Some([i.token] + more + last)
  {
    ItemRead(i, t);
    assert [i.token] + (more + last) == [i.token] + more + last;
  }

  lemma {:induction false} SpelledConcat(a: seq<Item>, b: seq<Item>, tail: Bytes)
    ensures Spelled(a + b, tail) == Spelled(a, Spelled(b, tail)) && TokensOf(a + b) == TokensOf(a) + TokensOf(b)
  {
    if a == [] {
      assert a + b == b;
    } else {
      SpelledConcat(a[1..], b, tail);
      assert (a + b)[1..] == a[1..] + b && (a + b)[0] == a[0];
    }
  }

  lemma SpelledTwo(a: Item, b: Item, tail: Bytes)
    ensures Spelled([a, b], tail) == a.bytes + ([a.after] + (b.bytes + ([b.after] + tail)))
    ensures TokensOf([a, b]) == [a.token, b.token]
  {
    assert [a, b][1..] == [b] && [b][1..] == [];
    assert Spelled([b], tail) == b.bytes + ([b.after] + tail);
    assert [b.token] + [] == [b.token];
    assert TokensOf([a, b]) == [a.token] + TokensOf([b]);
  }

  lemma SpelledThree(a: Item, b: Item, c: Item, tail: Bytes)
    ensures Spelled([a, b, c], tail) == a.bytes + ([a.after] + (b.bytes + ([b.after] + (c.bytes + ([c.after] + tail)))))
  {
    var items := [a, b, c];
    assert items[1..] == [b, c];
    SpelledTwo(b, c, tail);
    assert Spelled(items, tail) == a.bytes + ([a.after] + Spelled(items[1..], tail));
  }

  lemma ThreeTokens(a: Item, b: Item, c: Item)
    ensures TokensOf([a, b, c]) == [a.token, b.token, c.token]
  {
    assert [a, b, c][1..] == [b, c];
    SpelledTwo(b, c, []);
    assert [a.token] + [b.token, c.token] == [a.token, b.token, c.token];
  }

  // ---------- the lines of the writer ----------

  const BEGIN_TEXT := [Item([66, 84], Operator(BeginText), LF)]
  const SET_FONT := [
    Item([SLASH, 70, 49], Name([70, 49]), 32), Item([49, 49], Number(11), 32), Item([84, 102], Operator(SetFont), LF)]
  const START := [
    Item([53, 48], Number(50), 32), Item([55, 56, 48], Number(780), 32), Item([84, 100], Operator(NextLine), LF)]
  const NEXT := [
    Item([48], Number(0), 32), Item([MINUS, 49, 52], Number(-14), 32), Item([84, 100], Operator(NextLine), LF)]

  function ShowItems(line: string): seq<Item> {
    [Item(Quoted(line), Text(Encode(line)), 32), Item([84, 106], Operator(Show), LF)]
  }

  function TextItems(lines: seq<string>, first: bool): seq<Item> {
    if lines == [] then []
    else (if first then [] else NEXT) + (ShowItems(lines[0]) + TextItems(lines[1..], false))
  }

  lemma OneDigit(a: Byte)
    requires IsDigit(a)
    ensures Digits([a]) && Value([a]) == (a - 48) as int
  {
    assert [a][..0] == [];
  }

  lemma TwoDigits(a: Byte, b: Byte)
    requires IsDigit(a) && IsDigit(b)
    ensures Digits([a, b]) && Value([a, b]) == 10 * (a - 48) as int + (b - 48) as int
  {
    assert [a, b][..1] == [a];
    OneDigit(a);
  }

  lemma OperatorGood(a: Byte, b: Byte)
    requires Regular(a) && Regular(b) && !IsDigit(a) && a != MINUS
    ensures Good(Item([a, b], Operator(OpOf([a, b])), LF))
  {
    assert a in [a, b];
  }

  lemma NumberGood(w: Bytes)
    requires w != [] && Digits(w)
    ensures Good(Item(w, Number(Value(w)), 32)) && Good(Item([MINUS] + w, Number(0 - Value(w)), 32))
  {
    forall b | b in [MINUS] + w ensures Regular(b) { }
    assert MINUS in [MINUS] + w && ([MINUS] + w)[1..] == w;
  }

  lemma ThreeGood(a: Item, b: Item, c: Item)
    requires Good(a) && Good(b) && Good(c)
    ensures AllGood([a, b, c])
  {
  }

  lemma OperatorsGood()
    ensures Good(Item([66, 84], Operator(BeginText), LF)) && Good(Item([84, 102], Operator(SetFont), LF))
    ensures Good(Item([84, 100], Operator(NextLine), LF)) && Good(Item([84, 106], Operator(Show), LF))
  {
    OperatorGood(66, 84);
    OperatorGood(84, 102);
    OperatorGood(84, 100);
    OperatorGood(84, 106);
  }

  lemma SetFontGood()
    ensures AllGood(SET_FONT)
  {
    OperatorsGood();
    TwoDigits(49, 49);
    NumberGood([49, 49]);
    assert [SLASH, 70, 49] == [SLASH] + [70, 49];
    ThreeGood(SET_FONT[0], SET_FONT[1], SET_FONT[2]);
  }

  lemma StartGood()
    ensures AllGood(START)
  {
    OperatorsGood();
    TwoDigits(53, 48);
    NumberGood([53, 48]);
    TwoDigits(55, 56);
    assert [55, 56, 48][..2] == [55, 56];
    NumberGood([55, 56, 48]);
    ThreeGood(START[0], START[1], START[2]);
  }

  lemma NextGood()
    ensures AllGood(NEXT)
  {
    OperatorsGood();
    OneDigit(48);
    NumberGood([48]);
    TwoDigits(49, 52);
    NumberGood([49, 52]);
    assert [MINUS] + [49, 52] == [MINUS, 49, 52];
    ThreeGood(NEXT[0], NEXT[1], NEXT[2]);
  }

  lemma ShowLineBytes(line: string)
    ensures Encode(ShowLine(line)) == [OPEN] + (Encode(EscapePdfText(line)) + ([CLOSE] + Ascii(" Tj")))
  {
    var escaped := EscapePdfText(line);
    EncodeConcat("(" + escaped, ") Tj");
    EncodeConcat("(", escaped);
    EncodeAscii("(");
    EncodeAscii(") Tj");
    assert Ascii(") Tj") == [CLOSE] + Ascii(" Tj");
  }

  lemma JoinNext(line: string, lines: seq<string>)
    requires lines != []
    ensures Encode(Joined([line] + lines)) == Encode(line) + ([LF] + Encode(Joined(lines)))
  {
    assert ([line] + lines)[1..] == lines;
    EncodeConcat(line + "\n", Joined(lines));
    EncodeConcat(line, "\n");
    EncodeAscii("\n");
  }

  lemma NextSpelled(tail: Bytes)
    ensures Spelled(NEXT, tail) == Encode("0 -14 Td") + ([LF] + tail)
  {
    EncodeAscii("0 -14 Td");
    SpelledThree(NEXT[0], NEXT[1], NEXT[2], tail);
    assert Ascii("0 -14 Td") == [48, 32, MINUS, 49, 52, 32, 84, 100];
  }

  lemma StartSpelled(tail: Bytes)
    ensures Spelled(START, tail) == Encode("50 780 Td") + ([LF] + tail)
  {
    EncodeAscii("50 780 Td");
    SpelledThree(START[0], START[1], START[2], tail);
    assert Ascii("50 780 Td") == [53, 48, 32, 55, 56, 48, 32, 84, 100];
  }

  lemma SetFontSpelled(tail: Bytes)
    ensures Spelled(SET_FONT, tail) == Encode("/F1 11 Tf") + ([LF] + tail)
  {
    EncodeAscii("/F1 11 Tf");
    SpelledThree(SET_FONT[0], SET_FONT[1], SET_FONT[2], tail);
    assert Ascii("/F1 11 Tf") == [SLASH, 70, 49, 32, 49, 49, 32, 84, 102];
  }

  lemma ShowSpelled(line: string, tail: Bytes)
    ensures Spelled(ShowItems(line), tail) == Encode(ShowLine(line)) + ([LF] + tail)
    ensures TokensOf(ShowItems(line)) == [Text(Encode(line)), Operator(Show)]
  {
    ShowLineBytes(line);
    SpelledTwo(ShowItems(line)[0], ShowItems(line)[1], tail);
    ShowPieces([OPEN], Encode(EscapePdfText(line)), [CLOSE], [LF] + tail);
  }

  lemma ShowPieces(a: Bytes, b: Bytes, c: Bytes, tail: Bytes)
    ensures a + (b + (c + Ascii(" Tj"))) + tail == a + (b + c) + ([32] + ([84, 106] + tail))
  {
    assert Ascii(" Tj") == [32] + [84, 106];
  }

  lemma TextLinesFirst(lines: seq<string>, first: bool)
    requires lines != []
    ensures var show := [ShowLine(lines[0])] + (TextLines(lines[1..], false) + ["ET"]);
      TextLines(lines, first) + ["ET"] == if first then show else ["0 -14 Td"] + show
  {
  }

  const END: Bytes := [69, 84]   // ET

  /** The lines of the writer are these items and the last operator. */
  lemma {:induction false} TextSpelled(lines: seq<string>, first: bool)
    ensures Encode(Joined(TextLines(lines, first) + ["ET"])) == Spelled(TextItems(lines, first), END)
  {
    if lines == [] {
      assert TextLines(lines, first) + ["ET"] == ["ET"];
      EncodeAscii("ET");
    } else {
      TextSpelled(lines[1..], false);
      var more := TextLines(lines[1..], false) + ["ET"];
      var items := TextItems(lines[1..], false);
      TextLinesFirst(lines, first);
      JoinNext(ShowLine(lines[0]), more);
      ShowSpelled(lines[0], Spelled(items, END));
      SpelledConcat(ShowItems(lines[0]), items, END);
      var rest := ShowItems(lines[0]) + items;
      assert [] + rest == rest;
      if !first {
        JoinNext("0 -14 Td", [ShowLine(lines[0])] + more);
        NextSpelled(Spelled(rest, END));
        SpelledConcat(NEXT, rest, END);
      }
    }
  }

  lemma {:induction false} TextGood(lines: seq<string>, first: bool)
    requires forall line | line in lines :: '\r' !in line
    ensures AllGood(TextItems(lines, first))
  {
    if lines != [] {
      assert lines[0] in lines && forall line | line in lines[1..] :: line in lines;
      TextGood(lines[1..], false);
      ShowGood(lines[0]);
      NextGood();
    }
  }

  lemma ShowGood(line: string)
    requires '\r' !in line
    ensures AllGood(ShowItems(line))
  {
    OperatorsGood();
    assert Good(ShowItems(line)[0]);
  }

  const HEAD := BEGIN_TEXT + SET_FONT + START

  lemma HeadGood()
    ensures AllGood(HEAD)
  {
    OperatorsGood();
    SetFontGood();
    StartGood();
  }

  lemma HeadSpelled(tail: Bytes)
    ensures Spelled(HEAD, tail)
            == Encode("BT") + ([LF] + (Encode("/F1 11 Tf") + ([LF] + (Encode("50 780 Td") + ([LF] + tail)))))
  {
    StartSpelled(tail);
    SetFontSpelled(Spelled(START, tail));
    SpelledConcat(BEGIN_TEXT + SET_FONT, START, tail);
    SpelledConcat(BEGIN_TEXT, SET_FONT, Spelled(START, tail));
    BeginSpelled(Spelled(SET_FONT, Spelled(START, tail)));
  }

  lemma BeginSpelled(tail: Bytes)
    ensures Spelled(BEGIN_TEXT, tail) == Encode("BT") + ([LF] + tail) && TokensOf(BEGIN_TEXT) == [Operator(BeginText)]
  {
    EncodeAscii("BT");
    assert Ascii("BT") == [66, 84] && BEGIN_TEXT[1..] == [];
    assert Spelled(BEGIN_TEXT[1..], tail) == tail;
  }

  /** The whole stream is spelled by its items. */
  lemma StreamSpelled(lines: seq<string>)
    ensures Stream(lines) == Spelled(HEAD + TextItems(lines, true), END)
  {
    var text := TextLines(lines, true) + ["ET"];
    assert Content(lines) == ["BT"] + (["/F1 11 Tf"] + (["50 780 Td"] + text));
    JoinNext("BT", ["/F1 11 Tf"] + (["50 780 Td"] + text));
    JoinNext("/F1 11 Tf", ["50 780 Td"] + text);
    JoinNext("50 780 Td", text);
    TextSpelled(lines, true);
    HeadSpelled(Encode(Joined(text)));
    SpelledConcat(HEAD, TextItems(lines, true), END);
  }

  lemma StreamTokens(lines: seq<string>)
    requires forall line | line in lines :: '\r' !in line
    ensures Tokens(Stream(lines)) == Some(TokensOf(HEAD) + (TokensOf(TextItems(lines, true)) + [Operator(EndText)]))
  {
    var items := HEAD + TextItems(lines, true);
    StreamSpelled(lines);
    HeadGood();
    TextGood(lines, true);
    EndRead();
    SpelledRead(items, END, [Operator(EndText)]);
    SpelledConcat(HEAD, TextItems(lines, true), END);
    assert TokensOf(items) + [Operator(EndText)]
        == TokensOf(HEAD) + (TokensOf(TextItems(lines, true)) + [Operator(EndText)]);
  }

  lemma EndRead()
    ensures Tokens(END) == Some([Operator(EndText)])
  {
    OperatorGood(69, 84);
    WordRead(END, []);
    assert END + [] == END && [Operator(EndText)] + [] == [Operator(EndText)];
  }

  // ---------- what the stream shows ----------

  lemma {:induction false} FollowOperands(start: seq<Token>, operands: seq<Token>, op: Op, more: seq<Token>, p: Page)
    requires forall o | o in operands :: !o.Operator?
    ensures var after := Apply(op, start + operands, p);
      Follow(operands + ([Operator(op)] + more), start, p) ==
      if after.None? then None else Follow(more, [], after.value)
    decreases |operands|
  {
    if operands == [] {
      assert operands + ([Operator(op)] + more) == [Operator(op)] + more && start + operands == start;
      assert ([Operator(op)] + more)[1..] == more;
    } else {
      assert operands[0] in operands && forall o | o in operands[1..] :: o in operands;
      FollowOperands(start + [operands[0]], operands[1..], op, more, p);
      var tokens := operands + ([Operator(op)] + more);
      assert tokens[1..] == operands[1..] + ([Operator(op)] + more);
      assert start + [operands[0]] + operands[1..] == start + operands;
    }
  }

  /** The lines one under the other, 14 units apart. */
  function PlacedFrom(lines: seq<string>, x: int, y: int, font: Font): seq<Placed> {
    if lines == [] then [] else [Placed(x, y, font, Encode(lines[0]))] + PlacedFrom(lines[1..], x, y - 14, font)
  }

  lemma {:induction false} PlacedAt(lines: seq<string>, x: int, y: int, font: Font, i: nat)
    ensures |PlacedFrom(lines, x, y, font)| == |lines|
    ensures i < |lines| ==> PlacedFrom(lines, x, y, font)[i] == Placed(x, y - 14 * i, font, Encode(lines[i]))
  {
    if lines != [] { PlacedAt(lines[1..], x, y - 14, font, if i > 0 then i - 1 else 0); }
  }

  lemma CommandTwo(a: Token, b: Token, op: Op, more: seq<Token>, p: Page)
    requires !a.Operator? && !b.Operator? && Apply(op, [a, b], p).Some?
    ensures Follow([a, b, Operator(op)] + more, [], p) == Follow(more, [], Apply(op, [a, b], p).value)
  {
    FollowOperands([], [a, b], op, more, p);
    assert [] + [a, b] == [a, b];
    assert [a, b, Operator(op)] + more == [a, b] + ([Operator(op)] + more);
  }

  lemma CommandOne(a: Token, op: Op, more: seq<Token>, p: Page)
    requires !a.Operator? && Apply(op, [a], p).Some?
    ensures Follow([a, Operator(op)] + more, [], p) == Follow(more, [], Apply(op, [a], p).value)
  {
    FollowOperands([], [a], op, more, p);
    assert [] + [a] == [a];
    assert [a, Operator(op)] + more == [a] + ([Operator(op)] + more);
  }

  /** The text object is closed, and these have been shown. */
  predicate Ended(end: Option<Page>, shown: seq<Placed>) { end.Some? && !end.value.open && end.value.shown == shown }

  lemma ShowFollowed(line: string, more: seq<Token>, p: Page, font: Font)
    requires p.open && p.font == Some(font)
    ensures Follow(TokensOf(ShowItems(line)) + more, [], p) ==
            Follow(more, [], p.(shown := p.shown + [Placed(p.x, p.y, font, Encode(line))]))
  {
    ShowSpelled(line, []);
    CommandOne(Text(Encode(line)), Show, more, p);
  }

  lemma MoveFollowed(items: seq<Item>, a: int, b: int, more: seq<Token>, p: Page)
    requires TokensOf(items) == [Number(a), Number(b), Operator(NextLine)] && p.open
    ensures Follow(TokensOf(items) + more, [], p) == Follow(more, [], p.(x := p.x + a, y := p.y + b))
  {
    CommandTwo(Number(a), Number(b), NextLine, more, p);
  }

  lemma NextFollowed(more: seq<Token>, p: Page)
    requires p.open
    ensures Follow(TokensOf(NEXT) + more, [], p) == Follow(more, [], p.(y := p.y - 14))
  {
    ThreeTokens(NEXT[0], NEXT[1], NEXT[2]);
    MoveFollowed(NEXT, 0, -14, more, p);
  }

  lemma EndFollowed(p: Page)
    requires p.open
    ensures Ended(Follow([Operator(EndText)], [], p), p.shown)
  {
  }

  lemma {:induction false} TextFollowed(lines: seq<string>, first: bool, p: Page, font: Font)
    requires p.open && p.font == Some(font)
    ensures Ended(Follow(TokensOf(TextItems(lines, first)) + [Operator(EndText)], [], p),
                  p.shown + PlacedFrom(lines, p.x, if first then p.y else p.y - 14, font))
    decreases |lines|
  {
    if lines == [] {
      EndFollowed(p);
      assert TokensOf([]) + [Operator(EndText)] == [Operator(EndText)];
      assert p.shown + [] == p.shown;
    } else {
      var rest := TokensOf(TextItems(lines[1..], false)) + [Operator(EndText)];
      var here := if first then p else p.(y := p.y - 14);
      var placed := [Placed(here.x, here.y, font, Encode(lines[0]))];
      TextFollowed(lines[1..], false, here.(shown := p.shown + placed), font);
      ShowFollowed(lines[0], rest, here, font);
      if !first { NextFollowed(TokensOf(ShowItems(lines[0])) + rest, p); }
      TextTokens(lines, first, [Operator(EndText)]);
      Assoc(p.shown, placed, PlacedFrom(lines[1..], here.x, here.y - 14, font));
    }
  }

  lemma TextTokens(lines: seq<string>, first: bool, end: seq<Token>)
    requires lines != []
    ensures var more := TokensOf(ShowItems(lines[0])) + (TokensOf(TextItems(lines[1..], false)) + end);
      TokensOf(TextItems(lines, first)) + end == if first then more else TokensOf(NEXT) + more
  {
    var show, items := ShowItems(lines[0]), TextItems(lines[1..], false);
    SpelledConcat(show, items, []);
    SpelledConcat(NEXT, show + items, []);
    assert [] + (show + items) == show + items;
    Assoc(TokensOf(show), TokensOf(items), end);
    Assoc(TokensOf(NEXT), TokensOf(show + items), end);
  }

  /** Font F1 of the page's resources, in 11 units. */
  const F1 := Font([70, 49], 11)

  lemma BeginFollowed(more: seq<Token>)
    ensures Follow(TokensOf(BEGIN_TEXT) + more, [], BLANK) == Follow(more, [], BLANK.(open := true))
  {
    BeginSpelled([]);
    FollowOperands([], [], BeginText, more, BLANK);
    assert [] + ([Operator(BeginText)] + more) == [Operator(BeginText)] + more;
  }

  lemma FontFollowed(more: seq<Token>, p: Page)
    ensures Follow(TokensOf(SET_FONT) + more, [], p) == Follow(more, [], p.(font := Some(F1)))
  {
    ThreeTokens(SET_FONT[0], SET_FONT[1], SET_FONT[2]);
    CommandTwo(Name([70, 49]), Number(11), SetFont, more, p);
  }

  lemma StartFollowed(more: seq<Token>, p: Page)
    requires p.open
    ensures Follow(TokensOf(START) + more, [], p) == Follow(more, [], p.(x := p.x + 50, y := p.y + 780))
  {
    ThreeTokens(START[0], START[1], START[2]);
    MoveFollowed(START, 50, 780, more, p);
  }

  lemma HeadFollowed(more: seq<Token>)
    ensures Follow(TokensOf(HEAD) + more, [], BLANK) == Follow(more, [], Page(true, 50, 780, Some(F1), []))
  {
    HeadTokens(more);
    BeginFollowed(TokensOf(SET_FONT) + (TokensOf(START) + more));
    FontFollowed(TokensOf(START) + more, BLANK.(open := true));
    StartFollowed(more, BLANK.(open := true, font := Some(F1)));
  }

  lemma HeadTokens(more: seq<Token>)
    ensures TokensOf(HEAD) + more == TokensOf(BEGIN_TEXT) + (TokensOf(SET_FONT) + (TokensOf(START) + more))
  {
    SpelledConcat(BEGIN_TEXT + SET_FONT, START, []);
    SpelledConcat(BEGIN_TEXT, SET_FONT, []);
    Assoc(TokensOf(BEGIN_TEXT) + TokensOf(SET_FONT), TokensOf(START), more);
    Assoc(TokensOf(BEGIN_TEXT), TokensOf(SET_FONT), TokensOf(START) + more);
  }

  /** For any lines without a carriage return: they are shown one under the other from (50, 780) on, byte for byte. */
  lemma StreamRead(lines: seq<string>)
    requires forall line | line in lines :: '\r' !in line
    ensures ShownBy(Stream(lines)) == Some(PlacedFrom(lines, 50, 780, F1))
  {
    StreamTokens(lines);
    HeadFollowed(TokensOf(TextItems(lines, true)) + [Operator(EndText)]);
    TextFollowed(lines, true, Page(true, 50, 780, Some(F1), []), F1);
    assert [] + PlacedFrom(lines, 50, 780, F1) == PlacedFrom(lines, 50, 780, F1);
  }
}
