/**
 The one-page PDF writer of the benchmark builder, and a reader that follows
 ISO 32000-1: it finds the cross-reference table from the end of the file
 (section 7.5.5), looks objects up in its 20-byte entries (7.5.4) and takes the
 stream by its Length (7.3.8.2).
 */
module PdfFile {
  import opened Wrappers
  import opened PdfText
  import opened PythonText

  // ---------- ASCII and numbers ----------

  function Ascii(s: string): (r: Bytes)
    ensures |r| == |s|
  {
    seq(|s|, i requires 0 <= i < |s| => if s[i] < '\U{0080}' then s[i] as int else 63)
  }

  lemma {:induction false} EncodeAscii(s: string)
    requires forall c | c in s :: c < '\U{0080}'
    ensures Encode(s) == Ascii(s)
  {
    if s != "" {
      assert s[0] in s && forall c | c in s[1..] :: c in s;
      EncodeAscii(s[1..]);
      assert Ascii(s) == [s[0] as int] + Ascii(s[1..]);
    }
  }

  predicate IsDigit(b: Byte) { 48 <= b <= 57 }

  predicate Digits(d: Bytes) { forall b | b in d :: IsDigit(b) }

  function Decimal(n: nat): (d: Bytes)
    ensures d != [] && Digits(d)
  {
    if n < 10 then [48 + n] else Decimal(n / 10) + [48 + n % 10]
  }

  function Value(d: Bytes): nat
    requires Digits(d)
    decreases |d|
  {
    if d == [] then 0 else
    var front, last := d[..|d| - 1], d[|d| - 1];
    assert last in d && forall b | b in front :: b in d;
    10 * Value(front) + (last - 48) as int
  }

  lemma {:induction false} DecimalValue(n: nat)
    ensures Value(Decimal(n)) == n
  {
    if n >= 10 {
      DecimalValue(n / 10);
      assert Decimal(n)[..|Decimal(n)| - 1] == Decimal(n / 10);
    }
  }

  function Pow10(k: nat): nat { if k == 0 then 1 else 10 * Pow10(k - 1) }

  const TEN_DIGITS: nat := 10_000_000_000

  lemma {:induction false} DecimalLength(n: nat, k: nat)
    requires k > 0
    ensures |Decimal(n)| <= k <==> n < Pow10(k)
  {
    if k == 1 {
      assert Pow10(1) == 10;
    } else if n >= 10 {
      DecimalLength(n / 10, k - 1);
    } else {
      PowAtLeastTen(k);
    }
  }

  lemma {:induction false} PowAtLeastTen(k: nat)
    requires k > 0
    ensures Pow10(k) >= 10
  {
    if k > 1 { PowAtLeastTen(k - 1); }
  }

  /** `{n:010d}`: at least ten digits, filled with zeros on the left. */
  function Padded(n: nat): (d: Bytes)
    ensures d != [] && Digits(d)
  {
    var d := Decimal(n);
    if |d| < 10 then seq(10 - |d|, _ => 48) + d else d
  }

  lemma {:induction false} LeadingZeros(k: nat, d: Bytes)
    requires Digits(d)
    ensures Digits(seq(k, _ => 48) + d) && Value(seq(k, _ => 48) + d) == Value(d)
    decreases |d| + k
  {
    var zeros: Bytes := seq(k, _ => 48);
    var all := zeros + d;
    if d != [] {
      var front := d[..|d| - 1];
      assert d[|d| - 1] in d && forall b | b in front :: b in d;
      LeadingZeros(k, front);
      assert all[..|all| - 1] == zeros + front;
    } else if k > 0 {
      LeadingZeros(k - 1, d);
      assert all[..k - 1] == seq(k - 1, _ => 48) + d;
    }
  }

  lemma PaddedSpec(n: nat)
    ensures Value(Padded(n)) == n
    ensures |Padded(n)| == 10 <==> n < TEN_DIGITS
    ensures |Padded(n)| >= 10
  {
    var d := Decimal(n);
    DecimalValue(n);
    if |d| < 10 { LeadingZeros(10 - |d|, d); }
    DecimalLength(n, 10);
    assert Pow10(10) == TEN_DIGITS by {
      assert Pow10(2) == 100;
      assert Pow10(4) == 10_000;
      assert Pow10(6) == 1_000_000;
      assert Pow10(8) == 100_000_000;
    }
  }

  // ---------- the writer ----------

  const HEADER := Ascii("%PDF-1.4\n")
  const FREE_ENTRY := Ascii("0000000000 65535 f \n")
  const ENTRY_END := Ascii(" 00000 n \n")
  const FILE_END := Ascii("\n%%EOF\n")
  const XREF := Ascii("xref\n0 ")
  const STARTXREF := Ascii("startxref\n")

  function Flat(objects: seq<Bytes>): Bytes {
    if objects == [] then [] else Flat(objects[..|objects| - 1]) + objects[|objects| - 1]
  }

  /** Where object `i` begins; for `i == |objects|`, where the cross-reference section begins. */
  function Offset(objects: seq<Bytes>, i: nat): nat
    requires i <= |objects|
  {
    |HEADER| + |Flat(objects[..i])|
  }

  function Entry(offset: nat): Bytes { Padded(offset) + ENTRY_END }

  function Entries(objects: seq<Bytes>, n: nat): Bytes
    requires n <= |objects|
  {
    if n == 0 then [] else Entries(objects, n - 1) + Entry(Offset(objects, n - 1))
  }

  function Table(objects: seq<Bytes>): Bytes {
    XREF + Decimal(|objects| + 1) + [LF] + FREE_ENTRY + Entries(objects, |objects|)
  }

  function Trailer(size: nat, start: nat): Bytes {
    Ascii("trailer\n<< /Size ") + Decimal(size) + Ascii(" /Root 1 0 R >>\n") + STARTXREF + Decimal(start) + FILE_END
  }

  function File(objects: seq<Bytes>): Bytes {
    HEADER + Flat(objects) + Table(objects) + Trailer(|objects| + 1, Offset(objects, |objects|))
  }

  /** The loop over the objects: the file grows while the offsets are noted. */
  method WriteObjects(objects: seq<Bytes>) returns (out: Bytes, offsets: seq<nat>)
    ensures out == HEADER + Flat(objects)
    ensures |offsets| == |objects| && forall k | 0 <= k < |objects| :: offsets[k] == Offset(objects, k)
  {
    out := HEADER;
    offsets := [];
    assert objects[..0] == [];
    for i := 0 to |objects|
      invariant out == HEADER + Flat(objects[..i])
      invariant |offsets| == i && forall k | 0 <= k < i :: offsets[k] == Offset(objects, k)
    {
      offsets := offsets + [|out|];
      assert objects[..i + 1][..i] == objects[..i];
      Assoc(HEADER, Flat(objects[..i]), objects[i]);
      out := out + objects[i];
    }
    assert objects[..|objects|] == objects;
  }

  /** The loop over the offsets. */
  method WriteTable(offsets: seq<nat>, ghost objects: seq<Bytes>) returns (table: Bytes)
    requires |offsets| == |objects| && forall k | 0 <= k < |objects| :: offsets[k] == Offset(objects, k)
    ensures table == Table(objects)
  {
    table := XREF + Decimal(|offsets| + 1) + [LF] + FREE_ENTRY;
    ghost var head := table;
    assert head == head + Entries(objects, 0);
    for i := 0 to |offsets|
      invariant table == head + Entries(objects, i)
    {
      Assoc(head, Entries(objects, i), Entry(offsets[i]));
      table := table + Entry(offsets[i]);
    }
  }

  method WriteFile(objects: seq<Bytes>) returns (out: Bytes)
    ensures out == File(objects)
  {
    var offsets;
    out, offsets := WriteObjects(objects);
    assert objects[..|objects|] == objects;
    var start := |out|;
    var table := WriteTable(offsets, objects);
    out := out + table + Trailer(|offsets| + 1, start);
  }

  // ---------- the reader ----------

  predicate EndsWith(b: Bytes, tail: Bytes) { |tail| <= |b| && b[|b| - |tail|..] == tail }

  function TrailingDigits(b: Bytes): (d: Bytes)
    ensures |d| <= |b| && Digits(d)
    decreases |b|
  {
    if b != [] && IsDigit(b[|b| - 1]) then TrailingDigits(b[..|b| - 1]) + [b[|b| - 1]] else []
  }

  function LeadingDigits(b: Bytes): (d: Bytes)
    ensures |d| <= |b| && Digits(d)
    decreases |b|
  {
    if b != [] && IsDigit(b[0]) then [b[0]] + LeadingDigits(b[1..]) else []
  }

  /** The number on the line before the end-of-file marker. */
  function StartXref(file: Bytes): Option<nat> {
    if !EndsWith(file, FILE_END) then None else
    var b := file[..|file| - |FILE_END|];
    var d := TrailingDigits(b);
    if d == [] || !EndsWith(b[..|b| - |d|], STARTXREF) then None else Some(Value(d))
  }

  /** The entry of an object in use that begins at byte `e`. */
  function EntryIn(b: Bytes, e: nat): Option<nat> {
    if e + 20 > |b| || b[e + 10..e + 20] != ENTRY_END || !Digits(b[e..e + 10]) then None else Some(Value(b[e..e + 10]))
  }

  /** Entry `i` of the cross-reference table at `at`: the offset of an object in use. */
  function EntryAt(file: Bytes, at: nat, i: nat): Option<nat> {
    if !(at <= |file| && XREF <= file[at..]) then None else
    var rest := file[at + |XREF|..];
    var d := LeadingDigits(rest);
    EntryIn(rest, |d| + 1 + 20 * i)
  }

  function Locate(file: Bytes, i: nat): Option<nat> {
    var start := StartXref(file);
    if start.None? then None else EntryAt(file, start.value, i)
  }

  // ---------- reading what was written ----------

  lemma {:induction false} TrailingDigitsFound(a: Bytes, d: Bytes)
    requires a != [] && !IsDigit(a[|a| - 1]) && Digits(d)
    ensures TrailingDigits(a + d) == d
    decreases |d|
  {
    if d == [] {
      assert a + d == a;
    } else {
      var front := d[..|d| - 1];
      assert d[|d| - 1] in d && forall b | b in front :: b in d;
      TrailingDigitsFound(a, front);
      assert (a + d)[..|a + d| - 1] == a + front;
    }
  }

  lemma {:induction false} LeadingDigitsFound(d: Bytes, a: Bytes)
    requires a != [] && !IsDigit(a[0]) && Digits(d)
    ensures LeadingDigits(d + a) == d
    decreases |d|
  {
    if d == [] {
      assert d + a == a;
    } else {
      assert d[0] in d && forall b | b in d[1..] :: b in d;
      LeadingDigitsFound(d[1..], a);
      assert (d + a)[1..] == d[1..] + a;
    }
  }

  lemma Cut(a: Bytes, b: Bytes)
    ensures (a + b)[|a|..] == b && (a + b)[..|a|] == a && EndsWith(a + b, b) && a <= a + b
  {
  }

  lemma StartXrefFound(a: Bytes, start: nat)
    ensures StartXref(a + STARTXREF + Decimal(start) + FILE_END) == Some(start)
  {
    StartXrefOf(a, STARTXREF, start);
    assert STARTXREF[|STARTXREF| - 1] == LF;
  }

  lemma StartXrefOf(a: Bytes, keyword: Bytes, start: nat)
    requires keyword == STARTXREF && !IsDigit(keyword[|keyword| - 1])
    ensures StartXref(a + keyword + Decimal(start) + FILE_END) == Some(start)
  {
    var front, d := a + keyword, Decimal(start);
    Cut(front + d, FILE_END);
    assert front[|front| - 1] == keyword[|keyword| - 1];
    TrailingDigitsFound(front, d);
    Cut(front, d);
    Cut(a, keyword);
    DecimalValue(start);
  }

  lemma {:induction false} EntriesLength(objects: seq<Bytes>, n: nat)
    requires n <= |objects| && forall k | 0 <= k < n :: Offset(objects, k) < TEN_DIGITS
    ensures |Entries(objects, n)| == 20 * n
  {
    if n > 0 {
      PaddedSpec(Offset(objects, n - 1));
      EntriesLength(objects, n - 1);
    }
  }

  lemma SliceAppended(front: Bytes, last: Bytes, n: nat, i: nat)
    requires |front| == 20 * n && |last| == 20 && i <= n
    ensures (front + last)[20 * i..20 * i + 20] == if i < n then front[20 * i..20 * i + 20] else last
  {
  }

  lemma {:induction false} EntryPosition(objects: seq<Bytes>, n: nat, i: nat)
    requires i < n <= |objects| && forall k | 0 <= k < n :: Offset(objects, k) < TEN_DIGITS
    ensures |Entries(objects, n)| == 20 * n
    ensures Entries(objects, n)[20 * i..20 * i + 20] == Entry(Offset(objects, i))
    decreases n
  {
    EntriesLength(objects, n);
    EntriesLength(objects, n - 1);
    EntryIsTwentyBytes(Offset(objects, n - 1));
    SliceAppended(Entries(objects, n - 1), Entry(Offset(objects, n - 1)), n - 1, i);
    if i < n - 1 { EntryPosition(objects, n - 1, i); }
  }

  lemma EntryFound(a: Bytes, objects: seq<Bytes>, tail: Bytes, i: nat)
    requires i < |objects| && forall k | 0 <= k < |objects| :: Offset(objects, k) < TEN_DIGITS
    ensures EntryAt(a + (Table(objects) + tail), |a|, i + 1) == Some(Offset(objects, i))
  {
    EntryPosition(objects, |objects|, i);
    var d, free, entries := Decimal(|objects| + 1), [LF] + FREE_ENTRY, Entries(objects, |objects|);
    EntryFoundIn(a, d, free, entries, tail, i, Offset(objects, i));
    TableShape(objects, tail);
  }

  lemma EntryFoundIn(a: Bytes, d: Bytes, free: Bytes, entries: Bytes, tail: Bytes, i: nat, offset: nat)
    requires Digits(d) && |free| == 21 && free[0] == LF && offset < TEN_DIGITS
    requires 20 * i + 20 <= |entries| && entries[20 * i..20 * i + 20] == Entry(offset)
    ensures EntryAt(a + (XREF + (d + (free + entries + tail))), |a|, i + 1) == Some(offset)
  {
    EntryInRest(d, free, entries, tail, i, offset);
    Begins(free, entries, tail);
    EntryThrough(a, d, free + entries + tail, i + 1, offset);
  }

  lemma EntryThrough(a: Bytes, d: Bytes, after: Bytes, i: nat, offset: nat)
    requires Digits(d) && after != [] && after[0] == LF
    requires EntryIn(d + after, |d| + 1 + 20 * i) == Some(offset)
    ensures EntryAt(a + (XREF + (d + after)), |a|, i) == Some(offset)
  {
    EntryAtUnfold(a, d, after, i);
  }

  lemma Begins(free: Bytes, entries: Bytes, tail: Bytes)
    requires free != []
    ensures free + entries + tail != [] && (free + entries + tail)[0] == free[0]
  {
  }

  lemma EntryInRest(d: Bytes, free: Bytes, entries: Bytes, tail: Bytes, i: nat, offset: nat)
    requires |free| == 21 && offset < TEN_DIGITS
    requires 20 * i + 20 <= |entries| && entries[20 * i..20 * i + 20] == Entry(offset)
    ensures EntryIn(d + (free + entries + tail), |d| + 1 + 20 * (i + 1)) == Some(offset)
  {
    EntryInside(d, free, entries, tail, i);
    EntryRead(d + (free + entries + tail), |d| + 1 + 20 * (i + 1), offset);
  }

  /** What the reader looks at once it has skipped the keyword and the number of entries. */
  lemma EntryAtUnfold(a: Bytes, d: Bytes, after: Bytes, i: nat)
    requires Digits(d) && after != [] && after[0] == LF
    ensures EntryAt(a + (XREF + (d + after)), |a|, i) == EntryIn(d + after, |d| + 1 + 20 * i)
  {
    SkipTwo(a, XREF, d + after);
    LeadingDigitsFound(d, after);
  }

  lemma SkipTwo(a: Bytes, b: Bytes, c: Bytes)
    ensures var all := a + (b + c);
      |a| + |b| <= |all| && b <= all[|a|..] && all[|a| + |b|..] == c
  {
    Cut(a, b + c);
    Cut(b, c);
  }

  lemma EntryInside(d: Bytes, free: Bytes, entries: Bytes, tail: Bytes, i: nat)
    requires |free| == 21 && 20 * i + 20 <= |entries|
    ensures var e := |d| + 1 + 20 * (i + 1);
      var rest := d + (free + entries + tail);
      e + 20 <= |rest| && rest[e..e + 20] == entries[20 * i..20 * i + 20]
  {
    assert d + (free + entries + tail) == d + free + entries + tail;
    SliceInside(d + free, entries, tail, 20 * i);
  }

  lemma TableShape(objects: seq<Bytes>, tail: Bytes)
    ensures Table(objects) + tail ==
            XREF + (Decimal(|objects| + 1) + ([LF] + FREE_ENTRY + Entries(objects, |objects|) + tail))
  {
    Reassociate(XREF, Decimal(|objects| + 1), [LF], FREE_ENTRY, Entries(objects, |objects|), tail);
  }

  lemma Reassociate(a: Bytes, b: Bytes, c: Bytes, d: Bytes, e: Bytes, f: Bytes)
    ensures a + b + c + d + e + f == a + (b + (c + d + e + f))
  {
  }

  lemma EntryRead(rest: Bytes, e: nat, offset: nat)
    requires offset < TEN_DIGITS && e + 20 <= |rest| && rest[e..e + 20] == Entry(offset)
    ensures EntryIn(rest, e) == Some(offset)
  {
    PaddedSpec(offset);
    Cut(Padded(offset), ENTRY_END);
    assert rest[e..e + 10] == rest[e..e + 20][..10];
    assert rest[e + 10..e + 20] == rest[e..e + 20][10..];
  }

  lemma SliceInside(a: Bytes, b: Bytes, c: Bytes, k: nat)
    requires k + 20 <= |b|
    ensures (a + b + c)[|a| + k..|a| + k + 20] == b[k..k + 20]
  {
  }

  lemma {:induction false} FlatSplit(objects: seq<Bytes>, i: nat)
    requires i < |objects|
    ensures Flat(objects[..i]) + objects[i] <= Flat(objects)
    decreases |objects|
  {
    var front := objects[..|objects| - 1];
    if i < |front| {
      FlatSplit(front, i);
      assert front[..i] == objects[..i];
    } else {
      assert objects[..i] == front;
    }
  }

  /** A cross-reference entry has exactly 20 bytes exactly when its offset fits ten digits. */
  lemma EntryIsTwentyBytes(offset: nat)
    ensures |Entry(offset)| == 20 <==> offset < TEN_DIGITS
  {
    PaddedSpec(offset);
  }

  lemma FileShape(objects: seq<Bytes>)
    ensures var a, n := HEADER + Flat(objects), |objects|;
      && |a| == Offset(objects, n)
      && File(objects) == a + (Table(objects) + Trailer(n + 1, |a|))
      && File(objects) == a + Table(objects) + Ascii("trailer\n<< /Size ") + Decimal(n + 1) + Ascii(" /Root 1 0 R >>\n")
                          + STARTXREF + Decimal(|a|) + FILE_END
  {
    assert objects[..|objects|] == objects;
    var a, n := HEADER + Flat(objects), |objects|;
    Assoc(a, Table(objects), Trailer(n + 1, |a|));
    TrailerShape(a + Table(objects), Ascii("trailer\n<< /Size "), Decimal(n + 1), Ascii(" /Root 1 0 R >>\n"), STARTXREF,
                 Decimal(|a|), FILE_END);
  }

  lemma TrailerShape(a: Bytes, b: Bytes, c: Bytes, d: Bytes, e: Bytes, f: Bytes, g: Bytes)
    ensures a + (b + c + d + e + f + g) == a + b + c + d + e + f + g
  {
  }

  /** The object begins where its offset says. */
  lemma ObjectThere(objects: seq<Bytes>, i: nat)
    requires i < |objects|
    ensures Offset(objects, i) <= |File(objects)| && objects[i] <= File(objects)[Offset(objects, i)..]
  {
    FileShape(objects);
    FlatSplit(objects, i);
    var upto := Flat(objects[..i]) + objects[i];
    var after := Flat(objects)[|upto|..] + (Table(objects) + Trailer(|objects| + 1, Offset(objects, |objects|)));
    assert Flat(objects) == upto + Flat(objects)[|upto|..];
    TakeApart(HEADER, Flat(objects[..i]), objects[i], Flat(objects)[|upto|..],
              Table(objects) + Trailer(|objects| + 1, Offset(objects, |objects|)));
    Cut(HEADER + Flat(objects[..i]), objects[i] + after);
    Cut(objects[i], after);
  }

  lemma TakeApart(a: Bytes, b: Bytes, c: Bytes, d: Bytes, e: Bytes)
    ensures a + (b + c + d) + e == (a + b) + (c + (d + e))
  {
  }

  /**
   For any list of objects whose offsets fit ten digits: the last line leads to
   the xref keyword, and the entry of every object to the byte where it begins.
   */
  lemma EveryObjectIsFound(objects: seq<Bytes>, i: nat)
    requires i < |objects| && forall k | 0 <= k < |objects| :: Offset(objects, k) < TEN_DIGITS
    ensures var file := File(objects);
      && StartXref(file) == Some(Offset(objects, |objects|))
      && Offset(objects, |objects|) <= |file| && XREF <= file[Offset(objects, |objects|)..]
      && Locate(file, i + 1) == Some(Offset(objects, i))
      && Offset(objects, i) <= |file| && objects[i] <= file[Offset(objects, i)..]
  {
    FileShape(objects);
    var a, n := HEADER + Flat(objects), |objects|;
    StartXrefFound(a + Table(objects) + Ascii("trailer\n<< /Size ") + Decimal(n + 1) + Ascii(" /Root 1 0 R >>\n"), |a|);
    EntryFound(a, objects, Trailer(n + 1, |a|), i);
    Cut(a, Table(objects) + Trailer(n + 1, |a|));
    TableShape(objects, Trailer(n + 1, |a|));
    ObjectThere(objects, i);
  }

  /** What stands around the objects: the header, the head of the table with the free entry, and the trailer. */
  lemma FileFrame(objects: seq<Bytes>)
    ensures var file, at, size := File(objects), Offset(objects, |objects|), Decimal(|objects| + 1);
      && Ascii("%PDF-1.4\n") <= file && at <= |file|
      && Ascii("xref\n0 ") + size + [LF] + Ascii("0000000000 65535 f \n") <= file[at..]
      && EndsWith(file, Ascii("trailer\n<< /Size ") + size + Ascii(" /Root 1 0 R >>\n") + Ascii("startxref\n")
                        + Decimal(at) + Ascii("\n%%EOF\n"))
  {
    FileShape(objects);
    var a, n := HEADER + Flat(objects), |objects|;
    Framed(HEADER, Flat(objects), XREF + Decimal(n + 1) + [LF] + FREE_ENTRY, Entries(objects, n),
           Trailer(n + 1, |a|));
  }

  lemma Framed(header: Bytes, flat: Bytes, head: Bytes, entries: Bytes, trailer: Bytes)
    ensures var file := header + flat + (head + entries + trailer);
      header <= file && head <= file[|header + flat|..] && EndsWith(file, trailer)
  {
    Cut(header + flat, head + entries + trailer);
  }

  // ---------- the stream object ----------

  const STREAM_HEAD := Ascii("5 0 obj\n<< /Length ")
  const STREAM_BEGIN := Ascii(" >>\nstream\n")
  const STREAM_END := Ascii("\nendstream\nendobj\n")

  function StreamObject(stream: Bytes): Bytes {
    STREAM_HEAD + Decimal(|stream|) + STREAM_BEGIN + stream + STREAM_END
  }

  /** The stream that starts here, taken by its Length; it must be followed by the endstream line. */
  function ReadStream(b: Bytes): Option<Bytes> {
    if !(STREAM_HEAD <= b) then None else
    var rest := b[|STREAM_HEAD|..];
    var d := LeadingDigits(rest);
    if !(STREAM_BEGIN <= rest[|d|..]) then None else
    var data := rest[|d| + |STREAM_BEGIN|..];
    var n := Value(d);
    if n <= |data| && Ascii("\nendstream") <= data[n..] then Some(data[..n]) else None
  }

  /** What stands around the bytes of a stream (sections 7.3.10 and 7.3.8.1). */
  lemma StreamFrame(stream: Bytes)
    ensures var head := Ascii("5 0 obj\n<< /Length ") + Decimal(|stream|) + Ascii(" >>\nstream\n");
      StreamObject(stream) == head + stream + Ascii("\nendstream\nendobj\n")
  {
  }

  /** Whatever bytes the stream has, the printed Length is their number and gives them back. */
  lemma StreamObjectRead(stream: Bytes, tail: Bytes)
    ensures ReadStream(StreamObject(stream) + tail) == Some(stream)
  {
    var b := StreamObject(stream) + tail;
    var d := Decimal(|stream|);
    var data := stream + (STREAM_END + tail);
    assert b == STREAM_HEAD + (d + (STREAM_BEGIN + data));
    var rest := b[|STREAM_HEAD|..];
    assert rest == d + (STREAM_BEGIN + data);
    LeadingDigitsFound(d, STREAM_BEGIN + data);
    assert rest[|d|..] == STREAM_BEGIN + data;
    assert rest[|d| + |STREAM_BEGIN|..] == data;
    DecimalValue(|stream|);
    assert data[|stream|..] == STREAM_END + tail;
    assert Ascii("\nendstream") <= STREAM_END;
  }
}
