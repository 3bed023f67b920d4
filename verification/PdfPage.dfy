/**
 The whole PDF builder: from a text to the bytes of a file, and back to the
 lines of the page.
 */
module PdfPage {
  import opened Wrappers
  import opened PdfText
  import opened PdfFile
  import opened PdfContent
  import opened PythonText

  // ---------- the lines of the page ----------

  /** The characters at which Python's `splitlines` ends a line. */
  predicate IsLineBreak(c: char) {
    var u := c as int;
    10 <= u <= 13 || 28 <= u <= 30 || u == 0x85 || u == 0x2028 || u == 0x2029
  }

  /** The same characters, written out. */
  lemma LineBreakExactly(c: char)
    ensures IsLineBreak(c) <==> c in "\n\U{000B}\U{000C}\r\U{001C}\U{001D}\U{001E}\U{0085}\U{2028}\U{2029}"
  {
  }

  function SplitLines(s: string, line: string): seq<string>
    decreases |s|
  {
    if s == "" then (if line == "" then [] else [line])
    else if IsLineBreak(s[0]) then
      [line] + SplitLines(if s[0] == '\r' && |s| > 1 && s[1] == '\n' then s[2..] else s[1..], "")
    else SplitLines(s[1..], line + [s[0]])
  }

  function NonBlank(lines: seq<string>): seq<string> {
    if lines == [] then []
    else
      var line := Strip(lines[0]);
      (if line == "" then [] else [line]) + NonBlank(lines[1..])
  }

  const MAX_LINES := 40
  const MAX_CHARS := 120
  const PLACEHOLDER := "Benchmark PDF content."

  function Take<T>(s: seq<T>, n: nat): seq<T> { if |s| <= n then s else s[..n] }

  function Clip(lines: seq<string>): seq<string> {
    if lines == [] then [] else [Take(lines[0], MAX_CHARS)] + Clip(lines[1..])
  }

  /** What is printed of the lines of a text. */
  function Printed(all: seq<string>): seq<string> {
    var lines := NonBlank(all);
    Clip(Take(if lines == [] then [PLACEHOLDER] else lines, MAX_LINES))
  }

  function PageLines(text: string): seq<string> { Printed(SplitLines(text, "")) }

  predicate Unbroken(line: string) { forall c | c in line :: !IsLineBreak(c) }

  lemma {:induction false} SplitLinesUnbroken(s: string, line: string)
    requires Unbroken(line)
    ensures forall l | l in SplitLines(s, line) :: Unbroken(l)
    decreases |s|
  {
    if s != "" {
      if IsLineBreak(s[0]) {
        SplitLinesUnbroken(if s[0] == '\r' && |s| > 1 && s[1] == '\n' then s[2..] else s[1..], "");
      } else {
        SplitLinesUnbroken(s[1..], line + [s[0]]);
      }
    }
  }

  lemma {:induction false} StripUnbroken(s: string)
    requires Unbroken(s)
    ensures Unbroken(StripLeft(s)) && Unbroken(StripRight(s))
    decreases |s|
  {
    if s != "" {
      assert Unbroken(s[1..]) by { forall c | c in s[1..] ensures c in s { } }
      assert Unbroken(s[..|s| - 1]) by { forall c | c in s[..|s| - 1] ensures c in s { } }
      StripUnbroken(s[1..]);
      StripUnbroken(s[..|s| - 1]);
    }
  }

  lemma {:induction false} NonBlankUnbroken(lines: seq<string>)
    requires forall l | l in lines :: Unbroken(l)
    ensures forall l | l in NonBlank(lines) :: Unbroken(l)
  {
    if lines != [] {
      assert lines[0] in lines && forall l | l in lines[1..] :: l in lines;
      StripUnbroken(lines[0]);
      StripUnbroken(StripLeft(lines[0]));
      NonBlankUnbroken(lines[1..]);
    }
  }

  lemma {:induction false} ClipSpec(lines: seq<string>)
    requires forall l | l in lines :: Unbroken(l)
    ensures |Clip(lines)| == |lines|
    ensures forall l | l in Clip(lines) :: Unbroken(l) && |l| <= MAX_CHARS
  {
    if lines != [] {
      assert lines[0] in lines && forall l | l in lines[1..] :: l in lines;
      ClipSpec(lines[1..]);
      forall c | c in Take(lines[0], MAX_CHARS) ensures c in lines[0] { }
    }
  }

  lemma TakeUnbroken(lines: seq<string>)
    requires forall l | l in lines :: Unbroken(l)
    ensures forall l | l in Take(lines, MAX_LINES) :: Unbroken(l)
  {
    forall l | l in Take(lines, MAX_LINES) ensures Unbroken(l) { assert l in lines; }
  }

  lemma PlaceholderUnbroken()
    ensures Unbroken(PLACEHOLDER)
  {
  }

  /** The page has between 1 and 40 lines of at most 120 characters, none with a line break. */
  lemma PageLinesSpec(text: string)
    ensures 1 <= |PageLines(text)| <= MAX_LINES
    ensures forall l | l in PageLines(text) :: Unbroken(l) && |l| <= MAX_CHARS
  {
    SplitLinesUnbroken(text, "");
    NonBlankUnbroken(SplitLines(text, ""));
    var lines := NonBlank(SplitLines(text, ""));
    PlaceholderUnbroken();
    var some := if lines == [] then [PLACEHOLDER] else lines;
    TakeUnbroken(some);
    ClipSpec(Take(some, MAX_LINES));
  }

  // ---------- the lines come from the text ----------

  /** One line end: a carriage return with its line feed, or any other line-breaking character. */
  predicate IsLineEnd(s: string) { s == "\r\n" || (|s| == 1 && IsLineBreak(s[0])) }

  lemma {:induction false} SplitLinesGathers(line: string, rest: string, gathered: string)
    requires Unbroken(line)
    ensures SplitLines(line + rest, gathered) == SplitLines(rest, gathered + line)
    decreases |line|
  {
    if line == "" {
      assert line + rest == rest && gathered + line == gathered;
    } else {
      assert line[0] in line && forall c | c in line[1..] :: c in line;
      assert (line + rest)[1..] == line[1..] + rest;
      SplitLinesGathers(line[1..], rest, gathered + [line[0]]);
      assert gathered + [line[0]] + line[1..] == gathered + line;
    }
  }

  /** Up to the first line end the text is a line of its own; a final line feed of a pair belongs to it. */
  lemma SplitLinesFirst(line: string, end: string, rest: string)
    requires Unbroken(line) && IsLineEnd(end) && !(end == "\r" && rest != "" && rest[0] == '\n')
    ensures SplitLines(line + end + rest, "") == [line] + SplitLines(rest, "")
  {
    assert line + end + rest == line + (end + rest) && "" + line == line;
    SplitLinesGathers(line, end + rest, "");
    var tail := end + rest;
    assert tail[|end|..] == rest;
    if |end| == 1 { assert tail[0] == end[0] && (rest != "" ==> tail[1] == rest[0]); }
  }

  /** What follows the last line end is a line if it is not empty. */
  lemma SplitLinesLast(line: string)
    requires Unbroken(line)
    ensures SplitLines(line, "") == if line == "" then [] else [line]
  {
    SplitLinesGathers(line, "", "");
    assert line + "" == line && "" + line == line;
  }

  /** Lines joined by line feeds come apart again; an empty last one is not a line. */
  lemma {:induction false} SplitLinesOfJoined(lines: seq<string>)
    requires lines != [] && forall l | l in lines :: Unbroken(l)
    ensures SplitLines(Joined(lines), "") ==
            if lines[|lines| - 1] == "" then lines[..|lines| - 1] else lines
  {
    assert lines[0] in lines && forall l | l in lines[1..] :: l in lines;
    if |lines| == 1 {
      SplitLinesLast(lines[0]);
      assert lines == [lines[0]];
    } else {
      SplitLinesOfJoined(lines[1..]);
      SplitLinesFirst(lines[0], "\n", Joined(lines[1..]));
      assert lines == [lines[0]] + lines[1..];
      assert lines[..|lines| - 1] == [lines[0]] + lines[1..][..|lines[1..]| - 1];
    }
  }

  /** The positions of the lines that show something. */
  function VisibleAt(lines: seq<string>): (positions: seq<nat>)
    ensures forall i | 0 <= i < |positions| :: positions[i] < |lines|
  {
    if lines == [] then []
    else
      var front := VisibleAt(lines[..|lines| - 1]);
      if AllSpace(lines[|lines| - 1]) then front else front + [|lines| - 1]
  }

  /** They are in order, and exactly those of the lines that are not all white space. */
  lemma {:induction false} VisibleAtSpec(lines: seq<string>)
    ensures forall i, j | 0 <= i < j < |VisibleAt(lines)| :: VisibleAt(lines)[i] < VisibleAt(lines)[j]
    ensures forall p: nat :: p in VisibleAt(lines) <==> p < |lines| && !AllSpace(lines[p])
  {
    if lines != [] { VisibleAtSpec(lines[..|lines| - 1]); }
  }

  lemma {:induction false} NonBlankAppend(lines: seq<string>, line: string)
    ensures NonBlank(lines + [line]) == if Strip(line) == "" then NonBlank(lines) else NonBlank(lines) + [Strip(line)]
  {
    if lines == [] {
      assert [line][1..] == [];
    } else {
      assert (lines + [line])[1..] == lines[1..] + [line];
      NonBlankAppend(lines[1..], line);
    }
  }

  /** The visible lines, stripped. */
  ghost predicate AreVisible(lines: seq<string>, stripped: seq<string>) {
    && |stripped| == |VisibleAt(lines)|
    && forall i | 0 <= i < |stripped| :: stripped[i] == Strip(lines[VisibleAt(lines)[i]])
  }

  lemma VisibleAppend(front: seq<string>, last: string, stripped: seq<string>)
    requires AreVisible(front, stripped)
    ensures AreVisible(front + [last], if AllSpace(last) then stripped else stripped + [Strip(last)])
  {
    assert (front + [last])[..|front|] == front;
  }

  lemma OneMoreLine(front: seq<string>, last: string)
    requires AreVisible(front, NonBlank(front))
    ensures AreVisible(front + [last], NonBlank(front + [last]))
  {
    VisibleAppend(front, last, NonBlank(front));
    NonBlankAppend(front, last);
    var a, b := StripSpec(last);
  }

  lemma {:induction false} NonBlankSpec(lines: seq<string>)
    ensures AreVisible(lines, NonBlank(lines))
  {
    if lines != [] {
      var front, last := lines[..|lines| - 1], lines[|lines| - 1];
      assert lines == front + [last];
      NonBlankSpec(front);
      OneMoreLine(front, last);
    }
  }

  lemma {:induction false} ClipAt(lines: seq<string>, i: nat)
    requires i < |lines|
    ensures |Clip(lines)| == |lines|
    ensures Clip(lines)[i] == if |lines[i]| <= 120 then lines[i] else lines[i][..120]
  {
    if |lines| > 1 { ClipAt(lines[1..], if i > 0 then i - 1 else 0); }
  }

  /**
   For every text: line i of the page is the i-th line of the text that is not all white space, without white space
   at its ends and cut after 120 characters; there are all of them, but at most 40; and a text without any gives one
   fixed line.
   */
  lemma PageLineIs(text: string, i: nat)
    ensures var lines, page := SplitLines(text, ""), PageLines(text);
      var visible := VisibleAt(lines);
      if visible == [] then page == ["Benchmark PDF content."]
      else
        && |page| == (if |visible| <= 40 then |visible| else 40)
        && (i < |page| ==>
              var line := Strip(lines[visible[i]]);
              page[i] == if |line| <= 120 then line else line[..120])
  {
    var lines := SplitLines(text, "");
    var visible := VisibleAt(lines);
    NonBlankSpec(lines);
    if visible == [] {
      assert PageLines(text) == Clip([PLACEHOLDER]) == [PLACEHOLDER];
    } else {
      var kept := Take(NonBlank(lines), MAX_LINES);
      ClipAt(kept, if i < |kept| then i else 0);
    }
  }

  lemma {:induction false} NonBlankSame(lines: seq<string>)
    requires AllClean(lines)
    ensures NonBlank(lines) == lines
  {
    if lines != [] {
      assert lines[0] in lines && forall l | l in lines[1..] :: l in lines;
      NonBlankSame(lines[1..]);
      CleanIsStripped(lines[0]);
      assert lines == [lines[0]] + lines[1..];
    }
  }

  lemma CleanIsStripped(line: string)
    requires Clean(line)
    ensures Strip(line) == line && line != ""
  {
    var a, b := StripSpec(line);
  }

  lemma {:induction false} ClipSame(lines: seq<string>)
    requires forall l | l in lines :: |l| <= 120
    ensures Clip(lines) == lines
  {
    if lines != [] {
      assert lines[0] in lines && forall l | l in lines[1..] :: l in lines;
      ClipSame(lines[1..]);
      assert lines == [lines[0]] + lines[1..];
    }
  }

  /** A line that is printed as it is. */
  predicate Clean(line: string) { Unbroken(line) && line != "" && |line| <= 120 && Stripped(line) }

  predicate AllClean(lines: seq<string>) { forall l | l in lines :: Clean(l) }

  /** Up to 40 lines that need no change are printed as they are. */
  lemma CleanLinesStay(lines: seq<string>)
    requires 1 <= |lines| <= 40 && AllClean(lines)
    ensures PageLines(Joined(lines)) == lines
  {
    JoinedComesApart(lines);
    PrintedSame(lines);
    PageLinesOf(Joined(lines), lines);
  }

  lemma PageLinesOf(text: string, lines: seq<string>)
    requires SplitLines(text, "") == lines
    ensures PageLines(text) == Printed(lines)
  {
  }

  lemma JoinedComesApart(lines: seq<string>)
    requires lines != [] && AllClean(lines)
    ensures SplitLines(Joined(lines), "") == lines
  {
    assert Clean(lines[|lines| - 1]);
    SplitLinesOfJoined(lines);
  }

  lemma PrintedSame(lines: seq<string>)
    requires 1 <= |lines| <= 40 && AllClean(lines)
    ensures Printed(lines) == lines
  {
    NonBlankSame(lines);
    ClipSame(lines);
  }

  // ---------- the file ----------

  const CATALOG := Ascii("1 0 obj\n") + Ascii("<< /Type /Catalog /Pages 2 0 R >>\nendobj\n")
  const PAGES := Ascii("2 0 obj\n") + Ascii("<< /Type /Pages /Kids [3 0 R] /Count 1 >>\nendobj\n")
  const PAGE :=
    Ascii("3 0 obj\n")
    + Ascii("<< /Type /Page /Parent 2 0 R /MediaBox [0 0 612 792] ")
    + Ascii("/Resources << /Font << /F1 4 0 R >> >> /Contents 5 0 R >>\nendobj\n")
  const FONT := Ascii("4 0 obj\n") + Ascii("<< /Type /Font /Subtype /Type1 /BaseFont /Helvetica >>\nendobj\n")

  const FIXED: seq<Bytes> := [CATALOG, PAGES, PAGE, FONT]

  function Objects(fixed: seq<Bytes>, stream: Bytes): seq<Bytes> { fixed + [StreamObject(stream)] }

  function PdfWith(fixed: seq<Bytes>, text: string): Bytes { File(Objects(fixed, Stream(PageLines(text)))) }

  function Pdf(text: string): Bytes { PdfWith(FIXED, text) }

  /** The lines one under the other, 14 units apart, from (50, 780) on. */
  function PageShown(lines: seq<string>): seq<Placed> { PlacedFrom(lines, 50, 780, F1) }

  method BuildSimpleTextPdf(text: string) returns (out: Bytes)
    ensures out == Pdf(text)
    ensures ReadPage(out) == Some(PageShown(PageLines(text)))
  {
    var stream := WriteStream(PageLines(text));
    out := WriteFile(Objects(FIXED, stream));
    PageComesBack(text);
  }

  // ---------- every offset of the real writer fits ----------

  lemma {:induction false} EncodedSize(s: string)
    ensures |Encode(s)| <= 4 * |s|
  {
    if s != "" { EncodedSize(s[1..]); }
  }

  lemma {:induction false} EscapedSize(s: string)
    ensures |EscapeEach(s)| <= 2 * |s|
  {
    if s != "" { EscapedSize(s[1..]); }
  }

  lemma JoinSize(line: string, lines: seq<string>)
    requires lines != []
    ensures |Joined([line] + lines)| == |line| + 1 + |Joined(lines)|
  {
    assert ([line] + lines)[1..] == lines;
  }

  lemma ShowSize(line: string)
    ensures |ShowLine(line)| <= 2 * |line| + 5
  {
    ThreePassesAreOne(line);
    EscapedSize(line);
  }

  lemma {:induction false} TextSize(lines: seq<string>, first: bool)
    requires forall l | l in lines :: |l| <= MAX_CHARS
    ensures |Joined(TextLines(lines, first) + ["ET"])| <= 300 * |lines| + 2
  {
    if lines == [] {
      assert TextLines(lines, first) + ["ET"] == ["ET"];
    } else {
      assert lines[0] in lines && forall l | l in lines[1..] :: l in lines;
      TextSize(lines[1..], false);
      ShowSize(lines[0]);
      var more := TextLines(lines[1..], false) + ["ET"];
      var show := [ShowLine(lines[0])] + more;
      JoinSize(ShowLine(lines[0]), more);
      JoinSize("0 -14 Td", show);
      TextLinesFirst(lines, first);
    }
  }

  lemma StreamSize(lines: seq<string>)
    requires |lines| <= MAX_LINES && forall l | l in lines :: |l| <= MAX_CHARS
    ensures |Stream(lines)| <= 50_000
  {
    var text := TextLines(lines, true) + ["ET"];
    TextSize(lines, true);
    JoinSize("50 780 Td", text);
    JoinSize("/F1 11 Tf", ["50 780 Td"] + text);
    JoinSize("BT", ["/F1 11 Tf"] + (["50 780 Td"] + text));
    assert Content(lines) == ["BT"] + (["/F1 11 Tf"] + (["50 780 Td"] + text));
    EncodedSize(Joined(Content(lines)));
  }

  lemma {:induction false} FlatBound(objects: seq<Bytes>)
    requires forall o | o in objects :: |o| <= 60_000
    ensures |Flat(objects)| <= 60_000 * |objects|
  {
    if objects != [] {
      var front, last := objects[..|objects| - 1], objects[|objects| - 1];
      assert last in objects && forall o | o in front :: o in objects;
      FlatBound(front);
    }
  }

  /** Four objects of a moderate size. */
  ghost predicate Moderate(fixed: seq<Bytes>) { |fixed| == 4 && forall o | o in fixed :: |o| <= 60_000 }

  lemma FixedIsModerate()
    ensures Moderate(FIXED)
  {
  }

  lemma StreamObjectSmall(stream: Bytes)
    requires |stream| <= 50_000
    ensures |StreamObject(stream)| <= 60_000
  {
    DecimalLength(|stream|, 5);
    assert Pow10(5) == 100_000 by { assert Pow10(3) == 1000; }
  }

  lemma SmallObjectsFit(objects: seq<Bytes>)
    requires |objects| <= 5 && forall o | o in objects :: |o| <= 60_000
    ensures forall k | 0 <= k <= |objects| :: Offset(objects, k) < TEN_DIGITS
  {
    forall k | 0 <= k <= |objects| ensures Offset(objects, k) < TEN_DIGITS {
      assert forall o | o in objects[..k] :: o in objects;
      FlatBound(objects[..k]);
    }
  }

  lemma FiveObjectsFit(fixed: seq<Bytes>, stream: Bytes)
    requires Moderate(fixed) && |stream| <= 50_000
    ensures forall k | 0 <= k < 5 :: Offset(Objects(fixed, stream), k) < TEN_DIGITS
  {
    StreamObjectSmall(stream);
    var objects, last := Objects(fixed, stream), StreamObject(stream);
    forall o | o in objects ensures |o| <= 60_000 { assert o in fixed || o == last; }
    SmallObjectsFit(objects);
  }

  // ---------- reading the page back ----------

  /**
   Finds object 5 through the cross-reference table, takes its stream by the Length, and follows its text operators.
   */
  function ReadPage(file: Bytes): Option<seq<Placed>> {
    var at := Locate(file, 5);
    if at.None? || at.value > |file| then None else
    var stream := ReadStream(file[at.value..]);
    if stream.None? then None else ShownBy(stream.value)
  }

  lemma ObjectsFit(fixed: seq<Bytes>, text: string)
    requires Moderate(fixed)
    ensures forall k | 0 <= k < 5 :: Offset(Objects(fixed, Stream(PageLines(text))), k) < TEN_DIGITS
  {
    PageLinesSpec(text);
    StreamSize(PageLines(text));
    FiveObjectsFit(fixed, Stream(PageLines(text)));
  }

  lemma StreamAt(file: Bytes, at: nat, stream: Bytes)
    requires at <= |file| && StreamObject(stream) <= file[at..]
    ensures ReadStream(file[at..]) == Some(stream)
  {
    var tail := file[at..][|StreamObject(stream)|..];
    assert file[at..] == StreamObject(stream) + tail;
    StreamObjectRead(stream, tail);
  }

  lemma ReadPageOf(file: Bytes, at: nat, stream: Bytes, shown: seq<Placed>)
    requires Locate(file, 5) == Some(at) && at <= |file| && StreamObject(stream) <= file[at..]
    requires ShownBy(stream) == Some(shown)
    ensures ReadPage(file) == Some(shown)
  {
    StreamAt(file, at, stream);
  }

  lemma NoCarriageReturn(text: string)
    ensures forall l | l in PageLines(text) :: '\r' !in l
  {
    PageLinesSpec(text);
    forall l | l in PageLines(text) ensures '\r' !in l { assert Unbroken(l); }
  }

  /** Whatever the first four objects are, each of the five entries has 20 bytes and leads to its object. */
  lemma EntriesOfFile(fixed: seq<Bytes>, text: string, i: nat)
    requires Moderate(fixed) && i < 5
    ensures var objects := Objects(fixed, Stream(PageLines(text)));
      && Locate(PdfWith(fixed, text), i + 1) == Some(Offset(objects, i))
      && |Entry(Offset(objects, i))| == 20
      && Offset(objects, i) <= |PdfWith(fixed, text)| && objects[i] <= PdfWith(fixed, text)[Offset(objects, i)..]
  {
    ObjectsFit(fixed, text);
    EveryObjectIsFound(Objects(fixed, Stream(PageLines(text))), i);
    EntryIsTwentyBytes(Offset(Objects(fixed, Stream(PageLines(text))), i));
  }

  lemma FileComesBack(fixed: seq<Bytes>, text: string)
    requires Moderate(fixed)
    ensures ReadPage(PdfWith(fixed, text)) == Some(PageShown(PageLines(text)))
  {
    EntriesOfFile(fixed, text, 4);
    NoCarriageReturn(text);
    StreamRead(PageLines(text));
    var stream := Stream(PageLines(text));
    assert Objects(fixed, stream)[4] == StreamObject(stream);
    ReadPageOf(PdfWith(fixed, text), Offset(Objects(fixed, stream), 4), stream, PageShown(PageLines(text)));
  }

  /** For every text, reading the file that was built for it gives what the page is to show. */
  lemma PageComesBack(text: string)
    ensures ReadPage(Pdf(text)) == Some(PageShown(PageLines(text)))
  {
    FixedIsModerate();
    FileComesBack(FIXED, text);
  }

  /** Line i of the page is read back byte for byte, in font F1 of 11 units, and 14 * i units below (50, 780). */
  lemma LineComesBack(text: string, i: nat)
    ensures var page, lines := ReadPage(Pdf(text)), PageLines(text);
      && page.Some? && |page.value| == |lines|
      && (i < |lines| ==>
            var line := page.value[i];
            && line.x == 50 && line.y == 780 - 14 * i && line.font == Font(Ascii("F1"), 11)
            && Decode(line.bytes) == Some(lines[i]))
  {
    PageComesBack(text);
    LinePlaced(PageLines(text), i);
  }

  lemma LinePlaced(lines: seq<string>, i: nat)
    ensures |PageShown(lines)| == |lines|
    ensures i < |lines| ==>
              var line := PageShown(lines)[i];
              && line.x == 50 && line.y == 780 - 14 * i && line.font == Font(Ascii("F1"), 11)
              && Decode(line.bytes) == Some(lines[i])
  {
    PlacedAt(lines, 50, 780, F1, i);
    if i < |lines| { DecodeEncode(lines[i]); }
    FontName();
  }

  lemma FontName()
    ensures F1 == Font(Ascii("F1"), 11)
  {
    assert Ascii("F1") == [70, 49];
  }

  /** An indirect object with number `n` begins here (section 7.3.10). */
  predicate IsObject(b: Bytes, n: nat) { Decimal(n) + Ascii(" 0 obj\n") <= b }

  lemma BeginsObject(b: Bytes, n: nat)
    requires n < 10 && |b| >= 8 && b[0] == 48 + n && b[1] == 32 && b[2] == 48 && b[3] == 32
    requires b[4] == 111 && b[5] == 98 && b[6] == 106 && b[7] == LF
    ensures IsObject(b, n)
  {
    var head: Bytes := Decimal(n) + Ascii(" 0 obj\n");
    assert head == [48 + n, 32, 48, 32, 111, 98, 106, LF];
  }

  lemma CatalogIsObject()
    ensures IsObject(CATALOG, 1)
  {
    BeginsObject(CATALOG, 1);
  }

  lemma PagesAreObject()
    ensures IsObject(PAGES, 2)
  {
    BeginsObject(PAGES, 2);
  }

  lemma PageIsObject()
    ensures IsObject(PAGE, 3)
  {
    BeginsObject(PAGE, 3);
  }

  lemma FontIsObject()
    ensures IsObject(FONT, 4)
  {
    BeginsObject(FONT, 4);
  }

  lemma StreamIsObject(stream: Bytes)
    ensures IsObject(StreamObject(stream), 5)
  {
    BeginsObject(StreamObject(stream), 5);
  }

  lemma AreObjects(stream: Bytes, i: nat)
    requires i < 5
    ensures IsObject(Objects(FIXED, stream)[i], i + 1)
  {
    CatalogIsObject();
    PagesAreObject();
    PageIsObject();
    FontIsObject();
    StreamIsObject(stream);
  }

  /**
   For every text, the file is laid out as section 7.5.4 asks: each of the five entries has 20 bytes and leads to its
   object, numbered in the order of the table.
   */
  lemma EntriesOfThePage(text: string, i: nat)
    requires i < 5
    ensures var objects := Objects(FIXED, Stream(PageLines(text)));
      && Locate(Pdf(text), i + 1) == Some(Offset(objects, i))
      && |Entry(Offset(objects, i))| == 20
      && Offset(objects, i) <= |Pdf(text)| && objects[i] <= Pdf(text)[Offset(objects, i)..]
      && IsObject(objects[i], i + 1)
  {
    AreObjects(Stream(PageLines(text)), i);
    FixedIsModerate();
    EntriesOfFile(FIXED, text, i);
  }
}
