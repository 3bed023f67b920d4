/**
 The backfill of chunk metadata: one pass over the chunks, sorted by document
 and index, that hands each chunk the last markdown header seen so far.
 */
module ChunkHeaders {
  import opened Wrappers
  import opened PythonText

  type Id = nat

  /** A value of the metadata dictionary. */
  datatype Value = Null | Bool(b: bool) | Int(n: int) | Float(r: real) | Text(s: string) | Nested(json: string)

  /** The two keys that the pass writes, and any other. */
  datatype Key = HEADER_1 | PAGE_NUMBER | Other(name: string)

  type Metadata = map<Key, Value>

  const PROSE := "PROSE"

  // ---------- the last header of a chunk ----------

  predicate IsHeader(line: string) { StartsWith(line, "# ") || StartsWith(line, "## ") }

  /** One or two number signs, a blank, and then anything. */
  lemma HeaderExactly(line: string)
    ensures IsHeader(line) <==>
      |line| >= 2 && line[0] == '#' && (line[1] == ' ' || (|line| >= 3 && line[1] == '#' && line[2] == ' '))
  {
    assert |"# "| == 2 && |"## "| == 3;
    if |line| >= 2 { assert line[..2] == [line[0], line[1]]; }
    if |line| >= 3 { assert line[..3] == [line[0], line[1], line[2]]; }
  }

  function Headers(lines: seq<string>): seq<string> {
    if lines == [] then [] else (if IsHeader(lines[0]) then [Strip(lines[0])] else []) + Headers(lines[1..])
  }

  function Last(headers: seq<string>): string
    requires headers != []
  {
    headers[|headers| - 1]
  }

  function LatestHeader(content: string): Option<string> {
    var headers := Headers(Lines(content));
    if headers == [] then None else Some(Last(headers))
  }

  /** Line `j` is the last header line, and `h` is that line stripped. */
  ghost predicate IsLatest(lines: seq<string>, h: string, j: nat) {
    j < |lines| && IsHeader(lines[j]) && h == Strip(lines[j]) && NoneFrom(lines, j + 1)
  }

  ghost predicate NoneFrom(lines: seq<string>, from: nat) { forall k | from <= k < |lines| :: !IsHeader(lines[k]) }

  lemma LatestShifts(lines: seq<string>, h: string, j: nat)
    requires lines != [] && IsLatest(lines[1..], h, j)
    ensures IsLatest(lines, h, j + 1)
  {
    assert lines[j + 1] == lines[1..][j];
    NoneShifts(lines, j + 1);
  }

  lemma NoneShifts(lines: seq<string>, from: nat)
    requires lines != []
    ensures NoneFrom(lines[1..], from) <==> NoneFrom(lines, from + 1)
  {
    forall k | 0 < k < |lines| ensures lines[k] == lines[1..][k - 1] { }
    if NoneFrom(lines, from + 1) {
      forall k | from <= k < |lines[1..]| ensures !IsHeader(lines[1..][k]) { assert lines[1..][k] == lines[k + 1]; }
    }
  }

  lemma {:induction false} HeadersLast(lines: seq<string>)
    ensures var headers := Headers(lines);
      if headers == [] then NoneFrom(lines, 0) else exists j: nat :: IsLatest(lines, Last(headers), j)
  {
    if lines != [] {
      var rest, headers := lines[1..], Headers(lines);
      HeadersLast(rest);
      if Headers(rest) != [] {
        var h := Last(Headers(rest));
        var j: nat :| IsLatest(rest, h, j);
        LatestShifts(lines, h, j);
        assert Last(headers) == h;
      } else {
        NoneShifts(lines, 0);
        if IsHeader(lines[0]) { assert IsLatest(lines, Last(headers), 0); }
      }
    }
  }

  /** The function finds the last header line, if the chunk has one, and never an empty text. */
  lemma LatestHeaderSpec(content: string)
    ensures LatestHeader(content).None? <==> forall line | line in Lines(content) :: !IsHeader(line)
    ensures LatestHeader(content).Some? ==> exists j: nat :: IsLatest(Lines(content), LatestHeader(content).value, j)
    ensures LatestHeader(content) != Some("")
  {
    var lines := Lines(content);
    HeadersLast(lines);
    if LatestHeader(content).Some? {
      var j: nat :| IsLatest(lines, LatestHeader(content).value, j);
      assert lines[j] in lines && lines[j][0] == '#';
      StripRightKeepsFirst(lines[j]);
    }
  }

  // ---------- the header that a chunk gets ----------

  datatype Row = Row(document: Id, index: int, content: string)

  /** The order of the query; a document has no two chunks with one index. */
  ghost predicate Sorted(rows: seq<Row>) {
    forall j, k | 0 <= j < k < |rows| ::
      rows[j].document < rows[k].document || (rows[j].document == rows[k].document && rows[j].index < rows[k].index)
  }

  /** How the last header of a text is found. */
  type Finder = string -> Option<string>

  function HeaderAt(find: Finder, rows: seq<Row>, i: nat): string
    requires i < |rows|
  {
    var own := find(rows[i].content);
    if own.Some? then own.value
    else if i == 0 || rows[i - 1].document != rows[i].document then PROSE
    else HeaderAt(find, rows, i - 1)
  }

  /** Row `k` belongs to the document of row `i` and does not come after it. */
  predicate UpTo(rows: seq<Row>, i: nat, k: nat)
    requires i < |rows|
  {
    k < |rows| && rows[k].document == rows[i].document && rows[k].index <= rows[i].index
  }

  /** `j` is the last chunk up to `i`, in its document, that has a header. */
  ghost predicate LastWithHeader(find: Finder, rows: seq<Row>, i: nat, j: nat)
    requires i < |rows|
  {
    && UpTo(rows, i, j) && find(rows[j].content).Some?
    && forall k: nat | UpTo(rows, i, k) && rows[k].index > rows[j].index :: find(rows[k].content).None?
  }

  /** The header is the latest one at or before the chunk in its document, and PROSE if there is none. */
  lemma {:induction false} HeaderIsTheLatest(find: Finder, rows: seq<Row>, i: nat)
    requires Sorted(rows) && i < |rows|
    ensures (exists j: nat | LastWithHeader(find, rows, i, j) :: Some(HeaderAt(find, rows, i)) == find(rows[j].content))
            || ((forall k: nat | UpTo(rows, i, k) :: find(rows[k].content).None?) && HeaderAt(find, rows, i) == PROSE)
  {
    if find(rows[i].content).Some? {
      assert LastWithHeader(find, rows, i, i);
    } else if i == 0 || rows[i - 1].document != rows[i].document {
      forall k | 0 <= k < i ensures rows[k].document != rows[i].document {
        assert k == i - 1 || rows[k].document <= rows[i - 1].document;
      }
      forall k: nat | UpTo(rows, i, k) ensures k == i { }
    } else {
      HeaderIsTheLatest(find, rows, i - 1);
      forall k: nat | UpTo(rows, i, k) ensures k == i || UpTo(rows, i - 1, k) { }
      if j: nat :| LastWithHeader(find, rows, i - 1, j) && HeaderAt(find, rows, i - 1) == find(rows[j].content).value {
        assert LastWithHeader(find, rows, i, j);
      }
    }
  }

  // ---------- the metadata of one chunk ----------

  /** Python's `==` between a stored value and an integer. */
  predicate EqualsInt(v: Value, n: int) {
    match v
    case Int(k) => k == n
    case Float(r) => r == n as real
    case Bool(b) => (if b then 1 else 0) == n
    case _ => false
  }

  function PageOf(index: int): int { index / 4 + 1 }

  predicate NeedsHeader(m: Metadata, header: string) { HEADER_1 !in m || m[HEADER_1] != Text(header) }

  predicate NeedsPage(m: Metadata, page: int) { PAGE_NUMBER !in m || !EqualsInt(m[PAGE_NUMBER], page) }

  function Base(m: Option<Metadata>): Metadata { if m.Some? then m.value else map[] }

  function Refreshed(m: Option<Metadata>, header: string, page: int): Metadata {
    var one := if NeedsHeader(Base(m), header) then Base(m)[HEADER_1 := Text(header)] else Base(m);
    if NeedsPage(one, page) then one[PAGE_NUMBER := Int(page)] else one
  }

  /** Header and page are right afterwards, and everything else is as before. */
  lemma RefreshedSpec(m: Option<Metadata>, header: string, page: int)
    ensures var r := Refreshed(m, header, page);
      && HEADER_1 in r && r[HEADER_1] == Text(header)
      && PAGE_NUMBER in r && EqualsInt(r[PAGE_NUMBER], page)
      && r.Keys == Base(m).Keys + {HEADER_1, PAGE_NUMBER}
      && forall k | k in Base(m) && k != HEADER_1 && k != PAGE_NUMBER :: r[k] == Base(m)[k]
    ensures Refreshed(Some(Refreshed(m, header, page)), header, page) == Refreshed(m, header, page)
    ensures Some(Refreshed(m, header, page)) != m <==> NeedsHeader(Base(m), header) || NeedsPage(Base(m), page)
  {
  }

  /** Four chunks make a page: page `p` has the chunks from 4 * (p - 1) up to, not including, 4 * p. */
  lemma PageSpec(index: int)
    ensures 4 * (PageOf(index) - 1) <= index < 4 * PageOf(index)
  {
  }

  /** A stored page number that Python deems equal is kept as it is, whatever its type; anything else is replaced. */
  lemma EqualPageStays(m: Metadata, header: string, page: int)
    ensures Refreshed(Some(m[PAGE_NUMBER := Float(page as real)]), header, page)[PAGE_NUMBER] == Float(page as real)
    ensures Refreshed(Some(m[PAGE_NUMBER := Bool(true)]), header, 1)[PAGE_NUMBER] == Bool(true)
    ensures page != 1 && page != 0 ==>
              Refreshed(Some(m[PAGE_NUMBER := Bool(true)]), header, page)[PAGE_NUMBER] == Int(page)
    ensures forall s :: Refreshed(Some(m[PAGE_NUMBER := Text(s)]), header, page)[PAGE_NUMBER] == Int(page)
    ensures PAGE_NUMBER !in m ==> Refreshed(Some(m), header, page)[PAGE_NUMBER] == Int(page)
  {
  }

  // ---------- the pass over all chunks ----------

  function AfterRun(find: Finder, rows: seq<Row>, metas: seq<Option<Metadata>>): (after: seq<Option<Metadata>>)
    requires |metas| == |rows|
    ensures |after| == |rows|
  {
    seq(|rows|, i requires 0 <= i < |rows| => Some(Refreshed(metas[i], HeaderAt(find, rows, i), PageOf(rows[i].index))))
  }

  lemma AfterRunAt(find: Finder, rows: seq<Row>, metas: seq<Option<Metadata>>, i: nat)
    requires |metas| == |rows| && i < |rows|
    ensures AfterRun(find, rows, metas)[i] == Some(Refreshed(metas[i], HeaderAt(find, rows, i), PageOf(rows[i].index)))
  {
  }

  /**
   After the run over sorted rows every chunk has the latest header at or before it in its document, or PROSE, and its
   page of four chunks; the rest of its metadata is as before.
   */
  lemma EveryChunkIsRight(rows: seq<Row>, metas: seq<Option<Metadata>>, i: nat)
    requires Sorted(rows) && |metas| == |rows| && i < |rows|
    ensures var after := AfterRun(LatestHeader, rows, metas)[i];
      && after.Some? && HEADER_1 in after.value && PAGE_NUMBER in after.value
      && (|| (exists j: nat | LastWithHeader(LatestHeader, rows, i, j) ::
                after.value[HEADER_1] == Text(LatestHeader(rows[j].content).value))
          || ((forall k: nat | UpTo(rows, i, k) :: LatestHeader(rows[k].content).None?)
              && after.value[HEADER_1] == Text("PROSE")))
      && (exists page :: 4 * (page - 1) <= rows[i].index < 4 * page && EqualsInt(after.value[PAGE_NUMBER], page))
      && forall k :: k != HEADER_1 && k != PAGE_NUMBER ==>
           (k in after.value <==> metas[i].Some? && k in metas[i].value)
           && (k in after.value ==> after.value[k] == metas[i].value[k])
  {
    var header, page := HeaderAt(LatestHeader, rows, i), PageOf(rows[i].index);
    AfterRunAt(LatestHeader, rows, metas, i);
    RefreshedSpec(metas[i], header, page);
    HeaderIsTheLatest(LatestHeader, rows, i);
    PageSpec(rows[i].index);
    if j: nat :| LastWithHeader(LatestHeader, rows, i, j) && Some(header) == LatestHeader(rows[j].content) {
      assert LatestHeader(rows[j].content).value == header;
    }
  }

  /** A second run changes no chunk. */
  lemma SecondRunChangesNothing(find: Finder, rows: seq<Row>, metas: seq<Option<Metadata>>)
    requires |metas| == |rows|
    ensures AfterRun(find, rows, AfterRun(find, rows, metas)) == AfterRun(find, rows, metas)
  {
    var once := AfterRun(find, rows, metas);
    forall i | 0 <= i < |rows| ensures AfterRun(find, rows, once)[i] == once[i] {
      RefreshedSpec(metas[i], HeaderAt(find, rows, i), PageOf(rows[i].index));
    }
  }

  /** How many of the first `n` entries differ. */
  function Differences(before: seq<Option<Metadata>>, after: seq<Option<Metadata>>, n: nat): nat
    requires n <= |before| == |after|
  {
    if n == 0 then 0 else Differences(before, after, n - 1) + if before[n - 1] != after[n - 1] then 1 else 0
  }

  lemma {:induction false} DifferencesCounted(before: seq<Option<Metadata>>, after: seq<Option<Metadata>>, n: nat)
    requires n <= |before| == |after|
    ensures Differences(before, after, n) == |set i | 0 <= i < n && before[i] != after[i]|
  {
    var all := set i | 0 <= i < n && before[i] != after[i];
    if n == 0 {
      assert all == {};
    } else {
      DifferencesCounted(before, after, n - 1);
      var last := if before[n - 1] != after[n - 1] then {n - 1} else {};
      assert all == (set i | 0 <= i < n - 1 && before[i] != after[i]) + last;
    }
  }

  /** What the loop does to the running header. */
  lemma HeaderStep(find: Finder, rows: seq<Row>, i: nat, header: string)
    requires i < |rows| && find(rows[i].content) != Some("")
    requires header == if i == 0 || rows[i - 1].document != rows[i].document then PROSE else HeaderAt(find, rows, i - 1)
    ensures var own := find(rows[i].content);
      HeaderAt(find, rows, i) == if own.Some? && own.value != "" then own.value else header
  {
  }

  /** The body of the loop for one chunk: writes header and page where they are missing or different. */
  method RefreshMetadata(m: Option<Metadata>, currentHeader: string, index: int)
    returns (r: Option<Metadata>, needsUpdate: bool)
    ensures r == Some(Refreshed(m, currentHeader, PageOf(index)))
    ensures needsUpdate <==> r != m
  {
    RefreshedSpec(m, currentHeader, PageOf(index));
    var metadata := if m.Some? && m.value != map[] then m.value else map[];
    needsUpdate := false;
    if HEADER_1 !in metadata || metadata[HEADER_1] != Text(currentHeader) {
      metadata := metadata[HEADER_1 := Text(currentHeader)];
      needsUpdate := true;
    }
    var expectedPage := index / 4 + 1;
    if !(PAGE_NUMBER in metadata && EqualsInt(metadata[PAGE_NUMBER], expectedPage)) {
      metadata := metadata[PAGE_NUMBER := Int(expectedPage)];
      needsUpdate := true;
    }
    r := Some(metadata);
  }

  /** The loop; `metadata` is the column that it updates in place. */
  method BackfillWith(find: Finder, chunks: seq<Row>, metadata: array<Option<Metadata>>) returns (updated: nat)
    requires metadata.Length == |chunks| && forall content :: find(content) != Some("")
    modifies metadata
    ensures metadata[..] == AfterRun(find, chunks, old(metadata[..]))
    ensures updated == Differences(old(metadata[..]), metadata[..], |chunks|)
  {
    ghost var before := metadata[..];
    ghost var after := AfterRun(find, chunks, before);
    updated := 0;
    var currentHeader: string := PROSE;
    var currentDoc: Option<Id> := None;
    for i := 0 to |chunks|
      invariant currentDoc == if i == 0 then None else Some(chunks[i - 1].document)
      invariant i > 0 ==> currentHeader == HeaderAt(find, chunks, i - 1)
      invariant forall k | 0 <= k < |chunks| :: metadata[k] == if k < i then after[k] else before[k]
      invariant updated == Differences(before, after, i)
    {
      var chunk := chunks[i];
      if currentDoc != Some(chunk.document) {
        currentDoc := Some(chunk.document);
        currentHeader := PROSE;
      }
      HeaderStep(find, chunks, i, currentHeader);
      var foundHeader := find(chunk.content);
      if foundHeader.Some? && foundHeader.value != "" {
        currentHeader := foundHeader.value;
      }
      AfterRunAt(find, chunks, before, i);
      var refreshed, needsUpdate := RefreshMetadata(metadata[i], currentHeader, chunk.index);
      if needsUpdate {
        metadata[i] := refreshed;
        updated := updated + 1;
      }
    }
    assert metadata[..] == after;
  }

  method BackfillMetadata(chunks: seq<Row>, metadata: array<Option<Metadata>>) returns (updated: nat)
    requires metadata.Length == |chunks|
    modifies metadata
    ensures metadata[..] == AfterRun(LatestHeader, chunks, old(metadata[..]))
    ensures updated == Differences(old(metadata[..]), metadata[..], |chunks|)
  {
    forall content ensures LatestHeader(content) != Some("") { LatestHeaderSpec(content); }
    updated := BackfillWith(LatestHeader, chunks, metadata);
  }
}
