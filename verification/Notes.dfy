/**
 Client-owned notes: the two pure functions that compute the next version of a
 stored conversation, and what a whole sequence of appends adds up to.
 A field that is absent or not a string is None. Timestamps are the number that
 `Date.parse` gives for them, None when it gives NaN.
 */
module Notes {
  import opened Wrappers

  datatype Note = Note(
    id: string,
    userId: string,
    kind: string,
    title: Option<string>,
    contentHtml: Option<string>,
    createdAt: Option<int>,
    updatedAt: Option<int>)

  /** A requested change; `at` is the clock reading used when it is applied. */
  datatype Change =
    | Update(userId: string, kind: string, title: Option<string>, contentHtml: Option<string>, at: int)
    | Append(userId: string, kind: string, title: Option<string>, contentHtml: Option<string>, at: int,
             recoveryContent: Option<string>, recoveryTitle: Option<string>, recoveryExpected: Option<int>)

  datatype Outcome =
    | Stored(note: Note)   // the new version of the record
    | Refused              // null: nothing is written
    | Thrown               // an exception: nothing is written

  const SEPARATOR := "<hr data-averqel-document-separator=\"true\" />"

  // ---------- trimming ----------

  predicate IsSpace(c: char) {
    var u := c as int;
    || 9 <= u <= 13 || u == 32 || u == 0xA0 || u == 0x1680 || 0x2000 <= u <= 0x200A || u == 0x2028 || u == 0x2029
    || u == 0x202F || u == 0x205F || u == 0x3000 || u == 0xFEFF
  }

  function TrimStart(s: string): (r: string) {
    if s != "" && IsSpace(s[0]) then TrimStart(s[1..]) else s
  }

  function TrimEnd(s: string): (r: string) {
    if s != "" && IsSpace(s[|s| - 1]) then TrimEnd(s[..|s| - 1]) else s
  }

  function Trim(s: string): string { TrimEnd(TrimStart(s)) }

  /** No white space at either end. */
  predicate Trimmed(s: string) {
    s != "" ==> !IsSpace(s[0]) && !IsSpace(s[|s| - 1])
  }

  predicate AllSpace(s: string) { forall c | c in s :: IsSpace(c) }

  /** The characters that `trim` removes, written out. */
  lemma SpaceExactly(c: char)
    ensures IsSpace(c) <==>
      c in "\t\n\U{000B}\U{000C}\r \U{00A0}\U{1680}\U{2028}\U{2029}\U{202F}\U{205F}\U{3000}\U{FEFF}"
      || c in "\U{2000}\U{2001}\U{2002}\U{2003}\U{2004}\U{2005}\U{2006}\U{2007}\U{2008}\U{2009}\U{200A}"
  {
  }

  lemma {:induction false} TrimStartShape(s: string) returns (front: string)
    ensures s == front + TrimStart(s) && AllSpace(front)
    ensures TrimStart(s) != "" ==> !IsSpace(TrimStart(s)[0])
  {
    front := "";
    if s != "" && IsSpace(s[0]) {
      front := TrimStartShape(s[1..]);
      front := [s[0]] + front;
      assert s == [s[0]] + s[1..];
    }
  }

  lemma {:induction false} TrimEndShape(s: string) returns (back: string)
    ensures s == TrimEnd(s) + back && AllSpace(back)
    ensures TrimEnd(s) != "" ==> !IsSpace(TrimEnd(s)[|TrimEnd(s)| - 1])
  {
    back := "";
    if s != "" && IsSpace(s[|s| - 1]) {
      back := TrimEndShape(s[..|s| - 1]);
      back := back + [s[|s| - 1]];
      assert s == s[..|s| - 1] + [s[|s| - 1]];
    }
  }

  /** Trimming takes away white space at both ends, all of it and nothing else, and leaves trimmed strings alone. */
  lemma TrimSpec(s: string)
    ensures exists front, back :: AllSpace(front) && AllSpace(back) && s == front + Trim(s) + back
    ensures Trimmed(Trim(s))
    ensures Trimmed(s) ==> Trim(s) == s
  {
    var front := TrimStartShape(s);
    var back := TrimEndShape(TrimStart(s));
    assert Trim(s) != "" ==> Trim(s)[0] == TrimStart(s)[0];
    assert s == front + Trim(s) + back;
  }

  // ---------- the two update functions ----------

  function Text(value: Option<string>): string { if value.Some? then value.value else "" }

  function AsciiLower(c: char): char {
    if 'A' <= c <= 'Z' then (c as int + 32) as char else c
  }

  /** The title the interface shows for a note that was never named. */
  predicate IsDefaultTitle(title: string) {
    var t := Trim(title);
    t == "" || (|t| == |"untitled note"| && forall i | 0 <= i < |t| :: AsciiLower(t[i]) == "untitled note"[i])
  }

  predicate Authorised(note: Option<Note>, userId: string, kind: string) {
    note.Some? && userId != "" && kind == "deepspace" && note.value.userId == userId && note.value.kind == kind
  }

  function NextTitle(baseTitle: string, title: string): string {
    if IsDefaultTitle(baseTitle) && title != "" then title else baseTitle
  }

  function Joined(base: string, addition: string): string {
    if base != "" then base + SEPARATOR + addition else addition
  }

  function ApplyUpdate(note: Option<Note>, c: Change): Outcome
    requires c.Update?
  {
    if !Authorised(note, c.userId, c.kind) then Refused else
    var n := note.value;
    Stored(n.(title := if c.title.Some? then c.title else n.title,
              contentHtml := if c.contentHtml.Some? then c.contentHtml else n.contentHtml,
              updatedAt := Some(c.at)))
  }

  function ApplyAppend(note: Option<Note>, c: Change): Outcome
    requires c.Append?
  {
    if !Authorised(note, c.userId, c.kind) then Refused else
    var n := note.value;
    var addition := Trim(Text(c.contentHtml));
    if addition == "" then Thrown else
    var recovery := Trim(Text(c.recoveryContent));
    var recoveryTitle := Trim(Text(c.recoveryTitle));
    // Two NaN timestamps are different from each other as well.
    if recovery != "" && !(n.updatedAt.Some? && n.updatedAt == c.recoveryExpected) then Thrown else
    var base := if recovery != "" then recovery else Trim(Text(n.contentHtml));
    var baseTitle := if recovery != "" && recoveryTitle != "" then recoveryTitle else Text(n.title);
    Stored(n.(title := Some(NextTitle(baseTitle, Trim(Text(c.title)))),
              contentHtml := Some(Joined(base, addition)),
              updatedAt := Some(c.at)))
  }

  function Apply(note: Option<Note>, c: Change): Outcome {
    if c.Update? then ApplyUpdate(note, c) else ApplyAppend(note, c)
  }

  /** The record after trying `c`: only a Stored outcome replaces it. */
  function After(note: Option<Note>, c: Change): Option<Note> {
    var outcome := Apply(note, c);
    if outcome.Stored? then Some(outcome.note) else note
  }

  /** Running the changes one after the other, nothing in between. */
  function Fold(note: Option<Note>, changes: seq<Change>): Option<Note>
    decreases |changes|
  {
    if changes == [] then note else After(Fold(note, changes[..|changes| - 1]), changes[|changes| - 1])
  }

  // ---------- one change ----------

  /** The note is there, is the user's, and is a deepspace note, as the change says. */
  predicate MayChange(note: Option<Note>, userId: string, kind: string) {
    match note
    case None => false
    case Some(n) => |userId| > 0 && n.userId == userId && n.kind == kind == "deepspace"
  }

  /** An update writes the title and the content that it brings, stamps the note, and leaves everything else alone. */
  lemma UpdateExactly(note: Option<Note>, c: Change)
    requires c.Update?
    ensures Apply(note, c) == Refused <==> !MayChange(note, c.userId, c.kind)
    ensures MayChange(note, c.userId, c.kind) ==>
      var r, n := Apply(note, c), note.value;
      && r.Stored? && r.note.updatedAt == Some(c.at)
      && r.note.id == n.id && r.note.userId == n.userId && r.note.kind == n.kind && r.note.createdAt == n.createdAt
      && (c.title.Some? ==> r.note.title == c.title) && (c.title.None? ==> r.note.title == n.title)
      && (c.contentHtml.Some? ==> r.note.contentHtml == c.contentHtml)
      && (c.contentHtml.None? ==> r.note.contentHtml == n.contentHtml)
  {
  }

  /**
   An append is refused like an update; it throws if it adds nothing, or brings
   a recovery copy and the note has another timestamp than expected.
   */
  lemma AppendEndsExactly(note: Option<Note>, c: Change)
    requires c.Append?
    ensures var copy, addition := Trim(Text(c.recoveryContent)), Trim(Text(c.contentHtml));
      && (Apply(note, c) == Refused <==> !MayChange(note, c.userId, c.kind))
      && (Apply(note, c) == Thrown <==>
            MayChange(note, c.userId, c.kind)
            && (addition == ""
                || (copy != "" && (note.value.updatedAt.None? || note.value.updatedAt != c.recoveryExpected))))
  {
  }

  /** A stored append ends with its addition, after the recovery copy or else the old content, and stamps the note. */
  lemma AppendStores(note: Option<Note>, c: Change)
    requires c.Append? && Apply(note, c).Stored?
    ensures var r, n := Apply(note, c).note, note.value;
      var copy, was, addition := Trim(Text(c.recoveryContent)), Trim(Text(n.contentHtml)), Trim(Text(c.contentHtml));
      && r.updatedAt == Some(c.at)
      && r.id == n.id && r.userId == n.userId && r.kind == n.kind && r.createdAt == n.createdAt
      && r.contentHtml == Some(
           if copy != "" then copy + SEPARATOR + addition else if was != "" then was + SEPARATOR + addition
           else addition)
  {
  }

  /** A recovery copy that brings a title restores it, unless that is a default title and the append brings one. */
  lemma RecoveryTitle(note: Option<Note>, c: Change)
    requires c.Append? && Apply(note, c).Stored? && Trim(Text(c.recoveryContent)) != ""
    ensures var r, given, restored := Apply(note, c).note, Trim(Text(c.title)), Trim(Text(c.recoveryTitle));
      var title := if restored != "" then restored else Text(note.value.title);
      r.title == Some(if Unnamed(title) && given != "" then given else title)
  {
  }

  /** Blank, or "Untitled note" in any mixture of capitals, with any white space around it. */
  predicate Unnamed(title: string) {
    Trim(title) == "" || Lowered(Trim(title)) == "untitled note"
  }

  function Lowered(s: string): string { seq(|s|, i requires 0 <= i < |s| => AsciiLower(s[i])) }

  lemma DefaultTitleExactly(title: string)
    ensures IsDefaultTitle(title) <==> Unnamed(title)
  {
    var t := Trim(title);
    if IsDefaultTitle(title) && t != "" { assert Lowered(t) == "untitled note"; }
    if Lowered(t) == "untitled note" {
      assert |t| == |"untitled note"| && forall i | 0 <= i < |t| :: AsciiLower(t[i]) == Lowered(t)[i];
    }
  }

  // ---------- what a sequence of appends adds up to ----------

  predicate PlainAppend(c: Change) { c.Append? && Trim(Text(c.recoveryContent)) == "" }

  function Join(parts: seq<string>): string {
    if parts == [] then ""
    else if |parts| == 1 then parts[0]
    else Join(parts[..|parts| - 1]) + SEPARATOR + parts[|parts| - 1]
  }

  /** The accepted changes: right user and kind, and something to add. */
  predicate Accepted(note: Note, c: Change) {
    Authorised(Some(note), c.userId, c.kind) && Trim(Text(c.contentHtml)) != ""
  }

  function AcceptedParts(note: Note, changes: seq<Change>): seq<string> {
    if changes == [] then []
    else
      var c := changes[|changes| - 1];
      AcceptedParts(note, changes[..|changes| - 1]) + (if Accepted(note, c) then [Trim(Text(c.contentHtml))] else [])
  }

  /** The titles in play: the stored one, then the trimmed title of each accepted change. */
  function Titles(note: Note, changes: seq<Change>): (r: seq<string>)
    ensures |r| > 0 && r[0] == Text(note.title)
  {
    if changes == [] then [Text(note.title)]
    else
      var c := changes[|changes| - 1];
      Titles(note, changes[..|changes| - 1]) + (if Accepted(note, c) then [Trim(Text(c.title))] else [])
  }

  function OriginalPart(note: Note): seq<string> {
    var base := Trim(Text(note.contentHtml));
    if base == "" then [] else [base]
  }

  /** `titles[k]` is the first title that is not a default one. */
  predicate FirstNamedAt(titles: seq<string>, k: int) {
    0 <= k < |titles| && !IsDefaultTitle(titles[k]) && forall j | 0 <= j < k :: IsDefaultTitle(titles[j])
  }

  /** `title` is the first title that is not a default one; with none, it is one of the defaults. */
  ghost predicate FirstNamed(titles: seq<string>, title: string) {
    if IsDefaultTitle(title) then title in titles && forall t | t in titles :: IsDefaultTitle(t)
    else exists k :: FirstNamedAt(titles, k) && title == titles[k]
  }

  /** A joined text starts and ends with non-blank characters, so trimming it again changes nothing. */
  lemma {:induction false} JoinTrimmed(parts: seq<string>)
    requires forall p | p in parts :: p != "" && Trimmed(p)
    ensures Trimmed(Join(parts))
    ensures parts != [] ==> Join(parts) != ""
  {
    if |parts| > 1 {
      var front, last := parts[..|parts| - 1], parts[|parts| - 1];
      assert last in parts && forall p | p in front :: p in parts;
      JoinTrimmed(front);
    }
  }

  lemma {:induction false} AcceptedTrimmed(note: Note, changes: seq<Change>)
    ensures forall p | p in AcceptedParts(note, changes) :: p != "" && Trimmed(p)
  {
    if changes != [] {
      AcceptedTrimmed(note, changes[..|changes| - 1]);
      TrimSpec(Text(changes[|changes| - 1].contentHtml));
    }
  }

  /** What one plain append does to a note. */
  lemma PlainAppendStep(note: Note, c: Change)
    requires PlainAppend(c)
    ensures After(Some(note), c).Some?
    ensures !Accepted(note, c) ==> After(Some(note), c).value == note
    ensures Accepted(note, c) ==> After(Some(note), c).value == note.(
      title := Some(NextTitle(Text(note.title), Trim(Text(c.title)))),
      contentHtml := Some(Joined(Trim(Text(note.contentHtml)), Trim(Text(c.contentHtml)))),
      updatedAt := Some(c.at))
  {
  }

  /** The identity of the note never changes, so the same changes are accepted at every point. */
  lemma {:induction false} AppendsKeepIdentity(note: Note, changes: seq<Change>)
    requires forall c | c in changes :: PlainAppend(c)
    ensures Fold(Some(note), changes).Some?
    ensures var r := Fold(Some(note), changes).value;
      && r.id == note.id && r.userId == note.userId && r.kind == note.kind && r.createdAt == note.createdAt
      && (AcceptedParts(note, changes) == [] ==> r == note)
  {
    if changes != [] {
      var front, c := changes[..|changes| - 1], changes[|changes| - 1];
      assert c in changes && forall d | d in front :: d in changes;
      AppendsKeepIdentity(note, front);
      PlainAppendStep(Fold(Some(note), front).value, c);
    }
  }

  /** The last change of a sequence, seen from the note it is applied to. */
  lemma LastAppend(note: Note, changes: seq<Change>) returns (front: seq<Change>, c: Change, before: Note)
    requires changes != [] && forall d | d in changes :: PlainAppend(d)
    ensures front == changes[..|changes| - 1] && c == changes[|changes| - 1]
    ensures forall d | d in front :: PlainAppend(d)
    ensures Fold(Some(note), front) == Some(before)
    ensures Fold(Some(note), changes).Some?
    ensures var r := Fold(Some(note), changes).value;
      if Accepted(note, c) then
        && Text(r.title) == NextTitle(Text(before.title), Trim(Text(c.title)))
        && r.contentHtml == Some(Joined(Trim(Text(before.contentHtml)), Trim(Text(c.contentHtml))))
      else r == before
  {
    front, c := changes[..|changes| - 1], changes[|changes| - 1];
    assert c in changes && forall d | d in front :: d in changes;
    AppendsKeepIdentity(note, front);
    before := Fold(Some(note), front).value;
    PlainAppendStep(before, c);
    assert Accepted(before, c) == Accepted(note, c);
  }

  /** The content is the trimmed original and the accepted additions joined by the separator, in order. */
  lemma {:induction false} AppendsContent(note: Note, changes: seq<Change>)
    requires forall c | c in changes :: PlainAppend(c)
    requires AcceptedParts(note, changes) != []
    ensures Fold(Some(note), changes).Some?
    ensures Fold(Some(note), changes).value.contentHtml == Some(Join(OriginalPart(note) + AcceptedParts(note, changes)))
  {
    var front, c, before := LastAppend(note, changes);
    var parts := OriginalPart(note) + AcceptedParts(note, front);
    if AcceptedParts(note, front) != [] {
      AppendsContent(note, front);
    } else {
      AppendsKeepIdentity(note, front);
    }
    if Accepted(note, c) {
      BaseText(note, front, before);
      JoinOneMore(parts, Trim(Text(c.contentHtml)));
      assert OriginalPart(note) + AcceptedParts(note, changes) == parts + [Trim(Text(c.contentHtml))];
    } else {
      assert AcceptedParts(note, changes) == AcceptedParts(note, front);
    }
  }

  /** Trimming the text collected so far changes nothing. */
  lemma BaseText(note: Note, changes: seq<Change>, now: Note)
    requires AcceptedParts(note, changes) == [] ==> now == note
    requires AcceptedParts(note, changes) != [] ==>
      now.contentHtml == Some(Join(OriginalPart(note) + AcceptedParts(note, changes)))
    ensures Trim(Text(now.contentHtml)) == Join(OriginalPart(note) + AcceptedParts(note, changes))
    ensures OriginalPart(note) + AcceptedParts(note, changes) != [] ==>
      Join(OriginalPart(note) + AcceptedParts(note, changes)) != ""
  {
    var parts := OriginalPart(note) + AcceptedParts(note, changes);
    TrimSpec(Text(note.contentHtml));
    AcceptedTrimmed(note, changes);
    JoinTrimmed(parts);
    TrimSpec(Join(parts));
  }

  lemma JoinOneMore(parts: seq<string>, addition: string)
    requires parts != [] ==> Join(parts) != ""
    ensures Joined(Join(parts), addition) == Join(parts + [addition])
  {
    assert (parts + [addition])[..|parts|] == parts;
  }

  /** The title is the first one that is not a default title, among the stored one and those of the accepted changes. */
  lemma {:induction false} AppendsTitle(note: Note, changes: seq<Change>)
    requires forall c | c in changes :: PlainAppend(c)
    ensures Fold(Some(note), changes).Some?
    ensures FirstNamed(Titles(note, changes), Text(Fold(Some(note), changes).value.title))
  {
    if changes == [] {
      assert IsDefaultTitle(Text(note.title)) || FirstNamedAt(Titles(note, []), 0);
    } else {
      var front, c, before := LastAppend(note, changes);
      AppendsTitle(note, front);
      if !Accepted(note, c) { assert Titles(note, changes) == Titles(note, front); }
      TitleStep(Titles(note, front), Text(before.title), Trim(Text(c.title)));
    }
  }

  /** One more title: the running answer stays the first named one. */
  lemma TitleStep(titles: seq<string>, current: string, title: string)
    requires FirstNamed(titles, current)
    ensures FirstNamed(titles + [title], NextTitle(current, title))
  {
    var more := titles + [title];
    if !IsDefaultTitle(current) {
      var k :| FirstNamedAt(titles, k) && current == titles[k];
      assert FirstNamedAt(more, k);
    } else if !IsDefaultTitle(title) {
      assert FirstNamedAt(more, |titles|);
      assert NextTitle(current, title) == title;
    }
  }
}
