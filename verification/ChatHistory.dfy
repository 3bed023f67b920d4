/**
 Paging backwards through the stored messages of a conversation. The list that
 the store gives comes in any order; it is filtered, sorted by (created_at, id)
 with a stable sort, and cut before the message named by the cursor.
 `localeCompare` is an arbitrary collation, given by the rank of each string.
 */
module ChatHistory {
  import opened Wrappers

  datatype Message = Message(id: string, conversation: string, createdAt: string, body: string)

  type Collation = string -> int

  /** `a` does not sort after `b`. */
  predicate AtMost(rank: Collation, a: Message, b: Message) {
    rank(a.createdAt) < rank(b.createdAt) || (rank(a.createdAt) == rank(b.createdAt) && rank(a.id) <= rank(b.id))
  }

  // ---------- the handler ----------

  function InConversation(all: seq<Message>, conversation: string): seq<Message> {
    if all == [] then []
    else
      InConversation(all[..|all| - 1], conversation)
      + if all[|all| - 1].conversation == conversation then [all[|all| - 1]] else []
  }

  /** Behind everything that does not sort after it: a later equal message stays later. */
  function Insert(rank: Collation, sorted: seq<Message>, m: Message): seq<Message> {
    if sorted == [] || AtMost(rank, sorted[|sorted| - 1], m) then sorted + [m]
    else Insert(rank, sorted[..|sorted| - 1], m) + [sorted[|sorted| - 1]]
  }

  function Sort(rank: Collation, messages: seq<Message>): seq<Message> {
    if messages == [] then [] else Insert(rank, Sort(rank, messages[..|messages| - 1]), messages[|messages| - 1])
  }

  function FindIndex(messages: seq<Message>, id: string): (i: int)
    ensures -1 <= i < |messages|
    ensures i >= 0 ==> messages[i].id == id && forall j | 0 <= j < i :: messages[j].id != id
    ensures i < 0 ==> forall j | 0 <= j < |messages| :: messages[j].id != id
  {
    if messages == [] then -1
    else if messages[0].id == id then 0
    else
      var i := FindIndex(messages[1..], id);
      if i < 0 then -1 else i + 1
  }

  datatype LimitParam = Missing | Whole(n: int) | NotWhole

  function Limit(p: LimitParam): (n: int)
    ensures 1 <= n <= 100
  {
    match p
    case Whole(n) => if n < 1 then 1 else if n > 100 then 100 else n
    case _ => 40
  }

  /** An empty cursor means the end of the history. */
  function BeforeIndex(history: seq<Message>, cursor: string): (i: int)
    ensures -1 <= i <= |history|
  {
    if cursor == "" then |history| else FindIndex(history, cursor)
  }

  function PageOf(history: seq<Message>, limit: nat, cursor: string): (page: seq<Message>) {
    var before := BeforeIndex(history, cursor);
    if before < 0 then [] else history[if before - limit - 1 < 0 then 0 else before - limit - 1..before]
  }

  function GetChatHistory(rank: Collation, all: seq<Message>, conversation: string, limit: LimitParam,
                          cursor: string): seq<Message> {
    PageOf(Sort(rank, InConversation(all, conversation)), Limit(limit), cursor)
  }

  // ---------- one page ----------

  /**
   A page holds the messages right before the cursor, newest last; it has one
   more than the limit exactly when more than `limit` messages precede the
   cursor, and otherwise it is everything before the cursor.
   */
  lemma PageSize(history: seq<Message>, limit: nat, cursor: string)
    ensures var before, page := BeforeIndex(history, cursor), PageOf(history, limit, cursor);
      && (|page| == limit + 1 <==> before > limit)
      && (before < 0 ==> page == [])
      && (0 <= before <= limit ==> page == history[..before])
      && (before >= 0 ==> history[..before][before - |page|..] == page)
  {
  }

  // ---------- walking backwards ----------

  /** Where the page that ends before position `before` begins. */
  function PageStart(limit: nat, before: nat): (start: nat)
    ensures start <= before && (before > 0 ==> start < before)
  {
    if before - limit - 1 < 0 then 0 else before - limit - 1
  }

  /** The positions from `low` up to `high`. */
  function Positions(low: nat, high: nat): (r: seq<nat>)
    requires low <= high
    ensures |r| == high - low && forall i | 0 <= i < |r| :: r[i] == low + i
  {
    seq(high - low, i => low + i)
  }

  /**
   Fetching page after page, the first id of each page as the next cursor,
   until a page is empty: the positions of the messages that came, oldest page
   first, or None if `n` fetches do not reach the empty page.
   */
  function Walk(history: seq<Message>, limit: nat, cursor: string, n: nat): Option<seq<nat>>
    decreases n
  {
    if n == 0 then None else
    var page, before := PageOf(history, limit, cursor), BeforeIndex(history, cursor);
    if page == [] then Some([]) else
    var older := Walk(history, limit, page[0].id, n - 1);
    if older.None? then None else Some(older.value + Positions(before - |page|, before))
  }

  /** The id leads back to this position: it is not empty, and no earlier message has it. */
  predicate LeadsBack(history: seq<Message>, q: nat)
    requires q < |history|
  {
    history[q].id != "" && forall j | 0 <= j < q :: history[j].id != history[q].id
  }

  /** The first id of every page on the way back from `before` leads back to its message. */
  predicate PagesLeadBack(history: seq<Message>, limit: nat, before: nat)
    requires before <= |history|
    decreases before
  {
    before > 0 ==>
      LeadsBack(history, PageStart(limit, before)) && PagesLeadBack(history, limit, PageStart(limit, before))
  }

  lemma PageBegins(history: seq<Message>, limit: nat, cursor: string)
    requires BeforeIndex(history, cursor) >= 0
    ensures var before, page := BeforeIndex(history, cursor), PageOf(history, limit, cursor);
      && |page| == before - PageStart(limit, before)
      && (before > 0 ==> page != [] && page[0] == history[PageStart(limit, before)])
  {
  }

  /**
   The next page ends where this one begins exactly when the first id of the
   page is not empty and no earlier message has the same id.
   */
  lemma NextPageFollowsExactly(history: seq<Message>, limit: nat, cursor: string)
    requires PageOf(history, limit, cursor) != []
    ensures var page := PageOf(history, limit, cursor);
      var start := BeforeIndex(history, cursor) - |page|;
      BeforeIndex(history, page[0].id) == start <==> LeadsBack(history, start)
  {
    PageBegins(history, limit, cursor);
  }

  /** What comes last on a walk is the message before the cursor. */
  lemma WalkEnds(history: seq<Message>, limit: nat, cursor: string, n: nat)
    requires BeforeIndex(history, cursor) > 0
    ensures var walk := Walk(history, limit, cursor, n);
      walk.Some? ==> walk.value != [] && walk.value[|walk.value| - 1] == BeforeIndex(history, cursor) - 1
  {
    PageBegins(history, limit, cursor);
  }

  lemma WalkUnfold(history: seq<Message>, limit: nat, cursor: string, n: nat)
    requires n > 0 && BeforeIndex(history, cursor) > 0
    ensures var before := BeforeIndex(history, cursor);
      var start := PageStart(limit, before);
      var older := Walk(history, limit, history[start].id, n - 1);
      Walk(history, limit, cursor, n) == if older.None? then None else Some(older.value + Positions(start, before))
  {
    PageBegins(history, limit, cursor);
  }

  /** One page of the walk is right exactly if what comes before it is. */
  lemma WalkStep(history: seq<Message>, limit: nat, cursor: string, n: nat)
    requires n > 0 && BeforeIndex(history, cursor) > 0
    ensures var before := BeforeIndex(history, cursor);
      var start := PageStart(limit, before);
      Walk(history, limit, cursor, n) == Some(Positions(0, before))
      <==> Walk(history, limit, history[start].id, n - 1) == Some(Positions(0, start))
  {
    var before := BeforeIndex(history, cursor);
    var start := PageStart(limit, before);
    var older := Walk(history, limit, history[start].id, n - 1);
    WalkUnfold(history, limit, cursor, n);
    if older.Some? { OlderPart(older.value, start, before); }
  }

  /** The walk ends, and the messages that came are those before the cursor, each once and in order. */
  predicate VisitsAll(history: seq<Message>, limit: nat, cursor: string, n: nat)
    requires BeforeIndex(history, cursor) >= 0
  {
    Walk(history, limit, cursor, n) == Some(Positions(0, BeforeIndex(history, cursor)))
  }

  lemma WalkGoesOn(history: seq<Message>, limit: nat, cursor: string, n: nat)
    requires n > 0 && BeforeIndex(history, cursor) > 0
    requires LeadsBack(history, PageStart(limit, BeforeIndex(history, cursor)))
    ensures var start := PageStart(limit, BeforeIndex(history, cursor));
      && BeforeIndex(history, history[start].id) == start
      && (VisitsAll(history, limit, cursor, n) <==> VisitsAll(history, limit, history[start].id, n - 1))
  {
    PageBegins(history, limit, cursor);
    NextPageFollowsExactly(history, limit, cursor);
    WalkStep(history, limit, cursor, n);
  }

  /** From a cursor at another place the walk does not give the messages before `start`. */
  lemma WalkGoesAstray(history: seq<Message>, limit: nat, cursor: string, n: nat)
    requires n > 0 && BeforeIndex(history, cursor) > 0
    requires !LeadsBack(history, PageStart(limit, BeforeIndex(history, cursor)))
    ensures !VisitsAll(history, limit, cursor, n)
  {
    var start := PageStart(limit, BeforeIndex(history, cursor));
    WalkStep(history, limit, cursor, n);
    NextElsewhere(history, start);
    WalkElsewhere(history, limit, history[start].id, n - 1, start);
  }

  lemma WalkElsewhere(history: seq<Message>, limit: nat, cursor: string, n: nat, start: nat)
    requires BeforeIndex(history, cursor) > start || 0 <= BeforeIndex(history, cursor) < start
    ensures Walk(history, limit, cursor, n) != Some(Positions(0, start))
  {
    if BeforeIndex(history, cursor) > 0 {
      WalkEnds(history, limit, cursor, n);
    } else {
      assert PageOf(history, limit, cursor) == [];
    }
  }

  lemma NothingToVisit(history: seq<Message>, limit: nat, cursor: string, n: nat)
    requires n > 0 && BeforeIndex(history, cursor) == 0
    ensures VisitsAll(history, limit, cursor, n)
  {
    assert PageOf(history, limit, cursor) == [];
  }

  /**
   The walk ends and visits every message before the cursor exactly once, in
   order, if and only if every page on the way begins with an id that leads back.
   */
  lemma {:induction false} WalkVisitsAllExactly(history: seq<Message>, limit: nat, cursor: string, n: nat)
    requires 0 <= BeforeIndex(history, cursor) < n
    ensures VisitsAll(history, limit, cursor, n) <==> PagesLeadBack(history, limit, BeforeIndex(history, cursor))
    decreases n
  {
    var before := BeforeIndex(history, cursor);
    if before == 0 {
      NothingToVisit(history, limit, cursor, n);
    } else {
      var start := PageStart(limit, before);
      if LeadsBack(history, start) {
        WalkGoesOn(history, limit, cursor, n);
        WalkVisitsAllExactly(history, limit, history[start].id, n - 1);
      } else {
        WalkGoesAstray(history, limit, cursor, n);
      }
    }
  }

  lemma OlderPart(older: seq<nat>, start: nat, before: nat)
    requires start <= before
    ensures older + Positions(start, before) == Positions(0, before) <==> older == Positions(0, start)
  {
    var all := older + Positions(start, before);
    if older == Positions(0, start) {
      assert all == Positions(0, before);
    }
    if all == Positions(0, before) {
      assert |older| == start;
      forall i | 0 <= i < start ensures older[i] == i { assert all[i] == i; }
    }
  }

  /** An id that does not lead back gives a cursor that is too late or too early. */
  lemma NextElsewhere(history: seq<Message>, q: nat)
    requires q < |history| && !LeadsBack(history, q)
    ensures var b := BeforeIndex(history, history[q].id); b > q || 0 <= b < q
  {
  }

  /** From the newest page on, the walk visits the whole conversation exactly once under the same condition. */
  lemma WholeConversationVisitedExactly(rank: Collation, all: seq<Message>, conversation: string, limit: LimitParam,
                                        n: nat)
    requires n > |Sort(rank, InConversation(all, conversation))|
    ensures var history := Sort(rank, InConversation(all, conversation));
      VisitsAll(history, Limit(limit), "", n) <==> PagesLeadBack(history, Limit(limit), |history|)
  {
    WalkVisitsAllExactly(Sort(rank, InConversation(all, conversation)), Limit(limit), "", n);
  }

  /** In particular when all ids are different and none is empty. */
  lemma {:induction false} DifferentIdsLeadBack(history: seq<Message>, limit: nat, before: nat)
    requires before <= |history| && forall i | 0 <= i < |history| :: history[i].id != ""
    requires forall i, j | 0 <= i < j < |history| :: history[i].id != history[j].id
    ensures PagesLeadBack(history, limit, before)
    decreases before
  {
    if before > 0 { DifferentIdsLeadBack(history, limit, PageStart(limit, before)); }
  }

  /** A message without an id at the beginning of the newest page makes the walk fetch that page for ever. */
  lemma {:induction false} EmptyIdNeverEnds(history: seq<Message>, limit: nat, n: nat)
    requires history != [] && history[PageStart(limit, |history|)].id == ""
    ensures Walk(history, limit, "", n).None?
  {
    PageBegins(history, limit, "");
    if n > 0 { EmptyIdNeverEnds(history, limit, n - 1); }
  }

  // ---------- the order is the promised one ----------

  ghost predicate Sorted(rank: Collation, s: seq<Message>) {
    forall i, j | 0 <= i < j < |s| :: AtMost(rank, s[i], s[j])
  }

  lemma SortedAppend(rank: Collation, s: seq<Message>, m: Message)
    requires Sorted(rank, s) && forall x | x in s :: AtMost(rank, x, m)
    ensures Sorted(rank, s + [m])
  {
  }

  lemma {:induction false} InsertSame(rank: Collation, s: seq<Message>, m: Message)
    ensures multiset(Insert(rank, s, m)) == multiset(s) + multiset{m}
  {
    if s != [] && !AtMost(rank, s[|s| - 1], m) {
      InsertSame(rank, s[..|s| - 1], m);
      assert s == s[..|s| - 1] + [s[|s| - 1]];
    }
  }

  lemma {:induction false} InsertSpec(rank: Collation, s: seq<Message>, m: Message)
    requires Sorted(rank, s)
    ensures Sorted(rank, Insert(rank, s, m))
    ensures multiset(Insert(rank, s, m)) == multiset(s) + multiset{m}
  {
    InsertSame(rank, s, m);
    if s == [] || AtMost(rank, s[|s| - 1], m) {
      forall x | x in s ensures AtMost(rank, x, m) {
        assert AtMost(rank, s[|s| - 1], m) && (x == s[|s| - 1] || AtMost(rank, x, s[|s| - 1]));
      }
      SortedAppend(rank, s, m);
    } else {
      var front, last := s[..|s| - 1], s[|s| - 1];
      var inserted := Insert(rank, front, m);
      InsertSpec(rank, front, m);
      forall x | x in inserted ensures AtMost(rank, x, last) {
        assert x in multiset(inserted);
        assert x in front || x == m;
      }
      SortedAppend(rank, inserted, last);
    }
  }

  /** The sort gives the same messages in (created_at, id) order. */
  lemma {:induction false} SortSpec(rank: Collation, messages: seq<Message>)
    ensures Sorted(rank, Sort(rank, messages))
    ensures multiset(Sort(rank, messages)) == multiset(messages)
  {
    if messages != [] {
      var front, last := messages[..|messages| - 1], messages[|messages| - 1];
      SortSpec(rank, front);
      InsertSpec(rank, Sort(rank, front), last);
      assert messages == front + [last];
    }
  }

  // ---------- what the handler answers ----------

  /** The limit is the nearest number from 1 to 100, or 40 if what was asked for is not a whole number. */
  lemma LimitIsNearest(n: int, other: int)
    requires 1 <= other <= 100
    ensures Distance(n, Limit(Whole(n))) <= Distance(n, other)
    ensures Limit(Missing) == Limit(NotWhole) == 40
  {
  }

  function Distance(a: int, b: int): nat { if a < b then b - a else a - b }

  /** The filter keeps the messages of the conversation, as often as they are stored. */
  lemma {:induction false} InConversationSpec(all: seq<Message>, conversation: string)
    ensures forall m :: multiset(InConversation(all, conversation))[m] ==
                        if m.conversation == conversation then multiset(all)[m] else 0
  {
    if all != [] {
      var front, last := all[..|all| - 1], all[|all| - 1];
      InConversationSpec(front, conversation);
      assert all == front + [last];
    }
  }

  lemma OneMoreFiltered(front: seq<Message>, back: seq<Message>, last: Message, conversation: string)
    requires InConversation(front + back, conversation)
             == InConversation(front, conversation) + InConversation(back, conversation)
    ensures InConversation(front + (back + [last]), conversation)
            == InConversation(front, conversation) + InConversation(back + [last], conversation)
  {
    assert front + (back + [last]) == front + back + [last];
    InConversationAppend(front + back, last, conversation);
    InConversationAppend(back, last, conversation);
  }

  /** And in the order of the store: part after part, message after message. */
  lemma {:induction false} InConversationKeepsOrder(front: seq<Message>, back: seq<Message>, conversation: string)
    ensures InConversation(front + back, conversation)
            == InConversation(front, conversation) + InConversation(back, conversation)
    ensures |back| == 1 ==>
              InConversation(back, conversation) == if back[0].conversation == conversation then back else []
  {
    if back == [] {
      assert front + back == front;
    } else {
      var most, last := back[..|back| - 1], back[|back| - 1];
      assert back == most + [last];
      InConversationKeepsOrder(front, most, conversation);
      OneMoreFiltered(front, most, last, conversation);
      InConversationAppend(most, last, conversation);
    }
  }

  /** By creation time; among equal ones by id. */
  ghost predicate InOrder(rank: Collation, s: seq<Message>) {
    forall i, j | 0 <= i < j < |s| ::
      rank(s[i].createdAt) < rank(s[j].createdAt)
      || (rank(s[i].createdAt) == rank(s[j].createdAt) && rank(s[i].id) <= rank(s[j].id))
  }

  /** The messages that sort like `m`, in their order. */
  function Like(rank: Collation, s: seq<Message>, m: Message): seq<Message> {
    if s == [] then []
    else
      var last := s[|s| - 1];
      var front := Like(rank, s[..|s| - 1], m);
      if rank(last.createdAt) == rank(m.createdAt) && rank(last.id) == rank(m.id) then front + [last] else front
  }

  lemma LikeAppend(rank: Collation, s: seq<Message>, x: Message, m: Message)
    ensures Like(rank, s + [x], m) ==
            if rank(x.createdAt) == rank(m.createdAt) && rank(x.id) == rank(m.id) then Like(rank, s, m) + [x]
            else Like(rank, s, m)
  {
    assert (s + [x])[..|s|] == s;
  }

  lemma LikeSwap(rank: Collation, front: seq<Message>, inserted: seq<Message>, last: Message, x: Message, m: Message)
    requires !AtMost(rank, last, x) && Like(rank, inserted, m) == Like(rank, front + [x], m)
    ensures Like(rank, inserted + [last], m) == Like(rank, front + [last] + [x], m)
  {
    LikeAppend(rank, front, x, m);
    LikeAppend(rank, inserted, last, m);
    LikeAppend(rank, front + [last], x, m);
    LikeAppend(rank, front, last, m);
  }

  lemma {:induction false} InsertLike(rank: Collation, s: seq<Message>, x: Message, m: Message)
    ensures Like(rank, Insert(rank, s, x), m) == Like(rank, s + [x], m)
  {
    if s != [] && !AtMost(rank, s[|s| - 1], x) {
      var front, last := s[..|s| - 1], s[|s| - 1];
      assert s == front + [last];
      InsertLike(rank, front, x, m);
      LikeSwap(rank, front, Insert(rank, front, x), last, x, m);
    }
  }

  /** The sort is stable: messages that sort alike stay in the order of the store. */
  lemma {:induction false} SortIsStable(rank: Collation, messages: seq<Message>, m: Message)
    ensures Like(rank, Sort(rank, messages), m) == Like(rank, messages, m)
  {
    if messages != [] {
      var front, last := messages[..|messages| - 1], messages[|messages| - 1];
      assert messages == front + [last];
      SortIsStable(rank, front, m);
      InsertKeepsLike(rank, Sort(rank, front), front, last, m);
    }
  }

  lemma InsertKeepsLike(rank: Collation, sorted: seq<Message>, front: seq<Message>, last: Message, m: Message)
    requires Like(rank, sorted, m) == Like(rank, front, m)
    ensures Like(rank, Insert(rank, sorted, last), m) == Like(rank, front + [last], m)
  {
    InsertLike(rank, sorted, last, m);
    LikeAppend(rank, sorted, last, m);
    LikeAppend(rank, front, last, m);
  }

  /** Where the cursor points: behind everything if it is empty, to the first message with its id, or nowhere. */
  ghost predicate PointsTo(history: seq<Message>, cursor: string, before: int) {
    if cursor == "" then before == |history|
    else if exists m :: m in history && m.id == cursor then
      && 0 <= before < |history| && history[before].id == cursor
      && forall j | 0 <= j < before :: history[j].id != cursor
    else before == -1
  }

  lemma CursorExactly(history: seq<Message>, cursor: string)
    ensures PointsTo(history, cursor, BeforeIndex(history, cursor))
  {
    if m :| m in history && m.id == cursor {
      var j :| 0 <= j < |history| && history[j] == m;
    }
  }

  lemma PageExactly(history: seq<Message>, limit: nat, cursor: string)
    ensures var before, page := BeforeIndex(history, cursor), PageOf(history, limit, cursor);
      if before == -1 then page == []
      else if before <= limit then page == history[..before]
      else page == history[before - limit - 1..before]
  {
  }

  /**
   The answer of the handler: of the stored messages of the conversation, in
   order, those right before the cursor, at most limit + 1; nothing for a cursor
   that no message has, and the newest ones for an empty cursor.
   */
  lemma AnswerExactly(rank: Collation, all: seq<Message>, conversation: string, limit: LimitParam, cursor: string)
    returns (history: seq<Message>, before: int)
    ensures InOrder(rank, history) && PointsTo(history, cursor, before)
    ensures forall m :: multiset(history)[m] == if m.conversation == conversation then multiset(all)[m] else 0
    ensures var page := GetChatHistory(rank, all, conversation, limit, cursor);
      if before == -1 then page == []
      else if before <= Limit(limit) then page == history[..before]
      else page == history[before - Limit(limit) - 1..before]
  {
    history := Sort(rank, InConversation(all, conversation));
    before := BeforeIndex(history, cursor);
    InConversationSpec(all, conversation);
    SortSpec(rank, InConversation(all, conversation));
    SortedInOrder(rank, history);
    CursorExactly(history, cursor);
    PageExactly(history, Limit(limit), cursor);
  }

  lemma SortedInOrder(rank: Collation, s: seq<Message>)
    requires Sorted(rank, s)
    ensures InOrder(rank, s)
  {
    forall i, j | 0 <= i < j < |s| ensures AtMost(rank, s[i], s[j]) { }
  }

  // ---------- messages that arrive between two fetches ----------

  /** The messages that do not sort after `c`. */
  function UpTo(rank: Collation, s: seq<Message>, c: Message): seq<Message> {
    if s == [] then []
    else UpTo(rank, s[..|s| - 1], c) + if AtMost(rank, s[|s| - 1], c) then [s[|s| - 1]] else []
  }

  lemma UpToAppend(rank: Collation, s: seq<Message>, m: Message, c: Message)
    ensures UpTo(rank, s + [m], c) == if AtMost(rank, m, c) then UpTo(rank, s, c) + [m] else UpTo(rank, s, c)
  {
    assert (s + [m])[..|s|] == s;
    assert UpTo(rank, s, c) + [] == UpTo(rank, s, c);
  }

  lemma {:induction false} UpToInsert(rank: Collation, s: seq<Message>, m: Message, c: Message)
    requires Sorted(rank, s)
    ensures UpTo(rank, Insert(rank, s, m), c) ==
            if AtMost(rank, m, c) then Insert(rank, UpTo(rank, s, c), m) else UpTo(rank, s, c)
  {
    if s == [] || AtMost(rank, s[|s| - 1], m) {
      UpToInsertLast(rank, s, m, c);
    } else {
      var front, last := s[..|s| - 1], s[|s| - 1];
      assert s == front + [last];
      UpToInsert(rank, front, m, c);
      UpToInsertStep(rank, front, last, m, c);
    }
  }

  lemma UpToInsertLast(rank: Collation, s: seq<Message>, m: Message, c: Message)
    requires Sorted(rank, s) && (s == [] || AtMost(rank, s[|s| - 1], m))
    ensures UpTo(rank, Insert(rank, s, m), c) ==
            if AtMost(rank, m, c) then Insert(rank, UpTo(rank, s, c), m) else UpTo(rank, s, c)
  {
    UpToAppend(rank, s, m, c);
    if AtMost(rank, m, c) { AllUpTo(rank, s, c); }
  }

  lemma UpToInsertStep(rank: Collation, front: seq<Message>, last: Message, m: Message, c: Message)
    requires !AtMost(rank, last, m)
    requires UpTo(rank, Insert(rank, front, m), c) ==
             if AtMost(rank, m, c) then Insert(rank, UpTo(rank, front, c), m) else UpTo(rank, front, c)
    ensures UpTo(rank, Insert(rank, front + [last], m), c) ==
            if AtMost(rank, m, c) then Insert(rank, UpTo(rank, front + [last], c), m) else UpTo(rank, front + [last], c)
  {
    InsertBeforeLast(rank, front, last, m);
    UpToAppend(rank, Insert(rank, front, m), last, c);
    UpToAppend(rank, front, last, c);
    InsertBeforeLast(rank, UpTo(rank, front, c), last, m);
  }

  lemma InsertBeforeLast(rank: Collation, s: seq<Message>, last: Message, m: Message)
    requires !AtMost(rank, last, m)
    ensures Insert(rank, s + [last], m) == Insert(rank, s, m) + [last]
  {
    assert (s + [last])[..|s|] == s;
  }

  /** If the last message of a sorted list is up to `c`, all are. */
  lemma {:induction false} AllUpTo(rank: Collation, s: seq<Message>, c: Message)
    requires Sorted(rank, s) && (s != [] ==> AtMost(rank, s[|s| - 1], c))
    ensures UpTo(rank, s, c) == s
  {
    if s != [] {
      AllUpTo(rank, s[..|s| - 1], c);
    }
  }

  /** In a sorted list the messages up to `c` come first. */
  lemma {:induction false} UpToIsPrefix(rank: Collation, s: seq<Message>, c: Message)
    requires Sorted(rank, s)
    ensures UpTo(rank, s, c) <= s
    ensures forall i | 0 <= i < |s| && AtMost(rank, s[i], c) :: i < |UpTo(rank, s, c)|
  {
    if s != [] {
      var front, last := s[..|s| - 1], s[|s| - 1];
      if AtMost(rank, last, c) {
        AllUpTo(rank, s, c);
      } else {
        assert s == front + [last];
        UpToIsPrefix(rank, front, c);
        UpToAppend(rank, front, last, c);
      }
    }
  }

  lemma SortAppend(rank: Collation, s: seq<Message>, m: Message)
    ensures Sort(rank, s + [m]) == Insert(rank, Sort(rank, s), m)
  {
    assert (s + [m])[..|s|] == s;
  }

  lemma {:induction false} UpToSort(rank: Collation, messages: seq<Message>, c: Message)
    ensures UpTo(rank, Sort(rank, messages), c) == Sort(rank, UpTo(rank, messages, c))
  {
    if messages != [] {
      var front, last := messages[..|messages| - 1], messages[|messages| - 1];
      assert messages == front + [last];
      UpToSort(rank, front, c);
      SortSpec(rank, front);
      UpToInsert(rank, Sort(rank, front), last, c);
      UpToAppend(rank, front, last, c);
      SortAppend(rank, UpTo(rank, front, c), last);
    }
  }

  /** Two histories that begin in the same way give the same page for a cursor in that part. */
  lemma SamePageUpTo(part: seq<Message>, h: seq<Message>, g: seq<Message>, limit: nat, cursor: string, k: nat)
    requires part <= h && part <= g && k < |part| && part[k].id == cursor && cursor != ""
    ensures PageOf(h, limit, cursor) == PageOf(g, limit, cursor)
  {
    PageInPart(part, h, limit, cursor, k);
    PageInPart(part, g, limit, cursor, k);
  }

  lemma PageInPart(part: seq<Message>, h: seq<Message>, limit: nat, cursor: string, k: nat)
    requires part <= h && k < |part| && part[k].id == cursor && cursor != ""
    ensures PageOf(h, limit, cursor) == PageOf(part, limit, cursor)
  {
    assert forall x | 0 <= x < |part| :: h[x] == part[x];
    var i := FindIndex(part, cursor);
    assert FindIndex(h, cursor) == i;
    assert h[PageStart(limit, i)..i] == part[PageStart(limit, i)..i];
  }

  /**
   A store that has changed only in messages that sort after the cursor message
   gives the same page for that cursor, wherever the store lists the new ones.
   */
  lemma LaterMessagesDoNotMatter(rank: Collation, all: seq<Message>, grown: seq<Message>, conversation: string,
                                 limit: LimitParam, c: Message)
    requires c in InConversation(all, conversation) && c.id != ""
    requires UpTo(rank, InConversation(all, conversation), c) == UpTo(rank, InConversation(grown, conversation), c)
    ensures GetChatHistory(rank, all, conversation, limit, c.id) ==
            GetChatHistory(rank, grown, conversation, limit, c.id)
  {
    var a, b := InConversation(all, conversation), InConversation(grown, conversation);
    var k := CursorPosition(rank, a, c);
    var low := Sort(rank, UpTo(rank, a, c));
    SortedPrefix(rank, a, c);
    SortedPrefix(rank, b, c);
    SamePageUpTo(low, Sort(rank, a), Sort(rank, b), Limit(limit), c.id, k);
  }

  lemma SortedPrefix(rank: Collation, messages: seq<Message>, c: Message)
    ensures Sort(rank, UpTo(rank, messages, c)) <= Sort(rank, messages)
  {
    UpToSort(rank, messages, c);
    SortSpec(rank, messages);
    UpToIsPrefix(rank, Sort(rank, messages), c);
  }

  lemma CursorPosition(rank: Collation, messages: seq<Message>, c: Message) returns (k: nat)
    requires c in messages
    ensures k < |Sort(rank, UpTo(rank, messages, c))| <= |Sort(rank, messages)| && Sort(rank, messages)[k] == c
  {
    var h := Sort(rank, messages);
    UpToSort(rank, messages, c);
    SortSpec(rank, messages);
    UpToIsPrefix(rank, h, c);
    assert c in multiset(h);
    k :| 0 <= k < |h| && h[k] == c;
  }

  /** In particular a new message anywhere in the store, in this conversation after the cursor or in another one. */
  lemma OneNewMessage(rank: Collation, front: seq<Message>, back: seq<Message>, m: Message, conversation: string,
                      limit: LimitParam, c: Message)
    requires c in InConversation(front + back, conversation) && c.id != ""
    requires m.conversation != conversation || !AtMost(rank, m, c)
    ensures GetChatHistory(rank, front + back, conversation, limit, c.id) ==
            GetChatHistory(rank, front + [m] + back, conversation, limit, c.id)
  {
    SkipOne(rank, front, back, m, conversation, c);
    LaterMessagesDoNotMatter(rank, front + back, front + [m] + back, conversation, limit, c);
  }

  lemma InConversationAppend(s: seq<Message>, m: Message, conversation: string)
    ensures InConversation(s + [m], conversation) ==
            if m.conversation != conversation then InConversation(s, conversation)
            else InConversation(s, conversation) + [m]
  {
    assert (s + [m])[..|s|] == s;
    assert InConversation(s, conversation) + [] == InConversation(s, conversation);
  }

  lemma LastApart(a: seq<Message>, b: seq<Message>)
    requires b != []
    ensures a + b == a + b[..|b| - 1] + [b[|b| - 1]]
  {
  }

  /** The new message is not among those up to `c`. */
  lemma {:induction false} SkipOne(rank: Collation, front: seq<Message>, back: seq<Message>, m: Message,
                                   conversation: string, c: Message)
    requires m.conversation != conversation || !AtMost(rank, m, c)
    ensures UpTo(rank, InConversation(front + [m] + back, conversation), c) ==
            UpTo(rank, InConversation(front + back, conversation), c)
    decreases |back|
  {
    if back == [] {
      assert front + back == front && front + [m] + back == front + [m];
      InConversationAppend(front, m, conversation);
      UpToAppend(rank, InConversation(front, conversation), m, c);
    } else {
      var shorter, last := back[..|back| - 1], back[|back| - 1];
      SkipOne(rank, front, shorter, m, conversation, c);
      AppendBoth(rank, front + [m] + shorter, front + shorter, last, conversation, c);
      LastApart(front + [m], back);
      LastApart(front, back);
    }
  }

  lemma AppendBoth(rank: Collation, a: seq<Message>, b: seq<Message>, m: Message, conversation: string, c: Message)
    requires UpTo(rank, InConversation(a, conversation), c) == UpTo(rank, InConversation(b, conversation), c)
    ensures UpTo(rank, InConversation(a + [m], conversation), c) == UpTo(rank, InConversation(b + [m], conversation), c)
  {
    InConversationAppend(a, m, conversation);
    InConversationAppend(b, m, conversation);
    UpToAppend(rank, InConversation(a, conversation), m, c);
    UpToAppend(rank, InConversation(b, conversation), m, c);
  }
}
