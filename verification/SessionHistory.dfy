/** The session history: which records a pruning evicts, and the byte count it keeps while it does. */
module SessionHistory {
  import opened Basics
  import opened JsonText

  const MAX_BYTES: nat := 1048576
  const MAX_SESSIONS: nat := 1000
  const RETENTION: nat := 2592000000

  /** A session, with the nine fields it is stored as. */
  datatype Record = Record(id: string, started: nat, ended: Option<nat>, fields: seq<Field>)

  predicate Active(r: Record) { r.ended.None? }

  function AsJson(r: Record): Json { Obj(r.fields) }

  function AsItems(sessions: seq<Record>): (items: seq<Json>)
    ensures |items| == |sessions| && forall i | 0 <= i < |items| :: items[i] == AsJson(sessions[i])
  {
    if sessions == [] then [] else [AsJson(sessions[0])] + AsItems(sessions[1..])
  }

  /** The file's text. */
  function Document(sessions: seq<Record>): string {
    Pretty(Obj([Field("\"schemaVersion\"", Leaf("1")), Field("\"sessions\"", Arr(AsItems(sessions)))]), 0) + "\n"
  }

  /** serializedBytes: the size of the file with these sessions. */
  function FileSize(sessions: seq<Record>): nat { Size(Document(sessions)) }

  function RecordSizes(sessions: seq<Record>): nat {
    if sessions == [] then 0 else ItemSize(AsJson(sessions[0]), 4) + RecordSizes(sessions[1..])
  }

  lemma {:induction false} RecordSizesAre(sessions: seq<Record>)
    ensures ItemSizes(AsItems(sessions), 4) == RecordSizes(sessions)
  {
    hide ItemSize;
    if sessions != [] {
      RecordSizesAre(sessions[1..]);
      assert AsItems(sessions)[1..] == AsItems(sessions[1..]);
    }
  }

  lemma {:induction false} RecordSizesAppend(a: seq<Record>, b: seq<Record>)
    ensures RecordSizes(a + b) == RecordSizes(a) + RecordSizes(b)
  {
    hide ItemSize;
    if a == [] {
      Neutral(b);
    } else {
      HeadTail(a, b);
      Split([a[0]], a[1..] + b);
      RecordSizesAppend(a[1..], b);
    }
  }

  /** The file's size in terms of its records: an empty list, or four bytes more, the records, and two a separator. */
  lemma FileSizeIs(sessions: seq<Record>)
    ensures FileSize(sessions) == FileSize([]) + (if sessions == [] then 0 else RecordSizes(sessions) + 2 * |sessions| + 2)
  {
    hide Pretty, Size, ItemSizes, Fields;
    FramedSize(sessions);
    FramedSize([]);
    RecordSizesAre(sessions);
    ArrSize(AsItems(sessions), 2);
    ArrSize(AsItems([]), 2);
  }

  /** The size of the file is that of the list and of what stands around it. */
  lemma FramedSize(sessions: seq<Record>)
    ensures FileSize(sessions) == Size(Pretty(Arr(AsItems(sessions)), 2)) + 41
  {
    hide Pretty, Size, Fields;
    var version, list := Field("\"schemaVersion\"", Leaf("1")), Field("\"sessions\"", Arr(AsItems(sessions)));
    assert [version, list] == [version] + [list];
    ObjSize([version, list], 0);
    FieldsFirst(version, [list], 2);
    Neutral([list]);
    FieldsFirst(list, [], 2);
    SizeAscii("\"schemaVersion\"");
    SizeAscii("\"sessions\"");
    LeafSize("1");
    SizeAscii("\n");
    SizeAppend(Pretty(Obj([version, list]), 0), "\n");
  }

  lemma LeafSize(text: string)
    requires Ascii(text)
    ensures Size(Pretty(Leaf(text), 2)) == |text|
  {
    SizeAscii(text);
  }

  function Without(sessions: seq<Record>, i: nat): (r: seq<Record>)
    requires i < |sessions|
    ensures |r| == |sessions| - 1
  {
    sessions[..i] + sessions[i + 1..]
  }

  /** The loop's arithmetic: what a removal is counted as is what the file shrinks by. */
  lemma RemovalShrinksFile(sessions: seq<Record>, i: nat)
    requires i < |sessions|
    ensures FileSize(Without(sessions, i)) == FileSize(sessions) - (FileSize([sessions[i]]) - FileSize([]) - (if |sessions| > 1 then 2 else 0))
  {
    hide FileSize, ItemSize;
    var front, one, back := sessions[..i], [sessions[i]], sessions[i + 1..];
    assert sessions == front + (one + back);
    RecordSizesAppend(front, one + back);
    RecordSizesAppend(one, back);
    RecordSizesAppend(front, back);
    FileSizeIs(sessions);
    FileSizeIs(one);
    FileSizeIs(Without(sessions, i));
    assert one[1..] == [];
  }

  // ---- what is evicted ----

  /** The first finished session, if any. */
  function FirstFinished(sessions: seq<Record>): (i: nat)
    ensures i <= |sessions| && (forall k | 0 <= k < i :: Active(sessions[k])) && (i < |sessions| ==> !Active(sessions[i]))
  {
    if sessions == [] || !Active(sessions[0]) then 0 else 1 + FirstFinished(sessions[1..])
  }

  function Actives(sessions: seq<Record>): seq<Record> {
    if sessions == [] then [] else (if Active(sessions[0]) then [sessions[0]] else []) + Actives(sessions[1..])
  }

  function Finished(sessions: seq<Record>): seq<Record> {
    if sessions == [] then [] else (if Active(sessions[0]) then [] else [sessions[0]]) + Finished(sessions[1..])
  }

  /** Evicting the first finished session leaves all active ones, and the other finished ones in order. */
  lemma {:induction false} EvictionIs(sessions: seq<Record>)
    requires FirstFinished(sessions) < |sessions|
    ensures var rest := Without(sessions, FirstFinished(sessions));
            Actives(rest) == Actives(sessions) && Finished(sessions) == [sessions[FirstFinished(sessions)]] + Finished(rest)
  {
    hide Actives, Finished, Without;
    var i := FirstFinished(sessions);
    WithoutFirst(sessions, i);
    SplitOff(sessions[0], sessions[1..]);
    if i > 0 {
      EvictionIs(sessions[1..]);
      SplitOff(sessions[0], Without(sessions[1..], i - 1));
    }
  }

  lemma WithoutFirst(sessions: seq<Record>, i: nat)
    requires i < |sessions|
    ensures sessions == [sessions[0]] + sessions[1..]
    ensures Without(sessions, i) == if i == 0 then sessions[1..] else [sessions[0]] + Without(sessions[1..], i - 1)
  {
  }

  lemma SplitOff(r: Record, sessions: seq<Record>)
    ensures Actives([r] + sessions) == (if Active(r) then [r] else []) + Actives(sessions)
    ensures Finished([r] + sessions) == (if Active(r) then [] else [r]) + Finished(sessions)
  {
    assert ([r] + sessions)[1..] == sessions;
  }

  lemma {:induction false} NothingFinished(sessions: seq<Record>)
    requires FirstFinished(sessions) == |sessions|
    ensures Finished(sessions) == []
  {
    if sessions != [] { NothingFinished(sessions[1..]); }
  }

  predicate Over(sessions: seq<Record>) { |sessions| > MAX_SESSIONS || FileSize(sessions) > MAX_BYTES }

  /** `evicted` were taken from `from` one by one, each the first finished one, each while the bounds were exceeded, and `left` remains. */
  predicate Evicts(from: seq<Record>, evicted: seq<Record>, left: seq<Record>)
    decreases |evicted|
  {
    if evicted == [] then from == left
    else
      var i := FirstFinished(from);
      i < |from| && Over(from) && evicted[0] == from[i] && Evicts(Without(from, i), evicted[1..], left)
  }

  lemma {:induction false} EvictsMore(from: seq<Record>, evicted: seq<Record>, left: seq<Record>)
    requires Evicts(from, evicted, left) && FirstFinished(left) < |left| && Over(left)
    ensures Evicts(from, evicted + [left[FirstFinished(left)]], Without(left, FirstFinished(left)))
    decreases |evicted|
  {
    hide Over, FirstFinished, Without;
    var one := left[FirstFinished(left)];
    if evicted == [] {
      assert [one][1..] == [];
      Neutral([one]);
    } else {
      HeadTail(evicted, [one]);
      Split([evicted[0]], evicted[1..] + [one]);
      EvictsMore(Without(from, FirstFinished(from)), evicted[1..], left);
    }
  }

  /** No active session is evicted, and the finished ones go in order from the front. */
  lemma {:induction false} EvictedInOrder(from: seq<Record>, evicted: seq<Record>, left: seq<Record>)
    requires Evicts(from, evicted, left)
    ensures Actives(left) == Actives(from) && Finished(from) == evicted + Finished(left)
    decreases |evicted|
  {
    hide Over, FirstFinished, Without, Actives, Finished;
    if evicted == [] {
      Neutral(Finished(left));
    } else {
      EvictionIs(from);
      EvictedInOrder(Without(from, FirstFinished(from)), evicted[1..], left);
      HeadTail(evicted, Finished(left));
    }
  }

  // ---- the order ----

  function Key(r: Record): nat { if r.ended.Some? then r.ended.value else r.started }

  predicate Before(a: Record, b: Record) { Key(a) < Key(b) || (Key(a) == Key(b) && a.started <= b.started) }

  predicate Sorted(sessions: seq<Record>) {
    forall i, j | 0 <= i < j < |sessions| :: Before(sessions[i], sessions[j])
  }

  function Insert(r: Record, sessions: seq<Record>): seq<Record> {
    if sessions == [] || !Before(sessions[0], r) then [r] + sessions else [sessions[0]] + Insert(r, sessions[1..])
  }

  /** The stable sort of the list, one record inserted behind its equals after another. */
  function Sort(sessions: seq<Record>): seq<Record> {
    if sessions == [] then [] else Insert(sessions[|sessions| - 1], Sort(sessions[..|sessions| - 1]))
  }

  lemma {:induction false} InsertKeeps(r: Record, sessions: seq<Record>)
    requires Sorted(sessions)
    ensures Sorted(Insert(r, sessions)) && multiset(Insert(r, sessions)) == multiset(sessions) + multiset{r}
  {
    if sessions == [] || !Before(sessions[0], r) {
      var all := [r] + sessions;
      forall i, j | 0 <= i < j < |all| ensures Before(all[i], all[j]) { if i == 0 && j > 1 { assert Before(sessions[0], sessions[j - 1]); } }
    } else {
      var rest := Insert(r, sessions[1..]);
      assert sessions == [sessions[0]] + sessions[1..];
      InsertKeeps(r, sessions[1..]);
      forall j | 0 <= j < |rest| ensures Before(sessions[0], rest[j]) {
        assert rest[j] in multiset(rest);
        if rest[j] != r { assert rest[j] in sessions[1..]; }
      }
    }
  }

  lemma {:induction false} SortSorts(sessions: seq<Record>)
    ensures Sorted(Sort(sessions)) && multiset(Sort(sessions)) == multiset(sessions)
  {
    if sessions != [] {
      var n := |sessions| - 1;
      SortSorts(sessions[..n]);
      InsertKeeps(sessions[n], Sort(sessions[..n]));
      assert sessions == sessions[..n] + [sessions[n]];
    }
  }

  /** Of two finished sessions the one that ended earlier stands first. */
  lemma {:induction false} FinishedOldestFirst(sessions: seq<Record>)
    requires Sorted(sessions)
    ensures Sorted(Finished(sessions)) && forall r | r in Finished(sessions) :: r in sessions && !Active(r)
  {
    if sessions != [] {
      FinishedOldestFirst(sessions[1..]);
      var rest := Finished(sessions[1..]);
      forall j | 0 <= j < |rest| ensures Before(sessions[0], rest[j]) {
        assert rest[j] in rest;
        var k :| 0 <= k < |sessions| - 1 && sessions[1..][k] == rest[j];
        assert sessions[k + 1] == rest[j];
      }
    }
  }

  /** Sessions that are active or ended within the retention. */
  function Recent(sessions: seq<Record>, now: nat): (r: seq<Record>)
    ensures forall x | x in r :: x in sessions
  {
    if sessions == [] then []
    else (if Active(sessions[0]) || sessions[0].ended.value + RETENTION >= now then [sessions[0]] else []) + Recent(sessions[1..], now)
  }

  lemma {:induction false} RecentKeepsActives(sessions: seq<Record>, now: nat)
    ensures forall x | x in sessions && Active(x) :: multiset(Recent(sessions, now))[x] == multiset(sessions)[x]
  {
    if sessions != [] {
      RecentKeepsActives(sessions[1..], now);
      assert sessions == [sessions[0]] + sessions[1..];
      var kept := if Active(sessions[0]) || sessions[0].ended.value + RETENTION >= now then [sessions[0]] else [];
      assert Recent(sessions, now) == kept + Recent(sessions[1..], now);
      forall x | x in sessions && Active(x) ensures multiset(Recent(sessions, now))[x] == multiset(sessions)[x] {
        if x !in sessions[1..] { assert x !in Recent(sessions[1..], now); }
      }
    }
  }

  // ---- when a pruning succeeds ----

  /** The active sessions are as many, and take as much, in one list as in the other. */
  predicate SameActives(a: seq<Record>, b: seq<Record>) {
    |Actives(a)| == |Actives(b)| && RecordSizes(Actives(a)) == RecordSizes(Actives(b))
  }

  lemma ActivesCons(r: Record, sessions: seq<Record>)
    ensures |Actives([r] + sessions)| == (if Active(r) then 1 else 0) + |Actives(sessions)|
    ensures RecordSizes(Actives([r] + sessions)) == (if Active(r) then RecordSizes([r]) else 0) + RecordSizes(Actives(sessions))
  {
    hide Actives, RecordSizes;
    SplitOff(r, sessions);
    if Active(r) { RecordSizesAppend([r], Actives(sessions)); } else { Neutral(Actives(sessions)); }
  }

  lemma {:induction false} InsertActives(r: Record, sessions: seq<Record>)
    ensures SameActives(Insert(r, sessions), [r] + sessions)
  {
    hide Actives, RecordSizes, Before;
    if sessions != [] && Before(sessions[0], r) {
      InsertActives(r, sessions[1..]);
      assert sessions == [sessions[0]] + sessions[1..];
      ActivesCons(sessions[0], Insert(r, sessions[1..]));
      ActivesCons(r, sessions[1..]);
      ActivesCons(sessions[0], sessions[1..]);
      ActivesCons(r, sessions);
    }
  }

  lemma {:induction false} ActivesAppend(a: seq<Record>, b: seq<Record>)
    ensures Actives(a + b) == Actives(a) + Actives(b)
  {
    if a == [] {
      Neutral(b);
      Neutral(Actives(b));
    } else {
      HeadTail(a, b);
      Split([a[0]], a[1..] + b);
      ActivesAppend(a[1..], b);
      Assoc(if Active(a[0]) then [a[0]] else [], Actives(a[1..]), Actives(b));
    }
  }

  lemma {:induction false} SortActives(sessions: seq<Record>)
    ensures SameActives(Sort(sessions), sessions)
  {
    hide Actives, RecordSizes;
    if sessions != [] {
      var n := |sessions| - 1;
      var front, one := sessions[..n], [sessions[n]];
      SortActives(front);
      InsertActives(sessions[n], Sort(front));
      ActivesCons(sessions[n], Sort(front));
      ActivesAppend(front, one);
      RecordSizesAppend(Actives(front), Actives(one));
      ActivesCons(sessions[n], []);
      Neutral(one);
      EmptyActives();
      assert sessions == front + one;
    }
  }

  lemma EmptyActives()
    ensures Actives([]) == [] && RecordSizes([]) == 0
  {
  }

  lemma {:induction false} RecentActives(sessions: seq<Record>, now: nat)
    ensures Actives(Recent(sessions, now)) == Actives(sessions)
  {
    hide Actives;
    if sessions != [] {
      RecentActives(sessions[1..], now);
      assert sessions == [sessions[0]] + sessions[1..];
      SplitOff(sessions[0], sessions[1..]);
      SplitOff(sessions[0], Recent(sessions[1..], now));
      Neutral(Recent(sessions[1..], now));
      Neutral(Actives(sessions[1..]));
    }
  }

  lemma {:induction false} ActivesSmaller(sessions: seq<Record>)
    ensures |Actives(sessions)| <= |sessions| && RecordSizes(Actives(sessions)) <= RecordSizes(sessions)
  {
    hide ItemSize;
    if sessions != [] {
      ActivesSmaller(sessions[1..]);
      assert sessions == [sessions[0]] + sessions[1..];
      ActivesCons(sessions[0], sessions[1..]);
      assert [sessions[0]][1..] == [];
    }
  }

  lemma {:induction false} AllActive(sessions: seq<Record>)
    requires Finished(sessions) == []
    ensures Actives(sessions) == sessions
  {
    if sessions != [] { AllActive(sessions[1..]); }
  }

  /** A pruning ends within both bounds exactly if the active sessions alone are within them. */
  lemma PrunedFits(all: seq<Record>, now: nat, evicted: seq<Record>, left: seq<Record>)
    requires Evicts(Sort(Recent(all, now)), evicted, left) && (Over(left) ==> Finished(left) == [])
    ensures Over(left) <==> Over(Actives(all))
  {
    hide Evicts, Sort, Recent, Actives, Finished, RecordSizes, FileSize;
    EvictedInOrder(Sort(Recent(all, now)), evicted, left);
    SortActives(Recent(all, now));
    RecentActives(all, now);
    ActivesSmaller(left);
    FileSizeIs(left);
    FileSizeIs(Actives(left));
    FileSizeIs(Actives(all));
    if Over(left) { AllActive(left); }
  }

  class Store {
    var sessions: seq<Record>
    var dirty: bool

    constructor (sessions: seq<Record>)
      ensures this.sessions == sessions && !dirty
    {
      this.sessions, dirty := sessions, false;
    }

    /**
       Drops what is past the retention, sorts, and evicts finished sessions from the oldest on, one by one,
       as long as a bound is exceeded and one is left.  The result says whether both bounds hold.
     */
    method Prune(now: nat) returns (fits: bool, evicted: seq<Record>)
      modifies this
      ensures Evicts(Sort(Recent(old(sessions), now)), evicted, sessions)
      ensures fits <==> |sessions| <= MAX_SESSIONS && FileSize(sessions) <= MAX_BYTES
      ensures fits <==> !Over(Actives(old(sessions)))
      ensures !fits ==> Finished(sessions) == []
      ensures dirty <==> old(dirty) || |sessions| != |old(sessions)|
    {
      hide FileSize, Evicts, Over, Sort, Recent;
      var kept := Sort(Recent(sessions, now));
      var bytes := FileSize(kept);
      var emptyBytes := FileSize([]);
      evicted := [];
      EvictsNothing(kept);
      while |kept| > MAX_SESSIONS || bytes > MAX_BYTES
        invariant sessions == old(sessions) && dirty == old(dirty)
        invariant bytes == FileSize(kept) && Evicts(Sort(Recent(old(sessions), now)), evicted, kept)
        decreases |kept|
      {
        var index := FirstFinished(kept);
        if index == |kept| { break; }
        OverIs(kept);
        EvictsMore(Sort(Recent(old(sessions), now)), evicted, kept);
        RemovalShrinksFile(kept, index);
        var removedBytes := FileSize([kept[index]]) - emptyBytes;
        bytes := bytes - (removedBytes - (if |kept| > 1 then 2 else 0));
        evicted := evicted + [kept[index]];
        kept := kept[..index] + kept[index + 1..];
      }
      if FirstFinished(kept) == |kept| { NothingFinished(kept); }
      OverIs(kept);
      PrunedFits(sessions, now, evicted, kept);
      if |kept| != |sessions| { dirty := true; }
      sessions := kept;
      fits := |kept| <= MAX_SESSIONS && bytes <= MAX_BYTES;
    }

    /** A new session is taken exactly if its id is new and the active sessions fit with it: the finished ones make room. */
    method Register(r: Record, now: nat) returns (taken: bool)
      requires Active(r)
      modifies this
      ensures taken <==> (forall x | x in old(sessions) :: x.id != r.id) && !Over(Actives(old(sessions)) + [r])
      ensures taken ==> r in sessions && |sessions| <= MAX_SESSIONS && FileSize(sessions) <= MAX_BYTES
      ensures (exists x | x in old(sessions) :: x.id == r.id) ==> !taken && sessions == old(sessions)
      ensures !taken ==> forall x | x in sessions :: x != r || x in old(sessions)
    {
      if exists i :: 0 <= i < |sessions| && sessions[i].id == r.id { return false; }
      ghost var before := sessions;
      assert forall x | x in before :: x.id != r.id;
      sessions := sessions + [r];
      ghost var all := sessions;
      ActivesAppend(before, [r]);
      OnlyActive(r);
      var fits, evicted := Prune(now);
      PrunedKeepsActive(all, now, evicted, sessions, r);
      if !fits {
        sessions := Others(sessions, r);
        return false;
      }
      return true;
    }
  }

  lemma OnlyActive(r: Record)
    requires Active(r)
    ensures Actives([r]) == [r]
  {
    assert [r][1..] == [];
  }

  lemma OverIs(sessions: seq<Record>)
    ensures Over(sessions) <==> |sessions| > MAX_SESSIONS || FileSize(sessions) > MAX_BYTES
  {
  }

  lemma EvictsNothing(sessions: seq<Record>)
    ensures Evicts(sessions, [], sessions)
  {
  }

  function Others(sessions: seq<Record>, r: Record): (s: seq<Record>)
    ensures r !in s && forall x | x in s :: x in sessions
  {
    if sessions == [] then [] else (if sessions[0] == r then [] else [sessions[0]]) + Others(sessions[1..], r)
  }

  lemma {:induction false} ActivesAre(sessions: seq<Record>, r: Record)
    requires Active(r)
    ensures multiset(Actives(sessions))[r] == multiset(sessions)[r]
  {
    if sessions != [] {
      ActivesAre(sessions[1..], r);
      assert sessions == [sessions[0]] + sessions[1..];
      var kept := if Active(sessions[0]) then [sessions[0]] else [];
      assert Actives(sessions) == kept + Actives(sessions[1..]);
    }
  }

  /** Pruning keeps every active session. */
  lemma PrunedKeepsActive(all: seq<Record>, now: nat, evicted: seq<Record>, left: seq<Record>, r: Record)
    requires Evicts(Sort(Recent(all, now)), evicted, left) && Active(r)
    ensures multiset(left)[r] == multiset(all)[r]
  {
    hide Evicts, Sort, Recent;
    var sorted := Sort(Recent(all, now));
    EvictedInOrder(sorted, evicted, left);
    ActivesAre(left, r);
    ActivesAre(sorted, r);
    SortSorts(Recent(all, now));
    RecentKeepsActives(all, now);
    if r !in all { assert r !in Recent(all, now); }
  }

  /** Pruning evicts finished sessions only, the oldest first, and never one while a younger finished one goes. */
  lemma PrunedOldestFirst(all: seq<Record>, now: nat, evicted: seq<Record>, left: seq<Record>)
    requires Evicts(Sort(Recent(all, now)), evicted, left)
    ensures Sorted(evicted + Finished(left)) && forall r | r in evicted :: !Active(r)
  {
    hide Evicts, Sort, Recent, Sorted, Finished;
    var sorted := Sort(Recent(all, now));
    EvictedInOrder(sorted, evicted, left);
    SortSorts(Recent(all, now));
    FinishedOldestFirst(sorted);
  }
}
