/**
 What the receiver builds from the text of a forest: below a fresh place, the same names, the same
 shape and the same bytes, and nothing else anywhere.
 */
module ScpRebuild {
  import opened Basics
  import opened Names
  import opened ScpReceiver
  import opened ScpTree

  function SiblingNames(f: Forest): set<string> {
    if f.Empty? then {} else {f.name} + SiblingNames(f.next)
  }

  /** Safe names, and no two of them the same in one directory. */
  predicate WellNamed(f: Forest) {
    match f
    case Empty => true
    case File(_, name, _, next) => Safe(name) && name !in SiblingNames(next) && WellNamed(next)
    case Dir(_, name, children, next) => Safe(name) && name !in SiblingNames(next) && WellNamed(children) && WellNamed(next)
  }

  function Max(a: nat, b: nat): nat { if a < b then b else a }

  function Height(f: Forest): nat {
    match f
    case Empty => 0
    case File(_, _, _, next) => Max(1, Height(next))
    case Dir(_, _, children, next) => Max(1 + Height(children), Height(next))
  }

  function Count(f: Forest): nat {
    match f
    case Empty => 0
    case File(_, _, _, next) => 1 + Count(next)
    case Dir(_, _, children, next) => 1 + Count(children) + Count(next)
  }

  function Total(f: Forest): nat {
    match f
    case Empty => 0
    case File(_, _, parts, next) => |Flatten(parts)| + Total(next)
    case Dir(_, _, children, next) => Total(children) + Total(next)
  }

  predicate FilesFit(f: Forest, maxFile: nat) {
    match f
    case Empty => true
    case File(_, _, parts, next) => |Flatten(parts)| <= maxFile && FilesFit(next, maxFile)
    case Dir(_, _, children, next) => FilesFit(children, maxFile) && FilesFit(next, maxFile)
  }

  predicate HasDir(f: Forest) {
    match f
    case Empty => false
    case File(_, _, _, next) => HasDir(next)
    case Dir(_, _, _, _) => true
  }

  // ---- the tree as storage ----

  /** The node at a relative path of the forest. */
  function Lookup(f: Forest, path: Path): Option<Node>
    decreases f
  {
    if f.Empty? || path == [] then None
    else if path[0] != f.name then Lookup(f.next, path)
    else
      match f
      case File(_, _, parts, _) => if |path| == 1 then Some(FileNode(Flatten(parts))) else None
      case Dir(_, _, children, _) => if |path| == 1 then Some(Folder) else Lookup(children, path[1..])
  }

  /** The forest as nodes below a directory. */
  function Placement(dir: Path, f: Forest): Storage
    decreases f
  {
    match f
    case Empty => map[]
    case File(_, name, parts, next) => map[dir + [name] := FileNode(Flatten(parts))] + Placement(dir, next)
    case Dir(_, name, children, next) => map[dir + [name] := Folder] + Placement(dir + [name], children) + Placement(dir, next)
  }

  predicate Below(dir: Path, p: Path) { |dir| < |p| && p[..|dir|] == dir }

  /** The nodes placed are exactly those of the forest. */
  lemma {:induction false} PlacementIsForest(dir: Path, f: Forest, p: Path)
    requires WellNamed(f)
    ensures p in Placement(dir, f) <==> Below(dir, p) && Lookup(f, p[|dir|..]).Some?
    ensures p in Placement(dir, f) ==> Placement(dir, f)[p] == Lookup(f, p[|dir|..]).value
    ensures p in Placement(dir, f) ==> p[|dir|] in SiblingNames(f)
    decreases f
  {
    hide Safe, Flatten;
    match f {
      case Empty =>
      case File(_, name, parts, next) =>
        PlacementIsForest(dir, next, p);
        OneBelow(dir, name, p);
      case Dir(_, name, children, next) =>
        PlacementIsForest(dir, next, p);
        PlacementIsForest(dir + [name], children, p);
        OneBelow(dir, name, p);
    }
  }

  /** A path below a directory goes through one name in it. */
  lemma OneBelow(dir: Path, name: string, p: Path)
    ensures p == dir + [name] <==> Below(dir, p) && p[|dir|] == name && |p| == |dir| + 1
    ensures Below(dir + [name], p) <==> Below(dir, p) && p[|dir|] == name && |p| > |dir| + 1
    ensures Below(dir, p) ==> p[|dir|..][0] == p[|dir|] && (|p| > |dir| + 1 ==> p[|dir|..][1..] == p[|dir + [name]|..])
    ensures Below(dir, p) ==> |p[|dir|..]| == |p| - |dir|
  {
    if Below(dir, p) {
      assert p == dir + p[|dir|..];
      if p[|dir|] == name { assert p[..|dir| + 1] == dir + [name]; }
    }
    if Below(dir + [name], p) {
      assert p[..|dir| + 1][..|dir|] == p[..|dir|];
      assert p[..|dir| + 1][|dir|] == p[|dir|];
    }
  }

  // ---- the way down to a place ----

  /** What stands at a path: each directory on the way must exist and be one. */
  function Walk(storage: Storage, path: Path): Result<Option<Node>>
    decreases |path|
  {
    if path == [] then Ok(Some(Folder))
    else
      var parent :- Walk(storage, Parent(path));
      if parent.None? then Err(NotFound)
      else if !parent.value.Folder? then Err(NotDirectory)
      else Ok(if path in storage then Some(storage[path]) else None)
  }

  /** All that the listings on the way down to a directory show, its own included. */
  function Around(storage: Storage, dir: Path): set<Path>
    decreases |dir|
  {
    Children(storage, dir) + if dir == [] then {} else Around(storage, Parent(dir))
  }

  /** What a look at a path lists. */
  function Listing(storage: Storage, path: Path): set<Path> { if path == [] then {} else Around(storage, Parent(path)) }

  lemma {:induction false} SubsetSize<T>(a: set<T>, b: set<T>)
    requires a <= b
    ensures |a| <= |b|
  {
    if a != {} {
      var x :| x in a;
      SubsetSize(a - {x}, b - {x});
    }
  }

  lemma FewerSeen<T>(seen: set<T>, a: set<T>, extra: set<T>, all: set<T>)
    requires a <= all && extra <= all
    ensures |seen + (a + extra)| <= |seen + all|
  {
    SubsetSize(seen + (a + extra), seen + all);
  }

  /** What is shown for a file and then for its siblings is what is shown for both. */
  lemma SeenTogether<T>(seen: set<T>, around: set<T>, own: set<T>, extra: set<T>, paths: set<T>, more: set<T>)
    requires own <= extra
    ensures seen + (around + extra) + (around + own + paths + more) == seen + (around + (own + paths) + (extra + more))
    ensures seen + (around + extra) + {} == seen + (around + (own + {}) + (extra + {}))
  {
  }

  lemma LegibleUnion(a: set<Path>, b: set<Path>)
    ensures Legible(a + b) <==> Legible(a) && Legible(b)
  {
    assert forall p | p in a || p in b :: p in a + b;
  }

  /** A lookup sees what stands there, and adds what it lists: it fails only if too much or something unsafe is listed. */
  lemma {:induction false} LookSees(storage: Storage, path: Path, seen: set<Path>, limits: Limits)
    requires Walk(storage, path).Ok? && Legible(Listing(storage, path))
    requires path != [] ==> |seen + Listing(storage, path)| <= limits.maxEntries
    ensures Look(storage, path, seen, limits) == Ok(View(Walk(storage, path).value, seen + Listing(storage, path)))
    decreases |path|
  {
    hide Children, Legible;
    if path == [] {
      assert seen + {} == seen;
    } else {
      var before := Listing(storage, Parent(path));
      assert Listing(storage, path) == Children(storage, Parent(path)) + before;
      SubsetSize(seen + before, seen + Listing(storage, path));
      LegibleUnion(Children(storage, Parent(path)), before);
      LookSees(storage, Parent(path), seen, limits);
      assert seen + before + Children(storage, Parent(path)) == seen + Listing(storage, path);
    }
  }

  lemma ListingStep(storage: Storage, path: Path, seen: set<Path>)
    requires path != []
    ensures seen + Listing(storage, path) == seen + Listing(storage, Parent(path)) + Children(storage, Parent(path))
  {
    hide Children;
  }

  /** A lookup that succeeds has seen what stands there and everything it listed. */
  lemma {:induction false} LookFound(storage: Storage, path: Path, seen: set<Path>, limits: Limits)
    requires Look(storage, path, seen, limits).Ok?
    ensures Walk(storage, path).Ok?
    ensures Look(storage, path, seen, limits).value == View(Walk(storage, path).value, seen + Listing(storage, path))
    decreases |path|
  {
    hide Children, Legible, Listing;
    if path == [] {
      NothingListed(storage, seen);
    } else {
      LookFound(storage, Parent(path), seen, limits);
      ListingStep(storage, path, seen);
    }
  }

  lemma NothingListed(storage: Storage, seen: set<Path>)
    ensures seen + Listing(storage, []) == seen
  {
  }

  lemma InspectSees(storage: Storage, path: Path, seen: set<Path>, limits: Limits)
    requires PathBytes(path) <= limits.maxPath && |path| <= limits.maxDepth
    requires Walk(storage, path).Ok? && Legible(Listing(storage, path)) && |seen + Listing(storage, path)| <= limits.maxEntries
    ensures Inspect(storage, path, seen, limits) == Ok(View(Walk(storage, path).value, seen + Listing(storage, path)))
  {
    LookSees(storage, path, seen, limits);
  }

  lemma ParentOfChild(dir: Path, name: string)
    ensures Parent(dir + [name]) == dir && Last(dir + [name]) == name && dir + [name] != []
  {
  }

  /** Entries added below one name of a directory show in its listing as that name, and in no listing above it. */
  lemma {:induction false} AroundGrows(storage: Storage, more: Storage, dir: Path, name: string)
    requires forall q | q in more :: dir + [name] <= q
    ensures Around(storage + more, dir) == Around(storage, dir) + (if dir + [name] in more then {dir + [name]} else {})
  {
    ParentOfChild(dir, name);
    forall q | q in more && q != [] && Parent(q) == dir ensures q == dir + [name] {
      assert |q| == |dir| + 1;
    }
    AboveStays(storage, more, dir, dir);
    assert Children(storage + more, dir) == Children(storage, dir) + (if dir + [name] in more then {dir + [name]} else {});
  }

  lemma {:induction false} AboveStays(storage: Storage, more: Storage, dir: Path, above: Path)
    requires |above| <= |dir| && forall q | q in more :: |q| > |dir|
    ensures Listing(storage + more, above) == Listing(storage, above)
    decreases |above|
  {
    if above != [] {
      AboveStays(storage, more, dir, Parent(above));
      assert Children(storage + more, Parent(above)) == Children(storage, Parent(above));
    }
  }

  lemma PrefixOfPrefix(a: Path, b: Path, c: Path)
    requires b <= c
    ensures a <= b ==> a <= c
  {
  }

  /** Changes elsewhere do not touch the way to a path. */
  lemma {:induction false} WalkKeeps(storage: Storage, more: Storage, path: Path)
    requires forall q | q in more :: !(q <= path)
    ensures Walk(storage + more, path) == Walk(storage, path)
    decreases |path|
  {
    if path != [] {
      var parent := Parent(path);
      forall q | q in more ensures !(q <= parent) { PrefixOfPrefix(q, parent, path); }
      WalkKeeps(storage, more, parent);
      assert path <= path;
    }
  }

  lemma WalkChild(storage: Storage, dir: Path, name: string)
    requires Walk(storage, dir) == Ok(Some(Folder))
    ensures Walk(storage, dir + [name]) == Ok(if dir + [name] in storage then Some(storage[dir + [name]]) else None)
  {
    ParentOfChild(dir, name);
  }

  /** Nothing stands where the forest is to go. */
  predicate Free(storage: Storage, dir: Path, f: Forest) {
    forall p | p in storage && Below(dir, p) :: p[|dir|] !in SiblingNames(f)
  }

  lemma FreeChild(storage: Storage, dir: Path, f: Forest)
    requires Free(storage, dir, f) && !f.Empty?
    ensures dir + [f.name] !in storage && Free(storage, dir, f.next)
  {
    OneBelow(dir, f.name, dir + [f.name]);
  }

  // ---- the run ----

  /** Messages answered: each is read and acknowledged. */
  function Spent(st: State, n: nat): State {
    st.(acks := st.acks + n, records := st.records + 2 * n)
  }

  predicate CanSpend(setup: Setup, st: State, n: nat) { st.records + 2 * n <= setup.limits.maxRecords }

  lemma TimeGrows(setup: Setup, st: State, time: bool)
    requires Idle(st) && CanSpend(setup, st, |TimeOf(time)|)
    ensures Run(setup, st, TimeOf(time)) == Ok(Spent(st, |TimeOf(time)|).(pendingTime := time))
  {
    if time { RunOne(setup, st, Time); } else { RunNothing(setup, st); }
  }

  /** A safe entry at the top of a directory destination, or below an open directory, goes into it. */
  predicate Opens(setup: Setup, st: State, dir: Path) {
    if st.stack != [] then st.stack[|st.stack| - 1] == dir else setup.intoDirectory && setup.destination == dir
  }

  lemma PlacedIn(setup: Setup, st: State, dir: Path, name: string)
    requires Opens(setup, st, dir) && Safe(name)
    ensures Placed(setup, st, name) == Ok((dir + [name], st.(rootEntries := RootsWith(st, 1))))
  {
  }

  /** An entry has been counted, and its time has been used up. */
  function Entered(st: State, size: nat): State {
    st.(pendingTime := false, rootEntries := RootsWith(st, 1), entries := st.entries + 1, bytes := st.bytes + size)
  }

  predicate Room(setup: Setup, st: State, path: Path, size: nat) {
    && |st.stack| < setup.limits.maxDepth && |path| <= setup.limits.maxDepth && PathBytes(path) <= setup.limits.maxPath
    && st.entries + 1 <= setup.limits.maxEntries && size <= setup.limits.maxFile && st.bytes + size <= setup.limits.maxSession
  }

  /** The entry's place is known, and nothing stands there. */
  predicate Vacant(setup: Setup, st: State, path: Path, name: string) {
    && st.body.None? && !st.ended && Walk(st.storage, path) == Ok(None)
    && var s := st.(records := st.records + 1, pendingTime := false);
       Placed(setup, s, name) == Ok((path, s.(rootEntries := RootsWith(st, 1))))
  }

  /** The listings on the way, with what else they show, are safe and not too much. */
  predicate Shows(setup: Setup, st: State, path: Path, extra: set<Path>) {
    Legible(Listing(st.storage, path)) && |st.seen + (Listing(st.storage, path) + extra)| <= setup.limits.maxEntries
  }

  predicate CanStage(setup: Setup, st: State, path: Path) {
    PathBytes(Staging(setup, st.entries + 1, path)) <= setup.limits.maxPath && Shows(setup, st, path, Temporary(setup, st.entries + 1, path))
  }

  lemma ShowsLess(setup: Setup, st: State, path: Path, extra: set<Path>)
    requires Shows(setup, st, path, extra)
    ensures Shows(setup, st, path, {})
  {
    hide Legible, Listing;
    SubsetSize(st.seen + (Listing(st.storage, path) + {}), st.seen + (Listing(st.storage, path) + extra));
  }

  function FileOpened(st: State, path: Path, size: nat): State {
    Spent(Entered(st, size), 1).(body := Some(Body(path, size, [])), seen := st.seen + Listing(st.storage, path))
  }

  function FileAdded(setup: Setup, st: State, path: Path, bytes: Bytes): State {
    Spent(Entered(st, |bytes|), 2).(storage := st.storage[path := FileNode(bytes)],
                                    seen := st.seen + (Listing(st.storage, path) + Temporary(setup, st.entries + 1, path)))
  }

  function DirAdded(st: State, path: Path): State {
    Spent(Entered(st, 0), 1).(storage := st.storage[path := Folder], stack := st.stack + [path],
                              seen := st.seen + (Listing(st.storage, path) + {path}))
  }

  lemma FileOpens(setup: Setup, st: State, path: Path, name: string, size: nat)
    requires Vacant(setup, st, path, name) && Room(setup, st, path, size) && CanSpend(setup, st, 1) && Shows(setup, st, path, {})
    ensures Next(setup, st, Header(name, size)) == Ok(FileOpened(st, path, size))
  {
    hide Placed, Walk, Inspect, Legible, Listing;
    assert Listing(st.storage, path) + {} == Listing(st.storage, path);
    InspectSees(st.storage, path, st.seen, setup.limits);
  }

  lemma FilePublishes(setup: Setup, st: State)
    requires st.body.Some? && !st.ended && |st.body.value.got| == st.body.value.size && CanSpend(setup, st, 1)
    requires var path := st.body.value.target;
             && |path| <= setup.limits.maxDepth && PathBytes(path) <= setup.limits.maxPath && Walk(st.storage, path) == Ok(None)
             && PathBytes(Staging(setup, st.entries, path)) <= setup.limits.maxPath && Shows(setup, st, path, Temporary(setup, st.entries, path))
    ensures var path := st.body.value.target;
            Next(setup, st, Zero) == Ok(Spent(st, 1).(storage := st.storage[path := FileNode(st.body.value.got)], body := None,
                                                      seen := st.seen + (Listing(st.storage, path) + Temporary(setup, st.entries, path))))
  {
    hide Inspect, Legible, Listing, Temporary, PathBytes;
    var path := st.body.value.target;
    var shown, extra := Listing(st.storage, path), Temporary(setup, st.entries, path);
    SubsetSize(st.seen + shown, st.seen + (shown + extra));
    InspectSees(st.storage, path, st.seen, setup.limits);
    assert st.seen + shown + extra == st.seen + (shown + extra);
  }

  /** From an accepted header to the published file. */
  lemma FileFills(setup: Setup, st: State, path: Path, parts: seq<Bytes>)
    requires st.body.None? && !st.ended && CanSpend(setup, st, 2) && Walk(st.storage, path) == Ok(None)
    requires |path| <= setup.limits.maxDepth && PathBytes(path) <= setup.limits.maxPath && CanStage(setup, st, path)
    ensures Run(setup, FileOpened(st, path, |Flatten(parts)|), DataOf(parts) + [Zero]) == Ok(FileAdded(setup, st, path, Flatten(parts)))
  {
    hide Next, Run, Walk, Flatten, Listing, Temporary, PathBytes, Staging, Legible;
    var s1 := FileOpened(st, path, |Flatten(parts)|);
    Neutral(Flatten(parts));
    RunData(setup, s1, parts);
    RunAppend(setup, s1, DataOf(parts), [Zero]);
    var s2 := s1.(body := Some(Body(path, |Flatten(parts)|, Flatten(parts))));
    var shown, extra := Listing(st.storage, path), Temporary(setup, st.entries + 1, path);
    assert s2.seen + (shown + extra) == st.seen + (shown + extra);
    FilePublishes(setup, s2);
    RunOne(setup, s2, Zero);
  }

  lemma FileGrows(setup: Setup, st: State, path: Path, name: string, parts: seq<Bytes>)
    requires Vacant(setup, st, path, name) && Room(setup, st, path, |Flatten(parts)|) && CanSpend(setup, st, 2) && CanStage(setup, st, path)
    ensures Run(setup, st, FileText(name, parts)) == Ok(FileAdded(setup, st, path, Flatten(parts)))
  {
    hide Next, Run, Flatten, FileOpened, FileAdded, Shows, Placed, Walk, Temporary, PathBytes, Staging;
    ShowsLess(setup, st, path, Temporary(setup, st.entries + 1, path));
    FileOpens(setup, st, path, name, |Flatten(parts)|);
    FileFills(setup, st, path, parts);
    RunStep(setup, st, Header(name, |Flatten(parts)|), DataOf(parts) + [Zero]);
  }

  lemma DirGrows(setup: Setup, st: State, path: Path, name: string)
    requires Vacant(setup, st, path, name) && Room(setup, st, path, 0) && CanSpend(setup, st, 1) && setup.recursive && path != []
    requires Shows(setup, st, path, {path}) && Safe(Last(path))
    ensures Run(setup, st, [Directory(name)]) == Ok(DirAdded(st, path))
  {
    hide Placed, Run, Inspect, Around, PathBytes, Safe, Walk;
    var shown, made := Listing(st.storage, path), st.storage[path := Folder];
    SubsetSize(st.seen + shown, st.seen + (shown + {path}));
    InspectSees(st.storage, path, st.seen, setup.limits);
    MakesDirectory(st.storage, path);
    assert st.seen + shown + (shown + {path}) == st.seen + (shown + {path});
    InspectSees(made, path, st.seen + shown, setup.limits);
    RunOne(setup, st, Directory(name));
  }

  /** A directory made at a free place stands there, and shows in the listing above it. */
  lemma MakesDirectory(storage: Storage, path: Path)
    requires path != [] && Walk(storage, path) == Ok(None)
    ensures var made := storage[path := Folder];
            Walk(made, path) == Ok(Some(Folder)) && Listing(made, path) == Listing(storage, path) + {path}
  {
    var dir, more := Parent(path), map[path := Folder];
    assert path == dir + [Last(path)] && storage[path := Folder] == storage + more;
    WalkKeeps(storage, more, dir);
    AroundGrows(storage, more, dir, Last(path));
  }

  lemma EndGrows(setup: Setup, st: State)
    requires Idle(st) && st.stack != [] && CanSpend(setup, st, 1)
    ensures Run(setup, st, [End]) == Ok(Spent(st, 1).(stack := st.stack[..|st.stack| - 1]))
  {
    hide Run;
    RunOne(setup, st, End);
  }

  /** The limits that the receiver's counters have left are enough for the forest. */
  predicate Within(setup: Setup, st: State, dir: Path, f: Forest) {
    && |dir| + Height(f) <= setup.limits.maxDepth && |st.stack| + Height(f) <= setup.limits.maxDepth
    && st.entries + Count(f) <= setup.limits.maxEntries
    && FilesFit(f, setup.limits.maxFile) && st.bytes + Total(f) <= setup.limits.maxSession
    && CanSpend(setup, st, Acks(f))
    && (HasDir(f) ==> setup.recursive)
    && Visible(setup, st, dir, f)
  }

  /** The paths are short enough, and the listings show nothing unsafe and not too much. */
  predicate Visible(setup: Setup, st: State, dir: Path, f: Forest) {
    && Short(setup, st.entries, dir, f)
    && (!f.Empty? ==> Legible(Around(st.storage, dir)) && |st.seen + Shown(setup, st, dir, f)| <= setup.limits.maxEntries)
  }

  /** Every path of the forest, and every place where a file of it is staged, is short enough. */
  predicate Short(setup: Setup, k: nat, dir: Path, f: Forest)
    decreases f
  {
    match f
    case Empty => true
    case File(_, name, _, next) =>
      && PathBytes(dir + [name]) <= setup.limits.maxPath && PathBytes(Staging(setup, k + 1, dir + [name])) <= setup.limits.maxPath
      && Short(setup, k + 1, dir, next)
    case Dir(_, name, children, next) =>
      && PathBytes(dir + [name]) <= setup.limits.maxPath
      && Short(setup, k + 1, dir + [name], children) && Short(setup, k + 1 + Count(children), dir, next)
  }

  /** What is shown beside the storage while the files of a forest are published. */
  function Temporaries(setup: Setup, k: nat, dir: Path, f: Forest): set<Path>
    decreases f
  {
    match f
    case Empty => {}
    case File(_, name, _, next) => Temporary(setup, k + 1, dir + [name]) + Temporaries(setup, k + 1, dir, next)
    case Dir(_, name, children, next) =>
      Temporaries(setup, k + 1, dir + [name], children) + Temporaries(setup, k + 1 + Count(children), dir, next)
  }

  /** All that the listings show while a forest is received: its surroundings, its own paths, and its temporaries. */
  function Shown(setup: Setup, st: State, dir: Path, f: Forest): set<Path> {
    if f.Empty? then {} else Around(st.storage, dir) + Placement(dir, f).Keys + Temporaries(setup, st.entries, dir, f)
  }

  /** Acknowledgements for a forest: one for a time, a directory and its end, two for a file. */
  function Acks(f: Forest): nat {
    match f
    case Empty => 0
    case File(time, _, _, next) => (if time then 1 else 0) + 2 + Acks(next)
    case Dir(time, _, children, next) => (if time then 1 else 0) + 1 + Acks(children) + 1 + Acks(next)
  }

  /** The state behind the text of a forest. */
  function Grown(setup: Setup, st: State, dir: Path, f: Forest): State {
    Spent(st, Acks(f)).(storage := st.storage + Placement(dir, f), rootEntries := RootsWith(st, Roots(f)),
                        entries := st.entries + Count(f), bytes := st.bytes + Total(f),
                        seen := st.seen + Shown(setup, st, dir, f))
  }

  predicate Ready(setup: Setup, st: State, dir: Path, f: Forest) {
    Idle(st) && Opens(setup, st, dir) && WellNamed(f) && Within(setup, st, dir, f) && Free(st.storage, dir, f) && Walk(st.storage, dir) == Ok(Some(Folder))
  }

  lemma ReadyEntry(setup: Setup, st: State, dir: Path, f: Forest)
    requires Ready(setup, st, dir, f) && !f.Empty?
    ensures var t := Spent(st, |TimeOf(f.time)|).(pendingTime := f.time);
            Run(setup, st, TimeOf(f.time)) == Ok(t) && Vacant(setup, t, dir + [f.name], f.name)
            && Room(setup, t, dir + [f.name], if f.File? then |Flatten(f.parts)| else 0) && CanSpend(setup, t, 2)
            && (f.Dir? ==> setup.recursive)
  {
    hide Flatten, Safe, Walk, Free, Height, Placed, Run, SiblingNames, Shown, Temporaries, Around, Legible;
    HeightOfOne(f);
    TimeGrows(setup, st, f.time);
    var t := Spent(st, |TimeOf(f.time)|).(pendingTime := f.time);
    PlacedIn(setup, t.(records := t.records + 1, pendingTime := false), dir, f.name);
    FreeChild(st.storage, dir, f);
    WalkChild(st.storage, dir, f.name);
  }

  /** What the listings show for the first entry alone. */
  lemma EntryShows(setup: Setup, st: State, dir: Path, f: Forest)
    requires Visible(setup, st, dir, f) && !f.Empty?
    ensures Shows(setup, st, dir + [f.name], {dir + [f.name]})
    ensures f.File? ==> CanStage(setup, st, dir + [f.name])
  {
    hide Around, Legible, PathBytes, Flatten, Staging, Temporary, Placement, Temporaries;
    var path := dir + [f.name];
    ParentOfChild(dir, f.name);
    FirstShown(setup, st, dir, f);
    FewerSeen(st.seen, Around(st.storage, dir), {path}, Shown(setup, st, dir, f));
    if f.File? { FewerSeen(st.seen, Around(st.storage, dir), Temporary(setup, st.entries + 1, path), Shown(setup, st, dir, f)); }
  }

  lemma FirstShown(setup: Setup, st: State, dir: Path, f: Forest)
    requires !f.Empty?
    ensures Around(st.storage, dir) <= Shown(setup, st, dir, f) && {dir + [f.name]} <= Shown(setup, st, dir, f)
    ensures f.File? ==> Temporary(setup, st.entries + 1, dir + [f.name]) <= Shown(setup, st, dir, f)
  {
    hide Around, Temporary, Flatten;
    assert dir + [f.name] in Placement(dir, f);
  }

  lemma HeightOfOne(f: Forest)
    requires !f.Empty?
    ensures Height(f) >= 1 && Height(f) >= Height(f.next) && (f.Dir? ==> Height(f) >= 1 + Height(f.children))
  {
  }

  /** Behind a file its siblings find everything as they need it. */
  lemma ReadyBehindFile(setup: Setup, st: State, dir: Path, f: Forest)
    requires Ready(setup, st, dir, f) && f.File?
    ensures var t := FileAdded(setup, Spent(st, |TimeOf(f.time)|), dir + [f.name], Flatten(f.parts));
            Ready(setup, t, dir, f.next) && Grown(setup, t, dir, f.next) == Grown(setup, st, dir, f)
  {
    hide Flatten, Safe, Walk, Free, Visible, Shown, Listing, Temporary, Within, SiblingNames;
    VisibleBehindFile(setup, st, dir, f);
    WithinBehindFile(setup, st, dir, f);
    var path, node := dir + [f.name], FileNode(Flatten(f.parts));
    FreeBehind(st.storage, map[path := node], dir, f);
    assert st.storage[path := node] == st.storage + map[path := node];
    assert (st.storage + map[path := node]) + Placement(dir, f.next) == st.storage + (map[path := node] + Placement(dir, f.next));
  }

  lemma WithinBehindFile(setup: Setup, st: State, dir: Path, f: Forest)
    requires Ready(setup, st, dir, f) && f.File?
    requires Visible(setup, FileAdded(setup, Spent(st, |TimeOf(f.time)|), dir + [f.name], Flatten(f.parts)), dir, f.next)
    ensures Within(setup, FileAdded(setup, Spent(st, |TimeOf(f.time)|), dir + [f.name], Flatten(f.parts)), dir, f.next)
  {
    hide Safe, Walk, Free, Placement, Visible, Shown, Listing, Flatten, WellNamed, Temporary;
  }

  lemma VisibleBehindFile(setup: Setup, st: State, dir: Path, f: Forest)
    requires Ready(setup, st, dir, f) && f.File?
    ensures var t := FileAdded(setup, Spent(st, |TimeOf(f.time)|), dir + [f.name], Flatten(f.parts));
            Visible(setup, t, dir, f.next) && t.seen + Shown(setup, t, dir, f.next) == st.seen + Shown(setup, st, dir, f)
  {
    hide Flatten, Safe, Walk, Free, Shown, Legible, Placement, Temporaries, Within, Temporary, Around, Listing;
    var path := dir + [f.name];
    var t := FileAdded(setup, Spent(st, |TimeOf(f.time)|), path, Flatten(f.parts));
    var more := map[path := FileNode(Flatten(f.parts))];
    LegibleChild(setup, st, dir, f, more);
    assert t.storage == st.storage + more;
    ShownBehindFile(setup, st, dir, f, t);
    VisibleParts(setup, st, dir, f);
  }

  lemma VisibleParts(setup: Setup, st: State, dir: Path, f: Forest)
    requires Ready(setup, st, dir, f) && !f.Empty?
    ensures Short(setup, st.entries, dir, f) && Legible(Around(st.storage, dir)) && |st.seen + Shown(setup, st, dir, f)| <= setup.limits.maxEntries
  {
  }

  lemma ShownBehindFile(setup: Setup, st: State, dir: Path, f: Forest, t: State)
    requires f.File? && t.entries == st.entries + 1 && Around(t.storage, dir) == Around(st.storage, dir) + {dir + [f.name]}
    requires t.seen == st.seen + (Listing(st.storage, dir + [f.name]) + Temporary(setup, st.entries + 1, dir + [f.name]))
    ensures t.seen + Shown(setup, t, dir, f.next) == st.seen + Shown(setup, st, dir, f)
  {
    hide Around, Temporary, Placement, Temporaries;
    var path := dir + [f.name];
    ParentOfChild(dir, f.name);
    StagedAtPlace(setup, st.entries + 1, path);
    FileShown(setup, st, dir, f);
    NothingShown(setup, dir, st.entries + 1);
    SeenTogether(st.seen, Around(st.storage, dir), {path}, Temporary(setup, st.entries + 1, path),
                 Placement(dir, f.next).Keys, Temporaries(setup, st.entries + 1, dir, f.next));
    if !f.next.Empty? {
      assert Shown(setup, t, dir, f.next) ==
        Around(st.storage, dir) + {path} + Placement(dir, f.next).Keys + Temporaries(setup, st.entries + 1, dir, f.next);
    }
  }

  lemma StagedAtPlace(setup: Setup, k: nat, path: Path)
    ensures {path} <= Temporary(setup, k, path)
  {
  }

  lemma FileShown(setup: Setup, st: State, dir: Path, f: Forest)
    requires f.File?
    ensures Shown(setup, st, dir, f) == Around(st.storage, dir) + ({dir + [f.name]} + Placement(dir, f.next).Keys)
              + (Temporary(setup, st.entries + 1, dir + [f.name]) + Temporaries(setup, st.entries + 1, dir, f.next))
  {
    hide Around, Temporary, Flatten;
  }

  lemma NothingShown(setup: Setup, dir: Path, k: nat)
    ensures Placement(dir, Empty).Keys == {} && Temporaries(setup, k, dir, Empty) == {}
  {
  }

  /** A first entry with anything below it adds its own name to what the surroundings show. */
  lemma LegibleChild(setup: Setup, st: State, dir: Path, f: Forest, more: Storage)
    requires Ready(setup, st, dir, f) && !f.Empty?
    requires dir + [f.name] in more && forall q | q in more :: dir + [f.name] <= q
    ensures Around(st.storage + more, dir) == Around(st.storage, dir) + {dir + [f.name]}
    ensures Legible(Around(st.storage + more, dir))
  {
    hide Safe, Walk, Free, Around, Shown, Short;
    AroundGrows(st.storage, more, dir, f.name);
    ParentOfChild(dir, f.name);
    assert Legible({dir + [f.name]});
    LegibleUnion(Around(st.storage, dir), {dir + [f.name]});
  }

  /** Entries added under one name of a directory leave the directory and the places of the other names alone. */
  lemma FreeBehind(storage: Storage, more: Storage, dir: Path, f: Forest)
    requires !f.Empty? && WellNamed(f) && Free(storage, dir, f) && Walk(storage, dir) == Ok(Some(Folder))
    requires forall q | q in more :: dir + [f.name] <= q
    ensures Free(storage + more, dir, f.next) && Walk(storage + more, dir) == Ok(Some(Folder))
  {
    hide Walk, Safe;
    WalkKeeps(storage, more, dir);
    forall p | p in storage + more && Below(dir, p) ensures p[|dir|] !in SiblingNames(f.next) {
      if p in more { assert p[|dir|] == (dir + [f.name])[|dir|]; }
    }
  }

  lemma {:induction false} PlacementBelow(dir: Path, f: Forest)
    ensures forall q | q in Placement(dir, f) :: dir <= q
    decreases f
  {
    hide Flatten;
    match f {
      case Empty =>
      case File(_, name, parts, next) =>
        PlacementBelow(dir, next);
      case Dir(_, name, children, next) =>
        PlacementBelow(dir, next);
        PlacementBelow(dir + [name], children);
        forall q | q in Placement(dir + [name], children) ensures dir <= q { PrefixOfPrefix(dir, dir + [name], q); }
    }
  }

  /** Inside a directory just made its children find everything as they need it. */
  lemma ReadyInside(setup: Setup, st: State, dir: Path, f: Forest)
    requires Ready(setup, st, dir, f) && f.Dir?
    ensures Ready(setup, DirAdded(Spent(st, |TimeOf(f.time)|), dir + [f.name]), dir + [f.name], f.children)
  {
    hide Safe, Walk, Visible, Listing;
    VisibleInside(setup, st, dir, f);
    var path := dir + [f.name];
    var storage := st.storage[path := Folder];
    WalkKeeps(st.storage, map[path := Folder], dir);
    assert storage == st.storage + map[path := Folder];
    WalkChild(storage, dir, f.name);
    forall p | p in storage ensures !Below(path, p) {
      OneBelow(dir, f.name, p);
      assert p in st.storage && Below(dir, p) ==> p[|dir|] != f.name;
    }
  }

  /** A directory just made shows nothing of its own yet. */
  lemma AroundInside(setup: Setup, st: State, dir: Path, f: Forest)
    requires Ready(setup, st, dir, f) && f.Dir?
    ensures var path := dir + [f.name]; var storage := st.storage[path := Folder];
            Around(storage, path) == Around(st.storage, dir) + {path} && Legible(Around(storage, path))
  {
    hide Safe, Walk, Visible;
    var path := dir + [f.name];
    var storage := st.storage[path := Folder];
    assert storage == st.storage + map[path := Folder];
    LegibleChild(setup, st, dir, f, map[path := Folder]);
    ParentOfChild(dir, f.name);
    forall p | p in storage && p != [] ensures Parent(p) != path {
      OneBelow(dir, f.name, p);
    }
    assert Children(storage, path) == {};
  }

  lemma VisibleInside(setup: Setup, st: State, dir: Path, f: Forest)
    requires Ready(setup, st, dir, f) && f.Dir?
    ensures Visible(setup, DirAdded(Spent(st, |TimeOf(f.time)|), dir + [f.name]), dir + [f.name], f.children)
  {
    hide Safe, Walk, Free, Shown, Legible, Placement, Temporaries, Within, Around, Listing;
    var path := dir + [f.name];
    var u := DirAdded(Spent(st, |TimeOf(f.time)|), path);
    AroundInside(setup, st, dir, f);
    VisibleParts(setup, st, dir, f);
    if !f.children.Empty? {
      ShownInside(setup, st, dir, f, u);
      SubsetSize(u.seen + Shown(setup, u, path, f.children), st.seen + Shown(setup, st, dir, f));
    }
  }

  /** What the children of a directory show is among what the directory and its siblings show. */
  lemma ShownInside(setup: Setup, st: State, dir: Path, f: Forest, u: State)
    requires f.Dir? && u.entries == st.entries + 1 && Around(u.storage, dir + [f.name]) == Around(st.storage, dir) + {dir + [f.name]}
    requires u.seen == st.seen + (Listing(st.storage, dir + [f.name]) + {dir + [f.name]})
    ensures u.seen + Shown(setup, u, dir + [f.name], f.children) <= st.seen + Shown(setup, st, dir, f)
  {
    hide Around, Placement, Temporaries;
    var path := dir + [f.name];
    ParentOfChild(dir, f.name);
    DirShown(setup, st, dir, f);
  }

  lemma DirShown(setup: Setup, st: State, dir: Path, f: Forest)
    requires f.Dir?
    ensures Shown(setup, st, dir, f) ==
            Around(st.storage, dir) + ({dir + [f.name]} + Placement(dir + [f.name], f.children).Keys + Placement(dir, f.next).Keys)
            + (Temporaries(setup, st.entries + 1, dir + [f.name], f.children) + Temporaries(setup, st.entries + 1 + Count(f.children), dir, f.next))
  {
    hide Around;
    PlacementOfDir(dir, f);
  }

  /** The state once a directory is closed again. */
  function DirClosed(setup: Setup, st: State, dir: Path, f: Forest): State
    requires f.Dir?
  {
    var s := Grown(setup, DirAdded(Spent(st, |TimeOf(f.time)|), dir + [f.name]), dir + [f.name], f.children);
    Spent(s, 1).(stack := st.stack)
  }

  lemma ReadyBehindDir(setup: Setup, st: State, dir: Path, f: Forest)
    requires Ready(setup, st, dir, f) && f.Dir?
    ensures Ready(setup, DirClosed(setup, st, dir, f), dir, f.next) && Grown(setup, DirClosed(setup, st, dir, f), dir, f.next) == Grown(setup, st, dir, f)
  {
    hide Safe, Walk, Free, Placement, Visible, Shown, Listing, Within, SiblingNames, Flatten, WellNamed, Count, Total, Acks, Roots;
    VisibleBehindDir(setup, st, dir, f);
    WithinBehindDir(setup, st, dir, f);
    CountsOfDir(f);
    StorageBehindDir(st.storage, dir, f);
  }

  lemma StorageBehindDir(storage: Storage, dir: Path, f: Forest)
    requires f.Dir? && WellNamed(f) && Free(storage, dir, f) && Walk(storage, dir) == Ok(Some(Folder))
    ensures var path := dir + [f.name]; var made := storage[path := Folder] + Placement(path, f.children);
            && Free(made, dir, f.next) && Walk(made, dir) == Ok(Some(Folder))
            && made + Placement(dir, f.next) == storage + Placement(dir, f)
  {
    hide Safe, Walk, Free, Placement;
    var path := dir + [f.name];
    var inside := Placement(path, f.children);
    var more := map[path := Folder] + inside;
    PlacementBelow(path, f.children);
    FreeBehind(storage, more, dir, f);
    assert storage[path := Folder] + inside == storage + more;
    PlacementOfDir(dir, f);
    assert (storage + more) + Placement(dir, f.next) == storage + (more + Placement(dir, f.next));
  }

  lemma VisibleBehindDir(setup: Setup, st: State, dir: Path, f: Forest)
    requires Ready(setup, st, dir, f) && f.Dir?
    ensures var w := DirClosed(setup, st, dir, f);
            Visible(setup, w, dir, f.next) && w.seen + Shown(setup, w, dir, f.next) == st.seen + Shown(setup, st, dir, f)
  {
    hide Safe, Walk, Free, Shown, Legible, Placement, Temporaries, Within, Around, Listing;
    var path, w := dir + [f.name], DirClosed(setup, st, dir, f);
    var more := map[path := Folder] + Placement(path, f.children);
    PlacementBelow(path, f.children);
    LegibleChild(setup, st, dir, f, more);
    assert w.storage == st.storage + more;
    AroundInside(setup, st, dir, f);
    VisibleParts(setup, st, dir, f);
    ShownBehindDir(setup, st, dir, f, DirAdded(Spent(st, |TimeOf(f.time)|), path), w);
  }

  lemma CountsOfDir(f: Forest)
    requires f.Dir?
    ensures Count(f) == 1 + Count(f.children) + Count(f.next) && Total(f) == Total(f.children) + Total(f.next) && Roots(f) == 1 + Roots(f.next)
    ensures Acks(f) == |TimeOf(f.time)| + 1 + Acks(f.children) + 1 + Acks(f.next)
    ensures WellNamed(f) ==> WellNamed(f.children) && WellNamed(f.next)
  {
  }

  lemma WithinBehindDir(setup: Setup, st: State, dir: Path, f: Forest)
    requires Ready(setup, st, dir, f) && f.Dir? && Visible(setup, DirClosed(setup, st, dir, f), dir, f.next)
    ensures Within(setup, DirClosed(setup, st, dir, f), dir, f.next)
  {
    hide Safe, Walk, Free, Placement, Visible, Shown, Listing, Flatten, WellNamed;
  }

  lemma ShownBehindDir(setup: Setup, st: State, dir: Path, f: Forest, u: State, w: State)
    requires f.Dir? && u.entries == st.entries + 1 && Around(u.storage, dir + [f.name]) == Around(st.storage, dir) + {dir + [f.name]}
    requires u.seen == st.seen + (Listing(st.storage, dir + [f.name]) + {dir + [f.name]})
    requires w.seen == u.seen + Shown(setup, u, dir + [f.name], f.children)
    requires w.entries == u.entries + Count(f.children) && Around(w.storage, dir) == Around(st.storage, dir) + {dir + [f.name]}
    ensures w.seen + Shown(setup, w, dir, f.next) == st.seen + Shown(setup, st, dir, f)
  {
    hide Around, Placement, Temporaries;
    var path := dir + [f.name];
    ParentOfChild(dir, f.name);
    DirShown(setup, st, dir, f);
    NothingShown(setup, dir, w.entries);
    NothingShown(setup, path, u.entries);
    var around, inside, extra := Around(st.storage, dir), Placement(path, f.children).Keys, Temporaries(setup, u.entries, path, f.children);
    var paths, more := Placement(dir, f.next).Keys, Temporaries(setup, w.entries, dir, f.next);
    assert w.seen == st.seen + (around + {path}) + (around + {path} + inside + extra);
    assert w.seen + Shown(setup, w, dir, f.next) == w.seen + (around + {path} + paths + more);
    DirSeenTogether(st.seen, around, {path}, inside, extra, paths, more);
  }

  lemma DirSeenTogether<T>(seen: set<T>, around: set<T>, own: set<T>, inside: set<T>, extra: set<T>, paths: set<T>, more: set<T>)
    ensures seen + (around + own) + (around + own + inside + extra) + (around + own + paths + more)
            == seen + (around + (own + inside + paths) + (extra + more))
  {
  }

  lemma PlacementOfDir(dir: Path, f: Forest)
    requires f.Dir?
    ensures Placement(dir, f) == map[dir + [f.name] := Folder] + Placement(dir + [f.name], f.children) + Placement(dir, f.next)
  {
  }

  lemma RunThree(setup: Setup, st: State, a: seq<Message>, b: seq<Message>, c: seq<Message>, s: State, t: State)
    requires Run(setup, st, a) == Ok(s) && Run(setup, s, b) == Ok(t)
    ensures Run(setup, st, a + (b + c)) == Run(setup, t, c)
  {
    hide Run;
    RunAppend(setup, st, a, b + c);
    RunAppend(setup, s, b, c);
  }

  lemma FileEntry(setup: Setup, st: State, dir: Path, f: Forest)
    requires Ready(setup, st, dir, f) && f.File?
    ensures var t := Spent(st, |TimeOf(f.time)|).(pendingTime := f.time);
            Run(setup, st, TimeOf(f.time)) == Ok(t)
            && Run(setup, t, FileText(f.name, f.parts)) == Ok(FileAdded(setup, Spent(st, |TimeOf(f.time)|), dir + [f.name], Flatten(f.parts)))
  {
    hide Vacant, Room, Run, Flatten, TimeOf, CanSpend, FileText, Walk, Free, Legible, Listing, Temporary, PathBytes, Staging, Visible, WellNamed, Opens;
    ReadyEntry(setup, st, dir, f);
    EntryShows(setup, st, dir, f);
    FileGrows(setup, Spent(st, |TimeOf(f.time)|).(pendingTime := f.time), dir + [f.name], f.name, f.parts);
  }

  lemma DirEntry(setup: Setup, st: State, dir: Path, f: Forest)
    requires Ready(setup, st, dir, f) && f.Dir?
    ensures var t := Spent(st, |TimeOf(f.time)|).(pendingTime := f.time);
            Run(setup, st, TimeOf(f.time)) == Ok(t)
            && Run(setup, t, [Directory(f.name)]) == Ok(DirAdded(Spent(st, |TimeOf(f.time)|), dir + [f.name]))
  {
    hide Vacant, Room, Run, TimeOf, Walk, Free, PathBytes, Visible, Opens, Legible, Listing, Safe;
    ReadyEntry(setup, st, dir, f);
    EntryShows(setup, st, dir, f);
    ParentOfChild(dir, f.name);
    DirGrows(setup, Spent(st, |TimeOf(f.time)|).(pendingTime := f.time), dir + [f.name], f.name);
  }

  lemma FileRuns(setup: Setup, st: State, f: Forest, t: State, u: State, v: State)
    requires f.File? && Run(setup, st, TimeOf(f.time)) == Ok(t) && Run(setup, t, FileText(f.name, f.parts)) == Ok(u)
    requires Run(setup, u, Messages(f.next)) == Ok(v)
    ensures Run(setup, st, Messages(f)) == Ok(v)
  {
    hide Run, TimeOf, FileText;
    RunThree(setup, st, TimeOf(f.time), FileText(f.name, f.parts), Messages(f.next), t, u);
  }

  lemma DirRuns(setup: Setup, st: State, f: Forest, t: State, u: State, v: State, w: State, x: State)
    requires f.Dir? && Run(setup, st, TimeOf(f.time)) == Ok(t) && Run(setup, t, [Directory(f.name)]) == Ok(u)
    requires Run(setup, u, Messages(f.children)) == Ok(v) && Run(setup, v, [End]) == Ok(w)
    requires Run(setup, w, Messages(f.next)) == Ok(x)
    ensures Run(setup, st, Messages(f)) == Ok(x)
  {
    hide Run, TimeOf;
    RunThree(setup, st, TimeOf(f.time), [Directory(f.name)], Messages(f.children) + ([End] + Messages(f.next)), t, u);
    RunThree(setup, u, Messages(f.children), [End], Messages(f.next), v, w);
  }

  /** The receiver rebuilds the forest: it fails nowhere, places every node, and accounts for all of it. */
  lemma {:induction false} Rebuild(setup: Setup, st: State, dir: Path, f: Forest)
    requires Ready(setup, st, dir, f)
    ensures Run(setup, st, Messages(f)) == Ok(Grown(setup, st, dir, f))
    decreases f
  {
    hide Run, Ready, Grown, DirClosed, Messages, FileAdded, DirAdded, Spent, TimeOf, FileText, Flatten;
    match f {
      case Empty => NothingGrows(setup, st, dir);
      case File(time, name, parts, next) =>
        var u := FileAdded(setup, Spent(st, |TimeOf(time)|), dir + [name], Flatten(parts));
        ReadyBehindFile(setup, st, dir, f);
        Rebuild(setup, u, dir, next);
        FileEntry(setup, st, dir, f);
        FileRuns(setup, st, f, Spent(st, |TimeOf(time)|).(pendingTime := time), u, Grown(setup, u, dir, next));
      case Dir(time, name, children, next) =>
        var u, w := DirAdded(Spent(st, |TimeOf(time)|), dir + [name]), DirClosed(setup, st, dir, f);
        ReadyInside(setup, st, dir, f);
        Rebuild(setup, u, dir + [name], children);
        ReadyBehindDir(setup, st, dir, f);
        Rebuild(setup, w, dir, next);
        DirEntry(setup, st, dir, f);
        ClosesDir(setup, st, dir, f);
        DirRuns(setup, st, f, Spent(st, |TimeOf(time)|).(pendingTime := time), u, Grown(setup, u, dir + [name], children), w, Grown(setup, w, dir, next));
    }
  }

  lemma NothingGrows(setup: Setup, st: State, dir: Path)
    ensures Run(setup, st, Messages(Empty)) == Ok(Grown(setup, st, dir, Empty))
  {
    assert st.storage + map[] == st.storage && st.seen + {} == st.seen;
  }

  lemma ClosesDir(setup: Setup, st: State, dir: Path, f: Forest)
    requires Ready(setup, st, dir, f) && f.Dir?
    ensures Run(setup, Grown(setup, DirAdded(Spent(st, |TimeOf(f.time)|), dir + [f.name]), dir + [f.name], f.children), [End]) == Ok(DirClosed(setup, st, dir, f))
  {
    hide Placement, Walk, Free, Safe, Height, Run, WellNamed;
    var s := Grown(setup, DirAdded(Spent(st, |TimeOf(f.time)|), dir + [f.name]), dir + [f.name], f.children);
    EndGrows(setup, s);
    assert s.stack[..|s.stack| - 1] == st.stack;
  }

  /** The storage then holds the forest below the fresh place, and at every other path what it held before. */
  lemma RebuiltTree(setup: Setup, st: State, dir: Path, f: Forest, p: Path)
    requires Ready(setup, st, dir, f)
    ensures var storage := Grown(setup, st, dir, f).storage; var node := if Below(dir, p) then Lookup(f, p[|dir|..]) else None;
            if node.Some? then p in storage && storage[p] == node.value && p !in st.storage
            else (p in storage <==> p in st.storage) && (p in storage ==> storage[p] == st.storage[p])
  {
    hide Walk, Safe, Placement, Lookup;
    PlacementIsForest(dir, f, p);
  }

  // ---- a bound that can be counted beforehand ----

  function Files(f: Forest): nat {
    match f
    case Empty => 0
    case File(_, _, _, next) => 1 + Files(next)
    case Dir(_, _, children, next) => Files(children) + Files(next)
  }

  lemma {:induction false} UnionSize<T>(a: set<T>, b: set<T>)
    ensures |a + b| <= |a| + |b|
  {
    if a == {} {
      assert a + b == b;
    } else {
      var x :| x in a;
      UnionSize(a - {x}, b);
      SubsetSize(a + b, ((a - {x}) + b) + {x});
    }
  }

  lemma ThreeSize<T>(a: set<T>, b: set<T>, c: set<T>)
    ensures |a + (b + c)| <= |a| + |b| + |c|
  {
    UnionSize(b, c);
    UnionSize(a, b + c);
  }

  function Own(setup: Setup, k: nat, dir: Path, f: Forest): set<Path> { Placement(dir, f).Keys + Temporaries(setup, k, dir, f) }

  /** An entry shows itself, and a file its staging copy as well. */
  lemma {:induction false} OwnAtMost(setup: Setup, k: nat, dir: Path, f: Forest)
    requires forall n: nat :: setup.portal(n) == {}
    ensures |Own(setup, k, dir, f)| <= Count(f) + Files(f)
    decreases f
  {
    hide Own;
    match f {
      case Empty => OwnOfEmpty(setup, k, dir);
      case File(_, name, parts, next) =>
        OwnAtMost(setup, k + 1, dir, next);
        OwnOfFile(setup, k, dir, f);
      case Dir(_, name, children, next) =>
        OwnAtMost(setup, k + 1, dir + [name], children);
        OwnAtMost(setup, k + 1 + Count(children), dir, next);
        OwnOfDir(setup, k, dir, f);
    }
  }

  lemma OwnOfEmpty(setup: Setup, k: nat, dir: Path)
    ensures Own(setup, k, dir, Empty) == {}
  {
  }

  lemma OwnOfFile(setup: Setup, k: nat, dir: Path, f: Forest)
    requires f.File? && setup.portal(k + 1) == {}
    ensures |Own(setup, k, dir, f)| <= 2 + |Own(setup, k + 1, dir, f.next)|
  {
    hide Flatten, Staging;
    var staged, path, rest := Staging(setup, k + 1, dir + [f.name]), dir + [f.name], Own(setup, k + 1, dir, f.next);
    assert Own(setup, k, dir, f) == {staged} + ({path} + rest);
    ThreeSize({staged}, {path}, rest);
  }

  lemma OwnOfDir(setup: Setup, k: nat, dir: Path, f: Forest)
    requires f.Dir?
    ensures |Own(setup, k, dir, f)| <= 1 + |Own(setup, k + 1, dir + [f.name], f.children)| + |Own(setup, k + 1 + Count(f.children), dir, f.next)|
  {
    hide Own, Count;
    OwnRegrouped(setup, k, dir, f);
    ThreeSize({dir + [f.name]}, Own(setup, k + 1, dir + [f.name], f.children), Own(setup, k + 1 + Count(f.children), dir, f.next));
  }

  lemma OwnRegrouped(setup: Setup, k: nat, dir: Path, f: Forest)
    requires f.Dir?
    ensures Own(setup, k, dir, f) ==
            {dir + [f.name]} + (Own(setup, k + 1, dir + [f.name], f.children) + Own(setup, k + 1 + Count(f.children), dir, f.next))
  {
    hide Placement, Temporaries, Count;
    var path, n := dir + [f.name], k + 1 + Count(f.children);
    PathsOfDir(dir, f);
    TemporariesOfDir(setup, k, dir, f);
    Regrouped({path}, Placement(path, f.children).Keys, Placement(dir, f.next).Keys,
              Temporaries(setup, k + 1, path, f.children), Temporaries(setup, n, dir, f.next));
  }

  lemma PathsOfDir(dir: Path, f: Forest)
    requires f.Dir?
    ensures Placement(dir, f).Keys == {dir + [f.name]} + Placement(dir + [f.name], f.children).Keys + Placement(dir, f.next).Keys
  {
    hide Placement;
    PlacementOfDir(dir, f);
  }

  lemma TemporariesOfDir(setup: Setup, k: nat, dir: Path, f: Forest)
    requires f.Dir?
    ensures Temporaries(setup, k, dir, f) ==
            Temporaries(setup, k + 1, dir + [f.name], f.children) + Temporaries(setup, k + 1 + Count(f.children), dir, f.next)
  {
  }

  lemma Regrouped<T>(own: set<T>, a: set<T>, b: set<T>, c: set<T>, d: set<T>)
    ensures (own + a + b) + (c + d) == own + ((a + c) + (b + d))
  {
  }

  /** The listings show at most their surroundings, the entries, and a staging copy for each file. */
  lemma ShownAtMost(setup: Setup, st: State, dir: Path, f: Forest)
    requires forall n: nat :: setup.portal(n) == {}
    ensures |st.seen + Shown(setup, st, dir, f)| <= |st.seen + Around(st.storage, dir)| + Count(f) + Files(f)
  {
    hide Around, Placement, Temporaries;
    var own := Own(setup, st.entries, dir, f);
    OwnAtMost(setup, st.entries, dir, f);
    UnionSize(st.seen + Around(st.storage, dir), own);
    SubsetSize(st.seen + Shown(setup, st, dir, f), st.seen + Around(st.storage, dir) + own);
  }

  /** A forest within every limit of an upload session, counted beforehand; whether its names can be read is not a limit. */
  predicate SessionTakes(storage: Storage, destination: Path, f: Forest, recursive: bool, staging: nat -> string) {
    var setup := SessionSetup(destination, recursive, false, staging);
    && !f.Empty? && WellNamed(f) && Free(storage, destination, f) && Walk(storage, destination) == Ok(Some(Folder))
    && (HasDir(f) ==> recursive) && |destination| + Height(f) <= SESSION_LIMITS.maxDepth
    && FilesFit(f, SESSION_LIMITS.maxFile) && Total(f) <= SESSION_LIMITS.maxSession && 2 * Acks(f) + 2 <= SESSION_LIMITS.maxRecords
    && PathBytes(destination) <= SESSION_LIMITS.maxPath && Short(setup, 0, destination, f)
    && Legible(Around(storage, destination)) && |Around(storage, destination)| + Count(f) + Files(f) <= SESSION_LIMITS.maxEntries
  }

  /** A session into a directory, with files uploaded in one request each. */
  function SessionSetup(destination: Path, recursive: bool, noOverwrite: bool, staging: nat -> string): Setup {
    Setup(SESSION_LIMITS, recursive, noOverwrite, destination, true, staging, (_: nat) => {})
  }

  lemma SameShort(setup: Setup, other: Setup, k: nat, dir: Path, f: Forest)
    requires setup.limits == other.limits && setup.staging == other.staging && Short(setup, k, dir, f)
    ensures Short(other, k, dir, f)
    decreases f
  {
    hide PathBytes;
    match f {
      case Empty =>
      case File(_, _, _, next) => SameShort(setup, other, k + 1, dir, next);
      case Dir(_, name, children, next) =>
        SameShort(setup, other, k + 1, dir + [name], children);
        SameShort(setup, other, k + 1 + Count(children), dir, next);
    }
  }

  /** The state once the destination has been looked up and the first acknowledgement sent. */
  function SessionStart(storage: Storage, destination: Path): State {
    State(storage, [], 0, false, None, false, 1, 0, 0, 1, Listing(storage, destination))
  }

  lemma SessionBegins(storage: Storage, destination: Path, f: Forest, recursive: bool, noOverwrite: bool, staging: nat -> string, needsDirectory: bool)
    requires SessionTakes(storage, destination, f, recursive, staging)
    ensures Begin(storage, destination, false, needsDirectory, recursive, noOverwrite, SESSION_LIMITS, staging, (_: nat) => {})
            == Ok((SessionSetup(destination, recursive, noOverwrite, staging), SessionStart(storage, destination)))
  {
    hide PathBytes, Short, Walk, Free, WellNamed, Legible, Around, Inspect, Flatten, Height, Count, Files, Acks, Total, FilesFit, HasDir;
    ListedAround(storage, destination);
    SubsetSize(Listing(storage, destination), Around(storage, destination));
    assert {} + Listing(storage, destination) == Listing(storage, destination);
    InspectSees(storage, destination, {}, SESSION_LIMITS);
  }

  /** Such a session begins, and its receiver is ready for the forest. */
  lemma SessionIsReady(storage: Storage, destination: Path, f: Forest, recursive: bool, noOverwrite: bool, staging: nat -> string)
    requires SessionTakes(storage, destination, f, recursive, staging)
    ensures var setup, st := SessionSetup(destination, recursive, noOverwrite, staging), SessionStart(storage, destination);
            AtStart(st) && Ready(setup, st, destination, f) && st.records + 2 * Acks(f) + 1 <= SESSION_LIMITS.maxRecords
  {
    hide PathBytes, Short, Walk, Free, WellNamed, Legible, Around, Shown, Flatten, Height, Files, Acks, Total, FilesFit, HasDir, Listing;
    var setup, st := SessionSetup(destination, recursive, noOverwrite, staging), SessionStart(storage, destination);
    SameShort(SessionSetup(destination, recursive, false, staging), setup, 0, destination, f);
    ListedAround(storage, destination);
    ShownAtMost(setup, st, destination, f);
    assert st.seen + Around(storage, destination) == Around(storage, destination);
  }

  lemma ListedAround(storage: Storage, path: Path)
    ensures Listing(storage, path) <= Around(storage, path)
    ensures Legible(Around(storage, path)) ==> Legible(Listing(storage, path))
  {
    assert forall p | p in Listing(storage, path) :: p in Around(storage, path);
  }

  // ---- one root under a new name ----

  /** The destination itself does not exist yet: it becomes the one root that is sent, whatever its name was. */
  predicate ReadyAs(setup: Setup, st: State, f: Forest) {
    && AtStart(st) && !setup.intoDirectory && !f.Empty? && f.next.Empty?
    && Walk(st.storage, setup.destination) == Ok(None) && (forall p | p in st.storage :: !Below(setup.destination, p))
    && |setup.destination| <= setup.limits.maxDepth && 1 <= setup.limits.maxDepth
    && PathBytes(setup.destination) <= setup.limits.maxPath && Safe(Last(setup.destination))
    && st.entries + 1 <= setup.limits.maxEntries && st.bytes <= setup.limits.maxSession && CanSpend(setup, st, Acks(f))
    && (f.File? ==> |Flatten(f.parts)| <= setup.limits.maxFile && st.bytes + |Flatten(f.parts)| <= setup.limits.maxSession
                     && CanStage(setup, st, setup.destination))
    && (f.Dir? ==> setup.recursive && Shows(setup, st, setup.destination, {setup.destination})
                   && WellNamed(f.children) && Within(setup, RootAdded(setup, st, f), setup.destination, f.children))
  }

  function RootAdded(setup: Setup, st: State, f: Forest): State
    requires !f.Empty?
  {
    var s := Spent(st, |TimeOf(f.time)|);
    match f
    case File(_, _, parts, _) => FileAdded(setup, s, setup.destination, Flatten(parts))
    case Dir(_, _, _, _) => DirAdded(s, setup.destination)
  }

  lemma RootVacant(setup: Setup, st: State, f: Forest)
    requires ReadyAs(setup, st, f)
    ensures var t := Spent(st, |TimeOf(f.time)|).(pendingTime := f.time);
            Run(setup, st, TimeOf(f.time)) == Ok(t) && Vacant(setup, t, setup.destination, f.name)
            && Room(setup, t, setup.destination, if f.File? then |Flatten(f.parts)| else 0) && CanSpend(setup, t, if f.File? then 2 else 1)
            && (f.File? ==> CanStage(setup, t, setup.destination)) && (f.Dir? ==> Shows(setup, t, setup.destination, {setup.destination}))
  {
    hide Walk, Flatten, Within, WellNamed, Run, Below, Legible, Listing, Temporary, Staging, PathBytes, Safe;
    TimeGrows(setup, st, f.time);
  }

  lemma WalkOfRoot(storage: Storage)
    ensures Walk(storage, []) == Ok(Some(Folder))
  {
  }

  lemma RootReady(setup: Setup, st: State, f: Forest)
    requires ReadyAs(setup, st, f) && f.Dir?
    ensures Ready(setup, RootAdded(setup, st, f), setup.destination, f.children)
  {
    hide Within, WellNamed, Walk, Legible, Listing, PathBytes, Safe;
    WalkOfRoot(st.storage);
    MakesDirectory(st.storage, setup.destination);
  }

  /** The time that came first does not matter to what the root adds. */
  lemma RootBehindTime(setup: Setup, st: State, f: Forest)
    requires ReadyAs(setup, st, f)
    ensures var t := Spent(st, |TimeOf(f.time)|).(pendingTime := f.time);
            && (f.File? ==> RootAdded(setup, st, f) == FileAdded(setup, t, setup.destination, Flatten(f.parts)))
            && (f.Dir? ==> RootAdded(setup, st, f) == DirAdded(t, setup.destination) && setup.recursive)
    ensures f.next == Empty && Messages(f.next) == [] && setup.destination != [] && Safe(Last(setup.destination))
  {
    hide Flatten, Within, WellNamed, Below, Legible, Listing, Temporary, Staging, PathBytes, Safe, CanStage, Shows;
  }

  lemma RebuildFileAs(setup: Setup, st: State, f: Forest)
    requires ReadyAs(setup, st, f) && f.File?
    ensures Run(setup, st, Messages(f)) == Ok(RootAdded(setup, st, f))
  {
    hide Run, Vacant, Room, Flatten, ReadyAs, TimeOf, Messages, CanSpend, CanStage, FileAdded, RootAdded, Spent;
    RootVacant(setup, st, f);
    RootBehindTime(setup, st, f);
    var t, u := Spent(st, |TimeOf(f.time)|).(pendingTime := f.time), RootAdded(setup, st, f);
    FileGrows(setup, t, setup.destination, f.name, f.parts);
    RunNothing(setup, u);
    FileRuns(setup, st, f, t, u, u);
  }

  /** The state once the renamed root directory is closed. */
  function RootClosed(setup: Setup, st: State, f: Forest): State
    requires f.Dir?
  {
    Spent(Grown(setup, RootAdded(setup, st, f), setup.destination, f.children), 1).(stack := [])
  }

  lemma RootCloses(setup: Setup, st: State, f: Forest)
    requires ReadyAs(setup, st, f) && f.Dir?
    ensures Run(setup, Grown(setup, RootAdded(setup, st, f), setup.destination, f.children), [End]) == Ok(RootClosed(setup, st, f))
  {
    hide Placement, Walk, WellNamed, Run, Within, Below, Count, Total, Flatten;
    var v := Grown(setup, RootAdded(setup, st, f), setup.destination, f.children);
    EndGrows(setup, v);
    assert v.stack == [setup.destination] && v.stack[..0] == [];
  }

  lemma RebuildDirAs(setup: Setup, st: State, f: Forest)
    requires ReadyAs(setup, st, f) && f.Dir?
    ensures Run(setup, st, Messages(f)) == Ok(RootClosed(setup, st, f))
  {
    hide Run, Vacant, Room, ReadyAs, TimeOf, Messages, CanSpend, Ready, Grown, RootClosed, RootAdded, DirAdded, Shows, Spent, Safe;
    RootVacant(setup, st, f);
    RootBehindTime(setup, st, f);
    RootReady(setup, st, f);
    RootCloses(setup, st, f);
    var t, u := Spent(st, |TimeOf(f.time)|).(pendingTime := f.time), RootAdded(setup, st, f);
    DirGrows(setup, t, setup.destination, f.name);
    Rebuild(setup, u, setup.destination, f.children);
    var v, w := Grown(setup, u, setup.destination, f.children), RootClosed(setup, st, f);
    RunNothing(setup, w);
    DirRuns(setup, st, f, t, u, v, w, w);
  }

  /** The one root arrives under the destination's name, with everything below it. */
  lemma RebuildAs(setup: Setup, st: State, f: Forest)
    requires ReadyAs(setup, st, f)
    ensures Run(setup, st, Messages(f)).Ok?
    ensures var storage := Run(setup, st, Messages(f)).value.storage;
            if f.File? then storage == st.storage[setup.destination := FileNode(Flatten(f.parts))]
            else storage == st.storage[setup.destination := Folder] + Placement(setup.destination, f.children)
  {
    assert !f.Empty?;
    hide ReadyAs, Run, Messages, Placement, Flatten;
    if f.File? { RebuildFileAs(setup, st, f); } else { RebuildDirAs(setup, st, f); }
  }

  // ---- counting acknowledgements ----

  lemma {:induction false} AnswersAppend(a: seq<Message>, b: seq<Message>)
    ensures Answers(a + b) == Answers(a) + Answers(b)
  {
    if a == [] {
      Neutral(b);
    } else {
      HeadTail(a, b);
      Split([a[0]], a[1..] + b);
      AnswersAppend(a[1..], b);
    }
  }

  lemma AnswersOne(m: Message)
    ensures Answers([m]) == if Answered(m) then 1 else 0
  {
    assert [m][1..] == [];
  }

  lemma {:induction false} DataUnanswered(parts: seq<Bytes>)
    ensures Answers(DataOf(parts)) == 0
  {
    if parts != [] { DataUnanswered(parts[1..]); }
  }

  /** A time, a directory and its end are acknowledged once each and a file twice. */
  lemma {:induction false} AcksOfForest(f: Forest)
    ensures Answers(Messages(f)) == Acks(f)
    decreases f
  {
    match f {
      case Empty =>
      case File(time, name, parts, next) =>
        hide Answers;
        var header := Header(name, |Flatten(parts)|);
        AcksOfForest(next);
        AnswersAppend(TimeOf(time), FileText(name, parts) + Messages(next));
        AnswersAppend(FileText(name, parts), Messages(next));
        AnswersAppend([header], DataOf(parts) + [Zero]);
        AnswersAppend(DataOf(parts), [Zero]);
        DataUnanswered(parts);
        AnswersOne(header);
        AnswersOne(Zero);
        TimeAnswers(time);
      case Dir(time, name, children, next) =>
        hide Answers;
        AcksOfForest(children);
        AcksOfForest(next);
        AnswersAppend(TimeOf(time), [Directory(name)] + (Messages(children) + ([End] + Messages(next))));
        AnswersAppend([Directory(name)], Messages(children) + ([End] + Messages(next)));
        AnswersAppend(Messages(children), [End] + Messages(next));
        AnswersAppend([End], Messages(next));
        AnswersOne(Directory(name));
        AnswersOne(End);
        TimeAnswers(time);
    }
  }

  lemma TimeAnswers(time: bool)
    ensures Answers(TimeOf(time)) == if time then 1 else 0
  {
    AnswersOne(Time);
  }
}
