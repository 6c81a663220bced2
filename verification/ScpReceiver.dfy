/**
 The receiving side of a legacy SCP upload: a machine with a stack of open directories that rebuilds
 a tree from the messages it is sent and acknowledges them one by one.
 */
module ScpReceiver {
  import opened Basics
  import opened Names
  import Utf8

  // ---- what is sent ----

  datatype Message =
    | Time
    | Directory(name: string)
    | End
    | Header(name: string, size: nat)   // a file, its bytes to follow
    | Data(bytes: Bytes)
    | Zero                              // the byte behind the last byte of a file
    | Eof

  /** The messages that are answered with an acknowledgement. */
  predicate Answered(m: Message) { !m.Data? && !m.Eof? }

  function Answers(messages: seq<Message>): nat {
    if messages == [] then 0 else (if Answered(messages[0]) then 1 else 0) + Answers(messages[1..])
  }

  // ---- the storage ----

  type Path = seq<string>

  datatype Node = FileNode(bytes: Bytes) | Folder

  type Storage = map<Path, Node>

  datatype Error = Protocol | Metadata | UnsafePath | NotFound | NotDirectory | Exists | Limit | Recursive

  datatype Result<+T> = Ok(value: T) | Err(error: Error) {
    predicate IsFailure() { Err? }
    function PropagateFailure<U>(): Result<U> requires Err? { Err(error) }
    function Extract(): T requires Ok? { value }
  }

  datatype Limits = Limits(maxDepth: nat, maxEntries: nat, maxFile: nat, maxSession: nat, maxRecords: nat, maxPath: nat)

  const SESSION_LIMITS: Limits := Limits(32, 10_000, 1073741824, 8589934592, 100_000, 4096)

  predicate Safe(name: string) { ValidName(name) && '\\' !in name }

  function Last(path: Path): string { if path == [] then "" else path[|path| - 1] }

  function Parent(path: Path): Path { if path == [] then [] else path[..|path| - 1] }

  /** The bytes of a path in UTF-8, a slash before each name. */
  function PathBytes(path: Path): nat {
    if path == [] then 0 else PathBytes(Parent(path)) + 1 + |Utf8.Encode(Last(path))|
  }

  // ---- listings ----

  function Children(storage: Storage, directory: Path): set<Path> {
    set p | p in storage && p != [] && Parent(p) == directory
  }

  /** A listing with a name that is not safe is not used at all. */
  predicate Legible(paths: set<Path>) { forall p | p in paths :: Safe(Last(p)) }

  /** All that listings have shown, with one directory more; the session bounds how much that may be. */
  function List(storage: Storage, directory: Path, seen: set<Path>, limits: Limits): (r: Result<set<Path>>)
    ensures r != Err(Protocol)
  {
    var more := seen + Children(storage, directory);
    if !Legible(Children(storage, directory)) then Err(Metadata)
    else if |more| > limits.maxEntries then Err(Limit)
    else Ok(more)
  }

  /** What stands at a path, and all that listings have shown by then. */
  datatype View = View(node: Option<Node>, seen: set<Path>)

  /** Looks a path up from the root: each directory on the way must exist and be one, and is listed. */
  function Inspect(storage: Storage, path: Path, seen: set<Path>, limits: Limits): (r: Result<View>)
    ensures r != Err(Protocol)
  {
    if PathBytes(path) > limits.maxPath then Err(UnsafePath)
    else if |path| > limits.maxDepth then Err(Limit)
    else Look(storage, path, seen, limits)
  }

  function Look(storage: Storage, path: Path, seen: set<Path>, limits: Limits): (r: Result<View>)
    ensures r != Err(Protocol)
    decreases |path|
  {
    if path == [] then Ok(View(Some(Folder), seen))
    else
      var parent :- Look(storage, Parent(path), seen, limits);
      if parent.node.None? then Err(NotFound)
      else if !parent.node.value.Folder? then Err(NotDirectory)
      else
        var more :- List(storage, Parent(path), parent.seen, limits);
        Ok(View(if path in storage then Some(storage[path]) else None, more))
  }

  /** What fails on the way fails the whole lookup. */
  lemma {:induction false} LookCarries(storage: Storage, path: Path, seen: set<Path>, limits: Limits, i: nat)
    requires i <= |path|
    ensures Look(storage, path[..i], seen, limits).Err? ==> Look(storage, path, seen, limits) == Look(storage, path[..i], seen, limits)
    decreases |path|
  {
    if i < |path| {
      LookCarries(storage, Parent(path), seen, limits, i);
      assert Parent(path)[..i] == path[..i];
    } else {
      assert path[..i] == path;
    }
  }

  /** The lookup as a loop down from the root. */
  method InspectPath(storage: Storage, path: Path, seen: set<Path>, limits: Limits) returns (r: Result<View>)
    ensures r == Inspect(storage, path, seen, limits)
  {
    if PathBytes(path) > limits.maxPath { return Err(UnsafePath); }
    if |path| > limits.maxDepth { return Err(Limit); }
    var view := View(Some(Folder), seen);
    assert path[..|path|] == path;
    for i := 0 to |path|
      invariant Look(storage, path[..i], seen, limits) == Ok(view)
    {
      var directory, next := path[..i], path[..i + 1];
      assert Parent(next) == directory;
      LookCarries(storage, path, seen, limits, i + 1);
      if view.node.None? { return Err(NotFound); }
      if !view.node.value.Folder? { return Err(NotDirectory); }
      var more := List(storage, directory, view.seen, limits);
      if more.Err? { return Err(more.error); }
      view := View(if next in storage then Some(storage[next]) else None, more.value);
    }
    return Ok(view);
  }

  function Child(directory: Path, name: string): Result<Path> {
    if !Safe(name) then Err(UnsafePath) else Ok(directory + [name])
  }

  // ---- the machine ----

  /** The k-th entry is staged under a random name beside its place; the portal may show paths of its own meanwhile. */
  datatype Setup = Setup(limits: Limits, recursive: bool, noOverwrite: bool, destination: Path, intoDirectory: bool,
                         staging: nat -> string, portal: nat -> set<Path>)

  datatype Body = Body(target: Path, size: nat, got: Bytes)

  datatype State = State(
    storage: Storage,
    stack: seq<Path>,
    rootEntries: nat,
    pendingTime: bool,
    body: Option<Body>,
    ended: bool,
    acks: nat,
    entries: nat,
    bytes: nat,
    records: nat,
    seen: set<Path>)

  /** Counts a record read or written. */
  function Framed(st: State, limits: Limits): Result<State> {
    if st.records + 1 > limits.maxRecords then Err(Limit) else Ok(st.(records := st.records + 1))
  }

  function Acknowledged(st: State, limits: Limits): Result<State> {
    var s :- Framed(st, limits);
    Ok(s.(acks := s.acks + 1))
  }

  /** Counts an entry and its bytes. */
  function Charged(st: State, size: nat, limits: Limits): Result<State> {
    if st.entries + 1 > limits.maxEntries || size > limits.maxFile || st.bytes + size > limits.maxSession then Err(Limit)
    else Ok(st.(entries := st.entries + 1, bytes := st.bytes + size))
  }

  /** Where an entry goes: below the open directory, or to the destination itself. */
  function Placed(setup: Setup, st: State, name: string): Result<(Path, State)> {
    if st.stack != [] then
      var p :- Child(st.stack[|st.stack| - 1], name);
      Ok((p, st))
    else
      var s := st.(rootEntries := st.rootEntries + 1);
      if !setup.intoDirectory && s.rootEntries > 1 then Err(Protocol)
      else if setup.intoDirectory then
        var p :- Child(setup.destination, name);
        Ok((p, s))
      else Ok((setup.destination, s))
  }

  /** The place of a file must be free, or hold a file that may be replaced. */
  function FileTarget(setup: Setup, st: State, path: Path): (r: Result<State>)
    ensures r != Err(Protocol)
    ensures r.Ok? ==> r.value == st.(seen := r.value.seen)
  {
    var view :- Inspect(st.storage, path, st.seen, setup.limits);
    if view.node == Some(Folder) then Err(NotDirectory)
    else if view.node.Some? && setup.noOverwrite then Err(Exists)
    else Ok(st.(seen := view.seen))
  }

  function OpenDirectory(setup: Setup, st: State, path: Path): Result<State> {
    if !setup.recursive then Err(Recursive)
    else if |st.stack| + 1 > setup.limits.maxDepth then Err(Limit)
    else
      var s :- Charged(st, 0, setup.limits);
      var before :- Inspect(s.storage, path, s.seen, setup.limits);
      if before.node.Some? && !before.node.value.Folder? then Err(NotDirectory)
      else
        var made := if before.node.None? then s.storage[path := Folder] else s.storage;
        var after :- Inspect(made, path, before.seen, setup.limits);
        Acknowledged(s.(storage := made, stack := s.stack + [path], seen := after.seen), setup.limits)
  }

  function OpenFile(setup: Setup, st: State, path: Path, size: nat): Result<State> {
    if |st.stack| + 1 > setup.limits.maxDepth then Err(Limit)
    else
      var s :- Charged(st, size, setup.limits);
      var t :- FileTarget(setup, s, path);
      Acknowledged(t.(body := Some(Body(path, size, []))), setup.limits)
  }

  /** Where a file is staged: in the directory it is published in. */
  function Staging(setup: Setup, k: nat, path: Path): Path { Parent(path) + [setup.staging(k)] }

  /** What listings show beside the storage while a file is published. */
  function Temporary(setup: Setup, k: nat, path: Path): set<Path> { {Staging(setup, k, path), path} + setup.portal(k) }

  /** The staged upload's own lookups. */
  function Uploaded(setup: Setup, st: State, path: Path): (r: Result<State>)
    ensures r != Err(Protocol)
    ensures r.Ok? ==> r.value == st.(seen := r.value.seen)
  {
    var seen := st.seen + Temporary(setup, st.entries, path);
    if PathBytes(Staging(setup, st.entries, path)) > setup.limits.maxPath then Err(UnsafePath)
    else if |seen| > setup.limits.maxEntries then Err(Limit)
    else Ok(st.(seen := seen))
  }

  /** A published file; one that was replaced in place leaves its staging file behind. */
  function Stored(setup: Setup, storage: Storage, k: nat, path: Path, bytes: Bytes): Storage {
    (if path in storage then storage[Staging(setup, k, path) := FileNode(bytes)] else storage)[path := FileNode(bytes)]
  }

  /** The file is complete: it is published at its place and acknowledged. */
  function Publish(setup: Setup, st: State): Result<State>
    requires st.body.Some?
  {
    var b := st.body.value;
    var s :- Framed(st, setup.limits);
    var t :- FileTarget(setup, s, b.target);
    var u :- Uploaded(setup, t, b.target);
    Acknowledged(u.(storage := Stored(setup, u.storage, u.entries, b.target, b.got), body := None), setup.limits)
  }

  /** What a message does while a file is being received. */
  function InBody(setup: Setup, st: State, m: Message): Result<State>
    requires st.body.Some?
  {
    var b := st.body.value;
    if m.Data? && |b.got| + |m.bytes| <= b.size then Ok(st.(body := Some(b.(got := b.got + m.bytes))))
    else if m.Zero? && |b.got| == b.size then Publish(setup, st)
    else Err(Protocol)
  }

  /** What a message does between files. */
  function AtRecord(setup: Setup, st: State, m: Message): Result<State> {
    var s :- Framed(st, setup.limits);
    match m
    case Eof => if s.stack != [] || s.pendingTime || s.rootEntries == 0 then Err(Protocol) else Ok(s.(ended := true))
    case Time => if s.pendingTime then Err(Protocol) else Acknowledged(s.(pendingTime := true), setup.limits)
    case End =>
      if s.pendingTime || s.stack == [] then Err(Protocol)
      else Acknowledged(s.(stack := s.stack[..|s.stack| - 1]), setup.limits)
    case Directory(name) =>
      var (path, t) :- Placed(setup, s.(pendingTime := false), name);
      OpenDirectory(setup, t, path)
    case Header(name, size) =>
      var (path, t) :- Placed(setup, s.(pendingTime := false), name);
      OpenFile(setup, t, path, size)
    case _ => Err(Protocol)
  }

  function Next(setup: Setup, st: State, m: Message): Result<State> {
    if st.ended then Err(Protocol)
    else if st.body.Some? then InBody(setup, st, m)
    else AtRecord(setup, st, m)
  }

  function Run(setup: Setup, st: State, messages: seq<Message>): Result<State>
    decreases |messages|
  {
    if messages == [] then Ok(st)
    else
      var s :- Next(setup, st, messages[0]);
      Run(setup, s, messages[1..])
  }

  /** A slash at the end of the command's path survives its normalization: one empty name more, except behind the root. */
  function Written(path: Path, slash: bool): Path { if slash && path != [] then path + [""] else path }

  /** Looks at the destination, which the command may demand to be a directory, and sends the first acknowledgement. */
  function Begin(storage: Storage, destination: Path, slash: bool, needsDirectory: bool, recursive: bool, noOverwrite: bool, limits: Limits,
                 staging: nat -> string, portal: nat -> set<Path>): Result<(Setup, State)>
  {
    var view :- Inspect(storage, Written(destination, slash), {}, limits);
    if (needsDirectory || slash) && view.node != Some(Folder) then Err(NotDirectory)
    else if view.node.Some? && view.node.value.FileNode? && noOverwrite then Err(Exists)
    else
      var first := State(storage, [], 0, false, None, false, 0, 0, 0, 0, view.seen);
      var st :- Acknowledged(first, limits);
      Ok((Setup(limits, recursive, noOverwrite, destination, view.node == Some(Folder), staging, portal), st))
  }

  /**
     No listing has an empty name, so a destination written with a slash at its end is refused even if it is
     a directory, unless it is the root.
   */
  lemma TrailingSlashIsRefused(storage: Storage, destination: Path, needsDirectory: bool, recursive: bool, noOverwrite: bool, limits: Limits,
                               staging: nat -> string, portal: nat -> set<Path>)
    requires destination != []
    ensures Begin(storage, destination, true, needsDirectory, recursive, noOverwrite, limits, staging, portal).Err?
  {
    var place := Written(destination, true);
    if place in storage { assert place in Children(storage, destination) && !Safe(Last(place)); }
  }

  /** The machine as the session object that holds it: one call a message. */
  class Receiver {
    const setup: Setup

    var storage: Storage
    var stack: seq<Path>
    var rootEntries: nat
    var pendingTime: bool
    var body: Option<Body>
    var ended: bool
    var acks: nat
    var entries: nat
    var bytes: nat
    var records: nat
    var seen: set<Path>
    var failure: Option<Error>

    constructor (setup: Setup, st: State)
      ensures this.setup == setup && Now() == st && failure.None?
    {
      this.setup := setup;
      storage, stack, rootEntries, pendingTime := st.storage, st.stack, st.rootEntries, st.pendingTime;
      body, ended, acks, entries, bytes, records, seen := st.body, st.ended, st.acks, st.entries, st.bytes, st.records, st.seen;
      failure := None;
    }

    ghost function Now(): State
      reads this
    {
      State(storage, stack, rootEntries, pendingTime, body, ended, acks, entries, bytes, records, seen)
    }

    method Frame() returns (ok: bool)
      modifies this`records, this`failure
      ensures match Framed(old(Now()), setup.limits)
              case Ok(st) => ok && Now() == st && failure == old(failure)
              case Err(e) => !ok && failure == Some(e)
    {
      ok := records + 1 <= setup.limits.maxRecords;
      if ok { records := records + 1; } else { failure := Some(Limit); }
    }

    method Ack() returns (ok: bool)
      modifies this`records, this`acks, this`failure
      ensures match Acknowledged(old(Now()), setup.limits)
              case Ok(st) => ok && Now() == st && failure == old(failure)
              case Err(e) => !ok && failure == Some(e)
    {
      ok := Frame();
      if ok { acks := acks + 1; }
    }

    method AcceptEntry(size: nat) returns (ok: bool)
      modifies this`entries, this`bytes, this`failure
      ensures match Charged(old(Now()), size, setup.limits)
              case Ok(st) => ok && Now() == st && failure == old(failure)
              case Err(e) => !ok && failure == Some(e)
    {
      ok := entries + 1 <= setup.limits.maxEntries && size <= setup.limits.maxFile && bytes + size <= setup.limits.maxSession;
      if ok { entries, bytes := entries + 1, bytes + size; } else { failure := Some(Limit); }
    }

    method Place(name: string) returns (target: Option<Path>)
      modifies this`rootEntries, this`failure
      ensures match Placed(setup, old(Now()), name)
              case Ok((path, st)) => target == Some(path) && Now() == st && failure == old(failure)
              case Err(e) => target.None? && failure == Some(e)
    {
      var directory := setup.destination;
      if stack != [] {
        directory := stack[|stack| - 1];
      } else {
        rootEntries := rootEntries + 1;
        if !setup.intoDirectory && rootEntries > 1 { failure := Some(Protocol); return None; }
        if !setup.intoDirectory { return Some(setup.destination); }
      }
      var child := Child(directory, name);
      if child.Err? { failure := Some(child.error); return None; }
      return Some(child.value);
    }

    method Target(path: Path) returns (ok: bool)
      modifies this`seen, this`failure
      ensures match FileTarget(setup, old(Now()), path)
              case Ok(st) => ok && Now() == st && failure == old(failure)
              case Err(e) => !ok && failure == Some(e)
    {
      ok := false;
      var view := InspectPath(storage, path, seen, setup.limits);
      if view.Err? { failure := Some(view.error); return; }
      if view.value.node == Some(Folder) { failure := Some(NotDirectory); return; }
      if view.value.node.Some? && setup.noOverwrite { failure := Some(Exists); return; }
      seen := view.value.seen;
      return true;
    }

    /** The staged upload and the publication. */
    method Upload(path: Path, content: Bytes) returns (ok: bool)
      modifies this`seen, this`storage, this`failure
      ensures match Uploaded(setup, old(Now()), path)
              case Ok(st) => ok && Now() == st.(storage := Stored(setup, old(storage), entries, path, content)) && failure == old(failure)
              case Err(e) => !ok && failure == Some(e)
    {
      ok := false;
      var staging := Staging(setup, entries, path);
      if PathBytes(staging) > setup.limits.maxPath { failure := Some(UnsafePath); return; }
      var more := seen + ({staging, path} + setup.portal(entries));
      if |more| > setup.limits.maxEntries { failure := Some(Limit); return; }
      seen := more;
      if path in storage { storage := storage[staging := FileNode(content)]; }
      storage := storage[path := FileNode(content)];
      return true;
    }

    /** One message off the stream; nothing is read after a failure. */
    method Receive(m: Message)
      requires failure.None? && !ended
      modifies this
      ensures match Next(setup, old(Now()), m)
              case Ok(st) => failure.None? && Now() == st
              case Err(e) => failure == Some(e)
    {
      if body.Some? { ReceiveInBody(m); } else { ReceiveRecord(m); }
    }

    method ReceiveInBody(m: Message)
      requires failure.None? && body.Some?
      modifies this
      ensures match InBody(setup, old(Now()), m)
              case Ok(st) => failure.None? && Now() == st
              case Err(e) => failure == Some(e)
    {
      hide FileTarget, Uploaded, Stored;
      var b := body.value;
      if m.Data? && |b.got| + |m.bytes| <= b.size {
        body := Some(b.(got := b.got + m.bytes));
      } else if m.Zero? && |b.got| == b.size {
        var ok := Frame();
        if !ok { return; }
        ok := Target(b.target);
        if !ok { return; }
        ok := Upload(b.target, b.got);
        if !ok { return; }
        body := None;
        ok := Ack();
      } else {
        failure := Some(Protocol);
      }
    }

    method ReceiveRecord(m: Message)
      requires failure.None? && body.None?
      modifies this
      ensures match AtRecord(setup, old(Now()), m)
              case Ok(st) => failure.None? && Now() == st
              case Err(e) => failure == Some(e)
    {
      hide Placed, OpenDirectory, OpenFile;
      var ok := Frame();
      if !ok { return; }
      match m {
        case Eof =>
          if stack != [] || pendingTime || rootEntries == 0 { failure := Some(Protocol); } else { ended := true; }
        case Time =>
          if pendingTime { failure := Some(Protocol); return; }
          pendingTime := true;
          ok := Ack();
        case End =>
          if pendingTime || stack == [] { failure := Some(Protocol); return; }
          stack := stack[..|stack| - 1];
          ok := Ack();
        case Directory(name) =>
          pendingTime := false;
          var target := Place(name);
          if target.Some? { Enter(target.value); }
        case Header(name, size) =>
          pendingTime := false;
          var target := Place(name);
          if target.Some? { Expect(target.value, size); }
        case _ => failure := Some(Protocol);
      }
    }

    method Enter(path: Path)
      requires failure.None?
      modifies this
      ensures match OpenDirectory(setup, old(Now()), path)
              case Ok(st) => failure.None? && Now() == st
              case Err(e) => failure == Some(e)
    {
      if !setup.recursive { failure := Some(Recursive); return; }
      if |stack| + 1 > setup.limits.maxDepth { failure := Some(Limit); return; }
      var ok := AcceptEntry(0);
      if !ok { return; }
      var before := InspectPath(storage, path, seen, setup.limits);
      if before.Err? { failure := Some(before.error); return; }
      if before.value.node.Some? && !before.value.node.value.Folder? { failure := Some(NotDirectory); return; }
      if before.value.node.None? { storage := storage[path := Folder]; }
      var after := InspectPath(storage, path, before.value.seen, setup.limits);
      if after.Err? { failure := Some(after.error); return; }
      seen, stack := after.value.seen, stack + [path];
      ok := Ack();
    }

    method Expect(path: Path, size: nat)
      requires failure.None?
      modifies this
      ensures match OpenFile(setup, old(Now()), path, size)
              case Ok(st) => failure.None? && Now() == st
              case Err(e) => failure == Some(e)
    {
      if |stack| + 1 > setup.limits.maxDepth { failure := Some(Limit); return; }
      var ok := AcceptEntry(size);
      if !ok { return; }
      ok := Target(path);
      if !ok { return; }
      body := Some(Body(path, size, []));
      ok := Ack();
    }
  }
}
