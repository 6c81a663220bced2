/**
 The sending side of a legacy SCP download, and the two sides run against each other: every
 interleaving of their steps finishes with the whole tree delivered.
 */
module ScpTransfer {
  import opened Basics
  import opened ScpReceiver
  import opened ScpTree
  import opened ScpRebuild
  import P = ScpProtocol

  const CHUNK: nat := 65536

  /** The remote files as they are found and read: each in its directory, a file's bytes in blocks of any size. */
  datatype Source =
    | Nothing
    | SourceFile(directory: Path, name: string, size: nat, blocks: seq<Bytes>, next: Source)
    | SourceFolder(directory: Path, name: string, children: Source, next: Source)
  {
    function At(): Path requires !Nothing? { directory + [name] }
  }

  function CutBlock(block: Bytes): (parts: seq<Bytes>)
    ensures forall i | 0 <= i < |parts| :: 0 < |parts[i]| <= CHUNK
    decreases |block|
  {
    if block == [] then [] else if |block| <= CHUNK then [block] else [block[..CHUNK]] + CutBlock(block[CHUNK..])
  }

  /** The payload writes of a file. */
  function Parts(blocks: seq<Bytes>): seq<Bytes> {
    if blocks == [] then [] else CutBlock(blocks[0]) + Parts(blocks[1..])
  }

  lemma {:induction false} CutBlockKeeps(block: Bytes)
    ensures Flatten(CutBlock(block)) == block
    decreases |block|
  {
    if block != [] {
      if |block| <= CHUNK {
        FlattenOne(block);
      } else {
        CutBlockKeeps(block[CHUNK..]);
        FlattenCons(block[..CHUNK], CutBlock(block[CHUNK..]));
        assert block == block[..CHUNK] + block[CHUNK..];
      }
    }
  }

  lemma {:induction false} PartsKeep(blocks: seq<Bytes>)
    ensures Flatten(Parts(blocks)) == Flatten(blocks)
  {
    if blocks != [] {
      PartsKeep(blocks[1..]);
      CutBlockKeeps(blocks[0]);
      FlattenAppend(CutBlock(blocks[0]), Parts(blocks[1..]));
    }
  }

  /** The forest a source is sent as; with times only if the client asked for them. */
  function Sent(s: Source, preserve: bool): Forest {
    match s
    case Nothing => Empty
    case SourceFile(_, name, _, blocks, next) => File(preserve, name, Parts(blocks), Sent(next, preserve))
    case SourceFolder(_, name, children, next) => Dir(preserve, name, Sent(children, preserve), Sent(next, preserve))
  }

  /** The node listed at a path below the source. */
  function Listed(s: Source, path: Path): Option<Node>
    decreases s
  {
    if s.Nothing? || path == [] then None
    else if path[0] != s.name then Listed(s.next, path)
    else
      match s
      case SourceFile(_, _, _, blocks, _) => if |path| == 1 then Some(FileNode(Flatten(blocks))) else None
      case SourceFolder(_, _, children, _) => if |path| == 1 then Some(Folder) else Listed(children, path[1..])
  }

  /** What is sent is what is listed: the same names, the same shape, the same bytes. */
  lemma {:induction false} SentIsListed(s: Source, preserve: bool, path: Path)
    ensures Lookup(Sent(s, preserve), path) == Listed(s, path)
    decreases s
  {
    hide Flatten;
    match s {
      case Nothing =>
      case SourceFile(_, _, _, blocks, next) =>
        PartsKeep(blocks);
        SentIsListed(next, preserve, path);
      case SourceFolder(_, _, children, next) =>
        SentIsListed(next, preserve, path);
        if |path| > 1 { SentIsListed(children, preserve, path[1..]); }
    }
  }

  // ---- what the sender looks at ----

  function Paths(s: Source): set<Path> {
    if s.Nothing? then {} else {s.At()} + Paths(s.next)
  }

  predicate AllIn(s: Source, directory: Path) { s.Nothing? || (s.directory == directory && AllIn(s.next, directory)) }

  /** The source is what lookups and listings of the storage find. */
  predicate Mirrors(storage: Storage, s: Source)
    decreases s, 1
  {
    s.Nothing? || (MirrorsHead(storage, s) && Mirrors(storage, s.next))
  }

  predicate MirrorsHead(storage: Storage, s: Source)
    requires !s.Nothing?
    decreases s, 0
  {
    match s
    case SourceFile(_, _, size, _, _) =>
      var node := Walk(storage, s.At());
      node.Ok? && node.value.Some? && node.value.value.FileNode? && |node.value.value.bytes| == size
    case SourceFolder(_, _, children, _) =>
      && Walk(storage, s.At()) == Ok(Some(Folder)) && Children(storage, s.At()) == Paths(children)
      && AllIn(children, s.At()) && Mirrors(storage, children)
  }

  /** All that is listed while a source is sent. */
  function Looked(storage: Storage, s: Source): set<Path>
    decreases s, 1
  {
    if s.Nothing? then {} else LookedHead(storage, s) + Looked(storage, s.next)
  }

  function LookedHead(storage: Storage, s: Source): set<Path>
    requires !s.Nothing?
    decreases s, 0
  {
    Listing(storage, s.At()) + if s.SourceFile? then {} else Children(storage, s.At()) + Looked(storage, s.children)
  }

  /** Every path is short and shallow enough. */
  predicate Reachable(limits: Limits, s: Source)
    decreases s, 1
  {
    s.Nothing? || (ReachableHead(limits, s) && Reachable(limits, s.next))
  }

  predicate ReachableHead(limits: Limits, s: Source)
    requires !s.Nothing?
    decreases s, 0
  {
    PathBytes(s.At()) <= limits.maxPath && |s.At()| <= limits.maxDepth && (s.SourceFolder? ==> Reachable(limits, s.children))
  }

  /** What the session has listed, and what these listings add, is safe and not too much. */
  predicate Sees(limits: Limits, seen: set<Path>, more: set<Path>) { Legible(more) && |seen + more| <= limits.maxEntries }

  lemma SeesPart(limits: Limits, seen: set<Path>, more: set<Path>, part: set<Path>)
    requires Sees(limits, seen, more) && part <= more
    ensures Sees(limits, seen, part)
  {
    SubsetSize(seen + part, seen + more);
    assert forall p | p in part :: p in more;
  }

  /** What has been listed counts once. */
  lemma SeesRest(limits: Limits, seen: set<Path>, first: set<Path>, rest: set<Path>)
    ensures seen + first + rest == seen + (first + rest)
    ensures Sees(limits, seen, first + rest) ==> Sees(limits, seen, first) && Sees(limits, seen + first, rest)
  {
    if Sees(limits, seen, first + rest) {
      SeesPart(limits, seen, first + rest, first);
      SeesPart(limits, seen, first + rest, rest);
      assert seen + first + rest == seen + (first + rest);
    }
  }

  lemma {:induction false} AroundInStorage(storage: Storage, dir: Path)
    ensures Around(storage, dir) <= storage.Keys
    decreases |dir|
  {
    if dir != [] { AroundInStorage(storage, Parent(dir)); }
  }

  /** Nothing is listed but what is stored: the size of the whole storage bounds it. */
  lemma {:induction false} LookedInStorage(storage: Storage, s: Source)
    ensures Looked(storage, s) <= storage.Keys
    decreases s
  {
    if !s.Nothing? {
      AroundInStorage(storage, Parent(s.At()));
      LookedInStorage(storage, s.next);
      if s.SourceFolder? { LookedInStorage(storage, s.children); }
    }
  }

  // ---- what the sender does ----

  datatype Action = Send(m: Message) | Await

  function Asked(m: Message): seq<Action> { [Send(m), Await] }

  function Payload(parts: seq<Bytes>): seq<Action> {
    if parts == [] then [] else [Send(Data(parts[0]))] + Payload(parts[1..])
  }

  function TimeActions(time: bool): seq<Action> { if time then Asked(Time) else [] }

  function FileActions(name: string, parts: seq<Bytes>): seq<Action> {
    Asked(Header(name, |Flatten(parts)|)) + (Payload(parts) + Asked(Zero))
  }

  function Actions(f: Forest): seq<Action> {
    match f
    case Empty => []
    case File(time, name, parts, next) => TimeActions(time) + (FileActions(name, parts) + Actions(next))
    case Dir(time, name, children, next) => TimeActions(time) + (Asked(Directory(name)) + (Actions(children) + (Asked(End) + Actions(next))))
  }

  lemma {:induction false} PayloadAppend(a: seq<Bytes>, b: seq<Bytes>)
    ensures Payload(a + b) == Payload(a) + Payload(b)
  {
    if a == [] {
      Neutral(b);
      Neutral(Payload(b));
    } else {
      HeadTail(a, b);
      Split([a[0]], a[1..] + b);
      PayloadAppend(a[1..], b);
      Assoc([Send(Data(a[0]))], Payload(a[1..]), Payload(b));
    }
  }

  lemma PayloadOne(part: Bytes)
    ensures Payload([part]) == [Send(Data(part))]
  {
    assert [part][1..] == [];
  }

  lemma PartsAppendOne(blocks: seq<Bytes>, i: nat)
    requires i < |blocks|
    ensures Parts(blocks[i..]) == CutBlock(blocks[i]) + Parts(blocks[i + 1..])
  {
    assert blocks[i..][1..] == blocks[i + 1..];
  }

  class Sender {
    const limits: Limits
    const recursive: bool
    const preserve: bool
    const storage: Storage   // the remote files, which do not change meanwhile

    var log: seq<Action>     // what was written and read so far
    var entries: nat
    var bytes: nat
    var records: nat
    var seen: set<Path>      // what listings have shown, the expansion of the command's pattern included

    constructor (limits: Limits, recursive: bool, preserve: bool, storage: Storage, seen: set<Path>)
      ensures this.limits == limits && this.recursive == recursive && this.preserve == preserve && this.storage == storage
      ensures log == [] && entries == 0 && bytes == 0 && records == 0 && this.seen == seen
    {
      this.limits, this.recursive, this.preserve, this.storage := limits, recursive, preserve, storage;
      log, entries, bytes, records, this.seen := [], 0, 0, 0, seen;
    }

    /** Looks a source up again: it must still be there and be what it was. */
    method Confirm(source: Source) returns (error: Option<Error>)
      requires !source.Nothing?
      modifies this`seen
      ensures error.None? ==> seen == old(seen) + Listing(storage, source.At())
      ensures MirrorsHead(storage, source) && ReachableHead(limits, source) && Sees(limits, old(seen), Listing(storage, source.At())) ==> error.None?
    {
      hide Listing, Legible, Walk, Look;
      var view := InspectPath(storage, source.At(), seen, limits);
      if MirrorsHead(storage, source) && ReachableHead(limits, source) && Sees(limits, seen, Listing(storage, source.At())) {
        InspectSees(storage, source.At(), seen, limits);
      }
      if view.Err? { return Some(view.error); }
      LookFound(storage, source.At(), seen, limits);
      if view.value.node.None? { return Some(NotFound); }
      var node := view.value.node.value;
      if node.Folder? != source.SourceFolder? || (node.FileNode? && |node.bytes| != source.size) { return Some(Metadata); }
      seen := view.value.seen;
      return None;
    }

    method ListFolder(folder: Path) returns (error: Option<Error>)
      modifies this`seen
      ensures error.None? ==> seen == old(seen) + Children(storage, folder)
      ensures error.None? <==> Sees(limits, old(seen), Children(storage, folder))
    {
      var more := List(storage, folder, seen, limits);
      if more.Err? { return Some(more.error); }
      seen := more.value;
      return None;
    }

    /** Writes a record and reads its acknowledgement. */
    method Ask(m: Message) returns (error: Option<Error>)
      modifies this`log, this`records
      ensures error.None? ==> log == old(log) + Asked(m) && records == old(records) + 2
      ensures old(records) + 2 <= limits.maxRecords ==> error.None?
    {
      records := records + 1;
      if records > limits.maxRecords { return Some(Limit); }
      log := log + [Send(m)];
      records := records + 1;
      if records > limits.maxRecords { return Some(Limit); }
      log := log + [Await];
      return None;
    }

    method AcceptEntry(size: nat) returns (error: Option<Error>)
      modifies this`entries, this`bytes
      ensures error.None? <==> old(entries) + 1 <= limits.maxEntries && size <= limits.maxFile && old(bytes) + size <= limits.maxSession
      ensures error.None? ==> entries == old(entries) + 1 && bytes == old(bytes) + size
    {
      entries := entries + 1;
      if entries > limits.maxEntries || size > limits.maxFile || bytes + size > limits.maxSession { return Some(Limit); }
      bytes := bytes + size;
      return None;
    }

    method SendTime() returns (error: Option<Error>)
      modifies this`log, this`records
      ensures error.None? ==> log == old(log) + TimeActions(preserve) && records == old(records) + |TimeActions(preserve)|
      ensures old(records) + |TimeActions(preserve)| <= limits.maxRecords ==> error.None?
    {
      if !preserve {
        Neutral(log);
        return None;
      }
      error := Ask(Time);
    }

    /** One block of the body, in writes of bounded size. */
    method SendBlock(block: Bytes)
      modifies this`log
      ensures log == old(log) + Payload(CutBlock(block))
    {
      hide Payload;
      var offset := 0;
      Neutral(log);
      PayloadNothing();
      assert block[0..] == block;
      while offset < |block|
        invariant 0 <= offset <= |block|
        invariant log + Payload(CutBlock(block[offset..])) == old(log) + Payload(CutBlock(block))
      {
        var end := Min(offset + CHUNK, |block|);
        var part := block[offset..end];
        CutFront(block[offset..]);
        assert block[offset..][..end - offset] == part && block[offset..][end - offset..] == block[end..];
        PayloadAppend([part], CutBlock(block[end..]));
        PayloadOne(part);
        Assoc(log, [Send(Data(part))], Payload(CutBlock(block[end..])));
        log := log + [Send(Data(part))];
        offset := end;
      }
      assert block[offset..] == [];
      Neutral(log);
    }

    /** The blocks of a body, which must come to exactly the announced size. */
    method SendBody(size: nat, blocks: seq<Bytes>) returns (error: Option<Error>)
      modifies this`log
      ensures error.None? <==> |Flatten(blocks)| == size
      ensures error.None? ==> log == old(log) + Payload(Parts(blocks))
    {
      hide Payload, CutBlock, Flatten;
      var done := 0;
      Neutral(log);
      PayloadNothing();
      assert blocks[0..] == blocks;
      for i := 0 to |blocks|
        invariant done <= size && done + |Flatten(blocks[i..])| == |Flatten(blocks)|
        invariant log + Payload(Parts(blocks[i..])) == old(log) + Payload(Parts(blocks))
      {
        FlattenHead(blocks[i..]);
        assert blocks[i..][1..] == blocks[i + 1..];
        if done + |blocks[i]| > size { return Some(Metadata); }
        PartsAppendOne(blocks, i);
        PayloadAppend(CutBlock(blocks[i]), Parts(blocks[i + 1..]));
        Assoc(log, Payload(CutBlock(blocks[i])), Payload(Parts(blocks[i + 1..])));
        SendBlock(blocks[i]);
        done := done + |blocks[i]|;
      }
      assert blocks[|blocks|..] == [];
      FlattenHead<Byte>([]);
      Neutral(log);
      if done != size { return Some(Metadata); }
      return None;
    }

    method SendFile(source: Source) returns (error: Option<Error>)
      requires source.SourceFile?
      modifies this
      ensures error.None? ==>
        && source.size == |Flatten(source.blocks)| && log == old(log) + (TimeActions(preserve) + FileActions(source.name, Parts(source.blocks)))
        && entries == old(entries) + 1 && bytes == old(bytes) + source.size && records == old(records) + |TimeActions(preserve)| + 4
        && seen == old(seen) + Listing(storage, source.At())
      ensures (&& source.size == |Flatten(source.blocks)| && old(entries) + 1 <= limits.maxEntries && source.size <= limits.maxFile
               && old(bytes) + source.size <= limits.maxSession && old(records) + |TimeActions(preserve)| + 4 <= limits.maxRecords
               && MirrorsHead(storage, source) && ReachableHead(limits, source) && Sees(limits, old(seen), Listing(storage, source.At()))) ==> error.None?
    {
      hide Payload, Parts, Flatten, TimeActions, Asked, Listing, MirrorsHead, ReachableHead, Sees;
      PartsKeep(source.blocks);
      var refused := AcceptEntry(source.size);
      if refused.Some? { return refused; }
      refused := Confirm(source);
      if refused.Some? { return refused; }
      refused := SendTime();
      if refused.Some? { return refused; }
      refused := Ask(Header(source.name, source.size));
      if refused.Some? { return refused; }
      refused := SendBody(source.size, source.blocks);
      if refused.Some? { return refused; }
      SeenAgain(limits, old(seen), Listing(storage, source.At()));
      refused := Confirm(source);
      if refused.Some? { return refused; }
      refused := Ask(Zero);
      if refused.Some? { return refused; }
      FileLog(old(log), TimeActions(preserve), source.name, Parts(source.blocks));
      return None;
    }

    ghost predicate Advanced(log: seq<Action>, entries: nat, bytes: nat, records: nat, f: Forest)
      reads this
    {
      && this.log == log + Actions(f) && this.entries == entries + Count(f)
      && this.bytes == bytes + Total(f) && this.records == records + 2 * Acks(f)
    }

    /** What is left of the entries would bring the sender where all of them would have. */
    ghost predicate Leads(log: seq<Action>, entries: nat, bytes: nat, records: nat, all: Forest, rest: Forest)
      reads this
    {
      && this.log + Actions(rest) == log + Actions(all) && this.entries + Count(rest) == entries + Count(all)
      && this.bytes + Total(rest) == bytes + Total(all) && this.records + 2 * Acks(rest) == records + 2 * Acks(all)
    }

    ghost predicate CanSend(depth: nat, f: Forest)
      reads this
    {
      Fits(limits, recursive, entries, bytes, records, depth, f)
    }

    /** The sender's own limits, and those of its listings, are enough for the first entry of a source. */
    ghost predicate CanSendHead(depth: nat, source: Source)
      requires !source.Nothing?
      reads this
    {
      && HonestHead(source) && CanSend(depth, Head(Sent(source, preserve)))
      && ReachableHead(limits, source) && Sees(limits, seen, LookedHead(storage, source))
    }

    ghost predicate CanSendAll(depth: nat, source: Source)
      reads this
    {
      Affords(limits, recursive, storage, entries, bytes, records, seen, depth, source, preserve)
    }

    /** One entry with everything below it. */
    method SendEntry(source: Source, depth: nat) returns (error: Option<Error>)
      requires !source.Nothing? && depth > 0 && MirrorsHead(storage, source)
      modifies this
      ensures error.None? ==> HonestHead(source) && Advanced(old(log), old(entries), old(bytes), old(records), Head(Sent(source, preserve)))
      ensures error.None? ==> seen == old(seen) + LookedHead(storage, source)
      ensures old(CanSendHead(depth, source)) ==> error.None?
      decreases Size(source), 0
    {
      hide TimeActions, Asked, Flatten, Payload, Actions, Height, Count, Total, Acks, FilesFit, HasDir, Honest, Listing, Children, Sees, Mirrors, Walk, PathBytes, Looked;
      ghost var f := Head(Sent(source, preserve));
      HeadIsOne(f);
      if depth > limits.maxDepth { return Some(Limit); }
      LooksFirst(storage, source, limits, seen);
      error := Confirm(source);
      if error.Some? { return; }
      match source {
        case SourceFile(_, name, size, blocks, _) =>
          PartsKeep(blocks);
          FileCosts(preserve, name, Parts(blocks));
          error := SendFile(source);
        case SourceFolder(_, name, children, _) =>
          DirCosts(preserve, name, Sent(children, preserve));
          if !recursive { return Some(Recursive); }
          error := SendFolder(source, depth);
      }
    }

    /** A folder, once looked up: its record, its listing and what that shows, and its end. */
    method SendFolder(source: Source, depth: nat) returns (error: Option<Error>)
      requires recursive && source.SourceFolder? && MirrorsHead(storage, source)
      modifies this
      ensures error.None? ==> Honest(source.children)
      ensures error.None? ==> Advanced(old(log), old(entries), old(bytes), old(records), Dir(preserve, source.name, Sent(source.children, preserve), Empty))
      ensures error.None? ==> seen == old(seen) + FolderLooks(storage, source)
      ensures (Honest(source.children) && old(CanSend(depth, Dir(preserve, source.name, Sent(source.children, preserve), Empty)))
               && ReachableHead(limits, source) && Sees(limits, old(seen), FolderLooks(storage, source))) ==> error.None?
      decreases Size(source.children), 2
    {
      hide TimeActions, Asked, Actions, Height, Count, Total, Acks, FilesFit, HasDir, Honest, Listing, Children, Sees, Mirrors, Walk, PathBytes, Looked;
      ghost var below := Sent(source.children, preserve);
      DirCosts(preserve, source.name, below);
      FolderSees(storage, source, limits, seen);
      error := AcceptEntry(0);
      if error.Some? { return; }
      error := SendTime();
      if error.Some? { return; }
      error := Ask(Directory(source.name));
      if error.Some? { return; }
      error := ListFolder(source.At());
      if error.Some? { return; }
      error := SendEntries(source.children, depth + 1);
      if error.Some? { return; }
      error := Confirm(source);
      if error.Some? { return; }
      error := Ask(End);
      if error.Some? { return; }
      DirLog(old(log), preserve, source.name, below);
    }

    /** Entries one behind the other. */
    method SendEntries(source: Source, depth: nat) returns (error: Option<Error>)
      requires depth > 0 && Mirrors(storage, source)
      modifies this
      ensures error.None? ==> Honest(source) && Advanced(old(log), old(entries), old(bytes), old(records), Sent(source, preserve))
      ensures error.None? ==> seen == old(seen) + Looked(storage, source)
      ensures old(CanSendAll(depth, source)) ==> error.None?
      decreases Size(source), 1
    {
      hide Actions, Fits, Count, Total, Acks, Honest, HonestHead, MirrorsHead, ReachableHead, LookedHead, Looked, Sees, Affords, Sent, Mirrors;
      HonestStep(Nothing);
      SentStep(Nothing, preserve);
      var rest := source;
      error := None;
      while !rest.Nothing?
        invariant error.None? && Size(rest) <= Size(source) && (Honest(rest) <==> Honest(source)) && Mirrors(storage, rest)
        invariant Leads(old(log), old(entries), old(bytes), old(records), Sent(source, preserve), Sent(rest, preserve))
        invariant seen + Looked(storage, rest) == old(seen) + Looked(storage, source)
        invariant old(CanSendAll(depth, source)) ==> CanSendAll(depth, rest)
        decreases Size(rest)
      {
        ghost var f := Sent(rest, preserve);
        ghost var log0 := log;
        SentStep(rest, preserve);
        HeadSums(f);
        LookedStep(storage, rest, seen);
        HonestStep(rest);
        MirrorsStep(storage, rest);
        if CanSendAll(depth, rest) { AffordsHead(limits, recursive, storage, entries, bytes, records, seen, depth, rest, preserve); }
        error := SendEntry(rest, depth);
        if error.Some? { return; }
        LogLeads(old(log), log0, log, Sent(source, preserve), f);
        rest := rest.next;
      }
      EmptyCosts();
      Neutral(log);
      NothingLooked(storage, seen);
    }
  }

  lemma NothingLooked(storage: Storage, seen: set<Path>)
    ensures seen + Looked(storage, Nothing) == seen
  {
  }

  predicate Affords(limits: Limits, recursive: bool, storage: Storage, entries: nat, bytes: nat, records: nat, seen: set<Path>,
                    depth: nat, s: Source, preserve: bool)
  {
    && Honest(s) && Fits(limits, recursive, entries, bytes, records, depth, Sent(s, preserve))
    && Reachable(limits, s) && Sees(limits, seen, Looked(storage, s))
  }

  lemma HeadSums(f: Forest)
    requires !f.Empty?
    ensures Count(f) == Count(Head(f)) + Count(f.next) && Total(f) == Total(Head(f)) + Total(f.next) && Acks(f) == Acks(Head(f)) + Acks(f.next)
  {
    HeadCosts(f);
  }

  /** The log behind the first entry leads where the log before it did. */
  lemma LogLeads(start: seq<Action>, before: seq<Action>, after: seq<Action>, all: Forest, f: Forest)
    requires !f.Empty? && before + Actions(f) == start + Actions(all) && after == before + Actions(Head(f))
    ensures after + Actions(f.next) == start + Actions(all)
  {
    hide Actions;
    HeadCosts(f);
    Assoc(before, Actions(Head(f)), Actions(f.next));
  }

  lemma SentStep(s: Source, preserve: bool)
    ensures if s.Nothing? then Sent(s, preserve) == Empty else !Sent(s, preserve).Empty? && Sent(s, preserve).next == Sent(s.next, preserve)
  {
  }

  lemma MirrorsStep(storage: Storage, s: Source)
    ensures Mirrors(storage, s) <==> s.Nothing? || (MirrorsHead(storage, s) && Mirrors(storage, s.next))
  {
  }

  lemma HonestStep(s: Source)
    ensures Honest(s) <==> s.Nothing? || (HonestHead(s) && Honest(s.next))
  {
  }

  lemma LookedStep(storage: Storage, s: Source, seen: set<Path>)
    requires !s.Nothing?
    ensures seen + Looked(storage, s) == seen + LookedHead(storage, s) + Looked(storage, s.next)
  {
    hide LookedHead;
  }

  /** Limits that are enough for a source are enough for its first entry, and then for the rest. */
  lemma AffordsHead(limits: Limits, recursive: bool, storage: Storage, entries: nat, bytes: nat, records: nat, seen: set<Path>,
                    depth: nat, s: Source, preserve: bool)
    requires !s.Nothing? && Affords(limits, recursive, storage, entries, bytes, records, seen, depth, s, preserve)
    ensures var f := Head(Sent(s, preserve));
            && HonestHead(s) && Fits(limits, recursive, entries, bytes, records, depth, f)
            && ReachableHead(limits, s) && Sees(limits, seen, LookedHead(storage, s))
            && Affords(limits, recursive, storage, entries + Count(f), bytes + Total(f), records + 2 * Acks(f), seen + LookedHead(storage, s),
                       depth, s.next, preserve)
  {
    hide LookedHead, ReachableHead, HonestHead, Sees, Height, Count, Total, Acks, FilesFit, HasDir, Actions;
    HeadCosts(Sent(s, preserve));
    SeesRest(limits, seen, LookedHead(storage, s), Looked(storage, s.next));
  }

  /** What a folder's listing and its entries show, and the look at it behind them. */
  function FolderLooks(storage: Storage, s: Source): set<Path>
    requires s.SourceFolder?
  {
    Children(storage, s.At()) + Looked(storage, s.children) + Listing(storage, s.At())
  }

  lemma FolderSees(storage: Storage, s: Source, limits: Limits, seen: set<Path>)
    requires s.SourceFolder?
    ensures var a, b, c := Children(storage, s.At()), Looked(storage, s.children), Listing(storage, s.At());
            && seen + a + b + c == seen + FolderLooks(storage, s)
            && (Sees(limits, seen, FolderLooks(storage, s)) ==> Sees(limits, seen, a) && Sees(limits, seen + a, b) && Sees(limits, seen + a + b, c))
  {
    hide Children, Looked, Listing, Sees;
    var a, b, c := Children(storage, s.At()), Looked(storage, s.children), Listing(storage, s.At());
    SeesRest(limits, seen, a + b, c);
    SeesRest(limits, seen, a, b);
  }

  /** A first look, and then what the entry itself looks at, is all of it. */
  lemma LooksFirst(storage: Storage, s: Source, limits: Limits, seen: set<Path>)
    requires !s.Nothing?
    ensures var a := Listing(storage, s.At()); var b := if s.SourceFile? then a else FolderLooks(storage, s);
            && seen + a + b == seen + LookedHead(storage, s)
            && (Sees(limits, seen, LookedHead(storage, s)) ==> Sees(limits, seen, a) && Sees(limits, seen + a, b))
  {
    hide Children, Looked, Listing, Sees;
    var a := Listing(storage, s.At());
    var b := if s.SourceFile? then a else FolderLooks(storage, s);
    assert a + b == LookedHead(storage, s);
    SeesRest(limits, seen, a, b);
  }

  /** A whole download: a look at every root, the client's first acknowledgement, then every root. */
  method Download(sender: Sender, source: Source) returns (error: Option<Error>)
    requires Mirrors(sender.storage, source)
    modifies sender
    ensures error.None? ==> Honest(source) && sender.log == old(sender.log) + ([Await] + Actions(Sent(source, sender.preserve)))
    ensures error.None? ==> sender.seen == old(sender.seen) + Looked(sender.storage, source)
    ensures (Honest(source) && old(sender.records) + 1 <= sender.limits.maxRecords
             && Fits(sender.limits, sender.recursive, old(sender.entries), old(sender.bytes), old(sender.records) + 1, 1, Sent(source, sender.preserve))
             && Reachable(sender.limits, source) && Sees(sender.limits, old(sender.seen), Looked(sender.storage, source)))
            ==> error.None?
  {
    hide Actions, Fits, Honest, Looked, Sees, Reachable, Mirrors, RootLooks, HasFolder, Sent, Count, Total, Acks, Size;
    RootFoldersNeedRecursion(sender.limits, sender.recursive, old(sender.entries), old(sender.bytes), old(sender.records) + 1, source, sender.preserve);
    error := LookAtRoots(sender, source);
    if error.Some? { return; }
    if !sender.recursive && HasFolder(source) { return Some(Recursive); }
    sender.records := sender.records + 1;
    if sender.records > sender.limits.maxRecords { return Some(Limit); }
    sender.log := sender.log + [Await];
    LooksAgain(sender.limits, old(sender.seen), RootLooks(sender.storage, source), Looked(sender.storage, source));
    error := sender.SendEntries(source, 1);
    Assoc(old(sender.log), [Await], Actions(Sent(source, sender.preserve)));
  }

  function RootLooks(storage: Storage, s: Source): set<Path> {
    if s.Nothing? then {} else Listing(storage, s.At()) + RootLooks(storage, s.next)
  }

  lemma {:induction false} RootLooksPart(storage: Storage, s: Source)
    ensures RootLooks(storage, s) <= Looked(storage, s)
  {
    hide Listing, Children;
    if !s.Nothing? { RootLooksPart(storage, s.next); }
  }

  lemma LooksAgain(limits: Limits, seen: set<Path>, part: set<Path>, more: set<Path>)
    requires part <= more
    ensures seen + part + more == seen + more
    ensures Sees(limits, seen, more) ==> Sees(limits, seen + part, more)
  {
    assert seen + part + more == seen + more;
  }

  /** The roots as the expansion of the command finds them. */
  method LookAtRoots(sender: Sender, source: Source) returns (error: Option<Error>)
    requires Mirrors(sender.storage, source)
    modifies sender`seen
    ensures error.None? ==> sender.seen == old(sender.seen) + RootLooks(sender.storage, source)
    ensures RootLooks(sender.storage, source) <= Looked(sender.storage, source)
    ensures Reachable(sender.limits, source) && Sees(sender.limits, old(sender.seen), Looked(sender.storage, source)) ==> error.None?
  {
    hide Looked, Sees, MirrorsHead, ReachableHead, Listing;
    RootLooksPart(sender.storage, source);
    ghost var can := Reachable(sender.limits, source) && Sees(sender.limits, sender.seen, Looked(sender.storage, source));
    if can { SeesPart(sender.limits, sender.seen, Looked(sender.storage, source), RootLooks(sender.storage, source)); }
    var rest := source;
    error := None;
    while !rest.Nothing?
      invariant error.None? && Mirrors(sender.storage, rest)
      invariant sender.seen + RootLooks(sender.storage, rest) == old(sender.seen) + RootLooks(sender.storage, source)
      invariant can ==> Reachable(sender.limits, rest) && Sees(sender.limits, sender.seen, RootLooks(sender.storage, rest))
      decreases Size(rest)
    {
      SeesRest(sender.limits, sender.seen, Listing(sender.storage, rest.At()), RootLooks(sender.storage, rest.next));
      error := sender.Confirm(rest);
      if error.Some? { return; }
      rest := rest.next;
    }
  }

  predicate HasFolder(s: Source) {
    match s
    case Nothing => false
    case SourceFile(_, _, _, _, next) => HasFolder(next)
    case SourceFolder(_, _, _, _) => true
  }

  lemma {:induction false} FolderIsDir(s: Source, preserve: bool)
    ensures HasFolder(s) <==> HasDir(Sent(s, preserve))
  {
    if s.SourceFile? { FolderIsDir(s.next, preserve); }
  }

  lemma RootFoldersNeedRecursion(limits: Limits, recursive: bool, entries: nat, bytes: nat, records: nat, s: Source, preserve: bool)
    ensures Fits(limits, recursive, entries, bytes, records, 1, Sent(s, preserve)) && HasFolder(s) ==> recursive
  {
    FolderIsDir(s, preserve);
  }

  function Size(s: Source): nat {
    match s
    case Nothing => 0
    case SourceFile(_, _, _, _, next) => 1 + Size(next)
    case SourceFolder(_, _, children, next) => 1 + Size(children) + Size(next)
  }

  /** The bytes read are as many as were listed. */
  predicate Honest(s: Source)
    decreases s, 1
  {
    s.Nothing? || (HonestHead(s) && Honest(s.next))
  }

  predicate HonestHead(s: Source)
    requires !s.Nothing?
    decreases s, 0
  {
    match s
    case SourceFile(_, _, size, blocks, _) => size == |Flatten(blocks)|
    case SourceFolder(_, _, children, _) => Honest(children)
  }

  /** A second look shows nothing new. */
  lemma SeenAgain(limits: Limits, seen: set<Path>, more: set<Path>)
    ensures seen + more + more == seen + more && (Sees(limits, seen, more) ==> Sees(limits, seen + more, more))
  {
    assert seen + more + more == seen + more;
  }

  function Head(f: Forest): Forest
    requires !f.Empty?
  {
    f.(next := Empty)
  }

  /** The sender's limits that are left are enough for entries at a depth. */
  predicate Fits(limits: Limits, recursive: bool, entries: nat, bytes: nat, records: nat, depth: nat, f: Forest) {
    && depth + Height(f) <= limits.maxDepth + 1 && entries + Count(f) <= limits.maxEntries
    && FilesFit(f, limits.maxFile) && bytes + Total(f) <= limits.maxSession
    && records + 2 * Acks(f) <= limits.maxRecords && (HasDir(f) ==> recursive)
  }

  lemma EmptyCosts()
    ensures Actions(Empty) == [] && Count(Empty) == 0 && Total(Empty) == 0 && Acks(Empty) == 0
  {
  }

  lemma HeadIsOne(f: Forest)
    requires !f.Empty?
    ensures Height(f) >= 1
  {
  }

  lemma HeadCosts(f: Forest)
    requires !f.Empty?
    ensures Actions(f) == Actions(Head(f)) + Actions(f.next)
    ensures Count(f) == Count(Head(f)) + Count(f.next) && Total(f) == Total(Head(f)) + Total(f.next) && Acks(f) == Acks(Head(f)) + Acks(f.next)
    ensures Height(f) == Max(Height(Head(f)), Height(f.next))
    ensures forall maxFile: nat :: FilesFit(f, maxFile) ==> FilesFit(Head(f), maxFile) && FilesFit(f.next, maxFile)
    ensures HasDir(Head(f)) || HasDir(f.next) ==> HasDir(f)
  {
    hide TimeActions, FileActions, Asked, Flatten;
    var time, rest := TimeActions(f.time), Actions(f.next);
    match f {
      case File(_, name, parts, _) =>
        Neutral(FileActions(name, parts));
        Assoc(time, FileActions(name, parts), rest);
      case Dir(_, name, children, _) =>
        Neutral(Asked(End));
        Assoc(time, Asked(Directory(name)) + (Actions(children) + Asked(End)), rest);
        Assoc(Asked(Directory(name)), Actions(children) + Asked(End), rest);
        Assoc(Actions(children), Asked(End), rest);
    }
  }

  lemma FileCosts(time: bool, name: string, parts: seq<Bytes>)
    ensures var f := File(time, name, parts, Empty);
            && Actions(f) == TimeActions(time) + FileActions(name, parts) && Count(f) == 1 && Total(f) == |Flatten(parts)|
            && 2 * Acks(f) == |TimeActions(time)| + 4 && Height(f) == 1
            && (forall maxFile: nat :: FilesFit(f, maxFile) ==> |Flatten(parts)| <= maxFile)
  {
    Neutral(FileActions(name, parts));
  }

  lemma DirCosts(time: bool, name: string, children: Forest)
    ensures var f := Dir(time, name, children, Empty);
            && Count(f) == 1 + Count(children) && Total(f) == Total(children) && HasDir(f)
            && 2 * Acks(f) == |TimeActions(time)| + 4 + 2 * Acks(children) && Height(f) == 1 + Height(children)
            && (forall maxFile: nat :: FilesFit(f, maxFile) ==> FilesFit(children, maxFile))
  {
  }

  lemma DirLog(log: seq<Action>, time: bool, name: string, children: Forest)
    ensures log + TimeActions(time) + Asked(Directory(name)) + Actions(children) + Asked(End) == log + Actions(Dir(time, name, children, Empty))
  {
    hide Asked, TimeActions;
    var t, a, b, c := TimeActions(time), Asked(Directory(name)), Actions(children), Asked(End);
    Neutral(c);
    Assoc(log, t, a + (b + c));
    Assoc(log + t, a, b + c);
    Assoc(log + t + a, b, c);
  }

  lemma PayloadNothing()
    ensures Payload([]) == []
  {
  }

  lemma CutFront(block: Bytes)
    requires block != []
    ensures var n := Min(CHUNK, |block|); CutBlock(block) == [block[..n]] + CutBlock(block[n..])
  {
    if |block| <= CHUNK {
      assert block[..|block|] == block && block[|block|..] == [];
      Neutral([block]);
    }
  }

  lemma FileLog(log: seq<Action>, time: seq<Action>, name: string, parts: seq<Bytes>)
    ensures log + time + Asked(Header(name, |Flatten(parts)|)) + Payload(parts) + Asked(Zero) == log + (time + FileActions(name, parts))
  {
    hide Asked, Payload, Flatten;
    var a, b, c := Asked(Header(name, |Flatten(parts)|)), Payload(parts), Asked(Zero);
    Assoc(log, time, a + (b + c));
    Assoc(log + time, a, b + c);
    Assoc(log + time + a, b, c);
  }

  // ---- both sides together ----

  function Sends(script: seq<Action>): seq<Message> {
    if script == [] then [] else (if script[0].Send? then [script[0].m] else []) + Sends(script[1..])
  }

  function Awaits(script: seq<Action>): nat {
    if script == [] then 0 else (if script[0].Await? then 1 else 0) + Awaits(script[1..])
  }

  /** The sender's part of a whole session. */
  function Script(f: Forest): seq<Action> { [Await] + (Actions(f) + [Send(Eof)]) }

  /** Whoever owes an acknowledgement gives it before anything else is sent. */
  predicate Turns(script: seq<Action>, owed: bool) {
    if script == [] then !owed
    else if script[0].Await? then owed && Turns(script[1..], false)
    else !owed && Turns(script[1..], Answered(script[0].m))
  }

  lemma {:induction false} SendsAppend(a: seq<Action>, b: seq<Action>)
    ensures Sends(a + b) == Sends(a) + Sends(b)
  {
    if a == [] {
      Neutral(b);
      Neutral(Sends(b));
    } else {
      HeadTail(a, b);
      Split([a[0]], a[1..] + b);
      SendsAppend(a[1..], b);
      Assoc(if a[0].Send? then [a[0].m] else [], Sends(a[1..]), Sends(b));
    }
  }

  lemma SendsOne(a: Action)
    ensures Sends([a]) == (if a.Send? then [a.m] else []) && Awaits([a]) == if a.Await? then 1 else 0
  {
    assert [a][1..] == [];
  }

  lemma SendsAsked(m: Message)
    ensures Sends(Asked(m)) == [m]
  {
    SendsOne(Await);
    assert Asked(m)[1..] == [Await];
  }

  lemma {:induction false} SendsPayload(parts: seq<Bytes>)
    ensures Sends(Payload(parts)) == DataOf(parts)
  {
    if parts != [] {
      SendsPayload(parts[1..]);
      assert Payload(parts)[1..] == Payload(parts[1..]);
    }
  }

  lemma SendsTime(time: bool)
    ensures Sends(TimeActions(time)) == TimeOf(time)
  {
    SendsAsked(Time);
  }

  lemma SendsFile(name: string, parts: seq<Bytes>)
    ensures Sends(FileActions(name, parts)) == FileText(name, parts)
  {
    hide Sends, Asked, Payload, DataOf;
    var header := Header(name, |Flatten(parts)|);
    SendsAppend(Asked(header), Payload(parts) + Asked(Zero));
    SendsAppend(Payload(parts), Asked(Zero));
    SendsAsked(header);
    SendsPayload(parts);
    SendsAsked(Zero);
  }

  /** What the sender writes is the text of the forest. */
  lemma {:induction false} SendsForest(f: Forest)
    ensures Sends(Actions(f)) == Messages(f)
    decreases f
  {
    match f {
      case Empty =>
      case File(time, name, parts, next) =>
        hide Sends, FileActions, FileText, TimeActions, TimeOf;
        SendsAppend(TimeActions(time), FileActions(name, parts) + Actions(next));
        SendsAppend(FileActions(name, parts), Actions(next));
        SendsTime(time);
        SendsFile(name, parts);
        SendsForest(next);
      case Dir(time, name, children, next) =>
        hide Sends, Asked, TimeActions, TimeOf;
        SendsAppend(TimeActions(time), Asked(Directory(name)) + (Actions(children) + (Asked(End) + Actions(next))));
        SendsAppend(Asked(Directory(name)), Actions(children) + (Asked(End) + Actions(next)));
        SendsAppend(Actions(children), Asked(End) + Actions(next));
        SendsAppend(Asked(End), Actions(next));
        SendsTime(time);
        SendsAsked(Directory(name));
        SendsAsked(End);
        SendsForest(children);
        SendsForest(next);
    }
  }

  lemma SendsScript(f: Forest)
    ensures Sends(Script(f)) == Messages(f) + [Eof]
  {
    hide Sends, Actions;
    SendsAppend([Await], Actions(f) + [Send(Eof)]);
    SendsAppend(Actions(f), [Send(Eof)]);
    SendsOne(Await);
    SendsOne(Send(Eof));
    SendsForest(f);
    Neutral(Messages(f) + [Eof]);
  }

  lemma TurnsAsked(m: Message, rest: seq<Action>)
    requires Answered(m)
    ensures Turns(Asked(m) + rest, false) <==> Turns(rest, false)
  {
    var s := Asked(m) + rest;
    assert s[1..] == [Await] + rest && s[1..][1..] == rest;
  }

  lemma TurnsData(part: Bytes, rest: seq<Action>)
    ensures Turns([Send(Data(part))] + rest, false) <==> Turns(rest, false)
  {
    Split([Send(Data(part))], rest);
  }

  lemma {:induction false} TurnsPayload(parts: seq<Bytes>, rest: seq<Action>)
    ensures Turns(Payload(parts) + rest, false) <==> Turns(rest, false)
  {
    hide Turns;
    if parts == [] {
      Neutral(rest);
    } else {
      TurnsPayload(parts[1..], rest);
      Assoc([Send(Data(parts[0]))], Payload(parts[1..]), rest);
      TurnsData(parts[0], Payload(parts[1..]) + rest);
    }
  }

  lemma TurnsTime(time: bool, rest: seq<Action>)
    ensures Turns(TimeActions(time) + rest, false) <==> Turns(rest, false)
  {
    TurnsAsked(Time, rest);
    Neutral(rest);
  }

  lemma TurnsFile(name: string, parts: seq<Bytes>, rest: seq<Action>)
    ensures Turns(FileActions(name, parts) + rest, false) <==> Turns(rest, false)
  {
    hide Turns, Asked, Payload;
    var a, b, c := Asked(Header(name, |Flatten(parts)|)), Payload(parts), Asked(Zero);
    Assoc(a, b + c, rest);
    Assoc(b, c, rest);
    TurnsAsked(Header(name, |Flatten(parts)|), b + (c + rest));
    TurnsPayload(parts, c + rest);
    TurnsAsked(Zero, rest);
  }

  lemma {:induction false} TurnsForest(f: Forest, rest: seq<Action>)
    ensures Turns(Actions(f) + rest, false) <==> Turns(rest, false)
    decreases f
  {
    hide Turns, Asked, FileActions, TimeActions;
    match f {
      case Empty => Neutral(rest);
      case File(time, name, parts, next) =>
        var t, a, b := TimeActions(time), FileActions(name, parts), Actions(next);
        Assoc(t, a + b, rest);
        Assoc(a, b, rest);
        TurnsTime(time, a + (b + rest));
        TurnsFile(name, parts, b + rest);
        TurnsForest(next, rest);
      case Dir(time, name, children, next) =>
        var t, a, b, c, d := TimeActions(time), Asked(Directory(name)), Actions(children), Asked(End), Actions(next);
        Assoc(t, a + (b + (c + d)), rest);
        Assoc(a, b + (c + d), rest);
        Assoc(b, c + d, rest);
        Assoc(c, d, rest);
        TurnsTime(time, a + (b + (c + (d + rest))));
        TurnsAsked(Directory(name), b + (c + (d + rest)));
        TurnsForest(children, c + (d + rest));
        TurnsAsked(End, d + rest);
        TurnsForest(next, rest);
    }
  }

  lemma ScriptTakesTurns(f: Forest)
    ensures Turns(Script(f), true)
  {
    hide Actions;
    assert Script(f)[1..] == Actions(f) + [Send(Eof)];
    assert [Send(Eof)][1..] == [];
    TurnsForest(f, [Send(Eof)]);
  }

  /** When the sender waits, exactly one acknowledgement is on its way or still to be given. */
  lemma {:induction false} OneOwed(script: seq<Action>, owed: bool, at: nat)
    requires Turns(script, owed) && at < |script| && script[at].Await?
    ensures (if owed then 1 else 0) + Answers(Sends(script[..at])) == Awaits(script[..at]) + 1
    decreases |script|
  {
    if at > 0 {
      var head := script[0];
      OneOwed(script[1..], if head.Await? then false else Answered(head.m), at - 1);
      assert script[..at][1..] == script[1..][..at - 1] && script[..at][0] == head;
      var rest := Sends(script[1..][..at - 1]);
      if head.Send? {
        Split([head.m], rest);
        AnswersAppend([head.m], rest);
        AnswersOne(head.m);
      } else {
        Neutral(rest);
      }
    }
  }

  /** A name with a line terminator does not pass the reader's pattern, whatever the writer made of it. */
  predicate Passes(m: Message) { (m.Header? || m.Directory?) ==> !P.HasLineTerminator(m.name) }

  predicate AllPass(messages: seq<Message>) { forall i | 0 <= i < |messages| :: Passes(messages[i]) }

  /** No name has a line terminator. */
  predicate NamesReadable(f: Forest) {
    match f
    case Empty => true
    case File(_, name, _, next) => !P.HasLineTerminator(name) && NamesReadable(next)
    case Dir(_, name, children, next) => !P.HasLineTerminator(name) && NamesReadable(children) && NamesReadable(next)
  }

  lemma PartsPass(a: seq<Message>, b: seq<Message>)
    ensures AllPass(a + b) <==> AllPass(a) && AllPass(b)
  {
    hide Passes;
    var all := a + b;
    assert forall i | 0 <= i < |a| :: all[i] == a[i];
    assert forall i | 0 <= i < |b| :: all[|a| + i] == b[i];
    assert forall i | |a| <= i < |all| :: all[i] == b[i - |a|];
  }

  lemma OnePasses(m: Message)
    ensures AllPass([m]) <==> Passes(m)
    ensures AllPass([])
  {
    hide Passes;
    assert [m][0] == m;
  }

  lemma {:induction false} DataPasses(parts: seq<Bytes>)
    ensures AllPass(DataOf(parts))
  {
    if parts != [] {
      DataPasses(parts[1..]);
      OnePasses(Data(parts[0]));
      PartsPass([Data(parts[0])], DataOf(parts[1..]));
    }
  }

  /** The text of a forest passes exactly if all its names are readable. */
  lemma {:induction false} ForestPasses(f: Forest)
    ensures AllPass(Messages(f)) <==> NamesReadable(f)
    decreases f
  {
    hide AllPass, P.HasLineTerminator;
    OnePasses(Time);
    match f {
      case Empty =>
      case File(time, name, parts, next) =>
        var header := Header(name, |Flatten(parts)|);
        PartsPass(TimeOf(time), FileText(name, parts) + Messages(next));
        PartsPass(FileText(name, parts), Messages(next));
        PartsPass([header], DataOf(parts) + [Zero]);
        PartsPass(DataOf(parts), [Zero]);
        OnePasses(header);
        OnePasses(Zero);
        DataPasses(parts);
        ForestPasses(next);
      case Dir(time, name, children, next) =>
        PartsPass(TimeOf(time), [Directory(name)] + (Messages(children) + ([End] + Messages(next))));
        PartsPass([Directory(name)], Messages(children) + ([End] + Messages(next)));
        PartsPass(Messages(children), [End] + Messages(next));
        PartsPass([End], Messages(next));
        OnePasses(Directory(name));
        OnePasses(End);
        ForestPasses(children);
        ForestPasses(next);
    }
  }

  /** What the receiver makes of a message as it comes out of the reader. */
  function Heard(setup: Setup, st: State, m: Message): Result<State> { if Passes(m) then Next(setup, st, m) else Err(Protocol) }

  /** Both sides, and what is under way between them in either direction. */
  datatype Config = Config(at: nat, wire: seq<Message>, acks: nat, receiver: State, failure: Option<Error>)

  predicate Step(setup: Setup, script: seq<Action>, c: Config, d: Config) {
    c.failure.None? && (SenderStep(script, c, d) || ReceiverStep(setup, c, d))
  }

  predicate SenderStep(script: seq<Action>, c: Config, d: Config) {
    c.at < |script|
    && match script[c.at]
       case Send(m) => d == c.(at := c.at + 1, wire := c.wire + [m])
       case Await => c.acks > 0 && d == c.(at := c.at + 1, acks := c.acks - 1)
  }

  predicate ReceiverStep(setup: Setup, c: Config, d: Config) {
    c.wire != []
    && match Heard(setup, c.receiver, c.wire[0])
       case Err(e) => d == c.(wire := c.wire[1..], failure := Some(e))
       case Ok(s) => s.acks >= c.receiver.acks && d == c.(wire := c.wire[1..], acks := c.acks + (s.acks - c.receiver.acks), receiver := s)
  }

  /** The acknowledgement of the destination is already under way. */
  function Initially(st: State): Config { Config(0, [], 1, st, None) }

  predicate IsRun(setup: Setup, script: seq<Action>, st: State, run: seq<Config>) {
    run != [] && run[0] == Initially(st) && forall i | 0 <= i < |run| - 1 :: Step(setup, script, run[i], run[i + 1])
  }

  /** After `taken` messages were read: nothing lost, reordered or repeated, and every acknowledgement accounted for. */
  ghost predicate Consistent(setup: Setup, script: seq<Action>, st: State, c: Config, taken: nat) {
    && c.failure.None? && c.at <= |script| && taken <= |Sends(script[..c.at])| && c.wire == Sends(script[..c.at])[taken..]
    && Run(setup, st, Sends(script[..c.at])[..taken]) == Ok(c.receiver)
    && c.acks + Awaits(script[..c.at]) + st.acks == c.receiver.acks + 1
  }

  lemma {:induction false} AwaitsAppend(a: seq<Action>, b: seq<Action>)
    ensures Awaits(a + b) == Awaits(a) + Awaits(b)
  {
    if a == [] {
      Neutral(b);
    } else {
      HeadTail(a, b);
      Split([a[0]], a[1..] + b);
      AwaitsAppend(a[1..], b);
    }
  }

  lemma SenderKeeps(setup: Setup, script: seq<Action>, st: State, c: Config, d: Config, taken: nat)
    requires Consistent(setup, script, st, c, taken) && SenderStep(script, c, d)
    ensures Consistent(setup, script, st, d, taken) && Sends(script[..d.at])[..taken] == Sends(script[..c.at])[..taken]
  {
    hide Run, Sends, Awaits;
    var a := script[c.at];
    assert script[..d.at] == script[..c.at] + [a];
    SendsAppend(script[..c.at], [a]);
    AwaitsAppend(script[..c.at], [a]);
    SendsOne(a);
    var sent := Sends(script[..c.at]);
    if a.Send? {
      assert (sent + [a.m])[..taken] == sent[..taken] && (sent + [a.m])[taken..] == sent[taken..] + [a.m];
    } else {
      Neutral(sent);
    }
  }

  lemma ReceiverKeeps(setup: Setup, script: seq<Action>, st: State, c: Config, d: Config, taken: nat)
    requires Consistent(setup, script, st, c, taken) && AllPass(Sends(script[..c.at])[..taken])
    requires ReceiverStep(setup, c, d) && Run(setup, st, Sends(script)).Ok?
    ensures taken < |Sends(script[..c.at])|
    ensures if d.failure.None? then Consistent(setup, script, st, d, taken + 1) && AllPass(Sends(script[..d.at])[..taken + 1])
            else d.failure == Some(Protocol) && !AllPass(Sends(script))
  {
    hide Run, Sends, Next, Awaits, Passes, AllPass;
    var sent := Sends(script[..c.at]);
    var m := sent[taken];
    assert c.wire[0] == m && c.wire[1..] == sent[taken + 1..];
    assert sent[..taken + 1] == sent[..taken] + [m];
    assert script == script[..c.at] + script[c.at..];
    SendsAppend(script[..c.at], script[c.at..]);
    assert Sends(script) == sent[..taken + 1] + (sent[taken + 1..] + Sends(script[c.at..]));
    PartsPass(sent[..taken + 1], sent[taken + 1..] + Sends(script[c.at..]));
    PartsPass(sent[..taken], [m]);
    OnePasses(m);
    RunAppend(setup, st, sent[..taken + 1], sent[taken + 1..] + Sends(script[c.at..]));
    RunAppend(setup, st, sent[..taken], [m]);
    RunOne(setup, c.receiver, m);
    AckCounted(setup, c.receiver, m);
  }

  /** Where a run may be: both sides consistent, or the receiver has refused a name it cannot read. */
  ghost predicate Reached(setup: Setup, script: seq<Action>, st: State, c: Config, taken: nat) {
    && taken <= c.at <= |script|
    && if c.failure.None? then Consistent(setup, script, st, c, taken) && AllPass(Sends(script[..c.at])[..taken])
       else c.failure == Some(Protocol) && !AllPass(Sends(script))
  }

  /** Along any interleaving the two sides stay consistent; each step sends, waits or reads one thing more. */
  lemma {:induction false} RunsStayConsistent(setup: Setup, script: seq<Action>, st: State, run: seq<Config>) returns (taken: nat)
    requires IsRun(setup, script, st, run) && Run(setup, st, Sends(script)).Ok?
    ensures Reached(setup, script, st, run[|run| - 1], taken) && run[|run| - 1].at + taken == |run| - 1
    ensures |run| <= 2 * |script| + 1
    decreases |run|
  {
    hide Sends, Step, Consistent, Run, AllPass;
    if |run| == 1 {
      taken := 0;
      StartConsistent(setup, script, st);
    } else {
      var before := run[..|run| - 1];
      var sofar := RunsStayConsistent(setup, script, st, before);
      var c, d := run[|run| - 2], run[|run| - 1];
      assert Step(setup, script, c, d);
      taken := StepKeeps(setup, script, st, c, d, sofar);
    }
  }

  lemma StartConsistent(setup: Setup, script: seq<Action>, st: State)
    ensures Reached(setup, script, st, Initially(st), 0)
  {
    assert script[..0] == [];
    RunNothing(setup, st);
    OnePasses(Zero);
  }

  lemma StepKeeps(setup: Setup, script: seq<Action>, st: State, c: Config, d: Config, taken: nat) returns (more: nat)
    requires Reached(setup, script, st, c, taken) && Step(setup, script, c, d) && Run(setup, st, Sends(script)).Ok?
    ensures Reached(setup, script, st, d, more) && d.at + more == c.at + taken + 1
  {
    hide Consistent, Run, Next, Sends, Passes, AllPass;
    if SenderStep(script, c, d) {
      SenderKeeps(setup, script, st, c, d, taken);
      more := taken;
    } else {
      SendsBound(script[..c.at]);
      ReceiverKeeps(setup, script, st, c, d, taken);
      more := taken + 1;
    }
  }

  ghost predicate Stuck(setup: Setup, script: seq<Action>, c: Config) {
    forall d :: !Step(setup, script, c, d)
  }

  lemma {:induction false} SendsBound(script: seq<Action>)
    ensures |Sends(script)| <= |script|
  {
    if script != [] { SendsBound(script[1..]); }
  }

  /** A step is always possible until the sender has finished and everything sent has been read. */
  lemma NeverDeadlocks(setup: Setup, script: seq<Action>, st: State, c: Config, taken: nat)
    requires Consistent(setup, script, st, c, taken) && Run(setup, st, Sends(script)).Ok? && Turns(script, true)
    ensures Stuck(setup, script, c) ==> c.at == |script| && c.wire == []
  {
    hide Run, Next, Sends, Awaits, Turns, Answers, Passes;
    if c.wire != [] {
      var next := Heard(setup, c.receiver, c.wire[0]);
      if next.Ok? {
        AckCounted(setup, c.receiver, c.wire[0]);
        assert Step(setup, script, c, c.(wire := c.wire[1..], acks := c.acks + (next.value.acks - c.receiver.acks), receiver := next.value));
      } else {
        assert Step(setup, script, c, c.(wire := c.wire[1..], failure := Some(next.error)));
      }
    } else if c.at < |script| {
      if script[c.at].Send? {
        assert Step(setup, script, c, c.(at := c.at + 1, wire := c.wire + [script[c.at].m]));
      } else {
        var sent := Sends(script[..c.at]);
        assert sent[..taken] == sent;
        AcksCounted(setup, st, sent);
        OneOwed(script, true, c.at);
        assert Step(setup, script, c, c.(at := c.at + 1, acks := c.acks - 1));
      }
    }
  }

  /**
     Sender and receiver together, over every interleaving of their steps: no run is longer than
     twice the script, and a run that cannot go on has read everything, if and only if every name
     can be read; otherwise it has failed at such a name.
   */
  lemma Delivers(setup: Setup, st: State, f: Forest, run: seq<Config>)
    requires Completed(Run(setup, st, Messages(f) + [Eof]))
    requires IsRun(setup, Script(f), st, run)
    ensures |run| <= 2 * |Script(f)| + 1
    ensures var last := run[|run| - 1];
            && (NamesReadable(f) ==> last.failure.None?)
            && (Stuck(setup, Script(f), last) ==>
                  if NamesReadable(f) then Ok(last.receiver) == Run(setup, st, Messages(f) + [Eof]) && last.acks == 0 else last.failure == Some(Protocol))
  {
    assert run != [];
    hide Run, Sends, Step, IsRun, Stuck, Awaits, AllPass;
    var script := Script(f);
    SendsScript(f);
    ScriptTakesTurns(f);
    ForestPasses(f);
    PartsPass(Messages(f), [Eof]);
    OnePasses(Eof);
    hide Script;
    var taken := RunsStayConsistent(setup, script, st, run);
    var last := run[|run| - 1];
    if last.failure.None? {
      NeverDeadlocks(setup, script, st, last, taken);
      if last.at == |script| && last.wire == [] {
        var sent := Sends(script);
        assert script[..last.at] == script;
        assert taken == |sent| && sent[..taken] == sent;
        AcksCounted(setup, st, sent);
        AllAwaited(script, true);
      }
    }
  }

  /** Over a whole script everything asked for is waited for. */
  lemma {:induction false} AllAwaited(script: seq<Action>, owed: bool)
    requires Turns(script, owed)
    ensures (if owed then 1 else 0) + Answers(Sends(script)) == Awaits(script)
  {
    if script != [] {
      var head := script[0];
      AllAwaited(script[1..], if head.Await? then false else Answered(head.m));
      var rest := Sends(script[1..]);
      if head.Send? {
        AnswersAppend([head.m], rest);
        AnswersOne(head.m);
      } else {
        Neutral(rest);
      }
    }
  }

  /** A forest sent to a fresh place in a directory arrives there, over every interleaving, if and only if all its names can be read. */
  lemma DeliversTree(setup: Setup, st: State, f: Forest, run: seq<Config>)
    requires AtStart(st) && setup.intoDirectory && !f.Empty? && Ready(setup, st, setup.destination, f)
    requires st.records + 2 * Acks(f) + 1 <= setup.limits.maxRecords && IsRun(setup, Script(f), st, run) && Stuck(setup, Script(f), run[|run| - 1])
    ensures var done := run[|run| - 1];
            if NamesReadable(f) then done.failure.None? && done.receiver.ended && done.receiver.acks == st.acks + Acks(f)
                                     && done.receiver.storage == st.storage + Placement(setup.destination, f)
            else done.failure == Some(Protocol)
  {
    Rebuild(setup, st, setup.destination, f);
    EndsBehind(setup, st, f);
    hide Run, Messages, IsRun, Stuck, Script, Ready, Placement, NamesReadable;
    Delivers(setup, st, f, run);
  }

  lemma EndsBehind(setup: Setup, st: State, f: Forest)
    requires AtStart(st) && !f.Empty? && st.records + 2 * Acks(f) + 1 <= setup.limits.maxRecords
    requires Run(setup, st, Messages(f)) == Ok(Grown(setup, st, setup.destination, f))
    ensures var r := Run(setup, st, Messages(f) + [Eof]);
            Completed(r) && r.value.acks == st.acks + Acks(f) && r.value.storage == st.storage + Placement(setup.destination, f)
  {
    hide Run, Messages, Placement;
    RunAppend(setup, st, Messages(f), [Eof]);
    RunOne(setup, Grown(setup, st, setup.destination, f), Eof);
  }

  /**
     End to end: unless a name cannot be read, below the destination every path then holds what the
     source lists there, and every other path holds what it held before.
   */
  lemma DeliversSource(setup: Setup, st: State, source: Source, preserve: bool, run: seq<Config>, place: Path)
    requires var f := Sent(source, preserve);
             AtStart(st) && setup.intoDirectory && !f.Empty? && Ready(setup, st, setup.destination, f)
             && st.records + 2 * Acks(f) + 1 <= setup.limits.maxRecords
             && IsRun(setup, Script(f), st, run) && Stuck(setup, Script(f), run[|run| - 1])
    ensures var storage := run[|run| - 1].receiver.storage;
            var node := if Below(setup.destination, place) then Listed(source, place[|setup.destination|..]) else None;
            if !NamesReadable(Sent(source, preserve)) then run[|run| - 1].failure == Some(Protocol)
            else if node.Some? then place in storage && storage[place] == node.value && place !in st.storage
            else (place in storage <==> place in st.storage) && (place in storage ==> storage[place] == st.storage[place])
  {
    var f := Sent(source, preserve);
    DeliversTree(setup, st, f, run);
    if Below(setup.destination, place) { SentIsListed(source, preserve, place[|setup.destination|..]); }
    hide IsRun, Stuck, Script, Ready, Placement, Lookup, Listed, NamesReadable;
    RebuiltTree(setup, st, setup.destination, f, place);
  }

  lemma NotEmpty(storage: Storage, destination: Path, f: Forest, recursive: bool, staging: nat -> string)
    requires SessionTakes(storage, destination, f, recursive, staging)
    ensures !f.Empty?
  {
  }

  /** And a download: a storage of at most so many entries, however they are spread, is never too much to list. */
  method DownloadInSession(storage: Storage, source: Source, recursive: bool, preserve: bool, expanded: set<Path>) returns (sender: Sender, error: Option<Error>)
    requires Mirrors(storage, source) && Honest(source) && Reachable(SESSION_LIMITS, source)
    requires Legible(storage.Keys) && |expanded + storage.Keys| <= SESSION_LIMITS.maxEntries
    requires var f := Sent(source, preserve);
             && Height(f) <= SESSION_LIMITS.maxDepth && Count(f) <= SESSION_LIMITS.maxEntries
             && FilesFit(f, SESSION_LIMITS.maxFile) && Total(f) <= SESSION_LIMITS.maxSession
             && 2 * Acks(f) + 1 <= SESSION_LIMITS.maxRecords && (HasDir(f) ==> recursive)
    ensures fresh(sender) && error.None? && sender.log == [Await] + Actions(Sent(source, preserve))
  {
    hide Mirrors, Honest, Reachable, Sent, Height, Count, FilesFit, Total, Acks, HasDir, Actions, Looked;
    sender := new Sender(SESSION_LIMITS, recursive, preserve, storage, expanded);
    LookedInStorage(storage, source);
    SeesPart(SESSION_LIMITS, expanded, storage.Keys, Looked(storage, source));
    error := Download(sender, source);
    Neutral([Await] + Actions(Sent(source, preserve)));
  }
}
