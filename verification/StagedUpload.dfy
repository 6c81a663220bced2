/**
 The staged upload: the bytes go to a staging file in one piece or in chunks, are read back and compared,
 and only then replace the destination.  Any step may fail, with or without effect, and a store may be wrong.
 */
module StagedUpload {
  import opened Basics

  /** What the environment does to one call. */
  datatype Fault =
    | Fine
    | Fails
    | FailsAfterEffect
    | FailsPartly(junk: Bytes)   // something else was stored
    | Lies(junk: Bytes)          // something else was stored, and success reported

  datatype Kind = Missing | RegularFile | Directory

  datatype Code = TransferLimit | TransferExists | TransferDirectory | TransferChanged | TransferHash | TransferMetadata | TempConflict | PortalFailure

  /** A part of the source: its number and the bytes it covers. */
  datatype Range = Range(index: nat, offset: nat, size: nat)

  /** What the server offers: no multipart upload, or one in chunks of a size, perhaps with chunks left over from before. */
  datatype Offer = Single | Chunked(size: int, leftovers: bool)

  datatype Outcome = Done(retained: bool) | Failed(code: Code, retained: bool, mayBeChanged: bool)

  /** The local file; unless it is stable, a read may give anything of the right length. */
  class Local {
    const content: Bytes
    const stable: bool

    constructor (content: Bytes, stable: bool)
      ensures this.content == content && this.stable == stable
    {
      this.content, this.stable := content, stable;
    }

    /** Fails if the file is found to have another size; a hash stands for the bytes that were read. */
    method Read(start: nat, size: nat) returns (bytes: Option<Bytes>)
      requires start + size <= |content|
      ensures bytes.Some? ==> |bytes.value| == size
      ensures stable ==> bytes == Some(content[start..start + size])
    {
      if stable { return Some(content[start..start + size]); }
      var other: Bytes := *;
      return if |other| == size then Some(other) else None;
    }

    method ReadAll() returns (bytes: Option<Bytes>)
      ensures bytes.Some? ==> |bytes.value| == |content|
      ensures stable ==> bytes == Some(content)
    {
      bytes := Read(0, |content|);
      assert content[0..|content|] == content;
    }
  }

  /** The remote side: one directory with its files, and the chunks of the upload that is under way. */
  class Remote {
    const offer: Offer

    var files: map<string, Bytes>
    var directories: set<string>
    var chunks: seq<Bytes>
    var faults: seq<Fault>

    constructor (offer: Offer, files: map<string, Bytes>, directories: set<string>, faults: seq<Fault>)
      ensures this.offer == offer && this.files == files && this.directories == directories && chunks == [] && this.faults == faults
    {
      this.offer, this.files, this.directories, chunks, this.faults := offer, files, directories, [], faults;
    }

    method Next() returns (f: Fault)
      modifies this`faults
      ensures f == (if old(faults) == [] then Fine else old(faults)[0]) && (old(faults) == [] ==> faults == [])
    {
      if faults == [] { return Fine; }
      f := faults[0];
      faults := faults[1..];
    }

    function At(name: string): Option<Bytes>
      reads this`files
    {
      if name in files then Some(files[name]) else None
    }

    function KindOf(name: string): Kind
      reads this`files, this`directories
    {
      if name in directories then Directory else if name in files then RegularFile else Missing
    }

    method Inspect(name: string) returns (kind: Option<Kind>)
      modifies this`faults
      ensures kind.Some? ==> kind.value == KindOf(name)
      ensures old(faults) == [] ==> kind.Some? && faults == []
    {
      var f := Next();
      return if f.Fine? then Some(KindOf(name)) else None;
    }

    /** Stores a file; nothing but that file changes. */
    method Put(name: string, bytes: Bytes) returns (ok: bool)
      modifies this`files, this`faults
      ensures forall n | n != name :: At(n) == old(At(n))
      ensures old(faults) == [] ==> ok && faults == [] && At(name) == Some(bytes)
    {
      var f := Next();
      match f {
        case Fine => files := files[name := bytes];
        case FailsAfterEffect => files := files[name := bytes];
        case FailsPartly(junk) => files := files[name := junk];
        case Lies(junk) => files := files[name := junk];
        case Fails =>
      }
      return f.Fine? || f.Lies?;
    }

    method PutChunk(bytes: Bytes) returns (ok: bool)
      modifies this`chunks, this`faults
      ensures old(faults) == [] ==> ok && faults == [] && chunks == old(chunks) + [bytes]
    {
      var f := Next();
      match f {
        case Fine => chunks := chunks + [bytes];
        case FailsAfterEffect => chunks := chunks + [bytes];
        case FailsPartly(junk) => chunks := chunks + [junk];
        case Lies(junk) => chunks := chunks + [junk];
        case Fails =>
      }
      return f.Fine? || f.Lies?;
    }

    /** Puts the chunks together as one file. */
    method Merge(name: string) returns (ok: bool)
      modifies this`files, this`faults
      ensures forall n | n != name :: At(n) == old(At(n))
      ensures old(faults) == [] ==> ok && faults == [] && At(name) == Some(Flatten(chunks))
    {
      ok := Put(name, Flatten(chunks));
    }

    /** An atomic move: it takes place entirely or not at all, whatever is reported. */
    method Move(source: string, target: string) returns (ok: bool)
      requires source != target
      modifies this`files, this`faults
      ensures forall n | n != source && n != target :: At(n) == old(At(n))
      ensures At(target) == old(At(target)) || (At(target) == old(At(source)) && old(At(source)).Some?)
      ensures ok ==> At(target) == old(At(source)) && At(target).Some?
      ensures old(faults) == [] && old(At(source)).Some? ==> ok && faults == []
    {
      var f := Next();
      if source !in files || f.Fails? || f.FailsPartly? || f.Lies? { return false; }
      files := (map n | n in files && n != source :: files[n])[target := files[source]];
      return f.Fine?;
    }

    method Get(name: string) returns (bytes: Option<Bytes>)
      modifies this`faults
      ensures bytes.Some? ==> bytes == At(name)
      ensures old(faults) == [] ==> bytes == At(name) && faults == []
    {
      var f := Next();
      if !f.Fine? { return None; }
      return At(name);
    }

    /** The check before something is stored under a name: whether a file stands there that may be replaced. */
    method Preflight(name: string, overwrite: bool) returns (r: Option<bool>, code: Code)
      modifies this`faults
      ensures r.Some? ==> r.value == (KindOf(name) == RegularFile) && !KindOf(name).Directory? && (KindOf(name).RegularFile? ==> overwrite)
      ensures old(faults) == [] ==> faults == [] && (r.Some? <==> KindOf(name).Missing? || (KindOf(name).RegularFile? && overwrite))
    {
      var kind := Inspect(name);
      if kind.None? { return None, PortalFailure; }
      if kind.value.Missing? { return Some(false), PortalFailure; }
      if !overwrite { return None, TransferExists; }
      if !kind.value.RegularFile? { return None, TransferDirectory; }
      return Some(true), PortalFailure;
    }

    /** A whole file read back, with its size and kind checked. */
    method ReadBack(name: string, size: nat) returns (bytes: Option<Bytes>)
      modifies this`faults
      ensures bytes.Some? ==> bytes == At(name) && |bytes.value| == size
      ensures old(faults) == [] && KindOf(name).RegularFile? && |At(name).value| == size ==> bytes == At(name) && faults == []
    {
      var first := Inspect(name);
      if first != Some(RegularFile) { return None; }
      bytes := Get(name);
      if bytes.None? || |bytes.value| != size { return None; }
      var last := Inspect(name);
      if last != Some(RegularFile) { return None; }
    }
  }

  // ---- the chunk loop ----

  /** Consecutive ranges from zero, numbered from one, none empty and none longer than a chunk. */
  predicate Tiles(ranges: seq<Range>, total: nat, chunk: nat) {
    if ranges == [] then total == 0
    else
      var r := ranges[|ranges| - 1];
      r.index == |ranges| && 0 < r.size <= chunk && r.offset + r.size == total && Tiles(ranges[..|ranges| - 1], r.offset, chunk)
  }

  /** Only the last range may be shorter than a chunk. */
  predicate FullButLast(ranges: seq<Range>, chunk: nat) {
    forall i | 0 <= i < |ranges| - 1 :: ranges[i].size == chunk
  }

  function Slice(bytes: Bytes, r: Range): Bytes
    requires r.offset + r.size <= |bytes|
  {
    bytes[r.offset..r.offset + r.size]
  }

  function Slices(bytes: Bytes, ranges: seq<Range>): seq<Bytes>
    requires forall i | 0 <= i < |ranges| :: ranges[i].offset + ranges[i].size <= |bytes|
  {
    if ranges == [] then [] else Slices(bytes, ranges[..|ranges| - 1]) + [Slice(bytes, ranges[|ranges| - 1])]
  }

  lemma {:induction false} TilesFit(ranges: seq<Range>, total: nat, chunk: nat)
    requires Tiles(ranges, total, chunk)
    ensures forall i | 0 <= i < |ranges| :: ranges[i].index == i + 1 && ranges[i].offset + ranges[i].size <= total
    ensures forall i | 0 <= i < |ranges| - 1 :: ranges[i].offset + ranges[i].size == ranges[i + 1].offset
  {
    if ranges != [] {
      var front := ranges[..|ranges| - 1];
      TilesFit(front, ranges[|ranges| - 1].offset, chunk);
      assert forall i | 0 <= i < |front| :: front[i] == ranges[i];
      if front != [] { assert front[|front| - 1] == ranges[|ranges| - 2]; }
    }
  }

  /** The ranges of the chunk loop, put together in order, are the source. */
  lemma {:induction false} MergedIsSource(bytes: Bytes, ranges: seq<Range>, total: nat, chunk: nat)
    requires Tiles(ranges, total, chunk) && total <= |bytes|
    ensures forall i | 0 <= i < |ranges| :: ranges[i].offset + ranges[i].size <= |bytes|
    ensures Flatten(Slices(bytes, ranges)) == bytes[..total]
  {
    TilesFit(ranges, total, chunk);
    if ranges != [] {
      var front, r := ranges[..|ranges| - 1], ranges[|ranges| - 1];
      MergedIsSource(bytes, front, r.offset, chunk);
      FlattenAppend(Slices(bytes, front), [Slice(bytes, r)]);
      FlattenOne(Slice(bytes, r));
      assert bytes[..total] == bytes[..r.offset] + bytes[r.offset..total];
    }
  }

  lemma TilesMore(ranges: seq<Range>, offset: nat, size: nat, chunk: nat)
    requires Tiles(ranges, offset, chunk) && 0 < size <= chunk
    ensures Tiles(ranges + [Range(|ranges| + 1, offset, size)], offset + size, chunk)
  {
    var more := ranges + [Range(|ranges| + 1, offset, size)];
    assert more[..|more| - 1] == ranges;
  }

  lemma SlicesMore(bytes: Bytes, ranges: seq<Range>, r: Range)
    requires (forall i | 0 <= i < |ranges| :: ranges[i].offset + ranges[i].size <= |bytes|) && r.offset + r.size <= |bytes|
    ensures forall i | 0 <= i < |ranges + [r]| :: (ranges + [r])[i].offset + (ranges + [r])[i].size <= |bytes|
    ensures Slices(bytes, ranges + [r]) == Slices(bytes, ranges) + [Slice(bytes, r)]
  {
    assert (ranges + [r])[..|ranges|] == ranges;
  }

  /** One chunk, whose name is made of its hash and its number. */
  method SendChunk(remote: Remote, local: Local, staging: string, r: Range) returns (error: Option<Code>)
    requires r.offset + r.size <= |local.content|
    modifies remote`chunks, remote`faults
    ensures old(remote.faults) == [] && local.stable && remote.KindOf(staging).Missing? ==>
      error.None? && remote.faults == [] && remote.chunks == old(remote.chunks) + [Slice(local.content, r)]
  {
    var hash := local.Read(r.offset, r.size);
    if hash.None? { return Some(TransferChanged); }
    var named := remote.Next();
    if !named.Fine? { return Some(PortalFailure); }
    var free, code := remote.Preflight(staging, false);
    if free.None? { return Some(code); }
    var bytes := local.Read(r.offset, r.size);
    if bytes.None? { return Some(TransferChanged); }
    var ok := remote.PutChunk(bytes.value);
    return if ok then None else Some(PortalFailure);
  }

  lemma NothingTiled(content: Bytes, chunk: nat)
    ensures Tiles([], 0, chunk) && Slices(content, []) == []
  {
  }

  /** Uploads the source chunk by chunk and has the chunks put together under the staging name. */
  method StageChunks(remote: Remote, local: Local, staging: string, chunk: nat) returns (error: Option<Code>, ranges: seq<Range>)
    requires chunk > 0 && remote.chunks == []
    modifies remote`files, remote`chunks, remote`faults
    ensures forall n | n != staging :: remote.At(n) == old(remote.At(n))
    ensures error.None? ==> Tiles(ranges, |local.content|, chunk) && FullButLast(ranges, chunk)
    ensures old(remote.faults) == [] && local.stable && old(remote.KindOf(staging)).Missing? ==>
      error.None? && remote.faults == [] && remote.At(staging) == Some(local.content)
  {
    hide Flatten, Slice, Slices, Tiles;
    var total := |local.content|;
    var offset := 0;
    ranges := [];
    ghost var fine := old(remote.faults) == [] && local.stable && old(remote.KindOf(staging)).Missing?;
    NothingTiled(local.content, chunk);
    while offset < total
      invariant 0 <= offset <= total && Tiles(ranges, offset, chunk) && (offset < total ==> forall i | 0 <= i < |ranges| :: ranges[i].size == chunk)
      invariant FullButLast(ranges, chunk) && remote.files == old(remote.files)
      invariant forall i | 0 <= i < |ranges| :: ranges[i].offset + ranges[i].size <= total
      invariant fine ==> remote.faults == [] && remote.chunks == Slices(local.content, ranges)
    {
      var size := Min(chunk, total - offset);
      var r := Range(|ranges| + 1, offset, size);
      error := SendChunk(remote, local, staging, r);
      if error.Some? { return; }
      TilesMore(ranges, offset, size, chunk);
      SlicesMore(local.content, ranges, r);
      ranges := ranges + [r];
      offset := offset + size;
    }
    MergedIsSource(local.content, ranges, total, chunk);
    assert local.content[..total] == local.content;
    var free, code := remote.Preflight(staging, false);
    if free.None? { return Some(code), ranges; }
    var merged := remote.Merge(staging);
    return if merged then None else Some(PortalFailure), ranges;
  }

  method StageSingle(remote: Remote, local: Local, staging: string) returns (error: Option<Code>)
    modifies remote`files, remote`faults
    ensures forall n | n != staging :: remote.At(n) == old(remote.At(n))
    ensures old(remote.faults) == [] && local.stable && old(remote.KindOf(staging)).Missing? ==>
      error.None? && remote.faults == [] && remote.At(staging) == Some(local.content)
  {
    var free, code := remote.Preflight(staging, false);
    if free.None? { return Some(code); }
    var bytes := local.ReadAll();
    if bytes.None? { return Some(TransferChanged); }
    var ok := remote.Put(staging, bytes.value);
    return if ok then None else Some(PortalFailure);
  }

  /** The source and the staging file still are what was hashed first. */
  method Verify(remote: Remote, local: Local, staging: string, before: Bytes) returns (error: Option<Code>)
    requires |before| == |local.content|
    modifies remote`faults
    ensures error.None? ==> remote.At(staging) == Some(before)
    ensures old(remote.faults) == [] && local.stable && before == local.content && remote.At(staging) == Some(before) && remote.KindOf(staging).RegularFile?
            ==> error.None? && remote.faults == []
  {
    var first := local.ReadAll();
    if first != Some(before) { return Some(TransferChanged); }
    var readback := remote.ReadBack(staging, |before|);
    if readback != Some(before) { return Some(TransferHash); }
    var last := local.ReadAll();
    if last != Some(before) { return Some(TransferChanged); }
    return None;
  }

  /** Makes the verified staging file the destination: by a move, or if asked to, by writing over the file that is there. */
  method Publish(remote: Remote, local: Local, destination: string, staging: string, before: Bytes, overwrite: bool, inPlace: bool, multipart: bool)
    returns (outcome: Outcome)
    requires destination != staging && |before| == |local.content| && remote.At(staging) == Some(before)
    modifies remote`files, remote`faults
    ensures forall n | n != staging && n != destination :: remote.At(n) == old(remote.At(n))
    ensures Kept(outcome, old(remote.At(destination)), remote.At(destination), before)
    ensures old(remote.KindOf(destination)).RegularFile? && !overwrite ==> outcome.Failed? && remote.At(destination) == old(remote.At(destination))
    ensures (&& old(remote.faults) == [] && local.stable && before == local.content && old(remote.KindOf(staging)).RegularFile?
             && (old(remote.KindOf(destination)).Missing? || (old(remote.KindOf(destination)).RegularFile? && overwrite))) ==> outcome.Done?
  {
    var present, code := remote.Preflight(destination, overwrite);
    if present.None? { return Failed(code, true, false); }
    var kind := remote.Inspect(staging);
    if kind != Some(RegularFile) { return Failed(TransferDirectory, true, false); }
    if present.value && inPlace {
      var bytes := local.ReadAll();
      if bytes.None? { return Failed(TransferChanged, true, true); }
      var ok := remote.Put(destination, bytes.value);
      if !ok { return Failed(PortalFailure, true, true); }
      var published := remote.ReadBack(destination, |before|);
      if published != Some(before) { return Failed(TransferHash, true, true); }
      var last := local.ReadAll();
      if last != Some(before) { return Failed(TransferHash, true, true); }
      return Done(true);
    }
    var moved := remote.Move(staging, destination);
    if !moved { return Failed(PortalFailure, true, false); }
    return Done(multipart);
  }

  /** What may have become of the destination: nothing, the whole source, or something that is reported. */
  predicate Kept(outcome: Outcome, before: Option<Bytes>, after: Option<Bytes>, source: Bytes) {
    && (after == before || after == Some(source) || (outcome.Failed? && outcome.mayBeChanged))
    && (outcome.Done? ==> after == Some(source))
  }

  /** The upload as a whole; `hashed` is what the source was when it was first read. */
  method Upload(remote: Remote, local: Local, destination: string, staging: string, maxBytes: nat, overwrite: bool, inPlace: bool)
    returns (outcome: Outcome, hashed: Option<Bytes>, ranges: seq<Range>)
    requires destination != staging && remote.chunks == []
    modifies remote`files, remote`chunks, remote`faults
    ensures forall n | n != staging && n != destination :: remote.At(n) == old(remote.At(n))
    ensures hashed.None? ==> outcome.Failed? && !outcome.mayBeChanged && remote.files == old(remote.files)
    ensures hashed.Some? ==> Kept(outcome, old(remote.At(destination)), remote.At(destination), hashed.value) && (local.stable ==> hashed.value == local.content)
    ensures outcome.Done? ==> |local.content| <= maxBytes
    ensures old(remote.KindOf(destination)).RegularFile? && !overwrite ==> outcome.Failed? && remote.At(destination) == old(remote.At(destination))
    ensures (&& old(remote.faults) == [] && local.stable && |local.content| <= maxBytes && old(remote.KindOf(staging)).Missing?
             && (old(remote.KindOf(destination)).Missing? || (old(remote.KindOf(destination)).RegularFile? && overwrite))
             && (remote.offer.Chunked? ==> remote.offer.size > 0 && !remote.offer.leftovers)) ==> outcome.Done?
  {
    ranges := [];
    if |local.content| > maxBytes { return Failed(TransferLimit, false, false), None, ranges; }
    hashed := local.ReadAll();
    if hashed.None? { return Failed(TransferChanged, false, false), None, ranges; }
    var before := hashed.value;
    var allowed, code := remote.Preflight(destination, overwrite);
    if allowed.None? { return Failed(code, false, false), hashed, ranges; }
    var negotiated := remote.Next();
    if !negotiated.Fine? { return Failed(PortalFailure, true, false), hashed, ranges; }
    if remote.offer.Chunked? && remote.offer.size < 1 { return Failed(TransferMetadata, true, false), hashed, ranges; }
    if remote.offer.Chunked? && remote.offer.leftovers { return Failed(TempConflict, true, false), hashed, ranges; }
    var error: Option<Code>;
    if remote.offer.Chunked? && |local.content| >= remote.offer.size {
      error, ranges := StageChunks(remote, local, staging, remote.offer.size);
    } else {
      error := StageSingle(remote, local, staging);
    }
    if error.Some? { return Failed(error.value, true, false), hashed, ranges; }
    assert remote.At(destination) == old(remote.At(destination));
    error := Verify(remote, local, staging, before);
    if error.Some? { return Failed(error.value, true, false), hashed, ranges; }
    outcome := Publish(remote, local, destination, staging, before, overwrite, inPlace, remote.offer.Chunked?);
  }
}
