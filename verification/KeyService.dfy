/**
 The key replacement service.  Every file operation and every root commit may fail, may fail
 after taking effect, or may be the last thing the process does; `if *` stands for that choice,
 so a contract of a method here speaks of every crash point inside it.
 */
module KeyService {
  import opened Basics
  import opened KeyJournal

  /** How an operation ends.  Anything but Ok stops the operations that follow it. */
  datatype Outcome =
    | Ok
    | Fault        // an I/O error or a refused commit; the process lives on
    | Refused      // the service's own validation failed
    | Cancelled    // the caller's context is no longer current
    | Dismissed    // the user closed the backup dialog
    | Uncertain    // the root may or may not have been replaced; the store locks
    | Crash        // the process dies here
  {
    predicate IsFailure() { !Ok? }
    function PropagateFailure(): Outcome requires IsFailure() { this }
  }

  datatype Listener = Closed | Gated | Open

  /** The local flags of one execution. */
  datatype Progress = Progress(staged: bool, prepared: bool, interrupted: bool, committed: bool, candidate: bool)

  datatype KeyState = Ready | Changed | Missing | Invalid

  datatype Decision = Keep | Remove | Restore(bytes: Bytes)

  /** The files a target leaves alone. */
  function Untouched(target: Target): seq<Role> {
    match target
    case Client => [HostPrivate]
    case Host => [ClientPrivate, ClientPublic]
    case Both => []
  }

  lemma EveryRoleIsCovered(target: Target, role: Role)
    ensures role in Roles(target) || role in Untouched(target)
  {
    match role {
      case ClientPrivate => assert Roles(Both)[0] == Roles(Client)[0] == Untouched(Host)[0] == ClientPrivate;
      case ClientPublic => assert Roles(Both)[1] == Roles(Client)[1] == Untouched(Host)[1] == ClientPublic;
      case HostPrivate => assert Roles(Both)[2] == Roles(Host)[0] == Untouched(Client)[0] == HostPrivate;
    }
  }

  class Service {
    const identity: Bytes -> Option<Fingerprint>
    const publicLine: Bytes -> Bytes

    var disk: Disk
    var mem: Root       // the store's root in memory
    var file: Root      // the settings file
    var durable: Root   // the settings file a power loss brings back: the visible one or one before it
    var locked: bool
    var failure: bool
    var listener: Listener

    constructor (identity: Bytes -> Option<Fingerprint>, publicLine: Bytes -> Bytes, disk: Disk, root: Root)
      ensures this.identity == identity && this.publicLine == publicLine
      ensures this.disk == disk && Settled() && mem == root && !failure && listener == Closed
    {
      this.identity, this.publicLine := identity, publicLine;
      this.disk, mem, file, durable, locked, failure, listener := disk, root, root, root, false, false, Closed;
    }

    ghost predicate Settled() reads this { !locked && mem == file == durable }

    /** An unlocked store agrees with its file; whether a power loss would keep that file is another matter. */
    ghost predicate StoreOk() reads this { !locked ==> mem == file }

    ghost predicate BackwardAll(plan: Plan, id: TransactionId) reads this {
      Backward(disk, file, plan, id) && Backward(disk, durable, plan, id)
    }

    ghost predicate ForwardAll(plan: Plan, id: TransactionId) reads this {
      Forward(disk, file, plan, id) && Forward(disk, durable, plan, id)
    }

    /** Whichever root survives, it and the files belong together. */
    ghost predicate Safe(plan: Plan, id: TransactionId) reads this {
      Lasting(disk, file, durable, plan, id)
    }

    /** The commit is visible, and a power loss may still take it back. */
    ghost predicate Pending(plan: Plan, id: TransactionId) reads this {
      Forward(disk, file, plan, id) && file.journal.Some? && Backward(disk, durable, plan, id) && durable.journal.Some?
    }

    /** How an execution leaves the roots. */
    ghost predicate Standing(plan: Plan, id: TransactionId) reads this {
      BackwardAll(plan, id) || ForwardAll(plan, id) || Pending(plan, id)
    }

    /** Nothing but copies was written on top of the root that was durable before. */
    twostate predicate Barely(plan: Plan, id: TransactionId) reads this {
      Backward(disk, file, plan, id) && KeyFilesUnchanged() && durable == old(durable)
    }

    /** The roots during recoveries: a power loss may bring back a root whose files can no longer be restored. */
    ghost predicate Reached(plan: Plan, id: TransactionId) reads this {
      || Safe(plan, id)
      || (Forward(disk, file, plan, id) && Stuck(disk, durable, plan, id))
      || (Stuck(disk, file, plan, id) && Stuck(disk, durable, plan, id))
    }

    // ---- file operations ----

    /** One point at which an operation may fail or the process may die. */
    method Hazard() returns (o: Outcome)
      ensures o.Ok? || o.Fault? || o.Crash?
    {
      if * { return Fault; }
      if * { return Crash; }
      return Ok;
    }

    method MaybeRead(path: Path) returns (o: Outcome, bytes: Option<Bytes>)
      ensures o.Ok? || o.Fault? || o.Crash?
      ensures o.Ok? ==> bytes == Lookup(disk, path)
    {
      bytes := Lookup(disk, path);
      :- Hazard();
      return Ok, bytes;
    }

    method ReadFile(path: Path) returns (o: Outcome, bytes: Bytes)
      ensures o.Ok? || o.Fault? || o.Crash? || (o.Refused? && path !in disk)
      ensures o.Ok? ==> Lookup(disk, path) == Some(bytes)
    {
      bytes := [];
      var found :- MaybeRead(path);
      if found.None? { return Refused, []; }
      return Ok, found.value;
    }

    /** Creates the file, fills it and syncs; an interruption leaves any prefix behind. */
    method WriteExclusive(path: Path, bytes: Bytes) returns (o: Outcome)
      modifies this`disk
      ensures o.Ok? || o.Fault? || o.Crash?
      ensures o.Ok? ==> path !in old(disk) && Lookup(disk, path) == Some(bytes)
      ensures forall p: Path | p != path :: Lookup(disk, p) == old(Lookup(disk, p))
      ensures path in old(disk) ==> disk == old(disk)
    {
      if path in disk { return Fault; }
      :- Hazard();
      var written :| 0 <= written <= |bytes|;
      disk := disk[path := bytes[..written]];
      :- Hazard();
      disk := disk[path := bytes];
      :- Hazard();
      return Ok;
    }

    /** Renames atomically, then syncs the directory; a fault may come after the rename took effect. */
    method Replace(source: Path, destination: Path) returns (o: Outcome)
      requires source != destination
      modifies this`disk
      ensures o.Ok? || o.Fault? || o.Crash?
      ensures disk == old(disk) ||
              (source in old(disk) && disk == (old(disk) - {source})[destination := old(disk)[source]])
      ensures o.Ok? ==> source in old(disk) && disk == (old(disk) - {source})[destination := old(disk)[source]]
      ensures forall p: Path | p != source && p != destination :: Lookup(disk, p) == old(Lookup(disk, p))
    {
      if source !in disk { return Fault; }
      :- Hazard();
      disk := (disk - {source})[destination := disk[source]];
      :- Hazard();
      return Ok;
    }

    method Unlink(path: Path) returns (o: Outcome)
      modifies this`disk
      ensures o.Ok? || o.Fault? || o.Crash?
      ensures disk == old(disk) || disk == old(disk) - {path}
      ensures o.Ok? ==> disk == old(disk) - {path}
      ensures forall p: Path | p != path :: Lookup(disk, p) == old(Lookup(disk, p))
    {
      o := Hazard();
      if !o.Ok? { return; }
      disk := disk - {path};
      :- Hazard();
      return Ok;
    }

    // ---- root operations ----

    /** Replaces the settings root; an uncertain replacement locks the store. */
    method RootCommit(root: Root) returns (o: Outcome)
      requires StoreOk()
      modifies this`mem, this`file, this`durable, this`locked
      ensures StoreOk()
      ensures o.Ok? || o.Fault? || o.Refused? || o.Uncertain? || o.Crash?
      ensures o.Ok? ==> Settled() && mem == root
      ensures o.Fault? || o.Refused? ==> mem == old(mem) && file == old(file) && durable == old(durable) && locked == old(locked)
      ensures o.Refused? ==> !ValidRoot(root)
      ensures o.Uncertain? ==> locked
      ensures old(locked) ==> o.Fault?
      ensures file in {old(file), root} && durable in {old(durable), old(file), root}
      ensures file == old(file) ==> durable in {old(durable), old(file)}
    {
      if locked { return Fault; }
      var accepted := CheckRoot(root);
      if !accepted { return Refused; }
      :- Hazard();
      if * {
        // Replaced and synced.
        mem, file, durable := root, root, root;
        return Ok;
      }
      // The rename failed or its sync did: either root may be visible, and a power loss may bring back any before it.
      if * { durable := file; }
      if * {
        file := root;
        if * { durable := root; }
      }
      if * { locked := true; return Crash; }
      if * { mem := root; }
      locked := true;
      return Uncertain;
    }

    /** The store's validation as a check, file entry by file entry. */
    method CheckRoot(root: Root) returns (accepted: bool)
      ensures accepted <==> ValidRoot(root)
    {
      if !root.initialized && root.keys != Prints(None, None) { return false; }
      if root.journal.None? { return true; }
      var t := root.journal.value;
      var valid := CheckTransaction(t);
      return valid && root.initialized && root.keys == if t.phase == Committed then t.after else t.before;
    }

    method CheckTransaction(t: Transaction) returns (accepted: bool)
      ensures accepted <==> ValidTransaction(t)
    {
      var roles := Roles(t.target);
      if |t.files| != |roles| { return false; }
      if t.after.client.None? || t.after.host.None? { return false; }
      if t.target == Client && t.before.host.Some? && t.before.host != t.after.host { return false; }
      if t.target == Host && t.before.client.Some? && t.before.client != t.after.client { return false; }
      var seen: set<Role> := {};
      for i := 0 to |t.files|
        invariant forall k | 0 <= k < i :: t.files[k].role in roles && (t.files[k].existed <==> t.files[k].oldSha.Some?)
        invariant seen == set k | 0 <= k < i :: t.files[k].role
        invariant forall j, k | 0 <= j < k < i :: t.files[j].role != t.files[k].role
      {
        var f := t.files[i];
        if f.role !in roles || f.role in seen || f.existed != f.oldSha.Some? { return false; }
        seen := seen + {f.role};
      }
      return true;
    }

    /** Loads the file again and syncs its directory; only success unlocks. */
    method Reload() returns (o: Outcome)
      modifies this`mem, this`durable, this`locked
      ensures o.Ok? || o.Fault? || o.Crash?
      ensures o.Ok? ==> Settled()
      ensures !o.Ok? ==> locked
      ensures durable in {old(durable), file}
    {
      locked := true;
      :- Hazard();
      if * { mem := file; }
      if * { durable := file; }
      :- Hazard();
      mem, durable, locked := file, file, false;
      return Ok;
    }

    /**
     The process starts again.  A power loss brings the durable root back; without one the visible
     root stays, and reading it does not make it durable.
     */
    method Restart(powerLoss: bool)
      modifies this`mem, this`file, this`durable, this`locked, this`failure, this`listener
      ensures StoreOk() && !locked && !failure && listener == Closed
      ensures file == if powerLoss then old(durable) else old(file)
      ensures durable in {old(durable), file}
    {
      if powerLoss { file := durable; }
      // The system may have written the visible root out meanwhile.
      if * { durable := file; }
      mem, locked, failure, listener := file, false, false, Closed;
    }

    // ---- the transaction ----

    /**
     Removes the transaction's own copies and nothing else.  The directory sync behind them is not
     counted as making the root durable: the copies are gone before it.
     */
    method Cleanup(t: Transaction, ghost plan: Plan) returns (o: Outcome)
      requires t == Journal(plan, t.id, t.phase)
      modifies this`disk
      ensures o.Ok? || o.Fault? || o.Crash?
      ensures forall path: Path | !IsCopy(path, t.target, t.id) :: Lookup(disk, path) == old(Lookup(disk, path))
      ensures o.Ok? ==> forall path: Path | IsCopy(path, t.target, t.id) :: path !in disk
    {
      ghost var roles := Roles(t.target);
      for i := 0 to |t.files|
        invariant forall path: Path | !IsCopy(path, t.target, t.id) :: Lookup(disk, path) == old(Lookup(disk, path))
        invariant forall path: Path | IsCopy(path, t.target, t.id) && path.role in roles[..i] :: path !in disk
      {
        assert t.files[i].role == roles[i] && roles[..i + 1] == roles[..i] + [roles[i]];
        :- Unlink(Stage(t.files[i].role, t.id));
        :- Unlink(KeyJournal.Path.Rollback(t.files[i].role, t.id));
      }
      assert roles[..|t.files|] == roles;
      o := Hazard();
    }

    /** The first pass of a rollback: decide for every file before changing any. */
    method Decide(t: Transaction, ghost plan: Plan) returns (o: Outcome, decisions: seq<Decision>)
      requires t == Journal(plan, t.id, t.phase)
      ensures o.Ok? || o.Fault? || o.Crash? || o.Refused?
      ensures o.Refused? ==> exists role: Role :: role in Roles(plan.target) && !Restorable(disk, plan, t.id, role)
      ensures o.Ok? ==> forall role: Role :: role in Roles(plan.target) ==> Restorable(disk, plan, t.id, role)
      ensures o.Ok? ==> |decisions| == |t.files|
      ensures o.Ok? ==> forall i | 0 <= i < |t.files| :: Decided(t.files[i].role, decisions[i], plan)
    {
      decisions := [];
      ghost var roles := Roles(plan.target);
      for i := 0 to |t.files|
        invariant |decisions| == i
        invariant forall k | 0 <= k < i :: Decided(t.files[k].role, decisions[k], plan)
        invariant forall k | 0 <= k < i :: Restorable(disk, plan, t.id, roles[k])
      {
        var f := t.files[i];
        assert f == Entry(plan, roles[i]);
        var existing :- MaybeRead(Destination(f.role));
        if Hash(existing) == f.oldSha {
          decisions := decisions + [Keep];
        } else if Hash(existing) != Some(f.newSha) {
          assert !Restorable(disk, plan, t.id, roles[i]);
          return Refused, decisions;
        } else if !f.existed {
          decisions := decisions + [Remove];
        } else {
          assert KeyJournal.Path.Rollback(f.role, t.id) !in disk ==> !Restorable(disk, plan, t.id, roles[i]);
          var kept :- ReadFile(KeyJournal.Path.Rollback(f.role, t.id));
          if Some(Sha256(kept)) != f.oldSha {
            assert !Restorable(disk, plan, t.id, roles[i]);
            return Refused, decisions;
          }
          decisions := decisions + [Restore(kept)];
        }
      }
      return Ok, decisions;
    }

    /** What a decision says about the file it was taken for. */
    ghost predicate Decided(role: Role, decision: Decision, plan: Plan) reads this`disk {
      match decision
      case Keep => Lookup(disk, Destination(role)) == plan.original.Of(role)
      case Remove => plan.original.Of(role).None?
      case Restore(bytes) => plan.original.Of(role) == Some(bytes)
    }

    /**
     Puts the old files back; any interruption leaves every file old or restorable.  Unless every
     file can be restored it changes nothing, and it is refused for no other reason.
     */
    method Rollback(t: Transaction, ghost plan: Plan) returns (o: Outcome)
      requires t == Journal(plan, t.id, t.phase)
      requires forall role: Role | role !in Roles(plan.target) :: Restorable(disk, plan, t.id, role)
      modifies this`disk
      ensures o.Ok? || o.Fault? || o.Crash? || o.Refused?
      ensures old(AllRestorable(disk, plan, t.id)) ==> AllRestorable(disk, plan, t.id) && !o.Refused?
      ensures old(!AllRestorable(disk, plan, t.id)) ==> disk == old(disk) && !o.Ok?
      ensures o.Ok? || old(AllOld(disk, plan)) ==> AllOld(disk, plan)
      ensures forall path: Path | !path.Destination? && !IsCopy(path, plan.target, t.id) :: Lookup(disk, path) == old(Lookup(disk, path))
    {
      var decisions :- Decide(t, plan);
      o := ApplyAll(Roles(t.target), decisions, t.id, plan);
    }

    /** The second pass of a rollback. */
    method ApplyAll(roles: seq<Role>, decisions: seq<Decision>, id: TransactionId, ghost plan: Plan) returns (o: Outcome)
      requires AllRestorable(disk, plan, id) && roles == Roles(plan.target) && |decisions| == |roles|
      requires forall i | 0 <= i < |roles| :: Decided(roles[i], decisions[i], plan)
      modifies this`disk
      ensures o.Ok? || o.Fault? || o.Crash?
      ensures AllRestorable(disk, plan, id)
      ensures o.Ok? || old(AllOld(disk, plan)) ==> AllOld(disk, plan)
      ensures forall path: Path | !path.Destination? && !IsCopy(path, plan.target, id) :: Lookup(disk, path) == old(Lookup(disk, path))
    {
      for i := 0 to |roles|
        invariant AllRestorable(disk, plan, id)
        invariant forall k | 0 <= k < i :: Lookup(disk, Destination(roles[k])) == plan.original.Of(roles[k])
        invariant forall k | i <= k < |roles| :: Decided(roles[k], decisions[k], plan)
        invariant forall role: Role :: old(Lookup(disk, Destination(role))) == plan.original.Of(role) ==>
                    Lookup(disk, Destination(role)) == plan.original.Of(role)
        invariant forall path: Path | !path.Destination? && !IsCopy(path, plan.target, id) :: Lookup(disk, path) == old(Lookup(disk, path))
      {
        :- Apply(roles[i], decisions[i], id, plan);
      }
      return Ok;
    }

    /** Carries out one decision; only that key file and its stage change. */
    method Apply(role: Role, decision: Decision, id: TransactionId, ghost plan: Plan) returns (o: Outcome)
      requires role in Roles(plan.target)
      requires Restorable(disk, plan, id, role) && Decided(role, decision, plan)
      modifies this`disk
      ensures o.Ok? || o.Fault? || o.Crash?
      ensures Restorable(disk, plan, id, role)
      ensures o.Ok? || old(Lookup(disk, Destination(role))) == plan.original.Of(role) ==>
                Lookup(disk, Destination(role)) == plan.original.Of(role)
      ensures forall p: Path | p != Destination(role) && p != Stage(role, id) :: Lookup(disk, p) == old(Lookup(disk, p))
    {
      match decision {
        case Keep =>
        case Remove =>
          :- Unlink(Destination(role));
        case Restore(bytes) =>
          // Through the stage, so that a second crash never consumes the only old copy.
          :- Unlink(Stage(role, id));
          :- WriteExclusive(Stage(role, id), bytes);
          :- Replace(Stage(role, id), Destination(role));
      }
      return Ok;
    }

    // ---- inspection and recovery ----

    ghost predicate HasState(role: Role, expected: Option<Fingerprint>, state: KeyState) reads this`disk {
      match Lookup(disk, Destination(role))
      case None => state == Missing
      case Some(bytes) =>
        match identity(bytes)
        case None => state == Invalid
        case Some(mark) => state == if expected.Some? && expected.value != mark then Changed else Ready
    }

    method InspectOne(role: Role, expected: Option<Fingerprint>) returns (o: Outcome, state: KeyState)
      ensures o.Ok? || o.Fault? || o.Crash?
      ensures o.Ok? ==> HasState(role, expected, state)
    {
      state := Missing;
      var bytes :- MaybeRead(Destination(role));
      if bytes.None? { return Ok, Missing; }
      var mark := identity(bytes.value);
      if mark.None? { return Ok, Invalid; }
      return Ok, if expected.Some? && expected != mark then Changed else Ready;
    }

    /** A committed transaction must be whole: its files are the new ones and carry the recorded identities. */
    method ValidateCommitted(t: Transaction, ghost plan: Plan) returns (o: Outcome)
      ensures o.Ok? || o.Fault? || o.Crash? || o.Refused?
      ensures o.Refused? ==> !(PlanOk(plan, identity) && t == Journal(plan, t.id, Committed) && Forward(disk, mem, plan, t.id))
      ensures o.Ok? ==> mem.keys == t.after
      ensures o.Ok? ==> forall i | 0 <= i < |t.files| :: Hash(Lookup(disk, Destination(t.files[i].role))) == Some(t.files[i].newSha)
      ensures o.Ok? ==> HasState(ClientPrivate, mem.keys.client, Ready) && HasState(HostPrivate, mem.keys.host, Ready)
    {
      if mem.keys != t.after { return Refused; }
      for i := 0 to |t.files|
        invariant forall k | 0 <= k < i :: Hash(Lookup(disk, Destination(t.files[k].role))) == Some(t.files[k].newSha)
      {
        var bytes :- ReadFile(Destination(t.files[i].role));
        if Sha256(bytes) != t.files[i].newSha { return Refused; }
      }
      var client :- InspectOne(ClientPrivate, mem.keys.client);
      var host :- InspectOne(HostPrivate, mem.keys.host);
      if client != Ready || host != Ready { return Refused; }
      return Ok;
    }

    /** The file work of a recovery, with the root untouched: it ends with the files finished and the copies gone. */
    method FinishFiles(t: Transaction, ghost plan: Plan, ghost id: TransactionId) returns (o: Outcome)
      requires PlanOk(plan, identity) && Reached(plan, id) && mem == file && mem.journal == Some(t)
      modifies this`disk
      ensures o.Ok? || o.Fault? || o.Crash? || o.Refused?
      ensures Reached(plan, id)
      ensures o.Refused? ==> old(Stuck(disk, file, plan, id))
      ensures old(Stuck(disk, file, plan, id)) ==> !o.Ok? && disk == old(disk)
      ensures old(BackwardAll(plan, id)) ==> BackwardAll(plan, id)
      ensures old(ForwardAll(plan, id)) ==> ForwardAll(plan, id)
      ensures old(Forward(disk, file, plan, id)) ==> Forward(disk, file, plan, id)
      ensures Stuck(disk, durable, plan, id) && !old(Stuck(disk, durable, plan, id)) ==> Stranding(file, durable, plan)
      ensures o.Ok? ==> Finishes(old(disk), file, disk, plan, id)
      ensures o.Ok? && t.phase != Committed ==> AllOld(disk, plan)
    {
      ghost var before := disk;
      if t.phase == Committed {
        :- ValidateCommitted(t, plan);
        o := Cleanup(t, plan);
        Uncopied(before, disk, file, durable, plan, id);
      } else {
        :- Rollback(t, plan);
        o := Cleanup(t, plan);
        Restored(before, disk, file, plan, id);
        Restored(before, disk, durable, plan, id);
      }
    }

    /**
     Finishes whatever the journal says.  With old bytes at stake it is refused for good; otherwise
     it is never refused, keeps the direction the journal had at every interruption, and when it
     completes the journal is gone.  A visible commit puts old bytes at stake by the removal of the
     copies, which comes before the root is made durable.
     */
    method Recover(ghost plan: Plan, ghost id: TransactionId) returns (o: Outcome)
      requires StoreOk() && PlanOk(plan, identity) && Reached(plan, id)
      modifies this`disk, this`mem, this`file, this`durable, this`locked, this`failure
      ensures StoreOk() && Reached(plan, id)
      ensures o.Ok? || o.Fault? || o.Uncertain? || o.Crash? || o.Refused?
      ensures o.Refused? ==> old(Stuck(disk, file, plan, id))
      ensures old(!locked && Stuck(disk, file, plan, id)) ==> !o.Ok? && disk == old(disk) && file == old(file) && durable == old(durable) && !locked
      ensures old(BackwardAll(plan, id)) ==> BackwardAll(plan, id)
      ensures old(ForwardAll(plan, id)) ==> ForwardAll(plan, id)
      ensures old(Forward(disk, file, plan, id)) ==> Forward(disk, file, plan, id)
      ensures Stuck(disk, durable, plan, id) && !old(Stuck(disk, durable, plan, id)) ==> old(!locked && Stranding(file, durable, plan))
      ensures o.Ok? ==> !locked && mem.journal.None? && mem.keys == old(mem.keys) && !failure
      ensures o.Ok? ==> Finishes(old(disk), old(file), disk, plan, id)
      ensures o.Ok? && old(file.journal.Some?) ==> Settled()
      ensures file.journal.Some? ==> file == old(file)
      ensures durable.journal.Some? ==> durable in {old(durable), old(file)}
      ensures old(locked) ==> o.Fault? && disk == old(disk)
    {
      if locked { return Fault; }
      if mem.journal.None? { failure := false; return Ok; }
      var t := mem.journal.value;
      failure := true;
      JournalIsValid(plan, id, t.phase, identity);
      var valid := CheckTransaction(t);
      if !valid { return Refused; }
      :- FinishFiles(t, plan, id);
      // The last root write, after every file change.
      :- RootCommit(Root(true, if t.phase == Committed then t.after else t.before, None));
      failure := false;
      return Ok;
    }

    // ---- execution ----

    /** The caller's context may have been cancelled or replaced. */
    method CheckCurrent() returns (o: Outcome)
      ensures o.Ok? || o.Cancelled?
    {
      if * { return Cancelled; }
      return Ok;
    }

    /** An awaited callback of the caller; it leaves the key files and the root alone. */
    method External() returns (o: Outcome)
      ensures o.Ok? || o.Fault? || o.Cancelled? || o.Crash?
    {
      o := CheckCurrent();
      if !o.Ok? { return; }
      o := Hazard();
    }

    method ExportBackup() returns (o: Outcome)
      ensures o.Ok? || o.Fault? || o.Cancelled? || o.Crash? || o.Dismissed?
    {
      o := External();
      if !o.Ok? { return; }
      if * { return Dismissed; }
      return Ok;
    }

    method StartCandidate() returns (o: Outcome)
      modifies this`listener
      ensures listener != Open
      ensures o.Ok? || o.Fault? || o.Cancelled? || o.Crash?
      ensures o.Ok? ==> listener == Gated
    {
      listener := Closed;
      :- External();
      listener := Gated;
      o := External();
    }

    /** Opens admission; the controller refuses unless it sees this transaction committed in an unlocked store. */
    method ActivateCandidate(id: TransactionId) returns (o: Outcome)
      modifies this`listener
      ensures o.Ok? || o.Fault? || o.Cancelled? || o.Crash?
      ensures o.Ok? ==> listener == Open
      ensures listener == old(listener) ||
              (!locked && mem.journal.Some? && mem.journal.value.id == id && mem.journal.value.phase == Committed)
    {
      o := External();
      if !o.Ok? { return; }
      if locked || mem.journal.None? || mem.journal.value.id != id || mem.journal.value.phase != Committed { return Fault; }
      listener := Open;
      return Ok;
    }

    method StopCandidate() returns (o: Outcome)
      modifies this`listener
      ensures o.Ok? || o.Fault? || o.Crash?
      ensures o.Ok? ==> listener == Closed
      ensures listener == old(listener) || listener == Closed
    {
      o := Hazard();
      if !o.Ok? { return; }
      listener := Closed;
      o := Hazard();
    }

    method AssertOriginal(roles: seq<Role>, plan: Plan) returns (o: Outcome)
      ensures o.Ok? || o.Fault? || o.Crash? || o.Refused?
      ensures o.Ok? ==> forall i | 0 <= i < |roles| :: Lookup(disk, Destination(roles[i])) == plan.original.Of(roles[i])
    {
      for i := 0 to |roles|
        invariant forall k | 0 <= k < i :: Lookup(disk, Destination(roles[k])) == plan.original.Of(roles[k])
      {
        var actual :- MaybeRead(Destination(roles[i]));
        if actual != plan.original.Of(roles[i]) { return Refused; }
      }
      return Ok;
    }

    method AssertAllOriginal(plan: Plan) returns (o: Outcome)
      ensures o.Ok? || o.Fault? || o.Crash? || o.Refused?
      ensures o.Ok? ==> AllOld(disk, plan)
    {
      var roles := [ClientPrivate, ClientPublic, HostPrivate];
      :- AssertOriginal(roles, plan);
      assert Lookup(disk, Destination(roles[0])) == plan.original.Of(roles[0]);
      assert Lookup(disk, Destination(roles[1])) == plan.original.Of(roles[1]);
      assert Lookup(disk, Destination(roles[2])) == plan.original.Of(roles[2]);
      return Ok;
    }

    /** Every new file is staged and every old file is copied. */
    ghost predicate Staged(role: Role, plan: Plan, id: TransactionId) reads this`disk {
      && Lookup(disk, Stage(role, id)) == Some(plan.renewed.Of(role))
      && (plan.original.Of(role).Some? ==> Lookup(disk, KeyJournal.Path.Rollback(role, id)) == plan.original.Of(role))
    }

    twostate predicate KeyFilesUnchanged() reads this`disk {
      forall role: Role {:trigger Lookup(disk, Destination(role))} ::
        Lookup(disk, Destination(role)) == old(Lookup(disk, Destination(role)))
    }

    method StageAll(plan: Plan, id: TransactionId) returns (o: Outcome)
      modifies this`disk
      ensures o.Ok? || o.Fault? || o.Crash? || o.Cancelled?
      ensures KeyFilesUnchanged()
      ensures o.Ok? ==> forall i | 0 <= i < |Roles(plan.target)| :: Staged(Roles(plan.target)[i], plan, id)
    {
      var roles := Roles(plan.target);
      for i := 0 to |roles|
        invariant KeyFilesUnchanged()
        invariant forall k | 0 <= k < i :: Staged(roles[k], plan, id)
      {
        :- CheckCurrent();
        :- WriteExclusive(Stage(roles[i], id), plan.renewed.Of(roles[i]));
        if plan.original.Of(roles[i]).Some? {
          :- WriteExclusive(KeyJournal.Path.Rollback(roles[i], id), plan.original.Of(roles[i]).value);
        }
      }
      return Ok;
    }

    /** Reads every copy back before the journal may mention it. */
    method VerifyStaged(t: Transaction, ghost plan: Plan) returns (o: Outcome)
      requires t == Journal(plan, t.id, t.phase)
      ensures o.Ok? || o.Fault? || o.Crash? || o.Refused?
      ensures o.Ok? ==> forall i | 0 <= i < |Roles(plan.target)| :: Staged(Roles(plan.target)[i], plan, t.id)
    {
      for i := 0 to |t.files|
        invariant forall k | 0 <= k < i :: Staged(t.files[k].role, plan, t.id)
      {
        var f := t.files[i];
        assert f == Entry(plan, f.role);
        var staged :- ReadFile(Stage(f.role, t.id));
        if Sha256(staged) != f.newSha { return Refused; }
        if f.existed {
          var kept :- ReadFile(KeyJournal.Path.Rollback(f.role, t.id));
          if Some(Sha256(kept)) != f.oldSha { return Refused; }
        }
      }
      assert forall i | 0 <= i < |t.files| :: t.files[i].role == Roles(plan.target)[i];
      return Ok;
    }

    /** Moves one staged file over its destination. */
    method InstallOne(f: FileEntry, plan: Plan, id: TransactionId) returns (o: Outcome)
      requires f == Entry(plan, f.role) && f.role in Roles(plan.target)
      requires AllRestorable(disk, plan, id)
      requires plan.original.Of(f.role).Some? ==> Lookup(disk, KeyJournal.Path.Rollback(f.role, id)) == plan.original.Of(f.role)
      modifies this`disk
      ensures o.Ok? || o.Fault? || o.Crash? || o.Refused? || o.Cancelled?
      ensures AllRestorable(disk, plan, id)
      ensures o.Ok? ==> Lookup(disk, Destination(f.role)) == Some(plan.renewed.Of(f.role))
      ensures forall p: Path | p != Destination(f.role) && p != Stage(f.role, id) :: Lookup(disk, p) == old(Lookup(disk, p))
    {
      o := CheckCurrent();
      if !o.Ok? { return; }
      :- AssertOriginal([f.role], plan);
      var staged :- ReadFile(Stage(f.role, id));
      if Sha256(staged) != f.newSha { return Refused; }
      :- Replace(Stage(f.role, id), Destination(f.role));
      return Ok;
    }

    method InstallAll(t: Transaction, plan: Plan) returns (o: Outcome)
      requires t == Journal(plan, t.id, t.phase)
      requires AllOld(disk, plan)
      requires forall i | 0 <= i < |Roles(plan.target)| :: Staged(Roles(plan.target)[i], plan, t.id)
      modifies this`disk
      ensures o.Ok? || o.Fault? || o.Crash? || o.Refused? || o.Cancelled?
      ensures AllRestorable(disk, plan, t.id)
      ensures o.Ok? ==> AllNew(disk, plan)
    {
      var roles := Roles(t.target);
      for i := 0 to |roles|
        invariant AllRestorable(disk, plan, t.id)
        invariant forall k | 0 <= k < i :: Lookup(disk, Destination(roles[k])) == Some(plan.renewed.Of(roles[k]))
        invariant forall k | i <= k < |roles| :: Staged(roles[k], plan, t.id)
        invariant forall role: Role | role !in roles :: Lookup(disk, Destination(role)) == plan.original.Of(role)
      {
        assert t.files[i] == Entry(plan, roles[i]);
        :- InstallOne(t.files[i], plan, t.id);
      }
      return Ok;
    }

    method AssertInstalled(t: Transaction, plan: Plan) returns (o: Outcome)
      requires t == Journal(plan, t.id, t.phase)
      ensures o.Ok? || o.Fault? || o.Crash? || o.Refused?
      ensures o.Ok? ==> AllNew(disk, plan)
    {
      var roles := Roles(t.target);
      for i := 0 to |t.files|
        invariant forall k | 0 <= k < i :: Lookup(disk, Destination(roles[k])) == Some(plan.renewed.Of(roles[k]))
      {
        assert t.files[i] == Entry(plan, roles[i]);
        var bytes :- ReadFile(Destination(t.files[i].role));
        if Sha256(bytes) != t.files[i].newSha { return Refused; }
      }
      var others := Untouched(t.target);
      :- AssertOriginal(others, plan);
      forall role: Role ensures role in roles || role in others { EveryRoleIsCovered(t.target, role); }
      return Ok;
    }

    /** What stands at the three places, and the states of the two keys. */
    method ReadKeys() returns (o: Outcome, found: PerRole<Option<Bytes>>, client: KeyState, host: KeyState)
      ensures o.Ok? || o.Fault? || o.Crash?
      ensures o.Ok? ==> found == PerRole(Lookup(disk, Destination(ClientPrivate)), Lookup(disk, Destination(ClientPublic)), Lookup(disk, Destination(HostPrivate)))
      ensures o.Ok? ==> HasState(ClientPrivate, mem.keys.client, client) && HasState(HostPrivate, mem.keys.host, host)
    {
      hide HasState;
      found, client, host := PerRole(None, None, None), Missing, Missing;
      var clientOld :- MaybeRead(Destination(ClientPrivate));
      var publicOld :- MaybeRead(Destination(ClientPublic));
      var hostOld :- MaybeRead(Destination(HostPrivate));
      found := PerRole(clientOld, publicOld, hostOld);
      client :- InspectOne(ClientPrivate, mem.keys.client);
      host :- InspectOne(HostPrivate, mem.keys.host);
      return Ok, found, client, host;
    }

    /**
     Builds a plan.  A supplied pair comes from an imported backup and replaces both keys; a kept
     key is the one on disk; anything else is generated.  A plan exists only if both identities
     are readable, and a working key that is about to be lost asks for a backup first.
     */
    method Prepare(target: Target, supplied: Option<(Bytes, Bytes)>, rebuild: bool, generated: (Bytes, Bytes))
      returns (o: Outcome, plan: Option<Plan>)
      requires supplied.Some? ==> target == Both && rebuild
      ensures o.Ok? <==> plan.Some?
      ensures o.Ok? ==> PlanOk(plan.value, identity) && plan.value.target == target
      ensures o.Ok? ==> !locked && !failure && mem.journal.None? && plan.value.before == mem.keys && AllOld(disk, plan.value)
      ensures o.Ok? ==>
        (plan.value.needsBackup <==>
           || (target != Host && HasState(ClientPrivate, mem.keys.client, Ready) && plan.value.original.clientPrivate != Some(plan.value.renewed.clientPrivate))
           || (target != Client && HasState(HostPrivate, mem.keys.host, Ready) && plan.value.original.hostPrivate != Some(plan.value.renewed.hostPrivate)))
      ensures o.Ok? && !rebuild ==>
        HasState(ClientPrivate, mem.keys.client, Ready) && HasState(HostPrivate, mem.keys.host, Ready) && mem.initialized
    {
      plan := None;
      if locked { return Refused, None; }
      :- CheckCurrent();
      if mem.journal.Some? || failure { return Refused, None; }
      var found, client, host :- ReadKeys();
      if (target == Client && host != Ready) || (target == Host && client != Ready) { return Refused, None; }
      var keepClient := target == Host || (rebuild && client == Ready);
      var keepHost := target == Client || (rebuild && host == Ready);
      var clientKey := if supplied.Some? then supplied.value.0 else if keepClient then found.clientPrivate.value else generated.0;
      var hostKey := if supplied.Some? then supplied.value.1 else if keepHost then found.hostPrivate.value else generated.1;
      var after := Prints(identity(clientKey), identity(hostKey));
      if after.client.None? || after.host.None? { return Refused, None; }
      var needsBackup := false;
      if target != Host {
        if !rebuild && client != Ready { return Refused, None; }
        needsBackup := client == Ready && found.clientPrivate != Some(clientKey);
      }
      if target != Client {
        if !rebuild && host != Ready { return Refused, None; }
        needsBackup := needsBackup || (host == Ready && found.hostPrivate != Some(hostKey));
      }
      if !rebuild && (client != Ready || host != Ready || !mem.initialized) { return Refused, None; }
      return Ok, Some(Plan(target, mem.keys, after, found,
                           PerRole(clientKey, publicLine(clientKey), hostKey), needsBackup));
    }

    /** What one attempt leaves behind, by how far it got. */
    twostate predicate AttemptPost(plan: Plan, id: TransactionId, o: Outcome, p: Progress) reads this {
      && StoreOk()
      && (!p.staged || old(locked) ==>
            && KeyFilesUnchanged() && !o.Ok? && !o.Uncertain? && !p.prepared && !p.committed && !p.candidate
            && mem == old(mem) && file == old(file) && durable == old(durable) && locked == old(locked)
            && listener == old(listener))
      && (p.staged ==> old(mem.journal.None?) && !o.Dismissed?)
      && (p.staged && !old(locked) ==>
            && (p.committed ==> ForwardAll(plan, id))
            && (!p.committed ==> Standing(plan, id) || (Barely(plan, id) && !p.prepared))
            && (!p.committed ==> (p.prepared ==> file.journal.Some?) && (Backward(disk, file, plan, id) || file.journal.Some?))
            && (!o.Uncertain? && !o.Crash? ==> !locked && if p.prepared then Settled() else durable == old(durable))
            && (!p.committed && !o.Uncertain? && !o.Crash? ==>
                  Backward(disk, mem, plan, id) && (mem.journal.Some? <==> p.prepared))
            && (o.Ok? ==> Settled() && Forward(disk, mem, plan, id) && mem.journal.None? && p.committed && listener == Open)
            && (listener == Open ==> p.committed && p.candidate)
            && (listener == Gated ==> p.candidate))
    }

    /** Up to the prepared journal: nothing but the transaction's own copies is written. */
    method Begin(plan: Plan, id: TransactionId) returns (o: Outcome, p: Progress)
      requires StoreOk() && PlanOk(plan, identity)
      modifies this`disk, this`mem, this`file, this`durable, this`locked
      ensures StoreOk() && KeyFilesUnchanged()
      ensures !p.committed && !p.candidate && (p.prepared <==> o.Ok?) && (o.Ok? ==> p.staged)
      ensures p.staged ==> old(mem.journal.None? && mem.keys == plan.before) && !o.Dismissed?
      ensures !p.staged || old(locked) ==>
                !o.Ok? && !o.Uncertain? && mem == old(mem) && file == old(file) && durable == old(durable) && locked == old(locked)
      ensures p.staged && !old(locked) ==> BackwardAll(plan, id) || Barely(plan, id)
      ensures p.staged && !old(locked) && !o.Ok? && !o.Uncertain? && !o.Crash? ==> !locked && mem == old(mem) && durable == old(durable)
      ensures o.Ok? ==> Settled() && AllOld(disk, plan) && mem == Root(true, plan.before, Some(Journal(plan, id, Prepared)))
      ensures o.Ok? ==> forall i | 0 <= i < |Roles(plan.target)| :: Staged(Roles(plan.target)[i], plan, id)
    {
      p := Progress(false, false, false, false, false);
      if plan.needsBackup {
        :- ExportBackup();
        :- CheckCurrent();
      }
      if mem.keys != plan.before || mem.journal.Some? { return Refused, p; }
      :- AssertAllOriginal(plan);
      :- External();
      p := p.(interrupted := true);
      :- CheckCurrent();
      :- AssertAllOriginal(plan);
      var t := Journal(plan, id, Prepared);
      p := p.(staged := true);
      :- StageAll(plan, id);
      :- AssertAllOriginal(plan);
      :- VerifyStaged(t, plan);
      :- CheckCurrent();
      JournalIsValid(plan, id, Prepared, identity);
      :- RootCommit(Root(true, plan.before, Some(t)));
      p := p.(prepared := true);
      return Ok, p;
    }

    /** From the prepared journal to a running candidate that admits nobody. */
    method InstallAndStart(plan: Plan, id: TransactionId) returns (o: Outcome, candidate: bool)
      requires Settled() && PlanOk(plan, identity) && listener == Closed
      requires mem == Root(true, plan.before, Some(Journal(plan, id, Prepared))) && AllOld(disk, plan)
      requires forall i | 0 <= i < |Roles(plan.target)| :: Staged(Roles(plan.target)[i], plan, id)
      modifies this`disk, this`mem, this`file, this`durable, this`locked, this`listener
      ensures StoreOk() && BackwardAll(plan, id) && file.journal.Some? && durable.journal.Some?
      ensures listener != Open && (listener == Gated ==> candidate) && !o.Dismissed?
      ensures !o.Uncertain? && !o.Crash? ==> Settled()
      ensures o.Ok? ==> AllNew(disk, plan) && mem == Root(true, plan.before, Some(Journal(plan, id, Installed))) && candidate
    {
      candidate := false;
      var t := Journal(plan, id, Prepared);
      :- InstallAll(t, plan);
      :- CheckCurrent();
      :- AssertInstalled(t, plan);
      :- RootCommit(mem.(journal := Some(t.(phase := Installed))));
      :- CheckCurrent();
      candidate := true;
      :- StartCandidate();
      :- CheckCurrent();
      :- AssertInstalled(t, plan);
      :- CheckCurrent();
      return Ok, candidate;
    }

    /** The commit itself, then admission, then the removal of the journal. */
    method CommitAndFinish(plan: Plan, id: TransactionId) returns (o: Outcome, committed: bool)
      requires Settled() && PlanOk(plan, identity) && listener != Open
      requires AllNew(disk, plan) && AllRestorable(disk, plan, id)
      requires mem == Root(true, plan.before, Some(Journal(plan, id, Installed)))
      modifies this`disk, this`mem, this`file, this`durable, this`locked, this`failure, this`listener
      ensures StoreOk() && Standing(plan, id)
      ensures !o.Dismissed? && (committed ==> ForwardAll(plan, id))
      ensures !committed ==> file.journal.Some? && durable.journal.Some? && !o.Ok? && listener == old(listener)
      ensures !o.Uncertain? && !o.Crash? ==> Settled() && (!committed ==> Backward(disk, mem, plan, id))
      ensures o.Ok? ==> Settled() && mem.journal.None? && mem.keys == plan.after && listener == Open && !failure
      ensures !o.Ok? ==> failure == old(failure)
    {
      committed := false;
      JournalIsValid(plan, id, Committed, identity);
      var t := Journal(plan, id, Committed);
      :- RootCommit(Root(true, plan.after, Some(t)));
      committed := true;
      :- CheckCurrent();
      :- ValidateCommitted(t, plan);
      :- ActivateCandidate(id);
      :- CheckCurrent();
      :- Cleanup(t, plan);
      :- RootCommit(mem.(journal := None));
      failure := false;
      return Ok, committed;
    }

    method TryExecute(plan: Plan, id: TransactionId) returns (o: Outcome, p: Progress)
      requires StoreOk() && PlanOk(plan, identity) && listener == Closed
      modifies this`disk, this`mem, this`file, this`durable, this`locked, this`failure, this`listener
      ensures AttemptPost(plan, id, o, p)
      ensures failure == (!o.Ok? && old(failure))
    {
      o, p := Begin(plan, id);
      if !o.Ok? { return; }
      var candidate;
      o, candidate := InstallAndStart(plan, id);
      p := p.(candidate := candidate);
      if !o.Ok? { return; }
      var committed;
      o, committed := CommitAndFinish(plan, id);
      p := p.(committed := committed);
    }

    /** The uncommitted branch of the failure handler: old files back, copies removed, journal cleared. */
    method Undo(t: Transaction, plan: Plan, prepared: bool) returns (o: Outcome)
      requires StoreOk() && PlanOk(plan, identity) && t == Journal(plan, t.id, t.phase)
      requires (prepared ==> mem.journal.Some?) && (mem.journal.Some? ==> !locked)
      requires !locked ==> Backward(disk, mem, plan, t.id)
      requires !locked && mem.journal.Some? ==> Backward(disk, durable, plan, t.id)
      modifies this`disk, this`mem, this`file, this`durable, this`locked
      ensures o.Ok? || o.Fault? || o.Cancelled? || o.Uncertain? || o.Crash?
      ensures StoreOk()
      ensures old(locked) ==> KeyFilesUnchanged() && !o.Uncertain?
      ensures old(locked) ==> mem == old(mem) && file == old(file) && durable == old(durable) && locked
      ensures !old(locked) ==> Backward(disk, file, plan, t.id)
      ensures !old(locked) ==> if old(mem.journal.Some?) then Backward(disk, durable, plan, t.id) else Barely(plan, t.id) && file == old(file)
      ensures !old(locked) && o.Ok? ==> !locked && mem.journal.None? && (old(mem.journal.Some?) ==> durable == file)
    {
      if prepared || (mem.journal.Some? && mem.journal.value.id == t.id) {
        :- Rollback(t, plan);
        :- CheckCurrent();
      }
      :- Cleanup(t, plan);
      :- CheckCurrent();
      if mem.journal.Some? && mem.journal.value.id == t.id {
        JournalIsValid(plan, t.id, t.phase, identity);
        :- RootCommit(Root(true, plan.before, None));
      }
      return Ok;
    }

    /** After an uncertain commit the root is loaded again, and what it says decides the direction. */
    method Resolve(plan: Plan, id: TransactionId, p: Progress) returns (o: Outcome, t: Transaction, q: Progress)
      requires PlanOk(plan, identity) && SafeRoot(disk, file, plan, id)
      requires p.committed ==> ForwardAll(plan, id)
      requires !p.committed ==> Backward(disk, file, plan, id) || file.journal.Some?
      requires !p.committed && p.prepared ==> file.journal.Some?
      modifies this`mem, this`durable, this`locked, this`failure
      ensures StoreOk() && durable in {old(durable), file}
      ensures o.Ok? || o.Uncertain? || o.Crash?
      ensures q.staged == p.staged && q.interrupted == p.interrupted
      ensures q.committed ==> ForwardAll(plan, id)
      ensures p.committed ==> q.committed
      ensures o.Uncertain? ==> failure
      ensures o.Ok? ==> Settled() && t == Journal(plan, id, t.phase)
      ensures o.Ok? && !q.committed ==> Backward(disk, mem, plan, id) && (mem.journal.Some? <==> q.prepared)
    {
      t, q := Journal(plan, id, Prepared), p;
      failure := true;
      var loaded := Reload();
      if !loaded.Ok? { return if loaded.Crash? then Crash else Uncertain, t, q; }
      if mem.journal.Some? && mem.journal.value.id == id {
        t := mem.journal.value;
        q := p.(prepared := true, committed := t.phase == Committed);
      } else if mem.journal.Some? || mem.keys != plan.before {
        return Uncertain, t, q;
      }
      failure := false;
      return Ok, t, q;
    }

    /** The failure handler: never touches a committed identity, otherwise undoes the attempt. */
    method HandleFailure(plan: Plan, id: TransactionId, t: Transaction, p: Progress) returns (o: Outcome)
      requires StoreOk() && PlanOk(plan, identity) && t == Journal(plan, id, t.phase)
      requires p.committed ==> !locked && ForwardAll(plan, id)
      requires p.staged && !p.committed && !locked ==> Backward(disk, mem, plan, id) && (mem.journal.Some? <==> p.prepared)
      requires !p.staged || locked ==> !p.prepared && !p.committed
      requires p.staged && locked ==> mem.journal.None?
      requires p.prepared && !p.committed ==> Backward(disk, durable, plan, id)
      modifies this`disk, this`mem, this`file, this`durable, this`locked, this`failure
      ensures StoreOk()
      ensures !p.staged || old(locked) ==> KeyFilesUnchanged() && mem == old(mem) && file == old(file)
      ensures !p.staged || old(locked) ==> durable == old(durable) && locked == old(locked)
      ensures !o.Ok? && (p.committed ==> ForwardAll(plan, id) && failure)
      ensures p.staged && !old(locked) && !p.committed ==>
                Backward(disk, file, plan, id) && if p.prepared then Backward(disk, durable, plan, id) else Barely(plan, id) && file == old(file)
      ensures p.staged && !old(locked) && !p.committed && !o.Crash? && !o.Cancelled? && !failure ==>
                !locked && mem.journal.None? && (p.prepared ==> durable == file)
    {
      if p.committed || (p.staged && mem.journal.Some? && mem.journal.value.id == id && mem.journal.value.phase == Committed) {
        // The committed identity is never replaced with the old one.
        failure := true;
        return Fault;
      }
      if p.staged {
        var undone := Undo(t, plan, p.prepared);
        if undone.Cancelled? || undone.Crash? { return undone; }
        if !undone.Ok? { failure := true; return undone; }
        failure := false;
      }
      if p.interrupted {
        :- External();
        :- CheckCurrent();
      }
      return Fault;
    }

    /**
     Executes a prepared plan once.  At every exit, a crash included, whichever root survives
     matches the files, unless it is the root that was durable before and no key file has changed;
     a committed root is never taken back; admission is open only after the commit; and a failure
     that leaves no mark has put every file and the root back.
     */
    method Execute(plan: Plan, id: TransactionId) returns (o: Outcome, p: Progress)
      requires StoreOk() && PlanOk(plan, identity)
      modifies this
      ensures StoreOk()
      ensures !p.staged || old(locked) ==> KeyFilesUnchanged() && !o.Ok?
      ensures !p.staged || old(locked) ==> mem == old(mem) && file == old(file) && durable == old(durable) && locked == old(locked)
      ensures p.staged && !old(locked) ==> Standing(plan, id) || Barely(plan, id)
      ensures p.committed ==> ForwardAll(plan, id)
      ensures listener == Open ==> ForwardAll(plan, id)
      ensures o.Ok? ==> Settled() && mem.journal.None? && mem.keys == plan.after && AllNew(disk, plan) && listener == Open && !failure
      ensures p.staged && !old(locked) && !o.Ok? && !o.Crash? && !o.Cancelled? && !failure ==>
                !locked && mem.journal.None? && mem.keys == plan.before && AllOld(disk, plan) && durable in {file, old(durable)}
    {
      hide PlanOk, Lasting;
      listener := Closed;
      o, p := TryExecute(plan, id);
      if o.Ok? || o.Crash? || o.Dismissed? { return; }
      if p.candidate {
        // Closing admission is the first effect even when the root outcome is unknown.
        var stopped := StopCandidate();
        if !stopped.Ok? { failure := true; return stopped, p; }
      }
      var t := Journal(plan, id, Prepared);
      if o.Uncertain? {
        o, t, p := Resolve(plan, id, p);
        if !o.Ok? { return; }
      }
      o := HandleFailure(plan, id, t, p);
    }

    /** A restart and the recovery behind it, with the roots the restart finds. */
    method RestartAndRecover(ghost plan: Plan, ghost id: TransactionId, powerLoss: bool) returns (o: Outcome, ghost found: Root, ghost below: Root)
      requires PlanOk(plan, identity) && (Standing(plan, id) || Reached(plan, id))
      modifies this
      ensures Reached(plan, id) && found == (if powerLoss then old(durable) else old(file)) && below in {old(durable), found}
      ensures o.Refused? || old(Stuck(disk, file, plan, id) && Stuck(disk, durable, plan, id)) ==>
                !o.Ok? && Stuck(disk, file, plan, id) && Stuck(disk, durable, plan, id)
      ensures o.Refused? ==> old(Stuck(disk, file, plan, id) || Stuck(disk, durable, plan, id))
      ensures o.Ok? ==> StoreOk() && !locked && mem.journal.None? && mem == file && SafeRoot(disk, mem, plan, id)
      ensures Stranding(file, durable, plan) || Stuck(disk, durable, plan, id) ==>
                Stranding(found, below, plan) || old(Stuck(disk, durable, plan, id) || Stranding(file, durable, plan))
      ensures old(BackwardAll(plan, id)) || (old(Standing(plan, id)) && Waits(found)) ==> BackwardAll(plan, id)
      ensures old(ForwardAll(plan, id)) || (old(Standing(plan, id)) && Commits(found) && !Waits(below)) ==> ForwardAll(plan, id)
      ensures (!powerLoss && old(Forward(disk, file, plan, id))) || (old(Standing(plan, id)) && Commits(found)) ==> Forward(disk, file, plan, id)
    {
      hide AllOld, AllNew, Restorable, PlanOk, Finishes, Loses;
      Restart(powerLoss);
      found, below := file, durable;
      o := Recover(plan, id);
    }

    /**
     One whole run: an execution that may stop anywhere, then any restarts, each with or without
     a power loss, and a recovery after each that may stop anywhere.  The roots found at the first
     restart decide: unless the commit was visible, not durable, and had replaced bytes, no recovery
     is refused and the visible journal's direction stays.
     */
    method RunToRecovery(plan: Plan, id: TransactionId, powerLosses: seq<bool>)
      returns (done: bool, refused: bool, ghost found: Root, ghost below: Root)
      requires Settled() && PlanOk(plan, identity) && Backward(disk, mem, plan, id) && mem.journal.None?
      requires powerLosses != []
      modifies this
      ensures refused ==> Stranding(found, below, plan) && !done && Stuck(disk, file, plan, id) && Stuck(disk, durable, plan, id)
      ensures !Stranding(found, below, plan) ==> Safe(plan, id)
      ensures done ==> !locked && mem == file && mem.journal.None?
      ensures done ==> (mem.keys == plan.before && AllOld(disk, plan)) || (mem.keys == plan.after && AllNew(disk, plan))
      ensures done && Waits(found) ==> mem.keys == plan.before && AllOld(disk, plan)
      ensures done && Commits(found) && !Waits(below) ==> mem.keys == plan.after && AllNew(disk, plan)
      ensures done && Commits(found) && (forall n | 0 < n < |powerLosses| :: !powerLosses[n]) ==> mem.keys == plan.after && AllNew(disk, plan)
    {
      var o, p := Execute(plan, id);
      done, refused, found, below := false, false, file, durable;
      for n := 0 to |powerLosses|
        invariant n == 0 ==> Standing(plan, id) && !done && !refused
        invariant n > 0 ==> Reached(plan, id)
        invariant n > 0 && (Stranding(file, durable, plan) || Stuck(disk, durable, plan, id)) ==> Stranding(found, below, plan)
        invariant refused ==> Stuck(disk, file, plan, id) && Stuck(disk, durable, plan, id)
        invariant done ==> StoreOk() && !locked && mem.journal.None? && SafeRoot(disk, mem, plan, id)
        invariant n > 0 && Waits(found) ==> BackwardAll(plan, id)
        invariant n > 0 && Commits(found) && !Waits(below) ==> ForwardAll(plan, id)
        invariant n > 0 && Commits(found) && (forall k | 0 < k < n :: !powerLosses[k]) ==> Forward(disk, file, plan, id)
        invariant done ==> mem == file
      {
        ghost var visible, surviving;
        o, visible, surviving := RestartAndRecover(plan, id, powerLosses[n]);
        if n == 0 { found, below := visible, surviving; }
        done, refused := o.Ok?, refused || o.Refused?;
      }
    }
  }
}
