/**
 The settings file and the store that keeps it: atomic replacement with a fault possible at every I/O
 step, what a save may report, and what a locked store refuses.
 */
module SettingsStore {
  import opened Basics

  /** The settings and the key identity they record. */
  datatype Root = Root(settings: string, keys: string)

  /** A file's text: what the store writes for a root, or anything else by number. */
  datatype Text = Written(root: Root) | Foreign(id: nat)

  /** What loading makes of a text. */
  datatype Reading =
    | Oversize
    | NotJson
    | Rejected
    | Legacy(migrated: Option<Root>)   // an older format; no root if it cannot be migrated
    | Current(root: Root)              // with the optional fields filled in

  datatype Code = LoadFailed | TooLarge | Invalid | RecoveryRequired | MigrationFailed | SaveFailed | LockedCode | DurabilityUncertain | CommitUnknown

  /** What the environment does to one I/O step; a rename may fail after it took effect. */
  datatype Fault = Fine | Fails | FailsAfterEffect

  datatype SaveResult = Committed(durable: bool) | NotCommitted(code: Code) | Unknown

  datatype Inspection = Keys(keys: string) | Throws

  datatype Loaded = LoadOk | LoadRefused(code: Code)

  datatype Retried = RetryOk | RetryRefused(code: Code) | InspectionThrew

  class Disk {
    var visible: Option<Text>      // what a read sees
    var durable: Option<Text>      // what a power loss goes back to
    var faults: seq<Fault>         // what happens to the next steps; nothing when it is used up
    ghost var since: set<Option<Text>>   // the last content that is known to be durable, and all that was written after it

    constructor (visible: Option<Text>, durable: Option<Text>, faults: seq<Fault>)
      ensures this.visible == visible && this.durable == durable && this.faults == faults && since == {visible, durable} && Valid()
    {
      this.visible, this.durable, this.faults := visible, durable, faults;
      since := {visible, durable};
    }

    ghost predicate Valid() reads this { visible in since && durable in since }

    method Next() returns (f: Fault)
      modifies this`faults
      ensures f == (if old(faults) == [] then Fine else old(faults)[0]) && faults == if old(faults) == [] then [] else old(faults)[1..]
    {
      if faults == [] { return Fine; }
      f := faults[0];
      faults := faults[1..];
    }

    method Read() returns (ok: bool)
      modifies this`faults
      ensures ok == (old(faults) == [] || old(faults)[0].Fine?) && (old(faults) == [] ==> faults == [])
    {
      var f := Next();
      ok := f.Fine?;
    }

    /** Makes the visible content durable. */
    method Sync() returns (ok: bool)
      requires Valid()
      modifies this
      ensures Valid() && visible == old(visible) && (old(faults) == [] ==> ok && faults == [])
      ensures if ok then durable == visible && since == {visible} else durable == old(durable) && since == old(since)
    {
      var f := Next();
      ok := f.Fine?;
      if ok {
        durable := visible;
        since := {visible};
      }
    }

    /** Writes a text to a temporary file, renames it over the file and makes that durable. */
    method Replace(text: Text) returns (ok: bool)
      requires Valid()
      modifies this
      ensures Valid() && (old(faults) == [] ==> ok && faults == [])
      ensures ok ==> visible == durable == Some(text) && since == {Some(text)}
      ensures !ok ==> durable == old(durable) && (visible == old(visible) || visible == Some(text))
      ensures !ok ==> since == if visible == old(visible) then old(since) else old(since) + {Some(text)}
    {
      var written := Next();
      if !written.Fine? { return false; }
      var renamed := Next();
      if renamed.Fails? { return false; }
      if visible != Some(text) { since := since + {Some(text)}; }
      visible := Some(text);
      if !renamed.Fine? { return false; }
      ok := Sync();
    }

    /**
     The process dies.  A power loss takes the file back to the durable content; without one the
     visible content stays, and is no more durable than before.
     */
    method Crash(powerLoss: bool)
      requires Valid()
      modifies this
      ensures Valid() && visible in old(since) && durable == old(durable)
      ensures if powerLoss then visible == durable && since == {visible} else visible == old(visible) && since == old(since)
    {
      if powerLoss {
        visible := durable;
        since := {visible};
      }
    }
  }

  class Store {
    const disk: Disk
    const interpret: nat -> Reading     // what the texts mean that the store did not write
    const accepts: Root -> bool         // the validation of a root, with the size of its text
    const defaults: string

    var root: Root
    var knownHash: Option<Text>         // hashes are injective: a hash stands for its text
    var errorCode: Option<Code>
    var corruptHash: Option<Text>

    constructor (disk: Disk, interpret: nat -> Reading, accepts: Root -> bool, defaults: string)
      ensures this.disk == disk && this.interpret == interpret && this.accepts == accepts && this.defaults == defaults
      ensures errorCode.None? && corruptHash.None? && knownHash.None?
    {
      this.disk, this.interpret, this.accepts, this.defaults := disk, interpret, accepts, defaults;
      root, knownHash, errorCode, corruptHash := Root(defaults, ""), None, None, None;
    }

    function ReadingOf(t: Text): Reading {
      match t
      case Written(r) => if accepts(r) then Current(r) else Rejected
      case Foreign(id) => interpret(id)
    }

    predicate Locked() reads this`errorCode { errorCode.Some? }

    /** The root in memory is what loading the file gives, and the known hash is the file's. */
    ghost predicate Agrees()
      reads this, disk
    {
      match disk.visible
      case None => knownHash.None? && root.settings == defaults && accepts(root)   // a fresh installation
      case Some(t) => knownHash == Some(t) && ReadingOf(t) == Current(root) && accepts(root)
    }

    /** The guarantee: an unlocked store agrees with the file. */
    ghost predicate Guaranteed()
      reads this, disk
    {
      disk.Valid() && (!Locked() ==> Agrees()) && (corruptHash.Some? ==> ReadingOf(corruptHash.value).NotJson?)
    }

    method Lock(code: Code)
      modifies this`errorCode
      ensures errorCode == Some(code)
    {
      errorCode := Some(code);
    }

    /** Saves a root.  A locked store writes nothing; otherwise the result says what became of the file. */
    method Save(candidate: Root) returns (r: SaveResult)
      requires disk.Valid() && (!Locked() ==> knownHash == disk.visible)
      modifies this, disk
      ensures disk.Valid() && corruptHash == old(corruptHash)
      ensures old(Locked()) ==> r == NotCommitted(LockedCode) && Unwritten() && Unread() && errorCode == old(errorCode)
      ensures !old(Locked()) ==> match r
        case Committed(durable) => disk.visible == Some(Written(candidate)) && Agrees() && Locked() == !durable
                                   && (durable ==> disk.durable == disk.visible && disk.since == {disk.visible})
        case NotCommitted(_) => !Locked() && Unwritten() && Unread()
        case Unknown => Locked() && errorCode == Some(CommitUnknown) && Unread() && (Unwritten() || disk.visible == Some(Written(candidate)))
      ensures !old(Locked()) && old(disk.faults) == [] && accepts(candidate) ==> r == Committed(true) && root == candidate && disk.faults == []
    {
      if Locked() { return NotCommitted(LockedCode); }
      if !accepts(candidate) { return NotCommitted(Invalid); }
      var ok := disk.Replace(Written(candidate));
      if ok {
        root, knownHash := candidate, Some(Written(candidate));
        return Committed(true);
      }
      var readable := disk.Read();
      if readable && disk.visible == Some(Written(candidate)) {
        root, knownHash := candidate, disk.visible;
        Lock(DurabilityUncertain);
        return Committed(false);
      }
      if readable && disk.visible == knownHash { return NotCommitted(SaveFailed); }
      Lock(CommitUnknown);
      return Unknown;
    }

    /** The file is as it was. */
    twostate predicate Unwritten()
      reads disk
    {
      disk.visible == old(disk.visible) && disk.durable == old(disk.durable) && disk.since == old(disk.since)
    }

    /** What is known of the file is as it was. */
    twostate predicate Unread()
      reads this
    {
      root == old(root) && knownHash == old(knownHash)
    }
  
    /** What the file's text means; a missing file means as much as a rejected one. */
    ghost function OnDisk(): Reading
      reads disk
    {
      if disk.visible.None? then Rejected else ReadingOf(disk.visible.value)
    }

    /** Locks the store, with the code it is already locked with if there is one. */
    method KeepLocked(code: Code) returns (r: Loaded)
      modifies this`errorCode
      ensures Locked() && r == LoadRefused(errorCode.value) && errorCode == (if old(errorCode).Some? then old(errorCode) else Some(code))
    {
      if errorCode.None? { errorCode := Some(code); }
      return LoadRefused(errorCode.value);
    }

    /** Loads the file: afterwards the store agrees with it, or is locked. */
    method Load(inspection: Inspection) returns (r: Loaded)
      requires Guarded()
      modifies this, disk
      ensures Guarded() && (r.LoadOk? ==> !Locked() && Agrees()) && (r.LoadRefused? ==> Locked())
      ensures r.LoadOk? && old(Locked()) ==> disk.durable == disk.visible
      ensures !old(OnDisk().Legacy?) ==> disk.visible == old(disk.visible) && (disk.durable == old(disk.durable) || disk.durable == disk.visible)
      ensures old(disk.faults) == [] && old(OnDisk().Current?) && accepts(old(OnDisk().root)) ==> r.LoadOk? && root == old(OnDisk().root)
      ensures old(disk.faults) == [] && old(OnDisk().Legacy?) && old(OnDisk().migrated.Some?) && accepts(old(OnDisk().migrated.value)) ==>
        r.LoadOk? && root == old(OnDisk().migrated.value) && disk.visible == Some(Written(root))
      ensures old(disk.faults) == [] && old(disk.visible).None? && !old(Locked()) && inspection.Keys? && accepts(Root(defaults, inspection.keys)) ==> r.LoadOk?
      ensures old(disk.faults) == [] && old(OnDisk().NotJson?) ==> errorCode == Some(RecoveryRequired) && corruptHash == disk.visible && disk.faults == []
    {
      var readable := disk.Read();
      if !readable {
        Lock(LoadFailed);
        return LoadRefused(LoadFailed);
      }
      if disk.visible.None? {
        r := LoadMissing(inspection);
        return;
      }
      var text := disk.visible.value;
      match ReadingOf(text) {
        case Oversize =>
          Lock(TooLarge);
          return LoadRefused(TooLarge);
        case NotJson =>
          corruptHash := Some(text);
          Lock(RecoveryRequired);
          return LoadRefused(RecoveryRequired);
        case Rejected => r := KeepLocked(Invalid);
        case Legacy(migrated) => r := LoadLegacy(text, migrated);
        case Current(loaded) => r := LoadCurrent(text, loaded);
      }
    }

    /** A missing file is a fresh installation only for a store that is not locked. */
    method LoadMissing(inspection: Inspection) returns (r: Loaded)
      requires Guarded() && disk.visible.None?
      modifies this
      ensures Guarded() && (r.LoadOk? ==> !old(Locked()) && !Locked() && Agrees()) && (r.LoadRefused? ==> Locked())
      ensures r.LoadOk? == (!old(Locked()) && inspection.Keys? && accepts(Root(defaults, inspection.keys)))
    {
      if Locked() { return LoadRefused(errorCode.value); }
      if inspection.Throws? || !accepts(Root(defaults, inspection.keys)) {
        Lock(Invalid);
        return LoadRefused(Invalid);
      }
      root, knownHash := Root(defaults, inspection.keys), None;
      return LoadOk;
    }

    method LoadLegacy(text: Text, migrated: Option<Root>) returns (r: Loaded)
      requires Guarded() && disk.visible == Some(text)
      modifies this, disk
      ensures Guarded() && (r.LoadOk? ==> !Locked() && Agrees() && disk.durable == disk.visible) && (r.LoadRefused? ==> Locked())
      ensures old(disk.faults) == [] && migrated.Some? && accepts(migrated.value) ==>
        r.LoadOk? && root == migrated.value && disk.visible == Some(Written(root))
    {
      if migrated.None? || !accepts(migrated.value) {
        r := KeepLocked(MigrationFailed);
        return;
      }
      knownHash, errorCode := Some(text), None;
      var saved := Save(migrated.value);
      if saved != Committed(true) {
        r := KeepLocked(MigrationFailed);
        return;
      }
      corruptHash := None;
      return LoadOk;
    }

    method LoadCurrent(text: Text, loaded: Root) returns (r: Loaded)
      requires Guarded() && disk.visible == Some(text) && ReadingOf(text) == Current(loaded)
      modifies this, disk
      ensures Guarded() && (r.LoadOk? ==> !Locked() && Agrees()) && (r.LoadRefused? ==> Locked())
      ensures r.LoadOk? && old(Locked()) ==> disk.durable == disk.visible
      ensures disk.visible == old(disk.visible) && (disk.durable == old(disk.durable) || disk.durable == disk.visible)
      ensures r.LoadOk? ==> root == loaded
      ensures old(disk.faults) == [] && accepts(loaded) ==> r.LoadOk?
    {
      if !accepts(loaded) {
        r := KeepLocked(Invalid);
        return;
      }
      if Locked() {
        var synced := disk.Sync();
        if !synced { return LoadRefused(errorCode.value); }
      }
      root, knownHash, errorCode, corruptHash := loaded, Some(text), None, None;
      return LoadOk;
    }

    /** The parts of the guarantee that hold locked or not. */
    ghost predicate Guarded()
      reads this, disk
    {
      disk.Valid() && (corruptHash.Some? ==> ReadingOf(corruptHash.value).NotJson?)
    }

    /** Recovery replaces the corrupt file it has seen; this guard decides whether it is tried. */
    predicate Recovers(allow: bool)
      reads this, disk
    {
      allow && errorCode == Some(RecoveryRequired) && corruptHash.Some?
    }

    /**
       Loads again, or with permission replaces a corrupt file.  The guarantee is kept if and only if the
       inspection of existing keys does not throw inside a recovery: the store is unlocked before that
       inspection, and a throw leaves it unlocked over the corrupt file.
     */
    method RetryLoad(allow: bool, inspection: Inspection) returns (r: Retried)
      requires Guaranteed()
      modifies this, disk
      ensures Guarded()
      ensures r.InspectionThrew? == (old(Recovers(allow)) && inspection.Throws? && old(disk.visible) == old(corruptHash)
                                     && (old(disk.faults) == [] || old(disk.faults)[0].Fine?))
      ensures Guaranteed() <==> !r.InspectionThrew?
      ensures r.InspectionThrew? ==> !Locked() && !Agrees() && knownHash == disk.visible == old(disk.visible) && (old(disk.faults) == [] ==> disk.faults == [])
      ensures r.RetryOk? ==> !Locked() && disk.durable == disk.visible
      ensures r.RetryRefused? ==> Locked()
      ensures old(disk.faults) == [] && old(Recovers(allow)) && old(disk.visible) == old(corruptHash) && inspection.Keys? && accepts(Root(defaults, inspection.keys))
              ==> r.RetryOk? && root == Root(defaults, inspection.keys) && disk.visible == Some(Written(root))
    {
      if Recovers(allow) {
        var readable := disk.Read();
        if !readable || disk.visible.None? {
          Lock(LoadFailed);
          return RetryRefused(LoadFailed);
        }
        if disk.visible == corruptHash {
          knownHash, errorCode := corruptHash, None;
          if inspection.Throws? { return InspectionThrew; }
          var saved := Save(Root(defaults, inspection.keys));
          if saved != Committed(true) {
            Lock(if errorCode.Some? then errorCode.value else RecoveryRequired);
            return RetryRefused(errorCode.value);
          }
          corruptHash := None;
        } else {
          var loaded := Load(inspection);
          if loaded.LoadRefused? { return RetryRefused(loaded.code); }
        }
      } else {
        var loaded := Load(inspection);
        if loaded.LoadRefused? { return RetryRefused(loaded.code); }
      }
      var synced := disk.Sync();
      if !synced {
        Lock(DurabilityUncertain);
        return RetryRefused(DurabilityUncertain);
      }
      errorCode := None;
      return RetryOk;
    }
  }

  // ---- runs ----

  datatype Event =
    | SaveIt(candidate: Root)
    | LoadIt(inspection: Inspection)
    | RetryIt(allow: bool, keys: string)
    | CrashIt(powerLoss: bool, inspection: Inspection)

  /** A process starts: a new store loads the file. */
  method Open(disk: Disk, interpret: nat -> Reading, accepts: Root -> bool, defaults: string, inspection: Inspection) returns (store: Store)
    requires disk.Valid()
    modifies disk
    ensures fresh(store) && store.disk == disk && store.Guaranteed() && store.accepts == accepts
    ensures disk.visible.Some? && disk.visible == old(disk.visible) && disk.visible.value.Written? && !store.Locked() ==> store.root == disk.visible.value.root
    ensures old(disk.visible).Some? && old(disk.visible).value.Written? ==>
      disk.visible == old(disk.visible) && (disk.durable == old(disk.durable) || disk.durable == disk.visible)
  {
    store := new Store(disk, interpret, accepts, defaults);
    var _ := store.Load(inspection);
  }

  /**
     Saves, loads, recoveries and crashes in any order, with any faults: whenever the store is unlocked it
     agrees with the file, a save that was reported durable is what a crash leaves, and until then the file
     holds the last durable content or something written after it.
   */
  method Run(disk: Disk, interpret: nat -> Reading, accepts: Root -> bool, defaults: string, first: Inspection, events: seq<Event>) returns (store: Store)
    requires disk.Valid()
    modifies disk
    ensures fresh(store) && store.disk == disk && store.Guaranteed()
  {
    store := Open(disk, interpret, accepts, defaults, first);
    for k := 0 to |events|
      invariant fresh(store) && store.disk == disk && store.Guaranteed()
    {
      match events[k] {
        case SaveIt(candidate) => var _ := store.Save(candidate);
        case LoadIt(inspection) => var _ := store.Load(inspection);
        case RetryIt(allow, keys) => var _ := store.RetryLoad(allow, Keys(keys));
        case CrashIt(powerLoss, inspection) =>
          disk.Crash(powerLoss);
          store := Open(disk, interpret, accepts, defaults, inspection);
      }
    }
  }

  /** A save reported durable, then a crash: the saved content is there, and a restart without faults loads it. */
  method DurableSurvives(store: Store, candidate: Root, powerLoss: bool, inspection: Inspection) returns (r: SaveResult, next: Store)
    requires store.Guaranteed()
    modifies store, store.disk
    ensures fresh(next) && next.disk == store.disk && next.Guaranteed()
    ensures r == Committed(true) ==> store.disk.visible == Some(Written(candidate)) == store.disk.durable
    ensures r == Committed(true) && !next.Locked() ==> next.root == candidate
  {
    r := store.Save(candidate);
    store.disk.Crash(powerLoss);
    next := Open(store.disk, store.interpret, store.accepts, store.defaults, inspection);
  }

  /**
   The program's own case: its inspection reads both key files and catches every error, so a retry
   keeps the guarantee whatever else fails, and an unlocked store is durable.
   */
  method RetryInProgram(store: Store, allow: bool, keys: string) returns (r: Retried)
    requires store.Guaranteed()
    modifies store, store.disk
    ensures store.Guaranteed() && !r.InspectionThrew?
    ensures r.RetryOk? <==> !store.Locked()
    ensures r.RetryOk? ==> store.Agrees() && store.disk.durable == store.disk.visible
  {
    r := store.RetryLoad(allow, Keys(keys));
  }

  /**
   A weakness of the class under another inspection than the program's, which never throws: after one
   that does, the store is unlocked over a file it cannot read, and saves over it.
   */
  method UnlockedOverCorruption() returns (store: Store, saved: SaveResult)
    ensures fresh(store) && !store.Locked()
    ensures saved == Committed(true) && store.disk.visible == Some(Written(Root("stale", "")))
  {
    var disk := new Disk(Some(Foreign(0)), Some(Foreign(0)), []);
    store := new Store(disk, _ => NotJson, _ => true, "defaults");
    var loaded := store.Load(Throws);
    assert store.Locked();
    var retried := store.RetryLoad(true, Throws);
    assert retried.InspectionThrew? && !store.Locked() && !store.Agrees();
    saved := store.Save(Root("stale", ""));
  }
}
