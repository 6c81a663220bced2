/**
 The data of a key replacement: the three key files, the plan, the journal kept in the
 settings root, and the two invariants that carry the crash argument.  A hash is its own
 preimage (hashes are injective) and a fingerprint is an uninterpreted function of bytes.
 */
module KeyJournal {
  import opened Basics

  type Fingerprint = string
  type TransactionId = string
  datatype Digest = Sha256(preimage: Bytes)

  datatype Role = ClientPrivate | ClientPublic | HostPrivate
  datatype Target = Client | Host | Both
  datatype Phase = Prepared | Installed | Committed

  /** One value for each key file. */
  datatype PerRole<T> = PerRole(clientPrivate: T, clientPublic: T, hostPrivate: T) {
    function Of(role: Role): T {
      match role
      case ClientPrivate => clientPrivate
      case ClientPublic => clientPublic
      case HostPrivate => hostPrivate
    }
  }

  /** A key file, or the stage or rollback copy that a transaction keeps beside it. */
  datatype Path =
    | Destination(role: Role)
    | Stage(role: Role, id: TransactionId)
    | Rollback(role: Role, id: TransactionId)

  type Disk = map<Path, Bytes>

  function Lookup(disk: Disk, path: Path): Option<Bytes> {
    if path in disk then Some(disk[path]) else None
  }

  datatype Prints = Prints(client: Option<Fingerprint>, host: Option<Fingerprint>)

  datatype FileEntry = FileEntry(role: Role, existed: bool, oldSha: Option<Digest>, newSha: Digest)

  datatype Transaction = Transaction(
    id: TransactionId, target: Target, phase: Phase, before: Prints, after: Prints, files: seq<FileEntry>)

  /** The part of the settings root that key replacement reads and writes. */
  datatype Root = Root(initialized: bool, keys: Prints, journal: Option<Transaction>)

  datatype Plan = Plan(
    target: Target, before: Prints, after: Prints,
    original: PerRole<Option<Bytes>>, renewed: PerRole<Bytes>, needsBackup: bool)

  function Roles(target: Target): seq<Role> {
    match target
    case Host => [HostPrivate]
    case Client => [ClientPrivate, ClientPublic]
    case Both => [ClientPrivate, ClientPublic, HostPrivate]
  }

  function Hash(bytes: Option<Bytes>): Option<Digest> {
    match bytes
    case None => None
    case Some(b) => Some(Sha256(b))
  }

  function Entry(plan: Plan, role: Role): FileEntry {
    FileEntry(role, plan.original.Of(role).Some?, Hash(plan.original.Of(role)), Sha256(plan.renewed.Of(role)))
  }

  function Journal(plan: Plan, id: TransactionId, phase: Phase): Transaction {
    var roles := Roles(plan.target);
    Transaction(id, plan.target, phase, plan.before, plan.after,
                seq(|roles|, i requires 0 <= i < |roles| => Entry(plan, roles[i])))
  }

  /** What the journal reader demands before it touches a file. */
  ghost predicate ValidTransaction(t: Transaction) {
    && |t.files| == |Roles(t.target)|
    && (forall i | 0 <= i < |t.files| :: t.files[i].role in Roles(t.target))
    && (forall i, j | 0 <= i < j < |t.files| :: t.files[i].role != t.files[j].role)
    && (forall i | 0 <= i < |t.files| :: t.files[i].existed <==> t.files[i].oldSha.Some?)
    && t.after.client.Some? && t.after.host.Some?
    && (t.target == Client && t.before.host.Some? ==> t.before.host == t.after.host)
    && (t.target == Host && t.before.client.Some? ==> t.before.client == t.after.client)
  }

  /** The settings store's own agreement between the journal and the recorded fingerprints. */
  ghost predicate ValidRoot(root: Root) {
    && (!root.initialized ==> root.keys == Prints(None, None))
    && (root.journal.Some? ==>
          && ValidTransaction(root.journal.value)
          && root.initialized
          && root.keys == if root.journal.value.phase == Committed
                          then root.journal.value.after else root.journal.value.before)
  }

  /** What preparation establishes: new keys have the recorded new fingerprints, a retained key is untouched. */
  ghost predicate PlanOk(plan: Plan, identity: Bytes -> Option<Fingerprint>) {
    && plan.after.client.Some? && identity(plan.renewed.clientPrivate) == plan.after.client
    && plan.after.host.Some? && identity(plan.renewed.hostPrivate) == plan.after.host
    && (plan.target == Client ==>
          && plan.original.hostPrivate == Some(plan.renewed.hostPrivate)
          && (plan.before.host.Some? ==> plan.before.host == plan.after.host))
    && (plan.target == Host ==>
          && plan.original.clientPrivate == Some(plan.renewed.clientPrivate)
          && (plan.before.client.Some? ==> plan.before.client == plan.after.client))
  }

  /** The content of a key file once the plan is installed. */
  function InstalledContent(plan: Plan, role: Role): Option<Bytes> {
    if role in Roles(plan.target) then Some(plan.renewed.Of(role)) else plan.original.Of(role)
  }

  ghost predicate AllOld(disk: Disk, plan: Plan) {
    forall role: Role :: Lookup(disk, Destination(role)) == plan.original.Of(role)
  }

  ghost predicate AllNew(disk: Disk, plan: Plan) {
    forall role: Role :: Lookup(disk, Destination(role)) == InstalledContent(plan, role)
  }

  /** The file is old, or it is new and its old bytes are still kept. */
  ghost predicate Restorable(disk: Disk, plan: Plan, id: TransactionId, role: Role) {
    || Lookup(disk, Destination(role)) == plan.original.Of(role)
    || (&& role in Roles(plan.target)
        && Lookup(disk, Destination(role)) == Some(plan.renewed.Of(role))
        && (plan.original.Of(role).Some? ==> Lookup(disk, Rollback(role, id)) == plan.original.Of(role)))
  }

  ghost predicate AllRestorable(disk: Disk, plan: Plan, id: TransactionId) {
    forall role: Role {:trigger Restorable(disk, plan, id, role)} {:trigger Lookup(disk, Destination(role))} ::
      Restorable(disk, plan, id, role)
  }

  /** A root from which recovery puts every old file back. */
  ghost predicate Backward(disk: Disk, root: Root, plan: Plan, id: TransactionId) {
    && root.keys == plan.before
    && match root.journal
       case None => AllOld(disk, plan)
       case Some(t) =>
         root.initialized && t.phase != Committed && t == Journal(plan, id, t.phase) && AllRestorable(disk, plan, id)
  }

  /** A root from which recovery keeps every new file. */
  ghost predicate Forward(disk: Disk, root: Root, plan: Plan, id: TransactionId) {
    && root.keys == plan.after && AllNew(disk, plan)
    && (root.journal.Some? ==> root.initialized && root.journal.value == Journal(plan, id, Committed))
  }

  ghost predicate SafeRoot(disk: Disk, root: Root, plan: Plan, id: TransactionId) {
    Backward(disk, root, plan, id) || Forward(disk, root, plan, id)
  }

  predicate Commits(root: Root) { root.journal.Some? && root.journal.value.phase == Committed }

  predicate Waits(root: Root) { root.journal.Some? && root.journal.value.phase != Committed }

  /** Some key file that the plan replaces had other bytes before: only its rollback copy still has them. */
  ghost predicate Loses(plan: Plan) {
    exists role: Role {:trigger plan.original.Of(role)} ::
      role in Roles(plan.target) && plan.original.Of(role).Some? && plan.original.Of(role) != Some(plan.renewed.Of(role))
  }

  /** The root carries the plan's journal, not yet committed. */
  ghost predicate Unfinished(root: Root, plan: Plan, id: TransactionId) {
    && root.initialized && root.keys == plan.before
    && Waits(root) && root.journal.value == Journal(plan, id, root.journal.value.phase)
  }

  /** The journal asks to take new files back, and some old one is no longer kept. */
  ghost predicate Stuck(disk: Disk, root: Root, plan: Plan, id: TransactionId) {
    && Unfinished(root, plan, id) && AllNew(disk, plan)
    && exists role: Role :: role in Roles(plan.target) && !Restorable(disk, plan, id, role)
  }

  /**
   The roots a run leaves: `file` is the visible one, `durable` the one a power loss brings back,
   which is never ahead of it.
   */
  ghost predicate Lasting(disk: Disk, file: Root, durable: Root, plan: Plan, id: TransactionId) {
    || (Backward(disk, file, plan, id) && Backward(disk, durable, plan, id))
    || (Forward(disk, file, plan, id) && SafeRoot(disk, durable, plan, id))
  }

  /** The commit is visible but a power loss takes it back, and it replaced bytes that existed. */
  ghost predicate Stranding(file: Root, durable: Root, plan: Plan) {
    Commits(file) && Waits(durable) && Loses(plan)
  }

  /** The copies a transaction keeps beside its files. */
  predicate IsCopy(path: Path, target: Target, id: TransactionId) {
    !path.Destination? && path.id == id && path.role in Roles(target)
  }

  /** What a completed recovery from `root` makes of the files: old ones back unless committed, and no copies left. */
  ghost predicate Finishes(disk: Disk, root: Root, after: Disk, plan: Plan, id: TransactionId) {
    if root.journal.None? then after == disk
    else
      && (forall path: Path :: IsCopy(path, plan.target, id) ==> path !in after)
      && (forall path: Path :: !IsCopy(path, plan.target, id) && !path.Destination? ==> Lookup(after, path) == Lookup(disk, path))
      && (forall role: Role {:trigger Lookup(after, Destination(role))} :: Lookup(after, Destination(role)) ==
            if root.journal.value.phase == Committed then Lookup(disk, Destination(role)) else plan.original.Of(role))
  }

  /** Removing copies keeps the visible commit, and the durable root as well unless old bytes are at stake. */
  lemma Uncopied(disk: Disk, after: Disk, file: Root, durable: Root, plan: Plan, id: TransactionId)
    requires forall role: Role {:trigger Lookup(after, Destination(role))} ::
               Lookup(after, Destination(role)) == Lookup(disk, Destination(role))
    requires Forward(disk, file, plan, id) && file.journal.Some?
    requires SafeRoot(disk, durable, plan, id) || Stuck(disk, durable, plan, id)
    ensures Forward(after, file, plan, id)
    ensures Forward(disk, durable, plan, id) ==> Forward(after, durable, plan, id)
    ensures SafeRoot(after, durable, plan, id) || Stuck(after, durable, plan, id)
    ensures Stuck(after, durable, plan, id) && !Stuck(disk, durable, plan, id) ==> Stranding(file, durable, plan)
  {
    if Stuck(after, durable, plan, id) {
      var role: Role :| role in Roles(plan.target) && !Restorable(after, plan, id, role);
      assert Lookup(after, Destination(role)) == Some(plan.renewed.Of(role));
    } else if Unfinished(durable, plan, id) {
      forall role: Role ensures Restorable(after, plan, id, role) {
        assert Lookup(after, Destination(role)) == InstalledContent(plan, role);
      }
    }
  }

  /** Old files suit every root that leads back. */
  lemma Restored(disk: Disk, after: Disk, root: Root, plan: Plan, id: TransactionId)
    requires AllOld(after, plan) && Backward(disk, root, plan, id)
    ensures Backward(after, root, plan, id)
  {
    forall role: Role ensures Restorable(after, plan, id, role) {
      assert Lookup(after, Destination(role)) == plan.original.Of(role);
    }
  }

  /**
   When a recovery is safe: the root that a power loss brings back still fits the files exactly
   unless that root is unfinished, the visible one is committed and bytes were replaced.
   */
  lemma RecoveryStrands(disk: Disk, file: Root, durable: Root, after: Disk, plan: Plan, id: TransactionId)
    requires Lasting(disk, file, durable, plan, id) && Finishes(disk, file, after, plan, id)
    ensures SafeRoot(after, durable, plan, id) <==> !Stranding(file, durable, plan)
    ensures Stranding(file, durable, plan) ==> Stuck(after, durable, plan, id)
  {
    forall role: Role | role in Roles(plan.target)
      ensures file.journal.Some? ==> IsCopy(Path.Rollback(role, id), plan.target, id) && Path.Rollback(role, id) !in after
    {
    }
    if Stranding(file, durable, plan) {
      var role: Role :| role in Roles(plan.target) && plan.original.Of(role).Some? && plan.original.Of(role) != Some(plan.renewed.Of(role));
      assert Lookup(after, Destination(role)) == Some(plan.renewed.Of(role));
      assert !Restorable(after, plan, id, role);
    } else if file.journal.Some? && Backward(disk, durable, plan, id) && durable.journal.Some? {
      forall role: Role ensures Restorable(after, plan, id, role) {
        assert Restorable(disk, plan, id, role);
        assert Lookup(after, Destination(role)) in {Lookup(disk, Destination(role)), plan.original.Of(role)};
      }
    }
  }

  /** A client key replaced by another one. */
  function ClientPlan(): Plan {
    Plan(Client, Prints(Some("old"), Some("host")), Prints(Some("new"), Some("host")),
         PerRole(Some([1]), Some([2]), Some([3])), PerRole([4], [5], [3]), true)
  }

  /** Its files once installed, with the rollback copies or without. */
  function ClientDisk(id: TransactionId, kept: bool): Disk {
    map[Destination(ClientPrivate) := [4], Destination(ClientPublic) := [5], Destination(HostPrivate) := [3]]
    + if kept then map[Path.Rollback(ClientPrivate, id) := [1], Path.Rollback(ClientPublic, id) := [2]] else map[]
  }

  /**
   The run that strands a key: killed between the commit's rename and its directory sync, restarted,
   recovered as committed up to the removal of the copies, and then a power loss.
   */
  lemma ClientIsStranded(id: TransactionId, identity: Bytes -> Option<Fingerprint>)
    requires identity([4]) == Some("new") && identity([3]) == Some("host")
    ensures PlanOk(ClientPlan(), identity)
    ensures var plan := ClientPlan();
            var file := Root(true, plan.after, Some(Journal(plan, id, Committed)));
            var durable := Root(true, plan.before, Some(Journal(plan, id, Installed)));
            && ValidRoot(file) && ValidRoot(durable)
            && Lasting(ClientDisk(id, true), file, durable, plan, id)
            && Finishes(ClientDisk(id, true), file, ClientDisk(id, false), plan, id)
            && SafeRoot(ClientDisk(id, false), file, plan, id)
            && !SafeRoot(ClientDisk(id, false), durable, plan, id)
  {
    hide AllNew, AllRestorable, AllOld, Finishes, Loses, ValidTransaction, Journal;
    var plan := ClientPlan();
    var file := Root(true, plan.after, Some(Journal(plan, id, Committed)));
    var durable := Root(true, plan.before, Some(Journal(plan, id, Installed)));
    JournalIsValid(plan, id, Committed, identity);
    JournalIsValid(plan, id, Installed, identity);
    JournalPhase(plan, id, Committed);
    JournalPhase(plan, id, Installed);
    ClientFiles(id);
    ClientFinishes(id, file);
    RecoveryStrands(ClientDisk(id, true), file, durable, ClientDisk(id, false), plan, id);
  }

  lemma JournalPhase(plan: Plan, id: TransactionId, phase: Phase)
    ensures Journal(plan, id, phase).phase == phase
  {
  }

  lemma ClientFiles(id: TransactionId)
    ensures AllNew(ClientDisk(id, true), ClientPlan()) && AllNew(ClientDisk(id, false), ClientPlan())
    ensures AllRestorable(ClientDisk(id, true), ClientPlan(), id) && Loses(ClientPlan())
  {
    var plan := ClientPlan();
    assert Roles(Client)[0] == ClientPrivate && Roles(Client)[1] == ClientPublic;
    assert plan.original.Of(ClientPrivate) == Some([1]);
  }

  lemma ClientFinishes(id: TransactionId, root: Root)
    requires Commits(root)
    ensures Finishes(ClientDisk(id, true), root, ClientDisk(id, false), ClientPlan(), id)
  {
    assert Roles(Client)[0] == ClientPrivate && Roles(Client)[1] == ClientPublic;
  }

  /** Every journal a prepared plan can write passes the reader's checks. */
  lemma JournalIsValid(plan: Plan, id: TransactionId, phase: Phase, identity: Bytes -> Option<Fingerprint>)
    requires PlanOk(plan, identity)
    ensures ValidTransaction(Journal(plan, id, phase))
    ensures ValidRoot(Root(true, if phase == Committed then plan.after else plan.before, Some(Journal(plan, id, phase))))
  {
    var roles := Roles(plan.target);
    assert forall i, j | 0 <= i < j < |roles| :: roles[i] != roles[j];
  }
}
