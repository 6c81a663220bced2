/**
 The application's actions: one slot, tokens that lose their force when they are superseded, a stop that
 asks before it interrupts, and an exit.  Every wait may be followed by any other event.
 */
module ExclusiveActions {
  import opened Basics

  datatype Scope = Scope(profile: string, epoch: nat)

  datatype Draft = Draft(dirty: bool, revision: nat)

  datatype Kind = StartAction | RestartAction | StopAction | ExitAction | OtherAction | AuthenticatedAction | AuthRevoked | PrepareExit

  /** How far an operation's promise has come. */
  datatype Status =
    | Asking                          // a pending stop, before it takes the slot
    | Waiting(previous: Option<nat>)  // launched, behind the operation it replaces
    | InBody
    | Settled

  /** What the operation is; for a pending stop, what it would interrupt. */
  datatype Operation = Operation(kind: Kind, original: Option<nat>)

  datatype Token = Token(
    aborted: bool,
    scope: Scope,      // the scope it acts in
    captured: nat,     // the draft revision it answers for
    asking: bool,      // the user is being asked
    confirmed: bool)   // the user has agreed, or did not need to be asked

  datatype Event =
    | Ask(kind: Kind, proxyStarting: bool, connections: bool)
    | SetDirty(dirty: bool, revision: nat)
    | AuthRequired
    | Authenticated
    | Drain(starts: bool)
    | Exit(fatal: bool)
    | Dispose
    | Begin(id: nat)
    | Advance(id: nat, profile: string)
    | Persist(id: nat, profile: string)
    | Capture(id: nat, connections: bool, always: bool)
    | Answer(id: nat, accepted: bool)
    | Consume(id: nat)
    | FinishExit(id: nat)
    | Settle(id: nat)
    | AdoptStop
    | DropStop

  predicate IsSettled(statuses: seq<Status>, id: nat) { id < |statuses| && statuses[id].Settled? }

  /** The slot is free only when everything launched has settled, and otherwise it is the last launched operation's. */
  predicate Slot(statuses: seq<Status>, launched: seq<nat>, active: Option<nat>) {
    match active
    case None => forall i | 0 <= i < |launched| :: IsSettled(statuses, launched[i])
    case Some(a) => |launched| > 0 && launched[|launched| - 1] == a && !IsSettled(statuses, a)
  }

  predicate WaitsForPrevious(statuses: seq<Status>, launched: seq<nat>, j: nat)
    requires j < |launched| && launched[j] < |statuses| && statuses[launched[j]].Waiting?
  {
    match statuses[launched[j]].previous
    case None => forall i | 0 <= i < j :: IsSettled(statuses, launched[i])
    case Some(p) => j > 0 && p == launched[j - 1]
  }

  /** One launched operation against those before it: while it waits, it waits for the last of them; later they have all settled. */
  predicate Link(statuses: seq<Status>, launched: seq<nat>, j: nat)
    requires j < |launched|
  {
    && launched[j] < |statuses| && !statuses[launched[j]].Asking? && launched[j] !in launched[..j]
    && if statuses[launched[j]].Waiting? then WaitsForPrevious(statuses, launched, j)
       else forall i | 0 <= i < j :: IsSettled(statuses, launched[i])
  }

  predicate Chain(statuses: seq<Status>, launched: seq<nat>) {
    forall j | 0 <= j < |launched| :: Link(statuses, launched, j)
  }

  /** Bodies run only in operations that have been launched. */
  predicate Bodies(statuses: seq<Status>, launched: seq<nat>) {
    forall i | 0 <= i < |statuses| :: statuses[i].InBody? || statuses[i].Waiting? ==> i in launched
  }

  /** A newcomer that waits for whoever has the slot. */
  lemma ChainTaken(statuses: seq<Status>, launched: seq<nat>, active: Option<nat>, id: nat)
    requires Chain(statuses, launched) && Bodies(statuses, launched) && Slot(statuses, launched, active)
    requires id < |statuses| && id !in launched && (statuses[id].Asking? || statuses[id].Settled?)
    ensures var s, l := statuses[id := Waiting(active)], launched + [id];
            Chain(s, l) && Bodies(s, l) && Slot(s, l, Some(id))
  {
    var s, l := statuses[id := Waiting(active)], launched + [id];
    forall j | 0 <= j < |l| ensures Link(s, l, j) {
      if j < |launched| {
        assert Link(statuses, launched, j);
        assert l[..j] == launched[..j] && l[j] == launched[j];
        assert forall i | 0 <= i < j :: l[i] == launched[i] && launched[i] in launched;
      } else {
        assert l[..j] == launched;
        assert forall i | 0 <= i < j :: l[i] == launched[i] && launched[i] in launched;
      }
    }
    forall i | 0 <= i < |s| && (s[i].InBody? || s[i].Waiting?) ensures i in l {
      if i == id { assert l[|launched|] == id; } else { assert i in launched; }
    }
  }

  /** A record that is not launched does not matter. */
  lemma ChainMore(statuses: seq<Status>, launched: seq<nat>, active: Option<nat>)
    requires Chain(statuses, launched) && Bodies(statuses, launched) && Slot(statuses, launched, active)
    ensures var s := statuses + [Asking]; Chain(s, launched) && Bodies(s, launched) && Slot(s, launched, active) && |statuses| !in launched
  {
    var s := statuses + [Asking];
    forall j | 0 <= j < |launched| ensures Link(s, launched, j) && launched[j] != |statuses| {
      assert Link(statuses, launched, j);
      assert forall i | 0 <= i < j :: IsSettled(statuses, launched[i]) ==> IsSettled(s, launched[i]);
    }
    assert forall i | 0 <= i < |statuses| :: s[i] == statuses[i];
    forall i | 0 <= i < |launched| ensures IsSettled(s, launched[i]) == IsSettled(statuses, launched[i]) { assert Link(statuses, launched, i); }
  }

  /** Its predecessor settled, so all before it have. */
  lemma ChainBegins(statuses: seq<Status>, launched: seq<nat>, active: Option<nat>, id: nat)
    requires Chain(statuses, launched) && Bodies(statuses, launched) && Slot(statuses, launched, active)
    requires id < |statuses| && statuses[id].Waiting? && (statuses[id].previous.Some? ==> IsSettled(statuses, statuses[id].previous.value))
    ensures var s := statuses[id := InBody]; Chain(s, launched) && Bodies(s, launched) && Slot(s, launched, active)
  {
    var s := statuses[id := InBody];
    var at :| 0 <= at < |launched| && launched[at] == id;
    assert Link(statuses, launched, at);
    forall j | 0 <= j < |launched| ensures Link(s, launched, j) {
      assert Link(statuses, launched, j);
      if j == at {
        if statuses[id].previous.Some? { assert Link(statuses, launched, at - 1); }
        assert forall i | 0 <= i < at :: IsSettled(statuses, launched[i]);
      } else if j > at {
        assert id == launched[..j][at];
      } else {
        assert launched[j] == launched[..at][j];
      }
    }
  }

  /** A body ends; if it had the slot, the slot is free. */
  lemma ChainSettles(statuses: seq<Status>, launched: seq<nat>, active: Option<nat>, id: nat)
    requires Chain(statuses, launched) && Bodies(statuses, launched) && Slot(statuses, launched, active)
    requires id < |statuses| && statuses[id].InBody?
    ensures var s := statuses[id := Settled];
            Chain(s, launched) && Bodies(s, launched) && Slot(s, launched, if active == Some(id) then None else active)
  {
    var s := statuses[id := Settled];
    var at :| 0 <= at < |launched| && launched[at] == id;
    forall j | 0 <= j < |launched| ensures Link(s, launched, j) {
      assert Link(statuses, launched, j);
      assert forall i | 0 <= i < j :: IsSettled(statuses, launched[i]) ==> IsSettled(s, launched[i]);
    }
    assert Link(statuses, launched, at);
    if active == Some(id) {
      var n := |launched| - 1;
      assert Link(statuses, launched, n);
      forall i | 0 <= i < |launched| ensures IsSettled(s, launched[i]) { if i < n { assert IsSettled(statuses, launched[i]); } }
    }
  }

  /** An asking operation that is dropped. */
  lemma ChainDrops(statuses: seq<Status>, launched: seq<nat>, active: Option<nat>, id: nat)
    requires Chain(statuses, launched) && Bodies(statuses, launched) && Slot(statuses, launched, active)
    requires id < |statuses| && statuses[id].Asking?
    ensures var s := statuses[id := Settled]; Chain(s, launched) && Bodies(s, launched) && Slot(s, launched, active) && id !in launched
  {
    var s := statuses[id := Settled];
    forall j | 0 <= j < |launched| ensures Link(s, launched, j) && launched[j] != id {
      assert Link(statuses, launched, j);
      assert forall i | 0 <= i < j :: IsSettled(statuses, launched[i]) ==> IsSettled(s, launched[i]);
    }
  }

  /** Two bodies never run at the same time. */
  lemma BodiesNeverOverlap(statuses: seq<Status>, launched: seq<nat>, a: nat, b: nat)
    requires Chain(statuses, launched) && Bodies(statuses, launched)
    requires a < |statuses| && b < |statuses| && statuses[a].InBody? && statuses[b].InBody?
    ensures a == b
  {
    var i :| 0 <= i < |launched| && launched[i] == a;
    var j :| 0 <= j < |launched| && launched[j] == b;
    assert Link(statuses, launched, i) && Link(statuses, launched, j);
  }

  class App {
    var scope: Scope
    var draft: Draft
    var operations: seq<Operation>
    var statuses: seq<Status>       // how far each operation's promise has come
    var tokens: seq<Token>
    var active: Option<nat>
    var pendingStop: Option<nat>
    var launched: seq<nat>          // the operations in the order in which they took the slot
    var authenticated: bool         // an authentication waits for the slot
    var shuttingDown: bool
    var exitPrepared: bool
    var preparing: Option<bool>     // an exit is being prepared; true if it is a fatal one
    var disposed: bool

    ghost predicate Bounds()
      reads this`operations, this`statuses, this`tokens, this`active, this`pendingStop
    {
      && |statuses| == |operations| == |tokens|
      && (active.Some? ==> active.value < |operations|) && (pendingStop.Some? ==> pendingStop.value < |operations|)
    }

    ghost predicate SlotInv() reads this`statuses, this`active, this`launched { Slot(statuses, launched, active) }

    ghost predicate ChainInv() reads this`statuses, this`launched { Chain(statuses, launched) && Bodies(statuses, launched) }

    /** The acting operation acts in the current scope, and no operation answers for a revision still to come. */
    ghost predicate ScopeInv()
      reads this`tokens, this`active, this`scope, this`draft
    {
      && (active.Some? ==> active.value < |tokens| && tokens[active.value].scope == scope)
      && forall i | 0 <= i < |tokens| :: tokens[i].captured <= draft.revision
    }

    predicate Interruptible(k: Kind) { k.StartAction? || k.RestartAction? }

    /** A pending stop that still has force has only what it would interrupt in the slot, and nothing is shutting down. */
    ghost predicate StopInv()
      reads this`operations, this`statuses, this`tokens, this`active, this`pendingStop, this`launched, this`shuttingDown, this`disposed
    {
      Bounds() && match pendingStop
      case None => true
      case Some(p) =>
        && statuses[p].Asking? && p !in launched
        && (tokens[p].aborted || ((active.None? || active == operations[p].original) && !shuttingDown && !disposed
                                  && (active.Some? ==> Interruptible(operations[active.value].kind))))
    }

    ghost predicate Valid()
      reads this
    {
      Bounds() && SlotInv() && ChainInv() && ScopeInv() && StopInv()
    }

    constructor (scope: Scope)
      ensures Valid() && operations == [] && active.None? && !shuttingDown && draft == Draft(false, 0)
    {
      this.scope, draft, active, pendingStop, launched := scope, Draft(false, 0), None, None, [];
      operations, statuses, tokens := [], [], [];
      authenticated, shuttingDown, exitPrepared, preparing, disposed := false, false, false, None, false;
    }

    /** assertToken: the operation still has force. */
    predicate Passes(id: nat)
      requires id < |tokens|
      reads this`tokens, this`active, this`pendingStop, this`scope, this`draft, this`disposed
    {
      var t := tokens[id];
      && !disposed && !t.aborted && (active == Some(id) || pendingStop == Some(id))
      && t.scope == scope && (t.confirmed ==> draft.revision == t.captured)
    }

    /** Only the operation that took the slot last, or a pending stop, passes; all others were superseded. */
    lemma SupersededNeverPasses(i: nat)
      requires Valid() && i + 1 < |launched|
      ensures launched[i] < |tokens| && !Passes(launched[i])
    {
      var n := |launched| - 1;
      assert Link(statuses, launched, n) && Link(statuses, launched, i);
      assert launched[i] == launched[..n][i];
    }

    // ---- small steps ----

    method Create(kind: Kind, original: Option<nat>, status: Status) returns (id: nat)
      requires Bounds()
      modifies this`operations, this`statuses, this`tokens
      ensures id == |old(operations)| && operations == old(operations) + [Operation(kind, original)]
      ensures statuses == old(statuses) + [status] && tokens == old(tokens) + [Token(false, scope, draft.revision, false, false)]
    {
      id := |operations|;
      operations := operations + [Operation(kind, original)];
      statuses := statuses + [status];
      tokens := tokens + [Token(false, scope, draft.revision, false, false)];
    }

    /** Takes the slot, behind the operation that has it. */
    method Launch(kind: Kind)
      requires Valid() && (pendingStop.Some? ==> tokens[pendingStop.value].aborted)
      modifies this`operations, this`statuses, this`tokens, this`active, this`launched
      ensures Valid() && active == Some(|old(operations)|) && launched == old(launched) + [|old(operations)|]
      ensures operations == old(operations) + [Operation(kind, None)] && statuses == old(statuses) + [Waiting(old(active))]
      ensures tokens == old(tokens) + [Token(false, scope, draft.revision, false, false)]
    {
      ghost var before := statuses;
      var id := Create(kind, None, Waiting(active));
      ChainMore(before, launched, active);
      ChainTaken(before + [Asking], launched, active, id);
      assert (before + [Asking])[id := Waiting(active)] == statuses;
      hide Chain, Bodies, Slot;
      active := Some(id);
      launched := launched + [id];
    }

    method Abort(id: Option<nat>)
      requires Valid() && (id.Some? ==> id.value < |operations|)
      modifies this`tokens
      ensures Valid() && tokens == if id.None? then old(tokens) else old(tokens)[id.value := old(tokens)[id.value].(aborted := true)]
    {
      hide SlotInv, ChainInv;
      if id.Some? { tokens := tokens[id.value := tokens[id.value].(aborted := true)]; }
    }
  
    /** Puts a new token in the place of an operation's token. */
    method SetToken(id: nat, t: Token)
      requires Valid() && id < |tokens| && t.aborted == tokens[id].aborted && t.scope == tokens[id].scope && t.captured <= draft.revision
      modifies this`tokens
      ensures Valid() && tokens == old(tokens)[id := t]
    {
      hide SlotInv, ChainInv;
      tokens := tokens[id := t];
    }

    /** A start is under way: the only thing that a stop may interrupt. */
    predicate MayInterrupt(proxyStarting: bool)
      reads this`active, this`operations
    {
      active.Some? && active.value < |operations|
      && (operations[active.value].kind.StartAction? || (operations[active.value].kind.RestartAction? && proxyStarting))
    }

    // ---- calls from outside ----

    /**
       A user's action.  It takes the free slot; only a stop may take it from a start that is under way, and
       with unsaved changes or open connections it asks first.
     */
    method AskAction(kind: Kind, proxyStarting: bool, connections: bool) returns (accepted: bool)
      requires Valid()
      modifies this
      ensures Valid() && old(launched) <= launched && draft == old(draft) && scope == old(scope)
      ensures accepted == (!old(disposed) && !old(shuttingDown) && old(pendingStop).None? && (old(active).Some? ==> kind.StopAction? && old(MayInterrupt(proxyStarting))))
      ensures accepted ==> |operations| == |old(operations)| + 1
      ensures if accepted && old(active).Some? && (draft.dirty || connections) then pendingStop == Some(|old(operations)|) && active == old(active)
              else if accepted then active == Some(|old(operations)|)
              else active == old(active) && operations == old(operations)
    {
      if disposed || shuttingDown || pendingStop.Some? { return false; }
      if active.Some? {
        if !kind.StopAction? || !MayInterrupt(proxyStarting) { return false; }
        if draft.dirty || connections {
          AskPendingStop();
          return true;
        }
        Abort(active);
      }
      Launch(kind);
      return true;
    }

    method AskPendingStop()
      requires Valid() && pendingStop.None? && active.Some? && !shuttingDown && !disposed && Interruptible(operations[active.value].kind)
      modifies this`operations, this`statuses, this`tokens, this`pendingStop
      ensures Valid() && pendingStop == Some(|old(operations)|) && operations == old(operations) + [Operation(StopAction, active)]
    {
      ChainMore(statuses, launched, active);
      var id := Create(StopAction, active, Asking);
      hide Chain, Bodies, Slot;
      pendingStop := Some(id);
    }

    /** A report about unsaved changes; its revision never goes back. */
    method ReportDraft(dirty: bool, revision: nat) returns (accepted: bool)
      requires Valid()
      modifies this`draft
      ensures Valid() && accepted == (revision >= old(draft).revision) && draft == if accepted then Draft(dirty, revision) else old(draft)
    {
      hide SlotInv, ChainInv;
      accepted := revision >= draft.revision;
      if accepted { draft := Draft(dirty, revision); }
    }

    /** Access was revoked: whatever acts or asks is aborted, and the shutdown takes the slot behind it. */
    method RevokeAuth()
      requires Valid()
      modifies this
      ensures Valid() && old(launched) <= launched && draft == old(draft) && scope == old(scope)
      ensures !disposed && !shuttingDown ==>
        active == Some(|old(operations)|) && !authenticated && forall i | 0 <= i < |old(tokens)| :: !Passes(i)
    {
      if disposed || shuttingDown { return; }
      Abort(active);
      Abort(pendingStop);
      authenticated := false;
      Launch(AuthRevoked);
    }

    method NoteAuthenticated()
      requires Valid()
      modifies this`authenticated
      ensures Valid() && authenticated == (old(authenticated) || (!disposed && !shuttingDown))
    {
      if disposed || shuttingDown { return; }
      authenticated := true;
    }

    /** A waiting authentication takes the slot only when nothing acts and nothing asks. */
    method DrainAuthentication(starts: bool)
      requires Valid()
      modifies this
      ensures Valid() && old(launched) <= launched && draft == old(draft) && scope == old(scope)
      ensures launched != old(launched) ==> old(active).None? && old(pendingStop).None? && old(authenticated) && !shuttingDown && !disposed
    {
      if active.Some? || pendingStop.Some? || disposed || shuttingDown || !authenticated { return; }
      authenticated := false;
      Launch(if starts then StartAction else AuthenticatedAction);
    }

    /** An exit from outside: it takes the slot, and nothing but a fatal exit takes it again. */
    method PrepareToExit(fatal: bool)
      requires Valid()
      modifies this
      ensures Valid() && old(launched) <= launched && draft == old(draft) && scope == old(scope)
      ensures launched != old(launched) ==> shuttingDown && |tokens| > |old(tokens)| && forall i | 0 <= i < |old(tokens)| :: !Passes(i)
    {
      hide SlotInv, ChainInv;
      if preparing.Some? && (!fatal || preparing.value) { return; }
      if exitPrepared { return; }
      preparing := Some(fatal);
      Abort(active);
      Abort(pendingStop);
      shuttingDown := true;
      authenticated := false;
      Launch(PrepareExit);
    }

    method DisposeApp()
      requires Valid()
      modifies this
      ensures Valid() && disposed && shuttingDown && launched == old(launched) && draft == old(draft) && scope == old(scope)
      ensures forall i | 0 <= i < |tokens| :: !Passes(i)
    {
      Abort(active);
      Abort(pendingStop);
      disposed, shuttingDown := true, true;
    }

    // ---- steps of an operation ----

    /** The operation before it has settled: the body begins. */
    method BeginBody(id: nat)
      requires Valid() && id < |statuses| && statuses[id].Waiting? && (statuses[id].previous.Some? ==> IsSettled(statuses, statuses[id].previous.value))
      modifies this`statuses
      ensures Valid() && statuses == old(statuses)[id := InBody]
      ensures forall i | 0 <= i < |statuses| && statuses[i].InBody? :: i == id
    {
      ChainBegins(statuses, launched, active, id);
      statuses := statuses[id := InBody];
      forall i | 0 <= i < |statuses| && statuses[i].InBody? ensures i == id { BodiesNeverOverlap(statuses, launched, i, id); }
      hide Chain, Bodies, Slot;
    }

    /** The operation's promise settles; the slot is free again if nothing has taken it since. */
    method SettleBody(id: nat)
      requires Valid() && id < |statuses| && statuses[id].InBody?
      modifies this`statuses, this`active
      ensures Valid() && statuses == old(statuses)[id := Settled] && active == if old(active) == Some(id) then None else old(active)
    {
      ChainSettles(statuses, launched, active, id);
      hide Chain, Bodies, Slot;
      statuses := statuses[id := Settled];
      if active == Some(id) { active := None; }
    }

    /** The acting operation moves on to a new epoch, and its token with it. */
    method AdvanceEpoch(id: nat, profile: string) returns (ok: bool)
      requires Valid() && id < |statuses| && statuses[id].InBody?
      modifies this`scope, this`tokens
      ensures Valid() && ok == (old(Passes(id)) && active == Some(id))
      ensures if ok then scope == Scope(profile, old(scope).epoch + 1) && tokens == old(tokens)[id := old(tokens)[id].(scope := scope)]
              else scope == old(scope) && tokens == old(tokens)
    {
      hide SlotInv, ChainInv;
      ok := Passes(id) && active == Some(id);
      if ok {
        scope := Scope(profile, scope.epoch + 1);
        tokens := tokens[id := tokens[id].(scope := scope)];
      }
    }

    /**
       The settings have been saved with another active profile: the acting operation moves the scope and
       its own token, in the same epoch, and everyone else's token is one for another profile.
     */
    method PersistProfile(id: nat, profile: string) returns (ok: bool)
      requires Valid() && id < |statuses| && statuses[id].InBody?
      modifies this`scope, this`tokens
      ensures Valid() && ok == old(Passes(id)) && |tokens| == |old(tokens)|
      ensures ok ==> active == Some(id) && scope == Scope(profile, old(scope).epoch) && Passes(id)
      ensures ok && profile != old(scope).profile ==> forall i | 0 <= i < |tokens| && i != id && old(tokens)[i].scope.profile != profile :: !Passes(i)
      ensures !ok ==> scope == old(scope)
      ensures forall i | 0 <= i < |tokens| && (i != id || !ok) :: tokens[i] == old(tokens)[i]
    {
      hide SlotInv, ChainInv;
      ok := Passes(id);
      if ok && profile != scope.profile {
        scope := Scope(profile, scope.epoch);
        tokens := tokens[id := tokens[id].(scope := scope)];
      }
    }

    /**
       The first half of a confirmation.  An operation with force then answers for the draft as it is, and
       keeps its force; it stands confirmed at once exactly if it was before or there is no reason to ask.
       Nobody else's token changes, and without force not even its own.
     */
    method CaptureDraft(id: nat, connections: bool, always: bool) returns (ok: bool)
      requires Valid() && id < |statuses| && (statuses[id].InBody? || pendingStop == Some(id))
      modifies this`tokens
      ensures Valid() && ok == old(Passes(id)) == Passes(id) && |tokens| == |old(tokens)|
      ensures forall i | 0 <= i < |tokens| && (i != id || !ok) :: tokens[i] == old(tokens)[i]
      ensures ok ==> tokens[id].captured == draft.revision && !tokens[id].aborted && tokens[id].scope == scope
      ensures ok ==> (tokens[id].asking <==> draft.dirty || connections || always)
      ensures ok ==> (tokens[id].confirmed <==> old(tokens)[id].confirmed || !tokens[id].asking)
    {
      ok := Passes(id);
      if ok {
        var asks := draft.dirty || connections || always;
        SetToken(id, tokens[id].(captured := draft.revision, asking := asks, confirmed := tokens[id].confirmed || !asks));
      }
    }

    /** The second half: an answer counts only while the operation has force and the draft is the one it was asked about. */
    method TakeAnswer(id: nat, accepted: bool) returns (confirmed: bool)
      requires Valid() && id < |statuses| && (statuses[id].InBody? || pendingStop == Some(id)) && tokens[id].asking
      modifies this`tokens
      ensures Valid() && confirmed == (accepted && old(Passes(id)) && draft.revision == old(tokens)[id].captured)
      ensures tokens == old(tokens)[id := old(tokens)[id].(asking := false, confirmed := old(tokens)[id].confirmed || confirmed)]
    {
      confirmed := accepted && Passes(id) && draft.revision == tokens[id].captured;
      SetToken(id, tokens[id].(asking := false, confirmed := tokens[id].confirmed || confirmed));
    }

    /** The draft is marked clean only by an operation that has force, and only at the revision it captured. */
    method ConsumeDraft(id: nat) returns (ok: bool)
      requires Valid() && id < |statuses| && statuses[id].InBody?
      modifies this`draft
      ensures Valid() && ok == (old(Passes(id)) && old(draft).revision == tokens[id].captured)
      ensures draft == if ok then Draft(false, tokens[id].captured) else old(draft)
      ensures ok ==> active == Some(id)
    {
      hide SlotInv, ChainInv;
      ok := Passes(id) && draft.revision == tokens[id].captured;
      if ok { draft := Draft(false, draft.revision); }
    }

    /** The last step of the user's exit. */
    method CompleteExit(id: nat) returns (ok: bool)
      requires Valid() && id < |statuses| && statuses[id].InBody? && operations[id].kind.ExitAction?
      modifies this`shuttingDown, this`exitPrepared
      ensures Valid() && ok == Passes(id)
      ensures ok ==> shuttingDown && exitPrepared && (pendingStop.Some? ==> tokens[pendingStop.value].aborted)
    {
      hide SlotInv, ChainInv;
      ok := Passes(id);
      if ok { shuttingDown, exitPrepared := true, true; }
    }

    /**
       A confirmed stop takes the slot.  If it still has force, the slot is free or has just the start it
       was to interrupt: that one is aborted, and the stop waits for it.
     */
    method AdoptPendingStop() returns (adopted: bool)
      requires Valid() && pendingStop.Some? && tokens[pendingStop.value].confirmed
      modifies this
      ensures Valid() && old(launched) <= launched && draft == old(draft) && scope == old(scope) && pendingStop.None? && |tokens| == |old(tokens)|
      ensures adopted == old(Passes(pendingStop.value))
      ensures adopted ==> active == old(pendingStop) && statuses[active.value] == Waiting(old(active))
                          && (old(active).Some? ==> old(active) == old(operations)[old(pendingStop).value].original && tokens[old(active).value].aborted)
    {
      var id := pendingStop.value;
      adopted := Passes(id);
      if !adopted {
        DropPendingStop();
        return;
      }
      assert active.None? || active == operations[id].original;
      Abort(active);
      TakeSlot(id);
    }

    method TakeSlot(id: nat)
      requires Valid() && pendingStop == Some(id) && tokens[id].scope == scope
      modifies this`pendingStop, this`statuses, this`active, this`launched
      ensures Valid() && pendingStop.None? && active == Some(id) && launched == old(launched) + [id] && statuses == old(statuses)[id := Waiting(old(active))]
    {
      ChainTaken(statuses, launched, active, id);
      hide Chain, Bodies, Slot;
      pendingStop := None;
      statuses := statuses[id := Waiting(active)];
      active := Some(id);
      launched := launched + [id];
    }

    method DropPendingStop()
      requires Valid() && pendingStop.Some?
      modifies this`pendingStop, this`statuses
      ensures Valid() && pendingStop.None? && statuses == old(statuses)[old(pendingStop).value := Settled]
    {
      ChainDrops(statuses, launched, active, pendingStop.value);
      hide Chain, Bodies, Slot;
      statuses := statuses[pendingStop.value := Settled];
      pendingStop := None;
    }

    // ---- runs ----

    /** One event; one that cannot happen now changes nothing. */
    method Handle(e: Event)
      requires Valid()
      modifies this
      ensures Valid() && draft.revision >= old(draft).revision && old(launched) <= launched
    {
      hide SlotInv, ChainInv, ScopeInv, StopInv;
      match e {
        case Ask(kind, proxyStarting, connections) => var _ := AskAction(kind, proxyStarting, connections);
        case SetDirty(dirty, revision) => var _ := ReportDraft(dirty, revision);
        case AuthRequired => RevokeAuth();
        case Authenticated => NoteAuthenticated();
        case Drain(starts) => DrainAuthentication(starts);
        case Exit(fatal) => PrepareToExit(fatal);
        case Dispose => DisposeApp();
        case AdoptStop => if pendingStop.Some? && tokens[pendingStop.value].confirmed { var _ := AdoptPendingStop(); }
        case DropStop => if pendingStop.Some? { DropPendingStop(); }
        case _ => if e.id < |statuses| { Step(e, e.id); }
      }
    }

    method Step(e: Event, id: nat)
      requires Valid() && id < |statuses|
      modifies this
      ensures Valid() && draft.revision >= old(draft).revision && old(launched) <= launched
    {
      hide SlotInv, ChainInv, ScopeInv, StopInv;
      var running := statuses[id].InBody?;
      match e {
        case Begin(_) =>
          if statuses[id].Waiting? && (statuses[id].previous.None? || IsSettled(statuses, statuses[id].previous.value)) { BeginBody(id); }
        case Advance(_, profile) => if running { var _ := AdvanceEpoch(id, profile); }
        case Persist(_, profile) => if running { var _ := PersistProfile(id, profile); }
        case Capture(_, connections, always) =>
          if running || pendingStop == Some(id) { var _ := CaptureDraft(id, connections, always); }
        case Answer(_, accepted) =>
          if (running || pendingStop == Some(id)) && tokens[id].asking { var _ := TakeAnswer(id, accepted); }
        case Consume(_) => if running { var _ := ConsumeDraft(id); }
        case FinishExit(_) => if running && operations[id].kind.ExitAction? { var _ := CompleteExit(id); }
        case Settle(_) => if running { SettleBody(id); }
        case _ =>
      }
    }
  }

  /** Over every interleaving bodies never overlap, and whatever was superseded has lost its force. */
  method Run(scope: Scope, events: seq<Event>) returns (app: App)
    ensures fresh(app) && app.Valid()
    ensures forall a, b | 0 <= a < |app.statuses| && 0 <= b < |app.statuses| && app.statuses[a].InBody? && app.statuses[b].InBody? :: a == b
    ensures forall i | 0 <= i < |app.launched| - 1 :: app.launched[i] < |app.tokens| && !app.Passes(app.launched[i])
  {
    app := new App(scope);
    for k := 0 to |events|
      invariant fresh(app) && app.Valid()
    {
      app.Handle(events[k]);
    }
    forall a, b | 0 <= a < |app.statuses| && 0 <= b < |app.statuses| && app.statuses[a].InBody? && app.statuses[b].InBody? ensures a == b {
      BodiesNeverOverlap(app.statuses, app.launched, a, b);
    }
    forall i | 0 <= i < |app.launched| - 1 ensures app.launched[i] < |app.tokens| && !app.Passes(app.launched[i]) {
      app.SupersededNeverPasses(i);
    }
  }
}
