/**
 The proxy controller as interleaved steps: calls from outside run at once up to their first wait, the
 queued operations run one at a time, and every wait may be followed by anything.
 */
module ProxyLifecycle {
  import opened Basics

  datatype Scope = Scope(profile: string, epoch: nat)

  /** A server the controller made, with what the controller remembers about it. */
  datatype Record = Record(
    candidate: bool,
    transaction: string,
    cancelled: bool,
    started: bool,
    stopRequested: bool,
    gate: bool,       // the server takes connections
    stopped: bool)    // the server's own stop has succeeded

  /** A queued operation; `generation` is the start generation when it was asked for. */
  datatype Task =
    | BeginTask(generation: nat, candidate: bool, transaction: string)
    | StopTask(generation: nat)
    | DisposeTask

  /** What the running operation waits for. */
  datatype Phase =
    | Idle
    | Replacing(task: Task)            // the old server's stop, before a new start
    | Fetching(task: Task)             // key material
    | Starting(task: Task, id: nat)    // the new server's start
    | Abandoning(id: nat)              // the stop of a server whose start failed or was cancelled
    | Stopping(task: Task, id: nat)    // the stop that was asked for

  /** A call of activateCandidate that waits to hear whether its transaction is committed. */
  datatype Activation = Activation(id: nat, generation: nat, scope: Scope)

  /** The admission gate of a candidate has been opened. */
  datatype Opening = Opening(id: nat, asked: Activation, generation: nat, scope: Scope)

  datatype StartResult = StartedOk | StartedFalse | StartThrew

  datatype Event =
    | Start(candidate: bool, transaction: string)
    | Stop
    | CancelPendingStart
    | Dispose
    | SetScope(next: Scope)
    | Activate(transaction: string)
    | ActivationAnswered(index: nat, committed: bool)
    | RunNext
    | StopAnswered(ok: bool)
    | MaterialAnswered(ok: bool)
    | StartAnswered(result: StartResult)
    | ServerSaysStarted
    | ServerSaysStopped
    | DetachedStop

  function Interrupted(records: seq<Record>, current: Option<nat>): seq<Record>
    requires current.Some? ==> current.value < |records|
  {
    if current.None? || (records[current.value].started && !records[current.value].candidate) then records
    else records[current.value := records[current.value].(cancelled := true, gate := false)]
  }

  /** The same server as before; a cancellation is never taken back. */
  predicate SameServer(before: Record, after: Record) {
    before.candidate == after.candidate && before.transaction == after.transaction && before.started == after.started
    && before.stopped == after.stopped && (before.cancelled ==> after.cancelled)
  }

  class Controller {
    var scope: Scope
    var current: Option<nat>
    var disposed: bool
    var startGeneration: nat
    var records: seq<Record>       // every server ever made, by number
    var queue: seq<Task>
    var phase: Phase
    var activations: seq<Activation>

    ghost var births: seq<nat>             // the generation in which each start was asked for
    ghost var lastStop: nat                // the generation begun by the last stop
    ghost var stoppedUpTo: nat             // the greatest generation begun by a stop that has succeeded
    ghost var openings: seq<Opening>
    ghost var committed: set<string>       // transactions that were reported as committed

    ghost predicate Owns(id: nat) reads this`current { current == Some(id) }

    /** Every server that was not stopped is the one the controller owns. */
    ghost predicate OneServer()
      reads this`records, this`births, this`current
    {
      && |births| == |records| && (current.Some? ==> current.value < |records|)
      && forall i | 0 <= i < |records| :: records[i].stopped || Owns(i)
    }

    /** No server outlives a stop that succeeded after its start was asked for. */
    ghost predicate StopWins()
      reads this`records, this`births, this`stoppedUpTo, this`lastStop, this`startGeneration
    {
      && |births| == |records| && stoppedUpTo <= lastStop <= startGeneration
      && (forall i | 0 <= i < |records| :: births[i] <= startGeneration)
      && forall i | 0 <= i < |records| :: records[i].stopped || births[i] >= stoppedUpTo
    }

    /** From the moment a stop is asked for, no server from before it takes connections any more. */
    ghost predicate GateInv()
      reads this`records, this`births, this`current, this`lastStop
    {
      && |births| == |records|
      && (forall i | 0 <= i < |records| :: records[i].gate ==> !records[i].cancelled && !records[i].candidate && Owns(i))
      && (forall i | 0 <= i < |records| :: records[i].gate ==> births[i] >= lastStop)
      && (forall i | 0 <= i < |records| :: Owns(i) && records[i].candidate && births[i] < lastStop ==> records[i].cancelled)
    }

    /** Every opened gate was asked for and opened in one generation and one scope, after a commit was seen. */
    ghost predicate OpeningsInv()
      reads this`openings, this`activations, this`records, this`births, this`committed, this`startGeneration, this`lastStop
    {
      && (forall i | 0 <= i < |openings| :: openings[i].id < |records| && GoodOpening(openings[i]))
      && |births| == |records|
      && (forall i | 0 <= i < |activations| :: activations[i].id < |records| && activations[i].generation <= startGeneration)
      && (forall i | 0 <= i < |activations| :: activations[i].generation == startGeneration ==> births[activations[i].id] >= lastStop)
    }

    ghost predicate GoodOpening(o: Opening)
      requires o.id < |records|
      reads this`records, this`committed
    {
      o.asked.id == o.id && o.asked.generation == o.generation && o.asked.scope == o.scope && records[o.id].transaction in committed
    }

    ghost predicate QueueInv()
      reads this`queue, this`phase, this`records, this`current, this`lastStop, this`startGeneration
    {
      && (forall i | 0 <= i < |queue| :: TaskInv(queue[i]))
      && match phase
         case Idle => true
         case Replacing(t) => t.BeginTask? && TaskInv(t) && Cancelled(current)
         case Fetching(t) => t.BeginTask? && TaskInv(t) && current.None?
         case Starting(t, id) => t.BeginTask? && TaskInv(t) && Owns(id)
         case Abandoning(id) => Owns(id) && Cancelled(current)
         case Stopping(t, id) => !t.BeginTask? && TaskInv(t) && Owns(id) && Cancelled(current)
    }

    ghost predicate Cancelled(id: Option<nat>)
      reads this`records
    {
      id.Some? && id.value < |records| && records[id.value].cancelled
    }

    ghost predicate TaskInv(t: Task)
      reads this`lastStop, this`startGeneration
    {
      match t
      case BeginTask(g, _, _) => g <= startGeneration
      case StopTask(g) => g <= lastStop
      case DisposeTask => true
    }

    ghost predicate Valid()
      reads this
    {
      OneServer() && StopWins() && GateInv() && OpeningsInv() && QueueInv()
    }

    constructor ()
      ensures Valid() && records == [] && phase == Idle && startGeneration == 0
    {
      scope, current, disposed, startGeneration := Scope("default", 0), None, false, 0;
      records, queue, phase, activations := [], [], Idle, [];
      births, lastStop, stoppedUpTo, openings, committed := [], 0, 0, [], {};
    }

    // ---- small steps ----

    /** Begins to stop the owned server: from now on it is cancelled and takes no connections. */
    method ShutGate(id: nat)
      requires Valid() && Owns(id)
      modifies this`records
      ensures Valid() && Cancelled(current) && |records| == |old(records)| && !records[id].gate
      ensures records[id].stopped == old(records)[id].stopped && records[id].candidate == old(records)[id].candidate
      ensures forall i | 0 <= i < |records| && i != id :: records[i] == old(records)[i]
    {
      records := records[id := records[id].(cancelled := true, gate := false)];
    }

    /** The owned server's stop has succeeded: only now is it given up. */
    method Release(id: nat)
      requires OneServer() && StopWins() && GateInv() && OpeningsInv() && Owns(id) && Cancelled(current)
      modifies this`records, this`current
      ensures OneServer() && StopWins() && GateInv() && OpeningsInv() && current.None?
      ensures |records| == |old(records)| && records[id].stopped
      ensures forall i | 0 <= i < |records| :: records[i].stopped
    {
      records := records[id := records[id].(stopped := true)];
      current := None;
    }

    /** Interrupts a start that is under way, or a candidate; a started server is left alone. */
    method CancelListen()
      requires current.Some? ==> current.value < |records|
      modifies this`records
      ensures records == Interrupted(old(records), current)
    {
      if current.None? { return; }
      var id := current.value;
      if records[id].started && !records[id].candidate { return; }
      records := records[id := records[id].(cancelled := true, gate := false)];
    }

    /** What a stop does to the servers at once. */
    method ShutAndInterrupt()
      requires OneServer() && GateInv()
      modifies this`records
      ensures |records| == |old(records)| && forall i | 0 <= i < |records| :: !records[i].gate && SameServer(old(records)[i], records[i])
      ensures current.Some? && records[current.value].candidate ==> records[current.value].cancelled
    {
      if current.Some? { records := records[current.value := records[current.value].(stopRequested := true, gate := false)]; }
      CancelListen();
    }

    // ---- calls ----

    method AskStart(candidate: bool, transaction: string)
      requires Valid()
      modifies this`queue
      ensures Valid() && queue == old(queue) + [BeginTask(startGeneration, candidate, transaction)]
    {
      queue := queue + [BeginTask(startGeneration, candidate, transaction)];
    }

    /** A stop makes every earlier start obsolete and shuts the gate at once; the rest of it waits its turn. */
    method AskStop()
      requires Valid()
      modifies this
      ensures Valid() && startGeneration == old(startGeneration) + 1 && lastStop == startGeneration
      ensures queue == old(queue) + [StopTask(startGeneration)] && current == old(current) && phase == old(phase)
      ensures forall i | 0 <= i < |records| :: !records[i].gate
    {
      startGeneration := startGeneration + 1;
      ShutAndInterrupt();
      lastStop := startGeneration;
      queue := queue + [StopTask(startGeneration)];
    }

    method AskCancel()
      requires Valid()
      modifies this
      ensures Valid() && startGeneration == old(startGeneration) + 1 && current == old(current) && phase == old(phase) && queue == old(queue)
      ensures records == Interrupted(old(records), current)
    {
      startGeneration := startGeneration + 1;
      CancelListen();
    }

    method AskDispose()
      requires Valid()
      modifies this
      ensures Valid() && disposed && startGeneration == old(startGeneration) + 1 && queue == old(queue) + [DisposeTask]
      ensures current == old(current) && phase == old(phase) && records == Interrupted(old(records), current)
    {
      AskCancel();
      hide OneServer, StopWins, GateInv, OpeningsInv;
      disposed := true;
      queue := queue + [DisposeTask];
    }

    method ChangeScope(next: Scope)
      requires Valid()
      modifies this`scope
      ensures Valid() && scope == next
    {
      scope := next;
    }

    /** The first part of activateCandidate, up to the question whether the transaction is committed. */
    method AskActivation(transaction: string) returns (asked: bool)
      requires Valid()
      modifies this`activations
      ensures Valid()
      ensures asked <==> current.Some? && !disposed
                         && var r := records[current.value]; r.candidate && r.transaction == transaction && r.started && !r.cancelled
      ensures activations == if asked then old(activations) + [Activation(current.value, startGeneration, scope)] else old(activations)
    {
      if current.None? { return false; }
      var r := records[current.value];
      if !r.candidate || r.transaction != transaction || !r.started || r.cancelled || disposed { return false; }
      activations := activations + [Activation(current.value, startGeneration, scope)];
      return true;
    }

    /** Lets the owned candidate in: it takes connections from now on and is no candidate any more. */
    method OpenGate(a: Activation)
      requires Valid() && current == Some(a.id) && !records[a.id].cancelled && records[a.id].transaction in committed
      requires a.generation == startGeneration && a.scope == scope && births[a.id] >= lastStop
      modifies this`records, this`openings
      ensures Valid() && records == old(records)[a.id := old(records)[a.id].(gate := true, candidate := false)]
      ensures openings == old(openings) + [Opening(a.id, a, startGeneration, scope)]
    {
      openings := openings + [Opening(a.id, a, startGeneration, scope)];
      records := records[a.id := records[a.id].(gate := true, candidate := false)];
    }

    /** Takes the answer to one activation off the list. */
    method TakeAnswer(index: nat, isCommitted: bool) returns (a: Activation)
      requires Valid() && index < |activations|
      modifies this`activations, this`committed
      ensures Valid() && a == old(activations)[index] && activations == old(activations)[..index] + old(activations)[index + 1..]
      ensures isCommitted ==> records[a.id].transaction in committed
      ensures a.generation == startGeneration ==> births[a.id] >= lastStop
    {
      hide GateInv, QueueInv, StopWins, OneServer;
      a := activations[index];
      activations := activations[..index] + activations[index + 1..];
      if isCommitted { committed := committed + {records[a.id].transaction}; }
    }

    /** The answer: the gate opens only if nothing has come in between. */
    method AnswerActivation(index: nat, isCommitted: bool) returns (activated: bool)
      requires Valid() && index < |activations|
      modifies this
      ensures Valid() && activations == old(activations)[..index] + old(activations)[index + 1..] && |records| == |old(records)|
      ensures var a := old(activations)[index];
              activated <==> isCommitted && old(current) == Some(a.id) && !old(records)[a.id].cancelled && !old(disposed)
                             && old(startGeneration) == a.generation && old(scope) == a.scope
      ensures activated ==> records[old(activations)[index].id].gate && !records[old(activations)[index].id].candidate
      ensures !activated ==> records == old(records) && openings == old(openings)
      ensures current == old(current) && phase == old(phase) && queue == old(queue)
    {
      var a := TakeAnswer(index, isCommitted);
      if !isCommitted || current != Some(a.id) || records[a.id].cancelled || disposed || startGeneration != a.generation || scope != a.scope {
        return false;
      }
      hide GateInv, QueueInv, StopWins, OpeningsInv;
      OpenGate(a);
      return true;
    }

    // ---- the queue ----

    method Dequeue() returns (t: Task)
      requires Valid() && phase.Idle? && queue != []
      modifies this`queue
      ensures Valid() && t == old(queue)[0] && queue == old(queue)[1..] && TaskInv(t)
    {
      hide OneServer, StopWins, GateInv, OpeningsInv;
      t := queue[0];
      queue := queue[1..];
    }

    /** Shuts the owned server's gate and waits for its stop. */
    method StopOwned(t: Task)
      requires Valid() && current.Some? && TaskInv(t)
      modifies this`records, this`phase
      ensures Valid() && phase == (if t.BeginTask? then Replacing(t) else Stopping(t, current.value)) && |records| == |old(records)|
      ensures Cancelled(current) && !records[current.value].gate
    {
      ShutGate(current.value);
      hide OneServer, StopWins, GateInv, OpeningsInv;
      phase := if t.BeginTask? then Replacing(t) else Stopping(t, current.value);
    }

    /** With every server stopped, a stop has succeeded. */
    method StopSucceeded(t: Task)
      requires Valid() && current.None? && TaskInv(t)
      modifies this`stoppedUpTo
      ensures Valid() && (t.StopTask? ==> stoppedUpTo >= t.generation)
    {
      hide OpeningsInv, GateInv, QueueInv;
      if t.StopTask? && t.generation > stoppedUpTo { stoppedUpTo := t.generation; }
    }

    method SetPhase(p: Phase)
      requires Valid() && (p.Idle? || (p.Fetching? && p.task.BeginTask? && TaskInv(p.task) && current.None?))
      modifies this`phase
      ensures Valid() && phase == p
    {
      hide OneServer, StopWins, GateInv, OpeningsInv;
      phase := p;
    }

    /** The next queued operation, up to its first wait. */
    method RunTask()
      requires Valid() && phase.Idle? && queue != []
      modifies this
      ensures Valid() && queue == old(queue)[1..] && |records| == |old(records)| && current == old(current)
      ensures var t := old(queue)[0];
              if t.BeginTask? && (disposed || t.generation != startGeneration || old(AlreadyRunning(t))) then phase.Idle? && records == old(records)
              else if t.BeginTask? then phase == (if current.Some? then Replacing(t) else Fetching(t))
              else if current.Some? then phase == Stopping(t, current.value)
              else phase.Idle?
      ensures phase.Replacing? || phase.Stopping? ==> Cancelled(current) && !records[current.value].gate
      ensures old(queue)[0].StopTask? && phase.Idle? ==> current.None? && stoppedUpTo >= old(queue)[0].generation
    {
      hide Valid;
      var t := Dequeue();
      if t.BeginTask? {
        if disposed || t.generation != startGeneration || AlreadyRunning(t) { return; }
        if current.Some? { StopOwned(t); } else { SetPhase(Fetching(t)); }
      } else if current.Some? {
        StopOwned(t);
      } else {
        StopSucceeded(t);
      }
    }

    /** A start while the owned server runs only renews its cookie. */
    predicate AlreadyRunning(t: Task)
      reads this`current, this`records
    {
      t.BeginTask? && current.Some? && current.value < |records|
      && var r := records[current.value]; r.started && !r.cancelled && !r.candidate && !t.candidate
    }

    /**
       The owned server's stop is over.  If it failed, the server stays owned; if it succeeded, it is given
       up, and a stop that was asked for has then stopped every server whose start was asked for before it.
     */
    method AnswerStop(ok: bool)
      requires Valid() && (phase.Replacing? || phase.Abandoning? || phase.Stopping?)
      modifies this
      ensures Valid() && |records| == |old(records)| && queue == old(queue)
      ensures !ok ==> current == old(current) && records == old(records) && phase.Idle?
      ensures ok ==> current.None? && forall i | 0 <= i < |records| :: records[i].stopped
      ensures ok && old(phase).Stopping? && old(phase).task.StopTask? ==> stoppedUpTo >= old(phase).task.generation
      ensures ok ==> phase == if old(phase).Replacing? && !disposed && old(phase).task.generation == startGeneration then Fetching(old(phase).task) else Idle
    {
      var waited := phase;
      if !ok {
        SetPhase(Idle);
        return;
      }
      GiveUp();
      hide Valid;
      if waited.Replacing? && !disposed && waited.task.generation == startGeneration {
        SetPhase(Fetching(waited.task));
      } else if waited.Stopping? {
        StopSucceeded(waited.task);
      }
    }

    /** The stop that was waited for has succeeded. */
    method GiveUp()
      requires Valid() && (phase.Replacing? || phase.Abandoning? || phase.Stopping?)
      modifies this`records, this`current, this`phase
      ensures Valid() && phase == Idle && current.None? && |records| == |old(records)|
      ensures forall i | 0 <= i < |records| :: records[i].stopped
      ensures old(phase).Replacing? || old(phase).Stopping? ==> TaskInv(old(phase).task) && (old(phase).Replacing? ==> old(phase).task.BeginTask?)
    {
      Release(current.value);
      hide OneServer, StopWins, GateInv, OpeningsInv;
      phase := Idle;
    }

    /** Key material has come, or not: a server is made only for the generation that is still current. */
    method AnswerMaterial(ok: bool)
      requires Valid() && phase.Fetching?
      modifies this
      ensures Valid() && queue == old(queue)
      ensures if ok && !disposed && old(phase).task.generation == startGeneration
              then |records| == |old(records)| + 1 && current == Some(|old(records)|) && births == old(births) + [startGeneration]
                   && records[|old(records)|].gate == !old(phase).task.candidate
              else records == old(records) && current.None? && phase.Idle?
    {
      var t := phase.task;
      phase := Idle;
      if !ok || disposed || t.generation != startGeneration { return; }
      MakeServer(t);
    }

    method MakeServer(t: Task)
      requires Valid() && current.None? && t.BeginTask? && t.generation == startGeneration
      modifies this`records, this`births, this`current, this`phase
      ensures Valid() && phase == Starting(t, |old(records)|) && current == Some(|old(records)|) && births == old(births) + [startGeneration]
      ensures records == old(records) + [Record(t.candidate, t.transaction, false, false, false, !t.candidate, false)]
    {
      var id := |records|;
      records := records + [Record(t.candidate, t.transaction, false, false, false, !t.candidate, false)];
      births := births + [t.generation];
      current := Some(id);
      phase := Starting(t, id);
    }

    /** The server's start is over; if it failed, or was overtaken, the server must be stopped again. */
    method AnswerStart(result: StartResult)
      requires Valid() && phase.Starting?
      modifies this
      ensures Valid() && queue == old(queue) && |records| == |old(records)| && current == old(current)
      ensures var id := old(phase).id;
              if result.StartedOk? && !old(records)[id].cancelled && !disposed && old(phase).task.generation == startGeneration
              then phase.Idle? && records == old(records)[id := old(records)[id].(started := true)]
              else phase == Abandoning(id) && records[id].cancelled && !records[id].gate
    {
      var Starting(t, id) := phase;
      if result.StartedOk? && !records[id].cancelled && !disposed && t.generation == startGeneration {
        phase := Idle;
        SetStarted(true);
      } else {
        ShutGate(id);
        phase := Abandoning(id);
      }
    }

    /** The owned server reports that it has started or stopped. */
    method SetStarted(started: bool)
      requires Valid() && current.Some?
      modifies this`records
      ensures Valid() && records == old(records)[current.value := old(records)[current.value].(started := started)]
    {
      records := records[current.value := records[current.value].(started := started)];
    }

    /** A stop that nobody waits for has succeeded. */
    method StopDetached()
      requires Valid() && Cancelled(current)
      modifies this`records
      ensures Valid() && current == old(current) && records == old(records)[current.value := old(records)[current.value].(stopped := true)]
    {
      records := records[current.value := records[current.value].(stopped := true)];
    }

    // ---- runs ----

    /** One event; one that cannot happen now changes nothing. */
    method Handle(e: Event)
      requires Valid()
      modifies this
      ensures Valid()
    {
      hide OneServer, StopWins, GateInv, OpeningsInv;
      match e {
        case Start(candidate, transaction) => AskStart(candidate, transaction);
        case Stop => AskStop();
        case CancelPendingStart => AskCancel();
        case Dispose => AskDispose();
        case SetScope(next) => ChangeScope(next);
        case Activate(transaction) => var _ := AskActivation(transaction);
        case ActivationAnswered(index, isCommitted) =>
          if index < |activations| { var _ := AnswerActivation(index, isCommitted); }
        case RunNext =>
          if phase.Idle? && queue != [] { RunTask(); }
        case StopAnswered(ok) =>
          if phase.Replacing? || phase.Abandoning? || phase.Stopping? { AnswerStop(ok); }
        case MaterialAnswered(ok) =>
          if phase.Fetching? { AnswerMaterial(ok); }
        case StartAnswered(result) =>
          if phase.Starting? { AnswerStart(result); }
        case ServerSaysStarted =>
          if current.Some? { SetStarted(true); }
        case ServerSaysStopped =>
          if current.Some? { SetStarted(false); }
        case DetachedStop => DetachedStopComes();
      }
    }

    method DetachedStopComes()
      requires Valid()
      modifies this`records
      ensures Valid()
    {
      if current.Some? && records[current.value].cancelled { StopDetached(); }
    }
  }

  /**
     Over every interleaving: all servers but the owned one are stopped, none has outlived a stop, and none
     from before the last stop takes connections.
   */
  method Run(events: seq<Event>) returns (c: Controller)
    ensures fresh(c) && c.Valid()
    ensures forall i, j | 0 <= i < |c.records| && 0 <= j < |c.records| :: c.records[i].stopped || c.records[j].stopped || i == j
    ensures forall i | 0 <= i < |c.records| :: (c.records[i].stopped || c.births[i] >= c.stoppedUpTo) && (c.records[i].gate ==> c.births[i] >= c.lastStop)
  {
    c := new Controller();
    for k := 0 to |events|
      invariant fresh(c) && c.Valid()
    {
      c.Handle(events[k]);
    }
  }
}
