/** The send side of a session (Session::Send, RegisterSend, ProcessSend) under every
    interleaving of its callers, of the threads that dispatch completions, and of the
    kernel.

    Each label is one atomic step: a block under the session's lock, one access to an
    atomic flag, one system call, or a stretch of code that touches only `_sendEvent`. */
module SendProtocol {
  import opened Ordered
  import opened Sequences

  /** Where a thread stands between two steps.  Only a thread that is inside RegisterSend
      or ProcessSend has a place here. */
  datatype Place =
    | Registering              // entered RegisterSend
    | Connected                // saw the session connected
    | Draining                 // initialised the event and its owner reference
    | Submitting               // moved the queue into the event
    | Failed                   // WSASend failed
    | Reported                 // handled the error
    | Releasing                // dropped the references of the event
    | Completing(bytes: nat)   // entered ProcessSend
    | Completed(bytes: nat)    // dropped the references of the event
    | Checking                 // the completion was not empty

  /** Everything enqueued, every batch drained, what was drained but not yet handed to the
      kernel, and everything handed to the kernel. */
  datatype History<T> = History(enqueued: seq<T>, drained: seq<seq<T>>, inHand: seq<T>, submitted: seq<T>)

  /** `queue`, `registered`, `connected`, `batch` and `owned` are the fields of the session
      (`batch` and `owned` belong to the reused send event); `kernel` is the list of
      buffers of the operation in flight.  The last three are history: besides the buffers,
      whether a WSASend failed, and whether a completion carried no bytes. */
  datatype State<T> = State(
    queue: seq<T>, registered: bool, connected: bool, batch: seq<T>, owned: bool,
    kernel: Option<seq<T>>, threads: map<nat, Place>, hist: History<T>, failed: bool, emptied: bool)
  {
    function At(t: nat, p: Place): State<T> { this.(threads := threads[t := p]) }

    function Leave(t: nat): State<T> { this.(threads := threads - {t}) }
  }

  datatype Label<T> =
    | Send(t: nat, buffer: T)       // push and exchange, under the lock
    | CheckConnected(t: nat)
    | Prepare(t: nat)
    | Drain(t: nat)                 // move the whole queue, under the lock
    | SubmitOk(t: nat)              // WSASend succeeds or is pending
    | SubmitFails(t: nat)
    | Report(t: nat, hangUp: bool)  // HandleError, which may disconnect
    | Clear(t: nat)
    | Release(t: nat)               // `_sendRegistered.store(false)`
    | Complete(t: nat, bytes: nat)  // a thread dequeues the completion
    | ClearDone(t: nat)
    | Finish(t: nat)                // look at the number of bytes
    | CheckQueue(t: nat)            // decide under the lock
    | Disconnect                    // any other reason to disconnect

  predicate IsAt<T>(s: State<T>, t: nat, p: Place) { t in s.threads && s.threads[t] == p }

  predicate Enabled<T>(s: State<T>, l: Label<T>) {
    match l
    case Send(t, _) => t !in s.threads
    case CheckConnected(t) => IsAt(s, t, Registering)
    case Prepare(t) => IsAt(s, t, Connected)
    case Drain(t) => IsAt(s, t, Draining)
    case SubmitOk(t) => IsAt(s, t, Submitting)
    case SubmitFails(t) => IsAt(s, t, Submitting)
    case Report(t, _) => IsAt(s, t, Failed)
    case Clear(t) => IsAt(s, t, Reported)
    case Release(t) => IsAt(s, t, Releasing)
    case Complete(t, _) => t !in s.threads && s.kernel.Some?
    case ClearDone(t) => t in s.threads && s.threads[t].Completing?
    case Finish(t) => t in s.threads && s.threads[t].Completed?
    case CheckQueue(t) => IsAt(s, t, Checking)
    case Disconnect => true
  }

  function Next<T>(s: State<T>, l: Label<T>): State<T>
    requires Enabled(s, l)
  {
    match l
    case Send(t, b) =>
      var s' := s.(queue := s.queue + [b], registered := true, hist := s.hist.(enqueued := s.hist.enqueued + [b]));
      if s.registered then s' else s'.At(t, Registering)
    case CheckConnected(t) => if s.connected then s.At(t, Connected) else s.Leave(t)
    case Prepare(t) => s.(owned := true).At(t, Draining)
    case Drain(t) =>
      s.(queue := [], batch := s.batch + s.queue, hist := s.hist.(drained := s.hist.drained + [s.queue], inHand := s.queue))
       .At(t, Submitting)
    case SubmitOk(t) => 
      s.(kernel := Some(s.batch), hist := s.hist.(inHand := [], submitted := s.hist.submitted + s.batch)).Leave(t)
    case SubmitFails(t) => s.(failed := true).At(t, Failed)
    case Report(t, hangUp) => s.(connected := s.connected && !hangUp).At(t, Reported)
    case Clear(t) => s.(owned := false, batch := []).At(t, Releasing)
    case Release(t) => s.(registered := false).Leave(t)
    case Complete(t, bytes) => s.(kernel := None).At(t, Completing(bytes))
    case ClearDone(t) => s.(owned := false, batch := []).At(t, Completed(s.threads[t].bytes))
    case Finish(t) =>
      if s.threads[t].bytes == 0 then s.(connected := false, emptied := true).Leave(t) else s.At(t, Checking)
    case CheckQueue(t) =>
      if s.queue == [] then s.(registered := false).Leave(t) else s.At(t, Registering)
    case Disconnect => s.(connected := false)
  }

  /** A connected session with nothing sent yet. */
  function Init<T>(): State<T> {
    State([], false, true, [], false, None, map[], History([], [], [], []), false, false)
  }

  ghost predicate IsRun<T>(states: seq<State<T>>, labels: seq<Label<T>>) {
    |states| == |labels| + 1 && forall i :: 0 <= i < |labels| ==> StepAt(states, labels, i)
  }

  ghost predicate StepAt<T>(states: seq<State<T>>, labels: seq<Label<T>>, i: nat)
    requires |states| == |labels| + 1 && i < |labels|
  {
    Enabled(states[i], labels[i]) && states[i + 1] == Next(states[i], labels[i])
  }

  // ---------- invariants ----------

  /** Somebody owns the send event: a thread inside the protocol, or the kernel. */
  predicate Owned<T>(s: State<T>) { s.threads.Keys != {} || s.kernel.Some? }

  /** At most one agent owns the send event, and an unset flag means that nobody does. */
  ghost predicate OneOwner<T>(s: State<T>) {
    && (forall t, u :: t in s.threads && u in s.threads ==> t == u)
    && (s.threads.Keys != {} ==> s.kernel.None?)
    && (Owned(s) ==> s.registered)
  }

  /** What an owner at a place knows about the event and the queue. */
  ghost predicate PlaceOk<T>(s: State<T>, p: Place) {
    match p
    case Registering => s.batch == [] && !s.owned && s.queue != []
    case Connected => s.batch == [] && !s.owned && s.queue != []
    case Draining => s.batch == [] && s.owned && s.queue != []
    case Submitting => s.batch != [] && s.owned && s.batch == s.hist.inHand
    case Failed => s.batch != [] && s.owned && s.failed
    case Reported => s.batch != [] && s.owned && s.failed
    case Releasing => s.batch == [] && !s.owned && s.failed
    case Completing(_) => s.batch != [] && s.owned
    case Completed(_) => s.batch == [] && !s.owned
    case Checking => s.batch == [] && !s.owned
  }

  /** The event is empty whenever a drain starts and whenever nobody owns it; the kernel
      only ever works on the buffers that the event still keeps alive, and never on none. */
  ghost predicate EventOk<T>(s: State<T>) {
    && (forall t :: t in s.threads ==> PlaceOk(s, s.threads[t]))
    && (s.kernel.Some? ==> s.batch == s.kernel.value && s.batch != [] && s.owned)
    && (!Owned(s) ==> s.batch == [] && !s.owned)
  }

  /** Nothing is lost, duplicated or reordered on the way into the batches; unless a
      WSASend failed, what was handed to the kernel is what was drained, up to the batch
      of a thread that is about to submit. */
  ghost predicate Conserved<T>(s: State<T>) {
    && Concat(s.hist.drained) + s.queue == s.hist.enqueued
    && (!s.failed ==> Concat(s.hist.drained) == s.hist.submitted + s.hist.inHand)
    && (!s.failed && s.hist.inHand != [] ==> s.threads.Keys != {} && forall t :: t in s.threads ==> s.threads[t] == Submitting)
  }

  /** While the session is connected the flag is set only if somebody owns the event; and
      as long as no WSASend has failed, a buffer in the queue means that the flag is set. */
  ghost predicate TokenAlive<T>(s: State<T>) {
    && (s.emptied ==> !s.connected)
    && (s.registered && s.connected ==> Owned(s))
    && (!s.failed && s.queue != [] ==> s.registered)
  }

  ghost predicate Inv<T>(s: State<T>) {
    OneOwner(s) && EventOk(s) && Conserved(s) && TokenAlive(s)
  }

  lemma {:induction false} NextKeepsOneOwner<T>(s: State<T>, l: Label<T>)
    requires OneOwner(s) && Enabled(s, l)
    ensures OneOwner(Next(s, l))
  {
  }

  lemma {:induction false} SendKeepsEventOk<T>(s: State<T>, t: nat, b: T)
    requires OneOwner(s) && EventOk(s) && Enabled(s, Label<T>.Send(t, b))
    ensures EventOk(Next(s, Label<T>.Send(t, b)))
  {
  }

  /** A step of RegisterSend up to the outcome of WSASend. */
  predicate Fills<T>(l: Label<T>) { l.CheckConnected? || l.Prepare? || l.Drain? || l.SubmitOk? || l.SubmitFails? }

  lemma {:induction false} FillingKeepsEventOk<T>(s: State<T>, l: Label<T>)
    requires OneOwner(s) && EventOk(s) && Enabled(s, l) && Fills(l)
    ensures EventOk(Next(s, l))
  {
    assert s.threads.Keys == {l.t} && PlaceOk(s, s.threads[l.t]);
    assert s.Leave(l.t).threads.Keys == {};
  }

  lemma {:induction false} ReleasingKeepsEventOk<T>(s: State<T>, l: Label<T>)
    requires OneOwner(s) && EventOk(s) && Enabled(s, l)
    requires !Fills(l) && !l.Send? && !l.Complete? && !l.Disconnect?
    ensures EventOk(Next(s, l))
  {
    assert s.threads.Keys == {l.t} && PlaceOk(s, s.threads[l.t]);
    assert s.Leave(l.t).threads.Keys == {};
  }

  lemma {:induction false} NextKeepsEventOk<T>(s: State<T>, l: Label<T>)
    requires OneOwner(s) && EventOk(s) && Enabled(s, l)
    ensures EventOk(Next(s, l))
  {
    match l
    case Send(t, b) => SendKeepsEventOk(s, t, b);
    case Complete(_, _) =>
    case Disconnect =>
    case _ => if Fills(l) { FillingKeepsEventOk(s, l); } else { ReleasingKeepsEventOk(s, l); }
  }

  lemma {:induction false} NextKeepsTokenAlive<T>(s: State<T>, l: Label<T>)
    requires OneOwner(s) && EventOk(s) && TokenAlive(s) && Enabled(s, l)
    ensures TokenAlive(Next(s, l))
  {
  }

  lemma {:induction false} SendConserves<T>(s: State<T>, t: nat, b: T)
    requires OneOwner(s) && Conserved(s) && Enabled(s, Label<T>.Send(t, b))
    ensures Conserved(Next(s, Label<T>.Send(t, b)))
  {
    assert Concat(s.hist.drained) + (s.queue + [b]) == s.hist.enqueued + [b];
  }

  lemma {:induction false} DrainConserves<T>(s: State<T>, t: nat)
    requires Inv(s) && Enabled(s, Label<T>.Drain(t))
    ensures Conserved(Next(s, Label<T>.Drain(t)))
  {
    ConcatSnoc(s.hist.drained, s.queue);
    assert Concat(s.hist.drained) + s.queue + [] == s.hist.enqueued;
    assert s.threads.Keys == {t};
  }

  lemma {:induction false} SubmitConserves<T>(s: State<T>, t: nat)
    requires Inv(s) && Enabled(s, Label<T>.SubmitOk(t))
    ensures Conserved(Next(s, Label<T>.SubmitOk(t)))
  {
  }

  /** Only these three steps touch the histories of buffers. */
  lemma {:induction false} OthersKeepHistories<T>(s: State<T>, l: Label<T>)
    requires Enabled(s, l) && !l.Send? && !l.Drain? && !l.SubmitOk?
    ensures var s' := Next(s, l);
      s'.queue == s.queue && s'.hist == s.hist && (s.failed ==> s'.failed)
  {
    match l
    case CheckConnected(_) =>
    case Prepare(_) =>
    case SubmitFails(_) =>
    case Report(_, _) =>
    case Clear(_) =>
    case Release(_) =>
    case Complete(_, _) =>
    case ClearDone(_) =>
    case Finish(_) =>
    case CheckQueue(_) =>
    case Disconnect =>
  }

  /** A batch in hand is given up by SubmitOk or by a failure only. */
  lemma {:induction false} OthersKeepInHand<T>(s: State<T>, l: Label<T>)
    requires Inv(s) && Enabled(s, l) && !l.Send? && !l.Drain? && !l.SubmitOk? && !Next(s, l).failed
    requires s.hist.inHand != []
    ensures Next(s, l).threads == s.threads
  {
  }

  lemma {:induction false} NextKeepsConserved<T>(s: State<T>, l: Label<T>)
    requires Inv(s) && Enabled(s, l)
    ensures Conserved(Next(s, l))
  {
    match l
    case Send(t, b) => SendConserves(s, t, b);
    case Drain(t) => DrainConserves(s, t);
    case SubmitOk(t) => SubmitConserves(s, t);
    case _ =>
      OthersKeepHistories(s, l);
      if s.hist.inHand != [] && !Next(s, l).failed { OthersKeepInHand(s, l); }
  }

  lemma {:induction false} NextKeepsInv<T>(s: State<T>, l: Label<T>)
    requires Inv(s) && Enabled(s, l)
    ensures Inv(Next(s, l))
  {
    NextKeepsOneOwner(s, l);
    NextKeepsEventOk(s, l);
    NextKeepsTokenAlive(s, l);
    NextKeepsConserved(s, l);
  }

  /** In every state of every interleaving the event has at most one owner, no empty batch
      is ever submitted, a drain starts from an empty event, and the batches drained so
      far followed by the queue are exactly what was enqueued. */
  lemma {:induction false} RunsKeepInv<T>(states: seq<State<T>>, labels: seq<Label<T>>, i: nat)
    requires IsRun(states, labels) && states[0] == Init() && i < |states|
    ensures Inv(states[i])
  {
    if i > 0 {
      var k := i - 1;
      RunsKeepInv(states, labels, k);
      assert StepAt(states, labels, k);
      NextKeepsInv(states[k], labels[k]);
    }
  }

  // ---------- wake-ups ----------

  /** Somebody will look after the queue. */
  predicate Awake<T>(s: State<T>) { s.queue != [] ==> Owned(s) }

  /** Connected, with no WSASend failed so far: no wake-up is lost. */
  lemma {:induction false} NoLostWakeup<T>(s: State<T>)
    requires Inv(s) && s.connected && !s.failed
    ensures Awake(s) && (s.registered <==> Owned(s))
  {
  }

  /** The steps after which a buffer waits without an owner, from a state where none did:
      a Send that finds the flag set although nobody owns the event; and, with a buffer
      waiting, the release after a failed WSASend, an empty completion, and RegisterSend
      on a disconnected session.  The first of them needs a disconnected session, too. */
  lemma {:induction false} WakeupIsLostIff<T>(s: State<T>, l: Label<T>)
    requires Inv(s) && Awake(s) && Enabled(s, l)
    ensures !Awake(Next(s, l)) <==>
              || (l.Send? && s.registered && !Owned(s))
              || (s.queue != [] && (l.Release? || (l.Finish? && s.threads[l.t].bytes == 0) || (l.CheckConnected? && !s.connected)))
    ensures l.Send? && s.registered && !Owned(s) ==> !s.connected
  {
    OwnerLeaves(s, l);
  }

  /** Once a buffer waits without an owner, only a Send that finds the flag clear wakes the
      protocol up again; on a disconnected session whose flag stayed set nothing does. */
  lemma {:induction false} WakeupReturnsIff<T>(s: State<T>, l: Label<T>)
    requires Inv(s) && !Awake(s) && Enabled(s, l)
    ensures Awake(Next(s, l)) <==> l.Send? && !s.registered
    ensures s.registered ==> Next(s, l).registered
  {
    if l.Send? && !s.registered {
      assert l.t in Next(s, l).threads.Keys;
    }
  }

  /** The steps by which the only owner gives the event up. */
  lemma {:induction false} OwnerLeaves<T>(s: State<T>, l: Label<T>)
    requires Inv(s) && Enabled(s, l)
    ensures Owned(s) && !Owned(Next(s, l)) <==>
              || l.Release? || (l.Finish? && s.threads[l.t].bytes == 0)
              || (l.CheckConnected? && !s.connected) || (l.CheckQueue? && s.queue == [])
  {
  }

  /** A session hangs up in three ways only, and never comes back: when asked to, when a failed
      WSASend is reported as a lost connection, and on an empty completion. */
  lemma {:induction false} ConnectionEndsIff<T>(s: State<T>, l: Label<T>)
    requires Enabled(s, l)
    ensures Next(s, l).connected <==>
              s.connected && !l.Disconnect? && !(l.Report? && l.hangUp) && !(l.Finish? && IsAt(s, l.t, Completed(0)))
  {
    match l
    case Send(_, _) =>
    case CheckConnected(_) =>
    case Report(_, _) =>
    case Finish(_) =>
    case CheckQueue(_) =>
    case Disconnect =>
    case _ =>
  }

  /** Running a list of labels from a state. */
  ghost predicate Leads<T>(s: State<T>, labels: seq<Label<T>>, s': State<T>)
    decreases |labels|
  {
    if labels == [] then s' == s
    else Enabled(s, labels[0]) && Leads(Next(s, labels[0]), labels[1..], s')
  }

  lemma {:induction false} LeadsFurther<T>(s: State<T>, labels: seq<Label<T>>, s': State<T>, l: Label<T>)
    requires Leads(s, labels, s') && Enabled(s', l)
    ensures Leads(s, labels + [l], Next(s', l))
    decreases |labels|
  {
    if labels == [] {
      assert [l][1..] == [];
      assert labels + [l] == [l];
    } else {
      LeadsFurther(Next(s, labels[0]), labels[1..], s', l);
      assert (labels + [l])[1..] == labels[1..] + [l];
    }
  }

  /** Where a thread alone in the protocol stands. */
  function Alone(queue: seq<int>, batch: seq<int>, place: Place, hist: History<int>, failed: bool): State<int> {
    State(queue, true, true, batch, batch != [] || place == Draining, None, map[1 := place], hist, failed, false)
  }

  lemma {:induction false} Goes(labels: seq<Label<int>>, s: State<int>, l: Label<int>, s': State<int>)
    requires Leads(Init<int>(), labels, s) && Enabled(s, l) && Next(s, l) == s'
    ensures Leads(Init<int>(), labels + [l], s')
  {
    LeadsFurther(Init<int>(), labels, s, l);
  }

  const STRANDED := State([8], false, true, [], false, None, map[], History([7, 8], [[7]], [7], []), true, false)

  /** A lone caller with a buffer in hand, about to submit it. */
  lemma {:induction false} FirstSubmission() returns (labels: seq<Label<int>>)
    ensures Leads(Init<int>(), labels, Alone([], [7], Submitting, History([7], [[7]], [7], []), false))
  {
    var h := History([7], [], [], []);
    labels := [Label<int>.Send(1, 7)];
    assert [] + labels == labels;
    Goes([], Init<int>(), Label<int>.Send(1, 7), Alone([7], [], Registering, h, false));
    Goes(labels, Alone([7], [], Registering, h, false), CheckConnected(1), Alone([7], [], Connected, h, false));
    labels := labels + [CheckConnected(1)];
    Goes(labels, Alone([7], [], Connected, h, false), Prepare(1), Alone([7], [], Draining, h, false));
    labels := labels + [Prepare(1)];
    Goes(labels, Alone([7], [], Draining, h, false), Drain(1), Alone([], [7], Submitting, History([7], [[7]], [7], []), false));
    labels := labels + [Drain(1)];
  }

  /** A wake-up really is lost: a buffer queued while a failing WSASend is on its way stays
      in the queue of a connected session, with nobody left to send it. */
  lemma {:induction false} FailedSendCanStrand() returns (labels: seq<Label<int>>)
    ensures Leads(Init<int>(), labels, STRANDED)
    ensures STRANDED.connected && !STRANDED.emptied && !Awake(STRANDED)
  {
    labels := FirstSubmission();
    var h := History([7, 8], [[7]], [7], []);
    Goes(labels, Alone([], [7], Submitting, History([7], [[7]], [7], []), false), Label<int>.Send(2, 8),
         Alone([8], [7], Submitting, h, false));
    labels := labels + [Label<int>.Send(2, 8)];
    Goes(labels, Alone([8], [7], Submitting, h, false), SubmitFails(1), Alone([8], [7], Failed, h, true));
    labels := labels + [SubmitFails(1)];
    Goes(labels, Alone([8], [7], Failed, h, true), Report(1, false), Alone([8], [7], Reported, h, true));
    labels := labels + [Report(1, false)];
    Goes(labels, Alone([8], [7], Reported, h, true), Clear(1), Alone([8], [], Releasing, h, true));
    labels := labels + [Clear(1)];
    assert Alone([8], [], Releasing, h, true).threads - {1} == map[];
    Goes(labels, Alone([8], [], Releasing, h, true), Release(1), STRANDED);
    labels := labels + [Release(1)];
  }

  /** After an empty completion: disconnected, nobody owns the event, and the flag is
      still set. */
  const DEAF := State([], true, false, [], false, None, map[], History([7], [[7]], [], [7]), false, true)

  /** No WSASend has to fail for a buffer to be stranded: after an empty completion the
      very next Send strands its own. */
  lemma {:induction false} EmptyCompletionCanStrand() returns (labels: seq<Label<int>>)
    ensures Leads(Init<int>(), labels, DEAF) && Awake(DEAF)
    ensures Enabled(DEAF, Label<int>.Send(2, 8)) && !Awake(Next(DEAF, Label<int>.Send(2, 8)))
    ensures !Next(DEAF, Label<int>.Send(2, 8)).failed
  {
    labels := FirstSubmission();
    var h := History([7], [[7]], [], [7]);
    var flying := State([], true, true, [7], true, Some([7]), map[], h, false, false);
    var caller := Alone([], [7], Submitting, History([7], [[7]], [7], []), false);
    assert caller.threads - {1} == map[];
    Goes(labels, caller, SubmitOk(1), flying);
    labels := labels + [SubmitOk(1)];
    Goes(labels, flying, Complete(1, 0), Alone([], [7], Completing(0), h, false));
    labels := labels + [Complete(1, 0)];
    Goes(labels, Alone([], [7], Completing(0), h, false), ClearDone(1), Alone([], [], Completed(0), h, false));
    labels := labels + [ClearDone(1)];
    assert Alone([], [], Completed(0), h, false).threads - {1} == map[];
    Goes(labels, Alone([], [], Completed(0), h, false), Finish(1), DEAF);
    labels := labels + [Finish(1)];
  }

  // ---------- progress ----------

  /** How many steps its owner is away from having drained the queue. */
  ghost function StepsToDrain<T>(s: State<T>): nat {
    if s.kernel.Some? then 7
    else if s.threads.Keys == {} then 0
    else
      var t :| t in s.threads;
      match s.threads[t]
      case Submitting => 8
      case Completing(_) => 6
      case Completed(_) => 5
      case Checking => 4
      case Registering => 3
      case Connected => 2
      case Draining => 1
      case _ => 0
  }

  predicate IsOwnerStep<T>(l: Label<T>) { !l.Send? && !l.Disconnect? }

  predicate IsFault<T>(s: State<T>, l: Label<T>) {
    l.SubmitFails? || (l.Complete? && l.bytes == 0) || (l.Finish? && IsAt(s, l.t, Completed(0))) || l.Disconnect?
  }

  /** While nothing goes wrong, a waiting buffer moves towards the kernel: every step of the
      owner either drains the whole queue or brings the drain one step closer, and the
      steps of everybody else do not put it off. */
  lemma {:induction false} QueueAdvances<T>(s: State<T>, l: Label<T>)
    requires Inv(s) && s.connected && !s.failed && s.queue != [] && Enabled(s, l) && !IsFault(s, l)
    ensures StepsToDrain(s) > 0
    ensures IsOwnerStep(l) && !l.Drain? ==> StepsToDrain(Next(s, l)) < StepsToDrain(s) && Next(s, l).queue == s.queue
    ensures l.Drain? ==> Next(s, l).queue == [] && s.queue <= Next(s, l).batch
    ensures !IsOwnerStep(l) ==> StepsToDrain(Next(s, l)) == StepsToDrain(s)
  {
    NoLostWakeup(s);
    OwnerAdvances(s, l);
  }

  lemma {:induction false} OwnerAdvances<T>(s: State<T>, l: Label<T>)
    requires OneOwner(s) && EventOk(s) && Owned(s) && !s.failed && s.connected && s.queue != [] && Enabled(s, l) && !IsFault(s, l)
    ensures StepsToDrain(s) > 0
    ensures IsOwnerStep(l) && !l.Drain? ==> StepsToDrain(Next(s, l)) < StepsToDrain(s) && Next(s, l).queue == s.queue
    ensures l.Drain? ==> Next(s, l).queue == [] && s.queue <= Next(s, l).batch
    ensures !IsOwnerStep(l) ==> StepsToDrain(Next(s, l)) == StepsToDrain(s)
  {
    NextKeepsOneOwner(s, l);
    var s' := Next(s, l);
    if l.Send? {
      assert s'.threads == s.threads;
    } else if !l.Disconnect? && !l.Complete? {
      assert l.t in s.threads && forall u :: u in s.threads ==> u == l.t;
    }
  }

  /** Without a fault the session stays up, and nothing leaves the histories. */
  lemma {:induction false} StaysUp<T>(s: State<T>, l: Label<T>)
    requires Inv(s) && s.connected && !s.failed && Enabled(s, l) && !IsFault(s, l)
    ensures Next(s, l).connected && !Next(s, l).failed
    ensures s.hist.enqueued <= Next(s, l).hist.enqueued
    ensures Concat(s.hist.drained) <= Concat(Next(s, l).hist.drained)
    ensures l.Drain? ==> Concat(Next(s, l).hist.drained) == s.hist.enqueued
  {
    match l
    case Send(_, _) =>
    case Drain(_) => ConcatSnoc(s.hist.drained, s.queue);
    case SubmitOk(_) =>
    case Report(_, _) =>
    case _ => OthersKeepHistories(s, l);
  }

  /** The number of owner steps among the labels from i up to j. */
  ghost function OwnerSteps<T>(labels: seq<Label<T>>, i: nat, j: nat): nat
    requires i <= j <= |labels|
  {
    if i == j then 0 else OwnerSteps(labels, i, j - 1) + if IsOwnerStep(labels[j - 1]) then 1 else 0
  }

  ghost predicate GoesWell<T>(states: seq<State<T>>, labels: seq<Label<T>>, k: nat)
    requires |states| == |labels| + 1 && k < |labels|
  {
    !IsFault(states[k], labels[k])
  }

  ghost predicate FaultFree<T>(states: seq<State<T>>, labels: seq<Label<T>>, i: nat, j: nat)
    requires |states| == |labels| + 1 && i <= j <= |labels|
  {
    forall k :: i <= k < j ==> GoesWell(states, labels, k)
  }

  /** These buffers have all been drained, or the drain is at most `left` owner steps away. */
  ghost predicate Nearer<T>(s: State<T>, buffers: seq<T>, left: int) {
    buffers <= Concat(s.hist.drained) || (s.queue != [] && buffers <= s.hist.enqueued && StepsToDrain(s) <= left)
  }

  /** A session that is up, with nothing gone wrong so far. */
  ghost predicate Up<T>(s: State<T>) { Inv(s) && s.connected && !s.failed }

  lemma {:induction false} NearerAtStart<T>(s: State<T>)
    requires Up(s)
    ensures Nearer(s, s.hist.enqueued, StepsToDrain(s))
  {
    assert Concat(s.hist.drained) + [] == Concat(s.hist.drained);
  }

  lemma {:induction false} NearerByOne<T>(s: State<T>, l: Label<T>, buffers: seq<T>, left: int)
    requires Up(s) && Enabled(s, l) && !IsFault(s, l) && Nearer(s, buffers, left)
    ensures Up(Next(s, l)) && Nearer(Next(s, l), buffers, left - if IsOwnerStep(l) then 1 else 0)
  {
    NextKeepsInv(s, l);
    StaysUp(s, l);
    if !(buffers <= Concat(s.hist.drained)) {
      QueueAdvances(s, l);
    }
  }

  /** Along a stretch without faults: either everything enqueued before it has been drained,
      or the owner has come closer to that with every step it took. */
  lemma {:induction false} DrainApproaches<T>(states: seq<State<T>>, labels: seq<Label<T>>, i: nat, j: nat)
    requires IsRun(states, labels) && i <= j <= |labels|
    requires Up(states[i]) && FaultFree(states, labels, i, j)
    ensures Up(states[j])
    ensures Nearer(states[j], states[i].hist.enqueued, StepsToDrain(states[i]) - OwnerSteps(labels, i, j))
  {
    if i == j {
      NearerAtStart(states[i]);
    } else {
      var k := j - 1;
      DrainApproaches(states, labels, i, k);
      assert StepAt(states, labels, k) && GoesWell(states, labels, k);
      NearerByOne(states[k], labels[k], states[i].hist.enqueued, StepsToDrain(states[i]) - OwnerSteps(labels, i, k));
    }
  }

  /** A buffer that waits is sent: from any reachable state of a connected session without a
      failed WSASend, as many owner steps as StepsToDrain says, and so at most eight, have
      drained everything enqueued so far, however many other steps come in between. */
  lemma {:induction false} WaitingBuffersAreDrained<T>(states: seq<State<T>>, labels: seq<Label<T>>, i: nat, j: nat)
    requires IsRun(states, labels) && states[0] == Init() && i <= j <= |labels|
    requires states[i].connected && !states[i].failed && FaultFree(states, labels, i, j)
    ensures StepsToDrain(states[i]) <= 8
    ensures OwnerSteps(labels, i, j) >= StepsToDrain(states[i]) ==> states[i].hist.enqueued <= Concat(states[j].hist.drained)
  {
    RunsKeepInv(states, labels, i);
    DrainApproaches(states, labels, i, j);
    if states[j].queue != [] {
      WaitingTakesSteps(states[j]);
    }
  }

  lemma {:induction false} WaitingTakesSteps<T>(s: State<T>)
    requires Inv(s) && s.connected && !s.failed && s.queue != []
    ensures StepsToDrain(s) > 0
  {
    NoLostWakeup(s);
  }

  /** And the owner can always take its next step. */
  lemma {:induction false} OwnerCanMove<T>(s: State<T>)
    requires Inv(s) && Owned(s)
    ensures exists l: Label<T> :: Enabled(s, l) && IsOwnerStep(l)
  {
    if s.kernel.Some? {
      assert Enabled(s, Label<T>.Complete(0, 1)) && IsOwnerStep(Label<T>.Complete(0, 1));
    } else {
      var t :| t in s.threads;
      var l: Label<T> := match s.threads[t]
        case Registering => CheckConnected(t)
        case Connected => Prepare(t)
        case Draining => Drain(t)
        case Submitting => SubmitOk(t)
        case Failed => Report(t, false)
        case Reported => Clear(t)
        case Releasing => Release(t)
        case Completing(_) => ClearDone(t)
        case Completed(_) => Finish(t)
        case Checking => CheckQueue(t);
      assert Enabled(s, l) && IsOwnerStep(l);
    }
  }
}
