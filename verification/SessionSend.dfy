/** The send side of a session in imperative form.  `Send`, `RegisterSend` and
    `ProcessSend` are proved to take exactly the steps of the send protocol; each block
    between two steps is where another thread may cut in. */
module SessionSend {
  import opened Ordered
  import SP = SendProtocol

  // ---------- the steps that each operation takes ----------

  ghost function Abandoning<T>(t: nat, hangUp: bool): seq<SP.Label<T>> {
    [SP.Report(t, hangUp), SP.Clear(t), SP.Release(t)]
  }

  ghost function Transmitting<T>(t: nat, wsaOk: bool, hangUp: bool): seq<SP.Label<T>> {
    if wsaOk then [SP.Prepare(t), SP.Drain(t), SP.SubmitOk(t)]
    else [SP.Prepare(t), SP.Drain(t), SP.SubmitFails(t)] + Abandoning(t, hangUp)
  }

  ghost function Registration<T>(t: nat, connected: bool, wsaOk: bool, hangUp: bool): seq<SP.Label<T>> {
    [SP.CheckConnected(t)] + if connected then Transmitting(t, wsaOk, hangUp) else []
  }

  ghost function GoingOn<T>(t: nat, empty: bool, connected: bool, wsaOk: bool, hangUp: bool): seq<SP.Label<T>> {
    [SP.CheckQueue(t)] + if empty then [] else Registration(t, connected, wsaOk, hangUp)
  }

  ghost function Completion<T>(t: nat, numOfBytes: nat, empty: bool, connected: bool, wsaOk: bool, hangUp: bool): seq<SP.Label<T>> {
    [SP.Complete(t, numOfBytes), SP.ClearDone(t), SP.Finish(t)] +
    if numOfBytes == 0 then [] else GoingOn(t, empty, connected, wsaOk, hangUp)
  }

  class Session<T> {
    var sendQueue: seq<T>
    var sendRegistered: bool
    var connected: bool
    /** The reused send event: its buffers, and whether it keeps the session alive. */
    var sendBuffers: seq<T>
    var owned: bool

    /** The state of the protocol around this session. */
    ghost var s: SP.State<T>

    ghost predicate Valid()
      reads this
    {
      && s.queue == sendQueue && s.registered == sendRegistered && s.connected == connected
      && s.batch == sendBuffers && s.owned == owned
    }

    /** A session just connected. */
    constructor ()
      ensures Valid() && s == SP.Init<T>()
    {
      sendQueue, sendRegistered, connected, sendBuffers, owned := [], false, true, [], false;
      s := SP.Init();
    }

    ghost method Take(l: SP.Label<T>, s0: SP.State<T>, labels0: seq<SP.Label<T>>) returns (labels: seq<SP.Label<T>>)
      requires SP.Enabled(s, l) && SP.Leads(s0, labels0, s)
      modifies this`s
      ensures s == SP.Next(old(s), l) && SP.Leads(s0, labels, s) && labels == labels0 + [l]
    {
      SP.LeadsFurther(s0, labels0, s, l);
      s := SP.Next(s, l);
      labels := labels0 + [l];
    }

    // ---------- the blocks between two steps ----------

    /** Under the lock: queue the buffer and set the flag; the flag's old value decides. */
    method Enqueue(t: nat, buffer: T) returns (registerSend: bool)
      requires Valid() && t !in s.threads
      modifies this`s, this`sendQueue, this`sendRegistered
      ensures Valid() && SP.Leads(old(s), [SP.Label<T>.Send(t, buffer)], s)
      ensures registerSend == !old(sendRegistered) && sendRegistered && sendQueue == old(sendQueue) + [buffer]
      ensures if registerSend then SP.IsAt(s, t, SP.Registering) else t !in s.threads
    {
      sendQueue := sendQueue + [buffer];
      registerSend := sendRegistered == false;
      sendRegistered := true;
      ghost var labels := Take(SP.Label<T>.Send(t, buffer), s, []);
    }

    method TestConnected(t: nat, ghost s0: SP.State<T>, ghost labels0: seq<SP.Label<T>>)
      returns (go: bool, ghost labels: seq<SP.Label<T>>)
      requires Valid() && SP.IsAt(s, t, SP.Registering) && SP.Leads(s0, labels0, s)
      modifies this`s
      ensures Valid() && SP.Leads(s0, labels, s)
      ensures labels == labels0 + [SP.CheckConnected(t)]
      ensures go == connected && if go then SP.IsAt(s, t, SP.Connected) else t !in s.threads
    {
      go := connected;
      labels := Take(SP.CheckConnected(t), s0, labels0);
    }

    method InitEvent(t: nat, ghost s0: SP.State<T>, ghost labels0: seq<SP.Label<T>>) returns (ghost labels: seq<SP.Label<T>>)
      requires Valid() && SP.IsAt(s, t, SP.Connected) && SP.Leads(s0, labels0, s)
      modifies this`s, this`owned
      ensures Valid() && SP.Leads(s0, labels, s) && SP.IsAt(s, t, SP.Draining)
      ensures labels == labels0 + [SP.Prepare(t)]
    {
      owned := true;
      labels := Take(SP.Prepare(t), s0, labels0);
    }

    /** Under the lock: move the queue into the event, buffer by buffer. */
    method MoveQueue(t: nat, ghost s0: SP.State<T>, ghost labels0: seq<SP.Label<T>>) returns (ghost labels: seq<SP.Label<T>>)
      requires Valid() && SP.IsAt(s, t, SP.Draining) && SP.Leads(s0, labels0, s)
      modifies this`s, this`sendQueue, this`sendBuffers
      ensures Valid() && SP.Leads(s0, labels, s) && SP.IsAt(s, t, SP.Submitting)
      ensures labels == labels0 + [SP.Drain(t)]
      ensures sendQueue == [] && sendBuffers == old(sendBuffers) + old(sendQueue)
    {
      while sendQueue != []
        invariant sendBuffers + sendQueue == old(sendBuffers) + old(sendQueue)
        invariant s == old(s)
        decreases |sendQueue|
      {
        var sendBuffer := sendQueue[0];
        sendQueue := sendQueue[1..];
        sendBuffers := sendBuffers + [sendBuffer];
      }
      labels := Take(SP.Drain(t), s0, labels0);
    }

    method Submit(t: nat, wsaOk: bool, ghost s0: SP.State<T>, ghost labels0: seq<SP.Label<T>>)
      returns (ghost labels: seq<SP.Label<T>>)
      requires Valid() && SP.IsAt(s, t, SP.Submitting) && SP.Leads(s0, labels0, s)
      modifies this`s
      ensures Valid() && SP.Leads(s0, labels, s)
      ensures labels == labels0 + [if wsaOk then SP.SubmitOk(t) else SP.SubmitFails(t)]
      ensures if wsaOk then t !in s.threads && s.kernel == Some(sendBuffers) else SP.IsAt(s, t, SP.Failed)
    {
      labels := Take(if wsaOk then SP.SubmitOk(t) else SP.SubmitFails(t), s0, labels0);
    }

    method ReportError(t: nat, hangUp: bool, ghost s0: SP.State<T>, ghost labels0: seq<SP.Label<T>>)
      returns (ghost labels: seq<SP.Label<T>>)
      requires Valid() && SP.IsAt(s, t, SP.Failed) && SP.Leads(s0, labels0, s)
      modifies this`s, this`connected
      ensures Valid() && SP.Leads(s0, labels, s) && SP.IsAt(s, t, SP.Reported)
      ensures labels == labels0 + [SP.Report(t, hangUp)]
      ensures connected == (old(connected) && !hangUp)
    {
      connected := connected && !hangUp;
      labels := Take(SP.Report(t, hangUp), s0, labels0);
    }

    method ClearEvent(t: nat, ghost s0: SP.State<T>, ghost labels0: seq<SP.Label<T>>) returns (ghost labels: seq<SP.Label<T>>)
      requires Valid() && SP.IsAt(s, t, SP.Reported) && SP.Leads(s0, labels0, s)
      modifies this`s, this`owned, this`sendBuffers
      ensures Valid() && SP.Leads(s0, labels, s) && SP.IsAt(s, t, SP.Releasing) && sendBuffers == []
      ensures labels == labels0 + [SP.Clear(t)]
    {
      owned := false;
      sendBuffers := [];
      labels := Take(SP.Clear(t), s0, labels0);
    }

    method ReleaseFlag(t: nat, ghost s0: SP.State<T>, ghost labels0: seq<SP.Label<T>>) returns (ghost labels: seq<SP.Label<T>>)
      requires Valid() && SP.IsAt(s, t, SP.Releasing) && SP.Leads(s0, labels0, s)
      modifies this`s, this`sendRegistered
      ensures Valid() && SP.Leads(s0, labels, s) && t !in s.threads && !sendRegistered
      ensures labels == labels0 + [SP.Release(t)]
    {
      sendRegistered := false;
      labels := Take(SP.Release(t), s0, labels0);
    }

    /** The completion is dequeued and its event dropped. */
    method EndOperation(t: nat, numOfBytes: nat) returns (ghost labels: seq<SP.Label<T>>)
      requires Valid() && t !in s.threads && s.kernel.Some?
      modifies this`s, this`owned, this`sendBuffers
      ensures Valid() && SP.Leads(old(s), labels, s) && SP.IsAt(s, t, SP.Completed(numOfBytes)) && sendBuffers == []
      ensures labels == [SP.Complete(t, numOfBytes), SP.ClearDone(t)]
    {
      ghost var s0 := s;
      labels := Take(SP.Complete(t, numOfBytes), s0, []);
      owned := false;
      sendBuffers := [];
      labels := Take(SP.ClearDone(t), s0, labels);
    }

    method TestBytes(t: nat, numOfBytes: nat, ghost s0: SP.State<T>, ghost labels0: seq<SP.Label<T>>)
      returns (ghost labels: seq<SP.Label<T>>)
      requires Valid() && SP.IsAt(s, t, SP.Completed(numOfBytes)) && SP.Leads(s0, labels0, s)
      modifies this`s, this`connected
      ensures Valid() && SP.Leads(s0, labels, s)
      ensures labels == labels0 + [SP.Finish(t)]
      ensures if numOfBytes == 0 then t !in s.threads && !connected
              else SP.IsAt(s, t, SP.Checking) && connected == old(connected)
    {
      if numOfBytes == 0 {
        connected := false;
      }
      labels := Take(SP.Finish(t), s0, labels0);
    }

    /** Under the lock: give the flag up, or go on with what was queued meanwhile. */
    method TestQueue(t: nat, ghost s0: SP.State<T>, ghost labels0: seq<SP.Label<T>>)
      returns (registerSend: bool, ghost labels: seq<SP.Label<T>>)
      requires Valid() && SP.IsAt(s, t, SP.Checking) && SP.Leads(s0, labels0, s)
      modifies this`s, this`sendRegistered
      ensures Valid() && SP.Leads(s0, labels, s) && registerSend == (sendQueue != [])
      ensures labels == labels0 + [SP.CheckQueue(t)]
      ensures if registerSend then SP.IsAt(s, t, SP.Registering) else t !in s.threads && !sendRegistered
    {
      registerSend := false;
      if sendQueue == [] {
        sendRegistered := false;
      } else {
        registerSend := true;
      }
      labels := Take(SP.CheckQueue(t), s0, labels0);
    }

    // ---------- the three operations, when nobody cuts in ----------

    /** `wsaOk` is the outcome of WSASend, `hangUp` what the error handler decides, in case
        this caller gets to register the send. */
    method Send(t: nat, buffer: T, wsaOk: bool, hangUp: bool) returns (ghost labels: seq<SP.Label<T>>)
      requires Valid() && t !in s.threads
      modifies this
      ensures Valid() && SP.Leads(old(s), labels, s) && t !in s.threads
      ensures labels == [SP.Label<T>.Send(t, buffer)] + if old(sendRegistered) then [] else Registration<T>(t, old(connected), wsaOk, hangUp)
      ensures old(sendRegistered) ==> sendQueue == old(sendQueue) + [buffer] && sendBuffers == old(sendBuffers)
      ensures !old(sendRegistered) && old(connected) && wsaOk ==>
        sendQueue == [] && sendBuffers == old(sendBuffers) + (old(sendQueue) + [buffer]) && s.kernel == Some(sendBuffers)
    {
      ghost var s0 := s;
      var registerSend := Enqueue(t, buffer);
      labels := [SP.Label<T>.Send(t, buffer)];
      if registerSend {
        labels := RegisterSend(t, wsaOk, hangUp, s0, labels);
      }
    }

    method RegisterSend(t: nat, wsaOk: bool, hangUp: bool, ghost s0: SP.State<T>, ghost labels0: seq<SP.Label<T>>)
      returns (ghost labels: seq<SP.Label<T>>)
      requires Valid() && SP.IsAt(s, t, SP.Registering) && SP.Leads(s0, labels0, s)
      modifies this
      ensures Valid() && SP.Leads(s0, labels, s) && t !in s.threads
      ensures labels == labels0 + Registration<T>(t, old(connected), wsaOk, hangUp)
      ensures !old(connected) ==> sendQueue == old(sendQueue) && sendBuffers == old(sendBuffers)
      ensures old(connected) && wsaOk ==>
        sendQueue == [] && sendBuffers == old(sendBuffers) + old(sendQueue) && s.kernel == Some(sendBuffers)
      ensures old(connected) && !wsaOk ==> sendQueue == [] && sendBuffers == [] && !sendRegistered
    {
      var go;
      go, labels := TestConnected(t, s0, labels0);
      if !go {
        return;
      }
      labels := Transmit(t, wsaOk, hangUp, s0, labels);
    }

    method FillEvent(t: nat, ghost s0: SP.State<T>, ghost labels0: seq<SP.Label<T>>) returns (ghost labels: seq<SP.Label<T>>)
      requires Valid() && SP.IsAt(s, t, SP.Connected) && SP.Leads(s0, labels0, s)
      modifies this`s, this`owned, this`sendQueue, this`sendBuffers
      ensures Valid() && SP.Leads(s0, labels, s) && SP.IsAt(s, t, SP.Submitting)
      ensures labels == labels0 + [SP.Prepare(t), SP.Drain(t)]
      ensures sendQueue == [] && sendBuffers == old(sendBuffers) + old(sendQueue)
    {
      labels := InitEvent(t, s0, labels0);
      labels := MoveQueue(t, s0, labels);
    }

    /** The session was connected: fill the event and hand it to the kernel. */
    method Transmit(t: nat, wsaOk: bool, hangUp: bool, ghost s0: SP.State<T>, ghost labels0: seq<SP.Label<T>>)
      returns (ghost labels: seq<SP.Label<T>>)
      requires Valid() && SP.IsAt(s, t, SP.Connected) && SP.Leads(s0, labels0, s)
      modifies this
      ensures Valid() && SP.Leads(s0, labels, s) && t !in s.threads && sendQueue == []
      ensures labels == labels0 + Transmitting<T>(t, wsaOk, hangUp)
      ensures if wsaOk then sendBuffers == old(sendBuffers) + old(sendQueue) && s.kernel == Some(sendBuffers)
              else sendBuffers == [] && !sendRegistered
    {
      labels := FillEvent(t, s0, labels0);
      labels := Submit(t, wsaOk, s0, labels);
      if !wsaOk {
        labels := Abandon(t, hangUp, s0, labels);
      }
    }

    /** After a failed WSASend: report, drop the event, give the flag up. */
    method Abandon(t: nat, hangUp: bool, ghost s0: SP.State<T>, ghost labels0: seq<SP.Label<T>>)
      returns (ghost labels: seq<SP.Label<T>>)
      requires Valid() && SP.IsAt(s, t, SP.Failed) && SP.Leads(s0, labels0, s)
      modifies this`s, this`connected, this`owned, this`sendBuffers, this`sendRegistered
      ensures Valid() && SP.Leads(s0, labels, s) && t !in s.threads
      ensures labels == labels0 + Abandoning<T>(t, hangUp)
      ensures sendBuffers == [] && !sendRegistered && connected == (old(connected) && !hangUp)
    {
      labels := ReportError(t, hangUp, s0, labels0);
      labels := ClearEvent(t, s0, labels);
      labels := ReleaseFlag(t, s0, labels);
    }

    /** A thread has dequeued the completion of the operation in flight. */
    method ProcessSend(t: nat, numOfBytes: nat, wsaOk: bool, hangUp: bool) returns (ghost labels: seq<SP.Label<T>>)
      requires Valid() && t !in s.threads && s.kernel.Some?
      modifies this
      ensures Valid() && SP.Leads(old(s), labels, s) && t !in s.threads
      ensures labels == Completion<T>(t, numOfBytes, old(sendQueue) == [], old(connected), wsaOk, hangUp)
      ensures numOfBytes == 0 ==> !connected && sendQueue == old(sendQueue)
      ensures numOfBytes != 0 && old(sendQueue) == [] ==> !sendRegistered && sendBuffers == []
      ensures numOfBytes != 0 && old(sendQueue) != [] && old(connected) && wsaOk ==>
        sendQueue == [] && sendBuffers == old(sendQueue) && s.kernel == Some(sendBuffers)
    {
      ghost var s0 := s;
      labels := Reap(t, numOfBytes);
      if numOfBytes == 0 {
        return;
      }
      labels := GoOn(t, wsaOk, hangUp, s0, labels);
    }

    /** The completion up to the look at its number of bytes. */
    method Reap(t: nat, numOfBytes: nat) returns (ghost labels: seq<SP.Label<T>>)
      requires Valid() && t !in s.threads && s.kernel.Some?
      modifies this`s, this`connected, this`owned, this`sendBuffers
      ensures Valid() && SP.Leads(old(s), labels, s) && sendBuffers == []
      ensures labels == [SP.Complete(t, numOfBytes), SP.ClearDone(t), SP.Finish(t)]
      ensures if numOfBytes == 0 then t !in s.threads && !connected
              else SP.IsAt(s, t, SP.Checking) && connected == old(connected)
    {
      ghost var s0 := s;
      labels := EndOperation(t, numOfBytes);
      labels := TestBytes(t, numOfBytes, s0, labels);
    }

    /** The completion carried bytes: give the flag up, or register what was queued meanwhile. */
    method GoOn(t: nat, wsaOk: bool, hangUp: bool, ghost s0: SP.State<T>, ghost labels0: seq<SP.Label<T>>)
      returns (ghost labels: seq<SP.Label<T>>)
      requires Valid() && SP.IsAt(s, t, SP.Checking) && SP.Leads(s0, labels0, s)
      modifies this
      ensures Valid() && SP.Leads(s0, labels, s) && t !in s.threads
      ensures labels == labels0 + GoingOn<T>(t, old(sendQueue) == [], old(connected), wsaOk, hangUp)
      ensures old(sendQueue) == [] ==> !sendRegistered && sendBuffers == old(sendBuffers)
      ensures old(sendQueue) != [] && old(connected) && wsaOk ==>
        sendQueue == [] && sendBuffers == old(sendBuffers) + old(sendQueue) && s.kernel == Some(sendBuffers)
    {
      var registerSend;
      registerSend, labels := TestQueue(t, s0, labels0);
      if registerSend {
        labels := RegisterSend(t, wsaOk, hangUp, s0, labels);
      }
    }
  }
}
