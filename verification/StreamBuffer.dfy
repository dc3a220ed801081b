/**
 * The message buffer and wake-up handlers of the generated client's streams
 * (apps/web/src/lib/encore-client.ts).
 *
 * The code between two awaits runs as one step. A handler is known by the consumer it
 * wakes. A socket delivers messages only while it is open.
 */
module StreamBuffer {
  import opened Options

  datatype ReadyState = Connecting | Open | Closing | Closed

  /** What one resumption of the iterator does before it next suspends. */
  datatype Resumption<+M> = Yielded(message: M) | Returned | Waits

  /** Where a consumer is: between two `next()` calls, about to run, waiting, or at the end. */
  datatype Consumer = Idle | Runnable | Sleeping | Done

  function Woken(consumers: map<nat, Consumer>, handlers: seq<nat>): map<nat, Consumer> {
    map c | c in consumers :: if c in handlers then Runnable else consumers[c]
  }

  // ---- The classes ----

  class WebSocketConnection {
    var readyState: ReadyState
    var hasUpdateHandlers: seq<nat>
    /** Stands for the promises the handlers resolve. */
    var consumers: map<nat, Consumer>

    constructor ()
      ensures readyState == Connecting && hasUpdateHandlers == [] && consumers == map[]
    {
      readyState := Connecting;
      hasUpdateHandlers := [];
      consumers := map[];
    }

    method ResolveHasUpdateHandlers()
      modifies this`hasUpdateHandlers, this`consumers
      ensures hasUpdateHandlers == []
      ensures consumers == Woken(old(consumers), old(hasUpdateHandlers))
    {
      var handlers := hasUpdateHandlers;
      hasUpdateHandlers := [];
      for i := 0 to |handlers|
        invariant hasUpdateHandlers == []
        invariant consumers == Woken(old(consumers), handlers[..i])
      {
        if handlers[i] in consumers {
          consumers := consumers[handlers[i] := Runnable];
        }
        assert handlers[..i + 1] == handlers[..i] + [handlers[i]];
      }
      assert handlers[..|handlers|] == handlers;
    }

    /** The executor of the promise awaited in `hasUpdate`. */
    method HasUpdate(consumer: nat)
      modifies this`hasUpdateHandlers, this`consumers
      ensures hasUpdateHandlers == old(hasUpdateHandlers) + [consumer]
      ensures consumers == old(consumers)[consumer := Sleeping]
    {
      hasUpdateHandlers := hasUpdateHandlers + [consumer];
      consumers := consumers[consumer := Sleeping];
    }

    /** The socket is gone: the "error" and "close" listeners run. */
    method OnDisconnect()
      modifies this
      ensures readyState == Closed && hasUpdateHandlers == []
      ensures consumers == Woken(old(consumers), old(hasUpdateHandlers))
    {
      readyState := Closed;
      ResolveHasUpdateHandlers();
      ResolveHasUpdateHandlers();
      assert consumers == Woken(old(consumers), old(hasUpdateHandlers));
    }
  }

  class StreamIn<M> {
    const socket: WebSocketConnection
    var buffer: seq<M>

    constructor ()
      ensures buffer == [] && fresh(socket)
      ensures socket.readyState == Connecting && socket.hasUpdateHandlers == [] && socket.consumers == map[]
    {
      socket := new WebSocketConnection();
      buffer := [];
    }

    ghost function View(): Stream<M>
      reads this, socket
    {
      Stream(buffer, socket.hasUpdateHandlers, socket.readyState, socket.consumers)
    }

    /** `None` is data `JSON.parse` rejects: the listener throws and nothing has changed. */
    method OnMessage(data: Option<M>)
      modifies this, socket
      ensures View() == if data.Some? then Received(old(View()), data.value) else old(View())
    {
      if data.None? { return; }
      buffer := buffer + [data.value];
      socket.ResolveHasUpdateHandlers();
    }

    /** The loop of the iterator, from one suspension to the next. */
    method Resume(c: nat) returns (r: Resumption<M>)
      modifies this, socket
      ensures (View(), r) == Resumed(old(View()), c)
    {
      if |buffer| > 0 {
        var first := buffer[0];
        buffer := buffer[1..];
        socket.consumers := socket.consumers[c := Idle];
        return Yielded(first);
      }
      if socket.readyState == Closed {
        socket.consumers := socket.consumers[c := Done];
        return Returned;
      }
      socket.HasUpdate(c);
      return Waits;
    }
  }

  // ---- The same steps on values ----

  datatype Stream<M> = Stream(
    buffer: seq<M>, handlers: seq<nat>, ready: ReadyState, consumers: map<nat, Consumer>)

  function Received<M>(s: Stream<M>, m: M): Stream<M> {
    s.(buffer := s.buffer + [m], handlers := [], consumers := Woken(s.consumers, s.handlers))
  }

  function Disconnected<M>(s: Stream<M>): Stream<M> {
    s.(ready := Closed, handlers := [], consumers := Woken(s.consumers, s.handlers))
  }

  function Resumed<M>(s: Stream<M>, c: nat): (Stream<M>, Resumption<M>) {
    if |s.buffer| > 0 then
      (s.(buffer := s.buffer[1..], consumers := s.consumers[c := Idle]), Yielded(s.buffer[0]))
    else if s.ready == Closed then (s.(consumers := s.consumers[c := Done]), Returned)
    else (s.(handlers := s.handlers + [c], consumers := s.consumers[c := Sleeping]), Waits)
  }

  // ---- Interleavings ----

  /** `received` is what the socket has brought that parses, `delivered` what consumers have taken so far. */
  datatype State<M> = State(stream: Stream<M>, received: seq<M>, delivered: seq<(nat, M)>)

  datatype Action<M> =
    | Opens
    | Message(data: Option<M>)
    | CloseCalled
    | Disconnect
    | Demand(c: nat)        // next() on a new iterator or after a yield
    | Run(c: nat)

  predicate Enabled<M(==)>(s: State<M>, a: Action<M>) {
    match a
    case Opens => s.stream.ready == Connecting
    case Message(_) => s.stream.ready == Open
    case CloseCalled => s.stream.ready != Closed
    case Disconnect => s.stream.ready != Closed
    case Demand(c) => c !in s.stream.consumers || s.stream.consumers[c] == Idle
    case Run(c) => c in s.stream.consumers && s.stream.consumers[c] == Runnable
  }

  function Step<M>(s: State<M>, a: Action<M>): State<M> {
    match a
    case Opens => s.(stream := s.stream.(ready := Open))
    case Message(data) =>
      if data.Some? then s.(stream := Received(s.stream, data.value), received := s.received + [data.value]) else s
    case CloseCalled => s.(stream := s.stream.(ready := Closing))
    case Disconnect => s.(stream := Disconnected(s.stream))
    case Demand(c) => s.(stream := s.stream.(consumers := s.stream.consumers[c := Runnable]))
    case Run(c) =>
      var (stream, r) := Resumed(s.stream, c);
      State(stream, s.received, if r.Yielded? then s.delivered + [(c, r.message)] else s.delivered)
  }

  ghost predicate Leads<M>(s: State<M>, actions: seq<Action<M>>, s': State<M>)
    decreases |actions|
  {
    if actions == [] then s' == s
    else Enabled(s, actions[0]) && Leads(Step(s, actions[0]), actions[1..], s')
  }

  function Fresh<M>(): State<M> {
    State(Stream([], [], Connecting, map[]), [], [])
  }

  function Messages<M>(delivered: seq<(nat, M)>): (r: seq<M>)
    ensures |r| == |delivered|
  {
    seq(|delivered|, i requires 0 <= i < |delivered| => delivered[i].1)
  }

  /** Nothing lost, nothing doubled, nothing out of order. */
  ghost predicate Lossless<M>(s: State<M>) {
    Messages(s.delivered) + s.stream.buffer == s.received
  }

  /** The handlers are exactly the sleepers, and nobody sleeps while there is something to see. */
  ghost predicate Wakeful<M>(s: Stream<M>) {
    && (forall c :: c in s.handlers <==> c in s.consumers && s.consumers[c] == Sleeping)
    && (forall i, j :: 0 <= i < j < |s.handlers| ==> s.handlers[i] != s.handlers[j])
    && (s.handlers != [] ==> s.buffer == [] && s.ready != Closed)
  }

  lemma StepKeeps<M>(s: State<M>, a: Action<M>)
    requires Lossless(s) && Wakeful(s.stream) && Enabled(s, a)
    ensures Lossless(Step(s, a)) && Wakeful(Step(s, a).stream)
  {}

  lemma {:induction false} RunKeeps<M>(s: State<M>, actions: seq<Action<M>>, s': State<M>)
    requires Lossless(s) && Wakeful(s.stream) && Leads(s, actions, s')
    ensures Lossless(s') && Wakeful(s'.stream)
    decreases |actions|
  {
    if actions != [] {
      StepKeeps(s, actions[0]);
      RunKeeps(Step(s, actions[0]), actions[1..], s');
    }
  }

  /** For any number of consumers: what was taken, followed by the buffer, is what was received. */
  lemma LosslessFifo<M>(actions: seq<Action<M>>, s: State<M>)
    requires Leads(Fresh(), actions, s)
    ensures Messages(s.delivered) + s.stream.buffer == s.received
  {
    RunKeeps(Fresh(), actions, s);
  }

  /** No consumer sleeps through a message or a close, and every sleeper has its handler. */
  lemma NobodySleepsThrough<M>(actions: seq<Action<M>>, s: State<M>, c: nat)
    requires Leads(Fresh(), actions, s)
    requires c in s.stream.consumers && s.stream.consumers[c] == Sleeping
    ensures s.stream.buffer == [] && s.stream.ready != Closed && c in s.stream.handlers
  {
    RunKeeps(Fresh(), actions, s);
  }

  // ---- When a consumer ends, and when it goes on ----

  /** Nobody has ended unless the socket is closed and the buffer is empty. */
  ghost predicate EndsOk<M>(s: Stream<M>) {
    (exists c :: c in s.consumers && s.consumers[c] == Done) ==> s.ready == Closed && s.buffer == []
  }

  lemma EndsStep<M>(s: State<M>, a: Action<M>)
    requires EndsOk(s.stream) && Enabled(s, a)
    ensures EndsOk(Step(s, a).stream)
  {
    var s' := Step(s, a);
    if c :| c in s'.stream.consumers && s'.stream.consumers[c] == Done {
      if c in s.stream.consumers && s.stream.consumers[c] == Done {
        assert s.stream.ready == Closed;
      } else {
        assert a == Run(c);
      }
    }
  }

  lemma {:induction false} EndsRun<M>(s: State<M>, actions: seq<Action<M>>, s': State<M>)
    requires EndsOk(s.stream) && Leads(s, actions, s')
    ensures EndsOk(s'.stream)
    decreases |actions|
  {
    if actions != [] {
      EndsStep(s, actions[0]);
      EndsRun(Step(s, actions[0]), actions[1..], s');
    }
  }

  /** A consumer is at the end only on a closed socket, when all that was received has been delivered. */
  lemma EndMeansAllDelivered<M>(actions: seq<Action<M>>, s: State<M>, c: nat)
    requires Leads(Fresh(), actions, s)
    requires c in s.stream.consumers && s.stream.consumers[c] == Done
    ensures s.stream.ready == Closed && s.stream.buffer == [] && Messages(s.delivered) == s.received
  {
    EndsRun(Fresh(), actions, s);
    LosslessFifo(actions, s);
    assert Messages(s.delivered) + [] == Messages(s.delivered);
  }

  /**
   * What a consumer does when it runs: it takes the first buffered message, or ends on an
   * empty buffer and a closed socket, or goes to sleep on an empty buffer and a socket that
   * is not closed.
   */
  lemma RunDecides<M>(s: State<M>, c: nat)
    requires Enabled(s, Run(c))
    ensures var s' := Step(s, Run(c));
            && s'.stream.ready == s.stream.ready && s'.received == s.received
            && s'.stream.consumers == s.stream.consumers[c := s'.stream.consumers[c]]
            && (s'.stream.consumers[c] == Idle <==> s.stream.buffer != [])
            && (s'.stream.consumers[c] == Done <==> s.stream.buffer == [] && s.stream.ready == Closed)
            && (s'.stream.consumers[c] == Sleeping <==> s.stream.buffer == [] && s.stream.ready != Closed)
            && (s.stream.buffer == [] ==> s'.stream.buffer == [] && s'.delivered == s.delivered)
            && (s.stream.buffer != [] ==>
                  && s'.delivered == s.delivered + [(c, s.stream.buffer[0])]
                  && [s.stream.buffer[0]] + s'.stream.buffer == s.stream.buffer)
  {}

  /**
   * A consumer that waits can run again after the next message or close. The first of the
   * waiting ones to run gets that message; after a close it is at the end.
   */
  lemma WaiterGetsNext<M>(actions: seq<Action<M>>, s: State<M>, c: nat, m: M)
    requires Leads(Fresh(), actions, s)
    requires c in s.stream.consumers && s.stream.consumers[c] == Sleeping
    ensures s.stream.ready == Open ==>
              var woken := Step(s, Message(Some(m)));
              && Enabled(s, Message(Some(m))) && Enabled(woken, Run(c))
              && woken.received == s.received + [m]
              && Step(woken, Run(c)).delivered == s.delivered + [(c, m)]
              && Step(woken, Run(c)).stream.consumers[c] == Idle
    ensures var closed := Step(s, Disconnect);
            && Enabled(s, Disconnect) && Enabled(closed, Run(c))
            && Step(closed, Run(c)).stream.consumers[c] == Done && Step(closed, Run(c)).delivered == s.delivered
  {
    NobodySleepsThrough(actions, s, c);
    if s.stream.ready == Open { assert Step(s, Message(Some(m))).stream.buffer == [m]; }
  }

  /** In every run a message or a close wakes exactly the sleepers; the others are as they were. */
  lemma OnlySleepersWake<M>(actions: seq<Action<M>>, s: State<M>, a: Action<M>, c: nat)
    requires Leads(Fresh(), actions, s) && Enabled(s, a) && c in s.stream.consumers
    requires a.Disconnect? || (a.Message? && a.data.Some?)
    ensures Step(s, a).stream.consumers.Keys == s.stream.consumers.Keys
    ensures Step(s, a).stream.consumers[c] ==
            if s.stream.consumers[c] == Sleeping then Runnable else s.stream.consumers[c]
  {
    RunKeeps(Fresh(), actions, s);
  }

  /** Whoever is at the end stays there. */
  lemma {:induction false} EndIsFinal<M>(s: State<M>, actions: seq<Action<M>>, s': State<M>, c: nat)
    requires Wakeful(s.stream) && Lossless(s) && Leads(s, actions, s')
    requires c in s.stream.consumers && s.stream.consumers[c] == Done
    ensures c in s'.stream.consumers && s'.stream.consumers[c] == Done
    decreases |actions|
  {
    if actions != [] {
      StepKeeps(s, actions[0]);
      EndIsFinal(Step(s, actions[0]), actions[1..], s', c);
    }
  }

  /** Data that does not parse changes nothing, nor does anything but a message change what was received. */
  lemma OnlyMessagesAreReceived<M>(s: State<M>, a: Action<M>)
    requires Enabled(s, a)
    ensures match a
            case Message(None) => Step(s, a) == s
            case Message(Some(m)) => Step(s, a).received == s.received + [m]
            case _ => Step(s, a).received == s.received
  {}

  /** While a socket is closing no message comes, and on an empty buffer consumers still wait for the close. */
  lemma ClosingIsNotTheEnd<M>(s: State<M>, c: nat)
    requires s.stream.ready == Open && s.stream.buffer == [] && Enabled(s, Run(c))
    ensures var closing := Step(s, CloseCalled);
            && Enabled(s, CloseCalled) && Enabled(closing, Run(c)) && Enabled(closing, Disconnect)
            && (forall data :: !Enabled(closing, Message(data)))
            && Step(closing, Run(c)).stream.consumers[c] == Sleeping
  {}

  // ---- After the close ----

  /** One `next()` of a consumer that runs at once. */
  function Next<M>(s: State<M>, c: nat): State<M> {
    Step(Step(s, Demand(c)), Run(c))
  }

  function NextTimes<M>(s: State<M>, c: nat, n: nat): State<M>
    decreases n
  {
    if n == 0 then s else NextTimes(Next(s, c), c, n - 1)
  }

  function All<M>(c: nat, messages: seq<M>): seq<(nat, M)> {
    seq(|messages|, i requires 0 <= i < |messages| => (c, messages[i]))
  }

  /** A consumer of a closed stream still gets every buffered message, in order, and then the end. */
  lemma {:induction false} DrainAfterClose<M>(s: State<M>, c: nat)
    requires s.stream.ready == Closed && (c !in s.stream.consumers || s.stream.consumers[c] == Idle)
    ensures var drained := NextTimes(s, c, |s.stream.buffer|);
            && drained.delivered == s.delivered + All(c, s.stream.buffer)
            && drained.stream.buffer == []
            && Next(drained, c).stream.consumers[c] == Done
    decreases |s.stream.buffer|
  {
    if s.stream.buffer != [] {
      var first, rest := s.stream.buffer[0], s.stream.buffer[1..];
      DrainAfterClose(Next(s, c), c);
      assert All(c, s.stream.buffer) == [(c, first)] + All(c, rest);
    }
  }

  // ---- Everything can be delivered ----

  lemma {:induction false} LeadsOneMore<M>(s: State<M>, actions: seq<Action<M>>, s': State<M>, a: Action<M>)
    requires Leads(s, actions, s') && Enabled(s', a)
    ensures Leads(s, actions + [a], Step(s', a))
    decreases |actions|
  {
    if actions == [] {
      assert [a][1..] == [];
      assert Leads(Step(s', a), [], Step(s', a));
    } else {
      LeadsOneMore(Step(s, actions[0]), actions[1..], s', a);
      assert (actions + [a])[1..] == actions[1..] + [a];
    }
  }

  /** An open socket that has brought these messages, all buffered or taken by consumer 0. */
  function Opened<M>(received: seq<M>, taken: nat, consumers: map<nat, Consumer>): State<M>
    requires taken <= |received|
  {
    State(Stream(received[taken..], [], Open, consumers), received, All(0, received[..taken]))
  }

  lemma OpensFirst<M>() returns (actions: seq<Action<M>>)
    ensures Leads(Fresh(), actions, Opened([], 0, map[]))
  {
    actions := [Opens];
    var open: State<M> := Step(Fresh(), Opens);
    assert open == Opened([], 0, map[]) by { assert All<M>(0, []) == []; }
    assert Leads(Fresh<M>(), [], Fresh());
    LeadsOneMore<M>(Fresh(), [], Fresh(), Opens);
    assert [] + [Opens] == actions;
  }

  lemma {:induction false} ReceivesAll<M>(messages: seq<M>) returns (actions: seq<Action<M>>)
    ensures Leads(Fresh(), actions, Opened(messages, 0, map[]))
  {
    if messages == [] {
      actions := OpensFirst();
    } else {
      var n := |messages| - 1;
      var before := ReceivesAll(messages[..n]);
      var s, a := Opened(messages[..n], 0, map[]), Message(Some(messages[n]));
      LeadsOneMore(Fresh(), before, s, a);
      assert messages == messages[..n] + [messages[n]];
      assert Step(s, a).stream.consumers == map[];
      assert Step(s, a) == Opened(messages, 0, map[]);
      actions := before + [a];
    }
  }

  /** One `next()` of consumer 0 while the buffer lasts. */
  lemma TakesOne<M>(actions: seq<Action<M>>, messages: seq<M>, taken: nat, consumers: map<nat, Consumer>)
      returns (further: seq<Action<M>>)
    requires taken < |messages| && Leads(Fresh(), actions, Opened(messages, taken, consumers))
    requires 0 !in consumers || consumers[0] == Idle
    ensures Leads(Fresh(), further, Opened(messages, taken + 1, consumers[0 := Idle]))
  {
    var s: State<M> := Opened(messages, taken, consumers);
    var demanded := Step(s, Demand(0));
    LeadsOneMore(Fresh(), actions, s, Demand(0));
    LeadsOneMore(Fresh(), actions + [Demand(0)], demanded, Run(0));
    further := actions + [Demand(0)] + [Run(0)];
    var after := Step(demanded, Run(0));
    assert after.delivered == s.delivered + [(0, messages[taken])];
    assert All(0, messages[..taken + 1]) == All(0, messages[..taken]) + [(0, messages[taken])];
    assert consumers[0 := Runnable][0 := Idle] == consumers[0 := Idle];
    assert after == Opened(messages, taken + 1, consumers[0 := Idle]);
  }

  /**
   * Whatever messages there are, some run opens the socket, receives them, and delivers
   * them all to one consumer, in order.
   */
  lemma {:induction false} AllCanBeDelivered<M>(messages: seq<M>, taken: nat)
      returns (actions: seq<Action<M>>, consumers: map<nat, Consumer>)
    requires taken <= |messages|
    ensures Leads(Fresh(), actions, Opened(messages, taken, consumers))
    ensures 0 !in consumers || consumers[0] == Idle
    decreases taken
  {
    if taken == 0 {
      actions := ReceivesAll(messages);
      consumers := map[];
    } else {
      var before, idle := AllCanBeDelivered(messages, taken - 1);
      actions := TakesOne(before, messages, taken - 1, idle);
      consumers := idle[0 := Idle];
    }
  }
}
