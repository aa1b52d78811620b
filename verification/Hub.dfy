/** The WebSocket hub (web/websocket.go): one goroutine owns the client set and is the only one to close a
    client's channel. */
module Hub {
  type Message = string

  const SEND_CAPACITY := 256
  const BROADCAST_CAPACITY := 256

  /** A client and its buffered send channel. Sending on a closed channel and closing it twice both panic. */
  class Client {
    var send: seq<Message>
    var closed: bool
    ghost var sent: seq<Message>      // everything ever put in the channel by the hub
    ghost var received: seq<Message>  // everything ever taken out of it by writePump

    /** Nothing was done with the channel yet. */
    ghost predicate New()
      reads this
    { !closed && send == [] && sent == [] && received == [] }

    constructor ()
      ensures New()
    {
      send, closed, sent, received := [], false, [], [];
    }

    /** select { case client.send <- message: default: } */
    method TrySend(message: Message) returns (ok: bool)
      requires !closed
      modifies this`send, this`sent
      ensures ok == (|old(send)| < SEND_CAPACITY)
      ensures sent == (if ok then old(sent) + [message] else old(sent))
      ensures send == (if ok then old(send) + [message] else old(send))
    {
      ok := |send| < SEND_CAPACITY;
      if ok {
        send := send + [message];
        sent := sent + [message];
      }
    }

    method Close()
      requires !closed
      modifies this`closed
      ensures closed
    {
      closed := true;
    }

    /** writePump takes the next message off the channel; what is buffered can still be read once it is closed. */
    method Receive() returns (message: Message)
      requires send != []
      modifies this`send, this`received
      ensures message == old(send)[0] && send == old(send)[1..] && received == old(received) + [message]
    {
      message := send[0];
      send := send[1..];
      received := received + [message];
    }
  }

  // ---- the reference: streams and membership, read off the list of events ----

  datatype Event =
    | Joins(client: Client)
    | Leaves(client: Client)
    | Update(message: Message)
    | Delivery
    | Receives(client: Client)

  /** The updates waiting in the broadcast channel, and those the hub has taken out of it. */
  datatype Stream = Stream(queue: seq<Message>, log: seq<Message>)

  /** A client's membership: `joined` and `left` are positions in the log, `pending` what its channel buffers. */
  datatype Status = Absent | Live(joined: nat, pending: nat) | Gone(joined: nat, left: nat)

  function NextStream(f: Stream, e: Event): Stream {
    match e
    case Update(m) => if |f.queue| < BROADCAST_CAPACITY then f.(queue := f.queue + [m]) else f
    case Delivery => if f.queue == [] then f else Stream(f.queue[1..], f.log + [f.queue[0]])
    case _ => f
  }

  function NextStatus(s: Status, f: Stream, e: Event, c: Client): Status {
    match e
    case Joins(d) => if d == c then Live(|f.log|, 0) else s
    case Leaves(d) => if d == c && s.Live? then Gone(s.joined, |f.log|) else s
    case Update(_) => s
    case Delivery =>
      if f.queue == [] || !s.Live? then s
      else if s.pending < SEND_CAPACITY then s.(pending := s.pending + 1)
      else Gone(s.joined, |f.log|)
    case Receives(d) => if d == c && s.Live? && s.pending > 0 then s.(pending := s.pending - 1) else s
  }

  function StreamAfter(f: Stream, events: seq<Event>): Stream {
    if events == [] then f else NextStream(StreamAfter(f, events[..|events| - 1]), events[|events| - 1])
  }

  function StatusAfter(s: Status, f: Stream, events: seq<Event>, c: Client): Status {
    if events == [] then s
    else
      var init := events[..|events| - 1];
      NextStatus(StatusAfter(s, f, init, c), StreamAfter(f, init), events[|events| - 1], c)
  }

  /** The updates that found room in the broadcast channel. */
  function Accepted(f: Stream, events: seq<Event>): seq<Message> {
    if events == [] then []
    else
      var init, e := events[..|events| - 1], events[|events| - 1];
      Accepted(f, init) + if e.Update? && |StreamAfter(f, init).queue| < BROADCAST_CAPACITY then [e.message] else []
  }

  /** First in, first out: what was taken out and what still waits are the accepted updates, in order. */
  lemma {:induction false} StreamFifo(f: Stream, events: seq<Event>)
    ensures StreamAfter(f, events).log + StreamAfter(f, events).queue == f.log + f.queue + Accepted(f, events)
    ensures f.log <= StreamAfter(f, events).log
  {
    if events != [] {
      var init, e := events[..|events| - 1], events[|events| - 1];
      StreamFifo(f, init);
      NextFifo(StreamAfter(f, init), e);
    }
  }

  lemma NextFifo(f: Stream, e: Event)
    ensures var next := NextStream(f, e);
            && f.log <= next.log
            && next.log + next.queue == f.log + f.queue + if e.Update? && |f.queue| < BROADCAST_CAPACITY then [e.message] else []
  {
    if e.Delivery? && f.queue != [] { assert f.queue == [f.queue[0]] + f.queue[1..]; }
  }

  /** `j` updates had been taken out when the client registered. */
  ghost predicate RegisteredAt(f: Stream, events: seq<Event>, c: Client, j: nat) {
    exists i :: 0 <= i < |events| && events[i] == Joins(c) && j == |StreamAfter(f, events[..i]).log|
  }

  /** `l` updates had been taken out when the client was removed: it left, or the next update found its channel
      full. */
  ghost predicate RemovedAt(f: Stream, events: seq<Event>, c: Client, l: nat) {
    exists i ::
      && 0 <= i < |events| && l == |StreamAfter(f, events[..i]).log|
      && var s := StatusAfter(Absent, f, events[..i], c);
         s.Live? && (events[i] == Leaves(c) || (events[i] == Delivery && s.pending == SEND_CAPACITY))
  }

  ghost predicate WithinCapacity(s: Status) { s.Live? ==> s.pending <= SEND_CAPACITY }

  lemma Longer(f: Stream, events: seq<Event>, c: Client, j: nat)
    requires events != []
    ensures var init := events[..|events| - 1];
            && (RegisteredAt(f, init, c, j) ==> RegisteredAt(f, events, c, j))
            && (RemovedAt(f, init, c, j) ==> RemovedAt(f, events, c, j))
  {
    hide StreamAfter, StatusAfter;
    var init := events[..|events| - 1];
    assert forall i | 0 <= i < |init| :: init[..i] == events[..i] && init[i] == events[i];
  }

  /** The positions of a client are those of the events that registered and removed it. */
  lemma {:induction false} StatusExplained(f: Stream, events: seq<Event>, c: Client)
    ensures var s := StatusAfter(Absent, f, events, c);
            && WithinCapacity(s)
            && (s != Absent ==> RegisteredAt(f, events, c, s.joined))
            && (s.Gone? ==> RemovedAt(f, events, c, s.left))
    decreases |events|
  {
    if events != [] {
      var n := |events| - 1;
      var before := StatusAfter(Absent, f, events[..n], c);
      StatusExplained(f, events[..n], c);
      if before != Absent { Longer(f, events, c, before.joined); }
      if before.Gone? { Longer(f, events, c, before.left); }
      hide StreamAfter, RegisteredAt, RemovedAt;
      LastEvent(f, events, c);
    }
  }

  lemma LastEvent(f: Stream, events: seq<Event>, c: Client)
    requires events != [] && WithinCapacity(StatusAfter(Absent, f, events[..|events| - 1], c))
    ensures var n := |events| - 1;
            var log := StreamAfter(f, events[..n]).log;
            var before, after := StatusAfter(Absent, f, events[..n], c), StatusAfter(Absent, f, events, c);
            && (events[n] == Joins(c) ==> RegisteredAt(f, events, c, |log|))
            && (before.Live? && after.Gone? ==> after.left == |log| && RemovedAt(f, events, c, |log|))
  {}

  /** The messages are the updates from position j on. */
  ghost predicate Since(log: seq<Message>, j: nat, sent: seq<Message>) { j <= |log| && sent == log[j..] }

  /** ... or those from position j up to position l. */
  ghost predicate Between(log: seq<Message>, j: nat, l: nat, sent: seq<Message>) { j <= l <= |log| && sent == log[j..l] }

  lemma SinceGrows(log: seq<Message>, m: Message, j: nat, sent: seq<Message>)
    requires j <= |log| && sent == log[j..] + [m]
    ensures Since(log + [m], j, sent)
  {}

  lemma BetweenKept(log: seq<Message>, m: Message, j: nat, l: nat, sent: seq<Message>)
    requires Between(log, j, l, sent)
    ensures Between(log + [m], j, l, sent)
  {}

  lemma SoFar(log: seq<Message>, j: nat, sent: seq<Message>)
    requires Since(log, j, sent)
    ensures Between(log, j, |log|, sent)
  {
    assert log[j..] == log[j..|log|];
  }

  class WebSocketHub {
    var clients: set<Client>
    var broadcast: seq<Message>
    ghost var log: seq<Message>             // updates the hub has taken out of the broadcast channel
    ghost var known: set<Client>            // every client ever registered
    ghost var joinedAt: map<Client, nat>    // length of the log at registration
    ghost var leftAt: map<Client, nat>      // length of the log at removal

    ghost predicate Shape()
      reads this
    {
      |broadcast| <= BROADCAST_CAPACITY && clients <= known && joinedAt.Keys == known && leftAt.Keys == known - clients
    }

    /** A live client's channel is open and was given exactly the updates since its registration; a removed
        client's channel is closed and was given exactly those between its registration and its removal; the
        channel gives back what it was given, in order. */
    ghost predicate GivenBy(c: Client, log': seq<Message>, leftAt': map<Client, nat>)
      requires clients <= known && joinedAt.Keys == known && leftAt'.Keys == known - clients && c in known
      reads this`clients, this`known, this`joinedAt, c
    {
      var j := joinedAt[c];
      && c.sent == c.received + c.send
      && if c in clients then !c.closed && |c.send| <= SEND_CAPACITY && Since(log', j, c.sent)
         else c.closed && Between(log', j, leftAt'[c], c.sent)
    }

    ghost predicate Given(c: Client)
      requires c in known && Shape()
      reads this, c
    { GivenBy(c, log, leftAt) }

    ghost predicate Valid()
      reads this, known
    { Shape() && forall c | c in known :: Given(c) }

    ghost function Current(): Stream
      reads this`broadcast, this`log
    { Stream(broadcast, log) }

    ghost function StatusOf(c: Client): Status
      reads this`clients, this`joinedAt, this`leftAt, c`send
    {
      if c !in joinedAt then Absent
      else if c in clients then Live(joinedAt[c], |c.send|)
      else if c in leftAt then Gone(joinedAt[c], leftAt[c])
      else Absent
    }

    constructor ()
      ensures Valid() && known == {} && Current() == Stream([], [])
    {
      clients, broadcast, log, known, joinedAt, leftAt := {}, [], [], {}, map[], map[];
    }

    /** BroadcastUpdate skips the update when the channel is full. */
    method BroadcastUpdate(message: Message) returns (ok: bool)
      requires Valid()
      modifies this`broadcast
      ensures Valid() && ok == (|old(broadcast)| < BROADCAST_CAPACITY)
      ensures broadcast == if ok then old(broadcast) + [message] else old(broadcast)
    {
      ok := |broadcast| < BROADCAST_CAPACITY;
      if ok {
        broadcast := broadcast + [message];
      }
    }

    /** case client := <-h.register; HandleWebSocket registers each new client once. */
    method Register(c: Client)
      requires Valid() && c !in known && c.New()
      modifies this`clients, this`known, this`joinedAt
      ensures Valid() && known == old(known) + {c} && clients == old(clients) + {c}
      ensures joinedAt == old(joinedAt)[c := |log|]
    {
      clients := clients + {c};
      known := known + {c};
      joinedAt := joinedAt[c := |log|];
    }

    /** case client := <-h.unregister; a client that is already gone is left alone. */
    method Unregister(c: Client)
      requires Valid()
      modifies this`clients, this`leftAt, c`closed
      ensures Valid() && clients == old(clients) - {c}
      ensures leftAt == if c in old(clients) then old(leftAt)[c := |log|] else old(leftAt)
      ensures c.closed == (c in old(clients) || old(c.closed))
    {
      if c in clients {
        SoFar(log, joinedAt[c], c.sent);
        hide Since, Between;
        clients := clients - {c};
        c.Close();
        leftAt := leftAt[c := |log|];
      }
    }

    /** case message := <-h.broadcast; the clients are visited in any order, and one whose channel is full is
        closed and dropped. */
    method Deliver()
      requires Valid() && broadcast != []
      modifies this`clients, this`broadcast, this`log, this`leftAt, clients
      ensures Valid()
      ensures Current() == Stream(old(broadcast)[1..], old(log) + [old(broadcast)[0]])
      ensures clients <= old(clients)
      ensures forall c | c in old(clients) :: c in clients <==> |old(c.send)| < SEND_CAPACITY
      ensures forall c | c in clients :: |c.send| == |old(c.send)| + 1
      ensures leftAt == old(leftAt) + map c | c in old(clients) - clients :: |old(log)|
    {
      var message := broadcast[0];
      broadcast := broadcast[1..];
      ghost var before := clients;
      SendToAll(message);
      RecordDelivery(before, message);
    }

    /** History only: the delivered message joins the log, and the dropped clients left just before it. */
    ghost method RecordDelivery(before: set<Client>, message: Message)
      requires |broadcast| <= BROADCAST_CAPACITY
      requires clients <= before <= known && joinedAt.Keys == known && leftAt.Keys == known - before
      requires forall c | c in known :: Sent(c, before, message)
      modifies this`leftAt, this`log
      ensures Valid() && log == old(log) + [message]
      ensures leftAt == old(leftAt) + map c | c in before - clients :: |old(log)|
    {
      ghost var log', leftAt' := log + [message], leftAt + map c | c in before - clients :: |log|;
      forall c | c in known ensures GivenBy(c, log', leftAt') {
        var j := joinedAt[c];
        if c in clients {
          SinceGrows(log, message, j, c.sent);
        } else {
          if c in before { SoFar(log, j, c.sent); }
          BetweenKept(log, message, j, leftAt'[c], c.sent);
        }
      }
      hide Sent, Since, Between;
      leftAt := leftAt';
      log := log';
      assert forall c | c in known :: GivenBy(c, log', leftAt') && Given(c);
    }

    /** A client in the middle of a delivery: it got the message, was dropped, or had been removed before. */
    ghost predicate Sent(c: Client, before: set<Client>, message: Message)
      requires clients <= before <= known && joinedAt.Keys == known && leftAt.Keys == known - before && c in known
      reads this, c
    {
      var j := joinedAt[c];
      && c.sent == c.received + c.send
      && if c in clients then !c.closed && |c.send| <= SEND_CAPACITY && j <= |log| && c.sent == log[j..] + [message]
         else if c in before then c.closed && Since(log, j, c.sent)
         else c.closed && Between(log, j, leftAt[c], c.sent)
    }

    /** for client := range h.clients { select { case client.send <- message: default: close, delete } } */
    method SendToAll(message: Message)
      requires forall c | c in clients :: !c.closed
      modifies this`clients, clients`send, clients`sent, clients`closed
      ensures clients <= old(clients)
      ensures forall c | c in old(clients) :: c in clients <==> |old(c.send)| < SEND_CAPACITY
      ensures forall c | c in clients :: !c.closed && c.sent == old(c.sent) + [message] && c.send == old(c.send) + [message]
      ensures forall c | c in old(clients) - clients :: c.closed && c.sent == old(c.sent) && c.send == old(c.send)
    {
      var rest := clients;
      while rest != {}
        invariant rest <= clients <= old(clients)
        invariant forall c | c in rest :: !c.closed && c.sent == old(c.sent) && c.send == old(c.send)
        invariant forall c | c in clients - rest ::
          !c.closed && c.sent == old(c.sent) + [message] && c.send == old(c.send) + [message] && |old(c.send)| < SEND_CAPACITY
        invariant forall c | c in old(clients) - clients ::
          c.closed && c.sent == old(c.sent) && c.send == old(c.send) && |old(c.send)| >= SEND_CAPACITY
        decreases rest
      {
        var c :| c in rest;
        rest := rest - {c};
        var ok := c.TrySend(message);
        if !ok {
          c.Close();
          clients := clients - {c};
        }
      }
    }

    /** writePump reads from its client's channel, if anything is there. */
    method ReadFrom(c: Client)
      requires Valid() && c in known
      modifies c`send, c`received
      ensures Valid() && |c.send| == (if old(c.send) == [] then 0 else |old(c.send)| - 1)
      ensures c.received == old(c.received) + if old(c.send) == [] then [] else [old(c.send)[0]]
    {
      if c.send != [] { var _ := c.Receive(); }
    }

    /** The broadcast case; with nothing there it waits. */
    method DeliverNext()
      requires Valid()
      modifies this, known
      ensures Valid() && known == old(known) && Current() == NextStream(old(Current()), Delivery)
      ensures forall c | c in known :: StatusOf(c) == NextStatus(old(StatusOf(c)), old(Current()), Delivery, c)
    {
      hide GivenBy;
      if broadcast != [] { Deliver(); }
    }

    /** One round of Run's select, or of a writePump. */
    method Handle(e: Event)
      requires Valid()
      requires e.Joins? ==> e.client !in known && e.client.New()
      requires e.Leaves? || e.Receives? ==> e.client in known
      modifies this, known
      ensures Valid() && known == old(known) + (if e.Joins? then {e.client} else {})
      ensures Current() == NextStream(old(Current()), e)
      ensures forall c | c in old(known) :: StatusOf(c) == NextStatus(old(StatusOf(c)), old(Current()), e, c)
      ensures e.Joins? ==> StatusOf(e.client) == Live(|old(log)|, 0)
    {
      hide GivenBy;
      match e
      case Joins(c) => Register(c);
      case Leaves(c) => Unregister(c);
      case Update(m) => var _ := BroadcastUpdate(m);
      case Delivery => DeliverNext();
      case Receives(c) => ReadFrom(c);
    }
  }

  ghost function Joining(events: seq<Event>): set<Client> { set e | e in events && e.Joins? :: e.client }

  /** A client registers once, when it is new; it is read from and leaves only after that. */
  ghost predicate Orderly(events: seq<Event>, known: set<Client>) {
    forall i | 0 <= i < |events| ::
      && (events[i].Joins? ==> events[i].client !in known + Joining(events[..i]))
      && (events[i].Leaves? || events[i].Receives? ==> events[i].client in known + Joining(events[..i]))
  }

  lemma JoiningStep(events: seq<Event>, i: nat)
    requires i < |events|
    ensures Joining(events[..i + 1]) == Joining(events[..i]) + (if events[i].Joins? then {events[i].client} else {})
    ensures events[i].Joins? ==> events[i].client in Joining(events)
  {
    assert events[..i + 1] == events[..i] + [events[i]];
  }

  lemma StreamStep(f: Stream, events: seq<Event>, i: nat)
    requires i < |events|
    ensures StreamAfter(f, events[..i + 1]) == NextStream(StreamAfter(f, events[..i]), events[i])
  {
    assert events[..i + 1][..i] == events[..i];
  }

  lemma StatusStep(s: Status, f: Stream, events: seq<Event>, i: nat, c: Client)
    requires i < |events|
    ensures StatusAfter(s, f, events[..i + 1], c)
            == NextStatus(StatusAfter(s, f, events[..i], c), StreamAfter(f, events[..i]), events[i], c)
  {
    assert events[..i + 1][..i] == events[..i];
  }

  lemma StartStream(f: Stream)
    ensures StreamAfter(f, []) == f
  {}

  lemma StartStatus(s: Status, f: Stream, c: Client)
    ensures StatusAfter(s, f, [], c) == s
  {}

  /** Handle, seen from a set of clients that may not all have registered yet. */
  method HandleOne(hub: WebSocketHub, e: Event, ghost all: set<Client>)
    requires hub.Valid() && hub.known <= all
    requires e.Joins? ==> e.client in all - hub.known && e.client.New()
    requires e.Leaves? || e.Receives? ==> e.client in hub.known
    requires forall c | c in all && c !in hub.known :: c.New()
    modifies hub, hub.known
    ensures hub.Valid() && hub.known == old(hub.known) + (if e.Joins? then {e.client} else {})
    ensures forall c | c in all && c !in hub.known :: c.New()
    ensures hub.Current() == NextStream(old(hub.Current()), e)
    ensures forall c | c in all :: hub.StatusOf(c) == NextStatus(old(hub.StatusOf(c)), old(hub.Current()), e, c)
  {
    hub.Handle(e);
  }

  /** Run, over any orderly sequence of events. Every send and every close meets its precondition, so the hub never
      sends on a closed channel and closes each channel at most once; the updates taken out and each client's
      membership are those read off the events, and Valid says what a member was given. */
  method Run(hub: WebSocketHub, events: seq<Event>)
    requires hub.Valid() && Orderly(events, hub.known)
    requires forall c | c in Joining(events) :: c.New()
    modifies hub, hub.known, Joining(events)
    ensures hub.Valid() && hub.known == old(hub.known) + Joining(events)
    ensures hub.Current() == StreamAfter(old(hub.Current()), events)
    ensures forall c | c in old(hub.known) + Joining(events) ::
              hub.StatusOf(c) == StatusAfter(old(hub.StatusOf(c)), old(hub.Current()), events, c)
  {
    hide StreamAfter, StatusAfter, NextStream, NextStatus, WebSocketHub.Valid, WebSocketHub.StatusOf;
    ghost var all := hub.known + Joining(events);
    ghost var before := map c | c in all :: hub.StatusOf(c);
    ghost var start := hub.Current();
    assert events[..0] == [] && Joining([]) == {};
    StartStream(start);
    forall c | c in all { StartStatus(before[c], start, c); }
    var i := 0;
    while i < |events|
      invariant i <= |events| && hub.Valid() && hub.known == old(hub.known) + Joining(events[..i])
      invariant hub.known <= all
      invariant forall c | c in all && c !in hub.known :: c.New()
      invariant hub.Current() == StreamAfter(start, events[..i])
      invariant forall c | c in all :: hub.StatusOf(c) == StatusAfter(before[c], start, events[..i], c)
    {
      var e := events[i];
      JoiningStep(events, i);
      StreamStep(start, events, i);
      forall c | c in all { StatusStep(before[c], start, events, i, c); }
      HandleOne(hub, e, all);
      i := i + 1;
    }
    assert events[..i] == events;
  }
}
