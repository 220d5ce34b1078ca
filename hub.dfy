/**
  The hub as a whole: the registry, every channel's log, and the lifecycle of
  stream connections (connect, receive published events, disconnect), with
  each registry operation and each publish taken as one atomic step.
 */
module Hub {
  import opened Registry
  import opened Stream
  import opened Broadcast

  /** A view of the hub's state. The last three fields are history kept for
      the proofs: every event published so far, and how many had been
      published when each channel was registered and unregistered. */
  datatype Snapshot = Snapshot(
    clients: seq<Handle>,
    inbox: map<Handle, seq<Event>>,
    closed: set<Handle>,
    next: nat,
    published: seq<Event>,
    joined: map<Handle, nat>,
    left: map<Handle, nat>)

  /** The hub before any connection: the registry is empty. */
  const Initial := Snapshot([], map[], {}, 0, [], map[], map[])

  /** How many events had been published when channel `h` stopped being a fan-out target. */
  function End(s: Snapshot, h: Handle): nat
    requires h in s.closed ==> h in s.left
  {
    if h in s.closed then s.left[h] else |s.published|
  }

  /** The hub invariant. Each handle is registered at most once; a channel is
      registered exactly from its connection until its cleanup; and (isolation
      and ordering) every channel has been handed exactly the events published
      while it was registered, in publish order. */
  predicate Inv(s: Snapshot) {
    && NoDup(s.clients)
    && (forall h :: h in s.clients ==> h in s.joined && h !in s.closed)
    && (forall h :: h in s.joined && h !in s.closed ==> h in s.clients)
    && s.closed <= s.joined.Keys
    && s.left.Keys == s.closed
    && s.inbox.Keys == s.joined.Keys
    && (forall h :: h in s.joined ==> h.Chan? && h.id < s.next)
    && (forall h :: h in s.joined ==>
          && s.joined[h] <= End(s, h) <= |s.published|
          && s.inbox[h] == s.published[s.joined[h]..End(s, h)])
  }

  /** The channel the next connection creates. */
  function Fresh(s: Snapshot): Handle {
    Chan(s.next)
  }

  /** A stream connects: a new channel is created and appended to the registry. */
  function OpenStep(s: Snapshot): Snapshot {
    var h := Fresh(s);
    s.(clients := s.clients + [h], inbox := s.inbox[h := []], next := s.next + 1,
       joined := s.joined[h := |s.published|])
  }

  /** An event is published: it is handed to every registered channel. */
  function PublishStep(s: Snapshot, e: Event): Snapshot {
    s.(inbox := FanOut(s.inbox, s.clients, e), published := s.published + [e])
  }

  /** A stream's cleanup: its channel is unregistered and then closed. A
      handler runs its cleanup once, for the channel it created. */
  function CloseStep(s: Snapshot, h: Handle): Snapshot
    requires h in s.joined && h !in s.closed
  {
    s.(clients := RemoveFirst(s.clients, h), closed := s.closed + {h},
       left := s.left[h := |s.published|])
  }

  lemma InitialInv()
    ensures Inv(Initial) && Initial.clients == []
  {
  }

  /** Connecting keeps the invariant, registers a channel never seen before,
      and that channel has been handed nothing yet. */
  lemma OpenKeepsInv(s: Snapshot)
    requires Inv(s)
    ensures Inv(OpenStep(s))
    ensures Fresh(s) !in s.joined && Fresh(s) in OpenStep(s).clients
    ensures OpenStep(s).inbox[Fresh(s)] == []
  {
  }

  /** A channel's log after a publish: the event is appended exactly when the
      channel is currently registered, that is, connected and not yet cleaned up. */
  lemma PublishReaches(s: Snapshot, e: Event, h: Handle)
    requires Inv(s)
    ensures Queue(PublishStep(s, e).inbox, h)
         == Queue(s.inbox, h) + (if h in s.joined && h !in s.closed then [e] else [])
  {
    FanOutOnce(s.inbox, s.clients, e, h);
  }

  /** Publishing keeps the invariant. */
  lemma PublishKeepsInv(s: Snapshot, e: Event)
    requires Inv(s)
    ensures Inv(PublishStep(s, e))
  {
    var t := PublishStep(s, e);
    FanOutKeys(s.inbox, s.clients, e);
    assert t.inbox.Keys == t.joined.Keys;
    forall h | h in t.joined
      ensures t.joined[h] <= End(t, h) <= |t.published|
      ensures t.inbox[h] == t.published[t.joined[h]..End(t, h)]
    {
      PublishReaches(s, e, h);
      var j := s.joined[h];
      if h in s.closed {
        assert t.published[j..End(t, h)] == s.published[j..End(s, h)];
      } else {
        assert t.published[j..End(t, h)] == s.published[j..End(s, h)] + [e];
      }
    }
  }

  /** Cleanup keeps the invariant and takes the channel out of the registry for good. */
  lemma CloseKeepsInv(s: Snapshot, h: Handle)
    requires Inv(s) && h in s.joined && h !in s.closed
    ensures Inv(CloseStep(s, h))
    ensures h !in CloseStep(s, h).clients
  {
    var t := CloseStep(s, h);
    RemoveFirstNoDup(s.clients, h);
    forall g | g in t.joined
      ensures t.joined[g] <= End(t, g) <= |t.published|
      ensures t.inbox[g] == t.published[t.joined[g]..End(t, g)]
    {
      assert End(t, g) == End(s, g);
    }
  }

  /** Fan-out correctness as a subscriber sees it: one publish extends the
      output of a connected handler with filter `filter` by the event's record
      exactly when the handler is still registered and the topic equals the
      filter; a cleaned-up handler's output never grows. */
  lemma PublishDelivers(s: Snapshot, e: Event, h: Handle, filter: string)
    requires Inv(s) && h in s.joined
    ensures h in PublishStep(s, e).inbox
    ensures Encode(filter, PublishStep(s, e).inbox[h])
         == Encode(filter, s.inbox[h]) + (if h !in s.closed && e.topic == filter then Record(e) else "")
  {
    FanOutKeys(s.inbox, s.clients, e);
    PublishReaches(s, e, h);
    var t := PublishStep(s, e);
    if h !in s.closed {
      EncodeSnoc(filter, s.inbox[h], e);
    } else {
      assert t.inbox[h] == s.inbox[h] + [];
      assert t.inbox[h] == s.inbox[h];
    }
  }

  /** What a connected handler writes is the record of every event published
      while its channel was registered whose topic equals its filter, in publish
      order, and of no other event. */
  lemma StreamOfConnection(s: Snapshot, h: Handle, filter: string)
    requires Inv(s) && h in s.joined
    ensures Encode(filter, s.inbox[h])
         == Encode(filter, Kept(filter, s.published[s.joined[h]..End(s, h)]))
  {
    EncodeOnlyKept(filter, s.inbox[h]);
  }

  /** A publish never hands an event to a closed channel, nor to one no
      connection created. */
  lemma NeverSendsOnClosed(s: Snapshot)
    requires Inv(s)
    ensures forall h :: h in Targets(s.clients) ==> h in s.joined && h !in s.closed
  {
    TargetsMembers(s.clients);
  }

  /** A non-empty registry has a member. */
  lemma FirstIsMember(cs: seq<Handle>)
    ensures cs == [] || cs[0] in cs
  {
  }

  /** No registry leak: once every connection has been cleaned up, the registry is empty. */
  lemma NoLeak(s: Snapshot)
    requires Inv(s) && s.joined.Keys <= s.closed
    ensures s.clients == []
  {
    FirstIsMember(s.clients);
  }

  /** A connection whose response cannot be flushed registers and at once runs
      its cleanup: the registry is as it was before. */
  lemma OpenCloseRestores(s: Snapshot)
    requires Inv(s)
    ensures Fresh(s) in OpenStep(s).joined && Fresh(s) !in OpenStep(s).closed
    ensures CloseStep(OpenStep(s), Fresh(s)).clients == s.clients
  {
    OpenKeepsInv(s);
    RegisterUnregister(s.clients, Fresh(s));
  }

  /** The record written for the first event of the scenario below. */
  lemma ScenarioRecord()
    ensures Record(Event("orders", "created", "{id:1}")) == "event: created\ndata: {id:1}\n\n"
  {
  }

  /** The end-to-end scenario: A subscribes to "orders", B to "payments"; one
      "orders" event reaches A's stream as one record and B's as nothing; after
      A disconnects, a second "orders" event reaches neither. */
  lemma Scenario()
    ensures
      var a, s1 := Fresh(Initial), OpenStep(Initial);
      var b, s2 := Fresh(s1), OpenStep(s1);
      var s3 := PublishStep(s2, Event("orders", "created", "{id:1}"));
      var s5 := PublishStep(CloseStep(s3, a), Event("orders", "created", "{id:2}"));
      && Encode("orders", Queue(s3.inbox, a)) == "event: created\ndata: {id:1}\n\n"
      && Encode("payments", Queue(s3.inbox, b)) == ""
      && Encode("orders", Queue(s5.inbox, a)) == Encode("orders", Queue(s3.inbox, a))
      && Encode("payments", Queue(s5.inbox, b)) == ""
  {
    var a, s1 := Fresh(Initial), OpenStep(Initial);
    var b, s2 := Fresh(s1), OpenStep(s1);
    var e1, e2 := Event("orders", "created", "{id:1}"), Event("orders", "created", "{id:2}");
    InitialInv();
    OpenKeepsInv(Initial);
    OpenKeepsInv(s1);
    assert a != b && s2.inbox[a] == [] && s2.inbox[b] == [];
    var s3 := PublishStep(s2, e1);
    PublishDelivers(s2, e1, a, "orders");
    PublishDelivers(s2, e1, b, "payments");
    PublishKeepsInv(s2, e1);
    ScenarioRecord();
    var s4 := CloseStep(s3, a);
    CloseKeepsInv(s3, a);
    PublishDelivers(s4, e2, a, "orders");
    PublishDelivers(s4, e2, b, "payments");
  }

  /**
    The server object. `clients` is the process-wide registry, `inbox` what each
    channel has been handed, `closed` the channels their handlers have closed and
    `next` the identity the next `make` gives a channel. The ghost fields keep
    the history the invariant talks about, and `handoffs` every handoff made,
    in order.
   */
  class EventServer {
    var clients: seq<Handle>
    var inbox: map<Handle, seq<Event>>
    var closed: set<Handle>
    var next: nat
    ghost var published: seq<Event>
    ghost var joined: map<Handle, nat>
    ghost var left: map<Handle, nat>
    ghost var handoffs: seq<Handle>

    ghost function Abs(): Snapshot
      reads this
    {
      Snapshot(clients, inbox, closed, next, published, joined, left)
    }

    ghost predicate Valid()
      reads this
    {
      Inv(Abs())
    }

    constructor ()
      ensures Valid() && Abs() == Initial && handoffs == []
    {
      clients, inbox, closed, next := [], map[], {}, 0;
      published, joined, left, handoffs := [], map[], map[], [];
    }

    /** Appends a handle at the end of the registry. */
    method Register(h: Handle)
      modifies this`clients
      ensures clients == old(clients) + [h]
    {
      clients := clients + [h];
    }

    /** Scans the registry and splices out the first entry identical to `h`, if any. */
    method Unregister(h: Handle)
      modifies this`clients
      ensures clients == RemoveFirst(old(clients), h)
    {
      var i := 0;
      while i < |clients|
        invariant 0 <= i <= |clients|
        invariant clients == old(clients)
        invariant h !in clients[..i]
      {
        if clients[i] == h {
          RemoveFirstAt(clients, h, i);
          clients := clients[..i] + clients[i + 1..];
          return;
        }
        assert clients[..i + 1] == clients[..i] + [clients[i]];
        i := i + 1;
      }
      assert clients[..i] == clients;
      RemoveFirstAbsent(clients, h);
    }

    /** The fan-out loop: hands `e` to every non-nil registered channel, in
        registry order, one handoff at a time. */
    method HandOff(e: Event)
      modifies this`inbox, this`handoffs
      ensures inbox == FanOut(old(inbox), clients, e)
      ensures handoffs == old(handoffs) + Targets(clients)
    {
      var i := 0;
      while i < |clients|
        invariant 0 <= i <= |clients|
        invariant inbox == FanOut(old(inbox), clients[..i], e)
        invariant handoffs == old(handoffs) + Targets(clients[..i])
      {
        var c := clients[i];
        ghost var done := clients[..i + 1];
        assert done[..|done| - 1] == clients[..i] && done[|done| - 1] == c;
        if c != Nil {
          inbox := inbox[c := Queue(inbox, c) + [e]];
          handoffs := handoffs + [c];
        }
        i := i + 1;
      }
      assert clients[..i] == clients;
    }

    /** Builds the event and hands it to every non-nil registered channel, in
        registry order; the registry itself is not changed. */
    method PublishTopic(topic: string, event: string, data: string)
      requires Valid()
      modifies this`inbox, this`published, this`handoffs
      ensures Abs() == PublishStep(old(Abs()), Event(topic, event, data))
      ensures handoffs == old(handoffs) + Targets(clients)
      ensures Valid()
    {
      ghost var s0 := Abs();
      var e := Event(topic, event, data);
      HandOff(e);
      published := published + [e];
      assert Abs() == PublishStep(s0, e);
      PublishKeepsInv(s0, e);
    }

    /** A stream connects: a fresh channel is created and registered. */
    method Connect() returns (h: Handle)
      requires Valid()
      modifies this
      ensures h == Fresh(old(Abs())) && Abs() == OpenStep(old(Abs()))
      ensures handoffs == old(handoffs)
      ensures Valid()
    {
      h := Chan(next);
      next := next + 1;
      inbox := inbox[h := []];
      joined := joined[h := |published|];
      Register(h);
      OpenKeepsInv(old(Abs()));
    }

    /** A stream's deferred cleanup: its channel is unregistered, then closed. */
    method Disconnect(h: Handle)
      requires Valid() && h in joined && h !in closed
      modifies this
      ensures Abs() == CloseStep(old(Abs()), h)
      ensures handoffs == old(handoffs)
      ensures Valid()
    {
      Unregister(h);
      closed := closed + {h};
      left := left[h := |published|];
      CloseKeepsInv(old(Abs()), h);
    }
  }
}
