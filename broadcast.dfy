/**
  Fan-out: one published event handed to every non-nil registered channel,
  in registry order. A channel is modelled as the log of events handed to it.
 */
module Broadcast {
  import opened Registry
  import opened Stream

  /** What channel `h` has been handed so far; an unknown channel has been handed nothing. */
  function Queue(q: map<Handle, seq<Event>>, h: Handle): seq<Event> {
    if h in q then q[h] else []
  }

  /** One handoff: a non-nil channel receives `e`; the nil channel is skipped. */
  function Offer(q: map<Handle, seq<Event>>, c: Handle, e: Event): map<Handle, seq<Event>> {
    if c == Nil then q else q[c := Queue(q, c) + [e]]
  }

  /** The handoffs of one publish over the registry `cs`, first entry first. */
  function FanOut(q: map<Handle, seq<Event>>, cs: seq<Handle>, e: Event): map<Handle, seq<Event>>
    decreases |cs|
  {
    if cs == [] then q else Offer(FanOut(q, cs[..|cs| - 1], e), cs[|cs| - 1], e)
  }

  /** The channels a publish over `cs` hands its event to, in the order it does so. */
  function Targets(cs: seq<Handle>): seq<Handle>
    decreases |cs|
  {
    if cs == [] then []
    else Targets(cs[..|cs| - 1]) + (if cs[|cs| - 1] == Nil then [] else [cs[|cs| - 1]])
  }

  /** `n` copies of `e`. */
  function Copies(e: Event, n: nat): (r: seq<Event>)
    ensures |r| == n && forall k :: 0 <= k < n ==> r[k] == e
  {
    if n == 0 then [] else Copies(e, n - 1) + [e]
  }

  /** Each non-nil channel receives the event once per registry entry naming it;
      the nil channel and channels not registered receive nothing. */
  lemma {:induction false} FanOutQueue(q: map<Handle, seq<Event>>, cs: seq<Handle>, e: Event, h: Handle)
    ensures Queue(FanOut(q, cs, e), h)
         == Queue(q, h) + (if h == Nil then [] else Copies(e, multiset(cs)[h]))
    decreases |cs|
  {
    if cs == [] {
      assert Copies(e, 0) == [];
    } else {
      var init, c := cs[..|cs| - 1], cs[|cs| - 1];
      assert cs == init + [c];
      assert multiset(cs) == multiset(init) + multiset{c};
      FanOutQueue(q, init, e, h);
      if h != Nil && c == h {
        assert Copies(e, multiset(cs)[h]) == Copies(e, multiset(init)[h]) + [e];
      }
    }
  }

  /** A publish adds no channel other than registered non-nil ones. */
  lemma {:induction false} FanOutKeys(q: map<Handle, seq<Event>>, cs: seq<Handle>, e: Event)
    ensures forall h :: h in FanOut(q, cs, e) <==> h in q || (h != Nil && h in cs)
    decreases |cs|
  {
    if cs != [] {
      var init := cs[..|cs| - 1];
      assert cs == init + [cs[|cs| - 1]];
      FanOutKeys(q, init, e);
    }
  }

  /** At most once: a registry without duplicates hands the event to each
      registered non-nil channel exactly once and to no other channel. */
  lemma FanOutOnce(q: map<Handle, seq<Event>>, cs: seq<Handle>, e: Event, h: Handle)
    requires NoDup(cs)
    ensures Queue(FanOut(q, cs, e), h)
         == if h != Nil && h in cs then Queue(q, h) + [e] else Queue(q, h)
  {
  }

  /** In a registry without duplicates a handle has one entry if listed and none otherwise. */
  lemma {:induction false} CountNoDup(cs: seq<Handle>, h: Handle)
    requires NoDup(cs)
    ensures multiset(cs)[h] == if h in cs then 1 else 0
    decreases |cs|
  {
    if cs != [] {
      var init, c := cs[..|cs| - 1], cs[|cs| - 1];
      assert cs == init + [c];
      assert multiset(cs) == multiset(init) + multiset{c};
      assert NoDup(init) by {
        forall i, j | 0 <= i < j < |init| ensures init[i] != init[j] {
          assert init[i] == cs[i] && init[j] == cs[j];
        }
      }
      CountNoDup(init, h);
      if c == h {
        assert h !in init by {
          forall k | 0 <= k < |init| ensures init[k] != h {
            assert init[k] == cs[k];
          }
        }
      }
    }
  }

  /** A registry with no non-nil entry, the empty one included, changes no channel. */
  lemma {:induction false} FanOutNoTargets(q: map<Handle, seq<Event>>, cs: seq<Handle>, e: Event)
    requires forall i :: 0 <= i < |cs| ==> cs[i] == Nil
    ensures FanOut(q, cs, e) == q
    decreases |cs|
  {
    if cs != [] {
      FanOutNoTargets(q, cs[..|cs| - 1], e);
    }
  }

  /** The channels handed the event are the non-nil registered ones. */
  lemma {:induction false} TargetsMembers(cs: seq<Handle>)
    ensures forall x :: x in Targets(cs) <==> x in cs && x != Nil
    ensures |Targets(cs)| <= |cs|
    ensures forall k :: 0 <= k < |Targets(cs)| ==> Targets(cs)[k] != Nil
    decreases |cs|
  {
    if cs != [] {
      var init := cs[..|cs| - 1];
      assert cs == init + [cs[|cs| - 1]];
      TargetsMembers(init);
    }
  }

  /** With no nil entry, the event is handed to the registry's channels in registry order. */
  lemma {:induction false} TargetsNoNil(cs: seq<Handle>)
    requires forall i :: 0 <= i < |cs| ==> cs[i] != Nil
    ensures Targets(cs) == cs
    decreases |cs|
  {
    if cs != [] {
      var init := cs[..|cs| - 1];
      assert cs == init + [cs[|cs| - 1]];
      TargetsNoNil(init);
    }
  }
}
