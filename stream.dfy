/**
  The event record and the per-subscriber side of the hub: the topic filter
  applied by a stream handler and the `text/event-stream` record layout
  (`event:` line, `data:` line, blank line) of section 9.2 of the HTML Living
  Standard, restricted to the two fields this server writes.
 */
module Stream {
  import opened Wrappers

  /** One published event: routing key, event-type label and payload. */
  datatype Event = Event(topic: string, event: string, data: string)

  /** A handler keeps an event exactly when its topic equals the requested filter. */
  predicate Matches(filter: string, e: Event) {
    e.topic == filter
  }

  /** One field line: the field name, a colon and a space, the value, a line feed. */
  function Line(name: string, value: string): string {
    name + ": " + value + "\n"
  }

  /** The two lines written for one kept event, followed by the blank line. */
  function Record(e: Event): string {
    Line("event", e.event) + Line("data", e.data) + "\n"
  }

  /** Everything a handler with `filter` writes for the events it received, in order. */
  function Encode(filter: string, received: seq<Event>): string {
    if received == [] then "" else Written(filter, received[0]) + Encode(filter, received[1..])
  }

  /** What the handler writes for one received event. */
  function Written(filter: string, e: Event): string {
    if Matches(filter, e) then Record(e) else ""
  }

  /** The received events a handler with `filter` keeps, in arrival order. */
  function Kept(filter: string, received: seq<Event>): (r: seq<Event>)
    ensures |r| <= |received|
    ensures forall e :: e in r <==> e in received && Matches(filter, e)
  {
    if received == [] then []
    else (if Matches(filter, received[0]) then [received[0]] else [])
         + Kept(filter, received[1..])
  }

  /** The (event, data) pairs of a sequence of events. */
  function Fields(es: seq<Event>): (r: seq<(string, string)>)
    ensures |r| == |es|
    ensures forall i :: 0 <= i < |es| ==> r[i] == (es[i].event, es[i].data)
  {
    if es == [] then [] else [(es[0].event, es[0].data)] + Fields(es[1..])
  }

  /** A field value the two-line layout can carry: it holds no line feed. */
  predicate SingleLine(s: string) {
    forall k :: 0 <= k < |s| ==> s[k] != '\n'
  }

  /** An event whose label and payload both fit on one line each. */
  predicate Framable(e: Event) {
    SingleLine(e.event) && SingleLine(e.data)
  }

  /** Encoding distributes over concatenation of the received sequence. */
  lemma {:induction false} EncodeAppend(filter: string, a: seq<Event>, b: seq<Event>)
    ensures Encode(filter, a + b) == Encode(filter, a) + Encode(filter, b)
  {
    if a == [] {
      assert a + b == b;
    } else {
      assert (a + b)[0] == a[0];
      assert (a + b)[1..] == a[1..] + b;
      EncodeAppend(filter, a[1..], b);
      calc {
        Encode(filter, a + b);
        Written(filter, a[0]) + Encode(filter, a[1..] + b);
        Written(filter, a[0]) + (Encode(filter, a[1..]) + Encode(filter, b));
        (Written(filter, a[0]) + Encode(filter, a[1..])) + Encode(filter, b);
      }
    }
  }

  /** Receiving one more event appends its record when it matches, and nothing otherwise. */
  lemma EncodeSnoc(filter: string, a: seq<Event>, e: Event)
    ensures Encode(filter, a + [e]) == Encode(filter, a) + Written(filter, e)
  {
    EncodeAppend(filter, a, [e]);
    assert [e][1..] == [];
  }

  /** Encoding a single received event. */
  lemma EncodeOne(filter: string, e: Event)
    ensures Encode(filter, [e]) == Written(filter, e)
  {
  }

  /** Events for other topics are discarded: the output depends only on the kept events. */
  lemma {:induction false} EncodeOnlyKept(filter: string, received: seq<Event>)
    ensures Encode(filter, received) == Encode(filter, Kept(filter, received))
  {
    if received != [] {
      var e, rest := received[0], received[1..];
      EncodeOnlyKept(filter, rest);
      if Matches(filter, e) {
        assert Kept(filter, received) == [e] + Kept(filter, rest);
        EncodeAppend(filter, [e], Kept(filter, rest));
        EncodeOne(filter, e);
      } else {
        assert Kept(filter, received) == Kept(filter, rest);
      }
    }
  }

  /** A handler whose filter no received event matches writes nothing; in
      particular an empty filter writes nothing unless some topic is empty too. */
  lemma {:induction false} EncodeNoMatch(filter: string, received: seq<Event>)
    requires forall i :: 0 <= i < |received| ==> received[i].topic != filter
    ensures Encode(filter, received) == ""
  {
    if received != [] {
      EncodeNoMatch(filter, received[1..]);
    }
  }

  /** Index of the first line feed in `s`, if any. */
  function LineEnd(s: string): (r: Option<nat>)
    ensures r.Some? ==> r.value < |s| && s[r.value] == '\n' && SingleLine(s[..r.value])
    ensures r.None? ==> SingleLine(s)
  {
    if s == [] then None
    else if s[0] == '\n' then Some(0)
    else match LineEnd(s[1..])
      case None => None
      case Some(i) =>
        assert s[..i + 1] == [s[0]] + s[1..][..i];
        Some(i + 1)
  }

  /** Reads one line `name: value\n` from the front of `s`; gives the value and what follows. */
  function Field(name: string, s: string): (r: Option<(string, string)>)
    ensures r.Some? ==> |r.value.1| < |s|
  {
    var p := name + ": ";
    if |s| < |p| || s[..|p|] != p then None
    else match LineEnd(s[|p|..])
      case None => None
      case Some(i) => Some((s[|p|..|p| + i], s[|p| + i + 1..]))
  }

  /** Reads back a stream of records in the two-field layout as (event, data) pairs. */
  function Decode(s: string): Option<seq<(string, string)>>
    decreases |s|
  {
    if s == [] then Some([])
    else match Field("event", s)
      case None => None
      case Some((name, afterEvent)) =>
        match Field("data", afterEvent)
        case None => None
        case Some((data, afterData)) =>
          if afterData == [] || afterData[0] != '\n' then None
          else match Decode(afterData[1..])
            case None => None
            case Some(rest) => Some([(name, data)] + rest)
  }

  /** The first line feed of `v + "\n" + rest` is the one after `v` when `v` is one line. */
  lemma {:induction false} LineEndAfter(v: string, rest: string)
    requires SingleLine(v)
    ensures LineEnd(v + "\n" + rest) == Some(|v|)
  {
    var s := v + "\n" + rest;
    if v == [] {
      assert s[0] == '\n';
    } else {
      assert s[0] == v[0] && s[0] != '\n';
      assert s[1..] == v[1..] + "\n" + rest;
      LineEndAfter(v[1..], rest);
    }
  }

  /** Reading a field written as one line gives back its value and what follows the line. */
  lemma FieldOf(name: string, v: string, rest: string)
    requires SingleLine(v)
    ensures Field(name, Line(name, v) + rest) == Some((v, rest))
  {
    var p := name + ": ";
    var s := Line(name, v) + rest;
    assert s == p + (v + "\n" + rest);
    assert s[..|p|] == p;
    assert s[|p|..] == v + "\n" + rest;
    LineEndAfter(v, rest);
    assert s[|p|..|p| + |v|] == v;
    assert s[|p| + |v| + 1..] == rest;
  }

  /** Decoding one record in front of a stream yields its fields first. */
  lemma DecodeRecord(e: Event, tail: string)
    requires Framable(e)
    ensures Decode(Record(e) + tail) == match Decode(tail)
      case None => None
      case Some(rest) => Some([(e.event, e.data)] + rest)
  {
    var afterData := "\n" + tail;
    var afterEvent := Line("data", e.data) + afterData;
    var s := Record(e) + tail;
    assert s == Line("event", e.event) + afterEvent;
    FieldOf("event", e.event, afterEvent);
    FieldOf("data", e.data, afterData);
    assert afterData[0] == '\n' && afterData[1..] == tail;
  }

  /** The fields of an event followed by others. */
  lemma FieldsCons(e: Event, es: seq<Event>)
    ensures Fields([e] + es) == [(e.event, e.data)] + Fields(es)
  {
  }

  /** Round trip: a client reading the handler's output recovers the label and
      payload of every kept event, in the order received, when each fits on a line. */
  lemma {:induction false} DecodeEncode(filter: string, received: seq<Event>)
    requires forall i :: 0 <= i < |received| ==> Framable(received[i])
    ensures Decode(Encode(filter, received)) == Some(Fields(Kept(filter, received)))
  {
    if received != [] {
      var e, rest := received[0], received[1..];
      assert Framable(e);
      DecodeEncode(filter, rest);
      var tail := Encode(filter, rest);
      if Matches(filter, e) {
        assert Encode(filter, received) == Record(e) + tail;
        DecodeRecord(e, tail);
        assert Kept(filter, received) == [e] + Kept(filter, rest);
        FieldsCons(e, Kept(filter, rest));
      } else {
        assert Encode(filter, received) == tail;
        assert Kept(filter, received) == Kept(filter, rest);
      }
    }
  }

  /**
    The delivery loop of one stream handler, over the events that reach its
    channel before cancellation. When the response cannot be flushed the
    handler writes no record at all.
   */
  method Serve(filter: string, flushable: bool, incoming: seq<Event>) returns (out: string)
    ensures flushable ==> out == Encode(filter, incoming)
    ensures !flushable ==> out == ""
  {
    out := "";
    if !flushable {
      return;
    }
    var i := 0;
    while i < |incoming|
      invariant 0 <= i <= |incoming|
      invariant out == Encode(filter, incoming[..i])
    {
      var e := incoming[i];
      if e.topic == filter {
        ghost var before := out;
        out := out + Line("event", e.event);
        out := out + (Line("data", e.data) + "\n");
        assert out == before + Record(e);
      }
      assert incoming[..i + 1] == incoming[..i] + [e];
      EncodeSnoc(filter, incoming[..i], e);
      i := i + 1;
    }
    assert incoming[..i] == incoming;
  }
}
