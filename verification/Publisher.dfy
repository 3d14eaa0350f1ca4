// internal/contract_publisher/usecase/publish_order.py and usecase.py: the required order of
// one flush, and the buffer that is drained and refilled around it.
module PublishOrder {
  datatype Message<Doc, Card> = Batch(docs: seq<Doc>) | Insight(card: Card) | Digest(total: nat)

  function Insights<Doc, Card>(cards: seq<Card>): (r: seq<Message<Doc, Card>>)
    ensures |r| == |cards|
  {
    seq(|cards|, i requires 0 <= i < |cards| => Insight(cards[i]))
  }

  // What one complete flush sends.
  function Block<Doc, Card>(docs: seq<Doc>, cards: seq<Card>): (r: seq<Message<Doc, Card>>)
    ensures |r| == |cards| + 2
  {
    [Batch(docs)] + Insights(cards) + [Digest(|docs|)]
  }

  lemma BlockShape<Doc, Card>(docs: seq<Doc>, cards: seq<Card>)
    ensures var b: seq<Message<Doc, Card>> := Block(docs, cards);
      && b[0] == Batch(docs) && b[|cards| + 1] == Digest(|docs|)
      && (forall i :: 0 <= i < |cards| ==> b[i + 1] == Insight(cards[i]))
      && (forall i :: 0 <= i < |b| && b[i].Digest? ==> i == |b| - 1)
  {
  }

  // Kafka: a send either appends to the topic log or fails, and nothing is known in advance.
  class Producer<Doc(!new), Card(!new)> {
    ghost var trace: seq<Message<Doc, Card>>

    constructor ()
      ensures trace == []
    {
      trace := [];
    }

    method Send(m: Message<Doc, Card>) returns (ok: bool)
      modifies this
      ensures trace == if ok then old(trace) + [m] else old(trace)
    {
      ok := *;
      if ok {
        trace := trace + [m];
      }
    }
  }

  // Stops at the first failure: the trace grows by a prefix of the block, the whole block
  // exactly on success.
  method PublishInRequiredOrder<Doc(!new), Card(!new)>(
    producer: Producer<Doc, Card>, docs: seq<Doc>, cards: seq<Card>) returns (ok: bool, ghost sent: nat)
    modifies producer
    ensures sent <= |cards| + 2 && (ok <==> sent == |cards| + 2)
    ensures producer.trace == old(producer.trace) + Block(docs, cards)[..sent]
  {
    ghost var block: seq<Message<Doc, Card>> := Block(docs, cards);
    ghost var before := producer.trace;
    sent := 0;
    assert block[..0] == [];
    ok := producer.Send(Batch(docs));
    if !ok {
      return;
    }
    sent := 1;
    assert block[..1] == [Batch(docs)];
    for i := 0 to |cards|
      invariant sent == i + 1 && producer.trace == before + block[..sent]
    {
      ok := producer.Send(Insight(cards[i]));
      if !ok {
        return;
      }
      assert block[..i + 2] == block[..i + 1] + [Insight(cards[i])];
      sent := i + 2;
    }
    ok := producer.Send(Digest(|docs|));
    if ok {
      assert block[..|cards| + 2] == block[..|cards| + 1] + [Digest(|docs|)];
      sent := |cards| + 2;
    }
  }
}

module Publisher {
  import opened PublishOrder

  // What became of documents taken out of the buffer: a flush that sent some of its
  // messages, or a discard while publishing was switched off.
  datatype Event<Doc, Card> =
    | Attempt(docs: seq<Doc>, cards: seq<Card>, sent: nat)
    | Discard(docs: seq<Doc>)
  {
    predicate WellFormed() { Attempt? ==> sent <= |cards| + 2 }

    predicate Complete() { Attempt? && sent == |cards| + 2 }

    function Messages(): seq<Message<Doc, Card>>
      requires WellFormed()
    {
      if Attempt? then Block(docs, cards)[..sent] else []
    }

    // The documents that have left the publisher for good.
    function Gone(): seq<Doc> { if Complete() || Discard? then docs else [] }
  }

  ghost function Sent<Doc, Card>(events: seq<Event<Doc, Card>>): seq<Message<Doc, Card>>
    requires forall e :: e in events ==> e.WellFormed()
  {
    if events == [] then [] else Sent(events[..|events| - 1]) + events[|events| - 1].Messages()
  }

  ghost function Gone<Doc, Card>(events: seq<Event<Doc, Card>>): seq<Doc> {
    if events == [] then [] else Gone(events[..|events| - 1]) + events[|events| - 1].Gone()
  }

  datatype Output = Output(success: bool, documents: nat, insights: nat)

  class ContractPublisher<Doc(!new), Card(!new)> {
    const producer: Producer<Doc, Card>
    const batchSize: int
    var enabled: bool
    var buffer: seq<Doc>
    ghost var accepted: seq<Doc>
    ghost var events: seq<Event<Doc, Card>>

    // Every accepted document has been delivered, discarded or is buffered, in order; the
    // producer's trace is the attempts' prefixes of their blocks, one after the other.
    ghost predicate Valid()
      reads this, producer
    {
      && (forall e :: e in events ==> e.WellFormed())
      && producer.trace == Sent(events)
      && accepted == Gone(events) + buffer
    }

    constructor (producer: Producer<Doc, Card>, enabled: bool, batchSize: int)
      requires producer.trace == []
      ensures Valid() && fresh(this)
      ensures this.producer == producer && this.enabled == enabled && this.batchSize == batchSize
      ensures buffer == [] && accepted == [] && events == []
    {
      this.producer, this.enabled, this.batchSize := producer, enabled, batchSize;
      buffer, accepted, events := [], [], [];
    }

    method PublishOne(doc: Doc)
      requires Valid()
      modifies this, producer
      ensures Valid() && enabled == old(enabled)
      ensures accepted == if enabled then old(accepted) + [doc] else old(accepted)
      ensures !enabled ==> buffer == old(buffer) && events == old(events)
      ensures enabled && |old(buffer)| + 1 < batchSize ==> buffer == old(buffer) + [doc] && events == old(events)
      ensures enabled && |old(buffer)| + 1 >= batchSize ==> Flushed(old(buffer) + [doc], old(events), [])
    {
      if !enabled {
        return;
      }
      buffer := buffer + [doc];
      accepted := accepted + [doc];
      if |buffer| >= batchSize {
        var _ := Flush([]);
      }
    }

    // One attempt with `batch` has been made: the buffer is empty on success and holds the
    // batch again, in its old order, on failure.
    ghost predicate Flushed(batch: seq<Doc>, before: seq<Event<Doc, Card>>, cards: seq<Card>)
      reads this
    {
      && |events| == |before| + 1 && events[..|before|] == before
      && var last := events[|before|];
      && last.Attempt? && last.docs == batch && last.cards == cards
      && buffer == if last.Complete() then [] else batch
    }

    method Flush(cards: seq<Card>) returns (output: Output)
      requires Valid()
      modifies this, producer
      ensures Valid() && accepted == old(accepted) && enabled == old(enabled)
      ensures old(buffer) == [] ==> events == old(events) && buffer == [] && output == Output(true, 0, 0)
      ensures old(buffer) != [] && !enabled ==>
        events == old(events) + [Discard(old(buffer))] && buffer == [] && output == Output(true, 0, 0)
      ensures old(buffer) != [] && enabled ==>
        && Flushed(old(buffer), old(events), cards)
        && output == if buffer == [] then Output(true, |old(buffer)|, |cards|) else Output(false, 0, 0)
    {
      if buffer == [] {
        return Output(true, 0, 0);
      }
      if !enabled {
        Record(Discard(buffer));
        buffer := [];
        return Output(true, 0, 0);
      }
      var batch := buffer;
      buffer := [];
      var ok, sent := PublishInRequiredOrder(producer, batch, cards);
      Record(Attempt(batch, cards, sent));
      if ok {
        output := Output(true, |batch|, |cards|);
      } else {
        buffer := batch + buffer;
        output := Output(false, 0, 0);
      }
    }

    ghost method Record(e: Event<Doc, Card>)
      requires (forall e :: e in events ==> e.WellFormed()) && e.WellFormed()
      modifies this`events
      ensures events == old(events) + [e]
      ensures forall e :: e in events ==> e.WellFormed()
      ensures Sent(events) == Sent(old(events)) + e.Messages() && Gone(events) == Gone(old(events)) + e.Gone()
    {
      assert (events + [e])[..|events|] == events;
      events := events + [e];
    }

    method Close()
      requires Valid()
      modifies this, producer
      ensures Valid() && accepted == old(accepted)
      ensures old(buffer) == [] ==> events == old(events)
      ensures old(buffer) != [] && enabled ==> Flushed(old(buffer), old(events), [])
      ensures old(buffer) != [] && !enabled ==> events == old(events) + [Discard(old(buffer))] && buffer == []
    {
      if buffer != [] {
        var _ := Flush([]);
      }
    }
  }
}

// The same publisher under asyncio: while one flush awaits a send, other tasks may append
// documents and start further flushes.
module PublisherSteps {
  import opened PublishOrder

  // A flush between taking its batch and its last message.
  datatype Flight<Doc, Card> = Flight(id: nat, docs: seq<Doc>, cards: seq<Card>, sent: nat)

  // `started` remembers what each flush set out to publish and `finished` which flushes
  // returned success; trace entries carry the flush they belong to.
  datatype State<Doc, Card> = State(
    batchSize: int,
    buffer: seq<Doc>,
    flights: seq<Flight<Doc, Card>>,
    started: seq<(seq<Doc>, seq<Card>)>,
    accepted: seq<Doc>,
    completed: seq<Doc>,
    finished: seq<nat>,
    trace: seq<(nat, Message<Doc, Card>)>)

  datatype Step<Doc, Card> =
    | PublishOne(doc: Doc)
    | Flush(cards: seq<Card>)
    | SendSucceeds(index: nat)
    | SendFails(index: nat)

  function Without<T>(xs: seq<T>, i: nat): seq<T>
    requires i < |xs|
  {
    xs[..i] + xs[i + 1..]
  }

  predicate Enabled<Doc, Card>(s: State<Doc, Card>, step: Step<Doc, Card>) {
    (step.SendSucceeds? || step.SendFails?) ==>
      step.index < |s.flights| && s.flights[step.index].sent < |s.flights[step.index].cards| + 2
  }

  // Copying and clearing the buffer happens before the first await.
  function StartFlush<Doc, Card>(s: State<Doc, Card>, cards: seq<Card>): State<Doc, Card> {
    if s.buffer == [] then s
    else s.(buffer := [],
            flights := s.flights + [Flight(|s.started|, s.buffer, cards, 0)],
            started := s.started + [(s.buffer, cards)])
  }

  function After<Doc, Card>(s: State<Doc, Card>, step: Step<Doc, Card>): State<Doc, Card>
    requires Enabled(s, step)
  {
    match step
    case PublishOne(doc) =>
      var t := s.(buffer := s.buffer + [doc], accepted := s.accepted + [doc]);
      if |t.buffer| >= s.batchSize then StartFlush(t, []) else t
    case Flush(cards) => StartFlush(s, cards)
    case SendSucceeds(i) =>
      var f := s.flights[i];
      var t := s.(trace := s.trace + [(f.id, Block(f.docs, f.cards)[f.sent])]);
      if f.sent + 1 == |f.cards| + 2 then
        t.(flights := Without(s.flights, i), completed := s.completed + f.docs, finished := s.finished + [f.id])
      else
        t.(flights := s.flights[i := f.(sent := f.sent + 1)])
    case SendFails(i) =>
      s.(flights := Without(s.flights, i), buffer := s.flights[i].docs + s.buffer)
  }

  ghost predicate Initial<Doc, Card>(s: State<Doc, Card>) {
    && s.buffer == [] && s.flights == [] && s.started == [] && s.accepted == []
    && s.completed == [] && s.finished == [] && s.trace == []
  }

  ghost predicate Possible<Doc, Card>(s: State<Doc, Card>, steps: seq<Step<Doc, Card>>)
    decreases |steps|
  {
    steps == [] || (Enabled(s, steps[0]) && Possible(After(s, steps[0]), steps[1..]))
  }

  ghost function Final<Doc, Card>(s: State<Doc, Card>, steps: seq<Step<Doc, Card>>): State<Doc, Card>
    requires Possible(s, steps)
    decreases |steps|
  {
    if steps == [] then s else Final(After(s, steps[0]), steps[1..])
  }

  // ----- Conservation ------------------------------------------------------------------------

  ghost function InFlight<Doc, Card>(flights: seq<Flight<Doc, Card>>): seq<Doc> {
    if flights == [] then [] else flights[0].docs + InFlight(flights[1..])
  }

  // Nothing accepted is lost or duplicated, however appends and flushes interleave.
  ghost predicate Conserved<Doc, Card>(s: State<Doc, Card>) {
    multiset(s.accepted) == multiset(s.completed) + multiset(InFlight(s.flights)) + multiset(s.buffer)
  }

  lemma {:induction false} InFlightAppend<Doc, Card>(flights: seq<Flight<Doc, Card>>, f: Flight<Doc, Card>)
    ensures InFlight(flights + [f]) == InFlight(flights) + f.docs
  {
    if flights == [] {
      assert flights + [f] == [f] && [f][1..] == [];
    } else {
      InFlightAppend(flights[1..], f);
      assert (flights + [f])[1..] == flights[1..] + [f];
    }
  }

  lemma InFlightCons<Doc, Card>(f: Flight<Doc, Card>, rest: seq<Flight<Doc, Card>>)
    ensures InFlight([f] + rest) == f.docs + InFlight(rest)
  {
    assert ([f] + rest)[1..] == rest;
  }

  lemma {:induction false} InFlightWithout<Doc, Card>(flights: seq<Flight<Doc, Card>>, i: nat)
    requires i < |flights|
    ensures multiset(InFlight(flights)) == multiset(InFlight(Without(flights, i))) + multiset(flights[i].docs)
  {
    if i == 0 {
      assert Without(flights, 0) == flights[1..];
    } else {
      var head, rest := flights[0], flights[1..];
      InFlightWithout(rest, i - 1);
      WithoutLater(flights, i);
      InFlightCons(head, Without(rest, i - 1));
    }
  }

  lemma WithoutLater<Doc, Card>(flights: seq<Flight<Doc, Card>>, i: nat)
    requires 0 < i < |flights|
    ensures Without(flights, i) == [flights[0]] + Without(flights[1..], i - 1)
  {
  }

  lemma {:induction false} InFlightProgress<Doc, Card>(flights: seq<Flight<Doc, Card>>, i: nat, f: Flight<Doc, Card>)
    requires i < |flights| && f.docs == flights[i].docs
    ensures InFlight(flights[i := f]) == InFlight(flights)
  {
    if i > 0 {
      InFlightProgress(flights[1..], i - 1, f);
      assert flights[i := f][1..] == flights[1..][i - 1 := f];
    } else {
      assert flights[0 := f][1..] == flights[1..];
    }
  }

  lemma StartFlushConserves<Doc, Card>(s: State<Doc, Card>, cards: seq<Card>)
    requires Conserved(s)
    ensures Conserved(StartFlush(s, cards))
  {
    InFlightAppend(s.flights, Flight(|s.started|, s.buffer, cards, 0));
  }

  lemma SendConserves<Doc, Card>(s: State<Doc, Card>, i: nat)
    requires Conserved(s) && Enabled(s, SendSucceeds(i))
    ensures Conserved(After(s, SendSucceeds(i)))
  {
    var f := s.flights[i];
    if f.sent + 1 == |f.cards| + 2 {
      CompletionConserves(s, i);
    } else {
      InFlightProgress(s.flights, i, f.(sent := f.sent + 1));
    }
  }

  lemma CompletionConserves<Doc, Card>(s: State<Doc, Card>, i: nat)
    requires Conserved(s) && i < |s.flights|
    ensures multiset(s.accepted) ==
      multiset(s.completed + s.flights[i].docs) + multiset(InFlight(Without(s.flights, i))) + multiset(s.buffer)
  {
    InFlightWithout(s.flights, i);
  }

  lemma FailureConserves<Doc, Card>(s: State<Doc, Card>, i: nat)
    requires Conserved(s) && Enabled(s, SendFails(i))
    ensures Conserved(After(s, SendFails(i)))
  {
    InFlightWithout(s.flights, i);
  }

  lemma StepConserves<Doc, Card>(s: State<Doc, Card>, step: Step<Doc, Card>)
    requires Conserved(s) && Enabled(s, step)
    ensures Conserved(After(s, step))
  {
    match step
    case PublishOne(doc) =>
      var t := s.(buffer := s.buffer + [doc], accepted := s.accepted + [doc]);
      assert Conserved(t);
      StartFlushConserves(t, []);
    case Flush(cards) => StartFlushConserves(s, cards);
    case SendSucceeds(i) => SendConserves(s, i);
    case SendFails(i) => FailureConserves(s, i);
  }

  lemma {:induction false} DocumentsAreConserved<Doc, Card>(s: State<Doc, Card>, steps: seq<Step<Doc, Card>>)
    requires Conserved(s) && Possible(s, steps)
    ensures Conserved(Final(s, steps))
    decreases |steps|
  {
    if steps != [] {
      StepConserves(s, steps[0]);
      DocumentsAreConserved(After(s, steps[0]), steps[1..]);
    }
  }

  // ----- The order of messages ---------------------------------------------------------------

  // The messages of one flush, in trace order.
  ghost function Project<Doc, Card>(trace: seq<(nat, Message<Doc, Card>)>, id: nat): seq<Message<Doc, Card>> {
    if trace == [] then []
    else
      var last := trace[|trace| - 1];
      Project(trace[..|trace| - 1], id) + (if last.0 == id then [last.1] else [])
  }

  ghost function BlockOf<Doc, Card>(s: State<Doc, Card>, id: nat): seq<Message<Doc, Card>>
    requires id < |s.started|
  {
    Block(s.started[id].0, s.started[id].1)
  }

  // What flight f has sent is the first part of its block.
  ghost predicate OnTrack<Doc, Card>(s: State<Doc, Card>, f: Flight<Doc, Card>) {
    && f.id < |s.started| && s.started[f.id] == (f.docs, f.cards) && f.sent < |f.cards| + 2
    && Project(s.trace, f.id) == BlockOf(s, f.id)[..f.sent]
  }

  ghost predicate Traced<Doc, Card>(s: State<Doc, Card>) {
    && (forall k :: 0 <= k < |s.trace| ==> s.trace[k].0 < |s.started|)
    && (forall i :: 0 <= i < |s.flights| ==> OnTrack(s, s.flights[i]))
    && (forall i, j :: 0 <= i < j < |s.flights| ==> s.flights[i].id != s.flights[j].id)
    && (forall id :: 0 <= id < |s.started| ==> Project(s.trace, id) <= BlockOf(s, id))
  }

  lemma ProjectAppend<Doc, Card>(trace: seq<(nat, Message<Doc, Card>)>, e: (nat, Message<Doc, Card>), id: nat)
    ensures Project(trace + [e], id) == if e.0 == id then Project(trace, id) + [e.1] else Project(trace, id)
  {
    assert (trace + [e])[..|trace|] == trace;
  }

  lemma {:induction false} ProjectOfStranger<Doc, Card>(trace: seq<(nat, Message<Doc, Card>)>, id: nat)
    requires forall k :: 0 <= k < |trace| ==> trace[k].0 != id
    ensures Project(trace, id) == []
  {
    if trace != [] {
      ProjectOfStranger(trace[..|trace| - 1], id);
    }
  }

  lemma StartFlushKeepsTraced<Doc, Card>(s: State<Doc, Card>, cards: seq<Card>)
    requires Traced(s)
    ensures Traced(StartFlush(s, cards))
  {
    var t := StartFlush(s, cards);
    if s.buffer != [] {
      ProjectOfStranger(s.trace, |s.started|);
      forall i | 0 <= i < |t.flights|
        ensures OnTrack(t, t.flights[i])
      {
        if i < |s.flights| {
          assert OnTrack(s, s.flights[i]);
        }
      }
      forall i, j | 0 <= i < j < |t.flights|
        ensures t.flights[i].id != t.flights[j].id
      {
        assert OnTrack(s, s.flights[i]);
      }
    }
  }

  lemma SendKeepsTraced<Doc, Card>(s: State<Doc, Card>, i: nat)
    requires Traced(s) && Enabled(s, SendSucceeds(i))
    ensures Traced(After(s, SendSucceeds(i)))
  {
    var t := After(s, SendSucceeds(i));
    forall id | 0 <= id < |t.started|
      ensures Project(t.trace, id) <= BlockOf(t, id)
    {
      SendExtendsPrefix(s, i, id);
    }
    forall k | 0 <= k < |t.flights|
      ensures OnTrack(t, t.flights[k])
    {
      SurvivorOnTrack(s, i, k);
    }
    SendKeepsIds(s, i);
  }

  lemma SendKeepsIds<Doc, Card>(s: State<Doc, Card>, i: nat)
    requires Traced(s) && Enabled(s, SendSucceeds(i))
    ensures var t := After(s, SendSucceeds(i));
      && (forall k :: 0 <= k < |t.trace| ==> t.trace[k].0 < |t.started|)
      && (forall k, l :: 0 <= k < l < |t.flights| ==> t.flights[k].id != t.flights[l].id)
  {
    var t := After(s, SendSucceeds(i));
    assert OnTrack(s, s.flights[i]);
    if |t.flights| == |s.flights| {
      assert forall k :: 0 <= k < |t.flights| ==> t.flights[k].id == s.flights[k].id;
    } else {
      assert t.flights == Without(s.flights, i);
    }
  }

  lemma SendExtendsPrefix<Doc, Card>(s: State<Doc, Card>, i: nat, id: nat)
    requires Traced(s) && Enabled(s, SendSucceeds(i)) && id < |s.started|
    ensures Project(After(s, SendSucceeds(i)).trace, id) <= BlockOf(s, id)
  {
    var f := s.flights[i];
    assert OnTrack(s, f);
    PrefixGrows(s.trace, f.id, BlockOf(s, f.id), f.sent, id, BlockOf(s, id));
  }

  lemma PrefixGrows<Doc, Card>(
    trace: seq<(nat, Message<Doc, Card>)>, mine: nat, block: seq<Message<Doc, Card>>, sent: nat,
    id: nat, other: seq<Message<Doc, Card>>)
    requires sent < |block| && Project(trace, mine) == block[..sent]
    requires Project(trace, id) <= other && (id == mine ==> other == block)
    ensures Project(trace + [(mine, block[sent])], id) <= other
  {
    ProjectAppend(trace, (mine, block[sent]), id);
    assert block[..sent] + [block[sent]] == block[..sent + 1];
  }

  lemma SurvivorOnTrack<Doc, Card>(s: State<Doc, Card>, i: nat, k: nat)
    requires Traced(s) && i < |s.flights| && Enabled(s, SendSucceeds(i))
    requires k < |After(s, SendSucceeds(i)).flights|
    ensures OnTrack(After(s, SendSucceeds(i)), After(s, SendSucceeds(i)).flights[k])
  {
    var f := s.flights[i];
    var t := After(s, SendSucceeds(i));
    assert OnTrack(s, f);
    ProjectAppend(s.trace, (f.id, Block(f.docs, f.cards)[f.sent]), t.flights[k].id);
    if |t.flights| == |s.flights| {
      assert OnTrack(s, s.flights[k]);
    } else {
      assert t.flights[k] == if k < i then s.flights[k] else s.flights[k + 1];
      assert OnTrack(s, t.flights[k]);
    }
  }

  lemma StepKeepsTraced<Doc, Card>(s: State<Doc, Card>, step: Step<Doc, Card>)
    requires Traced(s) && Enabled(s, step)
    ensures Traced(After(s, step))
  {
    match step
    case PublishOne(doc) =>
      var t := s.(buffer := s.buffer + [doc], accepted := s.accepted + [doc]);
      BufferDoesNotMatter(s, t);
      StartFlushKeepsTraced(t, []);
    case Flush(cards) => StartFlushKeepsTraced(s, cards);
    case SendSucceeds(i) => SendKeepsTraced(s, i);
    case SendFails(i) =>
      var t := s.(flights := Without(s.flights, i));
      forall k | 0 <= k < |t.flights|
        ensures OnTrack(t, t.flights[k])
      {
        assert t.flights[k] == if k < i then s.flights[k] else s.flights[k + 1];
        assert OnTrack(s, t.flights[k]);
      }
      BufferDoesNotMatter(t, After(s, step));
  }

  lemma BufferDoesNotMatter<Doc, Card>(s: State<Doc, Card>, t: State<Doc, Card>)
    requires Traced(s) && t.trace == s.trace && t.started == s.started && t.flights == s.flights
    ensures Traced(t)
  {
    forall i | 0 <= i < |t.flights|
      ensures OnTrack(t, t.flights[i])
    {
      assert OnTrack(s, s.flights[i]);
    }
  }

  lemma {:induction false} RunIsTraced<Doc, Card>(s: State<Doc, Card>, steps: seq<Step<Doc, Card>>)
    requires Traced(s) && Possible(s, steps)
    ensures Traced(Final(s, steps))
    decreases |steps|
  {
    if steps != [] {
      StepKeepsTraced(s, steps[0]);
      RunIsTraced(After(s, steps[0]), steps[1..]);
    }
  }

  lemma {:induction false} ProjectPrefix<Doc, Card>(trace: seq<(nat, Message<Doc, Card>)>, k: nat, id: nat)
    requires k <= |trace|
    ensures Project(trace[..k], id) <= Project(trace, id)
    decreases |trace| - k
  {
    if k < |trace| {
      ProjectPrefix(trace, k + 1, id);
      assert trace[..k + 1] == trace[..k] + [trace[k]];
      ProjectAppend(trace[..k], trace[k], id);
    } else {
      assert trace[..k] == trace;
    }
  }

  // However flushes interleave, whenever a digest is in the trace the whole of its own
  // block has been sent before it, in order: the batch, every insight, then the digest.
  lemma DigestEndsItsBlock<Doc, Card>(s: State<Doc, Card>, steps: seq<Step<Doc, Card>>, k: nat)
    requires Initial(s) && Possible(s, steps)
    requires k < |Final(s, steps).trace| && Final(s, steps).trace[k].1.Digest?
    ensures var f := Final(s, steps);
      && f.trace[k].0 < |f.started|
      && Project(f.trace[..k + 1], f.trace[k].0) == BlockOf(f, f.trace[k].0)
  {
    RunIsTraced(s, steps);
    var f := Final(s, steps);
    var id := f.trace[k].0;
    ProjectPrefix(f.trace, k + 1, id);
    assert f.trace[..k + 1] == f.trace[..k] + [f.trace[k]];
    ProjectAppend(f.trace[..k], f.trace[k], id);
    var upTo := Project(f.trace[..k + 1], id);
    assert upTo <= BlockOf(f, id);
    assert upTo[|upTo| - 1].Digest?;
    BlockShape<Doc, Card>(f.started[id].0, f.started[id].1);
    assert BlockOf(f, id)[|upTo| - 1].Digest?;
  }

  // ----- Completed means sent ----------------------------------------------------------------

  ghost function DocsOf<Doc, Card>(started: seq<(seq<Doc>, seq<Card>)>, ids: seq<nat>): seq<Doc>
    requires forall i :: 0 <= i < |ids| ==> ids[i] < |started|
  {
    if ids == [] then [] else DocsOf(started, ids[..|ids| - 1]) + started[ids[|ids| - 1]].0
  }

  // The completed documents are those of the finished flushes, whose whole blocks are in
  // the trace.
  ghost predicate Settled<Doc, Card>(s: State<Doc, Card>) {
    && (forall i :: 0 <= i < |s.finished| ==>
          s.finished[i] < |s.started| && Project(s.trace, s.finished[i]) == BlockOf(s, s.finished[i]))
    && s.completed == DocsOf(s.started, s.finished)
  }

  lemma {:induction false} DocsOfMoreStarted<Doc, Card>(
    started: seq<(seq<Doc>, seq<Card>)>, more: (seq<Doc>, seq<Card>), ids: seq<nat>)
    requires forall i :: 0 <= i < |ids| ==> ids[i] < |started|
    ensures DocsOf(started + [more], ids) == DocsOf(started, ids)
  {
    if ids != [] {
      DocsOfMoreStarted(started, more, ids[..|ids| - 1]);
    }
  }

  lemma StartFlushKeepsSettled<Doc, Card>(s: State<Doc, Card>, cards: seq<Card>)
    requires Settled(s)
    ensures Settled(StartFlush(s, cards))
  {
    DocsOfMoreStarted(s.started, (s.buffer, cards), s.finished);
  }

  lemma SendKeepsSettled<Doc, Card>(s: State<Doc, Card>, i: nat)
    requires Traced(s) && Settled(s) && Enabled(s, SendSucceeds(i))
    ensures Settled(After(s, SendSucceeds(i)))
  {
    var f := s.flights[i];
    assert OnTrack(s, f);
    var e := (f.id, Block(f.docs, f.cards)[f.sent]);
    var t := After(s, SendSucceeds(i));
    forall k | 0 <= k < |t.finished|
      ensures t.finished[k] < |t.started| && Project(t.trace, t.finished[k]) == BlockOf(t, t.finished[k])
    {
      ProjectAppend(s.trace, e, t.finished[k]);
    }
    assert (s.finished + [f.id])[..|s.finished|] == s.finished;
  }

  lemma StepKeepsSettled<Doc, Card>(s: State<Doc, Card>, step: Step<Doc, Card>)
    requires Traced(s) && Settled(s) && Enabled(s, step)
    ensures Settled(After(s, step))
  {
    match step
    case PublishOne(doc) =>
      StartFlushKeepsSettled(s.(buffer := s.buffer + [doc], accepted := s.accepted + [doc]), []);
    case Flush(cards) => StartFlushKeepsSettled(s, cards);
    case SendSucceeds(i) => SendKeepsSettled(s, i);
    case SendFails(i) =>
  }

  lemma {:induction false} RunIsSettled<Doc, Card>(s: State<Doc, Card>, steps: seq<Step<Doc, Card>>)
    requires Traced(s) && Settled(s) && Possible(s, steps)
    ensures Settled(Final(s, steps))
    decreases |steps|
  {
    if steps != [] {
      StepKeepsTraced(s, steps[0]);
      StepKeepsSettled(s, steps[0]);
      RunIsSettled(After(s, steps[0]), steps[1..]);
    }
  }

  // Whatever the interleaving: what was accepted is completed, in flight or buffered, and
  // what is completed has gone out in a whole block.
  lemma NothingLostNothingInvented<Doc, Card>(s: State<Doc, Card>, steps: seq<Step<Doc, Card>>)
    requires Initial(s) && Possible(s, steps)
    ensures var f := Final(s, steps);
      && multiset(f.accepted) == multiset(f.completed) + multiset(InFlight(f.flights)) + multiset(f.buffer)
      && (forall i :: 0 <= i < |f.finished| ==>
            f.finished[i] < |f.started| && Project(f.trace, f.finished[i]) == BlockOf(f, f.finished[i]))
      && f.completed == DocsOf(f.started, f.finished)
  {
    DocumentsAreConserved(s, steps);
    RunIsSettled(s, steps);
  }

  // ----- Flushes that do not overlap ---------------------------------------------------------

  ghost predicate NeverOverlaps<Doc, Card>(s: State<Doc, Card>, steps: seq<Step<Doc, Card>>)
    requires Possible(s, steps)
    decreases |steps|
  {
    |s.flights| <= 1 && (steps == [] || NeverOverlaps(After(s, steps[0]), steps[1..]))
  }

  ghost function Messages<Doc, Card>(trace: seq<(nat, Message<Doc, Card>)>): seq<Message<Doc, Card>> {
    seq(|trace|, k requires 0 <= k < |trace| => trace[k].1)
  }

  // The messages of flush 0, then those of flush 1, and so on.
  ghost function FlushByFlush<Doc, Card>(trace: seq<(nat, Message<Doc, Card>)>, n: nat): seq<Message<Doc, Card>> {
    if n == 0 then [] else FlushByFlush(trace, n - 1) + Project(trace, n - 1)
  }

  ghost predicate Orderly<Doc, Card>(s: State<Doc, Card>) {
    && |s.flights| <= 1
    && (s.flights != [] ==> s.flights[0].id + 1 == |s.started|)
    && s.accepted == s.completed + InFlight(s.flights) + s.buffer
    && Messages(s.trace) == FlushByFlush(s.trace, |s.started|)
  }

  lemma {:induction false} LaterFlushesUntouched<Doc, Card>(
    trace: seq<(nat, Message<Doc, Card>)>, e: (nat, Message<Doc, Card>), n: nat)
    requires e.0 >= n
    ensures FlushByFlush(trace + [e], n) == FlushByFlush(trace, n)
  {
    if n > 0 {
      LaterFlushesUntouched(trace, e, n - 1);
      ProjectAppend(trace, e, n - 1);
    }
  }

  lemma StartFlushKeepsOrder<Doc, Card>(s: State<Doc, Card>, cards: seq<Card>)
    requires Traced(s) && Orderly(s) && |StartFlush(s, cards).flights| <= 1
    ensures Orderly(StartFlush(s, cards))
  {
    if s.buffer != [] {
      assert s.flights == [];
      InFlightAppend(s.flights, Flight(|s.started|, s.buffer, cards, 0));
      ProjectOfStranger(s.trace, |s.started|);
      assert s.completed + [] + s.buffer == s.completed + s.buffer + [];
    }
  }

  lemma MessagesAppend<Doc, Card>(trace: seq<(nat, Message<Doc, Card>)>, e: (nat, Message<Doc, Card>), n: nat)
    requires Messages(trace) == FlushByFlush(trace, n) && e.0 + 1 == n
    ensures Messages(trace + [e]) == FlushByFlush(trace + [e], n)
  {
    LaterFlushesUntouched(trace, e, e.0);
    ProjectAppend(trace, e, e.0);
    assert Messages(trace + [e]) == Messages(trace) + [e.1];
  }

  lemma InFlightOne<Doc, Card>(flights: seq<Flight<Doc, Card>>)
    requires |flights| == 1
    ensures InFlight(flights) == flights[0].docs
  {
    assert flights[1..] == [] && flights[..0] == [];
    assert flights[0].docs + [] == flights[0].docs;
  }

  // The documents of the only flight are completed with its last message, and stay in
  // flight until then.
  lemma SendKeepsDocuments<Doc, Card>(s: State<Doc, Card>)
    requires |s.flights| == 1 && s.accepted == s.completed + InFlight(s.flights) + s.buffer
    requires Enabled(s, SendSucceeds(0))
    ensures var t := After(s, SendSucceeds(0));
      && |t.flights| <= 1 && (t.flights != [] ==> t.flights[0].id == s.flights[0].id)
      && t.accepted == t.completed + InFlight(t.flights) + t.buffer
  {
    var t := After(s, SendSucceeds(0));
    InFlightOne(s.flights);
    if |t.flights| == 1 {
      InFlightOne(t.flights);
    } else {
      assert t.flights == [];
      assert t.completed + [] + t.buffer == s.completed + s.flights[0].docs + s.buffer;
    }
  }

  lemma SendKeepsOrder<Doc, Card>(s: State<Doc, Card>)
    requires Traced(s) && Orderly(s) && s.flights != []
    ensures Enabled(s, SendSucceeds(0)) && Orderly(After(s, SendSucceeds(0)))
  {
    var f := s.flights[0];
    assert OnTrack(s, f);
    SendKeepsDocuments(s);
    MessagesAppend(s.trace, (f.id, Block(f.docs, f.cards)[f.sent]), |s.started|);
  }

  lemma StepKeepsOrder<Doc, Card>(s: State<Doc, Card>, step: Step<Doc, Card>)
    requires Traced(s) && Orderly(s) && Enabled(s, step) && |After(s, step).flights| <= 1
    ensures Orderly(After(s, step))
  {
    match step
    case PublishOne(doc) =>
      var t := s.(buffer := s.buffer + [doc], accepted := s.accepted + [doc]);
      BufferDoesNotMatter(s, t);
      if |t.buffer| >= s.batchSize {
        StartFlushKeepsOrder(t, []);
      }
    case Flush(cards) => StartFlushKeepsOrder(s, cards);
    case SendSucceeds(i) => SendKeepsOrder(s);
    case SendFails(i) =>
      InFlightOne(s.flights);
      assert After(s, step).flights == [];
  }

  lemma {:induction false} RunKeepsOrder<Doc, Card>(s: State<Doc, Card>, steps: seq<Step<Doc, Card>>)
    requires Traced(s) && Orderly(s) && Possible(s, steps) && NeverOverlaps(s, steps)
    ensures Orderly(Final(s, steps))
    decreases |steps|
  {
    if steps != [] {
      StepKeepsTraced(s, steps[0]);
      StepKeepsOrder(s, steps[0]);
      RunKeepsOrder(After(s, steps[0]), steps[1..]);
    }
  }

  // Without overlap, documents keep their order through failures and retries, and the trace
  // is flush after flush, each a prefix of its block.
  lemma SequentialFlushesKeepOrder<Doc, Card>(s: State<Doc, Card>, steps: seq<Step<Doc, Card>>)
    requires Initial(s) && Possible(s, steps) && NeverOverlaps(s, steps)
    ensures var f := Final(s, steps);
      && f.accepted == f.completed + InFlight(f.flights) + f.buffer
      && Messages(f.trace) == FlushByFlush(f.trace, |f.started|)
      && forall id :: 0 <= id < |f.started| ==> Project(f.trace, id) <= BlockOf(f, id)
  {
    RunKeepsOrder(s, steps);
    RunIsTraced(s, steps);
  }

  ghost predicate InOrder<Doc, Card>(s: State<Doc, Card>) {
    s.accepted == s.completed + InFlight(s.flights) + s.buffer
  }

  // Two documents at batch size 1: both flushes are under way.
  ghost function TwoFlights(): State<int, int> {
    State(1, [], [Flight(0, [1], [], 0), Flight(1, [2], [], 0)], [([1], []), ([2], [])], [1, 2], [], [], [])
  }

  // The second has completed first.
  ghost function YoungerDone(): State<int, int> {
    State(1, [], [Flight(0, [1], [], 0)], [([1], []), ([2], [])], [1, 2], [2], [1], [(1, Batch([2])), (1, Digest(1))])
  }

  lemma BothStart()
    ensures var s: State<int, int> := State(1, [], [], [], [], [], [], []);
      After(After(s, PublishOne(1)), PublishOne(2)) == TwoFlights()
  {
    var s: State<int, int> := State(1, [], [], [], [], [], [], []);
    var f, g: Flight<int, int> := Flight(0, [1], [], 0), Flight(1, [2], [], 0);
    var x, y: (seq<int>, seq<int>) := ([1], []), ([2], []);
    var one: State<int, int> := State(1, [], [f], [x], [1], [], [], []);
    assert s.buffer + [1] == [1] && s.accepted + [1] == [1] && s.flights + [f] == [f] && s.started + [x] == [x];
    assert After(s, PublishOne(1)) == one;
    assert one.buffer + [2] == [2] && one.accepted + [2] == [1, 2] && one.flights + [g] == [f, g] && one.started + [y] == [x, y];
  }

  lemma YoungerCompletes()
    ensures Enabled(TwoFlights(), SendSucceeds(1))
    ensures Enabled(After(TwoFlights(), SendSucceeds(1)), SendSucceeds(1))
    ensures After(After(TwoFlights(), SendSucceeds(1)), SendSucceeds(1)) == YoungerDone()
  {
    var half := TwoFlights().(flights := [Flight(0, [1], [], 0), Flight(1, [2], [], 1)], trace := [(1, Batch([2]))]);
    assert After(TwoFlights(), SendSucceeds(1)) == half;
  }

  // With overlap only the multiset survives: the second flush may finish first.
  lemma OverlapReorders()
    ensures exists s: State<int, int>, steps :: Initial(s) && Possible(s, steps) && !InOrder(Final(s, steps))
  {
    var s: State<int, int> := State(1, [], [], [], [], [], [], []);
    BothStart();
    YoungerCompletes();
    var sends: seq<Step<int, int>> := [SendSucceeds(1), SendSucceeds(1)];
    TwoSteps(TwoFlights(), SendSucceeds(1), SendSucceeds(1), []);
    TwoSteps(s, PublishOne(1), PublishOne(2), sends);
    var f := Final(s, [PublishOne(1), PublishOne(2)] + sends);
    assert f == YoungerDone();
    assert f.accepted[0] == 1 && (f.completed + InFlight(f.flights) + f.buffer)[0] == 2;
  }

  lemma TwoSteps<Doc, Card>(s: State<Doc, Card>, a: Step<Doc, Card>, b: Step<Doc, Card>, rest: seq<Step<Doc, Card>>)
    requires Enabled(s, a) && Enabled(After(s, a), b)
    ensures Possible(After(After(s, a), b), rest) ==>
      Possible(s, [a, b] + rest) && Final(s, [a, b] + rest) == Final(After(After(s, a), b), rest)
    ensures rest == [] ==> Possible(s, [a, b]) && Final(s, [a, b]) == After(After(s, a), b)
  {
    assert ([a, b] + rest)[1..] == [b] + rest && ([b] + rest)[1..] == rest;
    assert [a, b][1..] == [b] && [b][1..] == [];
  }
}
