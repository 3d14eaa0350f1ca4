// internal/contract_publisher/usecase/usecase.py: which flushes may end when, if documents
// are to keep the order in which they were accepted.
module PublisherOrder {
  import opened Basics
  import opened PublisherSteps

  // A flush takes a buffer that is not empty.
  ghost predicate NonEmptyFlights<Doc, Card>(s: State<Doc, Card>) {
    forall f :: f in s.flights ==> f.docs != []
  }

  predicate Completes<Doc, Card>(s: State<Doc, Card>, i: nat)
    requires i < |s.flights|
  {
    s.flights[i].sent + 1 == |s.flights[i].cards| + 2
  }

  // ----- Sequences ---------------------------------------------------------------------------

  lemma {:induction false} InFlightJoin<Doc, Card>(a: seq<Flight<Doc, Card>>, b: seq<Flight<Doc, Card>>)
    ensures InFlight(a + b) == InFlight(a) + InFlight(b)
  {
    if a == [] {
      assert a + b == b;
    } else {
      InFlightJoin(a[1..], b);
      assert a + b == [a[0]] + (a[1..] + b);
      InFlightCons(a[0], a[1..] + b);
      Regroup(a[0].docs, InFlight(a[1..]), InFlight(b));
    }
  }

  lemma InFlightAround<Doc, Card>(flights: seq<Flight<Doc, Card>>, i: nat)
    requires i < |flights|
    ensures InFlight(flights) == InFlight(flights[..i]) + flights[i].docs + InFlight(flights[i + 1..])
    ensures InFlight(Without(flights, i)) == InFlight(flights[..i]) + InFlight(flights[i + 1..])
  {
    InFlightJoin(flights[..i], flights[i + 1..]);
    SplitAround(flights, i);
    InFlightMiddle(flights[..i], flights[i], flights[i + 1..]);
  }

  lemma SplitAround<T>(xs: seq<T>, i: nat)
    requires i < |xs|
    ensures xs == xs[..i] + ([xs[i]] + xs[i + 1..])
  {
  }

  lemma InFlightMiddle<Doc, Card>(older: seq<Flight<Doc, Card>>, f: Flight<Doc, Card>, younger: seq<Flight<Doc, Card>>)
    ensures InFlight(older + ([f] + younger)) == InFlight(older) + f.docs + InFlight(younger)
  {
    InFlightJoin(older, [f] + younger);
    InFlightCons(f, younger);
    Regroup(InFlight(older), f.docs, InFlight(younger));
  }

  // Flights carry documents, so only no flights carry none.
  lemma NothingInFlight<Doc, Card>(flights: seq<Flight<Doc, Card>>)
    requires forall f :: f in flights ==> f.docs != []
    ensures InFlight(flights) == [] <==> flights == []
  {
    if flights != [] {
      assert flights[0] in flights;
    }
  }

  lemma SwapShows<T>(p: seq<T>, a: seq<T>, b: seq<T>, q: seq<T>)
    requires Distinct(p + a + b + q) && a != [] && b != []
    ensures p + a + b + q != p + b + a + q
  {
    var xs, ys := p + a + b + q, p + b + a + q;
    assert xs[|p|] == a[0] && xs[|p| + |a|] == b[0] && ys[|p|] == b[0];
  }

  lemma SwapIsOrderExactlyWhen<T>(p: seq<T>, a: seq<T>, b: seq<T>, q: seq<T>)
    requires Distinct(p + a + b + q)
    ensures p + a + b + q == p + b + a + q <==> a == [] || b == []
  {
    if a != [] && b != [] {
      SwapShows(p, a, b, q);
    } else {
      assert a == [] ==> p + a + b + q == p + b + q && p + b + a + q == p + b + q;
      assert b == [] ==> p + a + b + q == p + a + q && p + b + a + q == p + a + q;
    }
  }

  lemma FailedSwap<T>(c: seq<T>, older: seq<T>, docs: seq<T>, younger: seq<T>, q: seq<T>)
    requires Distinct(c + (older + docs + younger) + q)
    ensures c + (older + docs + younger) + q == c + (older + younger) + (docs + q) <==> docs == [] || younger == []
  {
    var p := c + older;
    assert c + (older + docs + younger) + q == p + docs + younger + q;
    assert c + (older + younger) + (docs + q) == p + younger + docs + q;
    SwapIsOrderExactlyWhen(p, docs, younger, q);
  }

  lemma CompletedSwap<T>(c: seq<T>, older: seq<T>, docs: seq<T>, younger: seq<T>, q: seq<T>)
    requires Distinct(c + (older + docs + younger) + q)
    ensures c + (older + docs + younger) + q == c + docs + (older + younger) + q <==> older == [] || docs == []
  {
    var r := younger + q;
    assert c + (older + docs + younger) + q == c + older + docs + r;
    assert c + docs + (older + younger) + q == c + docs + older + r;
    SwapIsOrderExactlyWhen(c, older, docs, r);
  }

  // ----- One send ----------------------------------------------------------------------------

  // A failing send puts its batch in front of the buffer, where it belongs only if no
  // younger flush is under way.
  lemma FailureKeepsOrderExactlyWhen<Doc, Card>(s: State<Doc, Card>, i: nat)
    requires InOrder(s) && Distinct(s.accepted) && NonEmptyFlights(s) && Enabled(s, SendFails(i))
    ensures InOrder(After(s, SendFails(i))) <==> i == |s.flights| - 1
  {
    InFlightAround(s.flights, i);
    NothingInFlight(s.flights[i + 1..]);
    assert s.flights[i] in s.flights;
    FailedSwap(s.completed, InFlight(s.flights[..i]), s.flights[i].docs, InFlight(s.flights[i + 1..]), s.buffer);
  }

  // The last message of a flush completes its documents, in order only if no older flush
  // is under way.
  lemma CompletionKeepsOrderExactlyWhen<Doc, Card>(s: State<Doc, Card>, i: nat)
    requires InOrder(s) && Distinct(s.accepted) && NonEmptyFlights(s) && Enabled(s, SendSucceeds(i)) && Completes(s, i)
    ensures InOrder(After(s, SendSucceeds(i))) <==> i == 0
  {
    InFlightAround(s.flights, i);
    NothingInFlight(s.flights[..i]);
    assert s.flights[i] in s.flights;
    CompletedSwap(s.completed, InFlight(s.flights[..i]), s.flights[i].docs, InFlight(s.flights[i + 1..]), s.buffer);
  }

  lemma ProgressKeepsOrder<Doc, Card>(s: State<Doc, Card>, i: nat)
    requires InOrder(s) && Enabled(s, SendSucceeds(i)) && !Completes(s, i)
    ensures InOrder(After(s, SendSucceeds(i)))
  {
    InFlightProgress(s.flights, i, s.flights[i].(sent := s.flights[i].sent + 1));
  }

  lemma StartKeepsInOrder<Doc, Card>(s: State<Doc, Card>, cards: seq<Card>)
    requires InOrder(s)
    ensures InOrder(StartFlush(s, cards))
  {
    if s.buffer != [] {
      InFlightAppend(s.flights, Flight(|s.started|, s.buffer, cards, 0));
      assert s.completed + InFlight(s.flights) + s.buffer == s.completed + (InFlight(s.flights) + s.buffer) + [];
    }
  }

  lemma AppendKeepsInOrder<Doc, Card>(s: State<Doc, Card>, doc: Doc)
    requires InOrder(s)
    ensures InOrder(s.(buffer := s.buffer + [doc], accepted := s.accepted + [doc]))
  {
    assert s.completed + InFlight(s.flights) + (s.buffer + [doc]) == s.completed + InFlight(s.flights) + s.buffer + [doc];
  }

  // ----- Runs --------------------------------------------------------------------------------

  // Flushes complete oldest first and fail youngest first.
  predicate InTurn<Doc, Card>(s: State<Doc, Card>, step: Step<Doc, Card>)
    requires Enabled(s, step)
  {
    match step
    case SendSucceeds(i) => Completes(s, i) ==> i == 0
    case SendFails(i) => i == |s.flights| - 1
    case _ => true
  }

  ghost predicate AlwaysInTurn<Doc, Card>(s: State<Doc, Card>, steps: seq<Step<Doc, Card>>)
    requires Possible(s, steps)
    decreases |steps|
  {
    steps == [] || (InTurn(s, steps[0]) && AlwaysInTurn(After(s, steps[0]), steps[1..]))
  }

  ghost predicate AlwaysInOrder<Doc, Card>(s: State<Doc, Card>, steps: seq<Step<Doc, Card>>)
    requires Possible(s, steps)
    decreases |steps|
  {
    InOrder(s) && (steps == [] || AlwaysInOrder(After(s, steps[0]), steps[1..]))
  }

  lemma FirstCompletes<Doc, Card>(s: State<Doc, Card>)
    requires InOrder(s) && Enabled(s, SendSucceeds(0)) && Completes(s, 0)
    ensures InOrder(After(s, SendSucceeds(0)))
  {
    InFlightAround(s.flights, 0);
    var docs, later := s.flights[0].docs, InFlight(s.flights[1..]);
    assert InFlight(s.flights[..0]) == [];
    assert InFlight(s.flights) == docs + later && InFlight(Without(s.flights, 0)) == later;
    assert s.completed + (docs + later) + s.buffer == s.completed + docs + later + s.buffer;
  }

  lemma LastFails<Doc, Card>(s: State<Doc, Card>)
    requires InOrder(s) && s.flights != [] && Enabled(s, SendFails(|s.flights| - 1))
    ensures InOrder(After(s, SendFails(|s.flights| - 1)))
  {
    var i := |s.flights| - 1;
    InFlightAround(s.flights, i);
    var docs, before := s.flights[i].docs, InFlight(s.flights[..i]);
    assert InFlight(s.flights[i + 1..]) == [];
    assert InFlight(s.flights) == before + docs && InFlight(Without(s.flights, i)) == before;
    assert s.completed + (before + docs) + s.buffer == s.completed + before + (docs + s.buffer);
  }

  lemma TurnKeepsOrder<Doc, Card>(s: State<Doc, Card>, step: Step<Doc, Card>)
    requires InOrder(s) && Enabled(s, step) && InTurn(s, step)
    ensures InOrder(After(s, step))
  {
    match step
    case PublishOne(doc) =>
      AppendKeepsInOrder(s, doc);
      StartKeepsInOrder(s.(buffer := s.buffer + [doc], accepted := s.accepted + [doc]), []);
    case Flush(cards) => StartKeepsInOrder(s, cards);
    case SendSucceeds(i) =>
      if Completes(s, i) {
        FirstCompletes(s);
      } else {
        ProgressKeepsOrder(s, i);
      }
    case SendFails(i) => LastFails(s);
  }

  // However much flushes overlap: if they complete oldest first and fail youngest first,
  // accepted = completed ++ in flight ++ buffer all along.
  lemma {:induction false} TurnsKeepOrder<Doc, Card>(s: State<Doc, Card>, steps: seq<Step<Doc, Card>>)
    requires InOrder(s) && Possible(s, steps) && AlwaysInTurn(s, steps)
    ensures AlwaysInOrder(s, steps) && InOrder(Final(s, steps))
    decreases |steps|
  {
    if steps != [] {
      TurnKeepsOrder(s, steps[0]);
      TurnsKeepOrder(After(s, steps[0]), steps[1..]);
    }
  }

  lemma StepKeepsNonEmpty<Doc, Card>(s: State<Doc, Card>, step: Step<Doc, Card>)
    requires NonEmptyFlights(s) && Enabled(s, step)
    ensures NonEmptyFlights(After(s, step)) && s.accepted <= After(s, step).accepted
  {
    var t := After(s, step);
    forall f | f in t.flights
      ensures f.docs != []
    {
      if step.SendSucceeds? || step.SendFails? {
        assert exists g :: g in s.flights && g.docs == f.docs;
      }
    }
  }

  lemma {:induction false} AcceptedGrows<Doc, Card>(s: State<Doc, Card>, steps: seq<Step<Doc, Card>>)
    requires NonEmptyFlights(s) && Possible(s, steps)
    ensures s.accepted <= Final(s, steps).accepted
    decreases |steps|
  {
    if steps != [] {
      StepKeepsNonEmpty(s, steps[0]);
      AcceptedGrows(After(s, steps[0]), steps[1..]);
    }
  }

  lemma OrderNeedsTurn<Doc, Card>(s: State<Doc, Card>, step: Step<Doc, Card>)
    requires InOrder(s) && Distinct(s.accepted) && NonEmptyFlights(s) && Enabled(s, step)
    requires InOrder(After(s, step))
    ensures InTurn(s, step)
  {
    match step
    case SendSucceeds(i) =>
      if Completes(s, i) {
        CompletionKeepsOrderExactlyWhen(s, i);
      }
    case SendFails(i) => FailureKeepsOrderExactlyWhen(s, i);
    case _ =>
  }

  // For distinct documents this is exact: the order holds all along a run if and only if
  // every completing send is of the oldest flush and every failing one of the youngest.
  lemma {:induction false} OrderHoldsExactlyWhen<Doc, Card>(s: State<Doc, Card>, steps: seq<Step<Doc, Card>>)
    requires InOrder(s) && NonEmptyFlights(s) && Possible(s, steps) && Distinct(Final(s, steps).accepted)
    ensures AlwaysInOrder(s, steps) <==> AlwaysInTurn(s, steps)
    decreases |steps|
  {
    if steps != [] {
      var next := After(s, steps[0]);
      StepKeepsNonEmpty(s, steps[0]);
      AcceptedGrows(s, steps);
      PrefixDistinct(s.accepted, Final(s, steps).accepted);
      if InOrder(next) {
        OrderNeedsTurn(s, steps[0]);
        OrderHoldsExactlyWhen(next, steps[1..]);
      } else if InTurn(s, steps[0]) {
        TurnKeepsOrder(s, steps[0]);
      }
    }
  }

  lemma PrefixDistinct<T>(xs: seq<T>, ys: seq<T>)
    requires xs <= ys && Distinct(ys)
    ensures Distinct(xs)
  {
    forall i, j | 0 <= i < j < |xs|
      ensures xs[i] != xs[j]
    {
      assert xs[i] == ys[i] && xs[j] == ys[j];
    }
  }

  // From the start.
  lemma PublisherOrderExactlyWhen<Doc, Card>(s: State<Doc, Card>, steps: seq<Step<Doc, Card>>)
    requires Initial(s) && Possible(s, steps) && Distinct(Final(s, steps).accepted)
    ensures AlwaysInOrder(s, steps) <==> AlwaysInTurn(s, steps)
  {
    OrderHoldsExactlyWhen(s, steps);
  }

  // ----- How full the buffer gets --------------------------------------------------------------

  // As long as no send fails, a buffer that is about to be full is flushed: it holds fewer
  // documents than a batch, or none.
  lemma {:induction false} BufferStaysBelowBatch<Doc, Card>(s: State<Doc, Card>, steps: seq<Step<Doc, Card>>)
    requires Possible(s, steps) && forall step :: step in steps ==> !step.SendFails?
    requires s.buffer == [] || |s.buffer| < s.batchSize
    ensures Final(s, steps).buffer == [] || |Final(s, steps).buffer| < Final(s, steps).batchSize == s.batchSize
    decreases |steps|
  {
    if steps != [] {
      assert !steps[0].SendFails?;
      assert forall step :: step in steps[1..] ==> step in steps;
      BufferStaysBelowBatch(After(s, steps[0]), steps[1..]);
    }
  }

  // Below the batch size an accepted document only waits; reaching it starts a flush of the
  // whole buffer, this document last.
  lemma FlushStartsAtBatchSize<Doc, Card>(s: State<Doc, Card>, doc: Doc)
    ensures var t := After(s, PublishOne(doc));
      && (|s.buffer| + 1 < s.batchSize ==> t.buffer == s.buffer + [doc] && t.flights == s.flights)
      && (|s.buffer| + 1 >= s.batchSize ==>
            && t.buffer == [] && |t.flights| == |s.flights| + 1
            && t.flights[..|s.flights|] == s.flights && t.flights[|s.flights|].docs == s.buffer + [doc]
            && t.flights[|s.flights|].cards == [] && t.flights[|s.flights|].sent == 0)
  {
  }
}
