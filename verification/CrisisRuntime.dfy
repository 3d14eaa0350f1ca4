// internal/consumer/server.py: applying a crisis status to a project, with several pods
// (and several calls in one pod) sharing one Redis record and one SET NX EX lock.
//
// One project is modelled; its keys are its own.  Each step is one await: a Redis command,
// the project-service call, or the passing of time.  What runs between two awaits without
// touching shared state is folded into the step that follows it.
module CrisisRuntime {
  import opened Basics

  const LOCK_SECONDS := 45.0

  // The JSON record; a record written by someone else may lack either field.
  datatype Record = Record(status: Option<string>, updatedAt: Option<real>)

  datatype Lock = Lock(token: nat, expiresAt: real)

  // cooldown_minutes as found in the runtime config: absent or not a number, or a number.
  datatype Minutes = Unusable | Given(minutes: real)

  datatype Request = Request(target: string, minutes: Minutes)
  {
    function Cooldown(): real { AdaptiveCooldown(minutes) }
  }

  function AdaptiveCooldown(m: Minutes): (seconds: real)
    ensures seconds >= 60.0
    ensures m.Unusable? ==> seconds == 1800.0
    ensures m.Given? && m.minutes >= 1.0 ==> seconds == 60.0 * m.minutes
    ensures m.Given? && m.minutes <= 1.0 ==> seconds == 60.0
  {
    match m
    case Unusable => 1800.0
    case Given(minutes) => (if minutes > 1.0 then minutes else 1.0) * 60.0
  }

  // What a call does while it believes to hold the lock.
  datatype Stage =
    | Locked
    | Reread(seen: Option<Record>)
    | Applying(startedAt: real)
    | Recording(stamp: real)
    | Releasing
    | Deleting(mine: bool)

  datatype Phase =
    | Idle
    | Started(req: Request)
    | Read(req: Request, seen: Option<Record>)
    | WantLock(req: Request)
    | Holding(req: Request, token: nat, since: real, stage: Stage)

  // A successful apply: the status sent, the cooldown demanded, when the call began and the
  // time stamped into the record.
  datatype Apply = Apply(status: string, cooldown: real, startedAt: real, recordedAt: real)

  // A call, named by its pod and a number within the pod.
  type Call = (nat, nat)

  datatype State = State(
    clock: real,
    record: Option<Record>,
    lock: Option<Lock>,
    local: map<nat, Record>,
    calls: map<Call, Phase>,
    history: seq<Apply>,
    nextToken: nat)
  {
    function PhaseOf(c: Call): Phase {
      if c in calls then calls[c] else Idle
    }

    function With(c: Call, p: Phase): State {
      this.(calls := calls[c := p])
    }
  }

  datatype Step =
    | Tick(seconds: real)
    | Begin(call: Call, req: Request)
    | ReadRecord(call: Call)
    | Decide(call: Call)
    | TryLock(call: Call)
    | ReadAgain(call: Call)
    | DecideAgain(call: Call)
    | ApplySucceeds(call: Call)
    | ApplyFails(call: Call)
    | WriteRecord(call: Call)
    | CheckToken(call: Call)
    | DeleteLock(call: Call)

  // ----- The transition function ---------------------------------------------------------

  // The pod's own memory stands in for a missing record.
  function Effective(s: State, pod: nat, seen: Option<Record>): Record {
    if seen.Some? then seen.value
    else if pod in s.local then s.local[pod]
    else Record(None, None)
  }

  // Neither the same status again nor within the cooldown.
  predicate Due(r: Record, req: Request, now: real) {
    r.status != Some(req.target) && (r.updatedAt.Some? ==> now - r.updatedAt.value >= req.Cooldown())
  }

  predicate LockIsFree(s: State) {
    s.lock.None? || s.clock >= s.lock.value.expiresAt
  }

  predicate Enabled(s: State, step: Step) {
    match step
    case Tick(seconds) => seconds >= 0.0
    case Begin(c, _) => s.PhaseOf(c).Idle?
    case ReadRecord(c) => s.PhaseOf(c).Started?
    case Decide(c) => s.PhaseOf(c).Read?
    case TryLock(c) => s.PhaseOf(c).WantLock?
    case ReadAgain(c) => s.PhaseOf(c).Holding? && s.PhaseOf(c).stage.Locked?
    case DecideAgain(c) => s.PhaseOf(c).Holding? && s.PhaseOf(c).stage.Reread?
    case ApplySucceeds(c) => s.PhaseOf(c).Holding? && s.PhaseOf(c).stage.Applying?
    case ApplyFails(c) => s.PhaseOf(c).Holding? && s.PhaseOf(c).stage.Applying?
    case WriteRecord(c) => s.PhaseOf(c).Holding? && s.PhaseOf(c).stage.Recording?
    case CheckToken(c) => s.PhaseOf(c).Holding? && s.PhaseOf(c).stage.Releasing?
    case DeleteLock(c) => s.PhaseOf(c).Holding? && s.PhaseOf(c).stage.Deleting?
  }

  function After(s: State, step: Step): State
    requires Enabled(s, step)
  {
    match step
    case Tick(seconds) => s.(clock := s.clock + seconds)
    case Begin(c, req) => s.With(c, Started(req))
    case ReadRecord(c) => s.With(c, Read(s.PhaseOf(c).req, s.record))
    case Decide(c) =>
      var p := s.PhaseOf(c);
      s.With(c, if Due(Effective(s, c.0, p.seen), p.req, s.clock) then WantLock(p.req) else Idle)
    case TryLock(c) =>
      if LockIsFree(s) then
        s.With(c, Holding(s.PhaseOf(c).req, s.nextToken, s.clock, Locked))
         .(lock := Some(Lock(s.nextToken, s.clock + LOCK_SECONDS)), nextToken := s.nextToken + 1)
      else s.With(c, Idle)
    case ReadAgain(c) => s.With(c, s.PhaseOf(c).(stage := Reread(s.record)))
    case DecideAgain(c) =>
      var p := s.PhaseOf(c);
      var due := Due(Effective(s, c.0, p.stage.seen), p.req, s.clock);
      s.With(c, p.(stage := if due then Applying(s.clock) else Releasing))
    case ApplySucceeds(c) =>
      var p := s.PhaseOf(c);
      s.With(c, p.(stage := Recording(s.clock)))
       .(local := s.local[c.0 := Record(Some(p.req.target), Some(s.clock))],
         history := s.history + [Apply(p.req.target, p.req.Cooldown(), p.stage.startedAt, s.clock)])
    case ApplyFails(c) => s.With(c, s.PhaseOf(c).(stage := Releasing))
    case WriteRecord(c) =>
      var p := s.PhaseOf(c);
      s.With(c, p.(stage := Releasing)).(record := Some(Record(Some(p.req.target), Some(p.stage.stamp))))
    case CheckToken(c) =>
      var p := s.PhaseOf(c);
      var mine := !LockIsFree(s) && s.lock.value.token == p.token;
      s.With(c, p.(stage := Deleting(mine)))
    case DeleteLock(c) =>
      s.With(c, Idle).(lock := if s.PhaseOf(c).stage.mine then None else s.lock)
  }

  // ----- Runs ------------------------------------------------------------------------------

  // Any record and any foreign lock may be there already; no call has started.
  ghost predicate Initial(s: State) {
    s.calls == map[] && s.local == map[] && s.history == [] && (s.lock.Some? ==> s.lock.value.token < s.nextToken)
  }

  // No critical section has lasted `seconds` yet.
  ghost predicate Within(s: State, seconds: real) {
    forall c :: s.PhaseOf(c).Holding? ==> s.clock < s.PhaseOf(c).since + seconds
  }

  // No critical section has outlasted the lock's expiry.
  ghost predicate Timely(s: State) {
    Within(s, LOCK_SECONDS)
  }

  ghost predicate Possible(s: State, steps: seq<Step>)
    decreases |steps|
  {
    steps == [] || (Enabled(s, steps[0]) && Possible(After(s, steps[0]), steps[1..]))
  }

  ghost function Final(s: State, steps: seq<Step>): State
    requires Possible(s, steps)
    decreases |steps|
  {
    if steps == [] then s else Final(After(s, steps[0]), steps[1..])
  }

  ghost predicate AlwaysWithin(s: State, steps: seq<Step>, seconds: real)
    requires Possible(s, steps)
    decreases |steps|
  {
    Within(s, seconds) && (steps == [] || AlwaysWithin(After(s, steps[0]), steps[1..], seconds))
  }

  ghost predicate AlwaysTimely(s: State, steps: seq<Step>)
    requires Possible(s, steps)
  {
    AlwaysWithin(s, steps, LOCK_SECONDS)
  }

  // ----- Safety ------------------------------------------------------------------------------

  // The later apply has another status and began its cooldown after the earlier was recorded.
  ghost predicate MayFollow(earlier: Apply, later: Apply) {
    later.status != earlier.status && later.startedAt >= earlier.recordedAt + later.cooldown
  }

  ghost predicate WellSpaced(history: seq<Apply>) {
    forall i :: 0 < i < |history| ==> MayFollow(history[i - 1], history[i])
  }

  ghost predicate MutuallyExclusive(s: State) {
    forall c, d :: s.PhaseOf(c).Holding? && s.PhaseOf(d).Holding? ==> c == d
  }

  ghost predicate HolderOwnsLock(s: State, c: Call) {
    var p := s.PhaseOf(c);
    p.Holding? ==> s.lock == Some(Lock(p.token, p.since + LOCK_SECONDS))
  }

  ghost predicate LastWritten(s: State) {
    s.history != [] ==>
      var last := s.history[|s.history| - 1];
      s.record == Some(Record(Some(last.status), Some(last.recordedAt)))
  }

  // What the holder knows at each stage.
  ghost predicate HolderKnows(s: State, c: Call) {
    var p := s.PhaseOf(c);
    p.Holding? ==>
      match p.stage
      case Reread(seen) => seen == s.record && LastWritten(s)
      case Applying(startedAt) =>
        LastWritten(s) && (s.history != [] ==>
          MayFollow(s.history[|s.history| - 1], Apply(p.req.target, p.req.Cooldown(), startedAt, s.clock)))
      case Recording(stamp) =>
        s.history != [] && s.history[|s.history| - 1].status == p.req.target
        && s.history[|s.history| - 1].recordedAt == stamp
      case _ => LastWritten(s)
  }

  ghost predicate NobodyHolds(s: State) {
    forall c :: !s.PhaseOf(c).Holding?
  }

  ghost predicate Invariant(s: State) {
    && MutuallyExclusive(s)
    && (forall c :: HolderOwnsLock(s, c))
    && (forall c :: HolderKnows(s, c))
    && (NobodyHolds(s) ==> LastWritten(s))
    && WellSpaced(s.history)
  }

  // ----- Preservation ------------------------------------------------------------------------

  ghost predicate OnlyHolder(s: State, c: Call) {
    s.PhaseOf(c).Holding? && forall d :: d != c ==> !s.PhaseOf(d).Holding?
  }

  lemma NobodyHoldsSuffices(s: State)
    requires NobodyHolds(s) && LastWritten(s) && WellSpaced(s.history)
    ensures Invariant(s)
  {
  }

  lemma OneHolderSuffices(s: State, c: Call)
    requires OnlyHolder(s, c) && HolderOwnsLock(s, c) && HolderKnows(s, c) && WellSpaced(s.history)
    ensures Invariant(s)
  {
    forall d
      ensures HolderOwnsLock(s, d) && HolderKnows(s, d)
    {
      assert d != c ==> !s.PhaseOf(d).Holding?;
    }
  }

  // Someone holds, or nobody does.
  lemma HolderOrNobody(s: State) returns (c: Call)
    requires Invariant(s)
    ensures NobodyHolds(s) || OnlyHolder(s, c)
  {
    if h :| s.PhaseOf(h).Holding? {
      c := h;
    } else {
      c := (0, 0);
    }
  }

  // Steps of calls that do not hold the lock, and the passing of time.
  lemma OutsideStepKeeps(s: State, next: State)
    requires Invariant(s)
    requires next.record == s.record && next.lock == s.lock && next.history == s.history
    requires forall d :: (s.PhaseOf(d).Holding? || next.PhaseOf(d).Holding?) ==> next.PhaseOf(d) == s.PhaseOf(d)
    ensures Invariant(next)
  {
    var c := HolderOrNobody(s);
    if NobodyHolds(s) {
      NobodyHoldsSuffices(next);
    } else {
      assert HolderOwnsLock(s, c) && HolderKnows(s, c);
      assert next.PhaseOf(c) == s.PhaseOf(c);
      OneHolderSuffices(next, c);
    }
  }

  // The lock is taken only when no live call holds it.
  lemma TryLockKeeps(s: State, c: Call)
    requires Invariant(s) && Timely(s) && s.PhaseOf(c).WantLock? && LockIsFree(s)
    ensures Invariant(After(s, TryLock(c)))
  {
    forall d
      ensures !s.PhaseOf(d).Holding?
    {
      assert HolderOwnsLock(s, d);
    }
    var next := After(s, TryLock(c));
    assert forall d :: d != c ==> next.PhaseOf(d) == s.PhaseOf(d);
    OneHolderSuffices(next, c);
  }

  lemma HolderStepKeeps(s: State, step: Step, c: Call)
    requires Invariant(s) && Timely(s) && Enabled(s, step) && OnlyHolder(s, c)
    requires step in {ReadAgain(c), DecideAgain(c), ApplyFails(c), WriteRecord(c), CheckToken(c), DeleteLock(c)}
    ensures Invariant(After(s, step))
  {
    var next := After(s, step);
    assert HolderOwnsLock(s, c) && HolderKnows(s, c);
    assert forall d :: d != c ==> next.PhaseOf(d) == s.PhaseOf(d);
    if step.DeleteLock? {
      NobodyHoldsSuffices(next);
    } else {
      OneHolderSuffices(next, c);
    }
  }

  lemma ApplyKeeps(s: State, c: Call)
    requires Invariant(s) && OnlyHolder(s, c) && s.PhaseOf(c).stage.Applying?
    ensures Invariant(After(s, ApplySucceeds(c)))
  {
    var next := After(s, ApplySucceeds(c));
    assert HolderOwnsLock(s, c) && HolderKnows(s, c);
    assert forall d :: d != c ==> next.PhaseOf(d) == s.PhaseOf(d);
    OneHolderSuffices(next, c);
  }

  lemma StepKeepsInvariant(s: State, step: Step)
    requires Invariant(s) && Timely(s) && Enabled(s, step)
    ensures Invariant(After(s, step))
  {
    match step
    case Tick(_) => OutsideStepKeeps(s, After(s, step));
    case Begin(c, _) => OutsideStepKeeps(s, After(s, step));
    case ReadRecord(c) => OutsideStepKeeps(s, After(s, step));
    case Decide(c) => OutsideStepKeeps(s, After(s, step));
    case TryLock(c) =>
      if LockIsFree(s) {
        TryLockKeeps(s, c);
      } else {
        OutsideStepKeeps(s, After(s, step));
      }
    case ApplySucceeds(c) => ApplyKeeps(s, c);
    case ReadAgain(c) => HolderStepKeeps(s, step, c);
    case DecideAgain(c) => HolderStepKeeps(s, step, c);
    case ApplyFails(c) => HolderStepKeeps(s, step, c);
    case WriteRecord(c) => HolderStepKeeps(s, step, c);
    case CheckToken(c) => HolderStepKeeps(s, step, c);
    case DeleteLock(c) => HolderStepKeeps(s, step, c);
  }

  lemma {:induction false} RunKeepsInvariant(s: State, steps: seq<Step>)
    requires Invariant(s) && Possible(s, steps) && AlwaysTimely(s, steps)
    ensures Invariant(Final(s, steps))
    decreases |steps|
  {
    if steps != [] {
      StepKeepsInvariant(s, steps[0]);
      RunKeepsInvariant(After(s, steps[0]), steps[1..]);
    }
  }

  // Over every interleaving in which no critical section outlasts the 45 seconds:
  // consecutive successful applies differ in status and are a cooldown apart, and at most
  // one call is between taking and deleting the lock.
  lemma AppliesAreWellSpaced(s: State, steps: seq<Step>)
    requires Initial(s) && Possible(s, steps) && AlwaysTimely(s, steps)
    ensures WellSpaced(Final(s, steps).history)
    ensures MutuallyExclusive(Final(s, steps))
  {
    NobodyHoldsSuffices(s);
    RunKeepsInvariant(s, steps);
  }

  // ----- The assumption is needed ------------------------------------------------------------

  lemma {:induction false} OneMoreStep(s: State, steps: seq<Step>, step: Step)
    requires Possible(s, steps) && Enabled(Final(s, steps), step)
    ensures Possible(s, steps + [step])
    ensures Final(s, steps + [step]) == After(Final(s, steps), step)
    decreases |steps|
  {
    if steps == [] {
      assert steps + [step] == [step] && [step][1..] == [];
      assert Possible(After(s, step), []);
    } else {
      OneMoreStep(After(s, steps[0]), steps[1..], step);
      assert (steps + [step])[1..] == steps[1..] + [step];
    }
  }

  // Nothing stands in the way of call c: it is idle, the lock is free, and what its pod knows
  // of the project admits the request.
  ghost predicate Clear(s: State, c: Call, req: Request) {
    s.PhaseOf(c).Idle? && LockIsFree(s) && Due(Effective(s, c.0, s.record), req, s.clock)
  }

  // In the way of nobody, a call gets from its start to the project-service request.
  lemma GetsToApply(s: State, steps: seq<Step>, c: Call, req: Request) returns (more: seq<Step>)
    requires Possible(s, steps) && Clear(Final(s, steps), c, req)
    ensures Possible(s, more)
    ensures var f := Final(s, steps);
      Final(s, more) ==
      f.(calls := f.calls[c := Holding(req, f.nextToken, f.clock, Applying(f.clock))],
         lock := Some(Lock(f.nextToken, f.clock + LOCK_SECONDS)), nextToken := f.nextToken + 1)
  {
    var f := Final(s, steps);
    more := GetsLock(s, steps, c, req);
    OneMoreStep(s, more, ReadAgain(c));
    more := more + [ReadAgain(c)];
    OneMoreStep(s, more, DecideAgain(c));
    more := more + [DecideAgain(c)];
    assert Final(s, more).calls == f.calls[c := Holding(req, f.nextToken, f.clock, Applying(f.clock))];
  }

  lemma GetsLock(s: State, steps: seq<Step>, c: Call, req: Request) returns (more: seq<Step>)
    requires Possible(s, steps) && Clear(Final(s, steps), c, req)
    ensures Possible(s, more)
    ensures var f := Final(s, steps);
      Final(s, more) ==
      f.(calls := f.calls[c := Holding(req, f.nextToken, f.clock, Locked)],
         lock := Some(Lock(f.nextToken, f.clock + LOCK_SECONDS)), nextToken := f.nextToken + 1)
  {
    var f := Final(s, steps);
    more := WantsLock(s, steps, c, req);
    OneMoreStep(s, more, TryLock(c));
    more := more + [TryLock(c)];
    assert Final(s, more).calls == f.calls[c := Holding(req, f.nextToken, f.clock, Locked)];
  }

  lemma WantsLock(s: State, steps: seq<Step>, c: Call, req: Request) returns (more: seq<Step>)
    requires Possible(s, steps)
    requires var f := Final(s, steps); f.PhaseOf(c).Idle? && Due(Effective(f, c.0, f.record), req, f.clock)
    ensures Possible(s, more)
    ensures Final(s, more) == Final(s, steps).With(c, WantLock(req))
  {
    var f := Final(s, steps);
    OneMoreStep(s, steps, Begin(c, req));
    more := steps + [Begin(c, req)];
    OneMoreStep(s, more, ReadRecord(c));
    more := more + [ReadRecord(c)];
    OneMoreStep(s, more, Decide(c));
    more := more + [Decide(c)];
    assert Final(s, more).calls == f.calls[c := WantLock(req)];
  }

  // A project-service call that takes 45 seconds lets a second pod in: from its start at
  // time 0 to its end at time 45 the first call never leaves the critical section, and the
  // same status is applied twice in a row.
  lemma OverrunBreaksSpacing() returns (s: State, steps: seq<Step>)
    ensures Initial(s) && s.clock == 0.0 && Possible(s, steps)
    ensures var f := Final(s, steps);
      && f.clock == LOCK_SECONDS
      && f.PhaseOf((0, 0)).Holding? && f.PhaseOf((0, 0)).since == 0.0 && f.PhaseOf((0, 0)).stage == Recording(LOCK_SECONDS)
      && |f.history| == 2 && f.history[0].status == f.history[1].status && !WellSpaced(f.history)
  {
    s := State(0.0, None, None, map[], map[], [], 0);
    var req := Request("CRITICAL", Unusable);
    var first, second := (0, 0), (1, 0);
    steps := GetsToApply(s, [], first, req);
    OneMoreStep(s, steps, Tick(LOCK_SECONDS));
    steps := GetsToApply(s, steps + [Tick(LOCK_SECONDS)], second, req);
    OneMoreStep(s, steps, ApplySucceeds(second));
    steps := steps + [ApplySucceeds(second)];
    OneMoreStep(s, steps, ApplySucceeds(first));
    steps := steps + [ApplySucceeds(first)];
    var history := Final(s, steps).history;
    assert |history| == 2 && !MayFollow(history[0], history[1]);
  }

  // ----- How long a critical section may last ------------------------------------------------

  // Every run from a start in which no critical section lasts `seconds` is well spaced.
  ghost predicate SafeWithin(seconds: real) {
    forall s, steps :: Initial(s) && Possible(s, steps) && AlwaysWithin(s, steps, seconds) ==>
      WellSpaced(Final(s, steps).history)
  }

  lemma {:induction false} ShorterIsWithin(s: State, steps: seq<Step>, shorter: real, longer: real)
    requires shorter <= longer && Possible(s, steps) && AlwaysWithin(s, steps, shorter)
    ensures AlwaysWithin(s, steps, longer)
    decreases |steps|
  {
    if steps != [] {
      ShorterIsWithin(After(s, steps[0]), steps[1..], shorter, longer);
    }
  }

  lemma {:induction false} ClockGrows(s: State, steps: seq<Step>)
    requires Possible(s, steps)
    ensures s.clock <= Final(s, steps).clock
    decreases |steps|
  {
    if steps != [] {
      ClockGrows(After(s, steps[0]), steps[1..]);
    }
  }

  // Every critical section began at time 0 or later.
  ghost predicate SinceZero(s: State) {
    s.clock >= 0.0 && forall c :: s.PhaseOf(c).Holding? ==> s.PhaseOf(c).since >= 0.0
  }

  // In a run from time 0 no critical section is older than the clock.
  lemma {:induction false} RunIsWithinItsEnd(s: State, steps: seq<Step>, seconds: real)
    requires SinceZero(s) && Possible(s, steps) && Final(s, steps).clock < seconds
    ensures AlwaysWithin(s, steps, seconds)
    decreases |steps|
  {
    ClockGrows(s, steps);
    if steps != [] {
      StepKeepsSinceZero(s, steps[0]);
      RunIsWithinItsEnd(After(s, steps[0]), steps[1..], seconds);
    }
  }

  lemma StepKeepsSinceZero(s: State, step: Step)
    requires SinceZero(s) && Enabled(s, step)
    ensures SinceZero(After(s, step))
  {
    assert forall c :: After(s, step).PhaseOf(c).Holding? ==>
      After(s, step).PhaseOf(c).since == if s.PhaseOf(c).Holding? then s.PhaseOf(c).since else s.clock;
  }

  // A bound on the critical section keeps the applies well spaced exactly when it is at most
  // the lock's expiry.
  lemma SpacedExactlyWhen(seconds: real)
    ensures SafeWithin(seconds) <==> seconds <= LOCK_SECONDS
  {
    if seconds <= LOCK_SECONDS {
      forall s, steps | Initial(s) && Possible(s, steps) && AlwaysWithin(s, steps, seconds)
        ensures WellSpaced(Final(s, steps).history)
      {
        ShorterIsWithin(s, steps, seconds, LOCK_SECONDS);
        AppliesAreWellSpaced(s, steps);
      }
    } else {
      var s, steps := OverrunBreaksSpacing();
      RunIsWithinItsEnd(s, steps, seconds);
    }
  }

  // ----- What one call comes to ---------------------------------------------------------------

  // What a pod knows of the project: the shared record, or its own memory where there is none.
  ghost predicate Knows(s: State, pod: nat, status: Option<string>, at: Option<real>) {
    match s.record
    case Some(r) => r.status == status && r.updatedAt == at
    case None =>
      if pod in s.local then s.local[pod].status == status && s.local[pod].updatedAt == at
      else status == None && at == None
  }

  // Another status than the one asked for, and no time known or one a cooldown ago.
  ghost predicate Admits(status: Option<string>, at: Option<real>, req: Request, now: real) {
    status != Some(req.target) && (at == None || at.value + req.Cooldown() <= now)
  }

  ghost predicate Unlocked(s: State) {
    s.lock == None || s.lock.value.expiresAt <= s.clock
  }

  lemma ClearExactlyWhen(s: State, c: Call, req: Request, status: Option<string>, at: Option<real>)
    requires Knows(s, c.0, status, at)
    ensures Clear(s, c, req) <==> s.PhaseOf(c) == Idle && Unlocked(s) && Admits(status, at, req, s.clock)
    ensures Due(Effective(s, c.0, s.record), req, s.clock) <==> Admits(status, at, req, s.clock)
  {
  }

  // A call whose request the known status admits, and that finds the lock free, can go through:
  // it applies the status once, records it with the time in the shared record and in its pod's
  // memory, and gives the lock back.
  lemma LoneCallApplies(s: State, c: Call, req: Request, status: Option<string>, at: Option<real>)
    returns (steps: seq<Step>)
    requires s.PhaseOf(c) == Idle && Unlocked(s) && Knows(s, c.0, status, at) && Admits(status, at, req, s.clock)
    ensures Possible(s, steps)
    ensures Final(s, steps) ==
      s.(calls := s.calls[c := Idle], lock := None, nextToken := s.nextToken + 1,
         record := Some(Record(Some(req.target), Some(s.clock))),
         local := s.local[c.0 := Record(Some(req.target), Some(s.clock))],
         history := s.history + [Apply(req.target, req.Cooldown(), s.clock, s.clock)])
  {
    ClearExactlyWhen(s, c, req, status, at);
    steps := GetsToApply(s, [], c, req);
    steps := AppliesAndRecords(s, steps, c);
    assert Final(s, steps).PhaseOf(c) == Holding(req, s.nextToken, s.clock, Releasing);
    steps := Releases(s, steps, c);
    assert Final(s, steps).calls == s.calls[c := Idle];
  }

  lemma AppliesAndRecords(s: State, steps: seq<Step>, c: Call) returns (more: seq<Step>)
    requires Possible(s, steps)
    requires Final(s, steps).PhaseOf(c).Holding? && Final(s, steps).PhaseOf(c).stage.Applying?
    ensures Possible(s, more)
    ensures var f, p := Final(s, steps), Final(s, steps).PhaseOf(c);
      var r := Record(Some(p.req.target), Some(f.clock));
      Final(s, more) ==
      f.(calls := f.calls[c := p.(stage := Releasing)], record := Some(r), local := f.local[c.0 := r],
         history := f.history + [Apply(p.req.target, p.req.Cooldown(), p.stage.startedAt, f.clock)])
  {
    var f, p := Final(s, steps), Final(s, steps).PhaseOf(c);
    OneMoreStep(s, steps, ApplySucceeds(c));
    more := steps + [ApplySucceeds(c)];
    OneMoreStep(s, more, WriteRecord(c));
    more := more + [WriteRecord(c)];
    assert Final(s, more).calls == f.calls[c := p.(stage := Releasing)];
  }

  // Giving back one's own lock.
  lemma Releases(s: State, steps: seq<Step>, c: Call) returns (more: seq<Step>)
    requires Possible(s, steps)
    requires var f := Final(s, steps); var p := f.PhaseOf(c);
      && p.Holding? && p.stage == Releasing
      && f.lock.Some? && f.lock.value.token == p.token && f.clock < f.lock.value.expiresAt
    ensures Possible(s, more) && steps <= more
    ensures var f := Final(s, steps); Final(s, more) == f.(calls := f.calls[c := Idle], lock := None)
  {
    var f := Final(s, steps);
    OneMoreStep(s, steps, CheckToken(c));
    more := steps + [CheckToken(c)];
    OneMoreStep(s, more, DeleteLock(c));
    more := more + [DeleteLock(c)];
    assert Final(s, more).calls == f.calls[c := Idle];
  }

  // If the project service fails, the call leaves everything as it was.
  lemma FailingCallLeavesNoTrace(s: State, c: Call, req: Request, status: Option<string>, at: Option<real>)
    returns (steps: seq<Step>)
    requires s.PhaseOf(c) == Idle && Unlocked(s) && Knows(s, c.0, status, at) && Admits(status, at, req, s.clock)
    ensures Possible(s, steps) && ApplyFails(c) in steps
    ensures Final(s, steps) == s.(calls := s.calls[c := Idle], lock := None, nextToken := s.nextToken + 1)
  {
    ClearExactlyWhen(s, c, req, status, at);
    steps := GetsToApply(s, [], c, req);
    OneMoreStep(s, steps, ApplyFails(c));
    steps := steps + [ApplyFails(c)];
    assert Final(s, steps).PhaseOf(c) == Holding(req, s.nextToken, s.clock, Releasing);
    var failed := |steps| - 1;
    steps := Releases(s, steps, c);
    assert steps[failed] == ApplyFails(c);
    assert Final(s, steps).calls == s.calls[c := Idle];
  }

  // A call that finds the lock taken gives up.
  lemma LockedOutCallGivesUp(s: State, c: Call, req: Request, status: Option<string>, at: Option<real>)
    returns (steps: seq<Step>)
    requires s.PhaseOf(c) == Idle && !Unlocked(s) && Knows(s, c.0, status, at) && Admits(status, at, req, s.clock)
    ensures Possible(s, steps) && TryLock(c) in steps
    ensures Final(s, steps) == s.(calls := s.calls[c := Idle])
  {
    ClearExactlyWhen(s, c, req, status, at);
    steps := WantsLock(s, [], c, req);
    OneMoreStep(s, steps, TryLock(c));
    steps := steps + [TryLock(c)];
    assert Final(s, steps).calls == s.calls[c := Idle];
  }

  // A step of call c, on behalf of the request.
  ghost predicate OfCall(step: Step, c: Call, req: Request) {
    !step.Tick? && step.call == c && (step.Begin? ==> step.req == req)
  }

  // A call whose request the known status does not admit never gets to the lock: whatever it
  // does, as long as nobody else moves and no time passes, nothing but its phase changes.
  lemma {:induction false} NotAdmittedNeverApplies(
    s: State, steps: seq<Step>, c: Call, req: Request, status: Option<string>, at: Option<real>)
    requires Possible(s, steps) && forall step :: step in steps ==> OfCall(step, c, req)
    requires s.PhaseOf(c) in {Idle, Started(req), Read(req, s.record)}
    requires Knows(s, c.0, status, at) && !Admits(status, at, req, s.clock)
    ensures Final(s, steps) == s.(calls := Final(s, steps).calls)
    ensures Final(s, steps).PhaseOf(c) in {Idle, Started(req), Read(req, s.record)}
    decreases |steps|
  {
    if steps != [] {
      assert OfCall(steps[0], c, req);
      ClearExactlyWhen(s, c, req, status, at);
      var next := After(s, steps[0]);
      assert next == s.(calls := next.calls) && next.PhaseOf(c) in {Idle, Started(req), Read(req, s.record)};
      assert forall step :: step in steps[1..] ==> step in steps;
      NotAdmittedNeverApplies(next, steps[1..], c, req, status, at);
    }
  }

  // A lock that has passed to another call is not given back by mistake.
  lemma ForeignLockStays(s: State, c: Call)
    requires s.PhaseOf(c).Holding? && s.PhaseOf(c).stage == Releasing
    requires s.lock.Some? && s.lock.value.token != s.PhaseOf(c).token
    ensures var t := After(s, CheckToken(c));
      Enabled(t, DeleteLock(c)) && After(t, DeleteLock(c)).lock == s.lock
  {
  }
}
