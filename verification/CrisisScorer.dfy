// internal/crisis/usecase/assess_crisis.py: thresholds rewritten by the project's config,
// and the three-signal score.
module CrisisScorer {
  import opened Basics
  import opened Rounding

  datatype Table = Table(
    issueWatch: real, issueWarning: real, issueCritical: real,
    controversyWatch: real, controversyWarning: real, controversyCritical: real,
    sentimentWatch: real, sentimentWarning: real, sentimentCritical: real)

  const DEFAULTS := Table(5.0, 12.0, 25.0, 0.45, 0.65, 0.80, 0.40, 0.60, 0.75)

  // ----- The config ------------------------------------------------------------------------

  datatype VolumeLevel = WarningLevel | CriticalLevel | OtherLevel

  // Numbers that do not parse have already become 0.
  datatype VolumeRule = VolumeRule(level: VolumeLevel, growth: real) | MalformedVolume

  datatype SpikeRule = SpikeRule(isNegativeSpike: bool, percent: real) | MalformedSpike

  datatype ViralRule = ViralRule(isViralNegative: bool, minComments: real) | MalformedViral

  // A trigger that is absent has no rules; one that is malformed or disabled is off.
  datatype Trigger<Rule> = Off | On(rules: seq<Rule>)

  datatype Config = Config(volume: Trigger<VolumeRule>, sentiment: Trigger<SpikeRule>, influencer: Trigger<ViralRule>)

  function MaxReal(a: real, b: real): real { if b > a then b else a }
  function MinReal(a: real, b: real): real { if b < a then b else a }

  // ----- What each rewriting comes to ---------------------------------------------------------

  function VolumeStep(t: Table, r: VolumeRule): Table {
    if r.MalformedVolume? || r.growth <= 0.0 then t
    else
      var pressure := MaxReal(1.0, r.growth / 15.0);
      match r.level
      case WarningLevel => t.(issueWarning := pressure, issueWatch := MinReal(t.issueWatch, pressure * 0.45))
      case CriticalLevel => t.(issueCritical := pressure)
      case OtherLevel => t
  }

  function AfterVolume(t: Table, rules: seq<VolumeRule>): Table {
    if rules == [] then t else VolumeStep(AfterVolume(t, rules[..|rules| - 1]), rules[|rules| - 1])
  }

  predicate Spikes(r: SpikeRule) {
    r.SpikeRule? && r.isNegativeSpike && r.percent / 100.0 > 0.0
  }

  function SpikeStep(t: Table, r: SpikeRule): Table
    requires Spikes(r)
  {
    var warning := MinReal(MaxReal(r.percent / 100.0, 0.05), 0.95);
    t.(sentimentWarning := warning, sentimentWatch := MinReal(warning * 0.75, warning),
       sentimentCritical := MinReal(MaxReal(warning * 1.5, warning), 0.98))
  }

  // The first usable rule decides.
  function AfterSpikes(t: Table, rules: seq<SpikeRule>): Table {
    if rules == [] then t else if Spikes(rules[0]) then SpikeStep(t, rules[0]) else AfterSpikes(t, rules[1..])
  }

  function ViralComments(rules: seq<ViralRule>): seq<real> {
    if rules == [] then []
    else
      var r := rules[|rules| - 1];
      ViralComments(rules[..|rules| - 1]) + (if r.ViralRule? && r.isViralNegative then [r.minComments] else [])
  }

  function Least(xs: seq<real>): (m: real)
    requires xs != []
    ensures m in xs && forall x :: x in xs ==> m <= x
  {
    var n := |xs| - 1;
    if n == 0 then xs[0]
    else
      var before := Least(xs[..n]);
      assert xs == xs[..n] + [xs[n]];
      if xs[n] < before then xs[n] else before
  }

  function AfterViral(t: Table, rules: seq<ViralRule>): Table {
    var comments := ViralComments(rules);
    if comments == [] then t
    else
      var strictness := MinReal(MaxReal(Least(comments) / 200.0, 0.6), 2.0);
      var watch := MaxReal(0.25, 0.45 * strictness);
      var warning := MaxReal(watch, 0.65 * strictness);
      t.(controversyWatch := watch, controversyWarning := warning,
         controversyCritical := MaxReal(warning, MinReal(0.98, 0.80 * strictness)))
  }

  function RulesOf<R>(t: Trigger<R>): seq<R> {
    match t case Off => [] case On(rules) => rules
  }

  function ThresholdsFor(config: Option<Config>): Table {
    match config
    case None => DEFAULTS
    case Some(c) =>
      AfterViral(AfterSpikes(AfterVolume(DEFAULTS, RulesOf(c.volume)), RulesOf(c.sentiment)), RulesOf(c.influencer))
  }

  // ----- The dict of thresholds, rewritten in place ------------------------------------------------

  class Thresholds {
    var table: Table

    constructor ()
      ensures table == DEFAULTS
    {
      table := DEFAULTS;
    }

    method ApplyIssuePressure(trigger: Trigger<VolumeRule>)
      modifies this
      ensures table == AfterVolume(old(table), RulesOf(trigger))
    {
      if trigger.Off? {
        return;
      }
      for i := 0 to |trigger.rules|
        invariant table == AfterVolume(old(table), trigger.rules[..i])
      {
        assert trigger.rules[..i + 1][..i] == trigger.rules[..i];
        var r := trigger.rules[i];
        if r.MalformedVolume? || r.growth <= 0.0 {
          continue;
        }
        var pressure := MaxReal(1.0, r.growth / 15.0);
        if r.level == WarningLevel {
          table := table.(issueWarning := pressure);
          table := table.(issueWatch := MinReal(table.issueWatch, pressure * 0.45));
        } else if r.level == CriticalLevel {
          table := table.(issueCritical := pressure);
        }
      }
      assert trigger.rules[..|trigger.rules|] == trigger.rules;
    }

    method ApplySentimentCollapse(trigger: Trigger<SpikeRule>)
      modifies this
      ensures table == AfterSpikes(old(table), RulesOf(trigger))
    {
      if trigger.Off? {
        return;
      }
      for i := 0 to |trigger.rules|
        invariant table == old(table)
        invariant AfterSpikes(table, trigger.rules) == AfterSpikes(table, trigger.rules[i..])
      {
        var r := trigger.rules[i];
        assert trigger.rules[i..][1..] == trigger.rules[i + 1..];
        if r.MalformedSpike? || !r.isNegativeSpike {
          continue;
        }
        var warning := r.percent / 100.0;
        if warning > 0.0 {
          table := table.(sentimentWarning := MinReal(MaxReal(warning, 0.05), 0.95));
          table := table.(sentimentWatch := MinReal(table.sentimentWarning * 0.75, table.sentimentWarning));
          table := table.(sentimentCritical := MinReal(MaxReal(table.sentimentWarning * 1.5, table.sentimentWarning), 0.98));
          return;
        }
      }
    }

    method ApplyControversySpike(trigger: Trigger<ViralRule>)
      modifies this
      ensures table == AfterViral(old(table), RulesOf(trigger))
    {
      if trigger.Off? {
        return;
      }
      var comments := ViralComments(trigger.rules);
      if comments != [] {
        var strictness := MinReal(MaxReal(Least(comments) / 200.0, 0.6), 2.0);
        table := table.(controversyWatch := MaxReal(0.25, 0.45 * strictness));
        table := table.(controversyWarning := MaxReal(table.controversyWatch, 0.65 * strictness));
        table := table.(controversyCritical := MaxReal(table.controversyWarning, MinReal(0.98, 0.80 * strictness)));
      }
    }
  }

  method ThresholdsFromConfig(config: Option<Config>) returns (thresholds: Thresholds)
    ensures fresh(thresholds) && thresholds.table == ThresholdsFor(config)
  {
    thresholds := new Thresholds();
    if config.Some? {
      thresholds.ApplyIssuePressure(config.value.volume);
      thresholds.ApplySentimentCollapse(config.value.sentiment);
      thresholds.ApplyControversySpike(config.value.influencer);
    }
  }

  // ----- The order of thresholds -----------------------------------------------------------------------

  lemma {:induction false} VolumeKeepsOrder(t: Table, rules: seq<VolumeRule>)
    requires t.issueWatch <= t.issueWarning
    ensures var u := AfterVolume(t, rules);
      && u.issueWatch <= u.issueWarning
      && u == t.(issueWatch := u.issueWatch, issueWarning := u.issueWarning, issueCritical := u.issueCritical)
  {
    if rules != [] {
      VolumeKeepsOrder(t, rules[..|rules| - 1]);
    }
  }

  lemma {:induction false} SpikesKeepOrder(t: Table, rules: seq<SpikeRule>)
    requires t.sentimentWatch <= t.sentimentWarning <= t.sentimentCritical
    ensures var u := AfterSpikes(t, rules);
      && u.sentimentWatch <= u.sentimentWarning <= u.sentimentCritical
      && u == t.(sentimentWatch := u.sentimentWatch, sentimentWarning := u.sentimentWarning,
                 sentimentCritical := u.sentimentCritical)
  {
    if rules != [] && !Spikes(rules[0]) {
      SpikesKeepOrder(t, rules[1..]);
    }
  }

  // For every config: sentiment and controversy thresholds are fully ordered, and the issue
  // watch threshold never exceeds the issue warning threshold.
  lemma ThresholdsAreOrdered(config: Option<Config>)
    ensures var t := ThresholdsFor(config);
      && t.sentimentWatch <= t.sentimentWarning <= t.sentimentCritical
      && t.controversyWatch <= t.controversyWarning <= t.controversyCritical
      && t.issueWatch <= t.issueWarning
  {
    if config.Some? {
      var c := config.value;
      VolumeKeepsOrder(DEFAULTS, RulesOf(c.volume));
      SpikesKeepOrder(AfterVolume(DEFAULTS, RulesOf(c.volume)), RulesOf(c.sentiment));
    }
  }

  // The watch threshold is the least of its default and 0.45 times what each usable warning
  // rule makes of the warning threshold.
  ghost predicate WatchReaches(rules: seq<VolumeRule>, bound: real) {
    exists i :: 0 <= i < |rules| && UsableWarning(rules[i]) && 0.45 * Pressure(rules[i].growth) <= bound
  }

  // A fifteenth of the growth, and 1 for a growth of up to 15 percent.
  ghost function Pressure(growth: real): real {
    if growth <= 15.0 then 1.0 else growth / 15.0
  }

  lemma {:induction false} IssueWatchIsLeast(rules: seq<VolumeRule>, bound: real)
    ensures AfterVolume(DEFAULTS, rules).issueWatch <= bound <==> 5.0 <= bound || WatchReaches(rules, bound)
  {
    if rules != [] {
      var n := |rules| - 1;
      IssueWatchIsLeast(rules[..n], bound);
      if i :| 0 <= i < n && UsableWarning(rules[..n][i]) && 0.45 * Pressure(rules[..n][i].growth) <= bound {
        assert rules[i] == rules[..n][i];
      }
      if i :| 0 <= i < |rules| && UsableWarning(rules[i]) && 0.45 * Pressure(rules[i].growth) <= bound {
        assert i < n ==> rules[..n][i] == rules[i];
      }
    }
  }

  // The i-th rule is the first negative spike above 0 percent.
  ghost predicate FirstSpike(rules: seq<SpikeRule>, i: nat) {
    && i < |rules| && UsableSpike(rules[i])
    && forall j :: 0 <= j < i ==> !UsableSpike(rules[j])
  }

  ghost predicate UsableSpike(r: SpikeRule) {
    r.SpikeRule? && r.isNegativeSpike && r.percent > 0.0
  }

  // The first usable spike rule sets all three sentiment thresholds: its percentage, kept
  // between 0.05 and 0.95; three quarters of that; and one and a half times that, up to 0.98.
  lemma {:induction false} SentimentByFirstSpike(t: Table, rules: seq<SpikeRule>)
    ensures forall i: nat :: FirstSpike(rules, i) ==>
      var u, p := AfterSpikes(t, rules), rules[i].percent;
      && u == t.(sentimentWatch := u.sentimentWatch, sentimentWarning := u.sentimentWarning, sentimentCritical := u.sentimentCritical)
      && u.sentimentWarning == (if p <= 5.0 then 0.05 else if p >= 95.0 then 0.95 else p / 100.0)
      && u.sentimentWatch == 0.75 * u.sentimentWarning
      && u.sentimentCritical == (if 1.5 * u.sentimentWarning <= 0.98 then 1.5 * u.sentimentWarning else 0.98)
    ensures (forall i :: 0 <= i < |rules| ==> !UsableSpike(rules[i])) ==> AfterSpikes(t, rules) == t
  {
    if rules != [] && !UsableSpike(rules[0]) {
      SentimentByFirstSpike(t, rules[1..]);
      forall i: nat | FirstSpike(rules, i)
        ensures i > 0 && FirstSpike(rules[1..], i - 1) && rules[1..][i - 1] == rules[i]
      {
      }
      assert forall i :: 0 <= i < |rules| - 1 ==> rules[1..][i] == rules[i + 1];
    }
  }

  // The comment count of a viral-negative rule, least among these.
  ghost predicate LeastViral(rules: seq<ViralRule>, comments: real) {
    && (exists i :: 0 <= i < |rules| && rules[i] == ViralRule(true, comments))
    && forall i :: 0 <= i < |rules| && rules[i].ViralRule? && rules[i].isViralNegative ==> comments <= rules[i].minComments
  }

  lemma {:induction false} ViralCommentsAre(rules: seq<ViralRule>, x: real)
    ensures x in ViralComments(rules) <==> exists i :: 0 <= i < |rules| && rules[i] == ViralRule(true, x)
  {
    if rules != [] {
      var n := |rules| - 1;
      ViralCommentsAre(rules[..n], x);
      if i :| 0 <= i < n && rules[..n][i] == ViralRule(true, x) {
        assert rules[i] == ViralRule(true, x);
      }
      if i :| 0 <= i < |rules| && rules[i] == ViralRule(true, x) {
        assert i < n ==> rules[..n][i] == ViralRule(true, x);
      }
    }
  }

  // The least comment count scales the three controversy thresholds, by a two-hundredth of it
  // kept between 0.6 and 2; only the critical one is cut off, at 0.98 or the warning one.
  lemma ControversyByLeast(t: Table, rules: seq<ViralRule>, comments: real)
    ensures LeastViral(rules, comments) ==>
      var u, k := AfterViral(t, rules), if comments <= 120.0 then 0.6 else if comments >= 400.0 then 2.0 else comments / 200.0;
      && u == t.(controversyWatch := u.controversyWatch, controversyWarning := u.controversyWarning,
                 controversyCritical := u.controversyCritical)
      && u.controversyWatch == 0.45 * k && u.controversyWarning == 0.65 * k
      && (0.80 * k <= 0.98 ==> u.controversyCritical == 0.80 * k)
      && (0.80 * k > 0.98 ==> u.controversyCritical == if 0.65 * k > 0.98 then 0.65 * k else 0.98)
    ensures (forall i :: 0 <= i < |rules| && rules[i].ViralRule? ==> !rules[i].isViralNegative) ==> AfterViral(t, rules) == t
  {
    var xs := ViralComments(rules);
    ViralCommentsAre(rules, comments);
    if xs != [] {
      ViralCommentsAre(rules, Least(xs));
    }
  }

  // The growth of the last usable rule of a level, or the growth behind the default.
  function LastGrowth(rules: seq<VolumeRule>, level: VolumeLevel, default: real): real {
    if rules == [] then default
    else
      var r := rules[|rules| - 1];
      if r.VolumeRule? && r.level == level && r.growth > 0.0 then r.growth
      else LastGrowth(rules[..|rules| - 1], level, default)
  }

  lemma {:induction false} IssueThresholdsByGrowth(rules: seq<VolumeRule>)
    ensures var t := AfterVolume(DEFAULTS, rules);
      && t.issueWarning == MaxReal(1.0, LastGrowth(rules, WarningLevel, 180.0) / 15.0)
      && t.issueCritical == MaxReal(1.0, LastGrowth(rules, CriticalLevel, 375.0) / 15.0)
  {
    if rules != [] {
      IssueThresholdsByGrowth(rules[..|rules| - 1]);
    }
  }

  // Issue pressure is the one signal whose warning and critical thresholds may cross: they
  // are ordered exactly when the effective warning growth is at most the effective critical
  // growth, or at most the 15 percent below which every threshold is 1.
  lemma IssueOrderedExactlyWhen(rules: seq<VolumeRule>)
    ensures var t := AfterVolume(DEFAULTS, rules);
      t.issueWarning <= t.issueCritical <==>
        LastGrowth(rules, WarningLevel, 180.0) <= LastGrowth(rules, CriticalLevel, 375.0)
        || LastGrowth(rules, WarningLevel, 180.0) <= 15.0
  {
    IssueThresholdsByGrowth(rules);
  }

  // Whether some usable warning rule brings the watch threshold down to `bound` percent.
  ghost predicate WatchLowered(rules: seq<VolumeRule>, bound: real) {
    exists i :: 0 <= i < |rules| && UsableWarning(rules[i]) && 0.45 * rules[i].growth <= bound
  }

  predicate UsableWarning(r: VolumeRule) {
    r.VolumeRule? && r.level == WarningLevel && r.growth > 0.0
  }

  lemma {:induction false} IssueWatchByGrowth(rules: seq<VolumeRule>, bound: real)
    requires bound >= 15.0
    ensures AfterVolume(DEFAULTS, rules).issueWatch <= bound / 15.0 <==> bound >= 75.0 || WatchLowered(rules, bound)
  {
    if rules != [] {
      var n := |rules| - 1;
      IssueWatchByGrowth(rules[..n], bound);
      LoweredByLast(rules, bound);
    }
  }

  lemma LoweredByLast(rules: seq<VolumeRule>, bound: real)
    requires rules != []
    ensures var n := |rules| - 1;
      WatchLowered(rules, bound) <==>
        WatchLowered(rules[..n], bound) || (UsableWarning(rules[n]) && 0.45 * rules[n].growth <= bound)
  {
    var n := |rules| - 1;
    if i :| 0 <= i < n && UsableWarning(rules[..n][i]) && 0.45 * rules[..n][i].growth <= bound {
      assert rules[i] == rules[..n][i];
    }
    if i :| 0 <= i < |rules| && UsableWarning(rules[i]) && 0.45 * rules[i].growth <= bound {
      assert i < n ==> rules[..n][i] == rules[i];
    }
  }

  // The issue watch threshold may exceed the critical one too, since a critical rule alone
  // can go below the default watch threshold of 5.  The two are ordered exactly when the
  // effective critical growth is at least 75 percent, or 0.45 times the growth of some usable
  // warning rule is at most that critical growth, or at most 15.
  lemma IssueWatchOrderedExactlyWhen(rules: seq<VolumeRule>)
    ensures var t, critical := AfterVolume(DEFAULTS, rules), LastGrowth(rules, CriticalLevel, 375.0);
      t.issueWatch <= t.issueCritical <==> critical >= 75.0 || WatchLowered(rules, MaxReal(15.0, critical))
  {
    IssueThresholdsByGrowth(rules);
    IssueWatchByGrowth(rules, MaxReal(15.0, LastGrowth(rules, CriticalLevel, 375.0)));
  }

  lemma IssueWatchCanExceedCritical()
    ensures var t := AfterVolume(DEFAULTS, [VolumeRule(CriticalLevel, 15.0)]);
      t.issueWatch == 5.0 && t.issueCritical == 1.0
  {
    assert [VolumeRule(CriticalLevel, 15.0)][..0] == [];
  }

  lemma IssueThresholdsCanCross()
    ensures var t := AfterVolume(DEFAULTS, [VolumeRule(WarningLevel, 600.0)]);
      t.issueWarning == 40.0 && t.issueCritical == 25.0
  {
    assert [VolumeRule(WarningLevel, 600.0)][..0] == [];
  }

  // ----- Scoring ------------------------------------------------------------------------------------------

  datatype Severity = Low | Medium | High | CriticalLike

  datatype SignalType = IssuePressure | ControversySpike | SentimentCollapse

  datatype Signal = Signal(kind: SignalType, severity: Severity, evidence: real, threshold: real)

  datatype Level = NoCrisis | Watch | Warning | Critical

  function LevelRank(l: Level): nat {
    match l case NoCrisis => 0 case Watch => 1 case Warning => 2 case Critical => 3
  }

  // The severity weights, in tenths.
  function Tenths(s: Severity): nat {
    match s case Low => 3 case Medium => 10 case High => 18 case CriticalLike => 25
  }

  function Weight(s: Severity): real {
    Tenths(s) as real / 10.0
  }

  function PressureSeverity(t: Table, x: real): Severity {
    if x >= t.issueCritical then CriticalLike else if x >= t.issueWarning then High else Medium
  }

  function ControversySeverity(t: Table, x: real): Severity {
    if x >= t.controversyCritical then CriticalLike else if x >= t.controversyWarning then High else Medium
  }

  function RatioSeverity(t: Table, x: real): Severity {
    if x >= t.sentimentCritical then High else if x >= t.sentimentWarning then Medium else Low
  }

  function WeightSum(signals: seq<Signal>): real {
    if signals == [] then 0.0 else WeightSum(signals[..|signals| - 1]) + Weight(signals[|signals| - 1].severity)
  }

  function CompositeScore(signals: seq<Signal>): real {
    Round4(WeightSum(signals))
  }

  function CrisisLevel(composite: real, signals: seq<Signal>): Level {
    if (exists s :: s in signals && s.severity == CriticalLike) || composite >= 5.0 then Critical
    else if composite >= 2.5 then Warning
    else if composite >= 0.8 then Watch
    else NoCrisis
  }

  function TenthSum(signals: seq<Signal>): nat {
    if signals == [] then 0 else TenthSum(signals[..|signals| - 1]) + Tenths(signals[|signals| - 1].severity)
  }

  // Weights are tenths, so rounding to four places changes nothing.
  lemma {:induction false} CompositeIsExact(signals: seq<Signal>)
    ensures WeightSum(signals) == TenthSum(signals) as real / 10.0
    ensures CompositeScore(signals) == WeightSum(signals)
  {
    if signals != [] {
      CompositeIsExact(signals[..|signals| - 1]);
    }
    RoundingExact(TenthSum(signals) * 1000);
    assert WeightSum(signals) * 10000.0 == (TenthSum(signals) * 1000) as real;
  }

  // What the reports say: the first issue's pressure, the first thread's controversy, and
  // the share of entities losing mentions, each if there is one.
  datatype Reports = Reports(pressures: seq<real>, controversies: seq<real>, deltas: seq<int>)

  function First(xs: seq<real>): Option<real> {
    if xs == [] then None else Some(xs[0])
  }

  function Negatives(deltas: seq<int>): nat {
    if deltas == [] then 0 else Negatives(deltas[..|deltas| - 1]) + (if deltas[|deltas| - 1] < 0 then 1 else 0)
  }

  function Ratio(deltas: seq<int>): Option<real> {
    if deltas == [] then None else Some(Negatives(deltas) as real / |deltas| as real)
  }

  datatype Assessment = Assessment(level: Level, signals: seq<Signal>, composite: real, topPressure: real, topControversy: real)

  // The signals as a function of the three measurements.
  function IssueSignal(t: Table, x: Option<real>): seq<Signal> {
    if x.Some? && x.value >= t.issueWatch then [Signal(IssuePressure, PressureSeverity(t, x.value), x.value, t.issueWatch)] else []
  }

  function ControversySignal(t: Table, x: Option<real>): seq<Signal> {
    if x.Some? && x.value >= t.controversyWatch then
      [Signal(ControversySpike, ControversySeverity(t, x.value), x.value, t.controversyWatch)]
    else []
  }

  function SentimentSignal(t: Table, x: Option<real>): seq<Signal> {
    if x.Some? && x.value >= t.sentimentWatch then
      [Signal(SentimentCollapse, RatioSeverity(t, x.value), Round4(x.value), t.sentimentWatch)]
    else []
  }

  function SignalsFor(t: Table, pressure: Option<real>, controversy: Option<real>, ratio: Option<real>): seq<Signal> {
    IssueSignal(t, pressure) + ControversySignal(t, controversy) + SentimentSignal(t, ratio)
  }

  function LevelFor(t: Table, pressure: Option<real>, controversy: Option<real>, ratio: Option<real>): Level {
    var signals := SignalsFor(t, pressure, controversy, ratio);
    CrisisLevel(CompositeScore(signals), signals)
  }

  method CountNegativeEntities(deltas: seq<int>) returns (negative: nat, total: nat)
    ensures negative == Negatives(deltas) && total == |deltas| && negative <= total
  {
    negative, total := 0, |deltas|;
    for i := 0 to |deltas|
      invariant negative == Negatives(deltas[..i]) && negative <= i
    {
      assert deltas[..i + 1][..i] == deltas[..i];
      if deltas[i] < 0 {
        negative := negative + 1;
      }
    }
    assert deltas[..|deltas|] == deltas;
  }

  method CollectSignals(t: Table, reports: Reports) returns (signals: seq<Signal>)
    ensures signals == SignalsFor(t, First(reports.pressures), First(reports.controversies), Ratio(reports.deltas))
  {
    signals := [];
    if reports.pressures != [] {
      var pressure := reports.pressures[0];
      if pressure >= t.issueWatch {
        signals := signals + [Signal(IssuePressure, PressureSeverity(t, pressure), pressure, t.issueWatch)];
      }
    }
    assert signals == IssueSignal(t, First(reports.pressures));
    if reports.controversies != [] {
      var score := reports.controversies[0];
      if score >= t.controversyWatch {
        signals := signals + [Signal(ControversySpike, ControversySeverity(t, score), score, t.controversyWatch)];
      }
    }
    assert signals == IssueSignal(t, First(reports.pressures)) + ControversySignal(t, First(reports.controversies));
    var negative, total := CountNegativeEntities(reports.deltas);
    if total > 0 {
      var ratio := negative as real / total as real;
      if ratio >= t.sentimentWatch {
        signals := signals + [Signal(SentimentCollapse, RatioSeverity(t, ratio), Round4(ratio), t.sentimentWatch)];
      }
    }
  }

  method AssessCrisis(reports: Reports, config: Option<Config>) returns (a: Assessment)
    ensures var t := ThresholdsFor(config);
      var p, c, r := First(reports.pressures), First(reports.controversies), Ratio(reports.deltas);
      && a.signals == SignalsFor(t, p, c, r)
      && a.level == LevelFor(t, p, c, r)
      && a.composite == WeightSum(a.signals)
      && a.topPressure == (if p.Some? then p.value else 0.0) && a.topControversy == (if c.Some? then c.value else 0.0)
  {
    var thresholds := ThresholdsFromConfig(config);
    var signals := CollectSignals(thresholds.table, reports);
    CompositeIsExact(signals);
    var composite := CompositeScore(signals);
    a := Assessment(CrisisLevel(composite, signals), signals, composite,
                    if reports.pressures != [] then reports.pressures[0] else 0.0,
                    if reports.controversies != [] then reports.controversies[0] else 0.0);
  }

  // ----- Monotonicity ---------------------------------------------------------------------------------------

  // A measurement that appears, or rises.
  ghost predicate Rises(x: Option<real>, y: Option<real>) {
    x.None? || (y.Some? && x.value <= y.value)
  }

  // A signal's contribution: its tenths. 25 is critical.
  ghost function Points(signals: seq<Signal>): (n: nat)
    requires |signals| <= 1
    ensures n <= 25
  {
    if signals == [] then 0 else Tenths(signals[0].severity)
  }

  ghost function LevelOfPoints(p: nat, c: nat, r: nat): Level {
    if p == 25 || c == 25 || r == 25 || p + c + r >= 50 then Critical
    else if p + c + r >= 25 then Warning
    else if p + c + r >= 8 then Watch
    else NoCrisis
  }

  // The level is decided by the three contributions.
  lemma LevelByPoints(t: Table, pressure: Option<real>, controversy: Option<real>, ratio: Option<real>)
    ensures LevelFor(t, pressure, controversy, ratio) ==
      LevelOfPoints(Points(IssueSignal(t, pressure)), Points(ControversySignal(t, controversy)), Points(SentimentSignal(t, ratio)))
  {
    SignalsByPoints(IssueSignal(t, pressure), ControversySignal(t, controversy), SentimentSignal(t, ratio));
  }

  lemma SignalsByPoints(i: seq<Signal>, c: seq<Signal>, s: seq<Signal>)
    requires |i| <= 1 && |c| <= 1 && |s| <= 1
    ensures CrisisLevel(CompositeScore(i + c + s), i + c + s) == LevelOfPoints(Points(i), Points(c), Points(s))
  {
    TenthSumAppend(i + c, s);
    TenthSumAppend(i, c);
    OneSignal(i);
    OneSignal(c);
    OneSignal(s);
    CompositeIsExact(i + c + s);
    CriticalSomewhere(i, c, s);
  }

  lemma OneSignal(signals: seq<Signal>)
    requires |signals| <= 1
    ensures TenthSum(signals) == Points(signals)
    ensures Points(signals) == 25 <==> exists x :: x in signals && x.severity == CriticalLike
  {
    if signals != [] {
      assert signals[..0] == [];
      assert signals[0] in signals;
    }
  }

  lemma CriticalSomewhere(a: seq<Signal>, b: seq<Signal>, c: seq<Signal>)
    ensures (exists x :: x in a + b + c && x.severity == CriticalLike) <==>
      (exists x :: x in a && x.severity == CriticalLike) || (exists x :: x in b && x.severity == CriticalLike)
      || (exists x :: x in c && x.severity == CriticalLike)
  {
    assert forall x :: x in a + b + c <==> x in a || x in b || x in c;
  }

  lemma {:induction false} TenthSumAppend(a: seq<Signal>, b: seq<Signal>)
    ensures TenthSum(a + b) == TenthSum(a) + TenthSum(b)
  {
    if b == [] {
      assert a + b == a;
    } else {
      TenthSumAppend(a, b[..|b| - 1]);
      assert (a + b)[..|a + b| - 1] == a + b[..|b| - 1];
    }
  }

  lemma IssuePointsRise(t: Table, x: Option<real>, y: Option<real>)
    requires Rises(x, y)
    ensures Points(IssueSignal(t, x)) <= Points(IssueSignal(t, y))
  {
  }

  lemma ControversyPointsRise(t: Table, x: Option<real>, y: Option<real>)
    requires Rises(x, y)
    ensures Points(ControversySignal(t, x)) <= Points(ControversySignal(t, y))
  {
  }

  lemma SentimentPointsRise(t: Table, x: Option<real>, y: Option<real>)
    requires Rises(x, y)
    ensures Points(SentimentSignal(t, x)) <= Points(SentimentSignal(t, y))
  {
  }

  // For any thresholds, ordered or not: the level never drops when a measurement rises.
  lemma LevelIsMonotone(
    t: Table, p: Option<real>, c: Option<real>, r: Option<real>, p': Option<real>, c': Option<real>, r': Option<real>)
    requires Rises(p, p') && Rises(c, c') && Rises(r, r')
    ensures LevelRank(LevelFor(t, p, c, r)) <= LevelRank(LevelFor(t, p', c', r'))
  {
    LevelByPoints(t, p, c, r);
    LevelByPoints(t, p', c', r');
    IssuePointsRise(t, p, p');
    ControversyPointsRise(t, c, c');
    SentimentPointsRise(t, r, r');
  }

  // What it takes, in measurements: a critical issue or thread signal, or all three signals
  // at their highest below that; and one signal alone is never a warning.
  lemma CriticalExactlyWhen(t: Table, p: Option<real>, c: Option<real>, r: Option<real>)
    ensures LevelFor(t, p, c, r) == Critical <==>
      || (p.Some? && p.value >= t.issueWatch && p.value >= t.issueCritical)
      || (c.Some? && c.value >= t.controversyWatch && c.value >= t.controversyCritical)
      || (&& p.Some? && p.value >= t.issueWatch && p.value >= t.issueWarning
          && c.Some? && c.value >= t.controversyWatch && c.value >= t.controversyWarning
          && r.Some? && r.value >= t.sentimentWatch && r.value >= t.sentimentCritical)
  {
    LevelByPoints(t, p, c, r);
    IssuePointsAre(t, p);
    ControversyPointsAre(t, c);
    SentimentPointsAre(t, r);
  }

  // A warning at least: a critical issue or thread; an issue and a thread of which one is high;
  // an issue or a thread with the sentiment at its highest, or a high one with the sentiment at
  // a medium at least; or all three with such a sentiment.
  lemma WarningExactlyWhen(t: Table, p: Option<real>, c: Option<real>, r: Option<real>)
    ensures var i, j, s := Grade(p, t.issueWatch, t.issueWarning, t.issueCritical),
        Grade(c, t.controversyWatch, t.controversyWarning, t.controversyCritical),
        Grade(r, t.sentimentWatch, t.sentimentWarning, t.sentimentCritical);
      LevelRank(LevelFor(t, p, c, r)) >= 2 <==>
        || i == 3 || j == 3
        || (i >= 1 && j >= 1 && (i == 2 || j == 2 || s >= 2))
        || ((i == 2 || j == 2) && s >= 2)
        || ((i >= 1 || j >= 1) && s == 3)
  {
    LevelByPoints(t, p, c, r);
    PointsByGrade(t, p, c, r);
  }

  // A watch at least: an issue, a thread, or the sentiment at a medium at least.
  lemma WatchExactlyWhen(t: Table, p: Option<real>, c: Option<real>, r: Option<real>)
    ensures LevelFor(t, p, c, r) != NoCrisis <==>
      || Grade(p, t.issueWatch, t.issueWarning, t.issueCritical) >= 1
      || Grade(c, t.controversyWatch, t.controversyWarning, t.controversyCritical) >= 1
      || Grade(r, t.sentimentWatch, t.sentimentWarning, t.sentimentCritical) >= 2
  {
    LevelByPoints(t, p, c, r);
    PointsByGrade(t, p, c, r);
  }

  // How far a measurement has come: 0 below the watch threshold, then 3, 2 or 1.
  ghost function Grade(x: Option<real>, watch: real, warning: real, critical: real): nat {
    match x
    case None => 0
    case Some(v) => if v < watch then 0 else if v >= critical then 3 else if v >= warning then 2 else 1
  }

  lemma PointsByGrade(t: Table, p: Option<real>, c: Option<real>, r: Option<real>)
    ensures Points(IssueSignal(t, p)) == [0, 10, 18, 25][Grade(p, t.issueWatch, t.issueWarning, t.issueCritical)]
    ensures Points(ControversySignal(t, c)) == [0, 10, 18, 25][Grade(c, t.controversyWatch, t.controversyWarning, t.controversyCritical)]
    ensures Points(SentimentSignal(t, r)) == [0, 3, 10, 18][Grade(r, t.sentimentWatch, t.sentimentWarning, t.sentimentCritical)]
  {
  }

  // A signal is raised for each measurement that reaches its watch threshold, in this order,
  // with the measurement as evidence (the sentiment's to four places) and that threshold.
  lemma SignalsSay(t: Table, p: Option<real>, c: Option<real>, r: Option<real>, s: Signal)
    ensures s in SignalsFor(t, p, c, r) <==>
      || (Grade(p, t.issueWatch, t.issueWarning, t.issueCritical) >= 1 && s.kind == IssuePressure
          && s.evidence == p.value && s.threshold == t.issueWatch
          && s.severity == [Medium, High, CriticalLike][Grade(p, t.issueWatch, t.issueWarning, t.issueCritical) - 1])
      || (Grade(c, t.controversyWatch, t.controversyWarning, t.controversyCritical) >= 1 && s.kind == ControversySpike
          && s.evidence == c.value && s.threshold == t.controversyWatch
          && s.severity == [Medium, High, CriticalLike][Grade(c, t.controversyWatch, t.controversyWarning, t.controversyCritical) - 1])
      || (Grade(r, t.sentimentWatch, t.sentimentWarning, t.sentimentCritical) >= 1 && s.kind == SentimentCollapse
          && s.evidence == Round4(r.value) && s.threshold == t.sentimentWatch
          && s.severity == [Low, Medium, High][Grade(r, t.sentimentWatch, t.sentimentWarning, t.sentimentCritical) - 1])
  {
  }

  ghost function Falling(deltas: seq<int>): set<nat> {
    set i: nat | i < |deltas| && deltas[i] < 0
  }

  // The number of entities that lose mentions.
  lemma {:induction false} NegativesAreFalling(deltas: seq<int>)
    ensures Negatives(deltas) == |Falling(deltas)|
  {
    if deltas == [] {
      assert Falling(deltas) == {};
    } else {
      var n := |deltas| - 1;
      NegativesAreFalling(deltas[..n]);
      assert Falling(deltas) == Falling(deltas[..n]) + (if deltas[n] < 0 then {n} else {});
    }
  }

  lemma IssuePointsAre(t: Table, x: Option<real>)
    ensures var n := Points(IssueSignal(t, x));
      && n in {0, 10, 18, 25}
      && (n == 25 <==> x.Some? && x.value >= t.issueWatch && x.value >= t.issueCritical)
      && (n >= 18 <==> x.Some? && x.value >= t.issueWatch && (x.value >= t.issueCritical || x.value >= t.issueWarning))
  {
  }

  lemma ControversyPointsAre(t: Table, x: Option<real>)
    ensures var n := Points(ControversySignal(t, x));
      && n in {0, 10, 18, 25}
      && (n == 25 <==> x.Some? && x.value >= t.controversyWatch && x.value >= t.controversyCritical)
      && (n >= 18 <==>
            x.Some? && x.value >= t.controversyWatch && (x.value >= t.controversyCritical || x.value >= t.controversyWarning))
  {
  }

  lemma SentimentPointsAre(t: Table, x: Option<real>)
    ensures var n := Points(SentimentSignal(t, x));
      && n in {0, 3, 10, 18}
      && (n == 18 <==> x.Some? && x.value >= t.sentimentWatch && x.value >= t.sentimentCritical)
  {
  }

  lemma SentimentAloneOnlyWatches(t: Table, r: Option<real>)
    ensures LevelFor(t, None, None, r) in {NoCrisis, Watch}
    ensures LevelFor(t, None, None, r) == Watch <==>
      r.Some? && r.value >= t.sentimentWatch && (r.value >= t.sentimentWarning || r.value >= t.sentimentCritical)
  {
    LevelByPoints(t, None, None, r);
  }
}
