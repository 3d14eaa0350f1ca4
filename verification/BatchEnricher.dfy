// internal/analytics/usecase/batch_enricher.py: enriching a batch in three phases, with one
// sentiment call for all records, against enriching record by record.
module BatchEnricher {
  import opened Basics
  import opened Texts

  datatype Keyword = Keyword(keyword: string, aspect: string, score: real, source: string)

  datatype SentimentInput = SentimentInput(text: string, keywords: seq<Keyword>, intent: string)

  datatype AspectSentiment = AspectSentiment(
    polarity: string, score: real, confidence: real, keywords: seq<string>, mentions: int, rating: int)

  // One entry of the aspects breakdown.
  datatype AspectEntry = AspectEntry(
    aspect: string, polarity: string, confidence: real, score: real, evidence: string, mentions: int, rating: int)

  // No probabilities is the empty dict or None.
  datatype SentimentOutput = SentimentOutput(
    overall: string, score: real, confidence: real, probabilities: seq<real>, aspects: seq<(string, AspectSentiment)>)

  datatype Impact = Impact(
    score: real, riskLevel: string, isViral: bool, isKol: bool, engagement: real, virality: real, influence: real,
    riskFactors: seq<string>, breakdown: seq<real>)

  // What an analytics result holds, without its random id and its timings.
  datatype Analytics = Analytics(
    projectId: string, platform: string, isSpam: bool, spamReasons: seq<string>, riskLevel: string, status: string,
    intent: string, intentConfidence: real, keywords: seq<string>,
    overall: string, score: real, confidence: real, probabilities: seq<real>, aspects: seq<AspectEntry>,
    impact: real, isViral: bool, isKol: bool, engagement: real, virality: real, influence: real,
    riskFactors: seq<string>, breakdown: seq<real>, relevance: real, relevanceReasons: seq<string>)

  datatype Preprocessed = Preprocessed(isSpam: bool, spamReasons: seq<string>, cleanText: string)

  datatype Intent = Intent(name: string, confidence: real, shouldSkip: bool)

  // The stages are foreign; a stage that is switched off is None, and so is the outcome of
  // one that raises.
  datatype Stages<!Record, !Message> = Stages(
    base: Record -> Option<Analytics>,
    text: Record -> string,
    preprocess: Option<string -> Option<Preprocessed>>,
    classify: Option<string -> Option<Intent>>,
    extract: Option<string -> Option<seq<Keyword>>>,
    sentiment: Option<seq<SentimentInput> -> Option<seq<SentimentOutput>>>,
    impact: Option<(Record, string, real, string) -> Option<Impact>>,
    relevance: (Record, Analytics, string) -> Option<(real, seq<string>)>,
    build: Option<(Record, Analytics) -> Option<Message>>)

  // A fact by its content.
  datatype Fact<Record, Message> = Fact(record: Record, message: Message, analytics: Analytics)

  // A record after stages 1 to 3, by content.
  datatype Staged<Record> = Staged(record: Record, analytics: Analytics, fullText: string, keywords: seq<Keyword>, skip: bool)

  // ----- One record ------------------------------------------------------------------------

  function Stage1<R, M>(st: Stages<R, M>, text: string, a: Analytics): (Analytics, string) {
    if st.preprocess.None? then (a, text)
    else
      match st.preprocess.value(text)
      case None => (a, text)
      case Some(p) =>
        var b := a.(isSpam := p.isSpam, spamReasons := p.spamReasons);
        (if p.isSpam then b.(riskLevel := "LOW", status := "success_spam") else b, p.cleanText)
  }

  // Also says whether the record is to skip the stages after this one.
  function Stage2<R, M>(st: Stages<R, M>, text: string, a: Analytics): (Analytics, bool) {
    if st.classify.None? then (a, false)
    else
      match st.classify.value(text)
      case None => (a, false)
      case Some(i) =>
        var b := a.(intent := i.name, intentConfidence := i.confidence);
        if i.shouldSkip then (b.(status := "success_skipped", riskLevel := "LOW"), true) else (b, false)
  }

  function Stage3<R, M>(st: Stages<R, M>, text: string, a: Analytics): (Analytics, seq<Keyword>) {
    if st.extract.None? then (a, [])
    else
      match st.extract.value(text)
      case None => (a, [])
      case Some(kws) => (a.(keywords := Names(kws)), kws)
  }

  function Names(kws: seq<Keyword>): seq<string> {
    seq(|kws|, i requires 0 <= i < |kws| => kws[i].keyword)
  }

  function RunStages1To3<R, M>(st: Stages<R, M>, r: R): Option<Staged<R>> {
    match st.base(r)
    case None => None
    case Some(a0) =>
      var (a1, text) := Stage1(st, st.text(r), a0);
      var (a2, skip) := Stage2(st, text, a1);
      if skip then Some(Staged(r, a2, text, [], true))
      else
        var (a3, kws) := Stage3(st, text, a2);
        Some(Staged(r, a3, text, kws, false))
  }

  function InputOf<R>(staged: Staged<R>): SentimentInput {
    SentimentInput(staged.fullText, staged.keywords, staged.analytics.intent)
  }

  // The first three keywords are an aspect's evidence.
  function EntryOf(p: (string, AspectSentiment)): AspectEntry {
    var (name, a) := p;
    var evidence := Join(if |a.keywords| <= 3 then a.keywords else a.keywords[..3], ", ");
    AspectEntry(name, a.polarity, a.confidence, a.score, evidence, a.mentions, a.rating)
  }

  // An empty set of probabilities or aspects leaves what was there.
  function WithSentiment(a: Analytics, out: SentimentOutput): Analytics {
    a.(overall := out.overall, score := out.score, confidence := out.confidence,
       probabilities := if out.probabilities != [] then out.probabilities else a.probabilities,
       aspects := if out.aspects != [] then Mapped(EntryOf, out.aspects) else a.aspects)
  }

  function WithImpact(a: Analytics, out: Option<Impact>): Analytics {
    match out
    case None => a
    case Some(i) =>
      a.(impact := i.score, riskLevel := i.riskLevel, isViral := i.isViral, isKol := i.isKol,
         engagement := i.engagement, virality := i.virality, influence := i.influence, riskFactors := i.riskFactors,
         breakdown := if i.breakdown != [] then i.breakdown else a.breakdown)
  }

  // Phase 3 for one record, given its sentiment if there is one.
  function Finish<R, M>(st: Stages<R, M>, staged: Staged<R>, sentiment: Option<SentimentOutput>): Option<Fact<R, M>> {
    var a1 := if sentiment.Some? then WithSentiment(staged.analytics, sentiment.value) else staged.analytics;
    var a2 :=
      if !staged.skip && st.impact.Some? then WithImpact(a1, st.impact.value(staged.record, a1.overall, a1.score, staged.fullText))
      else a1;
    match st.relevance(staged.record, a2, staged.fullText)
    case None => None
    case Some((score, reasons)) =>
      var a3 := a2.(relevance := score, relevanceReasons := reasons);
      if st.build.None? then None
      else
        match st.build.value(staged.record, a3)
        case None => None
        case Some(message) => Some(Fact(staged.record, message, a3))
  }

  function EnrichOne<R, M>(st: Stages<R, M>, r: R, sentiment: Option<SentimentOutput>): Option<Fact<R, M>> {
    match RunStages1To3(st, r)
    case None => None
    case Some(staged) => Finish(st, staged, sentiment)
  }

  // ----- What a fact says --------------------------------------------------------------------

  // The text the stages work on: cleaned, unless there is no preprocessing or it raises.
  ghost predicate WorksOn<R, M>(st: Stages<R, M>, r: R, text: string) {
    match st.preprocess
    case None => text == st.text(r)
    case Some(clean) => match clean(st.text(r)) case None => text == st.text(r) case Some(p) => text == p.cleanText
  }

  ghost predicate FoundSpam<R, M>(st: Stages<R, M>, r: R) {
    match st.preprocess
    case None => false
    case Some(clean) => match clean(st.text(r)) case None => false case Some(p) => p.isSpam
  }

  ghost predicate ToldToSkip<R, M>(st: Stages<R, M>, text: string) {
    match st.classify
    case None => false
    case Some(classify) => match classify(text) case None => false case Some(i) => i.shouldSkip
  }

  ghost predicate SameSource(a: Analytics, b: Analytics) {
    a.projectId == b.projectId && a.platform == b.platform
  }

  ghost predicate SameSentiment(a: Analytics, b: Analytics) {
    && a.overall == b.overall && a.score == b.score && a.confidence == b.confidence
    && a.probabilities == b.probabilities && a.aspects == b.aspects
  }

  ghost predicate SameImpact(a: Analytics, b: Analytics) {
    && a.impact == b.impact && a.isViral == b.isViral && a.isKol == b.isKol && a.engagement == b.engagement
    && a.virality == b.virality && a.influence == b.influence && a.riskFactors == b.riskFactors && a.breakdown == b.breakdown
  }

  // The sentiment's figures; no probabilities, or no aspects, leave those of before.
  ghost predicate CarriesSentiment(a: Analytics, out: SentimentOutput, before: Analytics) {
    && a.overall == out.overall && a.score == out.score && a.confidence == out.confidence
    && (out.probabilities != [] ==> a.probabilities == out.probabilities)
    && (out.probabilities == [] ==> a.probabilities == before.probabilities)
    && (out.aspects == [] ==> a.aspects == before.aspects)
    && (out.aspects != [] ==> |a.aspects| == |out.aspects|)
    && (out.aspects != [] ==> forall i :: 0 <= i < |out.aspects| ==> EntrySays(out.aspects[i].0, out.aspects[i].1, a.aspects[i]))
  }

  // An aspect's figures, with its first three keywords as evidence.
  ghost predicate EntrySays(name: string, a: AspectSentiment, e: AspectEntry) {
    && e.aspect == name && e.polarity == a.polarity && e.confidence == a.confidence && e.score == a.score
    && e.mentions == a.mentions && e.rating == a.rating
    && forall first :: FirstThree(a.keywords, first) ==> e.evidence == Join(first, ", ")
  }

  // The impact stage's figures; no breakdown leaves the one of before.
  ghost predicate CarriesImpact(a: Analytics, i: Impact, before: Analytics) {
    && a.impact == i.score && a.riskLevel == i.riskLevel && a.isViral == i.isViral && a.isKol == i.isKol
    && a.engagement == i.engagement && a.virality == i.virality && a.influence == i.influence && a.riskFactors == i.riskFactors
    && a.breakdown == (if i.breakdown == [] then before.breakdown else i.breakdown)
  }

  ghost predicate SameRest(a: Analytics, b: Analytics) {
    SameSource(a, b) && SameSentiment(a, b) && SameImpact(a, b)
  }

  // Preprocessing says whether it is spam, and hands on the text.
  lemma Stage1Says<R, M>(st: Stages<R, M>, r: R, a: Analytics, text: string)
    requires WorksOn(st, r, text)
    ensures var (b, t) := Stage1(st, st.text(r), a);
      && t == text && SameRest(b, a) && b.keywords == a.keywords
      && b.status == (if FoundSpam(st, r) then "success_spam" else a.status)
      && b.riskLevel == (if FoundSpam(st, r) then "LOW" else a.riskLevel)
  {
  }

  lemma Stage2Says<R, M>(st: Stages<R, M>, text: string, a: Analytics)
    ensures var (b, skip) := Stage2(st, text, a);
      && (skip <==> ToldToSkip(st, text)) && SameRest(b, a) && b.keywords == a.keywords
      && b.status == (if skip then "success_skipped" else a.status) && b.riskLevel == (if skip then "LOW" else a.riskLevel)
  {
  }

  lemma Stage3Says<R, M>(st: Stages<R, M>, text: string, a: Analytics)
    ensures var (b, found) := Stage3(st, text, a);
      && SameRest(b, a) && b.status == a.status && b.riskLevel == a.riskLevel
      && (KeywordsFound(st, text).Some? ==> NamesOf(KeywordsFound(st, text).value, b.keywords))
  {
  }

  // A record after the first three stages.
  lemma StagesSay<R, M>(st: Stages<R, M>, r: R, base: Analytics, text: string)
    requires WorksOn(st, r, text) && st.base(r) == Some(base)
    ensures RunStages1To3(st, r).Some?
    ensures var staged := RunStages1To3(st, r).value;
      && staged.record == r && staged.fullText == text && SameRest(staged.analytics, base)
      && (staged.skip <==> ToldToSkip(st, text))
      && (staged.skip ==>
            && staged.analytics.keywords == base.keywords && staged.analytics.status == "success_skipped"
            && staged.analytics.riskLevel == "LOW")
      && (!staged.skip ==>
            && staged.analytics.status == (if FoundSpam(st, r) then "success_spam" else base.status)
            && staged.analytics.riskLevel == (if FoundSpam(st, r) then "LOW" else base.riskLevel)
            && (KeywordsFound(st, text).Some? ==> NamesOf(KeywordsFound(st, text).value, staged.analytics.keywords)))
  {
    Stage1Says(st, r, base, text);
    var a1 := Stage1(st, st.text(r), base).0;
    Stage2Says(st, text, a1);
    Stage3Says(st, text, Stage2(st, text, a1).0);
  }

  lemma FinishCarriesSentiment<R, M>(st: Stages<R, M>, staged: Staged<R>, sentiment: Option<SentimentOutput>, fact: Fact<R, M>)
    requires Finish(st, staged, sentiment) == Some(fact)
    ensures fact.record == staged.record && SameSource(fact.analytics, staged.analytics)
    ensures sentiment.None? ==> SameSentiment(fact.analytics, staged.analytics)
    ensures sentiment.Some? ==> CarriesSentiment(fact.analytics, sentiment.value, staged.analytics)
  {
    if sentiment.Some? {
      WithSentimentCarries(staged.analytics, sentiment.value);
      assert SameSentiment(fact.analytics, WithSentiment(staged.analytics, sentiment.value));
    }
  }

  lemma WithSentimentCarries(a: Analytics, out: SentimentOutput)
    ensures CarriesSentiment(WithSentiment(a, out), out, a)
  {
    forall i | 0 <= i < |out.aspects|
      ensures EntrySays(out.aspects[i].0, out.aspects[i].1, EntryOf(out.aspects[i]))
    {
      EntryIs(out.aspects[i].0, out.aspects[i].1);
    }
  }

  lemma EntryIs(name: string, a: AspectSentiment)
    ensures EntrySays(name, a, EntryOf((name, a)))
  {
    forall first | FirstThree(a.keywords, first)
      ensures EntryOf((name, a)).evidence == Join(first, ", ")
    {
      assert first == if |a.keywords| <= 3 then a.keywords else a.keywords[..3];
    }
  }

  // A fact keeps the record's identity; it carries the sentiment it was given, or else what
  // the result started with.
  lemma FactKeepsSentiment<R, M>(
    st: Stages<R, M>, r: R, sentiment: Option<SentimentOutput>, base: Analytics, fact: Fact<R, M>, text: string)
    requires WorksOn(st, r, text)
    requires st.base(r) == Some(base) && EnrichOne(st, r, sentiment) == Some(fact)
    ensures fact.record == r && SameSource(fact.analytics, base)
    ensures sentiment.None? ==> SameSentiment(fact.analytics, base)
    ensures sentiment.Some? ==> CarriesSentiment(fact.analytics, sentiment.value, base)
  {
    StagesSay(st, r, base, text);
    FinishCarriesSentiment(st, RunStages1To3(st, r).value, sentiment, fact);
  }

  // A record to be skipped is marked so, at low risk; it takes no part in the sentiment call,
  // and has neither keywords nor an impact of its own.
  lemma SkippedRecordSays<R, M>(
    st: Stages<R, M>, r: R, sentiment: Option<SentimentOutput>, base: Analytics, fact: Fact<R, M>, text: string)
    requires WorksOn(st, r, text) && ToldToSkip(st, text)
    requires st.base(r) == Some(base) && EnrichOne(st, r, sentiment) == Some(fact)
    ensures !Wants(st, r)
    ensures fact.analytics.status == "success_skipped" && fact.analytics.riskLevel == "LOW"
    ensures fact.analytics.keywords == base.keywords && SameImpact(fact.analytics, base)
  {
    StagesSay(st, r, base, text);
    FinishSkipped(st, RunStages1To3(st, r).value, sentiment, fact);
  }

  lemma FinishSkipped<R, M>(st: Stages<R, M>, staged: Staged<R>, sentiment: Option<SentimentOutput>, fact: Fact<R, M>)
    requires staged.skip && Finish(st, staged, sentiment) == Some(fact)
    ensures SameImpact(fact.analytics, staged.analytics)
    ensures fact.analytics.status == staged.analytics.status && fact.analytics.riskLevel == staged.analytics.riskLevel
      && fact.analytics.keywords == staged.analytics.keywords
  {
  }

  // Any other record takes part, if the analysis is on.  Spam is marked, at low risk; but if
  // the impact stage gives a result, that decides the risk, from the sentiment's label and score.
  lemma RegularRecordSays<R, M>(
    st: Stages<R, M>, r: R, sentiment: Option<SentimentOutput>, base: Analytics, fact: Fact<R, M>, text: string)
    requires WorksOn(st, r, text) && !ToldToSkip(st, text)
    requires st.base(r) == Some(base) && EnrichOne(st, r, sentiment) == Some(fact)
    ensures Wants(st, r) <==> st.sentiment.Some?
    ensures fact.analytics.status == (if FoundSpam(st, r) then "success_spam" else base.status)
    ensures match ImpactFound(st, r, fact.analytics.overall, fact.analytics.score, text)
      case None => fact.analytics.riskLevel == (if FoundSpam(st, r) then "LOW" else base.riskLevel) && SameImpact(fact.analytics, base)
      case Some(i) => CarriesImpact(fact.analytics, i, base)
    ensures KeywordsFound(st, text).Some? ==> NamesOf(KeywordsFound(st, text).value, fact.analytics.keywords)
  {
    StagesSay(st, r, base, text);
    FinishRegular(st, RunStages1To3(st, r).value, sentiment, fact);
  }

  ghost predicate NamesOf(found: seq<Keyword>, names: seq<string>) {
    |names| == |found| && forall k :: 0 <= k < |names| ==> names[k] == found[k].keyword
  }

  ghost function KeywordsFound<R, M>(st: Stages<R, M>, text: string): Option<seq<Keyword>> {
    match st.extract case None => None case Some(extract) => extract(text)
  }

  lemma FinishRegular<R, M>(st: Stages<R, M>, staged: Staged<R>, sentiment: Option<SentimentOutput>, fact: Fact<R, M>)
    requires !staged.skip && Finish(st, staged, sentiment) == Some(fact)
    ensures fact.analytics.status == staged.analytics.status && fact.analytics.keywords == staged.analytics.keywords
    ensures match ImpactFound(st, staged.record, fact.analytics.overall, fact.analytics.score, staged.fullText)
      case None => fact.analytics.riskLevel == staged.analytics.riskLevel && SameImpact(fact.analytics, staged.analytics)
      case Some(i) => CarriesImpact(fact.analytics, i, staged.analytics)
  {
  }

  ghost function ImpactFound<R, M>(st: Stages<R, M>, r: R, overall: string, score: real, text: string): Option<Impact> {
    match st.impact case None => None case Some(impact) => impact(r, overall, score, text)
  }

  // ----- The batch, as a function of the sentiment call's outcome ------------------------------

  // The record takes part in the sentiment call.
  function Wants<R, M>(st: Stages<R, M>, r: R): bool {
    st.sentiment.Some? && RunStages1To3(st, r).Some? && !RunStages1To3(st, r).value.skip
  }

  function Inputs<R, M>(st: Stages<R, M>, records: seq<R>): seq<SentimentInput> {
    if records == [] then []
    else
      var n := |records| - 1;
      Inputs(st, records[..n]) +
      (if Wants(st, records[n]) then [InputOf(RunStages1To3(st, records[n]).value)] else [])
  }

  // What process_batch returns; it is not called without inputs.
  function Outputs<R, M>(st: Stages<R, M>, records: seq<R>): Option<seq<SentimentOutput>> {
    var inputs := Inputs(st, records);
    if inputs == [] || st.sentiment.None? then None else st.sentiment.value(inputs)
  }

  // The output that reaches record i: the one at its rank among the records that took part.
  function SentimentFor<R, M>(st: Stages<R, M>, records: seq<R>, i: nat): Option<SentimentOutput>
    requires i < |records|
  {
    var rank := |Inputs(st, records[..i])|;
    match Outputs(st, records)
    case None => None
    case Some(outs) => if Wants(st, records[i]) && rank < |outs| then Some(outs[rank]) else None
  }

  function Collect<R, M>(st: Stages<R, M>, records: seq<R>, n: nat): seq<Fact<R, M>>
    requires n <= |records|
  {
    if n == 0 then []
    else
      Collect(st, records, n - 1) +
      match EnrichOne(st, records[n - 1], SentimentFor(st, records, n - 1))
      case None => []
      case Some(fact) => [fact]
  }

  // ----- The result object, updated in place by the phases ---------------------------------------

  class AnalyticsResult {
    var value: Analytics

    constructor (a: Analytics)
      ensures value == a
    {
      value := a;
    }

    method ApplySentiment(out: SentimentOutput)
      modifies this
      ensures value == WithSentiment(old(value), out)
    {
      value := value.(overall := out.overall);
      value := value.(score := out.score);
      value := value.(confidence := out.confidence);
      if out.probabilities != [] {
        value := value.(probabilities := out.probabilities);
      }
      var entries: seq<AspectEntry> := [];
      for i := 0 to |out.aspects|
        invariant entries == Mapped(EntryOf, out.aspects[..i])
      {
        var (name, a) := out.aspects[i];
        var evidence := if a.keywords == [] then "" else Join(if |a.keywords| <= 3 then a.keywords else a.keywords[..3], ", ");
        entries := entries + [AspectEntry(name, a.polarity, a.confidence, a.score, evidence, a.mentions, a.rating)];
        assert out.aspects[..i + 1] == out.aspects[..i] + [out.aspects[i]];
      }
      assert out.aspects[..|out.aspects|] == out.aspects;
      if entries != [] {
        value := value.(aspects := entries);
      }
    }

    method ApplyImpact(i: Impact)
      modifies this
      ensures value == WithImpact(old(value), Some(i))
    {
      value := value.(impact := i.score, riskLevel := i.riskLevel, isViral := i.isViral, isKol := i.isKol);
      value := value.(engagement := i.engagement, virality := i.virality, influence := i.influence);
      value := value.(riskFactors := i.riskFactors);
      if i.breakdown != [] {
        value := value.(breakdown := i.breakdown);
      }
    }
  }

  datatype Slot<Record> = Slot(record: Record, result: AnalyticsResult, fullText: string, keywords: seq<Keyword>, skip: bool)

  // A fact as it is returned: it shares the result object.
  datatype NlpFact<Record, Message> = NlpFact(record: Record, message: Message, analytics: AnalyticsResult)

  ghost predicate Shaped<R>(slot: Option<Slot<R>>, staged: Option<Staged<R>>) {
    && slot.Some? == staged.Some?
    && (slot.Some? ==>
          && slot.value.record == staged.value.record && slot.value.fullText == staged.value.fullText
          && slot.value.keywords == staged.value.keywords && slot.value.skip == staged.value.skip)
  }

  ghost predicate Holds<R>(slot: Option<Slot<R>>, staged: Option<Staged<R>>)
    reads if slot.Some? then {slot.value.result} else {}
  {
    Shaped(slot, staged) && (slot.Some? ==> slot.value.result.value == staged.value.analytics)
  }

  function ResultsOf<R>(slots: seq<Option<Slot<R>>>): set<AnalyticsResult> {
    set i | 0 <= i < |slots| && slots[i].Some? :: slots[i].value.result
  }

  function FactResults<R, M>(facts: seq<NlpFact<R, M>>): set<AnalyticsResult> {
    set p | 0 <= p < |facts| :: facts[p].analytics
  }

  ghost predicate Says<R, M>(fact: NlpFact<R, M>, content: Fact<R, M>)
    reads fact.analytics
  {
    fact.record == content.record && fact.message == content.message && fact.analytics.value == content.analytics
  }

  // The facts say what `contents` says.
  ghost predicate Contain<R, M>(facts: seq<NlpFact<R, M>>, contents: seq<Fact<R, M>>)
    reads FactResults(facts)
  {
    && |facts| == |contents|
    && forall p :: 0 <= p < |facts| ==> Says(facts[p], contents[p])
  }

  // No two slots share a result object.
  ghost predicate Unshared<R>(slots: seq<Option<Slot<R>>>) {
    forall i, j :: 0 <= i < j < |slots| && slots[i].Some? && slots[j].Some? ==> slots[i].value.result != slots[j].value.result
  }

  ghost predicate UnsharedFacts<R, M>(facts: seq<NlpFact<R, M>>) {
    forall p, q :: 0 <= p < q < |facts| ==> facts[p].analytics != facts[q].analytics
  }

  // Each fact's result object is that of a slot before n, later facts of later slots.
  ghost predicate Sourced<R, M>(facts: seq<NlpFact<R, M>>, slots: seq<Option<Slot<R>>>, sources: seq<nat>, n: nat) {
    && |sources| == |facts|
    && (forall p :: 0 <= p < |facts| ==>
          && sources[p] < n && sources[p] < |slots| && slots[sources[p]].Some?
          && facts[p].analytics == slots[sources[p]].value.result)
    && (forall p, q :: 0 <= p < q < |facts| ==> sources[p] < sources[q])
  }

  method RunStages<R(!new), M(!new)>(st: Stages<R, M>, r: R) returns (slot: Option<Slot<R>>)
    ensures Holds(slot, RunStages1To3(st, r))
    ensures slot.Some? ==> fresh(slot.value.result)
  {
    var base := st.base(r);
    if base.None? {
      return None;
    }
    var result := new AnalyticsResult(base.value);
    var text := st.text(r);
    if st.preprocess.Some? {
      var preprocessed := st.preprocess.value(text);
      if preprocessed.Some? {
        result.value := result.value.(isSpam := preprocessed.value.isSpam, spamReasons := preprocessed.value.spamReasons);
        text := preprocessed.value.cleanText;
        if result.value.isSpam {
          result.value := result.value.(riskLevel := "LOW", status := "success_spam");
        }
      }
    }
    assert (result.value, text) == Stage1(st, st.text(r), base.value);
    ghost var cleaned := result.value;
    if st.classify.Some? {
      var intent := st.classify.value(text);
      if intent.Some? {
        result.value := result.value.(intent := intent.value.name, intentConfidence := intent.value.confidence);
        if intent.value.shouldSkip {
          result.value := result.value.(status := "success_skipped", riskLevel := "LOW");
          return Some(Slot(r, result, text, [], true));
        }
      }
    }
    assert (result.value, false) == Stage2(st, text, cleaned);
    var keywords := [];
    if st.extract.Some? {
      var extracted := st.extract.value(text);
      if extracted.Some? {
        result.value := result.value.(keywords := Names(extracted.value));
        keywords := extracted.value;
      }
    }
    slot := Some(Slot(r, result, text, keywords, false));
  }

  method FinishSlot<R(!new), M(!new)>(
    st: Stages<R, M>, slot: Slot<R>, sentiment: Option<SentimentOutput>, ghost staged: Staged<R>)
    returns (fact: Option<NlpFact<R, M>>)
    requires Holds(Some(slot), Some(staged))
    modifies slot.result
    ensures fact.Some? == Finish(st, staged, sentiment).Some?
    ensures fact.Some? ==> fact.value.analytics == slot.result
    ensures fact.Some? ==> Says(fact.value, Finish(st, staged, sentiment).value)
  {
    var result := slot.result;
    if sentiment.Some? {
      result.ApplySentiment(sentiment.value);
    }
    if !slot.skip && st.impact.Some? {
      var impact := st.impact.value(slot.record, result.value.overall, result.value.score, slot.fullText);
      if impact.Some? {
        result.ApplyImpact(impact.value);
      }
    }
    var score := st.relevance(slot.record, result.value, slot.fullText);
    if score.None? {
      return None;
    }
    result.value := result.value.(relevance := score.value.0, relevanceReasons := score.value.1);
    if st.build.None? {
      return None;
    }
    var message := st.build.value(slot.record, result.value);
    if message.None? {
      return None;
    }
    fact := Some(NlpFact(slot.record, message.value, result));
  }

  // ----- The method ------------------------------------------------------------------------------

  method EnrichBatch<R(!new), M(!new)>(st: Stages<R, M>, records: seq<R>) returns (facts: seq<NlpFact<R, M>>)
    ensures Contain(facts, Collect(st, records, |records|))
    ensures UnsharedFacts(facts)
  {
    if records == [] {
      return [];
    }
    var phase1 := Phase1(st, records);
    var indices, inputs := GatherInputs(st, records, phase1);
    var outputs := None;
    if inputs != [] && st.sentiment.Some? {
      outputs := st.sentiment.value(inputs);
    }
    var outputsMap := Zip(indices, if outputs.Some? then outputs.value else []);
    forall i | 0 <= i < |records|
      ensures SentimentFor(st, records, i) == if i in outputsMap then Some(outputsMap[i]) else None
    {
      ZipIsSentimentFor(st, records, indices, outputs, outputsMap, i);
    }
    ghost var staged := seq(|records|, i requires 0 <= i < |records| => RunStages1To3(st, records[i]));
    FinishedIsCollect(st, records, staged, outputsMap, |records|);
    facts := Phase3(st, phase1, outputsMap, staged);
  }

  ghost function FactsOf<R(!new), M(!new)>(
    st: Stages<R, M>, staged: Option<Staged<R>>, sentiment: Option<SentimentOutput>): seq<Fact<R, M>> {
    if staged.None? then []
    else
      match Finish(st, staged.value, sentiment)
      case None => []
      case Some(fact) => [fact]
  }

  ghost function Finished<R(!new), M(!new)>(
    st: Stages<R, M>, staged: seq<Option<Staged<R>>>, outputs: map<nat, SentimentOutput>, n: nat): seq<Fact<R, M>>
    requires n <= |staged|
  {
    if n == 0 then []
    else
      Finished(st, staged, outputs, n - 1) +
      FactsOf(st, staged[n - 1], if n - 1 in outputs then Some(outputs[n - 1]) else None)
  }

  lemma {:induction false} FinishedIsCollect<R(!new), M(!new)>(
    st: Stages<R, M>, records: seq<R>, staged: seq<Option<Staged<R>>>, outputs: map<nat, SentimentOutput>, n: nat)
    requires n <= |records| == |staged|
    requires forall i :: 0 <= i < n ==> staged[i] == RunStages1To3(st, records[i])
    requires forall i :: 0 <= i < n ==> SentimentFor(st, records, i) == if i in outputs then Some(outputs[i]) else None
    ensures Finished(st, staged, outputs, n) == Collect(st, records, n)
  {
    if n > 0 {
      FinishedIsCollect(st, records, staged, outputs, n - 1);
      assert staged[n - 1] == RunStages1To3(st, records[n - 1]);
    }
  }

  // The slots from n on hold what stages 1 to 3 gave.
  ghost predicate Waiting<R>(slots: seq<Option<Slot<R>>>, staged: seq<Option<Staged<R>>>, n: nat)
    reads ResultsOf(slots)
  {
    |slots| == |staged| && forall j :: n <= j < |slots| ==> Holds(slots[j], staged[j])
  }

  // Phase 3 for the records in order.
  method Phase3<R(!new), M(!new)>(
    st: Stages<R, M>, slots: seq<Option<Slot<R>>>, outputs: map<nat, SentimentOutput>, ghost staged: seq<Option<Staged<R>>>)
    returns (facts: seq<NlpFact<R, M>>)
    requires Unshared(slots) && Waiting(slots, staged, 0)
    modifies ResultsOf(slots)
    ensures Contain(facts, Finished(st, staged, outputs, |slots|))
    ensures UnsharedFacts(facts)
  {
    facts := [];
    ghost var sources: seq<nat> := [];
    for i := 0 to |slots|
      invariant Contain(facts, Finished(st, staged, outputs, i)) && Sourced(facts, slots, sources, i)
      invariant Waiting(slots, staged, i)
    {
      facts, sources := FinishNext(st, slots, outputs, i, facts, sources, staged, Finished(st, staged, outputs, i));
      FinishedStep(st, staged, outputs, i);
    }
    SourcedUnshared(facts, slots, sources, |slots|);
  }

  // One object per record, so finishing a record leaves the facts of the earlier ones and
  // the slots of the later ones alone.
  method FinishNext<R(!new), M(!new)>(
    st: Stages<R, M>, slots: seq<Option<Slot<R>>>, outputs: map<nat, SentimentOutput>, i: nat, facts: seq<NlpFact<R, M>>,
    ghost sources: seq<nat>, ghost staged: seq<Option<Staged<R>>>, ghost contents: seq<Fact<R, M>>)
    returns (more: seq<NlpFact<R, M>>, ghost moreSources: seq<nat>)
    requires i < |slots| && Unshared(slots) && Waiting(slots, staged, i)
    requires Sourced(facts, slots, sources, i) && Contain(facts, contents)
    modifies ResultsOf(slots)
    ensures Waiting(slots, staged, i + 1)
    ensures Sourced(more, slots, moreSources, i + 1)
    ensures Contain(more, contents + FactsOf(st, staged[i], if i in outputs then Some(outputs[i]) else None))
  {
    more, moreSources := facts, sources;
    assert Holds(slots[i], staged[i]);
    if slots[i].None? {
      return;
    }
    var sentiment := if i in outputs then Some(outputs[i]) else None;
    EarlierUnshared(facts, slots, sources, i);
    var fact := FinishSlot(st, slots[i].value, sentiment, staged[i].value);
    if fact.Some? {
      AddSourced(facts, slots, sources, i, fact.value);
      more, moreSources := facts + [fact.value], sources + [i];
    }
  }

  lemma FinishedStep<R(!new), M(!new)>(
    st: Stages<R, M>, staged: seq<Option<Staged<R>>>, outputs: map<nat, SentimentOutput>, i: nat)
    requires i < |staged|
    ensures Finished(st, staged, outputs, i + 1) == Finished(st, staged, outputs, i) +
      FactsOf(st, staged[i], if i in outputs then Some(outputs[i]) else None)
  {
  }

  lemma EarlierUnshared<R(!new), M(!new)>(
    facts: seq<NlpFact<R, M>>, slots: seq<Option<Slot<R>>>, sources: seq<nat>, i: nat)
    requires Sourced(facts, slots, sources, i) && Unshared(slots) && i < |slots| && slots[i].Some?
    ensures forall p :: 0 <= p < |facts| ==> facts[p].analytics != slots[i].value.result
    ensures forall j :: i < j < |slots| && slots[j].Some? ==> slots[j].value.result != slots[i].value.result
  {
  }

  lemma AddSourced<R(!new), M(!new)>(
    facts: seq<NlpFact<R, M>>, slots: seq<Option<Slot<R>>>, sources: seq<nat>, i: nat, f: NlpFact<R, M>)
    requires Sourced(facts, slots, sources, i) && i < |slots| && slots[i].Some? && f.analytics == slots[i].value.result
    ensures Sourced(facts + [f], slots, sources + [i], i + 1)
  {
  }

  lemma SourcedUnshared<R(!new), M(!new)>(
    facts: seq<NlpFact<R, M>>, slots: seq<Option<Slot<R>>>, sources: seq<nat>, n: nat)
    requires Sourced(facts, slots, sources, n) && Unshared(slots)
    ensures UnsharedFacts(facts)
  {
  }

  method Phase1<R(!new), M(!new)>(st: Stages<R, M>, records: seq<R>) returns (slots: seq<Option<Slot<R>>>)
    ensures |slots| == |records| && Unshared(slots)
    ensures forall i :: 0 <= i < |slots| ==> Holds(slots[i], RunStages1To3(st, records[i]))
    ensures forall i :: 0 <= i < |slots| && slots[i].Some? ==> fresh(slots[i].value.result)
  {
    slots := [];
    for i := 0 to |records|
      invariant |slots| == i && Unshared(slots)
      invariant forall j :: 0 <= j < i ==> Holds(slots[j], RunStages1To3(st, records[j]))
      invariant forall j :: 0 <= j < i && slots[j].Some? ==> fresh(slots[j].value.result)
    {
      var slot := RunStages(st, records[i]);
      slots := slots + [slot];
    }
  }

  // indices[p] is the record behind inputs[p].
  ghost predicate IndexedInputs<R(!new), M(!new)>(st: Stages<R, M>, records: seq<R>, n: nat, indices: seq<nat>)
    requires n <= |records|
  {
    && |indices| == |Inputs(st, records[..n])|
    && (forall p {:trigger RankIs(st, records, indices[p], p)} :: 0 <= p < |indices| ==>
          indices[p] < n && RankIs(st, records, indices[p], p))
    && (forall j {:trigger Wants(st, records[j])} :: 0 <= j < n && Wants(st, records[j]) ==>
          |Inputs(st, records[..j])| < |indices| && indices[|Inputs(st, records[..j])|] == j)
  }

  ghost predicate RankIs<R(!new), M(!new)>(st: Stages<R, M>, records: seq<R>, i: nat, p: nat) {
    i < |records| && Wants(st, records[i]) && |Inputs(st, records[..i])| == p
  }

  method GatherInputs<R(!new), M(!new)>(st: Stages<R, M>, records: seq<R>, phase1: seq<Option<Slot<R>>>)
    returns (indices: seq<nat>, inputs: seq<SentimentInput>)
    requires |phase1| == |records| && forall i :: 0 <= i < |records| ==> Holds(phase1[i], RunStages1To3(st, records[i]))
    ensures inputs == Inputs(st, records) && IndexedInputs(st, records, |records|, indices)
  {
    indices, inputs := [], [];
    assert records[..0] == [];
    for i := 0 to |records|
      invariant inputs == Inputs(st, records[..i]) && IndexedInputs(st, records, i, indices)
    {
      InputsStep(st, records, i);
      IndexStep(st, records, i, indices);
      assert Holds(phase1[i], RunStages1To3(st, records[i]));
      if phase1[i].None? || phase1[i].value.skip || st.sentiment.None? {
        assert !Wants(st, records[i]);
        continue;
      }
      assert Wants(st, records[i]);
      var slot := phase1[i].value;
      inputs := inputs + [SentimentInput(slot.fullText, slot.keywords, slot.result.value.intent)];
      indices := indices + [i];
    }
    assert records[..|records|] == records;
  }

  lemma IndexStep<R(!new), M(!new)>(st: Stages<R, M>, records: seq<R>, i: nat, indices: seq<nat>)
    requires i < |records| && IndexedInputs(st, records, i, indices)
    ensures IndexedInputs(st, records, i + 1, if Wants(st, records[i]) then indices + [i] else indices)
  {
    InputsStep(st, records, i);
    var more := if Wants(st, records[i]) then indices + [i] else indices;
    forall p | 0 <= p < |more|
      ensures more[p] < i + 1 && RankIs(st, records, more[p], p)
    {
      assert p < |indices| ==> RankIs(st, records, indices[p], p);
    }
    forall j | 0 <= j < i + 1 && Wants(st, records[j])
      ensures |Inputs(st, records[..j])| < |more| && more[|Inputs(st, records[..j])|] == j
    {
      assert j < i ==> indices[|Inputs(st, records[..j])|] == j;
    }
  }

  lemma InputsStep<R(!new), M(!new)>(st: Stages<R, M>, records: seq<R>, i: nat)
    requires i < |records|
    ensures Inputs(st, records[..i + 1]) == Inputs(st, records[..i]) +
      (if Wants(st, records[i]) then [InputOf(RunStages1To3(st, records[i]).value)] else [])
  {
    assert records[..i + 1][..i] == records[..i];
  }

  // dict(zip(indices, outputs)), which stops at the shorter list.
  method Zip(indices: seq<nat>, outputs: seq<SentimentOutput>) returns (m: map<nat, SentimentOutput>)
    ensures m == Zipped(indices, outputs)
  {
    m := map[];
    assert indices[..0] == [];
    for p := 0 to if |indices| <= |outputs| then |indices| else |outputs|
      invariant m == Zipped(indices[..p], outputs)
    {
      m := m[indices[p] := outputs[p]];
      assert indices[..p + 1][..p] == indices[..p];
    }
    if |indices| <= |outputs| {
      assert indices[..|indices|] == indices;
    } else {
      ZipStops(indices, outputs, |outputs|);
    }
  }

  ghost function Zipped(indices: seq<nat>, outputs: seq<SentimentOutput>): map<nat, SentimentOutput> {
    if indices == [] then map[]
    else
      var n := |indices| - 1;
      var m := Zipped(indices[..n], outputs);
      if n < |outputs| then m[indices[n] := outputs[n]] else m
  }

  lemma {:induction false} ZipStops(indices: seq<nat>, outputs: seq<SentimentOutput>, k: nat)
    requires |outputs| <= k <= |indices|
    ensures Zipped(indices, outputs) == Zipped(indices[..k], outputs)
    decreases |indices|
  {
    if k < |indices| {
      var n := |indices| - 1;
      ZipStops(indices[..n], outputs, k);
      assert indices[..n][..k] == indices[..k];
    } else {
      assert indices[..k] == indices;
    }
  }

  lemma {:induction false} ZippedAt(indices: seq<nat>, outputs: seq<SentimentOutput>)
    requires Distinct(indices)
    ensures forall i :: i in Zipped(indices, outputs) ==> i in indices
    ensures forall p :: 0 <= p < |indices| && p < |outputs| ==>
      indices[p] in Zipped(indices, outputs) && Zipped(indices, outputs)[indices[p]] == outputs[p]
    ensures forall p :: |outputs| <= p < |indices| ==> indices[p] !in Zipped(indices, outputs)
  {
    if indices != [] {
      var n := |indices| - 1;
      ZippedAt(indices[..n], outputs);
      assert indices[n] !in indices[..n];
    }
  }

  // Each output reaches the record it came from.
  lemma ZipIsSentimentFor<R(!new), M(!new)>(
    st: Stages<R, M>, records: seq<R>, indices: seq<nat>, outputs: Option<seq<SentimentOutput>>,
    m: map<nat, SentimentOutput>, i: nat)
    requires IndexedInputs(st, records, |records|, indices) && i < |records|
    requires outputs == Outputs(st, records)
    requires m == Zipped(indices, if outputs.Some? then outputs.value else [])
    ensures SentimentFor(st, records, i) == if i in m then Some(m[i]) else None
  {
    var outs := if outputs.Some? then outputs.value else [];
    forall p, q | 0 <= p < q < |indices|
      ensures indices[p] != indices[q]
    {
      assert RankIs(st, records, indices[p], p) && RankIs(st, records, indices[q], q);
    }
    ZippedAt(indices, outs);
    var rank := |Inputs(st, records[..i])|;
    if Wants(st, records[i]) {
      assert indices[rank] == i;
    } else {
      forall p | 0 <= p < |indices|
        ensures indices[p] != i
      {
        assert RankIs(st, records, indices[p], p);
      }
    }
  }

  // ----- What a batch promises ---------------------------------------------------------------------

  // What the sentiment analysis makes of one input; it may raise.
  type Single = SentimentInput -> Option<SentimentOutput>

  // The batch call treats each input by itself, and raises if it does so on any of them.
  ghost predicate Pointwise<R(!new), M(!new)>(st: Stages<R, M>, single: Single) {
    st.sentiment.Some? ==> forall xs :: st.sentiment.value(xs) == Singles(single, xs)
  }

  ghost function Singles(single: Single, xs: seq<SentimentInput>): Option<seq<SentimentOutput>> {
    if forall x :: x in xs ==> single(x).Some? then
      Some(seq(|xs|, i requires 0 <= i < |xs| && single(xs[i]).Some? => single(xs[i]).value))
    else None
  }

  // The record's own sentiment: what it gets when it is the whole batch.
  ghost function Own<R(!new), M(!new)>(st: Stages<R, M>, single: Single, r: R): Option<SentimentOutput> {
    if Wants(st, r) then single(InputOf(RunStages1To3(st, r).value)) else None
  }

  // The record takes part in the sentiment call, which raises on it.
  ghost predicate Fails<R(!new), M(!new)>(st: Stages<R, M>, single: Single, r: R) {
    Wants(st, r) && Own(st, single, r).None?
  }

  ghost predicate NoneFails<R(!new), M(!new)>(st: Stages<R, M>, single: Single, records: seq<R>) {
    forall r :: r in records ==> !Fails(st, single, r)
  }

  ghost predicate NoneSucceeds<R(!new), M(!new)>(st: Stages<R, M>, single: Single, records: seq<R>) {
    forall r :: r in records ==> Own(st, single, r).None?
  }

  // The record enriched alone, with its own sentiment.
  ghost function Alone<R(!new), M(!new)>(st: Stages<R, M>, single: Single, r: R): seq<Fact<R, M>> {
    match EnrichOne(st, r, Own(st, single, r))
    case None => []
    case Some(fact) => [fact]
  }

  ghost function AllAlone<R(!new), M(!new)>(st: Stages<R, M>, single: Single, records: seq<R>): seq<Fact<R, M>> {
    if records == [] then [] else AllAlone(st, single, records[..|records| - 1]) + Alone(st, single, records[|records| - 1])
  }

  lemma {:induction false} InputsGrow<R(!new), M(!new)>(st: Stages<R, M>, records: seq<R>, i: nat, j: nat)
    requires i <= j <= |records|
    ensures Inputs(st, records[..i]) <= Inputs(st, records[..j])
    decreases j - i
  {
    if i < j {
      InputsGrow(st, records, i, j - 1);
      InputsStep(st, records, j - 1);
    }
  }

  // The i-th record's own input is the one at its rank.
  lemma InputAtRank<R(!new), M(!new)>(st: Stages<R, M>, records: seq<R>, i: nat)
    requires i < |records| && Wants(st, records[i])
    ensures var rank := |Inputs(st, records[..i])|;
      rank < |Inputs(st, records)| && Inputs(st, records)[rank] == InputOf(RunStages1To3(st, records[i]).value)
  {
    InputsStep(st, records, i);
    InputsGrow(st, records, i + 1, |records|);
    assert records[..|records|] == records;
  }

  // Each input is that of a record.
  lemma {:induction false} InputIsOfRecord<R(!new), M(!new)>(st: Stages<R, M>, records: seq<R>, x: SentimentInput)
    requires x in Inputs(st, records)
    ensures exists r :: r in records && Wants(st, r) && x == InputOf(RunStages1To3(st, r).value)
  {
    var n := |records| - 1;
    if x in Inputs(st, records[..n]) {
      InputIsOfRecord(st, records[..n], x);
    } else {
      assert records[n] in records;
    }
  }

  // The shared call raises exactly when some record fails.
  lemma CallRaisesExactlyWhen<R(!new), M(!new)>(st: Stages<R, M>, single: Single, records: seq<R>)
    requires Pointwise(st, single) && st.sentiment.Some?
    ensures st.sentiment.value(Inputs(st, records)).Some? <==> NoneFails(st, single, records)
  {
    var xs := Inputs(st, records);
    assert st.sentiment.value(xs) == Singles(single, xs);
    forall r | r in records && Wants(st, r)
      ensures InputOf(RunStages1To3(st, r).value) in xs
    {
      var i :| 0 <= i < |records| && records[i] == r;
      InputAtRank(st, records, i);
    }
    forall x | x in xs
      ensures exists r :: r in records && Wants(st, r) && x == InputOf(RunStages1To3(st, r).value)
    {
      InputIsOfRecord(st, records, x);
    }
    if NoneFails(st, single, records) {
      forall x | x in xs
        ensures single(x).Some?
      {
        var r :| r in records && Wants(st, r) && x == InputOf(RunStages1To3(st, r).value);
        assert !Fails(st, single, r);
      }
    }
  }

  // Without a failing record, every record gets its own sentiment; with one, none gets any.
  lemma SentimentIsOwn<R(!new), M(!new)>(st: Stages<R, M>, single: Single, records: seq<R>, i: nat)
    requires Pointwise(st, single) && i < |records|
    ensures SentimentFor(st, records, i) ==
      if NoneFails(st, single, records) then Own(st, single, records[i]) else None
  {
    if st.sentiment.Some? {
      CallRaisesExactlyWhen(st, single, records);
      if Wants(st, records[i]) {
        InputAtRank(st, records, i);
        assert st.sentiment.value(Inputs(st, records)) == Singles(single, Inputs(st, records));
      }
    }
  }

  // Every record of a batch gets its own sentiment exactly when the shared call raises on
  // none of them, or would raise on each of them anyway.
  lemma SentimentsAreOwnExactlyWhen<R(!new), M(!new)>(st: Stages<R, M>, single: Single, records: seq<R>)
    requires Pointwise(st, single)
    ensures (forall i :: 0 <= i < |records| ==> SentimentFor(st, records, i) == Own(st, single, records[i])) <==>
      NoneFails(st, single, records) || NoneSucceeds(st, single, records)
  {
    forall i | 0 <= i < |records|
      ensures SentimentFor(st, records, i) == if NoneFails(st, single, records) then Own(st, single, records[i]) else None
    {
      SentimentIsOwn(st, single, records, i);
    }
  }

  // ----- Record by record ----------------------------------------------------------------------------

  // An analysis that gives nothing.
  ghost function Nothing(x: SentimentInput): Option<SentimentOutput> {
    None
  }

  // What the shared call comes to for the records of a batch.
  ghost function Shared<R(!new), M(!new)>(st: Stages<R, M>, single: Single, records: seq<R>): Single {
    if NoneFails(st, single, records) then single else Nothing
  }

  lemma {:induction false} CollectIsAlone<R(!new), M(!new)>(st: Stages<R, M>, given: Single, records: seq<R>, n: nat)
    requires n <= |records|
    requires forall i :: 0 <= i < |records| ==> SentimentFor(st, records, i) == Own(st, given, records[i])
    ensures Collect(st, records, n) == AllAlone(st, given, records[..n])
  {
    if n > 0 {
      CollectIsAlone(st, given, records, n - 1);
      assert SentimentFor(st, records, n - 1) == Own(st, given, records[n - 1]);
      assert records[..n][..n - 1] == records[..n - 1];
    }
  }

  lemma CollectIsShared<R(!new), M(!new)>(st: Stages<R, M>, single: Single, records: seq<R>)
    requires Pointwise(st, single)
    ensures Collect(st, records, |records|) == AllAlone(st, Shared(st, single, records), records)
  {
    forall i | 0 <= i < |records|
      ensures SentimentFor(st, records, i) == Own(st, Shared(st, single, records), records[i])
    {
      SentimentIsOwn(st, single, records, i);
    }
    CollectIsAlone(st, Shared(st, single, records), records, |records|);
    assert records[..|records|] == records;
  }

  // A fact names the record it is from.
  lemma {:induction false} FactsAreOfRecords<R(!new), M(!new)>(st: Stages<R, M>, single: Single, records: seq<R>, fact: Fact<R, M>)
    ensures fact in AllAlone(st, single, records) <==> fact.record in records && Alone(st, single, fact.record) == [fact]
  {
    if records != [] {
      var n := |records| - 1;
      FactsAreOfRecords(st, single, records[..n], fact);
      FactIsOfRecord(st, single, records[n], fact);
      assert records == records[..n] + [records[n]];
    }
  }

  lemma FactIsOfRecord<R(!new), M(!new)>(st: Stages<R, M>, single: Single, r: R, fact: Fact<R, M>)
    ensures fact in Alone(st, single, r) <==> fact.record == r && Alone(st, single, r) == [fact]
  {
  }

  // Equal batches are equal record by record.
  lemma SameFactsOfEach<R(!new), M(!new)>(st: Stages<R, M>, one: Single, other: Single, records: seq<R>, r: R)
    requires AllAlone(st, one, records) == AllAlone(st, other, records) && r in records
    ensures Alone(st, one, r) == Alone(st, other, r)
  {
    if Alone(st, one, r) != [] {
      FactsAreOfRecords(st, one, records, Alone(st, one, r)[0]);
      FactsAreOfRecords(st, other, records, Alone(st, one, r)[0]);
    } else if Alone(st, other, r) != [] {
      FactsAreOfRecords(st, one, records, Alone(st, other, r)[0]);
      FactsAreOfRecords(st, other, records, Alone(st, other, r)[0]);
    }
  }

  lemma {:induction false} SameFactsOfAll<R(!new), M(!new)>(st: Stages<R, M>, one: Single, other: Single, records: seq<R>)
    requires forall r :: r in records ==> Alone(st, one, r) == Alone(st, other, r)
    ensures AllAlone(st, one, records) == AllAlone(st, other, records)
  {
    if records != [] {
      SameFactsOfAll(st, one, other, records[..|records| - 1]);
    }
  }

  // The record comes out the same with its own sentiment and without any.
  ghost predicate Indifferent<R(!new), M(!new)>(st: Stages<R, M>, single: Single, r: R) {
    EnrichOne(st, r, Own(st, single, r)) == EnrichOne(st, r, None)
  }

  // The batch is the records enriched one by one, in order, exactly when the shared call
  // raises on none of them, or no record's outcome depends on its sentiment.
  lemma RecordByRecordExactlyWhen<R(!new), M(!new)>(st: Stages<R, M>, single: Single, records: seq<R>)
    requires Pointwise(st, single)
    ensures Collect(st, records, |records|) == AllAlone(st, single, records) <==>
      NoneFails(st, single, records) || forall r :: r in records ==> Indifferent(st, single, r)
  {
    CollectIsShared(st, single, records);
    forall r
      ensures Indifferent(st, single, r) <==> Alone(st, single, r) == Alone(st, Nothing, r)
    {
    }
    if !NoneFails(st, single, records) {
      if AllAlone(st, Nothing, records) == AllAlone(st, single, records) {
        forall r | r in records
          ensures Indifferent(st, single, r)
        {
          SameFactsOfEach(st, single, Nothing, records, r);
        }
      } else if forall r :: r in records ==> Indifferent(st, single, r) {
        SameFactsOfAll(st, single, Nothing, records);
      }
    }
  }

  // In particular a record dropped by another stage drops only itself.
  lemma BatchIsRecordByRecord<R(!new), M(!new)>(st: Stages<R, M>, single: Single, records: seq<R>)
    requires Pointwise(st, single) && NoneFails(st, single, records)
    ensures Collect(st, records, |records|) == AllAlone(st, single, records)
  {
    RecordByRecordExactlyWhen(st, single, records);
  }

  lemma BatchOfOne<R(!new), M(!new)>(st: Stages<R, M>, single: Single, r: R)
    requires Pointwise(st, single)
    ensures Collect(st, [r], 1) == Alone(st, single, r)
  {
    SentimentIsOwn(st, single, [r], 0);
    assert Own(st, single, r).Some? ==> !Fails(st, single, r);
    assert Collect(st, [r], 0) == [];
  }

  lemma {:induction false} AllAloneDistributes<R(!new), M(!new)>(st: Stages<R, M>, single: Single, a: seq<R>, b: seq<R>)
    ensures AllAlone(st, single, a + b) == AllAlone(st, single, a) + AllAlone(st, single, b)
  {
    if b == [] {
      assert a + b == a;
    } else {
      var n := |b| - 1;
      AllAloneDistributes(st, single, a, b[..n]);
      SplitLast(a, b);
      AllAloneLast(st, single, a + b[..n], b[n]);
      AllAloneLast(st, single, b[..n], b[n]);
      Regroup(AllAlone(st, single, a), AllAlone(st, single, b[..n]), Alone(st, single, b[n]));
    }
  }

  lemma AllAloneLast<R(!new), M(!new)>(st: Stages<R, M>, single: Single, records: seq<R>, r: R)
    ensures AllAlone(st, single, records + [r]) == AllAlone(st, single, records) + Alone(st, single, r)
  {
    assert (records + [r])[..|records|] == records;
  }

  lemma SplitLast<T>(a: seq<T>, b: seq<T>)
    requires b != []
    ensures b == b[..|b| - 1] + [b[|b| - 1]] && a + b == (a + b[..|b| - 1]) + [b[|b| - 1]]
  {
  }

  // Without a failing record, splitting a batch anywhere changes nothing.
  lemma BatchDistributes<R(!new), M(!new)>(st: Stages<R, M>, single: Single, a: seq<R>, b: seq<R>)
    requires Pointwise(st, single) && NoneFails(st, single, a + b)
    ensures Collect(st, a + b, |a + b|) == Collect(st, a, |a|) + Collect(st, b, |b|)
  {
    assert forall r :: r in a || r in b ==> r in a + b;
    BatchIsRecordByRecord(st, single, a + b);
    BatchIsRecordByRecord(st, single, a);
    BatchIsRecordByRecord(st, single, b);
    AllAloneDistributes(st, single, a, b);
  }

  // ----- One failing record ---------------------------------------------------------------------------

  // When the shared call raises, for whatever reason, no record of the batch gets a
  // sentiment; the rest of the enrichment still happens.
  lemma RaisingCallStripsEveryRecord<R(!new), M(!new)>(st: Stages<R, M>, records: seq<R>)
    requires st.sentiment.Some? && st.sentiment.value(Inputs(st, records)).None?
    ensures forall i :: 0 <= i < |records| ==> SentimentFor(st, records, i).None?
    ensures Collect(st, records, |records|) == AllAlone(st, Nothing, records)
  {
    CollectIsAlone(st, Nothing, records, |records|);
    assert records[..|records|] == records;
  }

  // One failing record is reason enough.
  lemma CulpritStripsEveryRecord<R(!new), M(!new)>(st: Stages<R, M>, single: Single, records: seq<R>, culprit: R)
    requires Pointwise(st, single) && culprit in records && Fails(st, single, culprit)
    ensures forall i :: 0 <= i < |records| ==> SentimentFor(st, records, i).None?
    ensures Collect(st, records, |records|) == AllAlone(st, Nothing, records)
  {
    CallRaisesExactlyWhen(st, single, records);
    RaisingCallStripsEveryRecord(st, records);
  }

  // A record is its text; the analysis finds everything positive but raises on "bad".
  ghost function Example(): (Stages<string, string>, Single) {
    var blank := Analytics("", "", false, [], "LOW", "success", "", 0.0, [], "NEUTRAL", 0.0, 0.0, [], [],
                           0.0, false, false, 0.0, 0.0, 0.0, [], [], 0.0, []);
    var single := (x: SentimentInput) =>
      if x.text == "bad" then None else Some(SentimentOutput("POSITIVE", 0.9, 0.9, [], []));
    (Stages(r => Some(blank), r => r, None, None, None, Some(xs => Singles(single, xs)), None,
            (r, a, t) => Some((1.0, [])), Some((r, a) => Some(r))),
     single)
  }

  // What any text comes to without and, but for "bad", with its own sentiment.
  lemma ExampleAlone(text: string)
    ensures var (st, single) := Example();
      && |Alone(st, Nothing, text)| == 1 && Alone(st, Nothing, text)[0].analytics.overall == "NEUTRAL"
      && |Alone(st, single, text)| == 1
      && Alone(st, single, text)[0].analytics.overall == (if text == "bad" then "NEUTRAL" else "POSITIVE")
      && (Fails(st, single, text) <==> text == "bad")
  {
  }

  // Enriched alone, the good record is positive; enriched together with the bad one, it is
  // left neutral.
  lemma OneBadRecordInTwo()
    ensures var (st, single) := Example();
      && Pointwise(st, single)
      && |Collect(st, ["good"], 1)| == 1 && Collect(st, ["good"], 1)[0].analytics.overall == "POSITIVE"
      && |Collect(st, ["bad", "good"], 2)| == 2 && Collect(st, ["bad", "good"], 2)[1].analytics.overall == "NEUTRAL"
      && Collect(st, ["bad", "good"], 2) != Collect(st, ["bad"], 1) + Collect(st, ["good"], 1)
  {
    var (st, single) := Example();
    ExampleAlone("bad");
    ExampleAlone("good");
    BatchOfOne(st, single, "bad");
    BatchOfOne(st, single, "good");
    BadAndGood();
  }

  lemma BadAndGood()
    ensures var (st, _) := Example();
      Collect(st, ["bad", "good"], 2) == Alone(st, Nothing, "bad") + Alone(st, Nothing, "good")
  {
    var (st, single) := Example();
    ExampleAlone("bad");
    CulpritStripsEveryRecord(st, single, ["bad", "good"], "bad");
    AllAloneLast(st, Nothing, ["bad"], "good");
    AllAloneLast(st, Nothing, [], "bad");
  }
}
