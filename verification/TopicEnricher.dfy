// internal/enrichment/usecase/topic_enricher.py: one topic fact per mention, from project
// rules, then ontology seeds, then clustering.
module TopicEnricher {
  import opened Basics
  import opened TopicDiscovery

  datatype Mention = Mention(id: string, sourceId: string, rawText: string)

  datatype Origin = ProjectRule | OntologySeed | Clustering

  datatype TopicFact = TopicFact(
    mentionId: string, sourceId: string, topicKey: string, topicLabel: string, confidence: real,
    origin: Origin, evidence: string)

  datatype ArtifactFact = ArtifactFact(topicKey: string, topicLabel: string, size: nat, topTerms: seq<string>,
                                       representatives: seq<string>, origin: Origin)

  // A user rule: its evidence function (absent when the object has none) returns the texts
  // it found; the target key comes stripped.
  datatype Rule = Rule(evidence: Option<string -> seq<string>>, targetKey: string, ruleLabel: string)

  datatype Ontology = Ontology(rules: seq<Rule>, seeds: seq<(string, seq<string>)>, labels: seq<(string, string)>)

  // str.lower, on whole texts.
  datatype Lowering = Lowering(lower: string -> string)

  function Contains(text: string, phrase: string): bool {
    |phrase| <= |text| && (phrase == text[..|phrase|] || Contains(text[1..], phrase))
  }

  function LabelOf(labels: seq<(string, string)>, key: string): string {
    if labels == [] then key
    else if labels[0].0 == key then labels[0].1
    else LabelOf(labels[1..], key)
  }

  // ----- What the cascade should find ------------------------------------------------------

  function RuleHit(r: Rule, text: string): bool {
    r.evidence.Some? && r.evidence.value(text) != [] && r.targetKey != ""
  }

  function RuleFact(rules: seq<Rule>, m: Mention): Option<TopicFact> {
    if rules == [] then None
    else if RuleHit(rules[0], m.rawText) then
      var r := rules[0];
      Some(TopicFact(m.id, m.sourceId, r.targetKey, if r.ruleLabel == "" then r.targetKey else r.ruleLabel,
                     0.84, ProjectRule, r.evidence.value(m.rawText)[0]))
    else RuleFact(rules[1..], m)
  }

  function PhraseIn(low: Lowering, phrases: seq<string>, text: string): Option<string> {
    if phrases == [] then None
    else if Contains(low.lower(text), low.lower(phrases[0])) then Some(phrases[0])
    else PhraseIn(low, phrases[1..], text)
  }

  function SeedFact(low: Lowering, o: Ontology, seeds: seq<(string, seq<string>)>, m: Mention): Option<TopicFact> {
    if seeds == [] then None
    else
      match PhraseIn(low, seeds[0].1, m.rawText)
      case Some(phrase) =>
        Some(TopicFact(m.id, m.sourceId, seeds[0].0, LabelOf(o.labels, seeds[0].0), 0.75, OntologySeed, phrase))
      case None => SeedFact(low, o, seeds[1..], m)
  }

  // Rules come before seeds, seeds before clustering.
  function Matched(low: Lowering, o: Ontology, m: Mention): (f: Option<TopicFact>)
  {
    match RuleFact(o.rules, m)
    case Some(f) => Some(f)
    case None => SeedFact(low, o, o.seeds, m)
  }

  // ----- What each of them is ----------------------------------------------------------------

  lemma {:induction false} ContainsExactlyWhen(text: string, phrase: string)
    ensures Contains(text, phrase) <==> exists before, after :: text == before + phrase + after
  {
    if |phrase| <= |text| {
      if phrase == text[..|phrase|] {
        assert text == "" + phrase + text[|phrase|..];
      } else if text != "" {
        ContainsExactlyWhen(text[1..], phrase);
        if before, after :| text[1..] == before + phrase + after {
          assert text == ([text[0]] + before) + phrase + after;
        }
        if before, after :| text == before + phrase + after {
          NotAtStart(text, phrase, before, after);
        }
      }
    }
  }

  lemma NotAtStart(text: string, phrase: string, before: string, after: string)
    requires text == before + phrase + after && phrase != text[..|phrase|]
    ensures before != "" && text[1..] == before[1..] + phrase + after
  {
    assert text[|before|..|before| + |phrase|] == phrase;
  }

  // The key is the i-th one listed, and the first of its name.
  ghost predicate FirstNamed<T(!new)>(pairs: seq<(string, T)>, key: string, i: nat) {
    i < |pairs| && pairs[i].0 == key && forall j :: 0 <= j < i ==> pairs[j].0 != key
  }

  // A topic is labelled by the first entry under its key, and by the key if there is none.
  lemma {:induction false} LabelIsFirst(labels: seq<(string, string)>, key: string)
    ensures forall i: nat :: FirstNamed(labels, key, i) ==> LabelOf(labels, key) == labels[i].1
    ensures (forall i :: 0 <= i < |labels| ==> labels[i].0 != key) ==> LabelOf(labels, key) == key
  {
    if labels != [] && labels[0].0 != key {
      LabelIsFirst(labels[1..], key);
      forall i: nat | FirstNamed(labels, key, i)
        ensures LabelOf(labels, key) == labels[i].1
      {
        RestNamed(labels, key, i);
      }
    }
  }

  lemma RestNamed<T(!new)>(pairs: seq<(string, T)>, key: string, i: nat)
    requires FirstNamed(pairs, key, i) && pairs[0].0 != key
    ensures i > 0 && FirstNamed(pairs[1..], key, i - 1)
  {
  }

  // The i-th rule finds something and names a topic, and no earlier one does.
  ghost predicate FirstRule(rules: seq<Rule>, text: string, i: nat) {
    && i < |rules| && Applies(rules[i], text)
    && forall j :: 0 <= j < i ==> !Applies(rules[j], text)
  }

  ghost predicate Applies(r: Rule, text: string) {
    r.targetKey != "" && match r.evidence case None => false case Some(find) => |find(text)| > 0
  }

  // The first rule that hits decides: its topic, under its label if it has one, with the first
  // text it found.
  lemma {:induction false} FirstRuleDecides(rules: seq<Rule>, m: Mention)
    ensures forall i: nat :: FirstRule(rules, m.rawText, i) ==>
      RuleFact(rules, m) == Some(TopicFact(m.id, m.sourceId, rules[i].targetKey,
        if rules[i].ruleLabel != "" then rules[i].ruleLabel else rules[i].targetKey, 0.84, ProjectRule,
        rules[i].evidence.value(m.rawText)[0]))
    ensures RuleFact(rules, m).None? <==> forall i :: 0 <= i < |rules| ==> !Applies(rules[i], m.rawText)
  {
    if rules != [] && !Applies(rules[0], m.rawText) {
      FirstRuleDecides(rules[1..], m);
      forall i: nat | FirstRule(rules, m.rawText, i)
        ensures i > 0 && FirstRule(rules[1..], m.rawText, i - 1) && rules[1..][i - 1] == rules[i]
      {
      }
      assert forall i :: 0 <= i < |rules| - 1 ==> rules[1..][i] == rules[i + 1];
    }
  }

  // The k-th phrase occurs in the text, up to case, and no earlier one does.
  ghost predicate FirstPhrase(low: Lowering, phrases: seq<string>, text: string, k: nat) {
    && k < |phrases| && OccursIn(low, phrases[k], text)
    && forall j :: 0 <= j < k ==> !OccursIn(low, phrases[j], text)
  }

  ghost predicate OccursIn(low: Lowering, phrase: string, text: string) {
    exists before, after :: low.lower(text) == before + low.lower(phrase) + after
  }

  lemma {:induction false} FirstPhraseIsFound(low: Lowering, phrases: seq<string>, text: string)
    ensures forall k: nat :: FirstPhrase(low, phrases, text, k) ==> PhraseIn(low, phrases, text) == Some(phrases[k])
    ensures PhraseIn(low, phrases, text).None? <==> forall k :: 0 <= k < |phrases| ==> !OccursIn(low, phrases[k], text)
  {
    if phrases != [] {
      ContainsExactlyWhen(low.lower(text), low.lower(phrases[0]));
      if !OccursIn(low, phrases[0], text) {
        FirstPhraseIsFound(low, phrases[1..], text);
        forall k: nat | FirstPhrase(low, phrases, text, k)
          ensures k > 0 && FirstPhrase(low, phrases[1..], text, k - 1) && phrases[1..][k - 1] == phrases[k]
        {
        }
        assert forall k :: 0 <= k < |phrases| - 1 ==> phrases[1..][k] == phrases[k + 1];
      }
    }
  }

  // The k-th phrase of the i-th topic is the first found: no topic before has one that occurs.
  ghost predicate FirstSeed(low: Lowering, seeds: seq<(string, seq<string>)>, text: string, i: nat, k: nat) {
    && i < |seeds| && FirstPhrase(low, seeds[i].1, text, k)
    && forall j :: 0 <= j < i ==> NoPhrase(low, seeds[j].1, text)
  }

  ghost predicate NoPhrase(low: Lowering, phrases: seq<string>, text: string) {
    forall k :: 0 <= k < |phrases| ==> !OccursIn(low, phrases[k], text)
  }

  // The first seed phrase found decides: its topic, under its label, with the phrase.
  lemma {:induction false} FirstSeedDecides(low: Lowering, o: Ontology, seeds: seq<(string, seq<string>)>, m: Mention)
    ensures forall i: nat, k: nat :: FirstSeed(low, seeds, m.rawText, i, k) ==>
      SeedFact(low, o, seeds, m) == Some(TopicFact(m.id, m.sourceId, seeds[i].0, LabelOf(o.labels, seeds[i].0),
        0.75, OntologySeed, seeds[i].1[k]))
    ensures SeedFact(low, o, seeds, m).None? <==> forall i :: 0 <= i < |seeds| ==> NoPhrase(low, seeds[i].1, m.rawText)
  {
    if seeds != [] {
      FirstPhraseIsFound(low, seeds[0].1, m.rawText);
      if NoPhrase(low, seeds[0].1, m.rawText) {
        FirstSeedDecides(low, o, seeds[1..], m);
        forall i: nat, k: nat | FirstSeed(low, seeds, m.rawText, i, k)
          ensures i > 0 && FirstSeed(low, seeds[1..], m.rawText, i - 1, k) && seeds[1..][i - 1] == seeds[i]
        {
          SeedInRest(low, seeds, m.rawText, i, k);
        }
        assert forall i :: 0 <= i < |seeds| - 1 ==> seeds[1..][i] == seeds[i + 1];
      } else {
        forall i: nat, k: nat | FirstSeed(low, seeds, m.rawText, i, k)
          ensures i == 0
        {
        }
      }
    }
  }

  lemma SeedInRest(low: Lowering, seeds: seq<(string, seq<string>)>, text: string, i: nat, k: nat)
    requires FirstSeed(low, seeds, text, i, k) && NoPhrase(low, seeds[0].1, text)
    ensures i > 0 && FirstSeed(low, seeds[1..], text, i - 1, k)
  {
    assert OccursIn(low, seeds[i].1[k], text);
  }

  // ----- Facts on file -----------------------------------------------------------------------

  type Facts = map<string, seq<TopicFact>>

  ghost predicate DistinctMentions(ms: seq<Mention>) {
    forall i, j :: 0 <= i < j < |ms| ==> ms[i].id != ms[j].id
  }

  function File(facts: Facts, f: TopicFact): Facts {
    facts[f.mentionId := (if f.mentionId in facts then facts[f.mentionId] else []) + [f]]
  }

  function Bump(counts: map<string, nat>, key: string): map<string, nat> {
    counts[key := (if key in counts then counts[key] else 0) + 1]
  }

  // The dict of counts, in order of first appearance.
  datatype Counts = Counts(order: seq<string>, size: map<string, nat>)
  {
    ghost predicate Valid() {
      Distinct(order) && forall k :: k in order <==> k in size
    }

    function Add(key: string): Counts {
      Counts(if key in size then order else order + [key], Bump(size, key))
    }

    ghost function At(key: string): nat {
      if key in size then size[key] else 0
    }

    ghost function Total(): nat
      requires Valid()
    {
      SumOf(order, size)
    }
  }

  ghost function SumOf(order: seq<string>, size: map<string, nat>): nat
    requires forall k :: k in order ==> k in size
  {
    if order == [] then 0 else SumOf(order[..|order| - 1], size) + size[order[|order| - 1]]
  }

  lemma {:induction false} SumOfBumped(order: seq<string>, size: map<string, nat>, key: string)
    requires Distinct(order) && forall k :: k in order ==> k in size
    ensures SumOf(order, Bump(size, key)) == SumOf(order, size) + (if key in order then 1 else 0)
  {
    if order != [] {
      var n := |order| - 1;
      assert order == order[..n] + [order[n]];
      assert order[n] !in order[..n];
      SumOfBumped(order[..n], size, key);
    }
  }

  lemma AddCountsOne(c: Counts, key: string)
    requires c.Valid()
    ensures c.Add(key).Valid() && c.Add(key).Total() == c.Total() + 1
  {
    SumOfBumped(c.order, c.size, key);
    if key !in c.size {
      assert c.Add(key).order[..|c.order|] == c.order;
    }
  }

  datatype Matcher = ByRules | BySeeds | ByBoth

  function Match(low: Lowering, o: Ontology, stage: Matcher, m: Mention): (f: Option<TopicFact>) {
    match stage
    case ByRules => RuleFact(o.rules, m)
    case BySeeds => SeedFact(low, o, o.seeds, m)
    case ByBoth => Matched(low, o, m)
  }

  lemma {:induction false} RuleFactIsOfMention(rules: seq<Rule>, m: Mention)
    ensures RuleFact(rules, m).Some? ==> RuleFact(rules, m).value.mentionId == m.id && RuleFact(rules, m).value.origin == ProjectRule
  {
    if rules != [] && !RuleHit(rules[0], m.rawText) {
      RuleFactIsOfMention(rules[1..], m);
    }
  }

  lemma {:induction false} SeedFactIsOfMention(
    low: Lowering, o: Ontology, seeds: seq<(string, seq<string>)>, m: Mention)
    ensures SeedFact(low, o, seeds, m).Some? ==>
      SeedFact(low, o, seeds, m).value.mentionId == m.id && SeedFact(low, o, seeds, m).value.origin == OntologySeed
  {
    if seeds != [] && PhraseIn(low, seeds[0].1, m.rawText).None? {
      SeedFactIsOfMention(low, o, seeds[1..], m);
    }
  }

  lemma MatchIsOfMention(low: Lowering, o: Ontology, stage: Matcher, m: Mention)
    ensures var f := Match(low, o, stage, m);
      f.Some? ==> f.value.mentionId == m.id && f.value.origin != Clustering
  {
    RuleFactIsOfMention(o.rules, m);
    SeedFactIsOfMention(low, o, o.seeds, m);
  }

  // The mentions a stage finds nothing for, in order.
  ghost function Rest(low: Lowering, o: Ontology, stage: Matcher, ms: seq<Mention>): seq<Mention> {
    if ms == [] then []
    else
      var m := ms[|ms| - 1];
      Rest(low, o, stage, ms[..|ms| - 1]) + (if Match(low, o, stage, m).None? then [m] else [])
  }

  // Those that wait do so in the order of the batch.
  lemma {:induction false} RestAppend(low: Lowering, o: Ontology, stage: Matcher, a: seq<Mention>, b: seq<Mention>)
    ensures Rest(low, o, stage, a + b) == Rest(low, o, stage, a) + Rest(low, o, stage, b)
    ensures |a| == 1 ==> Rest(low, o, stage, a) == if Match(low, o, stage, a[0]).None? then a else []
  {
    if b == [] {
      assert a + b == a;
    } else {
      var n := |b| - 1;
      RestAppend(low, o, stage, a, b[..n]);
      assert (a + b)[..|a| + n] == a + b[..n];
      Regroup(Rest(low, o, stage, a), Rest(low, o, stage, b[..n]), if Match(low, o, stage, b[n]).None? then [b[n]] else []);
    }
  }

  // Hits add up.
  lemma {:induction false} HitsAppend(low: Lowering, o: Ontology, stage: Matcher, a: seq<Mention>, b: seq<Mention>, key: string)
    ensures Hits(low, o, stage, a + b, key) == Hits(low, o, stage, a, key) + Hits(low, o, stage, b, key)
    ensures |a| == 1 ==> Hits(low, o, stage, a, key) == match Match(low, o, stage, a[0])
      case None => 0
      case Some(f) => if f.topicKey == key then 1 else 0
  {
    if b == [] {
      assert a + b == a;
    } else {
      var n := |b| - 1;
      HitsAppend(low, o, stage, a, b[..n], key);
      assert (a + b)[..|a| + n] == a + b[..n];
    }
  }

  // How many mentions a stage gives the topic `key`.
  ghost function Hits(low: Lowering, o: Ontology, stage: Matcher, ms: seq<Mention>, key: string): nat {
    if ms == [] then 0
    else
      var f := Match(low, o, stage, ms[|ms| - 1]);
      Hits(low, o, stage, ms[..|ms| - 1], key) + (if f.Some? && f.value.topicKey == key then 1 else 0)
  }

  lemma {:induction false} RestAre(low: Lowering, o: Ontology, stage: Matcher, ms: seq<Mention>)
    ensures forall m :: m in Rest(low, o, stage, ms) <==> m in ms && Match(low, o, stage, m).None?
  {
    if ms != [] {
      var n := |ms| - 1;
      RestAre(low, o, stage, ms[..n]);
      assert ms == ms[..n] + [ms[n]];
    }
  }

  lemma {:induction false} RestAreDistinct(low: Lowering, o: Ontology, stage: Matcher, ms: seq<Mention>)
    requires DistinctMentions(ms)
    ensures DistinctMentions(Rest(low, o, stage, ms))
  {
    if ms != [] {
      var n := |ms| - 1;
      RestAreDistinct(low, o, stage, ms[..n]);
      RestAre(low, o, stage, ms[..n]);
      assert ms == ms[..n] + [ms[n]];
      LastIsNew(ms[..n], ms[n]);
    }
  }

  lemma {:induction false} RestComposes(low: Lowering, o: Ontology, ms: seq<Mention>, key: string)
    ensures Rest(low, o, BySeeds, Rest(low, o, ByRules, ms)) == Rest(low, o, ByBoth, ms)
    ensures Hits(low, o, ByRules, ms, key) + Hits(low, o, BySeeds, Rest(low, o, ByRules, ms), key) == Hits(low, o, ByBoth, ms, key)
  {
    if ms != [] {
      var n := |ms| - 1;
      RestComposes(low, o, ms[..n], key);
      var first := Rest(low, o, ByRules, ms[..n]);
      assert (first + [ms[n]])[..|first|] == first;
      assert first + [] == first;
    }
  }

  // One stage is the cascade for mentions on which they agree.
  lemma {:induction false} RestAgrees(low: Lowering, o: Ontology, stage: Matcher, ms: seq<Mention>, key: string)
    requires forall m :: m in ms ==> Match(low, o, stage, m) == Match(low, o, ByBoth, m)
    ensures Rest(low, o, stage, ms) == Rest(low, o, ByBoth, ms)
    ensures Hits(low, o, stage, ms, key) == Hits(low, o, ByBoth, ms, key)
  {
    if ms != [] {
      RestAgrees(low, o, stage, ms[..|ms| - 1], key);
    }
  }

  lemma {:induction false} RestOfNothing(low: Lowering, o: Ontology, ms: seq<Mention>, key: string)
    requires o.rules == [] && o.seeds == []
    ensures Rest(low, o, ByBoth, ms) == ms && Hits(low, o, ByBoth, ms, key) == 0
  {
    if ms != [] {
      RestOfNothing(low, o, ms[..|ms| - 1], key);
      assert ms == ms[..|ms| - 1] + [ms[|ms| - 1]];
    }
  }

  // The mentions of `done` have been put through one stage: each is on file with exactly
  // its fact, or waits; nothing else changed.
  ghost predicate Decided(
    low: Lowering, o: Ontology, stage: Matcher, base: Facts, done: seq<Mention>, facts: Facts, waiting: seq<Mention>)
  {
    && waiting == Rest(low, o, stage, done)
    && (forall m {:trigger Placed(Match(low, o, stage, m), m, facts)} :: m in done ==> Placed(Match(low, o, stage, m), m, facts))
    && (forall id :: id in base ==> id in facts && facts[id] == base[id])
    && (forall id {:trigger Known(base, done, id)} :: id in facts ==> Known(base, done, id))
  }

  ghost predicate Known(base: Facts, done: seq<Mention>, id: string) {
    id in base || exists m :: m in done && m.id == id
  }

  ghost predicate Placed(f: Option<TopicFact>, m: Mention, facts: Facts) {
    match f
    case Some(fact) => m.id in facts && facts[m.id] == [fact]
    case None => m.id !in facts
  }

  lemma LastIsNew(done: seq<Mention>, m: Mention)
    requires DistinctMentions(done + [m])
    ensures forall d :: d in done ==> d.id != m.id
  {
    forall d | d in done
      ensures d.id != m.id
    {
      var i :| 0 <= i < |done| && done[i] == d;
      assert (done + [m])[i] == d && (done + [m])[|done|] == m;
    }
  }

  lemma DecideByFact(
    low: Lowering, o: Ontology, stage: Matcher, base: Facts, done: seq<Mention>, facts: Facts, waiting: seq<Mention>, m: Mention)
    requires DistinctMentions(done + [m]) && m.id !in base
    requires Decided(low, o, stage, base, done, facts, waiting) && Match(low, o, stage, m).Some?
    ensures Decided(low, o, stage, base, done + [m], File(facts, Match(low, o, stage, m).value), waiting)
  {
    LastIsNew(done, m);
    MatchIsOfMention(low, o, stage, m);
    assert !Known(base, done, m.id);
    assert (done + [m])[..|done|] == done;
    KnownStays(base, done, m);
    var filed := File(facts, Match(low, o, stage, m).value);
    forall d | d in done
      ensures Placed(Match(low, o, stage, d), d, filed)
    {
      assert Placed(Match(low, o, stage, d), d, facts);
    }
  }

  lemma DecideToWait(
    low: Lowering, o: Ontology, stage: Matcher, base: Facts, done: seq<Mention>, facts: Facts, waiting: seq<Mention>, m: Mention)
    requires DistinctMentions(done + [m]) && m.id !in base
    requires Decided(low, o, stage, base, done, facts, waiting) && Match(low, o, stage, m).None?
    ensures Decided(low, o, stage, base, done + [m], facts, waiting + [m])
  {
    LastIsNew(done, m);
    assert !Known(base, done, m.id);
    assert (done + [m])[..|done|] == done;
    KnownStays(base, done, m);
    forall d | d in done + [m]
      ensures Placed(Match(low, o, stage, d), d, facts)
    {
      assert d in done ==> Placed(Match(low, o, stage, d), d, facts);
    }
  }

  lemma KnownStays(base: Facts, done: seq<Mention>, m: Mention)
    ensures forall id :: Known(base, done, id) ==> Known(base, done + [m], id)
    ensures Known(base, done + [m], m.id)
  {
    assert m in done + [m];
    assert forall d :: d in done ==> d in done + [m];
  }

  // Seeds tried on what the rules left waiting: both together.
  lemma StagesCompose(
    low: Lowering, o: Ontology, mentions: seq<Mention>, facts: Facts, waiting: seq<Mention>, later: Facts, left: seq<Mention>)
    requires Decided(low, o, ByRules, map[], mentions, facts, waiting)
    requires Decided(low, o, BySeeds, facts, waiting, later, left)
    ensures Decided(low, o, ByBoth, map[], mentions, later, left)
  {
    RestComposes(low, o, mentions, "");
    RestAre(low, o, ByRules, mentions);
    forall m | m in mentions
      ensures Placed(Match(low, o, ByBoth, m), m, later)
    {
      assert Placed(Match(low, o, ByRules, m), m, facts);
      assert m in waiting ==> Placed(Match(low, o, BySeeds, m), m, later);
      if m !in waiting {
        assert m.id in facts;
      }
    }
    forall id | id in later
      ensures Known(map[], mentions, id)
    {
      assert Known(facts, waiting, id);
      assert id in facts ==> Known(map[], mentions, id);
    }
  }

  // A stage that finds what the cascade finds is the cascade.
  lemma OneStageIsCascade(
    low: Lowering, o: Ontology, stage: Matcher, mentions: seq<Mention>, facts: Facts, waiting: seq<Mention>)
    requires Decided(low, o, stage, map[], mentions, facts, waiting)
    requires forall m :: m in mentions ==> Match(low, o, stage, m) == Match(low, o, ByBoth, m)
    ensures Decided(low, o, ByBoth, map[], mentions, facts, waiting)
  {
    RestAgrees(low, o, stage, mentions, "");
    forall m | m in mentions
      ensures Placed(Match(low, o, ByBoth, m), m, facts)
    {
      assert Placed(Match(low, o, stage, m), m, facts);
    }
  }

  // Neither rules nor seeds: everything waits.
  lemma NothingMatches(low: Lowering, o: Ontology, mentions: seq<Mention>)
    requires o.rules == [] && o.seeds == []
    ensures Decided(low, o, ByBoth, map[], mentions, map[], mentions)
  {
    RestOfNothing(low, o, mentions, "");
  }

  // ----- Clustering what is left --------------------------------------------------------------

  const WHOLE := ":whole"

  function DocumentOf(m: Mention): Document {
    Document(m.id + WHOLE, m.id, m.sourceId, m.rawText)
  }

  function DocumentsOf(ms: seq<Mention>): (ds: seq<Document>)
    ensures |ds| == |ms| && forall i :: 0 <= i < |ms| ==> ds[i] == DocumentOf(ms[i])
  {
    seq(|ms|, i requires 0 <= i < |ms| => DocumentOf(ms[i]))
  }

  lemma SuffixCancels(a: string, b: string)
    requires a + WHOLE == b + WHOLE
    ensures a == b
  {
    assert |a| == |b|;
    assert a == (a + WHOLE)[..|a|] && b == (b + WHOLE)[..|b|];
  }

  // The dict from document id to (mention id, source id).
  function OwnersOf(ds: seq<Document>): (owners: map<string, (string, string)>)
    ensures forall i :: 0 <= i < |ds| ==> ds[i].id in owners
  {
    if ds == [] then map[]
    else
      var n := |ds| - 1;
      OwnersOf(ds[..n])[ds[n].id := (ds[n].mentionId, ds[n].sourceId)]
  }

  lemma {:induction false} OwnersAreRight(ms: seq<Mention>, k: nat)
    requires DistinctMentions(ms) && k <= |ms|
    ensures forall i :: 0 <= i < k ==>
      ms[i].id + WHOLE in OwnersOf(DocumentsOf(ms)[..k]) &&
      OwnersOf(DocumentsOf(ms)[..k])[ms[i].id + WHOLE] == (ms[i].id, ms[i].sourceId)
  {
    if k > 0 {
      OwnersAreRight(ms, k - 1);
      assert DocumentsOf(ms)[..k][..k - 1] == DocumentsOf(ms)[..k - 1];
      forall i | 0 <= i < k - 1
        ensures ms[i].id + WHOLE != ms[k - 1].id + WHOLE
      {
        if ms[i].id + WHOLE == ms[k - 1].id + WHOLE {
          SuffixCancels(ms[i].id, ms[k - 1].id);
        }
      }
    }
  }

  function FallbackFact(owner: (string, string), a: Assignment): TopicFact {
    TopicFact(owner.0, owner.1, a.topicKey, a.topicLabel, a.confidence, Clustering, a.topicLabel)
  }

  // The waiting mention at flat[p] is on file once, with the fact of assignment p; the
  // other waiting ones are not, and nothing else changed.
  ghost predicate Filed(waiting: seq<Mention>, flat: seq<nat>, given: seq<Assignment>, base: Facts, facts: Facts)
    requires |flat| == |given|
  {
    && (forall p :: 0 <= p < |flat| ==> flat[p] < |waiting| && FiledFor(waiting[flat[p]], given[p], facts))
    && (forall i :: 0 <= i < |waiting| && i !in flat ==> waiting[i].id !in facts)
    && (forall id :: id in base ==> id in facts && facts[id] == base[id])
    && (forall id :: id in facts ==> id in base || exists m :: m in waiting && m.id == id)
  }

  ghost predicate FiledFor(m: Mention, a: Assignment, facts: Facts) {
    m.id in facts && facts[m.id] == [FallbackFact((m.id, m.sourceId), a)]
  }

  lemma FileOne(
    waiting: seq<Mention>, flat: seq<nat>, given: seq<Assignment>, base: Facts, facts: Facts, i: nat, a: Assignment)
    requires |flat| == |given| && DistinctMentions(waiting) && Filed(waiting, flat, given, base, facts)
    requires i < |waiting| && i !in flat && waiting[i].id !in base
    ensures Filed(waiting, flat + [i], given + [a], base, File(facts, FallbackFact((waiting[i].id, waiting[i].sourceId), a)))
  {
    var filed := File(facts, FallbackFact((waiting[i].id, waiting[i].sourceId), a));
    forall p | 0 <= p < |flat|
      ensures FiledFor(waiting[flat[p]], given[p], filed)
    {
      assert FiledFor(waiting[flat[p]], given[p], facts);
      assert flat[p] in flat && flat[p] != i;
      assert waiting[flat[p]].id != waiting[i].id;
    }
    forall j | 0 <= j < |waiting| && j !in flat + [i]
      ensures waiting[j].id !in filed
    {
      assert j !in flat && j != i;
      assert waiting[j].id != waiting[i].id;
    }
    assert waiting[i] in waiting;
  }

  lemma FileNext(waiting: seq<Mention>, flat: seq<nat>, given: seq<Assignment>, base: Facts, facts: Facts, p: nat)
    requires p < |flat| == |given| && DistinctMentions(waiting) && Distinct(flat)
    requires Filed(waiting, flat[..p], given[..p], base, facts)
    requires flat[p] < |waiting| && waiting[flat[p]].id !in base
    ensures var m := waiting[flat[p]];
      Filed(waiting, flat[..p + 1], given[..p + 1], base, File(facts, FallbackFact((m.id, m.sourceId), given[p])))
  {
    assert flat[..p + 1] == flat[..p] + [flat[p]] && given[..p + 1] == given[..p] + [given[p]];
    assert flat[p] !in flat[..p];
    FileOne(waiting, flat[..p], given[..p], base, facts, flat[p], given[p]);
  }

  method FileAssignments(
    waiting: seq<Mention>, assignments: seq<Assignment>, ghost flat: seq<nat>, base: Facts) returns (facts: Facts)
    requires DistinctMentions(waiting) && forall m :: m in waiting ==> m.id !in base
    requires |flat| == |assignments| && Distinct(flat)
    requires forall p :: 0 <= p < |flat| ==> flat[p] < |waiting| && assignments[p].documentId == waiting[flat[p]].id + WHOLE
    ensures Filed(waiting, flat, assignments, base, facts)
  {
    var owners := OwnersOf(DocumentsOf(waiting));
    OwnersAreRight(waiting, |waiting|);
    assert DocumentsOf(waiting)[..|waiting|] == DocumentsOf(waiting);
    facts := base;
    forall i | 0 <= i < |waiting|
      ensures waiting[i].id !in base
    {
      assert waiting[i] in waiting;
    }
    for p := 0 to |assignments|
      invariant Filed(waiting, flat[..p], assignments[..p], base, facts)
    {
      var a := assignments[p];
      FileNext(waiting, flat, assignments, base, facts, p);
      facts := File(facts, FallbackFact(owners[a.documentId], a));
    }
    assert flat[..|flat|] == flat && assignments[..|flat|] == assignments;
  }

  // ----- The whole ------------------------------------------------------------------------------

  ghost function SizeTotal(artifacts: seq<ArtifactFact>): nat {
    if artifacts == [] then 0 else SizeTotal(artifacts[..|artifacts| - 1]) + artifacts[|artifacts| - 1].size
  }

  // Every mention has exactly one fact: what the cascade finds, else a clustering fact.
  ghost predicate OneFactEach(low: Lowering, o: Ontology, mentions: seq<Mention>, facts: Facts) {
    && (forall m :: m in mentions ==> HasOneFact(low, o, m, facts))
    && (forall id :: id in facts ==> exists m :: m in mentions && m.id == id)
  }

  ghost predicate HasOneFact(low: Lowering, o: Ontology, m: Mention, facts: Facts) {
    && m.id in facts && |facts[m.id]| == 1 && facts[m.id][0].mentionId == m.id
    && match Matched(low, o, m)
       case Some(f) => facts[m.id][0] == f
       case None => facts[m.id][0].origin == Clustering
  }

  // The one fact of a mention: that of the first project rule that applies; without one, that
  // of the first seed phrase found; without either, one from clustering.
  lemma FactIsDecided(low: Lowering, o: Ontology, mentions: seq<Mention>, facts: Facts, m: Mention)
    requires OneFactEach(low, o, mentions, facts) && m in mentions
    ensures m.id in facts && |facts[m.id]| == 1
    ensures forall i: nat :: FirstRule(o.rules, m.rawText, i) ==>
      facts[m.id] == [TopicFact(m.id, m.sourceId, o.rules[i].targetKey,
        if o.rules[i].ruleLabel != "" then o.rules[i].ruleLabel else o.rules[i].targetKey, 0.84, ProjectRule,
        o.rules[i].evidence.value(m.rawText)[0])]
    ensures forall i: nat, k: nat :: NoRule(o.rules, m.rawText) && FirstSeed(low, o.seeds, m.rawText, i, k) ==>
      facts[m.id] == [TopicFact(m.id, m.sourceId, o.seeds[i].0, LabelOf(o.labels, o.seeds[i].0), 0.75, OntologySeed, o.seeds[i].1[k])]
    ensures NoRule(o.rules, m.rawText) && NoSeed(low, o.seeds, m.rawText) ==> facts[m.id][0].origin == Clustering
  {
    assert HasOneFact(low, o, m, facts);
    FirstRuleDecides(o.rules, m);
    FirstSeedDecides(low, o, o.seeds, m);
  }

  ghost predicate NoRule(rules: seq<Rule>, text: string) {
    forall i :: 0 <= i < |rules| ==> !Applies(rules[i], text)
  }

  ghost predicate NoSeed(low: Lowering, seeds: seq<(string, seq<string>)>, text: string) {
    forall i :: 0 <= i < |seeds| ==> NoPhrase(low, seeds[i].1, text)
  }

  lemma CascadeThenClustering(
    low: Lowering, o: Ontology, mentions: seq<Mention>, facts: Facts, waiting: seq<Mention>, flat: seq<nat>,
    given: seq<Assignment>, later: Facts)
    requires Decided(low, o, ByBoth, map[], mentions, facts, waiting)
    requires |flat| == |given| && Filed(waiting, flat, given, facts, later)
    requires forall i :: 0 <= i < |waiting| ==> i in flat
    ensures OneFactEach(low, o, mentions, later)
  {
    RestAre(low, o, ByBoth, mentions);
    forall m | m in mentions
      ensures HasOneFact(low, o, m, later)
    {
      assert Placed(Match(low, o, ByBoth, m), m, facts);
      MatchIsOfMention(low, o, ByBoth, m);
      if m in waiting {
        var i :| 0 <= i < |waiting| && waiting[i] == m;
        assert i in flat;
        var p :| 0 <= p < |flat| && flat[p] == i;
        assert FiledFor(waiting[flat[p]], given[p], later);
      }
    }
    forall id | id in later
      ensures exists m :: m in mentions && m.id == id
    {
      if id in facts {
        assert Known(map[], mentions, id);
      }
    }
  }

  // A topic of rules or seeds: its label, and the first six of its seed phrases.
  function SeedArtifact(o: Ontology, key: string, size: nat): ArtifactFact {
    var phrases := PhrasesOf(o.seeds, key);
    ArtifactFact(key, LabelOf(o.labels, key), size, if |phrases| <= 6 then phrases else phrases[..6], [], OntologySeed)
  }

  lemma {:induction false} PhrasesAreFirst(seeds: seq<(string, seq<string>)>, key: string)
    ensures forall i: nat :: FirstNamed(seeds, key, i) ==> PhrasesOf(seeds, key) == seeds[i].1
    ensures (forall i :: 0 <= i < |seeds| ==> seeds[i].0 != key) ==> PhrasesOf(seeds, key) == []
  {
    if seeds != [] && seeds[0].0 != key {
      PhrasesAreFirst(seeds[1..], key);
      forall i: nat | FirstNamed(seeds, key, i)
        ensures PhrasesOf(seeds, key) == seeds[i].1
      {
        RestNamed(seeds, key, i);
      }
    }
  }

  // The artifact of a matched topic: its size, its label and up to six of its seed phrases.
  lemma SeedArtifactSays(o: Ontology, key: string, size: nat, i: nat)
    requires FirstNamed(o.seeds, key, i)
    ensures var a := SeedArtifact(o, key, size);
      && a.topicKey == key && a.size == size && a.representatives == [] && a.origin == OntologySeed
      && a.topTerms <= o.seeds[i].1 && |a.topTerms| == (if |o.seeds[i].1| < 6 then |o.seeds[i].1| else 6)
      && forall j: nat :: FirstNamed(o.labels, key, j) ==> a.topicLabel == o.labels[j].1
  {
    PhrasesAreFirst(o.seeds, key);
    LabelIsFirst(o.labels, key);
  }

  // One artifact per topic that rules or seeds gave, sized by the mentions that got it.
  ghost predicate TopicArtifacts(low: Lowering, o: Ontology, mentions: seq<Mention>, named: seq<ArtifactFact>) {
    && (forall i :: 0 <= i < |named| ==>
          named[i] == SeedArtifact(o, named[i].topicKey, Hits(low, o, ByBoth, mentions, named[i].topicKey)))
    && (forall i, j :: 0 <= i < j < |named| ==> named[i].topicKey != named[j].topicKey)
    && (forall key :: Hits(low, o, ByBoth, mentions, key) > 0 ==> exists i :: 0 <= i < |named| && named[i].topicKey == key)
  }

  function ClusterArtifact(a: Artifact): ArtifactFact {
    ArtifactFact(a.topicKey, a.topicLabel, a.size, a.topTerms, a.representatives, Clustering)
  }

  // What clustering made of the mentions that nothing matched.
  datatype Fallback = Fallback(clusters: seq<seq<nat>>, assignments: seq<Assignment>, artifacts: seq<Artifact>)

  ghost predicate Clusters(lexer: Lexer, waiting: seq<Mention>, fb: Fallback) {
    var documents := DocumentsOf(waiting);
    && ClustersWithin(fb.clusters, |documents|)
    && IsClusteringOf(TopsOf(lexer, documents), fb.clusters)
    && Listed(lexer, documents, TopsOf(lexer, documents), fb.clusters, fb.assignments, fb.artifacts)
  }

  lemma {:induction false} SizesOfSeedArtifacts(
    order: seq<string>, size: map<string, nat>, found: seq<ArtifactFact>)
    requires |found| == |order| && forall k :: k in order ==> k in size
    requires forall i :: 0 <= i < |found| ==> found[i].size == size[order[i]]
    ensures SizeTotal(found) == SumOf(order, size)
  {
    if order != [] {
      var n := |order| - 1;
      SizesOfSeedArtifacts(order[..n], size, found[..n]);
    }
  }

  lemma NothingToCluster(lexer: Lexer)
    ensures Clusters(lexer, [], Fallback([], [], []))
  {
    NoClusters();
    assert TopsOf(lexer, DocumentsOf([])) == [];
  }

  class Enricher {
    const low: Lowering
    const lexer: Lexer
    const ontology: Ontology
    var facts: Facts
    var artifacts: seq<ArtifactFact>

    constructor (low: Lowering, lexer: Lexer, ontology: Ontology)
      ensures this.low == low && this.lexer == lexer && this.ontology == ontology
      ensures facts == map[] && artifacts == []
    {
      this.low, this.lexer, this.ontology := low, lexer, ontology;
      facts, artifacts := map[], [];
    }

    // The loop of _match_project_topic_rules: the first rule that hits files its fact.
    method MatchRules(m: Mention, counts: Counts) returns (matched: bool, more: Counts)
      modifies this`facts
      ensures var f := RuleFact(ontology.rules, m);
        && matched == f.Some?
        && facts == (if f.Some? then File(old(facts), f.value) else old(facts))
        && more == (if f.Some? then counts.Add(f.value.topicKey) else counts)
    {
      for i := 0 to |ontology.rules|
        invariant facts == old(facts)
        invariant RuleFact(ontology.rules, m) == RuleFact(ontology.rules[i..], m)
      {
        var rule := ontology.rules[i];
        assert ontology.rules[i..][1..] == ontology.rules[i + 1..];
        if rule.evidence.None? {
          continue;
        }
        var evidence := rule.evidence.value(m.rawText);
        if evidence == [] || rule.targetKey == "" {
          continue;
        }
        var topicLabel := if rule.ruleLabel == "" then rule.targetKey else rule.ruleLabel;
        RuleFactIsOfMention(ontology.rules[i..], m);
        facts := File(facts, TopicFact(m.id, m.sourceId, rule.targetKey, topicLabel, 0.84, ProjectRule, evidence[0]));
        return true, counts.Add(rule.targetKey);
      }
      return false, counts;
    }

    // The nested loops over seeds and phrases; the first phrase found files its topic.
    method MatchSeeds(m: Mention, counts: Counts) returns (matched: bool, more: Counts)
      modifies this`facts
      ensures var f := SeedFact(low, ontology, ontology.seeds, m);
        && matched == f.Some?
        && facts == (if f.Some? then File(old(facts), f.value) else old(facts))
        && more == (if f.Some? then counts.Add(f.value.topicKey) else counts)
    {
      for i := 0 to |ontology.seeds|
        invariant facts == old(facts)
        invariant SeedFact(low, ontology, ontology.seeds, m) == SeedFact(low, ontology, ontology.seeds[i..], m)
      {
        assert ontology.seeds[i..][1..] == ontology.seeds[i + 1..];
        var (key, phrases) := ontology.seeds[i];
        var phrase := FirstPhrase(phrases, m.rawText);
        if phrase.Some? {
          facts := File(facts, TopicFact(m.id, m.sourceId, key, LabelOf(ontology.labels, key), 0.75, OntologySeed, phrase.value));
          return true, counts.Add(key);
        }
      }
      return false, counts;
    }

    method FirstPhrase(phrases: seq<string>, text: string) returns (found: Option<string>)
      ensures found == PhraseIn(low, phrases, text)
    {
      for i := 0 to |phrases|
        invariant PhraseIn(low, phrases, text) == PhraseIn(low, phrases[i..], text)
      {
        assert phrases[i..][1..] == phrases[i + 1..];
        if Contains(low.lower(text), low.lower(phrases[i])) {
          return Some(phrases[i]);
        }
      }
      return None;
    }

    // One pass over the candidates; those not matched wait, in order.
    method RunStage(stage: Matcher, candidates: seq<Mention>, counts: Counts) returns (waiting: seq<Mention>, more: Counts)
      requires stage != ByBoth && counts.Valid() && DistinctMentions(candidates)
      requires forall m :: m in candidates ==> m.id !in facts
      modifies this`facts
      ensures Decided(low, ontology, stage, old(facts), candidates, facts, waiting)
      ensures Tallied(low, ontology, stage, candidates, counts, more)
      ensures more.Total() + |waiting| == counts.Total() + |candidates|
    {
      waiting, more := [], counts;
      ghost var base := facts;
      for i := 0 to |candidates|
        invariant DistinctMentions(candidates[..i])
        invariant Decided(low, ontology, stage, base, candidates[..i], facts, waiting)
        invariant Tallied(low, ontology, stage, candidates[..i], counts, more)
        invariant more.Total() + |waiting| == counts.Total() + i
      {
        assert candidates[..i + 1] == candidates[..i] + [candidates[i]];
        assert candidates[i] in candidates;
        waiting, more := Decide(stage, candidates[i], waiting, more, candidates[..i], base, counts);
      }
      assert candidates[..|candidates|] == candidates;
    }

    // One candidate: matched and counted, or waiting.
    method Decide(
      stage: Matcher, m: Mention, waiting: seq<Mention>, tally: Counts, ghost done: seq<Mention>, ghost base: Facts,
      ghost counts: Counts)
      returns (still: seq<Mention>, more: Counts)
      requires stage != ByBoth && DistinctMentions(done + [m]) && m.id !in base
      requires Decided(low, ontology, stage, base, done, facts, waiting)
      requires Tallied(low, ontology, stage, done, counts, tally)
      modifies this`facts
      ensures Decided(low, ontology, stage, base, done + [m], facts, still)
      ensures Tallied(low, ontology, stage, done + [m], counts, more)
      ensures more.Total() + |still| == tally.Total() + |waiting| + 1
    {
      ghost var before := facts;
      var matched: bool;
      if stage == ByRules {
        matched, more := MatchRules(m, tally);
      } else {
        matched, more := MatchSeeds(m, tally);
      }
      CountOne(low, ontology, stage, done, m, counts, tally);
      still := waiting;
      if matched {
        DecideByFact(low, ontology, stage, base, done, before, waiting, m);
      } else {
        DecideToWait(low, ontology, stage, base, done, before, waiting, m);
        still := waiting + [m];
      }
    }

    // Rules first; seeds on all mentions when there are no rules, on the waiting ones when
    // there are both.
    method RunCascade(mentions: seq<Mention>) returns (waiting: seq<Mention>, counts: Counts)
      requires DistinctMentions(mentions) && facts == map[]
      modifies this`facts
      ensures Decided(low, ontology, ByBoth, map[], mentions, facts, waiting)
      ensures counts.Valid() && counts.Total() + |waiting| == |mentions|
      ensures forall key :: counts.At(key) == Hits(low, ontology, ByBoth, mentions, key)
    {
      counts := Counts([], map[]);
      if ontology.rules == [] && ontology.seeds == [] {
        NothingMatches(low, ontology, mentions);
        NothingCounted(low, ontology, mentions);
        return mentions, counts;
      }
      if ontology.rules == [] {
        waiting, counts := RunStage(BySeeds, mentions, counts);
        OneStageIsCascade(low, ontology, BySeeds, mentions, facts, waiting);
        OneStageCounted(low, ontology, BySeeds, mentions);
        return;
      }
      waiting, counts := RunStage(ByRules, mentions, counts);
      RestAre(low, ontology, ByRules, mentions);
      RestAreDistinct(low, ontology, ByRules, mentions);
      if ontology.seeds == [] {
        OneStageIsCascade(low, ontology, ByRules, mentions, facts, waiting);
        OneStageCounted(low, ontology, ByRules, mentions);
        return;
      }
      BothStagesCounted(low, ontology, mentions);
      ghost var first, left := facts, waiting;
      if waiting != [] {
        var candidates := waiting;
        assert forall m :: m in candidates ==> Placed(Match(low, ontology, ByRules, m), m, first);
        waiting, counts := RunStage(BySeeds, candidates, counts);
      }
      StagesCompose(low, ontology, mentions, first, left, facts, waiting);
    }

    // One artifact per counted topic.
    method OntologyArtifacts(counts: Counts) returns (found: seq<ArtifactFact>)
      requires counts.Valid()
      ensures SizeTotal(found) == counts.Total()
      ensures |found| == |counts.order|
      ensures forall i :: 0 <= i < |found| ==> found[i] == SeedArtifact(ontology, counts.order[i], counts.size[counts.order[i]])
    {
      found := [];
      for i := 0 to |counts.order|
        invariant |found| == i
        invariant forall j :: 0 <= j < i ==> found[j] == SeedArtifact(ontology, counts.order[j], counts.size[counts.order[j]])
      {
        var key := counts.order[i];
        var phrases := PhrasesOf(ontology.seeds, key);
        var artifact := ArtifactFact(key, LabelOf(ontology.labels, key), counts.size[key],
                                     if |phrases| <= 6 then phrases else phrases[..6], [], OntologySeed);
        found := found + [artifact];
      }
      SizesOfSeedArtifacts(counts.order, counts.size, found);
    }

    // `named` are the topics of rules and seeds; `fb` is the clustering of the rest, whose
    // facts and artifacts follow.
    method Prepare(mentions: seq<Mention>) returns (ghost named: seq<ArtifactFact>, ghost fb: Fallback)
      requires DistinctMentions(mentions)
      modifies this
      ensures OneFactEach(low, ontology, mentions, facts)
      ensures SizeTotal(artifacts) == |mentions|
      ensures TopicArtifacts(low, ontology, mentions, named)
      ensures artifacts == named + Mapped(ClusterArtifact, fb.artifacts)
      ensures Clusters(lexer, Rest(low, ontology, ByBoth, mentions), fb)
      ensures AssignedFacts(Rest(low, ontology, ByBoth, mentions), fb, facts)
    {
      facts, artifacts := map[], [];
      if mentions == [] {
        NothingToCluster(lexer);
        return [], Fallback([], [], []);
      }
      var waiting, counts := RunCascade(mentions);
      artifacts := OntologyArtifacts(counts);
      named := artifacts;
      ArtifactsOfCounts(low, ontology, mentions, counts, named);
      if waiting == [] {
        NothingToCluster(lexer);
        CascadeThenClustering(low, ontology, mentions, facts, waiting, [], [], facts);
        return named, Fallback([], [], []);
      }
      fb := ClusterWaiting(mentions, waiting);
    }

    method DiscoverTopics(waiting: seq<Mention>)
      returns (assignments: seq<Assignment>, found: seq<Artifact>, clusters: seq<seq<nat>>)
      ensures Clusters(lexer, waiting, Fallback(clusters, assignments, found))
      ensures OncePerMention(waiting, Flattened(clusters), assignments, found)
    {
      assignments, found, clusters := Discover(lexer, DocumentsOf(waiting));
      EveryWaitingOnce(lexer, waiting, Fallback(clusters, assignments, found));
    }

    method ClusterWaiting(ghost mentions: seq<Mention>, waiting: seq<Mention>) returns (ghost fb: Fallback)
      requires DistinctMentions(mentions) && Decided(low, ontology, ByBoth, map[], mentions, facts, waiting)
      modifies this
      ensures OneFactEach(low, ontology, mentions, facts)
      ensures SizeTotal(artifacts) == SizeTotal(old(artifacts)) + |waiting|
      ensures artifacts == old(artifacts) + Mapped(ClusterArtifact, fb.artifacts)
      ensures Clusters(lexer, waiting, fb) && AssignedFacts(waiting, fb, facts)
    {
      ghost var first := facts;
      RestAre(low, ontology, ByBoth, mentions);
      RestAreDistinct(low, ontology, ByBoth, mentions);
      var assignments, found, clusters := DiscoverTopics(waiting);
      fb := Fallback(clusters, assignments, found);
      assert forall m :: m in waiting ==> Placed(Match(low, ontology, ByBoth, m), m, first);
      facts := FileAssignments(waiting, assignments, Flattened(clusters), facts);
      CascadeThenClustering(low, ontology, mentions, first, waiting, Flattened(clusters), assignments, facts);
      artifacts := AddArtifacts(artifacts, found);
    }
  }

  // `flat` lists every waiting mention once, with its assignment, and the sizes add up.
  ghost predicate OncePerMention(
    waiting: seq<Mention>, flat: seq<nat>, assignments: seq<Assignment>, found: seq<Artifact>)
  {
    && |flat| == |assignments| == |waiting| == SizeSum(found)
    && Distinct(flat) && (forall i :: 0 <= i < |waiting| ==> i in flat)
    && (forall p :: 0 <= p < |flat| ==> flat[p] < |waiting| && assignments[p].documentId == waiting[flat[p]].id + WHOLE)
  }

  lemma EveryWaitingOnce(lexer: Lexer, waiting: seq<Mention>, fb: Fallback)
    requires Clusters(lexer, waiting, fb)
    ensures OncePerMention(waiting, Flattened(fb.clusters), fb.assignments, fb.artifacts)
  {
    EveryDocumentOnce(lexer, DocumentsOf(waiting), fb.clusters, fb.assignments, fb.artifacts);
  }

  // Assignment p, of the p-th clustered document, is the only fact of that document's mention.
  ghost predicate AssignedFacts(waiting: seq<Mention>, fb: Fallback, facts: Facts) {
    var flat := Flattened(fb.clusters);
    && |flat| == |fb.assignments| == |waiting|
    && forall p :: 0 <= p < |flat| ==> flat[p] < |waiting| && FiledFor(waiting[flat[p]], fb.assignments[p], facts)
  }

  // `more` counts what `counts` does, and the hits among `done`.
  ghost predicate Tallied(
    low: Lowering, o: Ontology, stage: Matcher, done: seq<Mention>, counts: Counts, more: Counts)
  {
    more.Valid() && forall key :: more.At(key) == counts.At(key) + Hits(low, o, stage, done, key)
  }

  lemma HitsLast(low: Lowering, o: Ontology, stage: Matcher, done: seq<Mention>, m: Mention, key: string)
    ensures Hits(low, o, stage, done + [m], key) == Hits(low, o, stage, done, key) +
      (if Match(low, o, stage, m).Some? && Match(low, o, stage, m).value.topicKey == key then 1 else 0)
  {
    assert (done + [m])[..|done|] == done;
  }

  lemma CountKey(
    low: Lowering, o: Ontology, stage: Matcher, done: seq<Mention>, m: Mention, counts: Counts, tally: Counts, key: string)
    requires tally.At(key) == counts.At(key) + Hits(low, o, stage, done, key)
    ensures Counted(tally, Match(low, o, stage, m)).At(key) == counts.At(key) + Hits(low, o, stage, done + [m], key)
  {
    HitsLast(low, o, stage, done, m, key);
  }

  ghost function Counted(counts: Counts, f: Option<TopicFact>): Counts {
    if f.Some? then counts.Add(f.value.topicKey) else counts
  }

  lemma CountOne(
    low: Lowering, o: Ontology, stage: Matcher, done: seq<Mention>, m: Mention, counts: Counts, tally: Counts)
    requires Tallied(low, o, stage, done, counts, tally)
    ensures var f := Match(low, o, stage, m);
      && Tallied(low, o, stage, done + [m], counts, Counted(tally, f))
      && Counted(tally, f).Total() == tally.Total() + (if f.Some? then 1 else 0)
  {
    var f := Match(low, o, stage, m);
    if f.Some? {
      AddCountsOne(tally, f.value.topicKey);
    }
    forall key
      ensures Counted(tally, f).At(key) == counts.At(key) + Hits(low, o, stage, done + [m], key)
    {
      CountKey(low, o, stage, done, m, counts, tally, key);
    }
  }

  lemma NothingCounted(low: Lowering, o: Ontology, mentions: seq<Mention>)
    requires o.rules == [] && o.seeds == []
    ensures forall key :: Hits(low, o, ByBoth, mentions, key) == 0
  {
    forall key
      ensures Hits(low, o, ByBoth, mentions, key) == 0
    {
      RestOfNothing(low, o, mentions, key);
    }
  }

  lemma OneStageCounted(low: Lowering, o: Ontology, stage: Matcher, mentions: seq<Mention>)
    requires forall m :: m in mentions ==> Match(low, o, stage, m) == Match(low, o, ByBoth, m)
    ensures forall key :: Hits(low, o, stage, mentions, key) == Hits(low, o, ByBoth, mentions, key)
  {
    forall key
      ensures Hits(low, o, stage, mentions, key) == Hits(low, o, ByBoth, mentions, key)
    {
      RestAgrees(low, o, stage, mentions, key);
    }
  }

  lemma BothStagesCounted(low: Lowering, o: Ontology, mentions: seq<Mention>)
    ensures forall key ::
      Hits(low, o, ByRules, mentions, key) + Hits(low, o, BySeeds, Rest(low, o, ByRules, mentions), key) ==
      Hits(low, o, ByBoth, mentions, key)
  {
    forall key
      ensures Hits(low, o, ByRules, mentions, key) + Hits(low, o, BySeeds, Rest(low, o, ByRules, mentions), key) ==
        Hits(low, o, ByBoth, mentions, key)
    {
      RestComposes(low, o, mentions, key);
    }
  }

  lemma ArtifactsOfCounts(low: Lowering, o: Ontology, mentions: seq<Mention>, counts: Counts, named: seq<ArtifactFact>)
    requires counts.Valid() && |named| == |counts.order|
    requires forall key :: counts.At(key) == Hits(low, o, ByBoth, mentions, key)
    requires forall i :: 0 <= i < |named| ==> named[i] == SeedArtifact(o, counts.order[i], counts.size[counts.order[i]])
    ensures TopicArtifacts(low, o, mentions, named)
  {
    forall i | 0 <= i < |named|
      ensures named[i] == SeedArtifact(o, named[i].topicKey, Hits(low, o, ByBoth, mentions, named[i].topicKey))
    {
      assert counts.order[i] in counts.order;
      assert named[i].size == counts.At(named[i].topicKey);
    }
    forall key | Hits(low, o, ByBoth, mentions, key) > 0
      ensures exists i :: 0 <= i < |named| && named[i].topicKey == key
    {
      assert counts.At(key) > 0;
      var i :| 0 <= i < |counts.order| && counts.order[i] == key;
      assert named[i].topicKey == key;
    }
  }

  function PhrasesOf(seeds: seq<(string, seq<string>)>, key: string): seq<string> {
    if seeds == [] then [] else if seeds[0].0 == key then seeds[0].1 else PhrasesOf(seeds[1..], key)
  }

  method AddArtifacts(before: seq<ArtifactFact>, found: seq<Artifact>) returns (all: seq<ArtifactFact>)
    ensures all == before + Mapped(ClusterArtifact, found)
    ensures SizeTotal(all) == SizeTotal(before) + SizeSum(found)
  {
    all := before;
    for i := 0 to |found|
      invariant all == before + Mapped(ClusterArtifact, found[..i])
      invariant SizeTotal(all) == SizeTotal(before) + SizeSum(found[..i])
    {
      var a := found[i];
      var fact := ArtifactFact(a.topicKey, a.topicLabel, a.size, a.topTerms, a.representatives, Clustering);
      assert (all + [fact])[..|all|] == all;
      assert found[..i + 1][..i] == found[..i];
      all := all + [fact];
    }
    assert found[..|found|] == found;
  }
}
