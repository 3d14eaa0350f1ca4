// internal/enrichment/usecase/_anchors.py: cues searched inside a segment, reported in the
// coordinates of the full text.
module Anchors {
  import opened Basics
  import opened Boundaries
  import opened Lexis
  import opened Segmenter
  import opened Sorting
  import opened Texts

  datatype AnchorType =
    Target | Aspect | Issue | Polarity | Negation | Uncertainty | Comparison | ContrastCue | Escalation | Hearsay

  // The enumeration's string values, which break ties when anchors are sorted.
  function TypeValue(t: AnchorType): string {
    match t
    case Target => "target_anchor"
    case Aspect => "aspect_anchor"
    case Issue => "issue_anchor"
    case Polarity => "polarity_cue_anchor"
    case Negation => "negation_cue"
    case Uncertainty => "uncertainty_cue"
    case Comparison => "comparison_cue"
    case ContrastCue => "contrast_cue"
    case Escalation => "escalation_cue"
    case Hearsay => "hearsay_cue"
  }

  datatype Anchor = Anchor(
    kind: AnchorType, name: string, normalized: string, start: nat, end: nat, text: string,
    confidence: real, segment: nat, polarity: Option<real>)

  // ----- (?<!\w) needle (?!\w) ---------------------------------------------------------------

  predicate MatchAt(lx: Alphabet, text: string, needle: string, i: int) {
    lx.OccursAt(text, needle, i) && !lx.WordAt(text, i - 1) && !lx.WordAt(text, i + |needle|)
  }

  // finditer: leftmost matches that do not overlap.
  function SpansFrom(lx: Alphabet, text: string, needle: string, i: nat): seq<nat>
    requires needle != ""
    decreases |text| - i
  {
    if i + |needle| > |text| then []
    else if MatchAt(lx, text, needle, i) then [i] + SpansFrom(lx, text, needle, i + |needle|)
    else SpansFrom(lx, text, needle, i + 1)
  }

  // The starts of the matches; each ends |needle| further on.
  function BoundarySpans(lx: Alphabet, text: string, needle: string): seq<nat> {
    if text == "" || needle == "" then [] else SpansFrom(lx, text, needle, 0)
  }

  lemma {:induction false} SpansMatch(lx: Alphabet, text: string, needle: string, i: nat)
    requires needle != ""
    ensures forall p :: p in SpansFrom(lx, text, needle, i) ==> i <= p && MatchAt(lx, text, needle, p)
    decreases |text| - i
  {
    if i + |needle| <= |text| {
      if MatchAt(lx, text, needle, i) {
        SpansMatch(lx, text, needle, i + |needle|);
      } else {
        SpansMatch(lx, text, needle, i + 1);
      }
    }
  }

  // No match is missed, except under an earlier one.
  lemma {:induction false} SpansComplete(lx: Alphabet, text: string, needle: string, i: nat, p: nat)
    requires needle != "" && i <= p && MatchAt(lx, text, needle, p)
    ensures exists q :: q in SpansFrom(lx, text, needle, i) && q <= p < q + |needle|
    decreases |text| - i
  {
    if MatchAt(lx, text, needle, i) {
      assert i in SpansFrom(lx, text, needle, i);
      if i + |needle| <= p {
        SpansComplete(lx, text, needle, i + |needle|, p);
        var q :| q in SpansFrom(lx, text, needle, i + |needle|) && q <= p < q + |needle|;
        assert q in SpansFrom(lx, text, needle, i);
      }
    } else {
      SpansComplete(lx, text, needle, i + 1, p);
      assert SpansFrom(lx, text, needle, i) == SpansFrom(lx, text, needle, i + 1);
    }
  }

  // ----- The two coordinate systems agree --------------------------------------------------------

  // The cue begins and ends with a word character.
  ghost predicate InSteps(spans: seq<nat>, n: nat) {
    forall k, l :: 0 <= k < l < |spans| ==> spans[k] + n <= spans[l]
  }

  // Matches are reported from left to right and never overlap.
  lemma {:induction false} SpansInOrder(lx: Alphabet, text: string, needle: string, i: nat)
    requires needle != ""
    ensures InSteps(SpansFrom(lx, text, needle, i), |needle|)
    decreases |text| - i
  {
    if i + |needle| <= |text| {
      if MatchAt(lx, text, needle, i) {
        SpansInOrder(lx, text, needle, i + |needle|);
        SpansMatch(lx, text, needle, i + |needle|);
        OneStepMore(SpansFrom(lx, text, needle, i + |needle|), i, |needle|);
      } else {
        SpansInOrder(lx, text, needle, i + 1);
      }
    }
  }

  lemma OneStepMore(rest: seq<nat>, first: nat, n: nat)
    requires InSteps(rest, n) && forall p :: p in rest ==> first + n <= p
    ensures InSteps([first] + rest, n)
  {
    forall l | 0 <= l < |rest|
      ensures first + n <= rest[l]
    {
      assert rest[l] in rest;
    }
  }

  predicate WordEdged(lx: Alphabet, cue: string) {
    cue != "" && lx.isWord(cue[0]) && lx.isWord(cue[|cue| - 1])
  }

  lemma OccursInBoth(lx: Alphabet, text: string, s: Segment, cue: string, k: nat)
    requires SegmentFits(lx, text, s) && k + |cue| <= |s.text|
    ensures lx.OccursAt(s.text, cue, k) <==> lx.OccursAt(text, cue, s.start + k)
  {
    if lx.OccursAt(s.text, cue, k) {
      forall j | 0 <= j < |cue|
        ensures lx.fold(text[s.start + k + j]) == lx.fold(cue[j])
      {
        assert s.text[k + j] == text[s.start + k + j];
      }
    }
    if lx.OccursAt(text, cue, s.start + k) {
      forall j | 0 <= j < |cue|
        ensures lx.fold(s.text[k + j]) == lx.fold(cue[j])
      {
        assert s.text[k + j] == text[s.start + k + j];
      }
    }
  }

  // A cue with word characters at both ends is a whole word in the segment exactly when it
  // is one in the full text, although the segment hides what surrounds it.
  lemma WholeWordInBoth(lx: Alphabet, text: string, s: Segment, cue: string, k: nat)
    requires lx.Valid() && SegmentFits(lx, text, s) && WordEdged(lx, cue) && k + |cue| <= |s.text|
    ensures MatchAt(lx, s.text, cue, k) <==> MatchAt(lx, text, cue, s.start + k)
  {
    OccursInBoth(lx, text, s, cue, k);
    if lx.OccursAt(s.text, cue, k) {
      LeftEdgeAgrees(lx, text, s, cue, k);
      RightEdgeAgrees(lx, text, s, cue, k);
    }
  }

  lemma LeftEdgeAgrees(lx: Alphabet, text: string, s: Segment, cue: string, k: nat)
    requires lx.Valid() && SegmentFits(lx, text, s) && WordEdged(lx, cue) && lx.OccursAt(s.text, cue, k)
    ensures lx.WordAt(s.text, k - 1) == lx.WordAt(text, s.start + k - 1)
  {
    if k == 0 {
      assert lx.fold(s.text[0 + 0]) == lx.fold(cue[0]);
      SameFoldSameClass(lx, s.text[0], cue[0]);
      assert s.text[0] == text[s.start];
    } else {
      assert s.text[k - 1] == text[s.start + k - 1];
    }
  }

  lemma RightEdgeAgrees(lx: Alphabet, text: string, s: Segment, cue: string, k: nat)
    requires lx.Valid() && SegmentFits(lx, text, s) && WordEdged(lx, cue) && lx.OccursAt(s.text, cue, k)
    ensures lx.WordAt(s.text, k + |cue|) == lx.WordAt(text, s.start + k + |cue|)
  {
    var end := k + |cue|;
    if end == |s.text| {
      assert lx.fold(s.text[k + (|cue| - 1)]) == lx.fold(cue[|cue| - 1]);
      SameFoldSameClass(lx, s.text[end - 1], cue[|cue| - 1]);
      assert s.text[end - 1] == text[s.start + end - 1];
    } else {
      assert s.text[end] == text[s.start + end];
    }
  }

  lemma SameFoldSameClass(lx: Alphabet, c: char, d: char)
    requires lx.Valid() && lx.fold(c) == lx.fold(d)
    ensures lx.isWord(c) == lx.isWord(d)
  {
    assert lx.isWord(lx.fold(c)) == lx.isWord(c) && lx.isWord(lx.fold(d)) == lx.isWord(d);
  }

  // ----- Anchors from cues -------------------------------------------------------------------------

  // normalize_alias(cue) or cue.casefold(); label or cue.
  datatype Naming = Naming(alias: string -> string, casefold: string -> string)
  {
    function Normalized(cue: string): string {
      if alias(cue) == "" then casefold(cue) else alias(cue)
    }
  }

  datatype CueGroup = CueGroup(cues: seq<string>, kind: AnchorType, confidence: real, name: Option<string>, polarity: Option<real>)

  // The anchor for one match of one cue at offset p of the segment.
  function AnchorFor(nm: Naming, s: Segment, g: CueGroup, cue: string, p: nat): Anchor
    requires p + |cue| <= |s.text|
  {
    Anchor(g.kind, if g.name.Some? && g.name.value != "" then g.name.value else cue, nm.Normalized(cue), s.start + p, s.start + p + |cue|,
           s.text[p..p + |cue|], g.confidence, s.index, g.polarity)
  }

  // a reports a whole-word match of one of the group's cues inside the segment.
  ghost predicate Reports(lx: Alphabet, nm: Naming, s: Segment, g: CueGroup, a: Anchor) {
    exists cue, p: nat :: cue in g.cues && ReportsMatch(lx, nm, s, g, a, cue, p)
  }

  ghost predicate ReportsMatch(lx: Alphabet, nm: Naming, s: Segment, g: CueGroup, a: Anchor, cue: string, p: nat) {
    cue != "" && MatchAt(lx, s.text, cue, p) && a == AnchorFor(nm, s, g, cue, p)
  }

  // _cue_anchors: every match of every cue, and nothing else.
  method CueAnchors(lx: Alphabet, nm: Naming, s: Segment, g: CueGroup) returns (anchors: seq<Anchor>)
    ensures forall a :: a in anchors ==> Reports(lx, nm, s, g, a)
    ensures forall cue, p: nat :: cue in g.cues && p in BoundarySpans(lx, s.text, cue) ==>
      p + |cue| <= |s.text| && AnchorFor(nm, s, g, cue, p) in anchors
  {
    anchors := [];
    for i := 0 to |g.cues|
      invariant forall a :: a in anchors ==> Reports(lx, nm, s, g, a)
      invariant forall k, p: nat :: 0 <= k < i && p in BoundarySpans(lx, s.text, g.cues[k]) ==>
        p + |g.cues[k]| <= |s.text| && AnchorFor(nm, s, g, g.cues[k], p) in anchors
    {
      var more := AnchorsOfCue(lx, nm, s, g, g.cues[i]);
      forall a | a in more
        ensures Reports(lx, nm, s, g, a)
      {
        var p: nat :| ReportsMatch(lx, nm, s, g, a, g.cues[i], p);
      }
      anchors := anchors + more;
    }
  }

  method AnchorsOfCue(lx: Alphabet, nm: Naming, s: Segment, g: CueGroup, cue: string) returns (anchors: seq<Anchor>)
    ensures forall a :: a in anchors ==> exists p: nat :: ReportsMatch(lx, nm, s, g, a, cue, p)
    ensures forall p: nat :: p in BoundarySpans(lx, s.text, cue) ==>
      p + |cue| <= |s.text| && AnchorFor(nm, s, g, cue, p) in anchors
  {
    anchors := [];
    var spans := BoundarySpans(lx, s.text, cue);
    if cue != "" {
      SpansMatch(lx, s.text, cue, 0);
    }
    for j := 0 to |spans|
      invariant forall a :: a in anchors ==> exists p: nat :: ReportsMatch(lx, nm, s, g, a, cue, p)
      invariant forall l :: 0 <= l < j ==> spans[l] + |cue| <= |s.text| && AnchorFor(nm, s, g, cue, spans[l]) in anchors
    {
      var p := spans[j];
      assert p in spans;
      assert ReportsMatch(lx, nm, s, g, AnchorFor(nm, s, g, cue, p), cue, p);
      anchors := anchors + [AnchorFor(nm, s, g, cue, p)];
    }
  }

  // ----- The lexical extractors ------------------------------------------------------------------

  // The groups in the order the extractor runs them: aspect and issue seeds, polarity cues,
  // then the cue lists; a contrastive segment adds its marker.
  method ExtractLexicalAnchors(
    lx: Alphabet, nm: Naming, s: Segment, groups: seq<CueGroup>) returns (anchors: seq<Anchor>)
    ensures Ordered(anchors, AnchorLe)
    ensures forall a :: a in anchors ==>
      (s.contrastive && a == ContrastMarker(s)) || exists g :: g in groups && Reports(lx, nm, s, g, a)
    ensures s.contrastive ==> ContrastMarker(s) in anchors
    ensures forall g, cue, p: nat :: g in groups && cue in g.cues && p in BoundarySpans(lx, s.text, cue) ==>
      p + |cue| <= |s.text| && AnchorFor(nm, s, g, cue, p) in anchors
  {
    var found: seq<Anchor> := [];
    for i := 0 to |groups|
      invariant forall a :: a in found ==> exists g :: g in groups && Reports(lx, nm, s, g, a)
      invariant forall k, cue, p: nat :: 0 <= k < i && cue in groups[k].cues && p in BoundarySpans(lx, s.text, cue) ==>
        p + |cue| <= |s.text| && AnchorFor(nm, s, groups[k], cue, p) in found
    {
      var more := CueAnchors(lx, nm, s, groups[i]);
      assert groups[i] in groups;
      found := found + more;
    }
    if s.contrastive {
      found := found + [ContrastMarker(s)];
    }
    SortedKeeps(found, AnchorLe);
    AnchorLeIsPreorder();
    SortedOrdered(found, AnchorLe);
    anchors := Sorted(found, AnchorLe);
  }

  function ContrastMarker(s: Segment): Anchor {
    var word := match s.leading case Some(Contrast) => "contrast" case Some(Hard) => "hard" case None => "";
    Anchor(ContrastCue, "contrast_boundary", if word == "" then "contrast" else word, s.start, s.start, word, 0.8, s.index, None)
  }

  // The sort key (start, end, type value).
  predicate AnchorLe(a: Anchor, b: Anchor) {
    || a.start < b.start
    || (a.start == b.start && (a.end < b.end || (a.end == b.end && LexLe(TypeValue(a.kind), TypeValue(b.kind)))))
  }

  lemma AnchorLeIsPreorder()
    ensures Preorder(AnchorLe)
  {
    forall a: Anchor, b: Anchor
      ensures AnchorLe(a, b) || AnchorLe(b, a)
    {
      LexTotal(TypeValue(a.kind), TypeValue(b.kind));
    }
    forall a: Anchor, b: Anchor, c: Anchor | AnchorLe(a, b) && AnchorLe(b, c)
      ensures AnchorLe(a, c)
    {
      var x, y, z := TypeValue(a.kind), TypeValue(b.kind), TypeValue(c.kind);
      if LexLe(x, y) && LexLe(y, z) {
        LexTransitive(x, y, z);
      }
    }
  }

  // In the full text, a covers an occurrence of the cue, and a whole-word one if the cue
  // begins and ends with a word character.
  ghost predicate StandsFor(lx: Alphabet, text: string, cue: string, a: Anchor) {
    && |cue| == a.end - a.start && lx.OccursAt(text, cue, a.start)
    && (WordEdged(lx, cue) ==> MatchAt(lx, text, cue, a.start))
  }

  // The anchor is one of its group: the group's kind, confidence and polarity, and the group's
  // name if it has one, or else the cue.
  ghost predicate Describes(nm: Naming, s: Segment, g: CueGroup, cue: string, a: Anchor) {
    && a.kind == g.kind && a.confidence == g.confidence && a.polarity == g.polarity && a.segment == s.index
    && (match g.name case None => a.name == cue case Some(name) => a.name == (if name == "" then cue else name))
    && (nm.alias(cue) != "" ==> a.normalized == nm.alias(cue)) && (nm.alias(cue) == "" ==> a.normalized == nm.casefold(cue))
  }

  // Offsets of a lexical anchor are offsets of the full text, inside the segment; and a cue
  // that begins and ends with a word character is a whole word of the full text there.
  lemma LexicalAnchorIsInText(lx: Alphabet, nm: Naming, text: string, s: Segment, g: CueGroup, a: Anchor)
    requires lx.Valid() && SegmentFits(lx, text, s) && Reports(lx, nm, s, g, a)
    ensures s.start <= a.start < a.end <= s.end && text[a.start..a.end] == a.text
    ensures exists cue :: cue in g.cues && StandsFor(lx, text, cue, a) && Describes(nm, s, g, cue, a)
  {
    var cue, p: nat :| cue in g.cues && ReportsMatch(lx, nm, s, g, a, cue, p);
    ReportedMatch(lx, nm, text, s, g, a, cue, p);
  }

  lemma ReportedMatch(
    lx: Alphabet, nm: Naming, text: string, s: Segment, g: CueGroup, a: Anchor, cue: string, p: nat)
    requires lx.Valid() && SegmentFits(lx, text, s) && ReportsMatch(lx, nm, s, g, a, cue, p)
    ensures s.start <= a.start < a.end <= s.end && text[a.start..a.end] == a.text
    ensures StandsFor(lx, text, cue, a) && Describes(nm, s, g, cue, a)
  {
    MatchStandsFor(lx, text, s, cue, p, a);
    SliceOfSegment(lx, text, s, p, |cue|);
  }

  lemma MatchStandsFor(lx: Alphabet, text: string, s: Segment, cue: string, p: nat, a: Anchor)
    requires lx.Valid() && SegmentFits(lx, text, s) && MatchAt(lx, s.text, cue, p)
    requires a.start == s.start + p && a.end == a.start + |cue|
    ensures StandsFor(lx, text, cue, a)
  {
    OccursInBoth(lx, text, s, cue, p);
    if WordEdged(lx, cue) {
      WholeWordInBoth(lx, text, s, cue, p);
    }
  }

  lemma SliceOfSegment(lx: Alphabet, text: string, s: Segment, p: nat, n: nat)
    requires SegmentFits(lx, text, s) && p + n <= |s.text|
    ensures s.text[p..p + n] == text[s.start + p..s.start + p + n]
  {
    var slice := s.text[p..p + n];
    forall j | 0 <= j < n
      ensures slice[j] == text[s.start + p..s.start + p + n][j]
    {
      assert slice[j] == s.text[p + j] == text[s.start + (p + j)];
    }
  }

  // Conversely, a whole-word occurrence in the full text that lies in the segment is
  // reported, unless an earlier match in the segment overlaps it.
  lemma WholeWordIsReported(lx: Alphabet, text: string, s: Segment, cue: string, at: nat)
    requires lx.Valid() && SegmentFits(lx, text, s) && WordEdged(lx, cue)
    requires MatchAt(lx, text, cue, at) && s.start <= at && at + |cue| <= s.end
    ensures exists q :: q in BoundarySpans(lx, s.text, cue) && q <= at - s.start < q + |cue|
  {
    var k := at - s.start;
    assert MatchAt(lx, s.text, cue, k) by {
      WholeWordInBoth(lx, text, s, cue, k);
    }
    MatchIsSpanned(lx, s.text, cue, k);
  }

  lemma MatchIsSpanned(lx: Alphabet, text: string, cue: string, p: nat)
    requires cue != "" && MatchAt(lx, text, cue, p)
    ensures exists q :: q in BoundarySpans(lx, text, cue) && q <= p < q + |cue|
  {
    SpansComplete(lx, text, cue, 0, p);
    assert BoundarySpans(lx, text, cue) == SpansFrom(lx, text, cue, 0);
  }

  // The extractor's list goes by start, then by end, then by the name of the type.
  lemma AnchorsAreSorted(anchors: seq<Anchor>, i: nat, j: nat)
    requires Ordered(anchors, AnchorLe) && i < j < |anchors|
    ensures anchors[i].start <= anchors[j].start
    ensures anchors[i].start == anchors[j].start ==> anchors[i].end <= anchors[j].end
    ensures anchors[i].start == anchors[j].start && anchors[i].end == anchors[j].end ==>
      LexLe(TypeValue(anchors[i].kind), TypeValue(anchors[j].kind))
  {
    assert AnchorLe(anchors[i], anchors[j]);
  }

  // The marker of a contrastive segment is an empty anchor at its start that quotes the kind of
  // the boundary.
  lemma ContrastMarkerSays(lx: Alphabet, lower: Lower, text: string, segments: seq<Segment>, fallback: bool, i: nat)
    requires IsSegmentation(lx, lower, text, segments, fallback) && i < |segments| && segments[i].contrastive
    ensures var m := ContrastMarker(segments[i]);
      && m.kind == ContrastCue && m.start == m.end == segments[i].start && m.segment == i
      && m.text == m.normalized == "contrast" && m.name == "contrast_boundary" && m.confidence == 0.8
  {
    ContrastiveIsLed(lx, lower, text, segments, fallback, i);
  }

  lemma ContrastiveIsLed(lx: Alphabet, lower: Lower, text: string, segments: seq<Segment>, fallback: bool, i: nat)
    requires IsSegmentation(lx, lower, text, segments, fallback) && i < |segments| && segments[i].contrastive
    ensures segments[i].leading == Some(Contrast) && segments[i].index == i
  {
    if !fallback {
      assert Labelled(lower, text, AllSpans(lx, text), segments[i]);
    }
  }

  // ----- Target anchors: searched in the full text, kept inside the segment -----------------------

  datatype TargetInfo = TargetInfo(name: string, normalized: string, inherited: bool)

  function TargetAnchor(text: string, s: Segment, info: TargetInfo, p: nat, n: nat): Anchor
    requires p + n <= |text|
  {
    Anchor(Target, info.name, info.normalized, p, p + n, text[p..p + n],
           if info.inherited then 0.55 else 0.8, s.index, None)
  }

  method BuildTargetAnchors(lx: Alphabet, text: string, s: Segment, target: string, info: TargetInfo)
    returns (anchors: seq<Anchor>)
    ensures forall a :: a in anchors ==>
      && s.start <= a.start && a.end <= s.end && a.end == a.start + |target| <= |text|
      && MatchAt(lx, text, target, a.start) && a == TargetAnchor(text, s, info, a.start, |target|)
    ensures forall p :: p in BoundarySpans(lx, text, target) && s.start <= p && p + |target| <= s.end ==>
      p + |target| <= |text| && TargetAnchor(text, s, info, p, |target|) in anchors
  {
    anchors := [];
    var spans := BoundarySpans(lx, text, target);
    if target != "" {
      SpansMatch(lx, text, target, 0);
    }
    for j := 0 to |spans|
      invariant forall a :: a in anchors ==>
        && s.start <= a.start && a.end <= s.end && a.end == a.start + |target| <= |text|
        && MatchAt(lx, text, target, a.start) && a == TargetAnchor(text, s, info, a.start, |target|)
      invariant forall l :: 0 <= l < j && s.start <= spans[l] && spans[l] + |target| <= s.end ==>
        spans[l] + |target| <= |text| && TargetAnchor(text, s, info, spans[l], |target|) in anchors
    {
      var p := spans[j];
      assert p in spans;
      if p < s.start || p + |target| > s.end {
        continue;
      }
      anchors := anchors + [TargetAnchor(text, s, info, p, |target|)];
    }
  }

  lemma TargetAnchorSays(text: string, s: Segment, info: TargetInfo, p: nat, n: nat)
    requires p + n <= |text|
    ensures var a := TargetAnchor(text, s, info, p, n);
      && a.kind == Target && a.start == p && a.end == p + n && a.text == text[p..p + n] && a.segment == s.index
      && a.name == info.name && a.normalized == info.normalized && a.polarity == None
      && (info.inherited ==> a.confidence == 0.55) && (!info.inherited ==> a.confidence == 0.8)
  {
  }

  // A target found in the full text is also a whole word for whoever sees the segment only.
  lemma TargetAgreesWithSegment(lx: Alphabet, text: string, s: Segment, target: string, p: nat)
    requires lx.Valid() && SegmentFits(lx, text, s) && WordEdged(lx, target)
    requires s.start <= p && p + |target| <= s.end
    ensures MatchAt(lx, text, target, p) <==> MatchAt(lx, s.text, target, p - s.start)
  {
    var k: nat := p - s.start;
    assert MatchAt(lx, text, target, s.start + k) <==> MatchAt(lx, s.text, target, k) by {
      WholeWordInBoth(lx, text, s, target, k);
    }
  }

  // ----- A cue that cannot fire ---------------------------------------------------------------------

  // The question mark is an uncertainty cue and also a hard boundary, so it is cut out of
  // every segment: outside the fallback that cue never matches.
  lemma QuestionMarkCueIsDead(lx: Alphabet, text: string, segments: seq<Segment>, i: nat)
    requires WordsFit(lx) && i < |segments|
    requires Segmented(lx, text, AllSpans(lx, text), segments, |text|)
    ensures BoundarySpans(lx, segments[i].text, "?") == []
  {
    NoHardCharacterInSegments(lx, text, segments, i);
    NoMatchNoSpan(lx, segments[i].text, "?", 0);
  }

  lemma {:induction false} NoMatchNoSpan(lx: Alphabet, text: string, needle: string, i: nat)
    requires lx.Valid() && needle == "?" && forall c :: c in text ==> !IsHard(c)
    ensures SpansFrom(lx, text, needle, i) == []
    decreases |text| - i
  {
    if i < |text| {
      assert text[i] in text;
      assert !IsHard(text[i]) && IsHard(needle[0]);
      assert lx.fold(text[i]) != lx.fold(needle[0]);
      assert lx.fold(text[i + 0]) != lx.fold(needle[0]);
      NoMatchNoSpan(lx, text, needle, i + 1);
    }
  }

  // ----- When it does fire ---------------------------------------------------------------------------

  lemma SpansIffMatch(lx: Alphabet, text: string, needle: string)
    requires needle != ""
    ensures BoundarySpans(lx, text, needle) != [] <==> exists p: nat :: MatchAt(lx, text, needle, p)
  {
    SpansMatch(lx, text, needle, 0);
    if BoundarySpans(lx, text, needle) != [] {
      assert BoundarySpans(lx, text, needle)[0] in SpansFrom(lx, text, needle, 0);
    }
    if p: nat :| MatchAt(lx, text, needle, p) {
      MatchIsSpanned(lx, text, needle, p);
    }
  }

  lemma QuestionMarkAt(lx: Alphabet, text: string, p: nat)
    requires lx.Valid() && lx.OccursAt(text, "?", p)
    ensures p < |text| && text[p] == '?'
  {
    assert lx.fold(text[p + 0]) == lx.fold("?"[0]);
    assert IsHard('?');
  }

  // White space around the only segment hides no word character.
  lemma FallbackEdge(lx: Alphabet, text: string, s: Segment, q: int)
    requires lx.Valid() && SegmentFits(lx, text, s) && SpacesAround(text, s) && -1 <= q <= |s.text|
    ensures lx.WordAt(s.text, q) == lx.WordAt(text, s.start + q)
  {
    if 0 <= q < |s.text| {
      assert s.text[q] == text[s.start + q];
    } else if 0 <= s.start + q < |text| {
      assert IsSpace(text[s.start + q]);
    }
  }

  lemma FallbackMatch(lx: Alphabet, text: string, s: Segment, k: nat)
    requires lx.Valid() && SegmentFits(lx, text, s) && SpacesAround(text, s) && k < |s.text|
    ensures MatchAt(lx, s.text, "?", k) <==> MatchAt(lx, text, "?", s.start + k)
  {
    OccursInBoth(lx, text, s, "?", k);
    FallbackEdge(lx, text, s, k - 1);
    FallbackEdge(lx, text, s, k + 1);
  }

  lemma MatchIsInFallback(lx: Alphabet, text: string, s: Segment, p: nat)
    requires lx.Valid() && SegmentFits(lx, text, s) && SpacesAround(text, s) && MatchAt(lx, text, "?", p)
    ensures s.start <= p < s.end && MatchAt(lx, s.text, "?", p - s.start)
  {
    QuestionMarkAt(lx, text, p);
    FallbackMatch(lx, text, s, p - s.start);
  }

  lemma MatchIsInText(lx: Alphabet, text: string, s: Segment, k: nat)
    requires lx.Valid() && SegmentFits(lx, text, s) && SpacesAround(text, s) && MatchAt(lx, s.text, "?", k)
    ensures MatchAt(lx, text, "?", s.start + k)
  {
    FallbackMatch(lx, text, s, k);
  }

  lemma FallbackFires(lx: Alphabet, text: string, s: Segment)
    requires lx.Valid() && SegmentFits(lx, text, s) && SpacesAround(text, s)
    ensures BoundarySpans(lx, s.text, "?") != [] <==> exists p: nat :: MatchAt(lx, text, "?", p)
  {
    SpansIffMatch(lx, s.text, "?");
    if k: nat :| MatchAt(lx, s.text, "?", k) {
      MatchIsInText(lx, text, s, k);
    }
    if p: nat :| MatchAt(lx, text, "?", p) {
      MatchIsInFallback(lx, text, s, p);
    }
  }

  lemma BlankHasNoQuestionMark(lx: Alphabet, text: string, p: nat)
    requires lx.Valid() && Strip(text, IsSpace) == ""
    ensures !MatchAt(lx, text, "?", p)
  {
    StripShape(text, IsSpace);
    if lx.OccursAt(text, "?", p) {
      QuestionMarkAt(lx, text, p);
    }
  }

  // The cue fires on some segment of a text exactly when the text consists of boundaries,
  // spaces and commas only, and has a question mark that touches no word.
  lemma QuestionMarkFiresExactlyWhen(
    lx: Alphabet, lower: Lower, text: string, segments: seq<Segment>, fallback: bool)
    requires WordsFit(lx) && IsSegmentation(lx, lower, text, segments, fallback)
    ensures (exists i :: 0 <= i < |segments| && BoundarySpans(lx, segments[i].text, "?") != []) <==>
      OnlyBoundaries(lx, text) && exists p: nat :: MatchAt(lx, text, "?", p)
  {
    if segments == [] {
      NoQuestionMark(lx, text);
    } else if fallback {
      FallbackFires(lx, text, segments[0]);
    } else {
      NoneFires(lx, text, segments);
    }
  }

  lemma NoQuestionMark(lx: Alphabet, text: string)
    requires lx.Valid() && Strip(text, IsSpace) == ""
    ensures forall p: nat :: !MatchAt(lx, text, "?", p)
  {
    forall p: nat
      ensures !MatchAt(lx, text, "?", p)
    {
      BlankHasNoQuestionMark(lx, text, p);
    }
  }

  lemma NoneFires(lx: Alphabet, text: string, segments: seq<Segment>)
    requires WordsFit(lx) && Segmented(lx, text, AllSpans(lx, text), segments, |text|)
    ensures forall i :: 0 <= i < |segments| ==> BoundarySpans(lx, segments[i].text, "?") == []
  {
    forall i | 0 <= i < |segments|
      ensures BoundarySpans(lx, segments[i].text, "?") == []
    {
      QuestionMarkCueIsDead(lx, text, segments, i);
    }
  }

  // The cue fires on a question mark that is the whole text.
  lemma BareQuestionMarkFires(lx: Alphabet, lower: Lower, segments: seq<Segment>, fallback: bool)
    requires WordsFit(lx) && IsSegmentation(lx, lower, "?", segments, fallback)
    ensures exists i :: 0 <= i < |segments| && BoundarySpans(lx, segments[i].text, "?") != []
  {
    QuestionMarkIsBoundary(lx);
    assert MatchAt(lx, "?", "?", 0);
    QuestionMarkFiresExactlyWhen(lx, lower, "?", segments, fallback);
  }

  lemma QuestionMarkIsBoundary(lx: Alphabet)
    requires WordsFit(lx)
    ensures OnlyBoundaries(lx, "?")
  {
    AllSpansInRow(lx, "?");
    var b :| b in AllSpans(lx, "?") && b.start <= 0 < b.end;
    assert InBoundary(AllSpans(lx, "?"), 0);
  }

  // It does not fire on one that ends a question.
  lemma QuestionDoesNotFire(lx: Alphabet, lower: Lower, segments: seq<Segment>, fallback: bool)
    requires WordsFit(lx) && IsSegmentation(lx, lower, "ok?", segments, fallback) && lx.isWord('k')
    ensures !exists i :: 0 <= i < |segments| && BoundarySpans(lx, segments[i].text, "?") != []
  {
    forall p: nat
      ensures !MatchAt(lx, "ok?", "?", p)
    {
      if lx.OccursAt("ok?", "?", p) {
        QuestionMarkAt(lx, "ok?", p);
        assert lx.WordAt("ok?", 1);
      }
    }
    QuestionMarkFiresExactlyWhen(lx, lower, "ok?", segments, fallback);
  }
}
