// internal/enrichment/usecase/_segmenter.py: where a text may be cut.
module Boundaries {
  import opened Basics
  import opened Lexis
  import opened Sorting

  datatype Kind = Hard | Contrast

  datatype Span = Span(start: nat, end: nat, kind: Kind)

  // Contrast words begin and end with a word character and hold nothing but those and spaces.
  ghost predicate WordFits(lx: Alphabet, w: string) {
    && w != "" && lx.isWord(w[0]) && lx.isWord(w[|w| - 1])
    && forall k :: 0 <= k < |w| ==> lx.isWord(w[k]) || w[k] == ' '
  }

  ghost predicate AllWordsFit(lx: Alphabet, words: seq<string>) {
    forall w :: w in words ==> WordFits(lx, w)
  }

  ghost predicate WordsFit(lx: Alphabet) {
    lx.Valid() && AllWordsFit(lx, lx.contrast)
  }

  // ----- Hard boundaries: maximal runs of one class ---------------------------------------

  function RunEnd(text: string, i: nat, cls: char -> bool): (end: nat)
    requires i <= |text|
    ensures i <= end <= |text|
    ensures forall p :: i <= p < end ==> cls(text[p])
    ensures end < |text| ==> !cls(text[end])
    decreases |text| - i
  {
    if i < |text| && cls(text[i]) then RunEnd(text, i + 1, cls) else i
  }

  function HardSpans(text: string, i: nat): seq<Span>
    requires i <= |text|
    decreases |text| - i
  {
    if i == |text| then []
    else if IsStop(text[i]) then
      var end := RunEnd(text, i, IsStop);
      [Span(i, end, Hard)] + HardSpans(text, end)
    else if IsBar(text[i]) then
      var end := RunEnd(text, i, IsBar);
      [Span(i, end, Hard)] + HardSpans(text, end)
    else HardSpans(text, i + 1)
  }

  // ----- Contrast words: the first alternative that fits, between word boundaries ----------

  function ContrastAt(lx: Alphabet, words: seq<string>, text: string, i: nat): Option<nat> {
    if words == [] then None
    else if lx.OccursAt(text, words[0], i) && lx.WordBoundary(text, i + |words[0]|) then Some(|words[0]|)
    else ContrastAt(lx, words[1..], text, i)
  }

  function ContrastSpans(lx: Alphabet, text: string, i: nat): seq<Span>
    requires i <= |text|
    decreases |text| - i
  {
    if i == |text| then []
    else if lx.WordBoundary(text, i) then
      match ContrastAt(lx, lx.contrast, text, i)
      case Some(n) =>
        if 0 < n && i + n <= |text| then [Span(i, i + n, Contrast)] + ContrastSpans(lx, text, i + n)
        else ContrastSpans(lx, text, i + 1)
      case None => ContrastSpans(lx, text, i + 1)
    else ContrastSpans(lx, text, i + 1)
  }

  // ----- What a boundary is -------------------------------------------------------------------

  ghost predicate SpanFits(lx: Alphabet, text: string, b: Span) {
    && b.start < b.end <= |text|
    && match b.kind
       case Hard => forall p :: b.start <= p < b.end ==> IsHard(text[p])
       case Contrast =>
         && lx.WordBoundary(text, b.start) && lx.WordBoundary(text, b.end)
         && lx.isWord(text[b.start]) && lx.isWord(text[b.end - 1])
         && forall p :: b.start <= p < b.end ==> !IsHard(text[p])
  }

  // Spans from i on, in order and apart.
  ghost predicate InRow(spans: seq<Span>, i: nat) {
    && (forall k :: 0 <= k < |spans| ==> i <= spans[k].start < spans[k].end)
    && (forall k, l :: 0 <= k < l < |spans| ==> spans[k].end <= spans[l].start)
  }

  lemma InRowPrepend(b: Span, rest: seq<Span>, i: nat)
    requires i <= b.start < b.end && InRow(rest, b.end)
    ensures InRow([b] + rest, i)
  {
  }

  ghost predicate AllFit(lx: Alphabet, text: string, spans: seq<Span>, kind: Kind) {
    forall b :: b in spans ==> SpanFits(lx, text, b) && b.kind == kind
  }

  lemma AllFitPrepend(lx: Alphabet, text: string, b: Span, rest: seq<Span>)
    requires SpanFits(lx, text, b) && AllFit(lx, text, rest, b.kind)
    ensures AllFit(lx, text, [b] + rest, b.kind)
  {
  }

  lemma {:induction false} HardSpansFit(lx: Alphabet, text: string, i: nat)
    requires i <= |text|
    ensures InRow(HardSpans(text, i), i)
    ensures AllFit(lx, text, HardSpans(text, i), Hard)
    decreases |text| - i
  {
    if i < |text| {
      if IsHard(text[i]) {
        var b := FirstRun(text, i);
        HardSpansFit(lx, text, b.end);
        InRowPrepend(b, HardSpans(text, b.end), i);
        AllFitPrepend(lx, text, b, HardSpans(text, b.end));
      } else {
        HardSpansFit(lx, text, i + 1);
        RowLater(HardSpans(text, i + 1), i);
      }
    }
  }

  lemma FirstRun(text: string, i: nat) returns (b: Span)
    requires i < |text| && IsHard(text[i])
    ensures b.start == i < b.end <= |text| && b.kind == Hard
    ensures forall p :: i <= p < b.end ==> IsHard(text[p])
    ensures HardSpans(text, i) == [b] + HardSpans(text, b.end)
    ensures b == Span(i, if IsStop(text[i]) then RunEnd(text, i, IsStop) else RunEnd(text, i, IsBar), Hard)
  {
    b := Span(i, if IsStop(text[i]) then RunEnd(text, i, IsStop) else RunEnd(text, i, IsBar), Hard);
  }

  lemma {:induction false} HardSpansComplete(text: string, i: nat, p: nat)
    requires i <= p < |text| && IsHard(text[p])
    ensures exists b :: b in HardSpans(text, i) && b.start <= p < b.end
    decreases |text| - i
  {
    if IsHard(text[i]) {
      var b := HardSpans(text, i)[0];
      assert b in HardSpans(text, i);
      if b.end <= p {
        HardSpansComplete(text, b.end, p);
        var c :| c in HardSpans(text, b.end) && c.start <= p < c.end;
        assert c in HardSpans(text, i);
      }
    } else {
      HardSpansComplete(text, i + 1, p);
    }
  }

  // b is a run of one class that cannot be extended.
  ghost predicate IsRun(text: string, b: Span, cls: char -> bool) {
    && b.start < b.end <= |text| && (forall p :: b.start <= p < b.end ==> cls(text[p]))
    && (b.start == 0 || !cls(text[b.start - 1])) && (b.end == |text| || !cls(text[b.end]))
  }

  // No run of either class reaches across i.
  ghost predicate RunsEndAt(text: string, i: nat) {
    0 < i < |text| ==> !(IsStop(text[i - 1]) && IsStop(text[i])) && !(IsBar(text[i - 1]) && IsBar(text[i]))
  }

  // With HardSpansComplete: the hard boundaries are exactly the longest runs of either class.
  lemma {:induction false} HardSpansAreRuns(text: string, i: nat, b: Span)
    requires i <= |text| && RunsEndAt(text, i) && b in HardSpans(text, i)
    ensures IsRun(text, b, IsStop) || IsRun(text, b, IsBar)
    decreases |text| - i
  {
    if IsHard(text[i]) {
      var first := FirstRun(text, i);
      RunIsLongest(text, i, first);
      if b != first {
        HardSpansAreRuns(text, first.end, b);
      }
    } else {
      HardSpansAreRuns(text, i + 1, b);
    }
  }

  lemma RunIsLongest(text: string, i: nat, b: Span)
    requires i < |text| && IsHard(text[i]) && RunsEndAt(text, i)
    requires b == Span(i, if IsStop(text[i]) then RunEnd(text, i, IsStop) else RunEnd(text, i, IsBar), Hard)
    ensures IsRun(text, b, IsStop) || IsRun(text, b, IsBar)
    ensures RunsEndAt(text, b.end)
  {
  }

  lemma {:induction false} ContrastFits(lx: Alphabet, words: seq<string>, text: string, i: nat)
    requires lx.Valid() && i < |text| && lx.WordBoundary(text, i)
    requires AllWordsFit(lx, words)
    ensures var found := ContrastAt(lx, words, text, i);
      found.Some? ==> SpanFits(lx, text, Span(i, i + found.value, Contrast))
  {
    if words != [] {
      if lx.OccursAt(text, words[0], i) && lx.WordBoundary(text, i + |words[0]|) {
        assert words[0] in words;
        WordSpanFits(lx, words[0], text, i);
      } else {
        OthersFit(lx, words);
        ContrastFits(lx, words[1..], text, i);
      }
    }
  }

  lemma OthersFit(lx: Alphabet, words: seq<string>)
    requires words != [] && AllWordsFit(lx, words)
    ensures AllWordsFit(lx, words[1..])
  {
    assert forall w :: w in words[1..] ==> w in words;
  }

  lemma WordSpanFits(lx: Alphabet, w: string, text: string, i: nat)
    requires lx.Valid() && WordFits(lx, w) && lx.OccursAt(text, w, i)
    requires lx.WordBoundary(text, i) && lx.WordBoundary(text, i + |w|)
    ensures SpanFits(lx, text, Span(i, i + |w|, Contrast))
  {
    OccurrenceFits(lx, w, text, i);
  }

  lemma CharacterFits(lx: Alphabet, c: char, d: char)
    requires lx.Valid() && lx.fold(c) == lx.fold(d) && (lx.isWord(d) || d == ' ')
    ensures !IsHard(c) && (lx.isWord(d) ==> lx.isWord(c))
  {
    assert lx.isWord(lx.fold(c)) == lx.isWord(c) && lx.isWord(lx.fold(d)) == lx.isWord(d);
  }

  lemma OccurrenceFits(lx: Alphabet, w: string, text: string, i: nat)
    requires lx.Valid() && WordFits(lx, w) && lx.OccursAt(text, w, i)
    ensures lx.isWord(text[i]) && lx.isWord(text[i + |w| - 1])
    ensures forall p :: i <= p < i + |w| ==> !IsHard(text[p])
  {
    CharacterFits(lx, text[i + 0], w[0]);
    CharacterFits(lx, text[i + (|w| - 1)], w[|w| - 1]);
    forall p | i <= p < i + |w|
      ensures !IsHard(text[p])
    {
      CharacterFits(lx, text[i + (p - i)], w[p - i]);
    }
  }

  lemma {:induction false} ContrastSpansFit(lx: Alphabet, text: string, i: nat)
    requires WordsFit(lx) && i <= |text|
    ensures InRow(ContrastSpans(lx, text, i), i)
    ensures AllFit(lx, text, ContrastSpans(lx, text, i), Contrast)
    decreases |text| - i
  {
    if i < |text| {
      if lx.WordBoundary(text, i) && ContrastAt(lx, lx.contrast, text, i).Some? {
        ContrastFits(lx, lx.contrast, text, i);
        var b := Span(i, i + ContrastAt(lx, lx.contrast, text, i).value, Contrast);
        ContrastSpansFit(lx, text, b.end);
        InRowPrepend(b, ContrastSpans(lx, text, b.end), i);
        AllFitPrepend(lx, text, b, ContrastSpans(lx, text, b.end));
      } else {
        ContrastSpansFit(lx, text, i + 1);
        RowLater(ContrastSpans(lx, text, i + 1), i);
      }
    }
  }

  lemma RowLater(spans: seq<Span>, i: nat)
    requires InRow(spans, i + 1)
    ensures InRow(spans, i)
  {
  }

  // w stands at p as a whole word.
  ghost predicate WholeWord(lx: Alphabet, text: string, w: string, p: nat) {
    lx.OccursAt(text, w, p) && lx.WordBoundary(text, p) && lx.WordBoundary(text, p + |w|)
  }

  // The k-th contrast word stands at p, and none of the earlier ones does.
  ghost predicate FirstWordAt(lx: Alphabet, text: string, k: nat, p: nat) {
    && k < |lx.contrast| && WholeWord(lx, text, lx.contrast[k], p)
    && forall l :: 0 <= l < k ==> !WholeWord(lx, text, lx.contrast[l], p)
  }

  lemma {:induction false} ContrastAtIsFirst(lx: Alphabet, text: string, p: nat, k: nat)
    requires k <= |lx.contrast| && lx.WordBoundary(text, p)
    requires forall l :: 0 <= l < k ==> !WholeWord(lx, text, lx.contrast[l], p)
    ensures var found := ContrastAt(lx, lx.contrast[k..], text, p);
      && (found.Some? ==> exists l: nat :: FirstWordAt(lx, text, l, p) && found.value == |lx.contrast[l]|)
      && (found.None? ==> forall l :: 0 <= l < |lx.contrast| ==> !WholeWord(lx, text, lx.contrast[l], p))
    decreases |lx.contrast| - k
  {
    if k < |lx.contrast| {
      assert lx.contrast[k..][1..] == lx.contrast[k + 1..];
      if WholeWord(lx, text, lx.contrast[k], p) {
        assert FirstWordAt(lx, text, k, p);
      } else {
        ContrastAtIsFirst(lx, text, p, k + 1);
      }
    }
  }

  // A contrast boundary is a whole contrast word of the text, the first listed one that stands there.
  lemma {:induction false} ContrastSpansAreWords(lx: Alphabet, text: string, i: nat, b: Span)
    requires i <= |text| && b in ContrastSpans(lx, text, i)
    ensures exists k: nat :: FirstWordAt(lx, text, k, b.start) && b.end == b.start + |lx.contrast[k]|
    decreases |text| - i
  {
    assert lx.contrast[0..] == lx.contrast;
    if lx.WordBoundary(text, i) {
      ContrastAtIsFirst(lx, text, i, 0);
      var found := ContrastAt(lx, lx.contrast, text, i);
      if found.Some? && 0 < found.value && i + found.value <= |text| {
        if b != Span(i, i + found.value, Contrast) {
          ContrastSpansAreWords(lx, text, i + found.value, b);
        }
      } else {
        ContrastSpansAreWords(lx, text, i + 1, b);
      }
    } else {
      ContrastSpansAreWords(lx, text, i + 1, b);
    }
  }

  // No whole contrast word is missed, unless a boundary that begins earlier overlaps it.
  lemma {:induction false} ContrastSpansComplete(lx: Alphabet, text: string, i: nat, w: string, p: nat)
    requires WordsFit(lx) && w in lx.contrast && i <= p < |text| && WholeWord(lx, text, w, p)
    ensures exists b :: b in ContrastSpans(lx, text, i) && b.start <= p < b.end
    decreases |text| - i
  {
    if lx.WordBoundary(text, i) && ContrastAt(lx, lx.contrast, text, i).Some? {
      ContrastFits(lx, lx.contrast, text, i);
      var b := Span(i, i + ContrastAt(lx, lx.contrast, text, i).value, Contrast);
      assert ContrastSpans(lx, text, i) == [b] + ContrastSpans(lx, text, b.end);
      assert b in ContrastSpans(lx, text, i);
      if b.end <= p {
        ContrastSpansComplete(lx, text, b.end, w, p);
        var c :| c in ContrastSpans(lx, text, b.end) && c.start <= p < c.end;
        assert c in ContrastSpans(lx, text, i);
      }
    } else {
      SomeWordAt(lx, text, i, w, p);
      ContrastSpansComplete(lx, text, i + 1, w, p);
    }
  }

  lemma SomeWordAt(lx: Alphabet, text: string, i: nat, w: string, p: nat)
    requires w in lx.contrast && WholeWord(lx, text, w, p) && i <= p
    requires !lx.WordBoundary(text, i) || ContrastAt(lx, lx.contrast, text, i).None?
    ensures i < p
  {
    assert lx.contrast[0..] == lx.contrast;
    var k :| 0 <= k < |lx.contrast| && lx.contrast[k] == w;
    if i == p {
      ContrastAtIsFirst(lx, text, p, 0);
    }
  }

  // ----- Both kinds, sorted by start ------------------------------------------------------------

  predicate StartsFirst(a: Span, b: Span) {
    a.start <= b.start
  }

  function AllSpans(lx: Alphabet, text: string): seq<Span> {
    Sorted(HardSpans(text, 0) + ContrastSpans(lx, text, 0), StartsFirst)
  }

  ghost predicate Apart(a: Span, b: Span) {
    a.end <= b.start || b.end <= a.start
  }

  // A hard and a contrast boundary share no position, as they share no character.
  lemma KindsAreApart(lx: Alphabet, text: string, a: Span, b: Span)
    requires SpanFits(lx, text, a) && SpanFits(lx, text, b) && a.kind == Hard && b.kind == Contrast
    ensures Apart(a, b)
  {
    var p := if a.start < b.start then b.start else a.start;
    assert b.start <= p < b.end ==> !IsHard(text[p]);
    assert a.start <= p < a.end ==> IsHard(text[p]);
  }

  lemma RowIsApart(spans: seq<Span>)
    requires InRow(spans, 0)
    ensures Distinct(spans)
    ensures forall a, b :: a in spans && b in spans && a != b ==> Apart(a, b)
  {
    forall a, b | a in spans && b in spans && a != b
      ensures Apart(a, b)
    {
      var k :| 0 <= k < |spans| && spans[k] == a;
      var l :| 0 <= l < |spans| && spans[l] == b;
      assert k < l || l < k;
    }
  }

  // The boundaries the segmenter walks: well-formed, in order, disjoint, and leaving no hard
  // character uncovered.
  lemma AllSpansInRow(lx: Alphabet, text: string)
    requires WordsFit(lx)
    ensures InRow(AllSpans(lx, text), 0)
    ensures forall b :: b in AllSpans(lx, text) ==> SpanFits(lx, text, b)
    ensures forall p :: 0 <= p < |text| && IsHard(text[p]) ==>
      exists b :: b in AllSpans(lx, text) && b.start <= p < b.end
    ensures forall b :: b in AllSpans(lx, text) <==> b in HardSpans(text, 0) || b in ContrastSpans(lx, text, 0)
  {
    var hard, contrast := HardSpans(text, 0), ContrastSpans(lx, text, 0);
    HardSpansFit(lx, text, 0);
    ContrastSpansFit(lx, text, 0);
    SortedRow(lx, text, hard, contrast);
    forall p | 0 <= p < |text| && IsHard(text[p])
      ensures exists b :: b in AllSpans(lx, text) && b.start <= p < b.end
    {
      HardSpansComplete(text, 0, p);
      var b :| b in hard && b.start <= p < b.end;
      assert b in hard + contrast;
    }
  }

  lemma SortedRow(lx: Alphabet, text: string, hard: seq<Span>, contrast: seq<Span>)
    requires InRow(hard, 0) && AllFit(lx, text, hard, Hard)
    requires InRow(contrast, 0) && AllFit(lx, text, contrast, Contrast)
    ensures InRow(Sorted(hard + contrast, StartsFirst), 0)
    ensures forall b :: b in Sorted(hard + contrast, StartsFirst) <==> b in hard + contrast
  {
    RowIsApart(hard);
    RowIsApart(contrast);
    JoinedApart(lx, text, hard, contrast);
    SortedKeeps(hard + contrast, StartsFirst);
    SortedDistinct(hard + contrast, StartsFirst);
    StartsFirstIsPreorder();
    SortedOrdered(hard + contrast, StartsFirst);
    ApartAndOrderedIsRow(Sorted(hard + contrast, StartsFirst));
  }

  lemma StartsFirstIsPreorder()
    ensures Preorder(StartsFirst)
  {
  }

  lemma JoinedApart(lx: Alphabet, text: string, hard: seq<Span>, contrast: seq<Span>)
    requires AllFit(lx, text, hard, Hard)
    requires AllFit(lx, text, contrast, Contrast)
    requires Distinct(hard) && Distinct(contrast)
    requires forall a, b :: a in hard && b in hard && a != b ==> Apart(a, b)
    requires forall a, b :: a in contrast && b in contrast && a != b ==> Apart(a, b)
    ensures Distinct(hard + contrast)
    ensures forall a, b :: a in hard + contrast && b in hard + contrast && a != b ==> Apart(a, b)
  {
    forall a, b | a in hard && b in contrast
      ensures a != b && Apart(a, b)
    {
      KindsAreApart(lx, text, a, b);
    }
  }

  lemma ApartAndOrderedIsRow(spans: seq<Span>)
    requires Distinct(spans) && Ordered(spans, StartsFirst)
    requires forall b :: b in spans ==> b.start < b.end
    requires forall a, b :: a in spans && b in spans && a != b ==> Apart(a, b)
    ensures InRow(spans, 0)
  {
    forall k, l | 0 <= k < l < |spans|
      ensures spans[k].end <= spans[l].start
    {
      assert spans[k] in spans && spans[l] in spans && spans[k] != spans[l];
      assert StartsFirst(spans[k], spans[l]);
    }
  }

  // What the boundaries of a text are: the longest runs of hard characters of either class,
  // and whole contrast words.
  lemma BoundaryIs(lx: Alphabet, text: string, b: Span)
    requires WordsFit(lx) && b in AllSpans(lx, text)
    ensures b.kind == Hard ==> IsRun(text, b, IsStop) || IsRun(text, b, IsBar)
    ensures b.kind == Contrast ==> exists k: nat :: FirstWordAt(lx, text, k, b.start) && b.end == b.start + |lx.contrast[k]|
  {
    AllSpansInRow(lx, text);
    HardSpansFit(lx, text, 0);
    ContrastSpansFit(lx, text, 0);
    if b.kind == Hard {
      HardSpansAreRuns(text, 0, b);
    } else {
      ContrastSpansAreWords(lx, text, 0, b);
    }
  }

  // A boundary covers the start of every whole contrast word.
  lemma ContrastWordIsBoundary(lx: Alphabet, text: string, w: string, p: nat)
    requires WordsFit(lx) && w in lx.contrast && WholeWord(lx, text, w, p)
    ensures exists b :: b in AllSpans(lx, text) && b.kind == Contrast && b.start <= p < b.end
  {
    assert WordFits(lx, w);
    AllSpansInRow(lx, text);
    ContrastSpansFit(lx, text, 0);
    ContrastSpansComplete(lx, text, 0, w, p);
    var b :| b in ContrastSpans(lx, text, 0) && b.start <= p < b.end;
    assert b in AllSpans(lx, text) && b.kind == Contrast;
  }
}
