// internal/enrichment/usecase/_segmenter.py: SemanticSegmenter.segment.
module Segmenter {
  import opened Basics
  import opened Boundaries
  import opened Lexis
  import opened Texts

  datatype Segment = Segment(
    index: nat, start: nat, end: nat, text: string, normalized: string,
    leading: Option<Kind>, contrastive: bool, question: bool)

  // str.lower, on whole texts.
  type Lower = string -> string

  function NormalizeForScope(lower: Lower, text: string): string {
    Join(Split(lower(text)), " ")
  }

  predicate HasQuestionMark(text: string) {
    '?' in text
  }

  // ----- What segments promise -----------------------------------------------------------

  // A non-empty slice of the text that ends on both sides outside or at the edge of words.
  ghost predicate SegmentFits(lx: Alphabet, text: string, s: Segment) {
    && s.start < s.end <= |text| && s.text == text[s.start..s.end]
    && lx.Aligned(text, s.start) && lx.Aligned(text, s.end)
  }

  ghost predicate InOrder(segments: seq<Segment>) {
    && (forall i :: 0 <= i < |segments| ==> segments[i].index == i)
    && (forall i, j :: 0 <= i < j < |segments| ==> segments[i].end <= segments[j].start)
  }

  ghost predicate InSegment(segments: seq<Segment>, p: int) {
    exists i :: 0 <= i < |segments| && segments[i].start <= p < segments[i].end
  }

  ghost predicate InBoundary(spans: seq<Span>, p: int) {
    exists k :: 0 <= k < |spans| && spans[k].start <= p < spans[k].end
  }

  // Up to `cursor`, every character is in a segment, in a boundary, or a stripped space or
  // comma, and no segment reaches into a boundary.
  ghost predicate Covered(text: string, spans: seq<Span>, segments: seq<Segment>, cursor: nat) {
    && cursor <= |text|
    && (forall p :: 0 <= p < cursor ==> InSegment(segments, p) || InBoundary(spans, p) || IsPadding(text[p]))
    && (forall i :: 0 <= i < |segments| ==> segments[i].end <= cursor)
    && (forall i, k :: 0 <= i < |segments| && 0 <= k < |spans| ==>
          segments[i].end <= spans[k].start || spans[k].end <= segments[i].start)
  }

  // A segment cut at boundaries starts with something the strip would have left.
  ghost predicate Stripped(text: string, s: Segment) {
    s.start < |text| && !IsPadding(text[s.start])
  }

  ghost predicate Segmented(lx: Alphabet, text: string, spans: seq<Span>, segments: seq<Segment>, cursor: nat) {
    && (forall i :: 0 <= i < |segments| ==> SegmentFits(lx, text, segments[i]) && Stripped(text, segments[i]))
    && InOrder(segments)
    && Covered(text, spans, segments, cursor)
  }

  // ----- What a segment says about its surroundings ---------------------------------------

  // The kind of the last boundary that ends by p.
  function LastBefore(spans: seq<Span>, p: nat): Option<Kind> {
    if spans == [] then None
    else if spans[|spans| - 1].end <= p then Some(spans[|spans| - 1].kind)
    else LastBefore(spans[..|spans| - 1], p)
  }

  // The first boundary that starts at p or later.
  function NextFrom(spans: seq<Span>, p: nat): Option<Span> {
    if spans == [] then None
    else if spans[0].start >= p then Some(spans[0])
    else NextFrom(spans[1..], p)
  }

  predicate EndsInQuestion(text: string) {
    var stripped := Strip(text, IsSpace);
    stripped != "" && stripped[|stripped| - 1] == '?'
  }

  // The leading boundary is the nearest one before; a question mark counts in the segment,
  // in the boundary after it, or, with none after it, at the end of the text.
  ghost predicate Labelled(lower: Lower, text: string, spans: seq<Span>, s: Segment) {
    && s.normalized == NormalizeForScope(lower, s.text)
    && s.leading == LastBefore(spans, s.start) && s.contrastive == (s.leading == Some(Contrast))
    && s.question == (HasQuestionMark(s.text) ||
         match NextFrom(spans, s.end)
         case Some(b) => b.start <= b.end <= |text| && HasQuestionMark(text[b.start..b.end])
         case None => EndsInQuestion(text))
  }

  ghost predicate AllLabelled(lower: Lower, text: string, spans: seq<Span>, segments: seq<Segment>) {
    forall i :: 0 <= i < |segments| ==> Labelled(lower, text, spans, segments[i])
  }

  lemma {:induction false} LastBeforeIs(spans: seq<Span>, k: nat, p: nat)
    requires k <= |spans| && forall l :: k <= l < |spans| ==> spans[l].end > p
    requires k > 0 ==> spans[k - 1].end <= p
    ensures LastBefore(spans, p) == if k == 0 then None else Some(spans[k - 1].kind)
    decreases |spans|
  {
    if k < |spans| {
      LastBeforeIs(spans[..|spans| - 1], k, p);
    }
  }

  lemma {:induction false} NextFromIs(spans: seq<Span>, k: nat, p: nat)
    requires k <= |spans| && forall l :: 0 <= l < k ==> spans[l].start < p
    requires k < |spans| ==> spans[k].start >= p
    ensures NextFrom(spans, p) == if k == |spans| then None else Some(spans[k])
    decreases |spans|
  {
    if k > 0 {
      NextFromIs(spans[1..], k - 1, p);
    }
  }

  // Between boundaries k - 1 and k.
  lemma Neighbours(spans: seq<Span>, k: nat, cursor: nat, start: nat, end: nat)
    requires InRow(spans, 0) && k <= |spans| && cursor <= start < end
    requires k < |spans| ==> end <= spans[k].start
    requires cursor == if k == 0 then 0 else spans[k - 1].end
    ensures LastBefore(spans, start) == if k == 0 then None else Some(spans[k - 1].kind)
    ensures NextFrom(spans, end) == if k == |spans| then None else Some(spans[k])
  {
    LastBeforeIs(spans, k, start);
    NextFromIs(spans, k, end);
  }

  // b is the last boundary that ends by p.
  ghost predicate LastEndingBy(spans: seq<Span>, b: Span, p: nat) {
    b in spans && b.end <= p && forall c :: c in spans && c.end <= p ==> c.end <= b.end
  }

  // b is the first boundary that starts at p or later.
  ghost predicate FirstStartingFrom(spans: seq<Span>, b: Span, p: nat) {
    b in spans && p <= b.start && forall c :: c in spans && p <= c.start ==> b.start <= c.start
  }

  lemma {:induction false} LastBeforeExactlyWhen(spans: seq<Span>, p: nat)
    requires InRow(spans, 0)
    ensures LastBefore(spans, p).None? <==> forall b :: b in spans ==> p < b.end
    ensures forall b :: LastEndingBy(spans, b, p) ==> LastBefore(spans, p) == Some(b.kind)
    ensures LastBefore(spans, p).Some? ==> exists b :: LastEndingBy(spans, b, p)
  {
    if spans != [] {
      var n := |spans| - 1;
      LastSpan(spans);
      if spans[n].end <= p {
        assert LastEndingBy(spans, spans[n], p);
      } else {
        LastBeforeExactlyWhen(spans[..n], p);
        assert forall b :: LastEndingBy(spans[..n], b, p) <==> LastEndingBy(spans, b, p);
      }
    }
  }

  lemma LastSpan(spans: seq<Span>)
    requires spans != [] && InRow(spans, 0)
    ensures var n := |spans| - 1;
      && InRow(spans[..n], 0)
      && (forall c :: c in spans <==> c in spans[..n] || c == spans[n])
      && (forall c :: c in spans[..n] ==> c.end <= spans[n].start)
  {
    var n := |spans| - 1;
    assert spans == spans[..n] + [spans[n]];
  }

  lemma FirstSpan(spans: seq<Span>)
    requires spans != [] && InRow(spans, 0)
    ensures InRow(spans[1..], 0)
    ensures forall c :: c in spans <==> c == spans[0] || c in spans[1..]
    ensures forall c :: c in spans[1..] ==> spans[0].start < spans[0].end <= c.start
  {
    assert spans == [spans[0]] + spans[1..];
  }

  lemma {:induction false} NextFromExactlyWhen(spans: seq<Span>, p: nat)
    requires InRow(spans, 0)
    ensures NextFrom(spans, p).None? <==> forall b :: b in spans ==> b.start < p
    ensures forall b :: NextFrom(spans, p) == Some(b) <==> FirstStartingFrom(spans, b, p)
  {
    if spans != [] {
      FirstSpan(spans);
      if spans[0].start < p {
        NextFromExactlyWhen(spans[1..], p);
        forall b
          ensures FirstStartingFrom(spans[1..], b, p) <==> FirstStartingFrom(spans, b, p)
        {
        }
      } else {
        forall b
          ensures FirstStartingFrom(spans, b, p) <==> b == spans[0]
        {
        }
      }
    }
  }

  // The text ends in a question mark, white space aside.
  ghost predicate EndsInMark(text: string) {
    exists p :: 0 <= p < |text| && text[p] == '?' && forall q :: p < q < |text| ==> IsSpace(text[q])
  }

  lemma EndsInQuestionExactlyWhen(text: string)
    ensures EndsInQuestion(text) <==> EndsInMark(text)
  {
    StripShape(text, IsSpace);
    var stripped := Strip(text, IsSpace);
    var end := Lead(text, IsSpace) + |stripped|;
    assert stripped != "" ==> text[end - 1] == stripped[|stripped| - 1];
    if stripped == "" {
      assert forall p :: 0 <= p < |text| ==> IsSpace(text[p]);
    }
  }

  // ----- One stretch between boundaries ---------------------------------------------------

  // `needle`, at `start`, is the piece that the strip leaves of [lo, hi).
  ghost predicate Found(lx: Alphabet, text: string, lo: nat, hi: nat, needle: string, start: nat) {
    && lo <= start && start + |needle| <= hi <= |text| && needle != "" && needle == text[start..start + |needle|]
    && !IsPadding(text[start]) && lx.Aligned(text, start) && lx.Aligned(text, start + |needle|)
    && forall p :: lo <= p < start || start + |needle| <= p < hi ==> IsPadding(text[p])
  }

  // Both searches find the stripped stretch where the strip left it, and its ends do not
  // cut into a word.
  lemma Stretch(lx: Alphabet, text: string, lo: nat, hi: nat, needle: string, at: nat)
    requires lx.Valid() && lx.Aligned(text, lo) && lx.Aligned(text, hi)
    requires StrippedAt(text, lo, hi, needle, at, IsPadding) && needle != ""
    ensures Found(lx, text, lo, hi, needle, at)
    ensures IndexIn(text, needle, lo, hi) == Some(at)
    ensures hi == |text| ==> RFindFrom(text, needle, lo, |text| - |needle|) == Some(at)
  {
    StrippedIsFound(text, needle, lo, hi, at, IsPadding);
    if hi == |text| {
      StrippedIsRFound(text, needle, lo, at, IsPadding);
    }
    PaddedEdge(lx, text, lo, hi, at, at + |needle|);
  }

  // Padding is no word character, so stripping cannot cut into a word.
  lemma PaddedEdge(lx: Alphabet, text: string, lo: nat, hi: nat, at: nat, end: nat)
    requires lx.Valid() && lo <= at < end <= hi <= |text| && lx.Aligned(text, lo) && lx.Aligned(text, hi)
    requires forall p :: lo <= p < at || end <= p < hi ==> IsPadding(text[p])
    ensures lx.Aligned(text, at) && lx.Aligned(text, end)
  {
    if lo < at {
      PaddingIsNoWord(lx, text[at - 1]);
    }
    if end < hi {
      PaddingIsNoWord(lx, text[end]);
    }
  }

  lemma PaddingIsNoWord(lx: Alphabet, c: char)
    requires lx.Valid() && IsPadding(c)
    ensures !lx.isWord(c)
  {
    assert IsSpace(c) || IsHard(c);
  }

  lemma BoundaryEdges(lx: Alphabet, text: string, b: Span)
    requires lx.Valid() && SpanFits(lx, text, b)
    ensures lx.Aligned(text, b.start) && lx.Aligned(text, b.end)
  {
    assert b.kind == Hard ==> IsHard(text[b.start]) && IsHard(text[b.end - 1]);
    assert IsHard(text[b.start]) ==> !lx.isWord(text[b.start]);
    assert IsHard(text[b.end - 1]) ==> !lx.isWord(text[b.end - 1]);
  }

  // ----- Extending the list ------------------------------------------------------------------

  // No boundary reaches into [lo, hi).
  ghost predicate Clear(spans: seq<Span>, lo: nat, hi: nat) {
    forall k :: 0 <= k < |spans| ==> spans[k].end <= lo || hi <= spans[k].start
  }

  lemma AddSegment(
    lx: Alphabet, text: string, spans: seq<Span>, segments: seq<Segment>, lo: nat, hi: nat, s: Segment)
    requires Segmented(lx, text, spans, segments, lo) && lo <= hi <= |text|
    requires SegmentFits(lx, text, s) && Stripped(text, s) && s.index == |segments| && lo <= s.start && s.end <= hi
    requires Clear(spans, lo, hi)
    requires forall p :: lo <= p < s.start || s.end <= p < hi ==> IsPadding(text[p])
    ensures Segmented(lx, text, spans, segments + [s], hi)
  {
    AddInOrder(segments, s, lo);
    AddCovers(text, spans, segments, lo, hi, s);
  }

  lemma AddInOrder(segments: seq<Segment>, s: Segment, lo: nat)
    requires InOrder(segments) && s.index == |segments| && lo <= s.start
    requires forall i :: 0 <= i < |segments| ==> segments[i].end <= lo
    ensures InOrder(segments + [s])
  {
  }

  lemma AddCovers(text: string, spans: seq<Span>, segments: seq<Segment>, lo: nat, hi: nat, s: Segment)
    requires Covered(text, spans, segments, lo) && lo <= s.start <= s.end <= hi <= |text|
    requires Clear(spans, lo, hi)
    requires forall p :: lo <= p < s.start || s.end <= p < hi ==> IsPadding(text[p])
    ensures Covered(text, spans, segments + [s], hi)
  {
    var more := segments + [s];
    assert more[|segments|] == s;
    forall p | 0 <= p < hi
      ensures InSegment(more, p) || InBoundary(spans, p) || IsPadding(text[p])
    {
      if p < lo && InSegment(segments, p) {
        var i :| 0 <= i < |segments| && segments[i].start <= p < segments[i].end;
        assert more[i] == segments[i];
      }
    }
  }

  lemma AddPadding(lx: Alphabet, text: string, spans: seq<Span>, segments: seq<Segment>, lo: nat, hi: nat)
    requires Segmented(lx, text, spans, segments, lo) && lo <= hi <= |text|
    requires forall p :: lo <= p < hi ==> IsPadding(text[p])
    ensures Segmented(lx, text, spans, segments, hi)
  {
  }

  lemma AddBoundary(lx: Alphabet, text: string, spans: seq<Span>, segments: seq<Segment>, k: nat)
    requires k < |spans| && spans[k].start < spans[k].end <= |text|
    requires Segmented(lx, text, spans, segments, spans[k].start)
    ensures Segmented(lx, text, spans, segments, spans[k].end)
  {
    forall p | 0 <= p < spans[k].end
      ensures InSegment(segments, p) || InBoundary(spans, p) || IsPadding(text[p])
    {
      if p >= spans[k].start {
        assert spans[k].start <= p < spans[k].end;
      }
    }
  }

  // ----- The method ------------------------------------------------------------------------------

  // Strips a stretch and searches for what is left: from the left between two boundaries,
  // from the right at the end of the text.
  method FindPiece(lx: Alphabet, text: string, lo: nat, hi: nat) returns (needle: string, start: nat)
    requires lx.Valid() && lo <= hi <= |text| && lx.Aligned(text, lo) && lx.Aligned(text, hi)
    ensures needle == "" ==> forall p :: lo <= p < hi ==> IsPadding(text[p])
    ensures needle != "" ==> Found(lx, text, lo, hi, needle, start)
  {
    needle, start := Strip(text[lo..hi], IsPadding), 0;
    ghost var at := StrippedSlice(text, lo, hi, IsPadding);
    if needle != "" {
      Stretch(lx, text, lo, hi, needle, at);
      start := IndexIn(text, needle, lo, hi).value;
    }
  }

  method FindTail(lx: Alphabet, text: string, lo: nat) returns (needle: string, start: nat)
    requires lx.Valid() && lo <= |text| && lx.Aligned(text, lo)
    ensures needle == "" ==> forall p :: lo <= p < |text| ==> IsPadding(text[p])
    ensures needle != "" ==> Found(lx, text, lo, |text|, needle, start)
  {
    needle, start := Strip(text[lo..], IsPadding), 0;
    assert text[lo..] == text[lo..|text|];
    ghost var at := StrippedSlice(text, lo, |text|, IsPadding);
    if needle != "" {
      Stretch(lx, text, lo, |text|, needle, at);
      start := RFindFrom(text, needle, lo, |text| - |needle|).value;
    }
  }

  // The piece between two boundaries, if the strip leaves any of it.
  method Piece(
    lx: Alphabet, lower: Lower, text: string, lo: nat, hi: nat, index: nat, leading: Option<Kind>, boundaryText: string)
    returns (piece: Option<Segment>)
    requires lx.Valid() && lo <= hi <= |text| && lx.Aligned(text, lo) && lx.Aligned(text, hi)
    ensures piece.None? ==> forall p :: lo <= p < hi ==> IsPadding(text[p])
    ensures piece.Some? ==> PieceFits(lx, text, lo, hi, piece.value)
    ensures piece.Some? ==> piece.value == Segment(index, piece.value.start, piece.value.end, piece.value.text,
      NormalizeForScope(lower, piece.value.text), leading, leading == Some(Contrast),
      HasQuestionMark(piece.value.text) || HasQuestionMark(boundaryText))
  {
    var needle, start := FindPiece(lx, text, lo, hi);
    if needle == "" {
      return None;
    }
    piece := Some(Segment(index, start, start + |needle|, needle, NormalizeForScope(lower, needle), leading,
                          leading == Some(Contrast), HasQuestionMark(needle) || HasQuestionMark(boundaryText)));
  }

  // The trailing piece.
  method Trailing(lx: Alphabet, lower: Lower, text: string, lo: nat, index: nat, leading: Option<Kind>)
    returns (piece: Option<Segment>)
    requires lx.Valid() && lo <= |text| && lx.Aligned(text, lo)
    ensures piece.None? ==> forall p :: lo <= p < |text| ==> IsPadding(text[p])
    ensures piece.Some? ==> PieceFits(lx, text, lo, |text|, piece.value)
    ensures piece.Some? ==> piece.value == Segment(index, piece.value.start, piece.value.end, piece.value.text,
      NormalizeForScope(lower, piece.value.text), leading, leading == Some(Contrast),
      HasQuestionMark(piece.value.text) || EndsInQuestion(text))
  {
    var needle, start := FindTail(lx, text, lo);
    if needle == "" {
      return None;
    }
    piece := Some(Segment(index, start, start + |needle|, needle, NormalizeForScope(lower, needle), leading,
                          leading == Some(Contrast), HasQuestionMark(needle) || EndsInQuestion(text)));
  }

  ghost predicate PieceFits(lx: Alphabet, text: string, lo: nat, hi: nat, s: Segment) {
    && SegmentFits(lx, text, s) && Stripped(text, s) && lo <= s.start && s.end <= hi <= |text|
    && forall p :: lo <= p < s.start || s.end <= p < hi ==> IsPadding(text[p])
  }

  ghost predicate SpacesAround(text: string, s: Segment) {
    s.start <= s.end <= |text| && forall p :: 0 <= p < s.start || s.end <= p < |text| ==> IsSpace(text[p])
  }

  // The one segment of a text without segments.
  ghost predicate IsFallback(lower: Lower, text: string, s: Segment) {
    var stripped := Strip(text, IsSpace);
    && SpacesAround(text, s)
    && s == Segment(0, s.start, s.end, stripped, NormalizeForScope(lower, stripped), None, false, HasQuestionMark(stripped))
  }

  // No segment was found: the whole text, stripped of white space.
  method Fallback(lx: Alphabet, lower: Lower, text: string) returns (s: Segment)
    requires lx.Valid() && Strip(text, IsSpace) != ""
    ensures SegmentFits(lx, text, s) && IsFallback(lower, text, s)
  {
    var stripped := Strip(text, IsSpace);
    assert text[0..|text|] == text;
    ghost var at := StrippedSlice(text, 0, |text|, IsSpace);
    FallbackFound(lx, text, stripped, at);
    var start := IndexIn(text, stripped, 0, |text|).value;
    s := Segment(0, start, start + |stripped|, stripped, NormalizeForScope(lower, stripped), None, false,
                 HasQuestionMark(stripped));
  }

  lemma FallbackFound(lx: Alphabet, text: string, needle: string, at: nat)
    requires lx.Valid() && needle != "" && at + |needle| <= |text| && needle == text[at..at + |needle|]
    requires forall p :: 0 <= p < at || at + |needle| <= p < |text| ==> IsSpace(text[p])
    requires !IsSpace(needle[0])
    ensures IndexIn(text, needle, 0, |text|) == Some(at)
    ensures lx.Aligned(text, at) && lx.Aligned(text, at + |needle|)
  {
    StrippedIsFound(text, needle, 0, |text|, at, IsSpace);
    if at > 0 {
      assert IsSpace(text[at - 1]);
    }
    if at + |needle| < |text| {
      assert IsSpace(text[at + |needle|]);
    }
  }

  // Nothing but boundaries, spaces and commas.
  ghost predicate OnlyBoundaries(lx: Alphabet, text: string) {
    forall p :: 0 <= p < |text| ==> InBoundary(AllSpans(lx, text), p) || IsPadding(text[p])
  }

  // What segmenting promises.  The fallback is taken exactly for a text that is not blank
  // and consists of boundaries and padding.
  ghost predicate IsSegmentation(lx: Alphabet, lower: Lower, text: string, segments: seq<Segment>, fallback: bool) {
    && (segments == [] <==> Strip(text, IsSpace) == "")
    && (fallback <==> Strip(text, IsSpace) != "" && OnlyBoundaries(lx, text))
    && (forall i :: 0 <= i < |segments| ==> SegmentFits(lx, text, segments[i]))
    && InOrder(segments)
    && (!fallback ==>
          && (segments != [] ==> Segmented(lx, text, AllSpans(lx, text), segments, |text|))
          && AllLabelled(lower, text, AllSpans(lx, text), segments))
    && (fallback ==> |segments| == 1 && IsFallback(lower, text, segments[0]))
  }

  method SegmentText(lx: Alphabet, lower: Lower, text: string) returns (segments: seq<Segment>, fallback: bool)
    requires WordsFit(lx)
    ensures IsSegmentation(lx, lower, text, segments, fallback)
  {
    fallback := false;
    if Strip(text, IsSpace) == "" {
      return [], false;
    }
    segments := Walk(lx, lower, text, AllSpans(lx, text));
    if segments == [] {
      NoSegmentsOnlyBoundaries(lx, text);
      var s := Fallback(lx, lower, text);
      return [s], true;
    }
    SegmentIsNoBoundary(lx, text, segments);
  }

  lemma NoSegmentsOnlyBoundaries(lx: Alphabet, text: string)
    requires Segmented(lx, text, AllSpans(lx, text), [], |text|)
    ensures OnlyBoundaries(lx, text)
  {
    assert forall p :: !InSegment([], p);
  }

  lemma SegmentIsNoBoundary(lx: Alphabet, text: string, segments: seq<Segment>)
    requires segments != [] && Segmented(lx, text, AllSpans(lx, text), segments, |text|)
    ensures !OnlyBoundaries(lx, text)
  {
    var s := segments[0];
    assert SegmentFits(lx, text, s) && Stripped(text, s);
    assert !InBoundary(AllSpans(lx, text), s.start);
  }

  // The loop over the boundaries and the trailing piece.
  method Walk(lx: Alphabet, lower: Lower, text: string, spans: seq<Span>) returns (segments: seq<Segment>)
    requires WordsFit(lx) && spans == AllSpans(lx, text)
    ensures Segmented(lx, text, spans, segments, |text|)
    ensures AllLabelled(lower, text, spans, segments)
  {
    AllSpansInRow(lx, text);
    segments := [];
    var cursor: nat := 0;
    var pending: Option<Kind> := None;
    for k := 0 to |spans|
      invariant cursor <= |text| && lx.Aligned(text, cursor)
      invariant Segmented(lx, text, spans, segments, cursor)
      invariant AllLabelled(lower, text, spans, segments)
      invariant cursor == if k == 0 then 0 else spans[k - 1].end
      invariant pending == if k == 0 then None else Some(spans[k - 1].kind)
    {
      segments := PassBoundary(lx, lower, text, spans, k, segments, cursor, pending);
      cursor, pending := spans[k].end, Some(spans[k].kind);
    }
    segments := CutTail(lx, lower, text, spans, segments, cursor, pending);
  }

  // One round of the loop, up to the end of boundary k.
  method PassBoundary(
    lx: Alphabet, lower: Lower, text: string, spans: seq<Span>, k: nat, segments: seq<Segment>, cursor: nat,
    pending: Option<Kind>)
    returns (more: seq<Segment>)
    requires WordsFit(lx) && spans == AllSpans(lx, text) && k < |spans|
    requires cursor <= |text| && lx.Aligned(text, cursor)
    requires Segmented(lx, text, spans, segments, cursor) && AllLabelled(lower, text, spans, segments)
    requires cursor == if k == 0 then 0 else spans[k - 1].end
    requires pending == if k == 0 then None else Some(spans[k - 1].kind)
    ensures spans[k].end <= |text| && lx.Aligned(text, spans[k].end)
    ensures Segmented(lx, text, spans, more, spans[k].end) && AllLabelled(lower, text, spans, more)
  {
    AllSpansInRow(lx, text);
    assert spans[k] in spans;
    BoundaryEdges(lx, text, spans[k]);
    more := CutAt(lx, lower, text, spans, k, segments, cursor, pending);
    AddBoundary(lx, text, spans, more, k);
  }

  // The piece after the last boundary.
  method CutTail(
    lx: Alphabet, lower: Lower, text: string, spans: seq<Span>, segments: seq<Segment>, cursor: nat, pending: Option<Kind>)
    returns (more: seq<Segment>)
    requires lx.Valid() && InRow(spans, 0) && lx.Aligned(text, cursor)
    requires Segmented(lx, text, spans, segments, cursor) && AllLabelled(lower, text, spans, segments)
    requires cursor == if |spans| == 0 then 0 else spans[|spans| - 1].end
    requires pending == if |spans| == 0 then None else Some(spans[|spans| - 1].kind)
    ensures Segmented(lx, text, spans, more, |text|) && AllLabelled(lower, text, spans, more)
  {
    var piece := Trailing(lx, lower, text, cursor, |segments|, pending);
    more := segments;
    if piece.Some? {
      AddPiece(lx, lower, text, spans, |spans|, segments, cursor, |text|, piece.value);
      more := segments + [piece.value];
    } else {
      AddPadding(lx, text, spans, segments, cursor, |text|);
    }
  }

  // The part of the loop body before the cursor moves past boundary k.
  method CutAt(
    lx: Alphabet, lower: Lower, text: string, spans: seq<Span>, k: nat, segments: seq<Segment>, cursor: nat,
    pending: Option<Kind>)
    returns (more: seq<Segment>)
    requires lx.Valid() && InRow(spans, 0) && k < |spans| && spans[k].end <= |text|
    requires cursor <= spans[k].start && lx.Aligned(text, cursor) && lx.Aligned(text, spans[k].start)
    requires Segmented(lx, text, spans, segments, cursor)
    requires AllLabelled(lower, text, spans, segments)
    requires cursor == if k == 0 then 0 else spans[k - 1].end
    requires pending == if k == 0 then None else Some(spans[k - 1].kind)
    ensures Segmented(lx, text, spans, more, spans[k].start)
    ensures AllLabelled(lower, text, spans, more)
  {
    var b := spans[k];
    more := segments;
    if b.start > cursor {
      var piece := Piece(lx, lower, text, cursor, b.start, |segments|, pending, text[b.start..b.end]);
      if piece.Some? {
        AddPiece(lx, lower, text, spans, k, segments, cursor, b.start, piece.value);
        more := segments + [piece.value];
      } else {
        AddPadding(lx, text, spans, segments, cursor, b.start);
      }
    }
  }

  // Whether the piece before boundary k, or at the end of the text, is followed by a question
  // mark.
  ghost predicate Asked(text: string, spans: seq<Span>, k: nat)
    requires k < |spans| ==> spans[k].start <= spans[k].end <= |text|
  {
    if k < |spans| then HasQuestionMark(text[spans[k].start..spans[k].end]) else EndsInQuestion(text)
  }

  lemma AddPiece(
    lx: Alphabet, lower: Lower, text: string, spans: seq<Span>, k: nat, segments: seq<Segment>, cursor: nat, hi: nat, s: Segment)
    requires InRow(spans, 0) && k <= |spans| && (k < |spans| ==> spans[k].end <= |text|)
    requires cursor == if k == 0 then 0 else spans[k - 1].end
    requires cursor <= hi == if k < |spans| then spans[k].start else |text|
    requires Segmented(lx, text, spans, segments, cursor) && AllLabelled(lower, text, spans, segments)
    requires PieceFits(lx, text, cursor, hi, s)
    requires var leading := if k == 0 then None else Some(spans[k - 1].kind);
      s == Segment(|segments|, s.start, s.end, s.text, NormalizeForScope(lower, s.text), leading, leading == Some(Contrast),
                   HasQuestionMark(s.text) || Asked(text, spans, k))
    ensures Segmented(lx, text, spans, segments + [s], hi) && AllLabelled(lower, text, spans, segments + [s])
  {
    if k < |spans| {
      ClearBefore(spans, k, cursor);
    } else {
      ClearAfter(spans, cursor, hi);
    }
    AddSegment(lx, text, spans, segments, cursor, hi, s);
    Neighbours(spans, k, cursor, s.start, s.end);
    AddLabelled(lower, text, spans, segments, s);
  }

  lemma AddLabelled(lower: Lower, text: string, spans: seq<Span>, segments: seq<Segment>, s: Segment)
    requires AllLabelled(lower, text, spans, segments) && Labelled(lower, text, spans, s)
    ensures AllLabelled(lower, text, spans, segments + [s])
  {
  }

  lemma ClearBefore(spans: seq<Span>, k: nat, cursor: nat)
    requires k < |spans| && InRow(spans, 0)
    requires cursor == if k == 0 then 0 else spans[k - 1].end
    ensures Clear(spans, cursor, spans[k].start)
  {
    forall l | 0 <= l < |spans|
      ensures spans[l].end <= cursor || spans[k].start <= spans[l].start
    {
      assert l < k - 1 ==> spans[l].end <= spans[k - 1].start;
    }
  }

  lemma ClearAfter(spans: seq<Span>, cursor: nat, hi: nat)
    requires InRow(spans, 0)
    requires cursor == if |spans| == 0 then 0 else spans[|spans| - 1].end
    ensures Clear(spans, cursor, hi)
  {
    forall l | 0 <= l < |spans|
      ensures spans[l].end <= cursor
    {
      assert l < |spans| - 1 ==> spans[l].end <= spans[|spans| - 1].start;
    }
  }

  // ----- Consequences ----------------------------------------------------------------------------

  // Outside the fallback no segment holds a hard boundary character, a question mark included.
  lemma NoHardCharacterInSegments(lx: Alphabet, text: string, segments: seq<Segment>, i: nat)
    requires WordsFit(lx) && i < |segments|
    requires Segmented(lx, text, AllSpans(lx, text), segments, |text|)
    ensures forall c :: c in segments[i].text ==> !IsHard(c)
  {
    var spans, s := AllSpans(lx, text), segments[i];
    AllSpansInRow(lx, text);
    assert SegmentFits(lx, text, s);
    forall k | 0 <= k < |s.text|
      ensures !IsHard(s.text[k])
    {
      assert s.text[k] == text[s.start + k];
      forall b | b in spans
        ensures !(b.start <= s.start + k < b.end)
      {
        var l :| 0 <= l < |spans| && spans[l] == b;
        assert s.end <= spans[l].start || spans[l].end <= s.start;
      }
    }
  }

  // Cutting out the segments leaves boundaries and padding only, each character accounted
  // for once.
  lemma SegmentsAreDisjointAndExact(lx: Alphabet, text: string, segments: seq<Segment>, p: nat)
    requires Segmented(lx, text, AllSpans(lx, text), segments, |text|) && p < |text|
    ensures forall i, j ::
      (0 <= i < |segments| && 0 <= j < |segments| && segments[i].start <= p < segments[i].end
       && segments[j].start <= p < segments[j].end) ==> i == j
    ensures InSegment(segments, p) ==> !InBoundary(AllSpans(lx, text), p)
    ensures !InSegment(segments, p) && !InBoundary(AllSpans(lx, text), p) ==> IsPadding(text[p])
  {
  }

  // Outside the fallback no segment holds the start of a whole contrast word of the text.
  lemma NoContrastWordInSegments(lx: Alphabet, text: string, segments: seq<Segment>, i: nat, w: string, p: nat)
    requires WordsFit(lx) && i < |segments|
    requires Segmented(lx, text, AllSpans(lx, text), segments, |text|)
    requires w in lx.contrast && WholeWord(lx, text, w, p)
    ensures !(segments[i].start <= p < segments[i].end)
  {
    ContrastWordIsBoundary(lx, text, w, p);
    var spans := AllSpans(lx, text);
    var b :| b in spans && b.kind == Contrast && b.start <= p < b.end;
    var l :| 0 <= l < |spans| && spans[l] == b;
    assert segments[i].end <= spans[l].start || spans[l].end <= segments[i].start;
  }

  // A segment is contrastive exactly when the last boundary before it is a contrast word.
  lemma ContrastiveExactlyWhen(lx: Alphabet, lower: Lower, text: string, segments: seq<Segment>, fallback: bool, i: nat)
    requires WordsFit(lx) && IsSegmentation(lx, lower, text, segments, fallback) && !fallback && i < |segments|
    ensures segments[i].contrastive <==>
      exists b :: LastEndingBy(AllSpans(lx, text), b, segments[i].start) && b.kind == Contrast
    ensures segments[i].leading.None? <==> forall b :: b in AllSpans(lx, text) ==> segments[i].start < b.end
  {
    AllSpansInRow(lx, text);
    LastBeforeExactlyWhen(AllSpans(lx, text), segments[i].start);
    assert Labelled(lower, text, AllSpans(lx, text), segments[i]);
  }

  ghost predicate MarkBetween(text: string, lo: nat, hi: nat) {
    exists p :: lo <= p < hi <= |text| && text[p] == '?'
  }

  ghost predicate MarkInNextBoundary(text: string, spans: seq<Span>, p: nat) {
    exists b :: FirstStartingFrom(spans, b, p) && MarkBetween(text, b.start, b.end)
  }

  // A segment counts as a question exactly when it holds a question mark, or the next boundary
  // does, or there is none and the text ends in one.
  lemma QuestionExactlyWhen(lx: Alphabet, lower: Lower, text: string, segments: seq<Segment>, fallback: bool, i: nat)
    requires WordsFit(lx) && IsSegmentation(lx, lower, text, segments, fallback) && !fallback && i < |segments|
    ensures segments[i].question <==>
      || MarkBetween(text, segments[i].start, segments[i].end)
      || MarkInNextBoundary(text, AllSpans(lx, text), segments[i].end)
      || ((forall b :: b in AllSpans(lx, text) ==> b.start < segments[i].end) && EndsInMark(text))
  {
    var spans, s := AllSpans(lx, text), segments[i];
    assert Labelled(lower, text, spans, s) && SegmentFits(lx, text, s);
    MarkInSlice(text, s.start, s.end);
    NextMark(lx, text, s.end);
    EndsInQuestionExactlyWhen(text);
  }

  lemma NextMark(lx: Alphabet, text: string, p: nat)
    requires WordsFit(lx)
    ensures var next := NextFrom(AllSpans(lx, text), p);
      && (next.None? <==> forall b :: b in AllSpans(lx, text) ==> b.start < p)
      && (MarkInNextBoundary(text, AllSpans(lx, text), p) <==>
            next.Some? && next.value.start <= next.value.end <= |text|
            && HasQuestionMark(text[next.value.start..next.value.end]))
      && (next.Some? ==> next.value.start <= next.value.end <= |text|)
  {
    var spans := AllSpans(lx, text);
    AllSpansInRow(lx, text);
    NextFromExactlyWhen(spans, p);
    if NextFrom(spans, p).Some? {
      var b := NextFrom(spans, p).value;
      assert FirstStartingFrom(spans, b, p) && SpanFits(lx, text, b);
      MarkInSlice(text, b.start, b.end);
    }
  }

  lemma MarkInSlice(text: string, lo: nat, hi: nat)
    requires lo <= hi <= |text|
    ensures HasQuestionMark(text[lo..hi]) <==> MarkBetween(text, lo, hi)
  {
    if p :| lo <= p < hi && text[p] == '?' {
      assert text[lo..hi][p - lo] == '?';
    }
  }

  // The normal form is the words of the lower-cased segment.
  lemma NormalizedIs(lx: Alphabet, lower: Lower, text: string, segments: seq<Segment>, fallback: bool, i: nat)
    requires WordsFit(lx) && IsSegmentation(lx, lower, text, segments, fallback) && i < |segments|
    ensures Split(segments[i].normalized) == Split(lower(segments[i].text))
    ensures segments[i].normalized == Join(Split(segments[i].normalized), " ")
  {
    var t := lower(segments[i].text);
    assert segments[i].normalized == NormalizeForScope(lower, segments[i].text) by {
      assert !fallback ==> Labelled(lower, text, AllSpans(lx, text), segments[i]);
    }
    SplitIsSpaced(t);
    SpacedAreWords(t, Split(t));
    SplitOfJoin(Split(t));
  }
}
