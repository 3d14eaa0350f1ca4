// The text machinery shared by the segmenter and the anchor extractors: word characters,
// case folding, case-insensitive matching, stripping and searching.
module Lexis {
  import opened Basics
  import opened Texts

  // \w and the folding behind re.IGNORECASE, character by character, and the contrast words.
  datatype Alphabet = Alphabet(isWord: char -> bool, fold: char -> char, contrast: seq<string>)
  {
    // Folding keeps word characters apart from the rest, and the space and the boundary
    // punctuation to themselves; none of the latter is a word character.
    ghost predicate Valid() {
      && (forall c {:trigger fold(c)} :: isWord(fold(c)) <==> isWord(c))
      && (forall c, d {:trigger fold(c), fold(d)} :: fold(c) == fold(d) && (d == ' ' || IsHard(d)) ==> c == d)
      && (forall c {:trigger isWord(c)} :: IsSpace(c) || IsHard(c) ==> !isWord(c))
    }

    predicate WordAt(text: string, i: int) {
      0 <= i < |text| && isWord(text[i])
    }

    // \b
    predicate WordBoundary(text: string, i: int) {
      WordAt(text, i - 1) != WordAt(text, i)
    }

    // Not inside a word.
    predicate Aligned(text: string, i: int) {
      !(WordAt(text, i - 1) && WordAt(text, i))
    }

    // The needle occurs at i, up to case.
    predicate OccursAt(text: string, needle: string, i: int) {
      0 <= i && i + |needle| <= |text| && forall k :: 0 <= k < |needle| ==> fold(text[i + k]) == fold(needle[k])
    }
  }

  // The hard boundary characters, in the two classes of the pattern [,.!?;\n]+|[|*]+.
  predicate IsStop(c: char) {
    c == ',' || c == '.' || c == '!' || c == '?' || c == ';' || c == '\n'
  }

  predicate IsBar(c: char) {
    c == '|' || c == '*'
  }

  predicate IsHard(c: char) {
    IsStop(c) || IsBar(c)
  }

  // ----- Stripping -----------------------------------------------------------------------

  // The argument of strip(" ,").
  predicate IsPadding(c: char) {
    c == ' ' || c == ','
  }

  function Lead(s: string, drop: char -> bool): (n: nat)
    ensures n <= |s|
  {
    if s != "" && drop(s[0]) then 1 + Lead(s[1..], drop) else 0
  }

  function Trail(s: string, drop: char -> bool): (n: nat)
    ensures n <= |s|
  {
    if s != "" && drop(s[|s| - 1]) then 1 + Trail(s[..|s| - 1], drop) else 0
  }

  lemma {:induction false} LeadIs(s: string, drop: char -> bool)
    ensures var n := Lead(s, drop);
      (forall i :: 0 <= i < n ==> drop(s[i])) && (n < |s| ==> !drop(s[n]))
  {
    if s != "" && drop(s[0]) {
      var rest, n := s[1..], Lead(s, drop);
      LeadIs(rest, drop);
      forall i | 0 <= i < n
        ensures drop(s[i])
      {
        assert i > 0 ==> s[i] == rest[i - 1];
      }
    }
  }

  lemma {:induction false} TrailIs(s: string, drop: char -> bool)
    ensures var n := |s| - Trail(s, drop);
      (forall i :: n <= i < |s| ==> drop(s[i])) && (n > 0 ==> !drop(s[n - 1]))
  {
    if s != "" && drop(s[|s| - 1]) {
      var rest := s[..|s| - 1];
      TrailIs(rest, drop);
      assert |s| - Trail(s, drop) == |rest| - Trail(rest, drop);
    }
  }

  // s.strip(chars)
  function Strip(s: string, drop: char -> bool): string {
    var left := s[Lead(s, drop)..];
    left[..|left| - Trail(left, drop)]
  }

  // A slice of a slice, in the coordinates of the whole.
  lemma SliceOfSlice(s: string, lo: nat, hi: nat, i: nat, j: nat)
    requires lo <= hi <= |s| && i <= j <= hi - lo
    ensures s[lo..hi][i..j] == s[lo + i..lo + j]
  {
    var slice := s[lo..hi];
    forall k | 0 <= k < j - i
      ensures slice[i..j][k] == s[lo + i..lo + j][k]
    {
      assert slice[i + k] == s[lo + (i + k)];
    }
  }

  lemma StripShape(s: string, drop: char -> bool)
    ensures var lead, n := Lead(s, drop), |Strip(s, drop)|;
      && lead + n <= |s| && Strip(s, drop) == s[lead..lead + n]
      && (forall i :: 0 <= i < lead || (lead + n <= i < |s|) ==> drop(s[i]))
      && (n > 0 ==> !drop(s[lead]) && !drop(s[lead + n - 1]))
  {
    var lead := Lead(s, drop);
    var left := s[lead..];
    LeadIs(s, drop);
    TrailIs(left, drop);
    KeptIsSlice(s, lead, |left| - Trail(left, drop), drop);
  }

  // What is kept of s[lead..], in the coordinates of s.
  lemma KeptIsSlice(s: string, lead: nat, n: nat, drop: char -> bool)
    requires lead + n <= |s|
    requires forall i :: n <= i < |s| - lead ==> drop(s[lead..][i])
    requires n > 0 ==> !drop(s[lead..][n - 1])
    ensures s[lead..][..n] == s[lead..lead + n]
    ensures forall i :: lead + n <= i < |s| ==> drop(s[i])
    ensures n > 0 ==> !drop(s[lead + n - 1])
  {
    var left := s[lead..];
    assert forall k :: 0 <= k < n ==> left[k] == s[lead..lead + n][k];
    forall i | lead + n <= i < |s|
      ensures drop(s[i])
    {
      assert s[i] == left[i - lead];
    }
    assert n > 0 ==> left[n - 1] == s[lead + n - 1];
  }

  // ----- Searching -------------------------------------------------------------------------

  // text.index(needle, lo, hi): the first occurrence inside [lo, hi).
  function IndexIn(text: string, needle: string, lo: nat, hi: nat): Option<nat>
    requires hi <= |text|
    decreases hi - lo
  {
    if lo + |needle| > hi then None
    else if text[lo..lo + |needle|] == needle then Some(lo)
    else if lo == hi then None
    else IndexIn(text, needle, lo + 1, hi)
  }

  // text.rfind(needle, lo), searching down from hi.
  function RFindFrom(text: string, needle: string, lo: nat, hi: nat): Option<nat>
    requires hi + |needle| <= |text|
    decreases hi
  {
    if hi < lo then None
    else if text[hi..hi + |needle|] == needle then Some(hi)
    else if hi == 0 then None
    else RFindFrom(text, needle, lo, hi - 1)
  }

  lemma {:induction false} IndexFinds(text: string, needle: string, lo: nat, hi: nat, at: nat)
    requires needle != "" && lo <= at && at + |needle| <= hi <= |text|
    requires text[at..at + |needle|] == needle
    requires forall p :: lo <= p < at ==> text[p] != needle[0]
    ensures IndexIn(text, needle, lo, hi) == Some(at)
    decreases at - lo
  {
    if lo < at {
      assert text[lo..lo + |needle|][0] == text[lo];
      IndexFinds(text, needle, lo + 1, hi, at);
    }
  }

  lemma {:induction false} RFindFinds(text: string, needle: string, lo: nat, hi: nat, at: nat)
    requires needle != "" && lo <= at <= hi && hi + |needle| <= |text|
    requires text[at..at + |needle|] == needle
    requires forall p :: at + |needle| <= p < hi + |needle| ==> text[p] != needle[|needle| - 1]
    ensures RFindFrom(text, needle, lo, hi) == Some(at)
    decreases hi - at
  {
    if at < hi {
      assert text[hi..hi + |needle|][|needle| - 1] == text[hi + |needle| - 1];
      RFindFinds(text, needle, lo, hi - 1, at);
    }
  }

  // `needle` at `at` is what stripping leaves of text[lo..hi].
  ghost predicate StrippedAt(text: string, lo: nat, hi: nat, needle: string, at: nat, drop: char -> bool) {
    && lo <= at && at + |needle| <= hi <= |text| && needle == text[at..at + |needle|]
    && (forall p :: lo <= p < at || at + |needle| <= p < hi ==> drop(text[p]))
    && (needle != "" ==> !drop(needle[0]) && !drop(needle[|needle| - 1]))
  }

  // A stripped slice of the text, in the text's own coordinates.
  lemma StrippedSlice(text: string, lo: nat, hi: nat, drop: char -> bool) returns (at: nat)
    requires lo <= hi <= |text|
    ensures StrippedAt(text, lo, hi, Strip(text[lo..hi], drop), at, drop)
  {
    StripShape(text[lo..hi], drop);
    SliceCoordinates(text, lo, hi, Lead(text[lo..hi], drop), Strip(text[lo..hi], drop), drop);
    at := lo + Lead(text[lo..hi], drop);
  }

  lemma SliceCoordinates(text: string, lo: nat, hi: nat, lead: nat, needle: string, drop: char -> bool)
    requires lo <= hi <= |text| && lead + |needle| <= hi - lo
    requires needle == text[lo..hi][lead..lead + |needle|]
    requires forall i :: 0 <= i < lead || lead + |needle| <= i < hi - lo ==> drop(text[lo..hi][i])
    requires needle != "" ==> !drop(text[lo..hi][lead]) && !drop(text[lo..hi][lead + |needle| - 1])
    ensures StrippedAt(text, lo, hi, needle, lo + lead, drop)
  {
    SliceOfSlice(text, lo, hi, lead, lead + |needle|);
    forall p | lo <= p < lo + lead || lo + lead + |needle| <= p < hi
      ensures drop(text[p])
    {
      assert text[p] == text[lo..hi][p - lo];
    }
    assert needle != "" ==> needle[0] == text[lo..hi][lead] && needle[|needle| - 1] == text[lo..hi][lead + |needle| - 1];
  }

  // The first occurrence of a stripped slice is where the strip left it: an earlier one
  // would have to start with a dropped character.
  lemma StrippedIsFound(text: string, needle: string, lo: nat, hi: nat, at: nat, drop: char -> bool)
    requires needle != "" && lo <= at && at + |needle| <= hi <= |text| && needle == text[at..at + |needle|]
    requires !drop(needle[0]) && forall p :: lo <= p < at ==> drop(text[p])
    ensures IndexIn(text, needle, lo, hi) == Some(at)
  {
    IndexFinds(text, needle, lo, hi, at);
  }

  // Likewise from the right, to the end of the text.
  lemma StrippedIsRFound(text: string, needle: string, lo: nat, at: nat, drop: char -> bool)
    requires needle != "" && lo <= at && at + |needle| <= |text| && needle == text[at..at + |needle|]
    requires !drop(needle[|needle| - 1]) && forall p :: at + |needle| <= p < |text| ==> drop(text[p])
    ensures RFindFrom(text, needle, lo, |text| - |needle|) == Some(at)
  {
    RFindFinds(text, needle, lo, |text| - |needle|, at);
  }
}
