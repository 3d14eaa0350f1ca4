// Helpers shared by the models: optional values, Python's string splitting and ordering,
// round-half-even, stable sorting and grouping by key.
module Basics {
  datatype Option<+T> = None | Some(value: T)

  ghost predicate Distinct<T>(xs: seq<T>) {
    forall i, j :: 0 <= i < j < |xs| ==> xs[i] != xs[j]
  }

  ghost function Elements<T>(xs: seq<T>): set<T> {
    set x | x in xs
  }

  lemma {:induction false} DistinctSize<T>(xs: seq<T>)
    requires Distinct(xs)
    ensures |Elements(xs)| == |xs|
  {
    if xs != [] {
      var n := |xs| - 1;
      DistinctSize(xs[..n]);
      assert Elements(xs) == Elements(xs[..n]) + {xs[n]};
    }
  }

  // a stands before b in the list.
  ghost predicate Precedes<T>(xs: seq<T>, a: T, b: T) {
    exists i, j :: 0 <= i < j < |xs| && xs[i] == a && xs[j] == b
  }

  // The first three elements, if there are as many.
  ghost predicate FirstThree<T>(xs: seq<T>, first: seq<T>) {
    first <= xs && |first| == if |xs| < 3 then |xs| else 3
  }

  function Max(a: int, b: int): int { if a < b then b else a }
  function Min(a: int, b: int): int { if a < b then a else b }

  lemma Regroup<T>(a: seq<T>, b: seq<T>, c: seq<T>)
    ensures (a + b) + c == a + (b + c)
  {
  }

  lemma SubsetSize<T>(a: set<T>, b: set<T>)
    requires a <= b
    ensures |a| <= |b|
  {
    assert b == a + (b - a);
  }

  function Mapped<A, B>(f: A -> B, xs: seq<A>): (r: seq<B>)
    ensures |r| == |xs| && forall i :: 0 <= i < |xs| ==> r[i] == f(xs[i])
  {
    seq(|xs|, i requires 0 <= i < |xs| => f(xs[i]))
  }
}

module Texts {
  import opened Basics

  // str.isspace
  predicate IsSpace(c: char) {
    var n := c as int;
    || 0x09 <= n <= 0x0d || 0x1c <= n <= 0x20 || n == 0x85 || n == 0xa0 || n == 0x1680
    || 0x2000 <= n <= 0x200a || n == 0x2028 || n == 0x2029 || n == 0x202f || n == 0x205f || n == 0x3000
  }

  // str.split() without arguments: the maximal runs of non-space characters.
  function Split(text: string): seq<string> {
    SplitFrom(text, "")
  }

  function SplitFrom(text: string, word: string): seq<string>
    decreases text
  {
    if text == "" then (if word == "" then [] else [word])
    else if IsSpace(text[0]) then (if word == "" then [] else [word]) + SplitFrom(text[1..], "")
    else SplitFrom(text[1..], word + [text[0]])
  }

  // separator.join(parts)
  function Join(parts: seq<string>, separator: string): string {
    if parts == [] then ""
    else if |parts| == 1 then parts[0]
    else parts[0] + separator + Join(parts[1..], separator)
  }

  function WithoutSpaces(text: string): string {
    if text == "" then "" else (if text[0] == ' ' then "" else [text[0]]) + WithoutSpaces(text[1..])
  }

  // text[:n], which is shorter when the text is.
  function Prefix(text: string, n: nat): (r: string)
    ensures r <= text && |r| == if |text| <= n then |text| else n
  {
    if |text| <= n then text else text[..n]
  }

  // ----- What splitting and joining give --------------------------------------------------------

  ghost predicate IsGap(text: string) {
    forall c :: c in text ==> IsSpace(c)
  }

  ghost predicate IsWord(text: string) {
    text != "" && forall c :: c in text ==> !IsSpace(c)
  }

  // text consists of the words, set apart by white space, with white space around them.
  ghost predicate Spaced(text: string, words: seq<string>)
    decreases |words|
  {
    if words == [] then IsGap(text) else exists gap, rest :: StartsWith(text, gap, words[0], rest) && Spaced(rest, words[1..])
  }

  ghost predicate StartsWith(text: string, gap: string, word: string, rest: string) {
    IsGap(gap) && IsWord(word) && text == gap + word + rest && (rest == "" || IsSpace(rest[0]))
  }

  lemma {:induction false} SplitSkipsGap(gap: string, rest: string)
    requires IsGap(gap)
    ensures SplitFrom(gap + rest, "") == SplitFrom(rest, "")
  {
    if gap == "" {
      assert gap + rest == rest;
    } else {
      assert gap[0] in gap;
      assert (gap + rest)[1..] == gap[1..] + rest;
      SplitSkipsGap(gap[1..], rest);
    }
  }

  lemma {:induction false} SplitTakesWord(before: string, word: string, rest: string)
    requires forall c :: c in word ==> !IsSpace(c)
    ensures SplitFrom(word + rest, before) == SplitFrom(rest, before + word)
    decreases |word|
  {
    if word == "" {
      assert word + rest == rest && before + word == before;
    } else {
      assert word[0] in word;
      assert (word + rest)[1..] == word[1..] + rest;
      SplitTakesWord(before + [word[0]], word[1..], rest);
      assert before + [word[0]] + word[1..] == before + word;
    }
  }

  lemma SplitFirst(text: string, gap: string, word: string, rest: string)
    requires StartsWith(text, gap, word, rest)
    ensures Split(text) == [word] + Split(rest)
  {
    assert text == gap + (word + rest);
    SplitSkipsGap(gap, word + rest);
    SplitTakesWord("", word, rest);
    assert "" + word == word;
  }

  lemma {:induction false} SpacedIsSplit(text: string, words: seq<string>)
    requires Spaced(text, words)
    ensures Split(text) == words
    decreases |words|
  {
    if words == [] {
      assert text + "" == text;
      SplitSkipsGap(text, "");
    } else {
      var gap, rest :| StartsWith(text, gap, words[0], rest) && Spaced(rest, words[1..]);
      SplitFirst(text, gap, words[0], rest);
      SpacedIsSplit(rest, words[1..]);
    }
  }

  // Everything before the first character of the other class.
  ghost function Run(text: string, spaces: bool): (n: nat)
    ensures n <= |text| && (forall i :: 0 <= i < n ==> IsSpace(text[i]) == spaces)
    ensures n < |text| ==> IsSpace(text[n]) != spaces
  {
    if text == "" || IsSpace(text[0]) != spaces then 0 else 1 + Run(text[1..], spaces)
  }

  lemma {:induction false} SplitIsSpaced(text: string)
    ensures Spaced(text, Split(text))
    decreases |text|
  {
    var n := Run(text, true);
    if n == |text| {
      assert IsGap(text);
      SpacedIsSplit(text, []);
    } else {
      var m := Run(text[n..], false);
      var gap, word, rest := text[..n], text[n..][..m], text[n..][m..];
      assert text == gap + word + rest;
      assert StartsWith(text, gap, word, rest);
      SplitFirst(text, gap, word, rest);
      SplitIsSpaced(rest);
      assert Split(text)[0] == word && Split(text)[1..] == Split(rest);
    }
  }

  // str.split() gives exactly the words that white space sets apart.
  lemma SplitExactlyWhen(text: string, words: seq<string>)
    ensures Split(text) == words <==> Spaced(text, words)
  {
    SplitIsSpaced(text);
    if Spaced(text, words) {
      SpacedIsSplit(text, words);
    }
  }

  lemma {:induction false} SpacedAreWords(text: string, words: seq<string>)
    requires Spaced(text, words)
    ensures forall w :: w in words ==> IsWord(w)
    decreases |words|
  {
    if words != [] {
      var gap, rest :| StartsWith(text, gap, words[0], rest) && Spaced(rest, words[1..]);
      SpacedAreWords(rest, words[1..]);
    }
  }

  lemma GapBefore(gap: string, text: string, words: seq<string>)
    requires IsGap(gap) && Spaced(text, words)
    ensures Spaced(gap + text, words)
  {
    if words != [] {
      var more, rest :| StartsWith(text, more, words[0], rest) && Spaced(rest, words[1..]);
      assert gap + text == (gap + more) + words[0] + rest;
      assert StartsWith(gap + text, gap + more, words[0], rest);
    }
  }

  // Splitting undoes joining with a space.
  lemma {:induction false} SplitOfJoin(words: seq<string>)
    requires forall w :: w in words ==> IsWord(w)
    ensures Split(Join(words, " ")) == words
  {
    JoinIsSpaced(words);
    SpacedIsSplit(Join(words, " "), words);
  }

  lemma {:induction false} JoinIsSpaced(words: seq<string>)
    requires forall w :: w in words ==> IsWord(w)
    ensures Spaced(Join(words, " "), words)
  {
    if |words| == 1 {
      assert StartsWith(words[0], "", words[0], "");
      assert Spaced("", words[1..]);
    } else if words != [] {
      JoinIsSpaced(words[1..]);
      GapBefore(" ", Join(words[1..], " "), words[1..]);
      var rest := " " + Join(words[1..], " ");
      assert Join(words, " ") == "" + words[0] + rest;
      assert StartsWith(Join(words, " "), "", words[0], rest);
    }
  }

  // Hence texts with the same normal form are the same words.
  lemma SameJoinSameWords(a: string, b: string)
    ensures Join(Split(a), " ") == Join(Split(b), " ") <==> Split(a) == Split(b)
  {
    SplitIsSpaced(a);
    SplitIsSpaced(b);
    SpacedAreWords(a, Split(a));
    SpacedAreWords(b, Split(b));
    SplitOfJoin(Split(a));
    SplitOfJoin(Split(b));
  }

  lemma {:induction false} JoinAppend(a: seq<string>, b: seq<string>, separator: string)
    requires a != [] && b != []
    ensures Join(a + b, separator) == Join(a, separator) + separator + Join(b, separator)
    ensures Join([a[0]], separator) == a[0]
  {
    if |a| == 1 {
      assert (a + b)[1..] == b;
    } else {
      JoinAppend(a[1..], b, separator);
      assert (a + b)[1..] == a[1..] + b;
      var rest := Join(a[1..], separator) + separator + Join(b, separator);
      assert a[0] + separator + rest == (a[0] + separator + Join(a[1..], separator)) + separator + Join(b, separator);
    }
  }

  // Exactly the spaces go.
  lemma {:induction false} WithoutSpacesAppend(a: string, b: string)
    ensures WithoutSpaces(a + b) == WithoutSpaces(a) + WithoutSpaces(b)
    ensures |a| == 1 ==> WithoutSpaces(a) == if a == " " then "" else a
  {
    if a == "" {
      assert a + b == b;
    } else {
      WithoutSpacesAppend(a[1..], b);
      assert (a + b)[1..] == a[1..] + b && (a + b)[0] == a[0];
      var first := if a[0] == ' ' then "" else [a[0]];
      Regroup(first, WithoutSpaces(a[1..]), WithoutSpaces(b));
    }
  }

  // ----- Python's ordering of strings ------------------------------------------------------------

  predicate LexLe(a: string, b: string) {
    a == "" || (b != "" && (a[0] < b[0] || (a[0] == b[0] && LexLe(a[1..], b[1..]))))
  }

  // a and b agree up to k; a ends there, or goes on with a smaller character.
  ghost predicate SmallerAt(a: string, b: string, k: nat) {
    k <= |a| && k <= |b| && a[..k] == b[..k] && (k == |a| || (k < |b| && a[k] < b[k]))
  }

  lemma {:induction false} LexLeExactlyWhen(a: string, b: string)
    ensures LexLe(a, b) <==> exists k: nat :: SmallerAt(a, b, k)
  {
    if a == "" {
      assert SmallerAt(a, b, 0);
    } else if b != "" {
      LexLeExactlyWhen(a[1..], b[1..]);
      if a[0] < b[0] {
        assert SmallerAt(a, b, 0);
      }
      if k: nat :| SmallerAt(a[1..], b[1..], k) {
        if a[0] == b[0] {
          assert a[..k + 1] == [a[0]] + a[1..][..k] && b[..k + 1] == [b[0]] + b[1..][..k];
          assert SmallerAt(a, b, k + 1);
        }
      }
      if k: nat :| SmallerAt(a, b, k) {
        if k > 0 {
          assert a[0] == a[..k][0] == b[..k][0] == b[0];
          assert a[1..][..k - 1] == a[..k][1..] && b[1..][..k - 1] == b[..k][1..];
          assert SmallerAt(a[1..], b[1..], k - 1);
        }
      }
    }
  }

  lemma {:induction false} LexTotal(a: string, b: string)
    ensures LexLe(a, b) || LexLe(b, a)
  {
    if a != "" && b != "" && a[0] == b[0] {
      LexTotal(a[1..], b[1..]);
    }
  }

  lemma {:induction false} LexAntisymmetric(a: string, b: string)
    requires LexLe(a, b) && LexLe(b, a)
    ensures a == b
  {
    if a != "" && b != "" {
      LexAntisymmetric(a[1..], b[1..]);
      assert a == [a[0]] + a[1..] && b == [b[0]] + b[1..];
    }
  }

  lemma {:induction false} LexTransitive(a: string, b: string, c: string)
    requires LexLe(a, b) && LexLe(b, c)
    ensures LexLe(a, c)
  {
    if a != "" && a[0] == b[0] && b[0] == c[0] {
      LexTransitive(a[1..], b[1..], c[1..]);
    }
  }
}

// Python's round: to the nearest multiple, ties to the even one.
module Rounding {
  function RoundHalfEven(x: real): (n: int)
    ensures -0.5 <= n as real - x <= 0.5
  {
    var below := x.Floor;
    var rest := x - below as real;
    if rest < 0.5 || (rest == 0.5 && below % 2 == 0) then below else below + 1
  }

  function Round4(x: real): (r: real)
    ensures -0.00005 <= r - x <= 0.00005
  {
    RoundHalfEven(x * 10000.0) as real / 10000.0
  }

  function Round6(x: real): (r: real)
    ensures -0.0000005 <= r - x <= 0.0000005
  {
    RoundHalfEven(x * 1000000.0) as real / 1000000.0
  }

  // n is the nearest integer, and the even one of two that are equally near.
  ghost predicate Nearest(x: real, n: int) {
    && -0.5 <= n as real - x <= 0.5
    && (n as real - x == 0.5 || n as real - x == -0.5 ==> n % 2 == 0)
  }

  lemma RoundHalfEvenExactlyWhen(x: real, n: int)
    ensures RoundHalfEven(x) == n <==> Nearest(x, n)
  {
    assert Nearest(x, RoundHalfEven(x));
  }

  function Round3(x: real): (r: real)
    ensures -0.0005 <= r - x <= 0.0005
  {
    RoundHalfEven(x * 1000.0) as real / 1000.0
  }

  // The nearest multiple of a thousandth, a ten-thousandth and a millionth.
  lemma RoundsToMultiple(x: real, n: int)
    ensures Nearest(x * 1000.0, n) ==> Round3(x) == n as real / 1000.0
    ensures Nearest(x * 10000.0, n) ==> Round4(x) == n as real / 10000.0
    ensures Nearest(x * 1000000.0, n) ==> Round6(x) == n as real / 1000000.0
  {
    RoundHalfEvenExactlyWhen(x * 1000.0, n);
    RoundHalfEvenExactlyWhen(x * 10000.0, n);
    RoundHalfEvenExactlyWhen(x * 1000000.0, n);
  }

  // A value that is already a multiple of the rounding step is left alone.
  lemma RoundingExact(k: int)
    ensures RoundHalfEven(k as real) == k
  {
    assert (k as real).Floor == k;
  }
}

// Python's sorted: a stable sort by a total preorder.
module Sorting {
  import opened Basics
  import opened Texts

  ghost predicate Preorder<T(!new)>(le: (T, T) -> bool) {
    && (forall a, b :: le(a, b) || le(b, a))
    && (forall a, b, c :: le(a, b) && le(b, c) ==> le(a, c))
  }

  ghost predicate Ordered<T>(xs: seq<T>, le: (T, T) -> bool) {
    forall i, j :: 0 <= i < j < |xs| ==> le(xs[i], xs[j])
  }

  function Insert<T>(x: T, xs: seq<T>, le: (T, T) -> bool): seq<T> {
    if xs == [] || le(x, xs[0]) then [x] + xs else [xs[0]] + Insert(x, xs[1..], le)
  }

  function Sorted<T>(xs: seq<T>, le: (T, T) -> bool): seq<T> {
    if xs == [] then [] else Insert(xs[0], Sorted(xs[1..], le), le)
  }

  lemma {:induction false} InsertKeeps<T>(x: T, xs: seq<T>, le: (T, T) -> bool)
    ensures multiset(Insert(x, xs, le)) == multiset(xs) + multiset{x}
  {
    if xs != [] && !le(x, xs[0]) {
      InsertKeeps(x, xs[1..], le);
      assert xs == [xs[0]] + xs[1..];
    }
  }

  lemma {:induction false} SortedKeeps<T>(xs: seq<T>, le: (T, T) -> bool)
    ensures multiset(Sorted(xs, le)) == multiset(xs)
    ensures |Sorted(xs, le)| == |xs|
    ensures forall x :: x in Sorted(xs, le) <==> x in xs
  {
    if xs != [] {
      SortedKeeps(xs[1..], le);
      InsertKeeps(xs[0], Sorted(xs[1..], le), le);
      assert xs == [xs[0]] + xs[1..];
    }
    var s := Sorted(xs, le);
    assert multiset(s) == multiset(xs);
    assert |s| == |multiset(s)| == |multiset(xs)| == |xs|;
    forall x ensures x in s <==> x in xs {
      assert x in s <==> x in multiset(s);
    }
  }

  lemma {:induction false} InsertOrdered<T(!new)>(x: T, xs: seq<T>, le: (T, T) -> bool)
    requires Preorder(le) && Ordered(xs, le)
    ensures Ordered(Insert(x, xs, le), le)
  {
    if xs != [] {
      if le(x, xs[0]) {
        assert forall j :: 0 <= j < |xs| ==> le(xs[0], xs[j]);
      } else {
        InsertOrdered(x, xs[1..], le);
        var rest := Insert(x, xs[1..], le);
        InsertKeeps(x, xs[1..], le);
        forall y | y in rest
          ensures le(xs[0], y)
        {
          assert y in multiset(rest);
          assert y == x || y in xs[1..];
        }
      }
    }
  }

  lemma {:induction false} SortedOrdered<T(!new)>(xs: seq<T>, le: (T, T) -> bool)
    requires Preorder(le)
    ensures Ordered(Sorted(xs, le), le)
  {
    if xs != [] {
      SortedOrdered(xs[1..], le);
      InsertOrdered(xs[0], Sorted(xs[1..], le), le);
    }
  }

  lemma LexLeIsPreorder()
    ensures Preorder(LexLe)
  {
    forall a: string, b: string
      ensures LexLe(a, b) || LexLe(b, a)
    {
      LexTotal(a, b);
    }
    forall a: string, b: string, c: string | LexLe(a, b) && LexLe(b, c)
      ensures LexLe(a, c)
    {
      LexTransitive(a, b, c);
    }
  }

  ghost predicate Ties<T(!new)>(a: T, b: T, le: (T, T) -> bool) {
    le(a, b) && le(b, a)
  }

  // The elements that tie with p, in their order.
  ghost function TiedWith<T(!new)>(xs: seq<T>, p: T, le: (T, T) -> bool): seq<T> {
    if xs == [] then [] else (if Ties(xs[0], p, le) then [xs[0]] else []) + TiedWith(xs[1..], p, le)
  }

  lemma TiesMeet<T(!new)>(a: T, b: T, p: T, le: (T, T) -> bool)
    requires Preorder(le)
    ensures Ties(a, p, le) && Ties(b, p, le) ==> Ties(a, b, le)
  {
  }

  lemma {:induction false} InsertKeepsTies<T(!new)>(x: T, xs: seq<T>, p: T, le: (T, T) -> bool)
    requires Preorder(le)
    ensures TiedWith(Insert(x, xs, le), p, le) == TiedWith([x] + xs, p, le)
  {
    if xs != [] && !le(x, xs[0]) {
      InsertKeepsTies(x, xs[1..], p, le);
      assert ([x] + xs[1..])[1..] == xs[1..] && ([x] + xs)[1..] == xs;
      TiesMeet(x, xs[0], p, le);
    }
  }

  // The sort is stable: elements that tie keep their order.
  lemma {:induction false} SortedIsStable<T(!new)>(xs: seq<T>, p: T, le: (T, T) -> bool)
    requires Preorder(le)
    ensures TiedWith(Sorted(xs, le), p, le) == TiedWith(xs, p, le)
  {
    if xs != [] {
      SortedIsStable(xs[1..], p, le);
      InsertKeepsTies(xs[0], Sorted(xs[1..], le), p, le);
      assert ([xs[0]] + Sorted(xs[1..], le))[1..] == Sorted(xs[1..], le);
    }
  }

  lemma {:induction false} TiedInOrder<T(!new)>(xs: seq<T>, p: T, le: (T, T) -> bool, i: nat, j: nat)
    requires i < j < |xs| && Ties(xs[i], p, le) && Ties(xs[j], p, le)
    ensures Precedes(TiedWith(xs, p, le), xs[i], xs[j])
  {
    var rest := TiedWith(xs[1..], p, le);
    if i == 0 {
      TiedAre(xs[1..], p, le);
      assert xs[1..][j - 1] == xs[j];
      var k :| 0 <= k < |rest| && rest[k] == xs[j];
      assert TiedWith(xs, p, le)[0] == xs[0] && TiedWith(xs, p, le)[k + 1] == xs[j];
    } else {
      TiedInOrder(xs[1..], p, le, i - 1, j - 1);
      PrecedesInRest(if Ties(xs[0], p, le) then [xs[0]] else [], rest, xs[i], xs[j]);
    }
  }

  lemma PrecedesInRest<T>(first: seq<T>, rest: seq<T>, a: T, b: T)
    requires Precedes(rest, a, b)
    ensures Precedes(first + rest, a, b)
  {
    var i, j :| 0 <= i < j < |rest| && rest[i] == a && rest[j] == b;
    assert (first + rest)[|first| + i] == a && (first + rest)[|first| + j] == b;
  }

  lemma {:induction false} TiedAre<T(!new)>(xs: seq<T>, p: T, le: (T, T) -> bool)
    ensures forall x :: x in TiedWith(xs, p, le) <==> x in xs && Ties(x, p, le)
  {
    if xs != [] {
      TiedAre(xs[1..], p, le);
      assert xs == [xs[0]] + xs[1..];
    }
  }

  lemma {:induction false} TiedAsListed<T(!new)>(xs: seq<T>, p: T, le: (T, T) -> bool, a: T, b: T)
    requires Precedes(TiedWith(xs, p, le), a, b)
    ensures Precedes(xs, a, b)
  {
    var rest := TiedWith(xs[1..], p, le);
    var all := TiedWith(xs, p, le);
    var i, j :| 0 <= i < j < |all| && all[i] == a && all[j] == b;
    assert xs == [xs[0]] + xs[1..];
    if Ties(xs[0], p, le) && i == 0 {
      assert rest[j - 1] == b && b in rest;
      TiedAre(xs[1..], p, le);
      var k :| 0 <= k < |xs[1..]| && xs[1..][k] == b;
      assert xs[0] == a && xs[k + 1] == b;
    } else {
      var skipped := if Ties(xs[0], p, le) then 1 else 0;
      assert rest[i - skipped] == a && rest[j - skipped] == b;
      TiedAsListed(xs[1..], p, le, a, b);
      PrecedesInRest([xs[0]], xs[1..], a, b);
    }
  }

  // Of two elements that tie, the sorted list has the one first that the list had first.
  lemma SortedKeepsTies<T(!new)>(xs: seq<T>, le: (T, T) -> bool, i: nat, j: nat)
    requires Preorder(le) && i < j < |Sorted(xs, le)| && Ties(Sorted(xs, le)[i], Sorted(xs, le)[j], le)
    ensures Precedes(xs, Sorted(xs, le)[i], Sorted(xs, le)[j])
  {
    var s := Sorted(xs, le);
    assert Ties(s[j], s[j], le);
    TiedInOrder(s, s[j], le, i, j);
    SortedIsStable(xs, s[j], le);
    TiedAsListed(xs, s[j], le, s[i], s[j]);
  }

  // The multiplicity of each element decides whether a list has duplicates.
  lemma DistinctByMultiset<T>(xs: seq<T>, ys: seq<T>)
    requires Distinct(xs) && multiset(xs) == multiset(ys)
    ensures Distinct(ys)
  {
    forall i, j | 0 <= i < j < |ys|
      ensures ys[i] != ys[j]
    {
      if ys[i] == ys[j] {
        assert ys == ys[..i] + [ys[i]] + ys[i + 1..j] + [ys[j]] + ys[j + 1..];
        assert multiset(xs)[ys[i]] >= 2;
        AtMostOnce(xs, ys[i]);
      }
    }
  }

  lemma {:induction false} AtMostOnce<T>(xs: seq<T>, x: T)
    requires Distinct(xs)
    ensures multiset(xs)[x] <= 1
  {
    if xs != [] {
      var n := |xs| - 1;
      AtMostOnce(xs[..n], x);
      assert xs == xs[..n] + [xs[n]];
      if x == xs[n] {
        assert x !in xs[..n];
      }
    }
  }

  lemma SortedDistinct<T>(xs: seq<T>, le: (T, T) -> bool)
    requires Distinct(xs)
    ensures Distinct(Sorted(xs, le))
  {
    SortedKeeps(xs, le);
    DistinctByMultiset(xs, Sorted(xs, le));
  }
}
