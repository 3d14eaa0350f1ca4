// internal/dedup/usecase/annotate_dedup.py: the data, the pure helpers and the graph whose
// connected components the near-duplicate clusters are meant to be.
module DedupModel {
  import opened Basics
  import opened Rounding
  import opened Sorting
  import opened Texts

  // Up to this many signatures every pair is compared, whatever the banding found.
  const BRUTE_FORCE_THRESHOLD := 64

  datatype Kind = Exact | Near

  datatype Annotation = Annotation(
    clusterId: Option<string>, kind: Option<Kind>, representative: Option<string>,
    size: int, similarity: Option<real>, weight: real)

  datatype Mention = Mention(id: string, compact: string, raw: string, depth: int, dedup: Annotation)

  datatype Cluster = Cluster(
    clusterId: string, kind: Kind, representative: string, representativeText: string,
    ids: seq<string>, size: nat, similarity: real, fingerprint: string)

  // The two blake2b digests: of a text, and of a shingle under the seed-th permutation.
  datatype Hashing = Hashing(digest: string -> string, slot: (nat, string) -> nat)

  datatype Config = Config(
    exactEnabled: bool, nearEnabled: bool, minTextLength: int, wordShingleSize: nat,
    charShingleSize: nat, numPerm: nat, numBands: nat, rowsPerBand: nat,
    threshold: real, maxBucketSize: int)
  {
    // What the constructor's clamping establishes.
    predicate Valid() {
      8 <= numPerm && 1 <= numBands <= numPerm && rowsPerBand == numPerm / numBands
    }
  }

  function NewConfig(
    exactEnabled: bool, nearEnabled: bool, minTextLength: int, wordShingleSize: nat,
    charShingleSize: nat, numPerm: int, numBands: int, threshold: real, maxBucketSize: int): (c: Config)
    ensures c.Valid()
    ensures c.numPerm == (if numPerm < 8 then 8 else numPerm)
    ensures c.numBands == (if numBands < 1 then 1 else if numBands > c.numPerm then c.numPerm else numBands)
    ensures c == Config(exactEnabled, nearEnabled, minTextLength, wordShingleSize, charShingleSize,
                        c.numPerm, c.numBands, c.rowsPerBand, threshold, maxBucketSize)
  {
    var perm := Max(numPerm, 8);
    var bands := Max(1, Min(numBands, perm));
    Config(exactEnabled, nearEnabled, minTextLength, wordShingleSize, charShingleSize,
           perm, bands, Max(1, perm / bands), threshold, maxBucketSize)
  }

  // ----- Mentions ------------------------------------------------------------------

  ghost predicate DistinctIds(mentions: seq<Mention>) {
    forall i, j :: 0 <= i < j < |mentions| ==> mentions[i].id != mentions[j].id
  }

  function ById(mentions: seq<Mention>): map<string, Mention>
    requires DistinctIds(mentions)
  {
    map m | m in mentions :: m.id := m
  }

  // The sort key (-len(text), depth, id).
  predicate MentionLe(a: Mention, b: Mention) {
    || |a.compact| > |b.compact|
    || (|a.compact| == |b.compact| && (a.depth < b.depth || (a.depth == b.depth && LexLe(a.id, b.id))))
  }

  lemma MentionLeIsPreorder()
    ensures Preorder(MentionLe)
  {
    forall a: Mention, b: Mention
      ensures MentionLe(a, b) || MentionLe(b, a)
    {
      LexTotal(a.id, b.id);
    }
    forall a: Mention, b: Mention, c: Mention | MentionLe(a, b) && MentionLe(b, c)
      ensures MentionLe(a, c)
    {
      if LexLe(a.id, b.id) && LexLe(b.id, c.id) {
        LexTransitive(a.id, b.id, c.id);
      }
    }
  }

  function Representative(members: seq<Mention>): Mention
    requires members != []
  {
    SortedKeeps(members, MentionLe);
    Sorted(members, MentionLe)[0]
  }

  lemma RepresentativeIsBest(members: seq<Mention>)
    requires members != []
    ensures Representative(members) in members
    ensures forall m :: m in members ==> MentionLe(Representative(members), m)
    ensures var best := Representative(members);
      forall m :: m in members ==>
        && |m.compact| <= |best.compact|
        && (|m.compact| == |best.compact| ==> best.depth <= m.depth)
        && (|m.compact| == |best.compact| && best.depth == m.depth ==> LexLe(best.id, m.id))
  {
    MentionLeIsPreorder();
    SortedKeeps(members, MentionLe);
    SortedOrdered(members, MentionLe);
    var s := Sorted(members, MentionLe);
    forall m | m in members
      ensures MentionLe(s[0], m)
    {
      assert m in s;
    }
  }

  // Ids break every tie, so the best of a set of mentions is one mention.
  lemma BestIsUnique(a: Mention, b: Mention)
    requires MentionLe(a, b) && MentionLe(b, a)
    ensures a.id == b.id
  {
    LexAntisymmetric(a.id, b.id);
  }

  // ----- Texts -----------------------------------------------------------------------

  function Fingerprint(cfg: Config, h: Hashing, text: string): Option<string> {
    var compact := Join(Split(text), " ");
    if |compact| < cfg.minTextLength then None else Some(h.digest(compact))
  }

  function WordShingle(tokens: seq<string>, size: nat, i: nat): string
    requires i + size <= |tokens|
  {
    Join(tokens[i..i + size], " ")
  }

  function CharShingle(text: string, size: nat, i: nat): string
    requires i + size <= |text|
  {
    text[i..i + size]
  }

  function Shingles(cfg: Config, text: string): set<string> {
    var tokens := Split(text);
    var compact := WithoutSpaces(text);
    if |tokens| >= cfg.wordShingleSize then
      set i | 0 <= i <= |tokens| - cfg.wordShingleSize :: WordShingle(tokens, cfg.wordShingleSize, i)
    else if |compact| >= cfg.charShingleSize then
      set i | 0 <= i <= |compact| - cfg.charShingleSize :: CharShingle(compact, cfg.charShingleSize, i)
    else if text != "" then {text}
    else {}
  }

  // The windows of n elements, as cuts of the list.
  ghost predicate IsWindow<T>(xs: seq<T>, before: seq<T>, window: seq<T>, after: seq<T>, n: nat) {
    xs == before + window + after && |window| == n
  }

  // A text of enough words gives its windows of words; one of fewer words but enough
  // characters other than the space gives windows of those; any other one itself, if it is not empty.
  lemma ShinglesAre(cfg: Config, text: string, x: string)
    ensures |Split(text)| >= cfg.wordShingleSize ==>
      (x in Shingles(cfg, text) <==>
         exists before, window, after :: IsWindow(Split(text), before, window, after, cfg.wordShingleSize) && x == Join(window, " "))
    ensures |Split(text)| < cfg.wordShingleSize && |WithoutSpaces(text)| >= cfg.charShingleSize ==>
      (x in Shingles(cfg, text) <==>
         exists before, after :: IsWindow(WithoutSpaces(text), before, x, after, cfg.charShingleSize))
    ensures |Split(text)| < cfg.wordShingleSize && |WithoutSpaces(text)| < cfg.charShingleSize ==>
      (x in Shingles(cfg, text) <==> x == text && text != "")
  {
    if |Split(text)| >= cfg.wordShingleSize {
      WordShinglesAre(cfg, text, x);
    } else if |WithoutSpaces(text)| >= cfg.charShingleSize {
      CharShinglesAre(cfg, text, x);
    }
  }

  lemma CutWindow<T>(xs: seq<T>, i: nat, n: nat)
    requires i + n <= |xs|
    ensures IsWindow(xs, xs[..i], xs[i..i + n], xs[i + n..], n)
  {
  }

  lemma WindowIsCut<T>(xs: seq<T>, before: seq<T>, window: seq<T>, after: seq<T>, n: nat)
    requires IsWindow(xs, before, window, after, n)
    ensures |before| + n <= |xs| && xs[|before|..|before| + n] == window
  {
  }

  lemma WordShinglesAre(cfg: Config, text: string, x: string)
    requires |Split(text)| >= cfg.wordShingleSize
    ensures x in Shingles(cfg, text) <==>
      exists before, window, after :: IsWindow(Split(text), before, window, after, cfg.wordShingleSize) && x == Join(window, " ")
  {
    var tokens, n := Split(text), cfg.wordShingleSize;
    if i :| 0 <= i <= |tokens| - n && x == WordShingle(tokens, n, i) {
      CutWindow(tokens, i, n);
    }
    if before, window, after :| IsWindow(tokens, before, window, after, n) && x == Join(window, " ") {
      WindowIsCut(tokens, before, window, after, n);
      assert x == WordShingle(tokens, n, |before|);
    }
  }

  lemma CharShinglesAre(cfg: Config, text: string, x: string)
    requires |Split(text)| < cfg.wordShingleSize && |WithoutSpaces(text)| >= cfg.charShingleSize
    ensures x in Shingles(cfg, text) <==>
      exists before, after :: IsWindow(WithoutSpaces(text), before, x, after, cfg.charShingleSize)
  {
    var compact, n := WithoutSpaces(text), cfg.charShingleSize;
    if i :| 0 <= i <= |compact| - n && x == CharShingle(compact, n, i) {
      CutWindow(compact, i, n);
    }
    if before, after :| IsWindow(compact, before, x, after, n) {
      WindowIsCut(compact, before, x, after, n);
      assert x == CharShingle(compact, n, |before|);
    }
  }

  function Jaccard(left: set<string>, right: set<string>): real {
    if left == {} && right == {} then 1.0
    else Round4(|left * right| as real / |left + right| as real)
  }

  lemma JaccardSymmetric(left: set<string>, right: set<string>)
    ensures Jaccard(left, right) == Jaccard(right, left)
  {
    assert left * right == right * left && left + right == right + left;
  }

  lemma JaccardOfEqual(s: set<string>)
    ensures Jaccard(s, s) == 1.0
  {
    if s != {} {
      assert s * s == s && s + s == s;
      var n := |s|;
      assert n != 0;
      assert n as real / n as real == 1.0;
      RoundingExact(10000);
    }
  }

  // The share of the common elements, to within half a ten-thousandth.
  lemma JaccardIsShare(left: set<string>, right: set<string>)
    requires left + right != {}
    ensures var n := |left + right| as real;
      -0.00005 * n <= Jaccard(left, right) * n - |left * right| as real <= 0.00005 * n
  {
    var n, common := |left + right| as real, |left * right| as real;
    assert n > 0.0;
    assert Jaccard(left, right) == Round4(common / n);
    ScaledBounds(Round4(common / n), common, n, 0.00005);
  }

  lemma ScaledBounds(j: real, common: real, n: real, eps: real)
    requires n > 0.0 && -eps <= j - common / n <= eps
    ensures -eps * n <= j * n - common <= eps * n
  {
    DivideBack(common, n);
    Spread(j, common / n, n, eps);
  }

  lemma DivideBack(x: real, n: real)
    requires n > 0.0
    ensures x / n * n == x
  {
  }

  lemma Spread(j: real, share: real, n: real, eps: real)
    requires n > 0.0 && -eps <= j - share <= eps
    ensures -eps * n <= j * n - share * n <= eps * n
  {
    var d := j - share;
    Times(-eps, d, n);
    Times(d, eps, n);
    assert d * n == j * n - share * n;
  }

  lemma Times(x: real, y: real, n: real)
    requires n > 0.0 && x <= y
    ensures x * n <= y * n
  {
    assert (y - x) * n >= 0.0;
  }

  // Whether `common` of `all` shingles reach the threshold, in whole numbers: the least
  // admissible number k of ten-thousandths is reached from k - 1/2 on, and at k - 1/2 only if
  // k is even.
  ghost predicate Reaches(common: nat, all: nat, threshold: real) {
    var k := -(-10000.0 * threshold).Floor;
    20000 * common > (2 * k - 1) * all || (20000 * common == (2 * k - 1) * all && k % 2 == 0)
  }

  lemma SimilarExactlyWhen(left: set<string>, right: set<string>, threshold: real)
    requires left + right != {}
    ensures Jaccard(left, right) >= threshold <==> Reaches(|left * right|, |left + right|, threshold)
  {
    var common, all := |left * right|, |left + right|;
    assert all > 0;
    var x := common as real / all as real * 10000.0;
    var k := -(-10000.0 * threshold).Floor;
    var m := RoundHalfEven(x);
    RoundHalfEvenExactlyWhen(x, m);
    assert Jaccard(left, right) == m as real / 10000.0;
    AtLeast(m, threshold);
    RoundedReaches(x, m, k);
    HalfBelow(common, all, k);
  }

  lemma AtLeast(m: int, threshold: real)
    ensures m as real / 10000.0 >= threshold <==> m >= -(-10000.0 * threshold).Floor
  {
  }

  lemma RoundedReaches(x: real, m: int, k: int)
    requires Nearest(x, m)
    ensures m >= k <==> x > k as real - 0.5 || (x == k as real - 0.5 && k % 2 == 0)
  {
  }

  lemma HalfBelow(common: nat, all: nat, k: int)
    requires all > 0
    ensures var x := common as real / all as real * 10000.0;
      && (x > k as real - 0.5 <==> 20000 * common > (2 * k - 1) * all)
      && (x == k as real - 0.5 <==> 20000 * common == (2 * k - 1) * all)
  {
    var n := all as real;
    var x, y := common as real / n * 10000.0, k as real - 0.5;
    assert common as real / n * n == common as real;
    assert x * n == 10000.0 * common as real;
    assert y * n * 2.0 == ((2 * k - 1) * all) as real;
    Scaled(x, y, n);
  }

  lemma Scaled(x: real, y: real, n: real)
    requires n > 0.0
    ensures x > y <==> x * n > y * n
    ensures x == y <==> x * n == y * n
  {
    if x > y {
      assert (x - y) * n > 0.0;
    } else if y > x {
      assert (y - x) * n > 0.0;
    }
  }

  // At 0.82, ten shingles of twelve are enough and nine of eleven are not.
  lemma NineOfElevenIsNotEnough()
    ensures !Reaches(9, 11, 0.82) && Reaches(10, 12, 0.82)
  {
    assert (-10000.0 * 0.82).Floor == -8200;
  }

  // ----- Signatures --------------------------------------------------------------------

  // The least slot value over a non-empty set, whatever order the set is walked in.
  ghost function MinSlot(h: Hashing, seed: nat, s: set<string>): (m: nat)
    requires s != {}
    ensures exists x :: x in s && h.slot(seed, x) == m
    ensures forall x :: x in s ==> m <= h.slot(seed, x)
  {
    var x :| x in s;
    if s == {x} then h.slot(seed, x)
    else
      var rest := MinSlot(h, seed, s - {x});
      assert forall y :: y in s ==> y == x || y in s - {x};
      if h.slot(seed, x) <= rest then h.slot(seed, x) else rest
  }

  ghost function Signature(cfg: Config, h: Hashing, s: set<string>): (r: seq<nat>)
    ensures s == {} ==> r == []
    ensures s != {} ==> |r| == cfg.numPerm && forall seed :: 0 <= seed < |r| ==>
      (exists x :: x in s && h.slot(seed, x) == r[seed]) && forall x :: x in s ==> r[seed] <= h.slot(seed, x)
  {
    if s == {} then [] else seq(cfg.numPerm, seed requires seed >= 0 => MinSlot(h, seed, s))
  }

  function Slice(xs: seq<nat>, lo: nat, hi: nat): seq<nat>
    requires lo <= hi
  {
    xs[Min(lo, |xs|)..Min(hi, |xs|)]
  }

  function Band(cfg: Config, signature: seq<nat>, b: nat): seq<nat> {
    Slice(signature, b * cfg.rowsPerBand, b * cfg.rowsPerBand + cfg.rowsPerBand)
  }

  lemma BandFits(n: nat, r: nat, b: nat)
    requires b < n
    ensures b * r + r <= n * r
  {
    assert (n - b - 1) * r >= 0;
    assert n * r == b * r + r + (n - b - 1) * r;
  }

  // No band of a full signature is empty, so the loop's `if not band` never fires.
  lemma BandNonEmpty(cfg: Config, signature: seq<nat>, b: nat)
    requires cfg.Valid() && |signature| == cfg.numPerm && b < cfg.numBands
    ensures Band(cfg, signature, b) != []
    ensures |Band(cfg, signature, b)| == cfg.rowsPerBand
    ensures forall i :: 0 <= i < cfg.rowsPerBand ==> Band(cfg, signature, b)[i] == signature[b * cfg.rowsPerBand + i]
  {
    var n, r := cfg.numBands, cfg.rowsPerBand;
    BandFits(n, r, b);
    assert r >= 1 && n * r <= cfg.numPerm;
  }

  // ----- The graph -----------------------------------------------------------------------

  // The mentions that take part in near matching: not in an exact cluster, long enough,
  // and with at least one shingle.
  predicate IsCandidate(cfg: Config, exactMembers: set<string>, m: Mention) {
    m.id !in exactMembers && |m.compact| >= cfg.minTextLength
  }

  ghost function NearTexts(cfg: Config, exactMembers: set<string>, mentions: seq<Mention>): map<string, string>
    requires DistinctIds(mentions)
  {
    map m | m in mentions && IsCandidate(cfg, exactMembers, m) && Shingles(cfg, m.compact) != {} :: m.id := m.compact
  }

  lemma NearTextsAre(cfg: Config, exactMembers: set<string>, mentions: seq<Mention>, m: Mention)
    requires DistinctIds(mentions) && m in mentions
    ensures m.id in NearTexts(cfg, exactMembers, mentions) <==>
      m.id !in exactMembers && |m.compact| >= cfg.minTextLength && exists x :: x in Shingles(cfg, m.compact)
    ensures m.id in NearTexts(cfg, exactMembers, mentions) ==> NearTexts(cfg, exactMembers, mentions)[m.id] == m.compact
  {
  }

  ghost predicate Similar(cfg: Config, texts: map<string, string>, x: string, y: string)
    requires x in texts && y in texts
  {
    Jaccard(Shingles(cfg, texts[x]), Shingles(cfg, texts[y])) >= cfg.threshold
  }

  ghost function BandOf(cfg: Config, h: Hashing, texts: map<string, string>, b: nat, x: string): seq<nat>
    requires x in texts
  {
    Band(cfg, Signature(cfg, h, Shingles(cfg, texts[x])), b)
  }

  ghost function Bucket(cfg: Config, h: Hashing, texts: map<string, string>, b: nat, band: seq<nat>): set<string> {
    set x | x in texts && BandOf(cfg, h, texts, b, x) == band
  }

  // x and y fall into one bucket of at most the maximal size.
  ghost predicate Banded(cfg: Config, h: Hashing, texts: map<string, string>, x: string, y: string)
    requires x in texts && y in texts
  {
    exists b: nat ::
      && b < cfg.numBands
      && BandOf(cfg, h, texts, b, x) == BandOf(cfg, h, texts, b, y) != []
      && |Bucket(cfg, h, texts, b, BandOf(cfg, h, texts, b, x))| <= cfg.maxBucketSize
  }

  // The pairs whose similarity is actually looked at.
  ghost predicate Compared(cfg: Config, h: Hashing, texts: map<string, string>, x: string, y: string)
    requires x in texts && y in texts
  {
    |texts| <= BRUTE_FORCE_THRESHOLD || Banded(cfg, h, texts, x, y)
  }

  // All pairs at or above the threshold: what "near duplicate" means.
  ghost function ThresholdEdges(cfg: Config, texts: map<string, string>): set<(string, string)> {
    set x, y | x in texts && y in texts && x != y && Similar(cfg, texts, x, y) :: (x, y)
  }

  // The pairs at or above the threshold that the algorithm finds.
  ghost function NearEdges(cfg: Config, h: Hashing, texts: map<string, string>): set<(string, string)> {
    set x, y | x in texts && y in texts && x != y && Similar(cfg, texts, x, y) && Compared(cfg, h, texts, x, y) :: (x, y)
  }

  // ----- Cluster lists -------------------------------------------------------------------

  // c is the whole class of its members under `cls`, with the best of them in front.
  ghost predicate IsClass(byId: map<string, Mention>, cls: map<string, string>, c: Cluster) {
    && Distinct(c.ids) && c.size == |c.ids| >= 2
    && cls.Keys <= byId.Keys
    && c.representative in c.ids
    && c.representative in cls
    && (forall x :: x in c.ids <==> x in cls && cls[x] == cls[c.representative])
    && c.representativeText == byId[c.representative].raw
    && (forall x :: x in c.ids ==> MentionLe(byId[c.representative], byId[x]))
  }

  // The clusters are exactly the classes of at least two members, each listed once.
  ghost predicate Clustering(byId: map<string, Mention>, cls: map<string, string>, clusters: seq<Cluster>) {
    && (forall c :: c in clusters ==> IsClass(byId, cls, c))
    && Distinct(clusters)
    && (forall c, d :: c in clusters && d in clusters && c != d ==> cls[c.representative] != cls[d.representative])
    && (forall x, y :: x in cls && y in cls && x != y && cls[x] == cls[y] ==>
          exists c :: c in clusters && x in c.ids)
  }

  ghost function ExactClasses(cfg: Config, h: Hashing, mentions: seq<Mention>): map<string, string>
    requires DistinctIds(mentions)
  {
    map m | m in mentions && Fingerprint(cfg, h, m.compact).Some? :: m.id := Fingerprint(cfg, h, m.compact).value
  }
}
