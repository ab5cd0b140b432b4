// Ranked-retrieval metrics: memory/benchmarks/metrics/ir.py:32-93, over the reals. The discount
// 1 / log2(i + 2) is any positive, strictly decreasing sequence.
module RankMetrics {
  import opened Prelude

  type Session = string

  ghost predicate Discount(d: nat -> real)
  {
    (forall i: nat :: d(i) > 0.0) && (forall i: nat, j: nat :: i < j ==> d(i) > d(j))
  }

  function Dcg(rels: seq<nat>, d: nat -> real): real
  {
    if rels == [] then 0.0
    else Dcg(rels[..|rels| - 1], d) + rels[|rels| - 1] as real * d(|rels| - 1)
  }

  function Ones(n: nat): seq<nat> { seq(n, _ => 1) }

  // A session earns its gain at its first occurrence only.
  function Gain(sessions: seq<Session>, gold: set<Session>, i: nat): nat
    requires i < |sessions|
  {
    if sessions[i] in gold && sessions[i] !in sessions[..i] then 1 else 0
  }

  function Gains(sessions: seq<Session>, gold: set<Session>): (r: seq<nat>)
    ensures |r| == |sessions|
    ensures forall i :: 0 <= i < |r| ==> r[i] == Gain(sessions, gold, i)
  {
    seq(|sessions|, i requires 0 <= i < |sessions| => Gain(sessions, gold, i))
  }

  function Count(rels: seq<nat>): nat
  {
    if rels == [] then 0 else Count(rels[..|rels| - 1]) + rels[|rels| - 1]
  }

  function Least(a: nat, b: nat): nat { if a <= b then a else b }

  function Top<T>(s: seq<T>, k: nat): seq<T> { s[..Least(k, |s|)] }

  function Ndcg(sessions: seq<Session>, gold: set<Session>, k: nat, d: nat -> real): real
  {
    var ideal := Dcg(Ones(Least(|gold|, k)), d);
    if ideal > 0.0 then Dcg(Top(Gains(sessions, gold), k), d) / ideal else 0.0
  }

  // The sum of the precisions at each first occurrence of a gold session.
  function PrecisionSum(gains: seq<nat>): real
  {
    if gains == [] then 0.0
    else
      PrecisionSum(gains[..|gains| - 1])
      + if gains[|gains| - 1] == 1 then Count(gains) as real / |gains| as real else 0.0
  }

  function AveragePrecision(sessions: seq<Session>, gold: set<Session>): real
    requires gold != {}
  {
    PrecisionSum(Gains(sessions, gold)) / |gold| as real
  }

  function FirstRelevant(sessions: seq<Session>, gold: set<Session>): Option<nat>
  {
    if sessions == [] then None
    else
      var n := |sessions| - 1;
      var before := FirstRelevant(sessions[..n], gold);
      if before.Some? then before else if sessions[n] in gold then Some(n) else None
  }

  function ReciprocalRank(sessions: seq<Session>, gold: set<Session>): real
  {
    match FirstRelevant(sessions, gold)
    case None => 0.0
    case Some(i) => 1.0 / (i + 1) as real
  }

  function Found(sessions: seq<Session>, gold: set<Session>): set<Session> { set s | s in sessions && s in gold }

  function Recall(sessions: seq<Session>, gold: set<Session>, k: nat): real
    requires gold != {}
  {
    |Found(Top(sessions, k), gold)| as real / |gold| as real
  }

  function Relevant(sessions: seq<Session>, gold: set<Session>): nat
  {
    if sessions == [] then 0
    else Relevant(sessions[..|sessions| - 1], gold) + if sessions[|sessions| - 1] in gold then 1 else 0
  }

  function Precision(sessions: seq<Session>, gold: set<Session>, k: nat): real
    requires k > 0
  {
    Relevant(Top(sessions, k), gold) as real / k as real
  }

  // ---- Counting ----

  predicate Bits(rels: seq<nat>) { forall i :: 0 <= i < |rels| ==> rels[i] <= 1 }

  predicate AllOnes(rels: seq<nat>, n: nat) { n <= |rels| && forall i :: 0 <= i < n ==> rels[i] == 1 }

  lemma {:induction false} CountBound(rels: seq<nat>)
    requires Bits(rels)
    ensures Count(rels) <= |rels|
    ensures Count(rels) == |rels| <==> AllOnes(rels, |rels|)
  {
    if rels != [] {
      CountBound(rels[..|rels| - 1]);
    }
  }

  lemma FoundStep(sessions: seq<Session>, gold: set<Session>, i: nat)
    requires i < |sessions|
    ensures Found(sessions[..i + 1], gold) ==
            Found(sessions[..i], gold) + if sessions[i] in gold then {sessions[i]} else {}
    ensures sessions[i] in Found(sessions[..i], gold) <==> sessions[i] in gold && sessions[i] in sessions[..i]
  {
    assert sessions[..i + 1] == sessions[..i] + [sessions[i]];
  }

  // Gains are counted as the distinct gold sessions: average precision, nDCG and recall see the same hits.
  lemma {:induction false} GainsCount(sessions: seq<Session>, gold: set<Session>, n: nat)
    requires n <= |sessions|
    ensures Count(Gains(sessions, gold)[..n]) == |Found(sessions[..n], gold)|
    ensures Found(sessions[..n], gold) <= gold
  {
    if n == 0 {
      assert Found(sessions[..0], gold) == {};
    } else {
      GainsCount(sessions, gold, n - 1);
      var s := sessions[n - 1];
      var gains := Gains(sessions, gold);
      assert gains[..n][..n - 1] == gains[..n - 1];
      FoundStep(sessions, gold, n - 1);
      hide Found;
    }
  }

  lemma GainsAtMostGold(sessions: seq<Session>, gold: set<Session>, k: nat)
    ensures Count(Top(Gains(sessions, gold), k)) <= Least(|gold|, k)
    ensures Bits(Gains(sessions, gold))
  {
    var n := Least(k, |sessions|);
    GainsCount(sessions, gold, n);
    CountBound(Top(Gains(sessions, gold), k));
    Subset(Found(sessions[..n], gold), gold);
  }

  lemma Subset(s: set<Session>, t: set<Session>)
    requires s <= t
    ensures |s| <= |t| && (|s| == |t| ==> s == t)
  {
    assert t == s + (t - s);
  }

  // ---- nDCG ----

  lemma {:induction false} DcgOnes(n: nat, d: nat -> real)
    requires Discount(d)
    ensures n > 0 ==> Dcg(Ones(n), d) == Dcg(Ones(n - 1), d) + d(n - 1)
    ensures Dcg(Ones(n), d) >= 0.0 && (n > 0 ==> Dcg(Ones(n), d) > 0.0)
  {
    if n > 0 {
      DcgOnes(n - 1, d);
      assert Ones(n)[..n - 1] == Ones(n - 1);
    }
  }

  lemma {:induction false} OnesGrow(m: nat, n: nat, d: nat -> real)
    requires Discount(d) && m <= n
    ensures Dcg(Ones(m), d) <= Dcg(Ones(n), d)
    ensures m < n ==> Dcg(Ones(m), d) < Dcg(Ones(n), d)
    decreases n
  {
    if m < n {
      OnesGrow(m, n - 1, d);
      DcgOnes(n, d);
    }
  }

  lemma {:induction false} OnesCount(rels: seq<nat>, m: nat)
    requires AllOnes(rels, m)
    ensures Count(rels) >= m
  {
    if m > 0 {
      var n := |rels| - 1;
      OnesCount(rels[..n], if m <= n then m else n);
    }
  }

  // One more entry: behind a full list a one keeps it full, elsewhere it is out of place.
  lemma FrontStep(rels: seq<nat>)
    requires Bits(rels) && rels != []
    ensures var before := rels[..|rels| - 1];
            if rels[|rels| - 1] == 0 then AllOnes(rels, Count(rels)) <==> AllOnes(before, Count(before))
            else AllOnes(rels, Count(rels)) <==> Count(before) == |before|
  {
    var n := |rels| - 1;
    var before := rels[..n];
    CountBound(before);
    if rels[n] == 1 && AllOnes(rels, Count(rels)) && Count(before) < n {
      OnesCount(before, Count(rels));
    }
  }

  // Among lists with so many ones, those with the ones in front have the most gain, and only those.
  lemma {:induction false} FrontLoaded(rels: seq<nat>, d: nat -> real)
    requires Discount(d) && Bits(rels)
    ensures Dcg(rels, d) <= Dcg(Ones(Count(rels)), d) && Dcg(rels, d) >= 0.0
    ensures Dcg(rels, d) == Dcg(Ones(Count(rels)), d) <==> AllOnes(rels, Count(rels))
  {
    if rels == [] {
      assert Ones(0) == [];
    } else {
      var n := |rels| - 1;
      var before := rels[..n];
      FrontLoaded(before, d);
      FrontStep(rels);
      CountBound(before);
      if rels[n] == 1 {
        FullFront(before);
        DcgOnes(Count(rels), d);
        DiscountAt(d, Count(before), n);
      }
      DcgStep(rels, d);
      assert Count(rels) == Count(before) + rels[n];
      hide AllOnes, Ones, Dcg, Discount, Count;
    }
  }

  lemma DcgStep(rels: seq<nat>, d: nat -> real)
    requires Bits(rels) && rels != []
    ensures var n := |rels| - 1;
            Dcg(rels, d) == Dcg(rels[..n], d) + if rels[n] == 1 then d(n) else 0.0
  {
  }

  lemma DiscountAt(d: nat -> real, i: nat, j: nat)
    requires Discount(d) && i <= j
    ensures 0.0 < d(j) <= d(i) && (d(j) == d(i) <==> i == j)
  {
  }

  lemma FullFront(rels: seq<nat>)
    requires Bits(rels)
    ensures Count(rels) == |rels| ==> AllOnes(rels, Count(rels))
  {
    CountBound(rels);
  }

  lemma Ratio(a: real, b: real)
    requires 0.0 <= a <= b && b > 0.0
    ensures 0.0 <= a / b <= 1.0 && (a / b == 1.0 <==> a == b)
  {
    assert a / b * b == a;
  }

  // The first n positions hold n different gold sessions.
  predicate PerfectTop(sessions: seq<Session>, gold: set<Session>, n: nat)
  {
    n <= |sessions| && forall i :: 0 <= i < n ==> sessions[i] in gold && sessions[i] !in sessions[..i]
  }

  // nDCG is a ratio, and it is 1 exactly when the list begins with as many different gold sessions as
  // there are or as fit into k places.
  lemma NdcgIsRatio(sessions: seq<Session>, gold: set<Session>, k: nat, d: nat -> real)
    requires Discount(d) && gold != {} && k > 0
    ensures 0.0 <= Ndcg(sessions, gold, k, d) <= 1.0
    ensures Ndcg(sessions, gold, k, d) == 1.0 <==> PerfectTop(sessions, gold, Least(|gold|, k))
  {
    var m := Least(|gold|, k);
    var gains := Top(Gains(sessions, gold), k);
    var c := Count(gains);
    GainsAtMostGold(sessions, gold, k);
    FrontLoaded(gains, d);
    OnesGrow(c, m, d);
    DcgOnes(m, d);
    Ratio(Dcg(gains, d), Dcg(Ones(m), d));
    if AllOnes(gains, m) {
      OnesCount(gains, m);
    }
    TopPerfect(sessions, gold, k, m);
  }

  lemma TopPerfect(sessions: seq<Session>, gold: set<Session>, k: nat, m: nat)
    requires m <= k
    ensures AllOnes(Top(Gains(sessions, gold), k), m) <==> PerfectTop(sessions, gold, m)
  {
    var top := Top(Gains(sessions, gold), k);
    assert m <= |top| <==> m <= |sessions|;
    if m <= |top| {
      assert forall i :: 0 <= i < m ==> (top[i] == 1 <==> sessions[i] in gold && sessions[i] !in sessions[..i]);
    }
  }

  // A perfect nDCG@k means all the gold that fits was recalled.
  lemma PerfectNdcgRecall(sessions: seq<Session>, gold: set<Session>, k: nat, d: nat -> real)
    requires Discount(d) && gold != {} && k > 0 && Ndcg(sessions, gold, k, d) == 1.0
    ensures Recall(sessions, gold, k) == Least(|gold|, k) as real / |gold| as real
  {
    var m := Least(|gold|, k);
    NdcgIsRatio(sessions, gold, k, d);
    TopPerfect(sessions, gold, k, m);
    GainsAtMostGold(sessions, gold, k);
    OnesCount(Top(Gains(sessions, gold), k), m);
    GainsCount(sessions, gold, Least(k, |sessions|));
  }

  // ---- Average precision ----

  lemma {:induction false} PrecisionSumBound(gains: seq<nat>)
    requires Bits(gains)
    ensures 0.0 <= PrecisionSum(gains) <= Count(gains) as real
    ensures PrecisionSum(gains) == Count(gains) as real <==> AllOnes(gains, Count(gains))
  {
    CountBound(gains);
    if gains != [] {
      var n := |gains| - 1;
      PrecisionSumBound(gains[..n]);
      FrontStep(gains);
      FullFront(gains[..n]);
      CountBound(gains[..n]);
      Ratio(Count(gains) as real, |gains| as real);
      hide AllOnes;
    }
  }

  // Average precision is a ratio, and it is 1 exactly when the list begins with all the gold sessions.
  lemma AveragePrecisionIsRatio(sessions: seq<Session>, gold: set<Session>)
    requires gold != {}
    ensures 0.0 <= AveragePrecision(sessions, gold) <= 1.0
    ensures AveragePrecision(sessions, gold) == 1.0 <==> PerfectTop(sessions, gold, |gold|)
  {
    var gains := Gains(sessions, gold);
    var k := |sessions| + |gold|;
    GainsAtMostGold(sessions, gold, k);
    assert Top(gains, k) == gains;
    PrecisionSumBound(gains);
    Ratio(PrecisionSum(gains), |gold| as real);
    if AllOnes(gains, |gold|) {
      OnesCount(gains, |gold|);
    }
    TopPerfect(sessions, gold, k, |gold|);
  }

  // ---- Better rankings ----

  function Swap<T>(s: seq<T>, p: nat): seq<T>
    requires p + 1 < |s|
  {
    s[p := s[p + 1]][p + 1 := s[p]]
  }

  lemma SwapGains(sessions: seq<Session>, gold: set<Session>, p: nat)
    requires p + 1 < |sessions| && Gain(sessions, gold, p) == 0 && Gain(sessions, gold, p + 1) == 1
    ensures Gains(Swap(sessions, p), gold) == Swap(Gains(sessions, gold), p)
  {
    var t := Swap(sessions, p);
    assert t[..p] == sessions[..p];
    assert t[..p + 1] == sessions[..p] + [sessions[p + 1]] && sessions[..p + 1] == sessions[..p] + [sessions[p]];
    forall i | p + 2 <= i < |t|
      ensures Gain(t, gold, i) == Gain(sessions, gold, i)
    {
      var a, b := t[..i], sessions[..i];
      assert b == b[..p] + [b[p], b[p + 1]] + b[p + 2..] && a == b[..p] + [b[p + 1], b[p]] + b[p + 2..];
    }
    forall i | 0 <= i < p
      ensures Gain(t, gold, i) == Gain(sessions, gold, i)
    {
      assert t[..i] == sessions[..i];
    }
  }

  lemma {:induction false} SwapDcg(rels: seq<nat>, p: nat, d: nat -> real)
    requires p + 1 < |rels| && rels[p] == 0 && rels[p + 1] == 1
    ensures Dcg(Swap(rels, p), d) == Dcg(rels, d) + d(p) - d(p + 1)
  {
    var n := |rels| - 1;
    var t := Swap(rels, p);
    if p + 1 < n {
      SwapDcg(rels[..n], p, d);
      assert t[..n] == Swap(rels[..n], p);
    } else {
      assert t[..n][..p] == rels[..n][..p];
    }
  }

  // Moving a first gold session one place ahead of an entry without gain raises nDCG@k exactly when it
  // moves within or into the first k places, and changes nothing otherwise.
  lemma SwapNdcg(sessions: seq<Session>, gold: set<Session>, k: nat, d: nat -> real, p: nat)
    requires Discount(d) && gold != {} && k > 0
    requires p + 1 < |sessions| && Gain(sessions, gold, p) == 0 && Gain(sessions, gold, p + 1) == 1
    ensures var better := Ndcg(Swap(sessions, p), gold, k, d);
            if p < k then better > Ndcg(sessions, gold, k, d) else better == Ndcg(sessions, gold, k, d)
  {
    var gains := Gains(sessions, gold);
    var swapped := Swap(gains, p);
    SwapGains(sessions, gold, p);
    DcgOnes(Least(|gold|, k), d);
    var before, after := Top(gains, k), Top(swapped, k);
    if p + 1 < k {
      SwapDcg(before, p, d);
      assert after == Swap(before, p);
    } else if p + 1 == k {
      assert after[..p] == before[..p];
    } else {
      assert after == before;
    }
    Scale(Dcg(before, d), Dcg(after, d), Dcg(Ones(Least(|gold|, k)), d));
  }

  lemma Scale(a: real, b: real, c: real)
    requires c > 0.0
    ensures a < b ==> a / c < b / c
    ensures a == b ==> a / c == b / c
  {
  }

  lemma {:induction false} SwapCount(rels: seq<nat>, p: nat, n: nat)
    requires p + 1 < |rels| && n <= |rels| && rels[p] == 0 && rels[p + 1] == 1
    ensures Count(Swap(rels, p)[..n]) == Count(rels[..n]) + if n == p + 1 then 1 else 0
  {
    if n > 0 {
      SwapCount(rels, p, n - 1);
      assert rels[..n][..n - 1] == rels[..n - 1] && Swap(rels, p)[..n][..n - 1] == Swap(rels, p)[..n - 1];
      if n - 1 == p + 1 {
        SwapCount(rels, p, n - 2);
        assert rels[..n - 1][..n - 2] == rels[..n - 2] && Swap(rels, p)[..n - 1][..n - 2] == Swap(rels, p)[..n - 2];
      }
    }
  }

  lemma {:induction false} SwapPrecisionSum(gains: seq<nat>, p: nat, n: nat)
    requires p + 1 < |gains| && gains[p] == 0 && gains[p + 1] == 1 && n <= |gains|
    ensures n <= p ==> PrecisionSum(Swap(gains, p)[..n]) == PrecisionSum(gains[..n])
    ensures n == p + 1 ==>
            PrecisionSum(Swap(gains, p)[..n]) == PrecisionSum(gains[..p]) + (Count(gains[..p]) + 1) as real / n as real
    ensures n > p + 1 ==> PrecisionSum(Swap(gains, p)[..n]) > PrecisionSum(gains[..n])
  {
    if n > 0 {
      var t := Swap(gains, p);
      SwapPrecisionSum(gains, p, n - 1);
      SwapCount(gains, p, n);
      assert gains[..n][..n - 1] == gains[..n - 1] && t[..n][..n - 1] == t[..n - 1];
      if n == p + 1 {
        assert t[..p] == gains[..p];
      }
      if n == p + 2 {
        assert gains[..n - 1][..p] == gains[..p];
        Smaller(Count(gains[..p]) + 1, p + 1);
      }
    }
  }

  lemma Smaller(c: nat, n: nat)
    requires c > 0 && n > 0
    ensures c as real / n as real > c as real / (n + 1) as real
  {
  }

  lemma SwapAveragePrecision(sessions: seq<Session>, gold: set<Session>, p: nat)
    requires gold != {} && p + 1 < |sessions| && Gain(sessions, gold, p) == 0 && Gain(sessions, gold, p + 1) == 1
    ensures AveragePrecision(Swap(sessions, p), gold) > AveragePrecision(sessions, gold)
  {
    var gains := Gains(sessions, gold);
    SwapGains(sessions, gold, p);
    SwapPrecisionSum(gains, p, |gains|);
    assert gains[..|gains|] == gains && Swap(gains, p)[..|gains|] == Swap(gains, p);
    Scale(PrecisionSum(gains), PrecisionSum(Swap(gains, p)), |gold| as real);
  }

  lemma {:induction false} FirstIs(sessions: seq<Session>, gold: set<Session>)
    ensures match FirstRelevant(sessions, gold)
            case None => forall i :: 0 <= i < |sessions| ==> sessions[i] !in gold
            case Some(k) => k < |sessions| && sessions[k] in gold && forall i :: 0 <= i < k ==> sessions[i] !in gold
  {
    if sessions != [] {
      FirstIs(sessions[..|sessions| - 1], gold);
    }
  }

  lemma SwapReciprocalRank(sessions: seq<Session>, gold: set<Session>, p: nat)
    requires p + 1 < |sessions| && Gain(sessions, gold, p) == 0 && Gain(sessions, gold, p + 1) == 1
    ensures var better, was := ReciprocalRank(Swap(sessions, p), gold), ReciprocalRank(sessions, gold);
            if FirstRelevant(sessions, gold) == Some(p + 1) then better > was else better == was
  {
    var t := Swap(sessions, p);
    FirstIs(sessions, gold);
    FirstIs(t, gold);
    assert t[p] in gold && sessions[p + 1] in gold;
    var k, l := FirstRelevant(sessions, gold).value, FirstRelevant(t, gold).value;
    assert sessions[p] in gold ==> exists i :: 0 <= i < p && sessions[i] == sessions[p];
    assert k < p || k == p + 1;
    if k < p {
      assert t[k] == sessions[k] && l == k;
    } else {
      assert l == p;
      Smaller(1, p + 1);
    }
  }

  // ---- Cut-offs ----

  // Nothing behind place k changes a value at k.
  lemma PrefixOnly(a: seq<Session>, b: seq<Session>, gold: set<Session>, k: nat, d: nat -> real)
    requires Top(a, k) == Top(b, k) && gold != {} && k > 0
    ensures Ndcg(a, gold, k, d) == Ndcg(b, gold, k, d)
    ensures Recall(a, gold, k) == Recall(b, gold, k) && Precision(a, gold, k) == Precision(b, gold, k)
  {
    var n := Least(k, |a|);
    assert n == |Top(a, k)| == |Top(b, k)| == Least(k, |b|);
    forall i | 0 <= i < n
      ensures Gain(a, gold, i) == Gain(b, gold, i)
    {
      assert a[i] == Top(a, k)[i] == Top(b, k)[i] == b[i];
      assert a[..i] == Top(a, k)[..i] == Top(b, k)[..i] == b[..i];
    }
    assert Top(Gains(a, gold), k) == Top(Gains(b, gold), k);
  }

  // Recall never falls as k grows, is a ratio, and is 1 exactly when every gold session is among the first k.
  lemma RecallGrows(sessions: seq<Session>, gold: set<Session>, k: nat, l: nat)
    requires gold != {} && k <= l
    ensures 0.0 <= Recall(sessions, gold, k) <= Recall(sessions, gold, l) <= 1.0
    ensures Recall(sessions, gold, k) == 1.0 <==> forall s :: s in gold ==> s in Top(sessions, k)
  {
    var a, b := Found(Top(sessions, k), gold), Found(Top(sessions, l), gold);
    assert Top(sessions, k) == Top(sessions, l)[..|Top(sessions, k)|];
    assert a <= b <= gold;
    Subset(a, b);
    Subset(b, gold);
    Subset(a, gold);
    Ratio(|a| as real, |gold| as real);
    Ratio(|b| as real, |gold| as real);
    if |a| < |b| {
      Scale(|a| as real, |b| as real, |gold| as real);
    }
    if a == gold {
      assert forall s :: s in gold ==> s in a;
    }
    if forall s :: s in gold ==> s in Top(sessions, k) {
      assert gold <= a;
    }
  }

  // ---- The scoring pass ----

  datatype AtK = AtK(recall: real, precision: real, ndcg: real)

  datatype Scores = Scores(rr: real, ap: real, full: real, perK: seq<AtK>)

  predicate Cutoffs(ks: seq<nat>) { forall i :: 0 <= i < |ks| ==> ks[i] > 0 }

  function ScoreAt(sessions: seq<Session>, gold: set<Session>, k: nat, d: nat -> real): AtK
    requires gold != {} && k > 0
  {
    AtK(Recall(sessions, gold, k), Precision(sessions, gold, k), Ndcg(sessions, gold, k, d))
  }

  function ScoresOf(sessions: seq<Session>, gold: set<Session>, ks: seq<nat>, d: nat -> real): Scores
    requires gold != {} && Cutoffs(ks)
  {
    Scores(ReciprocalRank(sessions, gold), AveragePrecision(sessions, gold),
           if Found(sessions, gold) == gold then 1.0 else 0.0,
           seq(|ks|, i requires 0 <= i < |ks| => ScoreAt(sessions, gold, ks[i], d)))
  }

  function Sum(xs: seq<real>): real { if xs == [] then 0.0 else Sum(xs[..|xs| - 1]) + xs[|xs| - 1] }

  // The position of the first relevant entry, counted from one.
  method FirstHit(sessions: seq<Session>, gold: set<Session>) returns (first: Option<nat>)
    ensures first == match FirstRelevant(sessions, gold) case None => None case Some(i) => Some(i + 1)
  {
    FirstIs(sessions, gold);
    hide FirstRelevant;
    for i := 0 to |sessions|
      invariant forall j :: 0 <= j < i ==> sessions[j] !in gold
    {
      if sessions[i] in gold {
        return Some(i + 1);
      }
    }
    first := None;
  }

  // The one pass behind average precision and nDCG.
  method Walk(sessions: seq<Session>, gold: set<Session>) returns (gains: seq<nat>, precs: seq<real>)
    ensures gains == Gains(sessions, gold) && Sum(precs) == PrecisionSum(gains)
  {
    hide Found, Count, Sum, PrecisionSum, Gains;
    var seen: set<Session>, hits := {}, 0;
    gains, precs := [], [];
    NothingSeen(sessions, gold);
    for i := 0 to |sessions|
      invariant |gains| == i && (forall j :: 0 <= j < i ==> gains[j] == Gain(sessions, gold, j))
      invariant seen == Found(sessions[..i], gold) && hits == Count(gains) && Sum(precs) == PrecisionSum(gains)
    {
      var s := sessions[i];
      FoundStep(sessions, gold, i);
      if s in gold && s !in seen {
        seen, hits := seen + {s}, hits + 1;
        StepUp(gains, 1);
        SumUp(precs, hits as real / (i + 1) as real);
        precs := precs + [hits as real / (i + 1) as real];
        gains := gains + [1];
      } else {
        StepUp(gains, 0);
        gains := gains + [0];
      }
    }
  }

  lemma NothingSeen(sessions: seq<Session>, gold: set<Session>)
    ensures Found(sessions[..0], gold) == {} && Count([]) == 0 && Sum([]) == PrecisionSum([]) == 0.0
  {
  }

  lemma StepUp(gains: seq<nat>, gain: nat)
    requires gain <= 1
    ensures Count(gains + [gain]) == Count(gains) + gain
    ensures PrecisionSum(gains + [gain]) ==
            PrecisionSum(gains) + if gain == 1 then (Count(gains) + 1) as real / (|gains| + 1) as real else 0.0
  {
    CountMore(gains, gain);
    hide Count;
    assert (gains + [gain])[..|gains|] == gains && |gains + [gain]| == |gains| + 1;
  }

  lemma CountMore(gains: seq<nat>, gain: nat)
    ensures Count(gains + [gain]) == Count(gains) + gain
  {
    assert (gains + [gain])[..|gains|] == gains;
  }

  lemma SumUp(precs: seq<real>, x: real)
    ensures Sum(precs + [x]) == Sum(precs) + x
  {
    assert (precs + [x])[..|precs|] == precs;
  }

  method ScoreOne(sessions: seq<Session>, gold: set<Session>, ks: seq<nat>, d: nat -> real) returns (r: Scores)
    requires gold != {} && Cutoffs(ks)
    ensures r == ScoresOf(sessions, gold, ks, d)
  {
    hide Gains, Dcg, PrecisionSum, Relevant, FirstRelevant, Sum;
    var first := FirstHit(sessions, gold);
    var rr := if first.Some? then 1.0 / first.value as real else 0.0;
    var gains, precs := Walk(sessions, gold);
    var ap := if precs != [] then Sum(precs) / |gold| as real else 0.0;
    NoPrecisions(precs, |gold|);
    GainsCount(sessions, gold, |sessions|);
    assert sessions[..|sessions|] == sessions;
    Subset(Found(sessions, gold), gold);
    var full := if |Found(sessions, gold)| == |gold| then 1.0 else 0.0;
    var perK: seq<AtK> := [];
    for i := 0 to |ks|
      invariant |perK| == i && forall j :: 0 <= j < i ==> perK[j] == ScoreAt(sessions, gold, ks[j], d)
    {
      var k := ks[i];
      var top := Top(sessions, k);
      var recall := |Found(top, gold)| as real / |gold| as real;
      var precision := Relevant(top, gold) as real / k as real;
      var ideal := Dcg(Ones(Least(|gold|, k)), d);
      var ndcg := if ideal > 0.0 then Dcg(Top(gains, k), d) / ideal else 0.0;
      perK := perK + [AtK(recall, precision, ndcg)];
    }
    r := Scores(rr, ap, full, perK);
  }

  lemma NoPrecisions(precs: seq<real>, n: nat)
    requires n > 0
    ensures precs == [] ==> Sum(precs) / n as real == 0.0
  {
  }

  // ---- Means over the questions ----

  function Mean(xs: seq<real>): real
    requires xs != []
  {
    Sum(xs) / |xs| as real
  }

  // A mean of ratios is a ratio, and it is 1 only when each of them is.
  lemma MeanIsRatio(xs: seq<real>)
    requires xs != [] && forall i :: 0 <= i < |xs| ==> 0.0 <= xs[i] <= 1.0
    ensures 0.0 <= Mean(xs) <= 1.0
    ensures Mean(xs) == 1.0 <==> forall i :: 0 <= i < |xs| ==> xs[i] == 1.0
  {
    SumBound(xs);
    Ratio(Sum(xs), |xs| as real);
  }

  lemma {:induction false} SumBound(xs: seq<real>)
    requires forall i :: 0 <= i < |xs| ==> 0.0 <= xs[i] <= 1.0
    ensures 0.0 <= Sum(xs) <= |xs| as real
    ensures Sum(xs) == |xs| as real <==> forall i :: 0 <= i < |xs| ==> xs[i] == 1.0
  {
    if xs != [] {
      SumBound(xs[..|xs| - 1]);
    }
  }

  datatype Question = Question(sessions: seq<Session>, gold: set<Session>)

  // The questions that have gold; the others are not scored.
  function Scored(questions: seq<Question>): (r: seq<Question>)
    ensures forall i :: 0 <= i < |r| ==> r[i].gold != {}
  {
    if questions == [] then []
    else
      var n := |questions| - 1;
      Scored(questions[..n]) + if questions[n].gold == {} then [] else [questions[n]]
  }

  // The scores of every question that has gold.
  function Rows(questions: seq<Question>, ks: seq<nat>, d: nat -> real): (r: seq<Scores>)
    requires Cutoffs(ks)
    ensures |r| == |Scored(questions)|
    ensures forall i :: 0 <= i < |r| ==>
            r[i] == ScoresOf(Scored(questions)[i].sessions, Scored(questions)[i].gold, ks, d)
  {
    var scored := Scored(questions);
    seq(|scored|, i requires 0 <= i < |scored| => ScoresOf(scored[i].sessions, scored[i].gold, ks, d))
  }

  datatype Report = Report(n: nat, mrr: real, map_: real, fullRecallRate: real, perK: seq<AtK>)

  // One of the numbers of a question.
  datatype Metric = Rr | Ap | Full | RecallAt(j: nat) | PrecisionAt(j: nat) | NdcgAt(j: nat)

  predicate SameWidth(rows: seq<Scores>, width: nat) { forall i :: 0 <= i < |rows| ==> |rows[i].perK| == width }

  predicate Has(width: nat, m: Metric) { m.Rr? || m.Ap? || m.Full? || m.j < width }

  function Pick(r: Scores, m: Metric): real
    requires Has(|r.perK|, m)
  {
    match m
    case Rr => r.rr
    case Ap => r.ap
    case Full => r.full
    case RecallAt(j) => r.perK[j].recall
    case PrecisionAt(j) => r.perK[j].precision
    case NdcgAt(j) => r.perK[j].ndcg
  }

  function MeanOf(rows: seq<Scores>, width: nat, m: Metric): real
    requires rows != [] && SameWidth(rows, width) && Has(width, m)
  {
    Mean(seq(|rows|, i requires 0 <= i < |rows| => Pick(rows[i], m)))
  }

  function ReportOf(rows: seq<Scores>, width: nat): Report
    requires rows != [] && SameWidth(rows, width)
  {
    Report(|rows|, MeanOf(rows, width, Rr), MeanOf(rows, width, Ap), MeanOf(rows, width, Full),
           seq(width, j requires 0 <= j < width =>
             AtK(MeanOf(rows, width, RecallAt(j)), MeanOf(rows, width, PrecisionAt(j)),
                 MeanOf(rows, width, NdcgAt(j)))))
  }

  lemma MeanOfIsRatio(rows: seq<Scores>, width: nat, m: Metric)
    requires rows != [] && SameWidth(rows, width) && Has(width, m)
    requires forall i :: 0 <= i < |rows| ==> 0.0 <= Pick(rows[i], m) <= 1.0
    ensures 0.0 <= MeanOf(rows, width, m) <= 1.0
    ensures MeanOf(rows, width, m) == 1.0 <==> forall i :: 0 <= i < |rows| ==> Pick(rows[i], m) == 1.0
  {
    hide Mean, Pick;
    var values := seq(|rows|, i requires 0 <= i < |rows| => Pick(rows[i], m));
    MeanIsRatio(values);
    assert forall i :: 0 <= i < |rows| ==> values[i] == Pick(rows[i], m);
  }

  // None is the report of a run without a question that has gold.
  method Score(questions: seq<Question>, ks: seq<nat>, d: nat -> real) returns (report: Option<Report>)
    requires Cutoffs(ks)
    ensures report == if Scored(questions) == [] then None else Some(ReportOf(Rows(questions, ks, d), |ks|))
  {
    hide ScoresOf, Mean;
    var rows: seq<Scores>, n := [], 0;
    for i := 0 to |questions|
      invariant n == |rows| && rows == Rows(questions[..i], ks, d) && SameWidth(rows, |ks|)
    {
      assert questions[..i + 1][..i] == questions[..i];
      var q := questions[i];
      if q.gold == {} {
        continue;
      }
      n := n + 1;
      var scores := ScoreOne(q.sessions, q.gold, ks, d);
      Width(q.sessions, q.gold, ks, d);
      rows := rows + [scores];
    }
    assert questions[..|questions|] == questions;
    report := if n == 0 then None else Some(ReportOf(rows, |ks|));
  }

  lemma Width(sessions: seq<Session>, gold: set<Session>, ks: seq<nat>, d: nat -> real)
    requires gold != {} && Cutoffs(ks)
    ensures |ScoresOf(sessions, gold, ks, d).perK| == |ks|
  {
  }

  lemma {:induction false} RelevantBound(sessions: seq<Session>, gold: set<Session>)
    ensures Relevant(sessions, gold) <= |sessions|
  {
    if sessions != [] {
      RelevantBound(sessions[..|sessions| - 1], gold);
    }
  }
}
