// What the ranking numbers are, entry by entry and question by question: memory/benchmarks/metrics/ir.py:53-93.
module RankValues {
  import opened RankMetrics

  // ---- Reciprocal rank ----

  // One over the place of the first gold entry, counted from one, and zero without any.
  lemma ReciprocalRankIs(sessions: seq<Session>, gold: set<Session>)
    ensures ReciprocalRank(sessions, gold) == 1.0 <==> sessions != [] && sessions[0] in gold
    ensures ReciprocalRank(sessions, gold) == 0.0 <==> forall i :: 0 <= i < |sessions| ==> sessions[i] !in gold
    ensures forall k ::
              0 <= k < |sessions| && sessions[k] in gold && (forall i :: 0 <= i < k ==> sessions[i] !in gold) ==>
              ReciprocalRank(sessions, gold) * (k + 1) as real == 1.0
  {
    FirstIs(sessions, gold);
    hide FirstRelevant;
    var first := FirstRelevant(sessions, gold);
    if first.Some? {
      OneOver(first.value + 1);
    }
  }

  lemma OneOver(n: nat)
    requires n > 0
    ensures 1.0 / n as real * n as real == 1.0 && 1.0 / n as real > 0.0 && (1.0 / n as real == 1.0 <==> n == 1)
  {
  }

  // ---- Precision and recall ----

  function GoldPlaces(sessions: seq<Session>, gold: set<Session>, k: nat): set<nat>
  {
    set i: nat | i < k && i < |sessions| && sessions[i] in gold
  }

  // Precision counts places: a session that comes twice counts twice. It is 1 exactly when the first k places are
  // all gold.
  lemma PrecisionCounts(sessions: seq<Session>, gold: set<Session>, k: nat)
    requires k > 0
    ensures Precision(sessions, gold, k) * k as real == |GoldPlaces(sessions, gold, k)| as real
    ensures 0.0 <= Precision(sessions, gold, k) <= 1.0
    ensures Precision(sessions, gold, k) == 1.0 <==>
            k <= |sessions| && forall i :: 0 <= i < k ==> sessions[i] in gold
  {
    var top := Top(sessions, k);
    RelevantIs(top, gold);
    RelevantBound(top, gold);
    assert GoldPlaces(top, gold, |top|) == GoldPlaces(sessions, gold, k);
    hide Relevant, GoldPlaces;
    Ratio(Relevant(top, gold) as real, k as real);
    Times(Relevant(top, gold) as real, k as real);
  }

  lemma Times(a: real, b: real)
    requires b > 0.0
    ensures a / b * b == a
  {
  }

  lemma {:induction false} RelevantIs(sessions: seq<Session>, gold: set<Session>)
    ensures Relevant(sessions, gold) == |GoldPlaces(sessions, gold, |sessions|)|
    ensures Relevant(sessions, gold) == |sessions| <==> forall i :: 0 <= i < |sessions| ==> sessions[i] in gold
  {
    if sessions != [] {
      var n := |sessions| - 1;
      RelevantIs(sessions[..n], gold);
      RelevantBound(sessions[..n], gold);
      var before, after := GoldPlaces(sessions[..n], gold, n), GoldPlaces(sessions, gold, n + 1);
      assert after == if sessions[n] in gold then before + {n} else before;
      assert n !in before;
    }
  }

  // Recall counts sessions: those of the gold that come among the first k.
  lemma RecallCounts(sessions: seq<Session>, gold: set<Session>, k: nat)
    requires gold != {}
    ensures Recall(sessions, gold, k) * |gold| as real ==
            |set s | s in gold && s in sessions[..Least(k, |sessions|)]| as real
  {
    var found := set s | s in gold && s in sessions[..Least(k, |sessions|)];
    assert found == Found(Top(sessions, k), gold);
    Times(|found| as real, |gold| as real);
  }

  // ---- One more entry ----

  // A gold session that is not in the list yet.
  predicate IsNew(sessions: seq<Session>, gold: set<Session>, s: Session) { s in gold && s !in sessions }

  lemma GainsMore(sessions: seq<Session>, gold: set<Session>, s: Session)
    ensures Gains(sessions + [s], gold) == Gains(sessions, gold) + [if IsNew(sessions, gold, s) then 1 else 0]
  {
    var more := sessions + [s];
    forall i | 0 <= i < |sessions|
      ensures Gain(more, gold, i) == Gain(sessions, gold, i)
    {
      assert more[..i] == sessions[..i];
    }
    assert more[..|sessions|] == sessions;
  }

  // Average precision, times the size of the gold, starts at zero; an entry adds its precision, counting gold
  // sessions once, when it is new gold and nothing otherwise.
  lemma AveragePrecisionMore(sessions: seq<Session>, gold: set<Session>, s: Session)
    requires gold != {}
    ensures AveragePrecision([], gold) == 0.0
    ensures var n := |sessions| + 1;
            AveragePrecision(sessions + [s], gold) * |gold| as real ==
            AveragePrecision(sessions, gold) * |gold| as real
            + if IsNew(sessions, gold, s) then (|set g | g in gold && g in sessions| + 1) as real / n as real else 0.0
  {
    var gains := Gains(sessions, gold);
    GainsMore(sessions, gold, s);
    StepUp(gains, if IsNew(sessions, gold, s) then 1 else 0);
    GainsCount(sessions, gold, |sessions|);
    assert gains[..|sessions|] == gains && sessions[..|sessions|] == sessions;
    assert Found(sessions, gold) == set g | g in gold && g in sessions;
    Times(PrecisionSum(gains), |gold| as real);
    Times(PrecisionSum(Gains(sessions + [s], gold)), |gold| as real);
    assert Gains([], gold) == [] && PrecisionSum([]) == 0.0;
  }

  // The discounts of the first m places.
  function Places(m: nat, d: nat -> real): real { if m == 0 then 0.0 else Places(m - 1, d) + d(m - 1) }

  lemma {:induction false} PlacesAreOnes(m: nat, d: nat -> real)
    ensures Dcg(Ones(m), d) == Places(m, d)
  {
    if m > 0 {
      PlacesAreOnes(m - 1, d);
      assert Ones(m)[..m - 1] == Ones(m - 1);
    }
  }

  // nDCG@k in units of a discount: times the discounts of as many places as gold and list can fill.
  function Credit(sessions: seq<Session>, gold: set<Session>, k: nat, d: nat -> real): real
  {
    Ndcg(sessions, gold, k, d) * Places(Least(|gold|, k), d)
  }

  // nDCG@k starts at zero; an entry adds the discount of its place when it is new gold within the first k, and nothing
  // otherwise.
  lemma NdcgMore(sessions: seq<Session>, gold: set<Session>, k: nat, d: nat -> real, s: Session)
    requires Discount(d) && gold != {} && k > 0
    ensures Places(Least(|gold|, k), d) > 0.0 && Ndcg([], gold, k, d) == 0.0
    ensures Credit(sessions + [s], gold, k, d) ==
            Credit(sessions, gold, k, d) + if IsNew(sessions, gold, s) && |sessions| < k then d(|sessions|) else 0.0
  {
    hide *;
    NoEntries(gold, k, d);
    DcgMore(sessions, gold, k, d, s);
    NdcgQuotient(sessions, gold, k, d);
    NdcgQuotient(sessions + [s], gold, k, d);
  }

  lemma NdcgQuotient(sessions: seq<Session>, gold: set<Session>, k: nat, d: nat -> real)
    requires Discount(d) && gold != {} && k > 0
    ensures Places(Least(|gold|, k), d) > 0.0
    ensures Credit(sessions, gold, k, d) == Dcg(Top(Gains(sessions, gold), k), d)
  {
    hide Dcg, Ones, Places, Discount, Gains, Top, Least;
    DcgOnes(Least(|gold|, k), d);
    PlacesAreOnes(Least(|gold|, k), d);
    LeastPositive(|gold|, k);
    Quotient(Ndcg(sessions, gold, k, d), Dcg(Top(Gains(sessions, gold), k), d), Dcg(Ones(Least(|gold|, k)), d));
  }

  lemma LeastPositive(a: nat, b: nat)
    requires a > 0 && b > 0
    ensures Least(a, b) > 0
  {
  }

  lemma Quotient(x: real, a: real, b: real)
    requires b > 0.0 && x == a / b
    ensures x * b == a
  {
  }

  lemma DcgMore(sessions: seq<Session>, gold: set<Session>, k: nat, d: nat -> real, s: Session)
    ensures Dcg(Top(Gains(sessions + [s], gold), k), d) ==
            Dcg(Top(Gains(sessions, gold), k), d)
            + if IsNew(sessions, gold, s) && |sessions| < k then d(|sessions|) else 0.0
  {
    hide IsNew;
    var gains := Gains(sessions, gold);
    GainsMore(sessions, gold, s);
    hide Gains;
    var before, after := Top(gains, k), Top(Gains(sessions + [s], gold), k);
    if |sessions| < k {
      assert after[..|sessions|] == before;
    } else {
      assert after == before;
    }
  }

  lemma NoEntries(gold: set<Session>, k: nat, d: nat -> real)
    requires gold != {}
    ensures Ndcg([], gold, k, d) == 0.0
  {
    assert Top(Gains([], gold), k) == [];
    var ideal := Dcg(Ones(Least(|gold|, k)), d);
    assert ideal > 0.0 ==> 0.0 / ideal == 0.0;
  }

  // ---- Reports ----

  lemma NoSum()
    ensures Sum([]) == 0.0
  {
  }

  function Summed(mean: real, n: nat): real { mean * n as real }

  lemma TimesMean(xs: seq<real>)
    requires xs != []
    ensures Summed(Mean(xs), |xs|) == Sum(xs)
  {
    hide Sum;
    Times(Sum(xs), |xs| as real);
  }

  // The report of a run in which some question has gold.
  function ReportFor(questions: seq<Question>, ks: seq<nat>, d: nat -> real): Report
    requires Cutoffs(ks) && Scored(questions) != []
  {
    Widths(questions, ks, d);
    ReportOf(Rows(questions, ks, d), |ks|)
  }

  lemma Widths(questions: seq<Question>, ks: seq<nat>, d: nat -> real)
    requires Cutoffs(ks)
    ensures SameWidth(Rows(questions, ks, d), |ks|)
  {
    forall i | 0 <= i < |Scored(questions)|
      ensures |Rows(questions, ks, d)[i].perK| == |ks|
    {
      Width(Scored(questions)[i].sessions, Scored(questions)[i].gold, ks, d);
    }
  }

  // When a number of one question is as good as it can be.
  predicate Perfect(q: Question, ks: seq<nat>, m: Metric)
    requires Has(|ks|, m)
  {
    match m
    case Rr => q.sessions != [] && q.sessions[0] in q.gold
    case Ap => PerfectTop(q.sessions, q.gold, |q.gold|)
    case Full => forall s :: s in q.gold ==> s in q.sessions
    case RecallAt(j) => forall s :: s in q.gold ==> s in Top(q.sessions, ks[j])
    case PrecisionAt(j) => ks[j] <= |q.sessions| && forall i :: 0 <= i < ks[j] ==> q.sessions[i] in q.gold
    case NdcgAt(j) => PerfectTop(q.sessions, q.gold, Least(|q.gold|, ks[j]))
  }

  lemma QuestionRatios(q: Question, ks: seq<nat>, d: nat -> real, m: Metric)
    requires Discount(d) && Cutoffs(ks) && Has(|ks|, m) && q.gold != {}
    ensures var r := ScoresOf(q.sessions, q.gold, ks, d);
            |r.perK| == |ks| && 0.0 <= Pick(r, m) <= 1.0 && (Pick(r, m) == 1.0 <==> Perfect(q, ks, m))
  {
    hide Ndcg, AveragePrecision, Recall, Precision, ReciprocalRank, FirstRelevant, PerfectTop;
    match m
    case Rr => ReciprocalRankBound(q.sessions, q.gold);
    case Ap => AveragePrecisionIsRatio(q.sessions, q.gold);
    case Full => AllFound(q.sessions, q.gold);
    case RecallAt(j) => RecallGrows(q.sessions, q.gold, ks[j], ks[j]);
    case PrecisionAt(j) => PrecisionCounts(q.sessions, q.gold, ks[j]);
    case NdcgAt(j) => NdcgIsRatio(q.sessions, q.gold, ks[j], d);
  }

  lemma ReciprocalRankBound(sessions: seq<Session>, gold: set<Session>)
    ensures 0.0 <= ReciprocalRank(sessions, gold) <= 1.0
    ensures ReciprocalRank(sessions, gold) == 1.0 <==> sessions != [] && sessions[0] in gold
  {
    ReciprocalRankIs(sessions, gold);
    hide FirstRelevant;
    if FirstRelevant(sessions, gold).Some? {
      Ratio(1.0, (FirstRelevant(sessions, gold).value + 1) as real);
    }
  }

  lemma AllFound(sessions: seq<Session>, gold: set<Session>)
    ensures Found(sessions, gold) == gold <==> forall s :: s in gold ==> s in sessions
  {
  }

  // Every reported value is a ratio, and it is 1 exactly when it is perfect for every question that is scored: the
  // list starts with gold, with all of it, contains all of it, or has in its first k places all the gold, nothing but
  // gold, or as many different gold sessions as fit.
  lemma ReportPerfect(questions: seq<Question>, ks: seq<nat>, d: nat -> real)
    requires Discount(d) && Cutoffs(ks) && Scored(questions) != []
    ensures var r := ReportFor(questions, ks, d);
            && r.n == |Scored(questions)| && |r.perK| == |ks|
            && Judged(r.mrr, questions, ks, Rr) && Judged(r.map_, questions, ks, Ap)
            && Judged(r.fullRecallRate, questions, ks, Full)
            && forall j :: 0 <= j < |ks| ==>
                 && Judged(r.perK[j].recall, questions, ks, RecallAt(j))
                 && Judged(r.perK[j].precision, questions, ks, PrecisionAt(j))
                 && Judged(r.perK[j].ndcg, questions, ks, NdcgAt(j))
  {
    var r := ReportFor(questions, ks, d);
    Widths(questions, ks, d);
    hide Rows, Scored, MeanOf, Judged;
    ReportRatios(questions, ks, d, Rr);
    ReportRatios(questions, ks, d, Ap);
    ReportRatios(questions, ks, d, Full);
    forall j | 0 <= j < |ks|
      ensures Judged(r.perK[j].recall, questions, ks, RecallAt(j))
      ensures Judged(r.perK[j].precision, questions, ks, PrecisionAt(j))
      ensures Judged(r.perK[j].ndcg, questions, ks, NdcgAt(j))
    {
      ReportRatios(questions, ks, d, RecallAt(j));
      ReportRatios(questions, ks, d, PrecisionAt(j));
      ReportRatios(questions, ks, d, NdcgAt(j));
    }
  }

  predicate Judged(value: real, questions: seq<Question>, ks: seq<nat>, m: Metric)
    requires Has(|ks|, m)
  {
    && 0.0 <= value <= 1.0
    && (value == 1.0 <==> forall i :: 0 <= i < |Scored(questions)| ==> Perfect(Scored(questions)[i], ks, m))
  }

  lemma ReportRatios(questions: seq<Question>, ks: seq<nat>, d: nat -> real, m: Metric)
    requires Discount(d) && Cutoffs(ks) && Has(|ks|, m) && Scored(questions) != []
    ensures SameWidth(Rows(questions, ks, d), |ks|)
    ensures Judged(MeanOf(Rows(questions, ks, d), |ks|, m), questions, ks, m)
  {
    var scored, rows := Scored(questions), Rows(questions, ks, d);
    Widths(questions, ks, d);
    forall i | 0 <= i < |rows|
      ensures |rows[i].perK| == |ks| && 0.0 <= Pick(rows[i], m) <= 1.0
      ensures Pick(rows[i], m) == 1.0 <==> Perfect(scored[i], ks, m)
    {
      QuestionRatios(scored[i], ks, d, m);
    }
    hide ScoresOf, Mean, Perfect, Rows, Scored, Pick, MeanOf;
    MeanOfIsRatio(rows, |ks|, m);
  }

  function ValueOf(r: Report, m: Metric): real
    requires Has(|r.perK|, m)
  {
    match m
    case Rr => r.mrr
    case Ap => r.map_
    case Full => r.fullRecallRate
    case RecallAt(j) => r.perK[j].recall
    case PrecisionAt(j) => r.perK[j].precision
    case NdcgAt(j) => r.perK[j].ndcg
  }

  // A reported number times the number of questions it is a mean over.
  function Total(questions: seq<Question>, ks: seq<nat>, d: nat -> real, m: Metric): real
    requires Cutoffs(ks) && Has(|ks|, m)
  {
    if Scored(questions) == [] then 0.0
    else
      Widths(questions, ks, d);
      Summed(ValueOf(ReportFor(questions, ks, d), m), |Scored(questions)|)
  }

  function NumberOf(q: Question, ks: seq<nat>, d: nat -> real, m: Metric): real
    requires Cutoffs(ks) && Has(|ks|, m) && q.gold != {}
  {
    match m
    case Rr => ReciprocalRank(q.sessions, q.gold)
    case Ap => AveragePrecision(q.sessions, q.gold)
    case Full => if forall s :: s in q.gold ==> s in q.sessions then 1.0 else 0.0
    case RecallAt(j) => Recall(q.sessions, q.gold, ks[j])
    case PrecisionAt(j) => Precision(q.sessions, q.gold, ks[j])
    case NdcgAt(j) => Ndcg(q.sessions, q.gold, ks[j], d)
  }

  // A question without gold changes nothing; one with gold counts as one more and adds its own number to each total.
  lemma AddQuestion(questions: seq<Question>, q: Question, ks: seq<nat>, d: nat -> real, m: Metric)
    requires Cutoffs(ks) && Has(|ks|, m)
    ensures Scored([]) == [] && Scored(questions + [q]) == Scored(questions) + if q.gold == {} then [] else [q]
    ensures Total(questions + [q], ks, d, m) ==
            Total(questions, ks, d, m) + if q.gold == {} then 0.0 else NumberOf(q, ks, d, m)
  {
    ScoredMore(questions, q);
    if q.gold == {} {
      SameTotal(questions + [q], questions, ks, d, m);
    } else {
      TotalIs(questions, ks, d, m);
      TotalIs(questions + [q], ks, d, m);
      ValuesMore(questions, q, ks, d, m);
      hide *;
      SumUp(Values(questions, ks, d, m), NumberOf(q, ks, d, m));
    }
  }

  lemma ScoredMore(questions: seq<Question>, q: Question)
    ensures Scored(questions + [q]) == Scored(questions) + if q.gold == {} then [] else [q]
  {
    assert (questions + [q])[..|questions|] == questions;
  }

  lemma SameTotal(a: seq<Question>, b: seq<Question>, ks: seq<nat>, d: nat -> real, m: Metric)
    requires Cutoffs(ks) && Has(|ks|, m) && Scored(a) == Scored(b)
    ensures Total(a, ks, d, m) == Total(b, ks, d, m)
  {
    assert Rows(a, ks, d) == Rows(b, ks, d) by { hide ScoresOf, Scored; }
    hide Rows, Scored, ValueOf, ReportOf;
  }

  function Values(questions: seq<Question>, ks: seq<nat>, d: nat -> real, m: Metric): (r: seq<real>)
    requires Cutoffs(ks) && Has(|ks|, m)
    ensures |r| == |Scored(questions)|
  {
    Widths(questions, ks, d);
    var rows := Rows(questions, ks, d);
    seq(|rows|, i requires 0 <= i < |rows| => Pick(rows[i], m))
  }

  lemma TotalIs(questions: seq<Question>, ks: seq<nat>, d: nat -> real, m: Metric)
    requires Cutoffs(ks) && Has(|ks|, m)
    ensures Total(questions, ks, d, m) == Sum(Values(questions, ks, d, m))
  {
    hide Mean, Sum, Summed, ValueOf, ReportFor, Scored, Rows, Pick;
    if Scored(questions) == [] {
      assert Values(questions, ks, d, m) == [];
      NoSum();
    } else {
      ValueIsMean(questions, ks, d, m);
      TimesMean(Values(questions, ks, d, m));
    }
  }

  lemma ValueIsMean(questions: seq<Question>, ks: seq<nat>, d: nat -> real, m: Metric)
    requires Cutoffs(ks) && Has(|ks|, m) && Scored(questions) != []
    ensures |ReportFor(questions, ks, d).perK| == |ks|
    ensures ValueOf(ReportFor(questions, ks, d), m) == Mean(Values(questions, ks, d, m))
  {
    Widths(questions, ks, d);
    hide Rows, Scored, Mean, Pick;
    var rows := Rows(questions, ks, d);
    assert Values(questions, ks, d, m) == seq(|rows|, i requires 0 <= i < |rows| => Pick(rows[i], m));
  }

  lemma ValuesMore(questions: seq<Question>, q: Question, ks: seq<nat>, d: nat -> real, m: Metric)
    requires Cutoffs(ks) && Has(|ks|, m) && q.gold != {}
    ensures Values(questions + [q], ks, d, m) == Values(questions, ks, d, m) + [NumberOf(q, ks, d, m)]
  {
    ScoredMore(questions, q);
    Widths(questions, ks, d);
    Widths(questions + [q], ks, d);
    PickIs(q, ks, d, m);
    hide Scored, ScoresOf, Pick, NumberOf;
    assert Rows(questions + [q], ks, d) == Rows(questions, ks, d) + [ScoresOf(q.sessions, q.gold, ks, d)];
  }

  lemma PickIs(q: Question, ks: seq<nat>, d: nat -> real, m: Metric)
    requires Cutoffs(ks) && Has(|ks|, m) && q.gold != {}
    ensures |ScoresOf(q.sessions, q.gold, ks, d).perK| == |ks|
    ensures Pick(ScoresOf(q.sessions, q.gold, ks, d), m) == NumberOf(q, ks, d, m)
  {
    AllFound(q.sessions, q.gold);
    hide ReciprocalRank, AveragePrecision, Recall, Precision, Ndcg, Found;
  }
}
