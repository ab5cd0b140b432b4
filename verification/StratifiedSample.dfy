// The round-robin sample over categories: memory/benchmarks/run.py:755-782. An item is its position in the
// list, so items are distinct; None is an item without a category.
module StratifiedSample {
  import opened Prelude

  // Positions of a category, in order.
  function Positions(cats: seq<Option<int>>, c: int): seq<int>
  {
    if cats == [] then []
    else Positions(cats[..|cats| - 1], c) + if cats[|cats| - 1] == Some(c) then [|cats| - 1] else []
  }

  lemma {:induction false} PositionsAre(cats: seq<Option<int>>, c: int)
    ensures forall p :: p in Positions(cats, c) <==> 0 <= p < |cats| && cats[p] == Some(c)
    ensures Increasing(Positions(cats, c))
  {
    if cats != [] {
      var k := |cats| - 1;
      PositionsAre(cats[..k], c);
      var before := Positions(cats[..k], c);
      forall i | 0 <= i < |before|
        ensures before[i] < k
      {
        assert before[i] in before;
      }
      assert Positions(cats, c) == before + if cats[k] == Some(c) then [k] else [];
    }
  }

  function Categorised(cats: seq<Option<int>>): set<int> { set p | 0 <= p < |cats| && cats[p].Some? }

  predicate Increasing(ps: seq<int>) { forall i, j :: 0 <= i < j < |ps| ==> ps[i] < ps[j] }

  predicate NoRepeat(ps: seq<int>) { forall i, j :: 0 <= i < j < |ps| ==> ps[i] != ps[j] }

  function Min(a: int, b: int): int { if a <= b then a else b }

  function Max(a: int, b: int): int { if a <= b then b else a }

  // k items of each category and one more of those below the cut, as far as there are any.
  function Quota(cats: seq<Option<int>>, c: int, k: nat, cut: int): (r: nat)
    ensures r <= |Positions(cats, c)|
  {
    Min(k + if c < cut then 1 else 0, |Positions(cats, c)|)
  }

  // The chosen positions of each category are its first ones, as many as its quota.
  ghost predicate Rounds(cats: seq<Option<int>>, chosen: seq<int>, k: nat, cut: int)
  {
    forall p :: p in chosen <==> Chosen(cats, p, k, cut)
  }

  predicate Chosen(cats: seq<Option<int>>, p: int, k: nat, cut: int)
  {
    0 <= p < |cats| && cats[p].Some? && p in Positions(cats, cats[p].value)[..Quota(cats, cats[p].value, k, cut)]
  }

  ghost predicate Fair(cats: seq<Option<int>>, chosen: seq<int>) { exists k, cut :: Rounds(cats, chosen, k, cut) }

  ghost function Members(ps: seq<int>): set<int> { set p | p in ps }

  lemma {:induction false} CountNoRepeat(ps: seq<int>)
    requires NoRepeat(ps)
    ensures |Members(ps)| == |ps|
  {
    if ps == [] {
      assert Members(ps) == {};
    } else {
      var k := |ps| - 1;
      CountNoRepeat(ps[..k]);
      assert ps == ps[..k] + [ps[k]];
      assert Members(ps) == Members(ps[..k]) + {ps[k]};
      assert ps[k] !in ps[..k];
    }
  }

  // Strictly increasing lists with the same members are the same list.
  lemma {:induction false} SameIncreasing(a: seq<int>, b: seq<int>)
    requires Increasing(a) && Increasing(b) && Members(a) == Members(b)
    ensures a == b
  {
    CountNoRepeat(a);
    CountNoRepeat(b);
    if a != [] {
      LastGreatest(a);
      LastGreatest(b);
      var k := |a| - 1;
      assert a[k] in Members(b) && b[k] in Members(a);
      assert Members(a[..k]) == Members(a) - {a[k]} == Members(b[..k]);
      hide Members;
      SameIncreasing(a[..k], b[..k]);
      assert a == a[..k] + [a[k]] && b == b[..k] + [b[k]];
    }
  }

  lemma LastGreatest(a: seq<int>)
    requires Increasing(a) && a != []
    ensures forall p :: p in Members(a) ==> p <= a[|a| - 1]
    ensures Members(a[..|a| - 1]) == Members(a) - {a[|a| - 1]}
  {
    var k := |a| - 1;
    assert a == a[..k] + [a[k]];
    assert forall i :: 0 <= i < k ==> a[..k][i] < a[k];
  }

  // The contract of the sample below leaves exactly one answer.
  lemma SampleUnique(cats: seq<Option<int>>, a: seq<int>, b: seq<int>)
    requires Increasing(a) && Increasing(b) && |a| == |b| && Fair(cats, a) && Fair(cats, b)
    ensures a == b
  {
    var k, cut :| Rounds(cats, a, k, cut);
    var l, mark :| Rounds(cats, b, l, mark);
    if k < l || (k == l && cut <= mark) {
      Includes(cats, a, k, cut, b, l, mark);
    } else {
      Includes(cats, b, l, mark, a, k, cut);
    }
    SameIncreasing(a, b);
  }

  // Later in the round robin everything chosen before is still chosen; with equal lengths nothing was added.
  lemma Includes(cats: seq<Option<int>>, a: seq<int>, k: nat, cut: int, b: seq<int>, l: nat, mark: int)
    requires Rounds(cats, a, k, cut) && Rounds(cats, b, l, mark) && (k < l || (k == l && cut <= mark))
    requires Increasing(a) && Increasing(b) && |a| == |b|
    ensures Members(a) == Members(b)
  {
    forall p | p in a
      ensures p in b
    {
      StillChosen(cats, p, k, cut, l, mark);
    }
    CountNoRepeat(a);
    CountNoRepeat(b);
    SameSize(Members(a), Members(b));
  }

  lemma StillChosen(cats: seq<Option<int>>, p: int, k: nat, cut: int, l: nat, mark: int)
    requires Chosen(cats, p, k, cut) && (k < l || (k == l && cut <= mark))
    ensures Chosen(cats, p, l, mark)
  {
    var c := cats[p].value;
    var first := Positions(cats, c)[..Quota(cats, c, k, cut)];
    assert first == Positions(cats, c)[..Quota(cats, c, l, mark)][..|first|];
  }

  lemma SameSize(s: set<int>, t: set<int>)
    requires s <= t && |s| == |t|
    ensures s == t
  {
    assert t == s + (t - s);
    assert |t| == |s| + |t - s|;
  }

  // How many positions of a category were chosen.
  function Count(cats: seq<Option<int>>, chosen: seq<int>, c: int): nat
  {
    |set p | p in chosen && 0 <= p < |cats| && cats[p] == Some(c)|
  }

  // Each category gets its quota, so two categories differ by at most one unless the smaller is used up, and the
  // lower one has no less.
  lemma Fairness(cats: seq<Option<int>>, chosen: seq<int>, a: int, b: int)
    requires Fair(cats, chosen)
    ensures Count(cats, chosen, a) <= Count(cats, chosen, b) + 1 || Count(cats, chosen, b) == |Positions(cats, b)|
    ensures a < b ==> Count(cats, chosen, b) <= Count(cats, chosen, a) || Count(cats, chosen, a) == |Positions(cats, a)|
  {
    var k, cut :| Rounds(cats, chosen, k, cut);
    CountIsQuota(cats, chosen, a, k, cut);
    CountIsQuota(cats, chosen, b, k, cut);
  }

  // Of every category the first items are chosen: with an item all earlier ones of its category.
  lemma FirstItems(cats: seq<Option<int>>, chosen: seq<int>, p: int, q: int)
    requires Fair(cats, chosen) && p in chosen && 0 <= q < p
    ensures p < |cats| && cats[p].Some? && (cats[q] == cats[p] ==> q in chosen)
  {
    var k, cut :| Rounds(cats, chosen, k, cut);
    assert Chosen(cats, p, k, cut);
    if cats[q] == cats[p] {
      var c := cats[p].value;
      PositionsAre(cats, c);
      hide Positions, Quota;
      var all, n := Positions(cats, c), Quota(cats, c, k, cut);
      var i :| 0 <= i < n && all[i] == p;
      assert q in all;
      var j :| 0 <= j < |all| && all[j] == q;
      assert j < i;
      assert all[..n][j] == q;
      assert Chosen(cats, q, k, cut);
    }
  }

  lemma CountIsQuota(cats: seq<Option<int>>, chosen: seq<int>, c: int, k: nat, cut: int)
    requires Rounds(cats, chosen, k, cut)
    ensures Count(cats, chosen, c) == Quota(cats, c, k, cut)
  {
    var first := Positions(cats, c)[..Quota(cats, c, k, cut)];
    PositionsAre(cats, c);
    CountNoRepeat(first);
    forall p
      ensures p in chosen && 0 <= p < |cats| && cats[p] == Some(c) <==> p in first
    {
      if p in first {
        assert p in Positions(cats, c);
        assert Chosen(cats, p, k, cut);
      }
      assert p in chosen <==> Chosen(cats, p, k, cut);
    }
    assert (set p | p in chosen && 0 <= p < |cats| && cats[p] == Some(c)) == Members(first);
  }

  // ---- The round robin ----

  // Before category `cut` gets its turn in round k: what is chosen, and what is left in each queue.
  ghost predicate At(cats: seq<Option<int>>, queues: map<int, seq<int>>, chosen: seq<int>, k: nat, cut: int)
  {
    && (forall c :: c in queues <==> Positions(cats, c) != [])
    && (forall c :: c in queues ==> queues[c] == Positions(cats, c)[Quota(cats, c, k, cut)..])
    && Rounds(cats, chosen, k, cut) && NoRepeat(chosen)
  }

  // The queues by category, and the categories in the order in which they appear.
  ghost predicate Queued(cats: seq<Option<int>>, queues: map<int, seq<int>>, keys: seq<int>)
  {
    NoRepeat(keys) && forall c :: QueuedAt(cats, queues, keys, c)
  }

  ghost predicate QueuedAt(cats: seq<Option<int>>, queues: map<int, seq<int>>, keys: seq<int>, c: int)
  {
    && (c in queues <==> Positions(cats, c) != [])
    && (c in queues ==> queues[c] == Positions(cats, c))
    && (c in keys <==> c in queues)
  }

  // setdefault(c, []).append(i)
  function Enqueued(queues: map<int, seq<int>>, c: int, i: int): map<int, seq<int>>
  {
    queues[c := (if c in queues then queues[c] else []) + [i]]
  }

  lemma QueuedStep(cats: seq<Option<int>>, i: nat, queues: map<int, seq<int>>, keys: seq<int>)
    requires i < |cats| && Queued(cats[..i], queues, keys)
    ensures cats[i].None? ==> Queued(cats[..i + 1], queues, keys)
    ensures cats[i].Some? ==>
              var c := cats[i].value;
              Queued(cats[..i + 1], Enqueued(queues, c, i), if c in queues then keys else keys + [c])
  {
    var more, order := queues, keys;
    if cats[i].Some? {
      var c := cats[i].value;
      assert QueuedAt(cats[..i], queues, keys, c);
      more, order := Enqueued(queues, c, i), if c in queues then keys else keys + [c];
    }
    var longer := cats[..i + 1];
    assert longer[..i] == cats[..i];
    forall c
      ensures QueuedAt(longer, more, order, c)
    {
      assert QueuedAt(cats[..i], queues, keys, c);
    }
  }

  lemma QueuedFacts(cats: seq<Option<int>>, queues: map<int, seq<int>>, keys: seq<int>)
    requires Queued(cats, queues, keys)
    ensures NoRepeat(keys) && (forall c :: c in keys <==> c in queues)
    ensures forall c :: c in queues <==> Positions(cats, c) != []
    ensures forall c :: c in queues ==> queues[c] == Positions(cats, c)
  {
    hide Positions;
    forall c
      ensures c in keys <==> c in queues
      ensures c in queues <==> Positions(cats, c) != []
      ensures c in queues ==> queues[c] == Positions(cats, c)
    {
      assert QueuedAt(cats, queues, keys, c);
    }
  }

  lemma NothingQueued()
    ensures Queued([], map[], [])
  {
  }

  method GroupByCategory(cats: seq<Option<int>>) returns (queues: map<int, seq<int>>, keys: seq<int>)
    ensures Queued(cats, queues, keys)
  {
    hide Queued;
    queues, keys := map[], [];
    NothingQueued();
    assert cats[..0] == [];
    for i := 0 to |cats|
      invariant Queued(cats[..i], queues, keys)
    {
      QueuedStep(cats, i, queues, keys);
      if cats[i].Some? {
        var c := cats[i].value;
        if c !in queues {
          keys := keys + [c];
        }
        queues := Enqueued(queues, c, i);
      }
    }
    assert cats[..|cats|] == cats;
  }

  // Category c takes its turn; `next` is where the cut stands afterwards.
  lemma TakeTurn(cats: seq<Option<int>>, queues: map<int, seq<int>>, chosen: seq<int>, k: nat, cut: int, c: int,
                 next: int)
    requires At(cats, queues, chosen, k, cut) && c in queues && cut <= c < next
    requires forall x :: x in queues ==> (x < next <==> x < cut || x == c)
    ensures if queues[c] == [] then At(cats, queues, chosen, k, next)
            else At(cats, queues[c := queues[c][1..]], chosen + [queues[c][0]], k, next)
  {
    forall x | x in queues && x != c
      ensures Quota(cats, x, k, next) == Quota(cats, x, k, cut)
    {
    }
    var all, q := Positions(cats, c), Quota(cats, c, k, cut);
    hide Positions, Rounds, NoRepeat;
    if queues[c] == [] {
      assert Quota(cats, c, k, next) == q;
      SameTurn(cats, queues, chosen, k, cut, next);
    } else {
      var p := queues[c][0];
      assert p == all[q] && Quota(cats, c, k, next) == q + 1;
      assert queues[c][1..] == all[q + 1..];
      assert all[..q + 1] == all[..q] + [p];
      OneMoreChosen(cats, queues, chosen, k, cut, c, next, p);
    }
  }

  lemma SameTurn(cats: seq<Option<int>>, queues: map<int, seq<int>>, chosen: seq<int>, k: nat, cut: int, next: int)
    requires At(cats, queues, chosen, k, cut)
    requires forall x :: x in queues ==> Quota(cats, x, k, next) == Quota(cats, x, k, cut)
    ensures At(cats, queues, chosen, k, next)
  {
    forall p
      ensures p in chosen <==> Chosen(cats, p, k, next)
    {
      assert p in chosen <==> Chosen(cats, p, k, cut);
      if 0 <= p < |cats| && cats[p].Some? {
        PositionsAre(cats, cats[p].value);
        assert p in Positions(cats, cats[p].value);
        assert cats[p].value in queues;
      }
    }
  }

  lemma OneMoreChosen(cats: seq<Option<int>>, queues: map<int, seq<int>>, chosen: seq<int>, k: nat, cut: int, c: int,
                      next: int, p: int)
    requires At(cats, queues, chosen, k, cut) && c in queues
    requires forall x :: x in queues && x != c ==> Quota(cats, x, k, next) == Quota(cats, x, k, cut)
    requires Quota(cats, c, k, cut) < |Positions(cats, c)| && p == Positions(cats, c)[Quota(cats, c, k, cut)]
    requires Positions(cats, c)[..Quota(cats, c, k, next)] == Positions(cats, c)[..Quota(cats, c, k, cut)] + [p]
    ensures Rounds(cats, chosen + [p], k, next) && NoRepeat(chosen + [p])
  {
    FreshPosition(cats, c, Quota(cats, c, k, cut));
    PositionsAre(cats, c);
    assert p !in chosen by {
      assert !Chosen(cats, p, k, cut);
    }
    hide Positions, Quota, Chosen;
    forall x
      ensures x in chosen + [p] <==> Chosen(cats, x, k, next)
    {
      assert x in chosen <==> Chosen(cats, x, k, cut);
      TurnChosen(cats, queues.Keys, k, cut, c, next, p, x);
    }
  }

  // A turn of category c adds position p and leaves the other categories alone.
  lemma TurnChosen(cats: seq<Option<int>>, keys: set<int>, k: nat, cut: int, c: int, next: int, p: int, x: int)
    requires forall d :: d in keys <==> Positions(cats, d) != []
    requires forall d :: d in keys && d != c ==> Quota(cats, d, k, next) == Quota(cats, d, k, cut)
    requires Positions(cats, c)[..Quota(cats, c, k, next)] == Positions(cats, c)[..Quota(cats, c, k, cut)] + [p]
             && p in Positions(cats, c)
    ensures Chosen(cats, x, k, next) <==> Chosen(cats, x, k, cut) || x == p
  {
    PositionsAre(cats, c);
    hide Positions, Quota;
    if 0 <= x < |cats| && cats[x].Some? {
      var d := cats[x].value;
      PositionsAre(cats, d);
      assert x in Positions(cats, d) && d in keys;
    }
  }

  lemma FreshPosition(cats: seq<Option<int>>, c: int, q: nat)
    requires q < |Positions(cats, c)|
    ensures Positions(cats, c)[q] !in Positions(cats, c)[..q] && Positions(cats, c)[q] in Positions(cats, c)
  {
    PositionsAre(cats, c);
    hide Positions;
  }

  // When every category had its turn the next round begins.
  lemma RoundOver(cats: seq<Option<int>>, queues: map<int, seq<int>>, chosen: seq<int>, k: nat, cut: int, low: int)
    requires At(cats, queues, chosen, k, cut) && forall x :: x in queues ==> low <= x < cut
    ensures At(cats, queues, chosen, k + 1, low)
  {
    forall p
      ensures p in chosen <==> Chosen(cats, p, k + 1, low)
    {
      assert p in chosen <==> Chosen(cats, p, k, cut);
      if 0 <= p < |cats| && cats[p].Some? {
        PositionsAre(cats, cats[p].value);
        assert p in Positions(cats, cats[p].value);
        assert cats[p].value in queues;
      }
    }
  }

  lemma NotMore(cats: seq<Option<int>>, queues: map<int, seq<int>>, chosen: seq<int>, k: nat, cut: int)
    requires At(cats, queues, chosen, k, cut)
    ensures |chosen| <= |Categorised(cats)|
    ensures (forall c :: c in queues ==> queues[c] == []) ==> |chosen| == |Categorised(cats)|
  {
    hide Positions, Quota;
    CountNoRepeat(chosen);
    forall p | p in chosen
      ensures p in Categorised(cats)
    {
      assert Chosen(cats, p, k, cut);
    }
    Smaller(Members(chosen), Categorised(cats));
    if forall c :: c in queues ==> queues[c] == [] {
      forall p | p in Categorised(cats)
        ensures p in chosen
      {
        ChosenWhenEmpty(cats, queues, chosen, k, cut, p);
      }
      assert Members(chosen) == Categorised(cats);
    }
  }

  lemma ChosenWhenEmpty(cats: seq<Option<int>>, queues: map<int, seq<int>>, chosen: seq<int>, k: nat, cut: int, p: int)
    requires At(cats, queues, chosen, k, cut) && (forall c :: c in queues ==> queues[c] == []) && p in Categorised(cats)
    ensures p in chosen
  {
    hide Positions, Quota;
    var c := cats[p].value;
    var all := Positions(cats, c);
    PositionsAre(cats, c);
    assert p in all && c in queues;
    assert all[Quota(cats, c, k, cut)..] == [];
    assert all[..Quota(cats, c, k, cut)] == all;
    assert Chosen(cats, p, k, cut);
  }

  lemma Smaller(s: set<int>, t: set<int>)
    requires s <= t
    ensures |s| <= |t|
  {
    assert t == s + (t - s);
  }

  function InsertSorted(ps: seq<int>, p: int): (r: seq<int>)
  {
    if ps == [] || ps[|ps| - 1] <= p then ps + [p] else InsertSorted(ps[..|ps| - 1], p) + [ps[|ps| - 1]]
  }

  function Sorted(ps: seq<int>): seq<int>
  {
    if ps == [] then [] else InsertSorted(Sorted(ps[..|ps| - 1]), ps[|ps| - 1])
  }

  lemma {:induction false} InsertMembers(ps: seq<int>, p: int)
    ensures Members(InsertSorted(ps, p)) == Members(ps) + {p} && |InsertSorted(ps, p)| == |ps| + 1
  {
    if ps != [] && ps[|ps| - 1] > p {
      var k := |ps| - 1;
      InsertMembers(ps[..k], p);
      assert ps == ps[..k] + [ps[k]];
      MembersAdd(ps[..k], ps[k]);
      MembersAdd(InsertSorted(ps[..k], p), ps[k]);
    } else {
      MembersAdd(ps, p);
    }
  }

  lemma MembersAdd(ps: seq<int>, p: int)
    ensures Members(ps + [p]) == Members(ps) + {p}
  {
  }

  lemma {:induction false} InsertIncreasing(ps: seq<int>, p: int)
    requires Increasing(ps) && p !in ps
    ensures Increasing(InsertSorted(ps, p))
  {
    if ps != [] {
      LastGreatest(ps);
      var k := |ps| - 1;
      if ps[k] > p {
        InsertIncreasing(ps[..k], p);
        InsertMembers(ps[..k], p);
        GreaterLast(InsertSorted(ps[..k], p), ps[k]);
      } else {
        assert ps[k] in ps;
        GreaterLast(ps, p);
      }
    }
  }

  lemma GreaterLast(ps: seq<int>, p: int)
    requires Increasing(ps) && forall x :: x in Members(ps) ==> x < p
    ensures Increasing(ps + [p])
  {
    assert forall i :: 0 <= i < |ps| ==> ps[i] in Members(ps);
  }

  lemma {:induction false} SortIncreasing(ps: seq<int>)
    requires NoRepeat(ps)
    ensures Increasing(Sorted(ps)) && Members(Sorted(ps)) == Members(ps) && |Sorted(ps)| == |ps|
  {
    if ps != [] {
      var k := |ps| - 1;
      SortIncreasing(ps[..k]);
      assert ps == ps[..k] + [ps[k]];
      assert ps[k] !in Members(ps[..k]);
      assert forall p :: p in Sorted(ps[..k]) ==> p in Members(ps[..k]);
      InsertMembers(Sorted(ps[..k]), ps[k]);
      InsertIncreasing(Sorted(ps[..k]), ps[k]);
    }
  }

  // One round: each category in order gives up its first item, until there are enough.
  method Round(cats: seq<Option<int>>, keys: seq<int>, start: map<int, seq<int>>, chosen: seq<int>, n: int,
               ghost k: nat)
    returns (queues: map<int, seq<int>>, selected: seq<int>, pickedAny: bool, ghost j: nat)
    requires At(cats, start, chosen, k, CutAt(keys, 0))
    requires Increasing(keys) && (forall c :: c in keys <==> c in start) && |chosen| < n
    ensures j <= |keys| && At(cats, queues, selected, k, CutAt(keys, j))
    ensures (forall c :: c in keys <==> c in queues) && |chosen| <= |selected| <= n
    ensures pickedAny <==> |chosen| < |selected|
    ensures pickedAny ==> keys != [] && (j == |keys| || |selected| == n)
    ensures !pickedAny ==> selected == chosen && queues == start && forall c :: c in queues ==> queues[c] == []
  {
    hide At, Increasing;
    queues, selected, pickedAny, j := start, chosen, false, 0;
    for i := 0 to |keys|
      invariant j == i && At(cats, queues, selected, k, CutAt(keys, i))
      invariant forall c :: c in keys <==> c in queues
      invariant |chosen| <= |selected| <= n && (pickedAny <==> |chosen| < |selected|) && (pickedAny ==> i > 0)
      invariant !pickedAny ==> selected == chosen && queues == start
      invariant !pickedAny ==> forall l :: 0 <= l < i ==> keys[l] in queues && queues[keys[l]] == []
    {
      if |selected| >= n {
        break;
      }
      var c := keys[i];
      CutMoves(keys, i);
      TakeTurn(cats, queues, selected, k, CutAt(keys, i), c, CutAt(keys, i + 1));
      if queues[c] != [] {
        selected := selected + [queues[c][0]];
        queues := queues[c := queues[c][1..]];
        pickedAny := true;
      }
      j := i + 1;
    }
  }

  method Sample(cats: seq<Option<int>>, n: int) returns (sample: seq<int>)
    ensures Increasing(sample) && Fair(cats, sample)
    ensures |sample| == Min(Max(n, 0), |Categorised(cats)|)
  {
    hide At, Fair, Increasing, Sorted, Categorised, NoRepeat, Members, Positions, Queued;
    var queues, categories := GroupByCategory(cats);
    QueuedFacts(cats, queues, categories);
    SortIncreasing(categories);
    var keys := Sorted(categories);
    SortedMembers(categories, keys);
    var selected: seq<int> := [];
    ghost var k: nat, cut := 0, CutAt(keys, 0);
    KeysBounded(keys);
    NothingChosen(cats, queues, cut);
    while |selected| < n
      invariant At(cats, queues, selected, k, cut) && (forall c :: c in keys <==> c in queues)
      invariant cut == CutAt(keys, 0) || |selected| >= n
      invariant |selected| <= Max(n, 0)
      decreases n - |selected|
    {
      var pickedAny;
      ghost var j;
      queues, selected, pickedAny, j := Round(cats, keys, queues, selected, n, k);
      if !pickedAny {
        break;
      }
      cut := CutAt(keys, j);
      if j == |keys| {
        RoundOver(cats, queues, selected, k, cut, CutAt(keys, 0));
        k, cut := k + 1, CutAt(keys, 0);
      }
    }
    NotMore(cats, queues, selected, k, cut);
    SortedFair(cats, queues, selected, k, cut);
    sample := Sorted(selected);
  }

  lemma SortedMembers(a: seq<int>, b: seq<int>)
    requires Members(a) == Members(b)
    ensures forall c :: c in a <==> c in b
  {
    assert forall c :: c in a <==> c in Members(a);
  }

  // The cut before the j-th category's turn.
  ghost function CutAt(keys: seq<int>, j: nat): int
  {
    if keys == [] then 0 else if j < |keys| then keys[j] else keys[|keys| - 1] + 1
  }

  lemma KeysBounded(keys: seq<int>)
    requires Increasing(keys)
    ensures forall x :: x in keys ==> CutAt(keys, 0) <= x < CutAt(keys, |keys|)
  {
  }

  lemma CutMoves(keys: seq<int>, j: nat)
    requires Increasing(keys) && j < |keys|
    ensures CutAt(keys, j) == keys[j] < CutAt(keys, j + 1)
    ensures forall x :: x in keys ==> (x < CutAt(keys, j + 1) <==> x < keys[j] || x == keys[j])
  {
  }

  lemma NothingChosen(cats: seq<Option<int>>, queues: map<int, seq<int>>, cut: int)
    requires forall c :: c in queues <==> Positions(cats, c) != []
    requires forall c :: c in queues ==> queues[c] == Positions(cats, c) && cut <= c
    ensures At(cats, queues, [], 0, cut)
  {
    forall p
      ensures !Chosen(cats, p, 0, cut)
    {
      if 0 <= p < |cats| && cats[p].Some? {
        PositionsAre(cats, cats[p].value);
        assert p in Positions(cats, cats[p].value);
        assert cats[p].value in queues;
      }
    }
  }

  lemma SortedFair(cats: seq<Option<int>>, queues: map<int, seq<int>>, chosen: seq<int>, k: nat, cut: int)
    requires At(cats, queues, chosen, k, cut)
    ensures var s := Sorted(chosen);
            Increasing(s) && Fair(cats, s) && |s| == |chosen|
  {
    SortIncreasing(chosen);
    var s := Sorted(chosen);
    forall p
      ensures p in s <==> Chosen(cats, p, k, cut)
    {
      assert p in s ==> p in Members(s);
      assert p in chosen ==> p in Members(chosen);
    }
    assert Rounds(cats, s, k, cut);
  }
}
