// Deduplicating and ordering a session's messages: memory/src/everos/service/_boundary.py:442-450.
module MessageOrder {

  datatype Role = User | Assistant | Tool

  datatype Message = Message(id: string, ts: int, role: Role, hasToolCalls: bool, hasToolCallId: bool, text: string)

  // Order of strings, by the first difference.
  predicate LexLe(a: string, b: string)
  {
    a == "" || (b != "" && (a[0] < b[0] || (a[0] == b[0] && LexLe(a[1..], b[1..]))))
  }

  lemma {:induction false} LexTotal(a: string, b: string)
    ensures LexLe(a, b) || LexLe(b, a)
    ensures LexLe(a, b) && LexLe(b, a) ==> a == b
  {
    if a != "" && b != "" {
      LexTotal(a[1..], b[1..]);
      assert a == [a[0]] + a[1..] && b == [b[0]] + b[1..];
    }
  }

  lemma {:induction false} LexTransitive(a: string, b: string, c: string)
    requires LexLe(a, b) && LexLe(b, c)
    ensures LexLe(a, c)
  {
    if a != "" && b != "" && c != "" && a[0] == b[0] == c[0] {
      LexTransitive(a[1..], b[1..], c[1..]);
    }
  }

  // The first difference decides, and a beginning comes before the whole.
  lemma {:induction false} LexExact(a: string, b: string)
    ensures LexLe(a, b) <==> a <= b || exists k :: 0 <= k < |a| && k < |b| && a[..k] == b[..k] && a[k] < b[k]
  {
    if a != "" && b != "" && a[0] == b[0] {
      LexExact(a[1..], b[1..]);
      assert a <= b <==> a[1..] <= b[1..] by {
        assert a == [a[0]] + a[1..] && b == [b[0]] + b[1..];
      }
      if k :| 0 <= k < |a[1..]| && k < |b[1..]| && a[1..][..k] == b[1..][..k] && a[1..][k] < b[1..][k] {
        assert a[..k + 1] == [a[0]] + a[1..][..k] && b[..k + 1] == [b[0]] + b[1..][..k];
        assert a[k + 1] < b[k + 1];
      }
      if k :| 0 <= k < |a| && k < |b| && a[..k] == b[..k] && a[k] < b[k] {
        assert k > 0;
        assert a[1..][..k - 1] == a[..k][1..] && b[1..][..k - 1] == b[..k][1..];
        assert a[1..][k - 1] < b[1..][k - 1];
      }
    } else if a != "" && b != "" {
      assert a[..0] == b[..0];
    }
  }

  // The sort key is (timestamp, message id).
  predicate Before(m: Message, n: Message)
  {
    m.ts < n.ts || (m.ts == n.ts && m.id != n.id && LexLe(m.id, n.id))
  }

  lemma BeforeTotal(m: Message, n: Message)
    ensures m.id != n.id ==> Before(m, n) || Before(n, m)
    ensures !(Before(m, n) && Before(n, m))
  {
    LexTotal(m.id, n.id);
  }

  lemma BeforeTransitive(a: Message, b: Message, c: Message)
    ensures Before(a, b) && Before(b, c) ==> Before(a, c)
  {
    if Before(a, b) && Before(b, c) && a.ts == b.ts == c.ts {
      LexTransitive(a.id, b.id, c.id);
      LexTotal(a.id, b.id);
    }
  }

  ghost predicate Sorted(s: seq<Message>) { forall i, j :: 0 <= i < j < |s| ==> Before(s[i], s[j]) }

  ghost predicate UniqueIds(s: seq<Message>) { forall i, j :: 0 <= i < j < |s| ==> s[i].id != s[j].id }

  function Ids(s: seq<Message>): (r: seq<string>)
    ensures |r| == |s| && forall k :: 0 <= k < |s| ==> r[k] == s[k].id
  {
    seq(|s|, k requires 0 <= k < |s| => s[k].id)
  }

  ghost function IdSet(s: seq<Message>): set<string> { set m | m in s :: m.id }

  // Place m in a sorted sequence.
  function Insert(s: seq<Message>, m: Message): seq<Message>
  {
    if s == [] || Before(m, s[0]) then [m] + s else [s[0]] + Insert(s[1..], m)
  }

  lemma {:induction false} InsertKeepsSorted(s: seq<Message>, m: Message)
    requires Sorted(s) && forall k :: 0 <= k < |s| ==> s[k].id != m.id
    ensures Sorted(Insert(s, m))
    ensures forall x :: x in Insert(s, m) <==> x == m || x in s
  {
    if s != [] && !Before(m, s[0]) {
      InsertKeepsSorted(s[1..], m);
      BeforeTotal(m, s[0]);
      assert s == [s[0]] + s[1..];
      forall x | x in Insert(s[1..], m)
        ensures Before(s[0], x)
      {
      }
    } else if s != [] {
      forall x | x in s
        ensures Before(m, x)
      {
        BeforeTransitive(m, s[0], x);
      }
    }
  }
}

module MessageMerge {
  import opened Prelude
  import opened MessageOrder

  type Seen = map<string, Message>

  ghost predicate Keyed(d: Seen) { forall k :: k in d ==> d[k].id == k }

  // {m.message_id: m for m in buffered}: the last copy of an id stays.
  function ByIdLast(buffered: seq<Message>): (d: Seen)
    ensures Keyed(d) && d.Keys == IdSet(buffered)
    ensures forall k :: k in d ==> d[k] in buffered
  {
    if buffered == [] then map[]
    else
      var m := buffered[|buffered| - 1];
      ByIdLast(buffered[..|buffered| - 1])[m.id := m]
  }

  // setdefault for each new message: the first copy of an id stays.
  function WithDefaults(d: Seen, arrived: seq<Message>): (r: Seen)
    requires Keyed(d)
    ensures Keyed(r) && r.Keys == d.Keys + IdSet(arrived)
    ensures forall k :: k in d ==> r[k] == d[k]
    ensures forall k :: k in r && k !in d ==> r[k] in arrived
  {
    if arrived == [] then d
    else
      var m, r := arrived[|arrived| - 1], WithDefaults(d, arrived[..|arrived| - 1]);
      if m.id in r then r else r[m.id := m]
  }

  // s lists exactly the messages of d in key order.
  ghost predicate Lists(s: seq<Message>, d: Seen)
  {
    && Sorted(s)
    && (forall m :: m in s ==> m.id in d && d[m.id] == m)
    && (forall k :: k in d ==> d[k] in s)
  }

  lemma ListsMore(s: seq<Message>, d: Seen, m: Message)
    requires Lists(s, d) && m.id !in d
    ensures Lists(Insert(s, m), d[m.id := m])
  {
    hide Insert;
    forall k | 0 <= k < |s|
      ensures s[k].id != m.id
    {
      assert s[k] in s;
    }
    InsertKeepsSorted(s, m);
  }

  lemma WithoutKey(d: Seen, k: string)
    requires k in d && Keyed(d)
    ensures k !in d - {k} && (d - {k})[k := d[k]] == d && |d - {k}| < |d| && Keyed(d - {k})
  {
    assert (d - {k}).Keys == d.Keys - {k};
  }

  ghost function Listing(d: Seen): (s: seq<Message>)
    requires Keyed(d)
    ensures Lists(s, d)
    decreases |d|
  {
    if d == map[] then []
    else
      var k :| k in d;
      var rest := d - {k};
      WithoutKey(d, k);
      ListsMore(Listing(rest), rest, d[k]);
      Insert(Listing(rest), d[k])
  }

  ghost function Merge(buffered: seq<Message>, arrived: seq<Message>): (s: seq<Message>)
    ensures Lists(s, WithDefaults(ByIdLast(buffered), arrived))
  {
    Listing(WithDefaults(ByIdLast(buffered), arrived))
  }

  // A sorted listing is determined by what it lists.
  lemma {:induction false} ListingUnique(s: seq<Message>, t: seq<Message>, d: Seen)
    requires Lists(s, d) && Lists(t, d)
    ensures s == t
    decreases |s|
  {
    SortedUnique(s, t);
  }

  lemma {:induction false} SortedUnique(s: seq<Message>, t: seq<Message>)
    requires Sorted(s) && Sorted(t) && forall m :: m in s <==> m in t
    ensures s == t
  {
    assert forall k :: 0 <= k < |s| ==> s[k] in t;
    assert forall k :: 0 <= k < |t| ==> t[k] in s;
    if s != [] && t != [] {
      FirstIsLeast(s, t[0]);
      FirstIsLeast(t, s[0]);
      BeforeTotal(s[0], t[0]);
      TailMembers(s);
      TailMembers(t);
      hide Sorted, Before;
      SortedUnique(s[1..], t[1..]);
      assert s == [s[0]] + s[1..] && t == [t[0]] + t[1..];
    }
  }

  lemma FirstIsLeast(s: seq<Message>, m: Message)
    requires Sorted(s) && m in s
    ensures m == s[0] || Before(s[0], m)
  {
  }

  lemma TailMembers(s: seq<Message>)
    requires Sorted(s) && s != []
    ensures Sorted(s[1..]) && forall m :: m in s[1..] <==> m in s && m != s[0]
  {
    assert s == [s[0]] + s[1..];
    forall m | m in s[1..]
      ensures m != s[0]
    {
      BeforeTotal(s[0], m);
    }
  }

  method MergeDedupeSort(buffered: seq<Message>, arrived: seq<Message>) returns (merged: seq<Message>)
    ensures merged == Merge(buffered, arrived)
  {
    var seen: Seen := map[];
    for i := 0 to |buffered|
      invariant seen == ByIdLast(buffered[..i])
    {
      assert buffered[..i + 1][..i] == buffered[..i];
      seen := seen[buffered[i].id := buffered[i]];
    }
    assert buffered[..|buffered|] == buffered;
    for i := 0 to |arrived|
      invariant Keyed(seen) && seen == WithDefaults(ByIdLast(buffered), arrived[..i])
    {
      assert arrived[..i + 1][..i] == arrived[..i];
      if arrived[i].id !in seen {
        seen := seen[arrived[i].id := arrived[i]];
      }
    }
    assert arrived[..|arrived|] == arrived;
    merged := SortedValues(seen);
    ListingUnique(merged, Merge(buffered, arrived), seen);
  }

  // sorted(seen.values(), key=...): the values taken in any order.
  method SortedValues(seen: Seen) returns (s: seq<Message>)
    requires Keyed(seen)
    ensures Lists(s, seen)
  {
    s := [];
    var left := seen.Keys;
    while left != {}
      invariant left <= seen.Keys
      invariant Lists(s, map k | k in seen && k !in left :: seen[k])
    {
      var k :| k in left;
      ghost var done := map k | k in seen && k !in left :: seen[k];
      ListsMore(s, done, seen[k]);
      s, left := Insert(s, seen[k]), left - {k};
      assert done[k := seen[k]] == map k | k in seen && k !in left :: seen[k];
    }
    assert seen == map k | k in seen && k !in left :: seen[k];
  }

  // ---- Algebra of merging ----

  // Messages of d, by id.
  lemma ListedIds(s: seq<Message>, d: Seen)
    requires Lists(s, d) && Keyed(d)
    ensures UniqueIds(s) && IdSet(s) == d.Keys
  {
    forall i, j | 0 <= i < j < |s|
      ensures s[i].id != s[j].id
    {
      assert s[i] in s && s[j] in s && Before(s[i], s[j]);
      BeforeTotal(s[i], s[j]);
    }
    forall k | k in d.Keys
      ensures k in IdSet(s)
    {
      assert d[k] in s && d[k].id == k;
    }
  }

  // Oldest first, ids deciding between equal times, one message per id, exactly the ids of both lists, and the
  // buffered message wherever a buffer without repeated ids has one.
  lemma MergeFacts(buffered: seq<Message>, arrived: seq<Message>)
    ensures var s := Merge(buffered, arrived);
            && Sorted(s) && UniqueIds(s)
            && (forall i, j :: 0 <= i < j < |s| ==>
                  s[i].ts < s[j].ts || (s[i].ts == s[j].ts && s[i].id != s[j].id && LexLe(s[i].id, s[j].id)))
            && IdSet(s) == IdSet(buffered) + IdSet(arrived)
            && (UniqueIds(buffered) ==> forall m :: m in buffered ==> m in s)
            && (forall m :: m in s ==> m in buffered || (m in arrived && m.id !in IdSet(buffered)))
  {
    var d := WithDefaults(ByIdLast(buffered), arrived);
    ListedIds(Merge(buffered, arrived), d);
    if UniqueIds(buffered) {
      ByIdUnique(buffered);
    }
  }

  // m is in the list and no later message has its id.
  predicate LastCopy(ms: seq<Message>, m: Message)
  {
    exists k :: 0 <= k < |ms| && ms[k] == m && forall i :: k < i < |ms| ==> ms[i].id != m.id
  }

  // m is in the list and no earlier message has its id.
  predicate FirstCopy(ms: seq<Message>, m: Message)
  {
    exists k :: 0 <= k < |ms| && ms[k] == m && forall i :: 0 <= i < k ==> ms[i].id != m.id
  }

  // What is merged, message by message: the last copy of every buffered id and, of the ids that are not buffered,
  // the first copy that arrived. With the order this leaves one list.
  lemma MergeMembers(buffered: seq<Message>, arrived: seq<Message>, m: Message)
    ensures m in Merge(buffered, arrived) <==>
            LastCopy(buffered, m) || (m.id !in IdSet(buffered) && FirstCopy(arrived, m))
  {
    hide Listing, LastCopy, FirstCopy;
    var d := ByIdLast(buffered);
    LastCopies(buffered, m);
    FirstCopies(d, arrived, m);
    Listed(Merge(buffered, arrived), WithDefaults(d, arrived), m);
  }

  lemma Listed(s: seq<Message>, d: Seen, m: Message)
    requires Lists(s, d)
    ensures m in s <==> m.id in d && d[m.id] == m
  {
  }

  lemma {:induction false} LastCopies(s: seq<Message>, m: Message)
    ensures m.id in ByIdLast(s) && ByIdLast(s)[m.id] == m <==> LastCopy(s, m)
  {
    if s != [] {
      LastCopies(s[..|s| - 1], m);
      LastStep(s, m);
      hide LastCopy;
    }
  }

  lemma LastStep(s: seq<Message>, m: Message)
    requires s != []
    ensures var n := |s| - 1;
            LastCopy(s, m) <==> s[n] == m || (s[n].id != m.id && LastCopy(s[..n], m))
  {
    var n := |s| - 1;
    if k :| 0 <= k < n && s[..n][k] == m && forall i :: k < i < n ==> s[..n][i].id != m.id {
      assert s[n].id != m.id ==> forall i :: k < i < |s| ==> (if i < n then s[..n][i] else s[n]).id != m.id;
    }
    if k :| 0 <= k < n && s[k] == m && forall i :: k < i < |s| ==> s[i].id != m.id {
      assert s[..n][k] == m;
    }
  }

  lemma {:induction false} FirstCopies(d: Seen, s: seq<Message>, m: Message)
    requires Keyed(d)
    ensures var r := WithDefaults(d, s);
            m.id in r && r[m.id] == m <==> (m.id in d && d[m.id] == m) || (m.id !in d && FirstCopy(s, m))
  {
    if s != [] {
      FirstCopies(d, s[..|s| - 1], m);
      FirstStep(s, m);
      IdsBefore(s, |s| - 1, m.id);
      hide FirstCopy, IdSet;
    }
  }

  lemma FirstStep(s: seq<Message>, m: Message)
    requires s != []
    ensures var n := |s| - 1;
            FirstCopy(s, m) <==> FirstCopy(s[..n], m) || (s[n] == m && forall i :: 0 <= i < n ==> s[i].id != m.id)
  {
    var n := |s| - 1;
    if k :| 0 <= k < n && s[..n][k] == m && forall i :: 0 <= i < k ==> s[..n][i].id != m.id {
      assert s[k] == m && forall i :: 0 <= i < k ==> s[i] == s[..n][i];
    }
    if k :| 0 <= k < n && s[k] == m && forall i :: 0 <= i < k ==> s[i].id != m.id {
      assert s[..n][k] == m;
    }
  }

  lemma IdsBefore(s: seq<Message>, n: nat, id: string)
    requires n < |s|
    ensures id in IdSet(s[..n]) <==> exists i :: 0 <= i < n && s[i].id == id
  {
    if i :| 0 <= i < n && s[i].id == id {
      assert s[..n][i] in s[..n];
    }
  }

  lemma {:induction false} ByIdUnique(s: seq<Message>)
    requires UniqueIds(s)
    ensures forall m :: m in s ==> m.id in ByIdLast(s) && ByIdLast(s)[m.id] == m
  {
    if s != [] {
      var n := |s| - 1;
      ByIdUnique(s[..n]);
      assert s == s[..n] + [s[n]];
    }
  }

  // A listing indexes back to what it lists.
  lemma ByIdOfListing(s: seq<Message>, d: Seen)
    requires Keyed(d) && Lists(s, d)
    ensures ByIdLast(s) == d
  {
    ListedIds(s, d);
    ByIdUnique(s);
    assert ByIdLast(s).Keys == d.Keys;
  }

  lemma {:induction false} DefaultsConcat(d: Seen, a: seq<Message>, b: seq<Message>)
    requires Keyed(d)
    ensures WithDefaults(WithDefaults(d, a), b) == WithDefaults(d, a + b)
  {
    hide Keyed, IdSet;
    if b == [] {
      assert a + b == a;
    } else {
      var n := |b| - 1;
      DefaultsConcat(d, a, b[..n]);
      assert (a + b)[..|a + b| - 1] == a + b[..n];
    }
  }

  // Two arrivals merged one after the other are the same as both at once.
  lemma MergeTwice(buffered: seq<Message>, a: seq<Message>, b: seq<Message>)
    ensures Merge(Merge(buffered, a), b) == Merge(buffered, a + b)
  {
    hide Listing;
    var d := ByIdLast(buffered);
    ByIdOfListing(Merge(buffered, a), WithDefaults(d, a));
    DefaultsConcat(d, a, b);
    ListingUnique(Merge(Merge(buffered, a), b), Merge(buffered, a + b), WithDefaults(d, a + b));
  }

  // The buffer after a series of merges.
  ghost function MergeAll(buffered: seq<Message>, arrivals: seq<seq<Message>>): seq<Message>
    decreases |arrivals|
  {
    if arrivals == [] then buffered else MergeAll(Merge(buffered, arrivals[0]), arrivals[1..])
  }

  // Any number of deferred arrivals, at least one, leaves the buffer one batch of them would leave.
  lemma {:induction false} DeferredIsOneBatch(buffered: seq<Message>, arrivals: seq<seq<Message>>)
    requires arrivals != []
    ensures MergeAll(buffered, arrivals) == Merge(buffered, Flatten(arrivals))
    decreases |arrivals|
  {
    hide Merge;
    var rest := arrivals[1..];
    if rest == [] {
      assert Flatten(arrivals) == arrivals[0] + [] == arrivals[0];
    } else {
      DeferredIsOneBatch(Merge(buffered, arrivals[0]), rest);
      MergeTwice(buffered, arrivals[0], Flatten(rest));
    }
  }

  // Merging the same arrival again changes nothing.
  lemma MergeIdempotent(buffered: seq<Message>, arrived: seq<Message>)
    ensures Merge(Merge(buffered, arrived), arrived) == Merge(buffered, arrived)
  {
    hide Listing;
    var d := WithDefaults(ByIdLast(buffered), arrived);
    MergeTwice(buffered, arrived, arrived);
    DefaultsConcat(ByIdLast(buffered), arrived, arrived);
    DefaultsPresent(d, arrived);
  }

  lemma {:induction false} DefaultsPresent(d: Seen, arrived: seq<Message>)
    requires Keyed(d) && IdSet(arrived) <= d.Keys
    ensures WithDefaults(d, arrived) == d
  {
    if arrived != [] {
      var n := |arrived| - 1;
      assert arrived == arrived[..n] + [arrived[n]];
      assert arrived[n] in arrived && arrived[n].id in IdSet(arrived);
      assert forall m :: m in arrived[..n] ==> m in arrived;
      DefaultsPresent(d, arrived[..n]);
    }
  }

  // The order of arrival matters exactly as far as it decides which copy of an id comes first.
  lemma MergeEqual(buffered: seq<Message>, a: seq<Message>, b: seq<Message>)
    ensures Merge(buffered, a) == Merge(buffered, b)
            <==> WithDefaults(ByIdLast(buffered), a) == WithDefaults(ByIdLast(buffered), b)
  {
    hide Listing;
    ByIdOfListing(Merge(buffered, a), WithDefaults(ByIdLast(buffered), a));
    ByIdOfListing(Merge(buffered, b), WithDefaults(ByIdLast(buffered), b));
  }

  // Same id, same message.
  ghost predicate Consistent(s: seq<Message>) { forall m, n :: m in s && n in s && m.id == n.id ==> m == n }

  // For id-consistent messages neither order nor repetition of the arrivals matters.
  lemma MergeOrderFree(buffered: seq<Message>, a: seq<Message>, b: seq<Message>)
    requires Consistent(a) && (forall m :: m in a <==> m in b)
    ensures Merge(buffered, a) == Merge(buffered, b)
  {
    hide Listing;
    var d := ByIdLast(buffered);
    var da, db := WithDefaults(d, a), WithDefaults(d, b);
    assert IdSet(a) == IdSet(b);
    forall k | k in da
      ensures da[k] == db[k]
    {
      if k !in d {
        assert da[k] in a && db[k] in b && da[k].id == db[k].id;
      }
    }
    MergeEqual(buffered, a, b);
  }
}
