/** Balancing a labelled data set per query. Ranking by score and random sampling are parameters: any
    reordering and any choice of the requested size. */
module Balance {
  import opened Options
  import opened Orders

  /** `index` is the data frame's row index and `query` the value of the grouping columns; `mark` its label,
      None when missing. */
  datatype Row = Row(index: int, query: string, mark: Option<int>)

  datatype Result<+T> = Ok(value: T) | Err

  predicate Positive(r: Row) {
    r.mark == Some(1)
  }

  predicate Negative(r: Row) {
    r.mark == Some(0)
  }

  predicate ByIndex(r: Row, s: Row) {
    r.index < s.index
  }

  ghost predicate UniqueIndex(rows: seq<Row>) {
    forall i, j :: 0 <= i < j < |rows| ==> Apart(rows, i, j)
  }

  ghost predicate Apart(rows: seq<Row>, i: nat, j: nat)
    requires i < j < |rows|
  {
    rows[i].index != rows[j].index
  }

  ghost function Set(rows: seq<Row>): set<Row> {
    set r | r in rows
  }

  lemma {:induction false} SizeOfSet(rows: seq<Row>)
    requires UniqueIndex(rows)
    ensures |Set(rows)| == |rows|
  {
    if rows != [] {
      var init, last := rows[..|rows| - 1], rows[|rows| - 1];
      UniqueInit(rows);
      SizeOfSet(init);
      assert Set(rows) == Set(init) + {last} by {
        assert rows == init + [last];
      }
    }
  }

  lemma UniqueInit(rows: seq<Row>)
    requires UniqueIndex(rows) && rows != []
    ensures UniqueIndex(rows[..|rows| - 1]) && rows[|rows| - 1] !in rows[..|rows| - 1]
  {
    var init, last := rows[..|rows| - 1], rows[|rows| - 1];
    forall i, j | 0 <= i < j < |init| ensures Apart(init, i, j) {
      assert Apart(rows, i, j);
    }
    forall x | x in init ensures x != last {
      var i :| 0 <= i < |init| && init[i] == x;
      assert Apart(rows, i, |rows| - 1);
    }
  }

  function Select(rows: seq<Row>, keep: Row -> bool): (r: seq<Row>)
    ensures forall x :: x in r <==> x in rows && keep(x)
  {
    if rows == [] then []
    else
      var init, last := rows[..|rows| - 1], rows[|rows| - 1];
      assert rows == init + [last];
      if keep(last) then Select(init, keep) + [last] else Select(init, keep)
  }

  lemma {:induction false} SelectUnique(rows: seq<Row>, keep: Row -> bool)
    requires UniqueIndex(rows)
    ensures UniqueIndex(Select(rows, keep))
  {
    if rows != [] {
      var init, last := rows[..|rows| - 1], rows[|rows| - 1];
      UniqueInit(rows);
      SelectUnique(init, keep);
      if keep(last) {
        forall x | x in Select(init, keep) ensures x.index != last.index {
          var i :| 0 <= i < |init| && init[i] == x;
          assert Apart(rows, i, |rows| - 1);
        }
        UniqueSnoc(Select(init, keep), last);
      }
    }
  }

  lemma UniqueSnoc(rows: seq<Row>, r: Row)
    requires UniqueIndex(rows) && forall x :: x in rows ==> x.index != r.index
    ensures UniqueIndex(rows + [r])
  {
    forall i, j | 0 <= i < j < |rows + [r]| ensures Apart(rows + [r], i, j) {
      if j < |rows| {
        assert Apart(rows, i, j);
      }
    }
  }

  lemma UniqueConcat(rows: seq<Row>, a: seq<Row>, b: seq<Row>)
    requires UniqueIndex(rows) && UniqueIndex(a) && UniqueIndex(b)
    requires Set(a) <= Set(rows) && Set(b) <= Set(rows) && Set(a) !! Set(b)
    ensures UniqueIndex(a + b)
  {
    forall i, j | 0 <= i < j < |a + b| ensures Apart(a + b, i, j) {
      if j < |a| {
        assert Apart(a, i, j);
      } else if i >= |a| {
        assert Apart(b, i - |a|, j - |a|);
      } else {
        assert a[i] in Set(a) && b[j - |a|] in Set(b);
        DifferentRows(rows, a[i], b[j - |a|]);
      }
    }
  }

  lemma DifferentRows(rows: seq<Row>, r: Row, s: Row)
    requires UniqueIndex(rows) && r in rows && s in rows && r != s
    ensures r.index != s.index
  {
    var i :| 0 <= i < |rows| && rows[i] == r;
    var j :| 0 <= j < |rows| && rows[j] == s;
    assert if i < j then Apart(rows, i, j) else Apart(rows, j, i);
  }

  /** Sorting rows with unique indexes puts them in index order and keeps exactly these rows. */
  lemma SortByIndex(rows: seq<Row>)
    requires UniqueIndex(rows)
    ensures Ordered(Sort(rows, ByIndex), ByIndex) && UniqueIndex(Sort(rows, ByIndex))
    ensures Set(Sort(rows, ByIndex)) == Set(rows)
  {
    forall i, j | 0 <= i < j < |rows| ensures ComparableAt(rows, i, j, ByIndex) {
      assert Apart(rows, i, j);
    }
    SortOrders(rows, ByIndex);
    var sorted := Sort(rows, ByIndex);
    forall i, j | 0 <= i < j < |sorted| ensures Apart(sorted, i, j) {
      assert At(sorted, i, j, ByIndex);
    }
  }

  // ---------- How many negatives to keep ----------

  function Min(a: int, b: int): int {
    if a < b then a else b
  }

  function Max(a: int, b: int): int {
    if a < b then b else a
  }

  function Quota(positives: nat, negatives: nat, ratio: nat, minNeg: nat): (q: nat)
    ensures q <= negatives
  {
    Min(Max(positives * ratio, minNeg), negatives)
  }

  function HardCount(quota: nat, fraction: real): (n: nat)
    ensures n <= quota
  {
    var f := if fraction < 0.0 then 0.0 else if fraction > 1.0 then 1.0 else fraction;
    assert 0.0 <= quota as real * f <= quota as real by {
      FractionShrinks(quota as real, f);
    }
    (quota as real * f).Floor
  }

  /** The number of negatives to keep: all of them, or else the greater of the two lower bounds. */
  lemma QuotaTells(positives: nat, negatives: nat, ratio: nat, minNeg: nat)
    ensures var q := Quota(positives, negatives, ratio, minNeg);
      if negatives <= positives * ratio || negatives <= minNeg then q == negatives
      else q >= positives * ratio && q >= minNeg && (q == positives * ratio || q == minNeg)
  {
  }

  /** `n` of the quota are hard: none for a fraction of zero or less, all from one on, and in between the
      quota's share rounded down. */
  predicate HardShare(n: nat, quota: nat, fraction: real) {
    && (fraction <= 0.0 ==> n == 0) && (fraction >= 1.0 ==> n == quota)
    && (0.0 < fraction < 1.0 ==> n as real <= quota as real * fraction < n as real + 1.0)
  }

  lemma HardTells(quota: nat, fraction: real)
    ensures HardShare(HardCount(quota, fraction), quota, fraction)
  {
  }

  /** The negatives kept: the first of the ranking, as many as the fraction says, and a sample of the others. */
  ghost predicate IsPicked(kept: set<Row>, negatives: seq<Row>, quota: nat, fraction: real,
                           rank: seq<Row> -> seq<Row>, sample: (seq<Row>, nat) -> seq<Row>)
  {
    exists n: nat :: HardShare(n, quota, fraction) && PickedAt(kept, negatives, quota, rank, sample, n)
  }

  ghost predicate PickedAt(kept: set<Row>, negatives: seq<Row>, quota: nat, rank: seq<Row> -> seq<Row>,
                           sample: (seq<Row>, nat) -> seq<Row>, n: nat)
  {
    n <= |rank(negatives)| && PickedWith(kept, negatives, quota, sample, rank(negatives)[..n])
  }

  ghost predicate PickedWith(
    kept: set<Row>, negatives: seq<Row>, quota: nat, sample: (seq<Row>, nat) -> seq<Row>, hard: seq<Row>)
  {
    exists others :: Set(others) == Set(negatives) - Set(hard) &&
      kept == Set(hard) + if |hard| < quota then Set(sample(others, quota - |hard|)) else {}
  }

  lemma FractionShrinks(q: real, f: real)
    requires q >= 0.0 && 0.0 <= f <= 1.0
    ensures 0.0 <= q * f <= q
  {
  }

  // ---------- Choices left open ----------

  ghost predicate Ranks(rank: seq<Row> -> seq<Row>) {
    forall s :: UniqueIndex(s) ==> Reorders(rank(s), s)
  }

  ghost predicate Reorders(t: seq<Row>, s: seq<Row>) {
    UniqueIndex(t) && Set(t) == Set(s)
  }

  ghost predicate Samples(sample: (seq<Row>, nat) -> seq<Row>) {
    forall s, n: nat :: UniqueIndex(s) && n <= |s| ==> Draws(sample(s, n), s, n)
  }

  ghost predicate Draws(t: seq<Row>, s: seq<Row>, n: nat) {
    UniqueIndex(t) && |t| == n && Set(t) <= Set(s)
  }

  // ---------- One group ----------

  ghost function Positives(rows: set<Row>, query: string): set<Row> {
    set r | r in rows && r.query == query && Positive(r)
  }

  ghost function Negatives(rows: set<Row>, query: string): set<Row> {
    set r | r in rows && r.query == query && Negative(r)
  }

  /** What one query keeps: all positives and exactly the quota of negatives, or nothing at all. */
  ghost predicate Balanced(rows: set<Row>, kept: set<Row>, query: string, ratio: nat, minNeg: nat) {
    var p, n := Positives(rows, query), Negatives(rows, query);
    if p == {} then Positives(kept, query) == Negatives(kept, query) == {}
    else Positives(kept, query) == p && Negatives(kept, query) <= n
         && |Negatives(kept, query)| == Quota(|p|, |n|, ratio, minNeg)
  }

  ghost predicate OneQuery(group: seq<Row>, query: string) {
    forall r :: r in group ==> r.query == query
  }

  function NotIn(rows: seq<Row>): Row -> bool {
    r => r !in rows
  }

  /** The hard negatives and what is left of the negatives without them. */
  lemma HardSplit(negatives: seq<Row>, ranked: seq<Row>, nHard: nat)
    requires UniqueIndex(negatives) && Reorders(ranked, negatives) && nHard <= |negatives|
    ensures nHard <= |ranked|
    ensures var hard, rest := ranked[..nHard], Select(negatives, NotIn(ranked[..nHard]));
      && UniqueIndex(hard) && |Set(hard)| == nHard && |rest| == |negatives| - nHard && UniqueIndex(rest)
      && Set(hard) <= Set(negatives) && Set(rest) == Set(negatives) - Set(hard)
  {
    SizeOfSet(ranked);
    SizeOfSet(negatives);
    var hard := ranked[..nHard];
    PrefixUnique(ranked, nHard);
    SizeOfSet(hard);
    forall r | r in Set(hard) ensures r in Set(negatives) {
      assert r in Set(ranked);
    }
    var rest := Select(negatives, NotIn(hard));
    SelectUnique(negatives, NotIn(hard));
    SizeOfSet(rest);
    assert Set(negatives) == Set(hard) + Set(rest);
  }

  lemma UnionSize(a: seq<Row>, b: seq<Row>, rest: set<Row>)
    requires Set(a) !! rest && Set(b) <= rest
    ensures Set(a + b) == Set(a) + Set(b) && |Set(a + b)| == |Set(a)| + |Set(b)|
  {
    assert Set(a + b) == Set(a) + Set(b);
    assert Set(a) !! Set(b);
  }

  method PickNegatives(negatives: seq<Row>, quota: nat, fraction: real, rank: seq<Row> -> seq<Row>,
                       sample: (seq<Row>, nat) -> seq<Row>)
    returns (kept: seq<Row>)
    requires UniqueIndex(negatives) && quota <= |negatives| && Ranks(rank) && Samples(sample)
    ensures |Set(kept)| == quota && Set(kept) <= Set(negatives) && UniqueIndex(kept)
    ensures IsPicked(Set(kept), negatives, quota, fraction, rank, sample)
  {
    var nHard := HardCount(quota, fraction);
    kept := PickWith(negatives, quota, nHard, rank, sample);
    ShowPicked(Set(kept), negatives, quota, fraction, rank, sample);
  }

  lemma ShowPicked(kept: set<Row>, negatives: seq<Row>, quota: nat, fraction: real,
                   rank: seq<Row> -> seq<Row>, sample: (seq<Row>, nat) -> seq<Row>)
    requires PickedAt(kept, negatives, quota, rank, sample, HardCount(quota, fraction))
    ensures IsPicked(kept, negatives, quota, fraction, rank, sample)
  {
    HardTells(quota, fraction);
  }

  method PickWith(negatives: seq<Row>, quota: nat, nHard: nat, rank: seq<Row> -> seq<Row>,
                  sample: (seq<Row>, nat) -> seq<Row>)
    returns (kept: seq<Row>)
    requires UniqueIndex(negatives) && nHard <= quota <= |negatives| && Ranks(rank) && Samples(sample)
    ensures |Set(kept)| == quota && Set(kept) <= Set(negatives) && UniqueIndex(kept)
    ensures PickedAt(Set(kept), negatives, quota, rank, sample, nHard)
  {
    var ranked := rank(negatives);
    assert Reorders(ranked, negatives);
    HardSplit(negatives, ranked, nHard);
    kept := AddRandom(negatives, ranked[..nHard], Select(negatives, NotIn(ranked[..nHard])), quota, sample);
  }

  /** The hard negatives and a sample of the remaining ones, up to the quota. */
  method AddRandom(negatives: seq<Row>, hard: seq<Row>, remaining: seq<Row>, quota: nat,
                   sample: (seq<Row>, nat) -> seq<Row>)
    returns (kept: seq<Row>)
    requires UniqueIndex(negatives) && UniqueIndex(hard) && UniqueIndex(remaining) && Samples(sample)
    requires Set(hard) <= Set(negatives) && Set(remaining) == Set(negatives) - Set(hard)
    requires |hard| == |Set(hard)| <= quota <= |hard| + |remaining|
    ensures |Set(kept)| == quota && Set(kept) <= Set(negatives) && UniqueIndex(kept)
    ensures PickedWith(Set(kept), negatives, quota, sample, hard)
  {
    var nRandom := quota - |hard|;
    if nRandom > 0 && |remaining| > 0 {
      var random := sample(remaining, Min(nRandom, |remaining|));
      assert Draws(random, remaining, nRandom);
      SizeOfSet(random);
      UnionSize(hard, random, Set(remaining));
      UniqueConcat(negatives, hard, random);
      kept := hard + random;
    } else {
      kept := hard;
    }
  }

  lemma PrefixUnique(rows: seq<Row>, n: nat)
    requires UniqueIndex(rows) && n <= |rows|
    ensures UniqueIndex(rows[..n])
  {
    forall i, j | 0 <= i < j < n ensures Apart(rows[..n], i, j) {
      assert Apart(rows, i, j);
    }
  }

  lemma GroupSets(group: seq<Row>, query: string)
    requires UniqueIndex(group) && OneQuery(group, query)
    ensures var p, n := Select(group, Positive), Select(group, Negative);
      && UniqueIndex(p) && Set(p) == Positives(Set(group), query) && |p| == |Set(p)|
      && Set(n) == Negatives(Set(group), query) && |n| == |Set(n)| && UniqueIndex(p) && UniqueIndex(n)
  {
    SelectUnique(group, Positive);
    SelectUnique(group, Negative);
    SizeOfSet(Select(group, Positive));
    SizeOfSet(Select(group, Negative));
  }

  lemma KeptSets(rows: set<Row>, p: seq<Row>, picked: seq<Row>, kept: seq<Row>, query: string)
    requires Set(p) == Positives(rows, query) && Set(picked) <= Negatives(rows, query)
    requires forall r :: r in kept <==> r in p + picked
    ensures Set(kept) <= rows && Positives(Set(kept), query) == Set(p) && Negatives(Set(kept), query) == Set(picked)
    ensures forall r :: r in kept ==> Positive(r) || Negative(r)
  {
    forall r | r in kept ensures r in rows && (Positive(r) || Negative(r)) && (r in Set(p) || r in Set(picked)) {
      assert r in p + picked;
      assert r in Set(p) || r in Set(picked);
      assert r in Positives(rows, query) || r in Negatives(rows, query);
    }
    assert forall r :: r in Set(p) ==> r in kept;
    assert forall r :: r in Set(picked) ==> r in kept;
  }

  /** What a group with positives keeps of its negatives. */
  ghost predicate GroupPicked(group: seq<Row>, kept: seq<Row>, query: string, ratio: nat, minNeg: nat, fraction: real,
                              rank: seq<Row> -> seq<Row>, sample: (seq<Row>, nat) -> seq<Row>)
  {
    var p, n := Select(group, Positive), Select(group, Negative);
    IsPicked(Negatives(Set(kept), query), n, Quota(|p|, |n|, ratio, minNeg), fraction, rank, sample)
  }

  method BalanceGroup(group: seq<Row>, ghost query: string, ratio: nat, minNeg: nat, fraction: real,
                      rank: seq<Row> -> seq<Row>, sample: (seq<Row>, nat) -> seq<Row>)
    returns (kept: seq<Row>)
    requires UniqueIndex(group) && OneQuery(group, query) && Ranks(rank) && Samples(sample)
    ensures Set(kept) <= Set(group) && Balanced(Set(group), Set(kept), query, ratio, minNeg)
    ensures UniqueIndex(kept) && forall r :: r in kept ==> Positive(r) || Negative(r)
    ensures Select(group, Positive) != [] ==>
      GroupPicked(group, kept, query, ratio, minNeg, fraction, rank, sample)
  {
    GroupSets(group, query);
    var positives := Select(group, Positive);
    var negatives := Select(group, Negative);
    if |positives| == 0 {
      return [];
    }
    var picked := PickNegatives(negatives, Quota(|positives|, |negatives|, ratio, minNeg), fraction, rank, sample);
    kept := InIndexOrder(group, positives, picked, query);
  }

  method InIndexOrder(ghost group: seq<Row>, positives: seq<Row>, picked: seq<Row>, ghost query: string)
    returns (kept: seq<Row>)
    requires UniqueIndex(group) && UniqueIndex(positives) && UniqueIndex(picked)
    requires Set(positives) == Positives(Set(group), query) && Set(picked) <= Negatives(Set(group), query)
    ensures Set(kept) <= Set(group) && UniqueIndex(kept)
    ensures Positives(Set(kept), query) == Set(positives) && Negatives(Set(kept), query) == Set(picked)
    ensures forall r :: r in kept ==> Positive(r) || Negative(r)
  {
    kept := Sort(positives + picked, ByIndex);
    UniqueConcat(group, positives, picked);
    SortByIndex(positives + picked);
    KeptSets(Set(group), positives, picked, kept, query);
  }

  // ---------- The whole data set ----------

  /** The queries, in order of first appearance. */
  function Queries(rows: seq<Row>): (r: seq<string>)
    ensures forall x :: x in rows ==> x.query in r
  {
    if rows == [] then []
    else
      var init, last := rows[..|rows| - 1], rows[|rows| - 1];
      assert rows == init + [last];
      if last.query in Queries(init) then Queries(init) else Queries(init) + [last.query]
  }

  ghost predicate DistinctQueries(queries: seq<string>) {
    forall k :: 0 <= k < |queries| ==> NewQuery(queries, k)
  }

  ghost predicate NewQuery(queries: seq<string>, k: nat)
    requires k < |queries|
  {
    queries[k] !in queries[..k]
  }

  lemma {:induction false} QueriesDistinct(rows: seq<Row>)
    ensures DistinctQueries(Queries(rows))
  {
    if rows != [] {
      var init := rows[..|rows| - 1];
      QueriesDistinct(init);
      var before, after := Queries(init), Queries(rows);
      forall k | 0 <= k < |after| ensures NewQuery(after, k) {
        if k < |before| {
          assert NewQuery(before, k) && after[..k] == before[..k];
        } else {
          assert after[..k] == before;
        }
      }
    }
  }

  predicate Labelled(r: Row) {
    r.mark.None? || Positive(r) || Negative(r)
  }

  /** The rows kept of a data set: in index order, labelled, and balanced for every query. */
  ghost predicate IsBalanced(rows: seq<Row>, kept: seq<Row>, ratio: nat, minNeg: nat) {
    && Ordered(kept, ByIndex) && Set(kept) <= Set(rows)
    && (forall r :: r in kept ==> Positive(r) || Negative(r))
    && (forall query :: Balanced(Set(rows), Set(kept), query, ratio, minNeg))
  }

  function OfQuery(query: string): Row -> bool {
    (r: Row) => r.query == query
  }

  /** The rows kept after some of the queries. */
  ghost predicate Gathered(rows: seq<Row>, kept: seq<Row>, done: seq<string>, ratio: nat, minNeg: nat) {
    && UniqueIndex(kept) && Set(kept) <= Set(rows)
    && (forall r :: r in kept ==> (Positive(r) || Negative(r)) && r.query in done)
    && (forall query :: query in done ==> Balanced(Set(rows), Set(kept), query, ratio, minNeg))
  }

  /** What is kept of the group of one query. */
  ghost predicate KeptOf(rows: seq<Row>, more: seq<Row>, query: string, ratio: nat, minNeg: nat) {
    var group := Select(rows, OfQuery(query));
    && UniqueIndex(more) && Set(more) <= Set(group) && Balanced(Set(group), Set(more), query, ratio, minNeg)
    && forall r :: r in more ==> Positive(r) || Negative(r)
  }

  lemma GatherStep(rows: seq<Row>, kept: seq<Row>, done: seq<string>, ratio: nat, minNeg: nat,
                   query: string, more: seq<Row>)
    requires UniqueIndex(rows) && Gathered(rows, kept, done, ratio, minNeg) && query !in done
    requires KeptOf(rows, more, query, ratio, minNeg)
    ensures Gathered(rows, kept + more, done + [query], ratio, minNeg)
  {
    var group, all := Select(rows, OfQuery(query)), kept + more;
    assert forall r :: r in Set(more) ==> r in Set(group) && r in Set(rows) && r.query == query;
    assert forall r :: r in Set(kept) ==> r in kept && r.query in done;
    assert Set(all) == Set(kept) + Set(more);
    UniqueConcat(rows, kept, more);
    forall r | r in all ensures (Positive(r) || Negative(r)) && r.query in done + [query] {
      assert r in kept || r in more;
      assert r in more ==> r in Set(more);
    }
    forall q | q in done + [query] ensures Balanced(Set(rows), Set(all), q, ratio, minNeg) {
      if q == query {
        assert Positives(Set(group), q) == Positives(Set(rows), q);
        assert Negatives(Set(group), q) == Negatives(Set(rows), q);
        assert Positives(Set(all), q) == Positives(Set(more), q);
        assert Negatives(Set(all), q) == Negatives(Set(more), q);
      } else {
        assert Positives(Set(all), q) == Positives(Set(kept), q);
        assert Negatives(Set(all), q) == Negatives(Set(kept), q);
      }
    }
  }

  lemma GatheredIsBalanced(rows: seq<Row>, kept: seq<Row>, done: seq<string>, ratio: nat, minNeg: nat)
    requires Gathered(rows, kept, done, ratio, minNeg) && forall r :: r in rows ==> r.query in done
    ensures IsBalanced(rows, Sort(kept, ByIndex), ratio, minNeg)
  {
    SortByIndex(kept);
    forall query ensures Balanced(Set(rows), Set(kept), query, ratio, minNeg) {
      if query !in done {
        assert Positives(Set(rows), query) == {} && Positives(Set(kept), query) == {};
        assert Negatives(Set(kept), query) == {};
      }
    }
  }

  method BalanceQuery(rows: seq<Row>, query: string, ratio: nat, minNeg: nat, fraction: real,
                      rank: seq<Row> -> seq<Row>, sample: (seq<Row>, nat) -> seq<Row>)
    returns (more: seq<Row>)
    requires UniqueIndex(rows) && Ranks(rank) && Samples(sample)
    ensures KeptOf(rows, more, query, ratio, minNeg)
  {
    var group := Select(rows, OfQuery(query));
    SelectUnique(rows, OfQuery(query));
    more := BalanceGroup(group, query, ratio, minNeg, fraction, rank, sample);
  }

  /** Labels other than 0, 1 and missing are an error. */
  method BalanceDataset(rows: seq<Row>, ratio: nat, minNeg: nat, fraction: real,
                        rank: seq<Row> -> seq<Row>, sample: (seq<Row>, nat) -> seq<Row>)
    returns (r: Result<seq<Row>>)
    requires UniqueIndex(rows) && Ranks(rank) && Samples(sample)
    ensures r.Ok? <==> forall x :: x in rows ==> x.mark in {None, Some(0), Some(1)}
    ensures r.Ok? ==> IsBalanced(rows, r.value, ratio, minNeg)
  {
    if exists x :: x in rows && !Labelled(x) {
      return Err;
    }
    var queries := Queries(rows);
    QueriesDistinct(rows);
    var kept: seq<Row> := [];
    for i := 0 to |queries|
      invariant Gathered(rows, kept, queries[..i], ratio, minNeg)
    {
      var more := BalanceQuery(rows, queries[i], ratio, minNeg, fraction, rank, sample);
      assert NewQuery(queries, i) && queries[..i + 1] == queries[..i] + [queries[i]];
      GatherStep(rows, kept, queries[..i], ratio, minNeg, queries[i], more);
      kept := kept + more;
    }
    assert queries[..|queries|] == queries;
    GatheredIsBalanced(rows, kept, queries, ratio, minNeg);
    return Ok(Sort(kept, ByIndex));
  }

  // ---------- What balancing promises ----------

  /** The rows of a query with a label. */
  ghost function Marked(rows: seq<Row>, query: string, mark: int): set<Row> {
    set r | r in rows && r.query == query && r.mark == Some(mark)
  }

  /** In terms of the labels: of a query without a row labelled 1 nothing is kept; otherwise all of these, and of
      the rows labelled 0 as many as the ratio or the minimum asks for, whichever is more, or all there are.
      Rows without a label are never kept. */
  lemma BalancedTells(rows: seq<Row>, kept: seq<Row>, ratio: nat, minNeg: nat, query: string)
    requires IsBalanced(rows, kept, ratio, minNeg)
    ensures forall r :: r in kept ==> r in rows && (r.mark == Some(0) || r.mark == Some(1))
    ensures var p, n, q := Marked(rows, query, 1), Marked(rows, query, 0), Marked(kept, query, 0);
      if p == {} then Marked(kept, query, 1) == {} && q == {}
      else
        && Marked(kept, query, 1) == p && q <= n
        && (|n| <= |p| * ratio || |n| <= minNeg ==> q == n)
        && (|n| > |p| * ratio && |n| > minNeg ==> |q| == if |p| * ratio < minNeg then minNeg else |p| * ratio)
  {
    assert Balanced(Set(rows), Set(kept), query, ratio, minNeg);
    MarkedTells(rows, query);
    MarkedTells(kept, query);
    var p, n, q := Marked(rows, query, 1), Marked(rows, query, 0), Marked(kept, query, 0);
    QuotaTells(|p|, |n|, ratio, minNeg);
    forall r | r in kept ensures r in rows {
      assert r in Set(kept) && r in Set(rows);
    }
    if p != {} && |q| == |n| {
      SameSize(q, n);
    }
  }

  lemma MarkedTells(rows: seq<Row>, query: string)
    ensures Positives(Set(rows), query) == Marked(rows, query, 1)
    ensures Negatives(Set(rows), query) == Marked(rows, query, 0)
  {
  }

  /** A group without positives disappears whole; every other keeps all its positives. */
  lemma GroupsVanishIff(rows: seq<Row>, kept: seq<Row>, ratio: nat, minNeg: nat, query: string)
    requires IsBalanced(rows, kept, ratio, minNeg)
    ensures (exists r :: r in kept && r.query == query) <==> Positives(Set(rows), query) != {}
  {
    assert Balanced(Set(rows), Set(kept), query, ratio, minNeg);
    if r :| r in kept && r.query == query {
      assert r in Positives(Set(kept), query) || r in Negatives(Set(kept), query);
    }
    if Positives(Set(rows), query) != {} {
      var r :| r in Positives(Set(kept), query);
      assert r in kept;
    }
  }

  /** Balancing twice, whatever was ranked and sampled either time, returns the rows of the first time. */
  lemma BalancingIsIdempotent(rows: seq<Row>, once: seq<Row>, twice: seq<Row>, ratio: nat, minNeg: nat)
    requires IsBalanced(rows, once, ratio, minNeg) && IsBalanced(once, twice, ratio, minNeg)
    ensures twice == once
  {
    forall r | r in once ensures r in twice {
      SameGroup(rows, once, twice, ratio, minNeg, r.query);
      assert r in Positives(Set(once), r.query) || r in Negatives(Set(once), r.query);
      assert r in Set(twice);
    }
    forall r | r in twice ensures r in once {
      assert r in Set(twice) && r in Set(once);
    }
    OrderedIsUnique(once, twice, ByIndex);
  }

  lemma SameGroup(rows: seq<Row>, once: seq<Row>, twice: seq<Row>, ratio: nat, minNeg: nat, query: string)
    requires IsBalanced(rows, once, ratio, minNeg) && IsBalanced(once, twice, ratio, minNeg)
    ensures Positives(Set(twice), query) == Positives(Set(once), query)
    ensures Negatives(Set(twice), query) == Negatives(Set(once), query)
  {
    assert Balanced(Set(rows), Set(once), query, ratio, minNeg);
    assert Balanced(Set(once), Set(twice), query, ratio, minNeg);
    if Positives(Set(rows), query) != {} {
      SameSize(Negatives(Set(twice), query), Negatives(Set(once), query));
    }
  }

  lemma SameSize<T>(a: set<T>, b: set<T>)
    requires a <= b && |a| == |b|
    ensures a == b
  {
    assert |b - a| == 0;
  }
}
