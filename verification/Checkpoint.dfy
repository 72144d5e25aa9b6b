/** Table reconstruction with checkpoints: each run resumes from the file the earlier runs left. */
module Checkpoint {
  import opened Options
  import opened Orders

  datatype Chunk = Chunk(index: nat, body: string)

  /** A task as it completes: a failed table yields no result. */
  datatype Completion = Completion(index: nat, body: Option<string>)

  datatype Outcome = Returned(chunks: seq<Chunk>) | Crashed

  /** One run: the tasks completed, in order of completion, and whether the process lived to the end. */
  datatype Run = Run(completions: seq<Completion>, interval: int, finished: bool)

  type File = Option<seq<Chunk>>

  function Loaded(file: File): seq<Chunk> {
    match file
    case None => []
    case Some(chunks) => chunks
  }

  /** Positions of the tables in the content list. */
  function Tables(isTable: seq<bool>): seq<nat> {
    if isTable == [] then []
    else
      var n := |isTable| - 1;
      Tables(isTable[..n]) + (if isTable[n] then [n] else [])
  }

  function IndexSet(chunks: seq<Chunk>): set<nat> {
    set c | c in chunks :: c.index
  }

  function Remaining(tables: seq<nat>, done: set<nat>): seq<nat> {
    if tables == [] then []
    else
      var n := |tables| - 1;
      Remaining(tables[..n], done) + (if tables[n] in done then [] else [tables[n]])
  }

  lemma {:induction false} RemainingIs(tables: seq<nat>, done: set<nat>)
    ensures forall t :: t in Remaining(tables, done) <==> t in tables && t !in done
  {
    if tables != [] {
      RemainingIs(tables[..|tables| - 1], done);
      assert tables == tables[..|tables| - 1] + [tables[|tables| - 1]];
    }
  }

  function Results(completions: seq<Completion>): seq<Chunk> {
    if completions == [] then []
    else
      var last := completions[|completions| - 1];
      Results(completions[..|completions| - 1])
        + (if last.body.Some? then [Chunk(last.index, last.body.value)] else [])
  }

  // ---------- Sorting by index ----------

  predicate ByIndex(c: Chunk, d: Chunk) {
    c.index < d.index
  }

  ghost predicate Increasing(chunks: seq<Chunk>) {
    Ordered(chunks, ByIndex)
  }

  ghost predicate Distinct(chunks: seq<Chunk>) {
    forall i, j :: 0 <= i < j < |chunks| ==> Apart(chunks, i, j)
  }

  ghost predicate Apart(chunks: seq<Chunk>, i: nat, j: nat)
    requires i < j < |chunks|
  {
    chunks[i].index != chunks[j].index
  }

  function Sorted(chunks: seq<Chunk>): seq<Chunk> {
    Sort(chunks, ByIndex)
  }

  lemma SortedOrders(chunks: seq<Chunk>)
    requires Distinct(chunks)
    ensures Increasing(Sorted(chunks)) && |Sorted(chunks)| == |chunks|
    ensures forall x :: x in Sorted(chunks) <==> x in chunks
  {
    forall i, j | 0 <= i < j < |chunks| ensures ComparableAt(chunks, i, j, ByIndex) {
      assert Apart(chunks, i, j);
    }
    SortOrders(chunks, ByIndex);
  }

  lemma IncreasingIsUnique(a: seq<Chunk>, b: seq<Chunk>)
    requires Increasing(a) && Increasing(b) && forall x :: x in a <==> x in b
    ensures a == b
  {
    OrderedIsUnique(a, b, ByIndex);
  }

  // ---------- What one run leaves on disk ----------

  function Period(interval: int): nat {
    if interval < 0 then -interval else interval
  }

  /** Python's remainder is zero for the same lengths whatever the interval's sign. */
  predicate Due(length: nat, interval: int)
    requires interval != 0
  {
    length % Period(interval) == 0
  }

  /** How many of a run's first `k` results its last checkpoint held, starting from `n` loaded ones. */
  function Saved(n: nat, k: nat, interval: int): (j: nat)
    requires interval != 0
    ensures j <= k
  {
    var unsaved := (n + k) % Period(interval);
    if unsaved <= k then k - unsaved else 0
  }

  /** The file once the first `j` results are in it; before the first checkpoint it is as it was. */
  function Holding(file: File, results: seq<Chunk>, j: nat): File
    requires j <= |results|
  {
    if j == 0 then file else Some(Sorted(Loaded(file) + results[..j]))
  }

  function Checkpointed(file: File, results: seq<Chunk>, interval: int): File
    requires interval != 0
  {
    Holding(file, results, Saved(|Loaded(file)|, |results|, interval))
  }

  function AfterRun(file: File, tables: seq<nat>, run: Run): File {
    var results := Results(run.completions);
    if Remaining(tables, IndexSet(Loaded(file))) == [] then file
    else if run.interval == 0 && results != [] then file
    else if run.finished then Some(Sorted(Loaded(file) + results))
    else if run.interval == 0 then file
    else Checkpointed(file, results, run.interval)
  }

  lemma ModStep(n: nat, m: nat)
    requires m >= 1
    ensures (n + 1) % m == if n % m + 1 == m then 0 else n % m + 1
  {
    var q, r := n / m, n % m;
    assert n == q * m + r;
    if r + 1 == m {
      assert n + 1 == (q + 1) * m;
      ModUnique(n + 1, m, q + 1, 0);
    } else {
      ModUnique(n + 1, m, q, r + 1);
    }
  }

  lemma ModUnique(x: nat, m: nat, q: nat, r: nat)
    requires r < m && x == q * m + r
    ensures x % m == r
  {
    var d := x / m - q;
    assert x == (x / m) * m + x % m;
    assert d * m == r - x % m;
    MultipleIsFar(d, m);
  }

  lemma MultipleIsFar(d: int, m: nat)
    ensures d >= 1 ==> d * m >= m
    ensures d <= -1 ==> d * m <= 0 - m
  {
  }

  lemma SavedStep(n: nat, k: nat, interval: int)
    requires interval != 0
    ensures Saved(n, k + 1, interval) == if Due(n + k + 1, interval) then k + 1 else Saved(n, k, interval)
  {
    ModStep(n + k, Period(interval));
  }

  lemma HoldingAfter(file: File, results: seq<Chunk>, c: Chunk, j: nat)
    requires j <= |results| + 1
    ensures Holding(file, results + [c], j) ==
        if j == |results| + 1 then Some(Sorted(Loaded(file) + results + [c])) else Holding(file, results, j)
  {
    if j == |results| + 1 {
      assert (results + [c])[..j] == results + [c];
      assert Loaded(file) + (results + [c]) == Loaded(file) + results + [c];
    } else {
      assert (results + [c])[..j] == results[..j];
    }
  }

  /** One more result: a checkpoint is written when the list's length is a multiple of the interval. */
  lemma CheckpointStep(file: File, results: seq<Chunk>, c: Chunk, interval: int)
    requires interval != 0
    ensures var list := Loaded(file) + results + [c];
      Checkpointed(file, results + [c], interval) ==
        if Due(|list|, interval) then Some(Sorted(list)) else Checkpointed(file, results, interval)
  {
    var n, k, list := |Loaded(file)|, |results|, Loaded(file) + results + [c];
    assert |list| == n + k + 1;
    SavedStep(n, k, interval);
    HoldingAfter(file, results, c, if Due(|list|, interval) then k + 1 else Saved(n, k, interval));
  }

  lemma ResultsStep(completions: seq<Completion>, i: nat)
    requires i < |completions|
    ensures var completion, results := completions[i], Results(completions[..i]);
      Results(completions[..i + 1]) == if completion.body.Some?
        then results + [Chunk(completion.index, completion.body.value)] else results
  {
    assert completions[..i + 1] == completions[..i] + [completions[i]];
  }

  class Job {
    var file: File

    constructor ()
      ensures file == None
    {
      file := None;
    }

    /** A run over the given tables; one that does not finish stops after its last completion. */
    method Reconstruct(isTable: seq<bool>, run: Run) returns (outcome: Outcome)
      modifies this
      ensures file == AfterRun(old(file), Tables(isTable), run)
      ensures outcome.Returned? ==> outcome.chunks == if Tables(isTable) == [] then [] else Loaded(file)
      ensures outcome.Returned? <==>
        || Remaining(Tables(isTable), IndexSet(Loaded(old(file)))) == []
        || (run.finished && (run.interval != 0 || Results(run.completions) == []))
    {
      var tables := Tables(isTable);
      if tables == [] {
        return Returned([]);
      }
      var chunks := Loaded(file);
      var tasks := Remaining(tables, IndexSet(chunks));
      if tasks == [] {
        return Returned(chunks);
      }
      var results: seq<Chunk>;
      outcome, results := Collect(run);
      if outcome.Crashed? || !run.finished {
        return Crashed;
      }
      chunks := Sorted(chunks + results);
      file := Some(chunks);
      return Returned(chunks);
    }

    /** The loop over completed tasks. A zero interval divides by zero at the first result. */
    method Collect(run: Run) returns (outcome: Outcome, results: seq<Chunk>)
      modifies this
      ensures outcome.Crashed? <==> run.interval == 0 && Results(run.completions) != []
      ensures outcome.Crashed? ==> file == old(file)
      ensures outcome.Returned? ==> results == Results(run.completions)
      ensures outcome.Returned? ==>
        file == if run.interval == 0 then old(file) else Checkpointed(old(file), results, run.interval)
    {
      ghost var before := file;
      var chunks := Loaded(file);
      results := [];
      var i := 0;
      while i < |run.completions|
        invariant 0 <= i <= |run.completions| && results == Results(run.completions[..i])
        invariant chunks == Loaded(before) + results
        invariant run.interval == 0 ==> results == [] && file == before
        invariant run.interval != 0 ==> file == Checkpointed(before, results, run.interval)
      {
        var completion := run.completions[i];
        ResultsStep(run.completions, i);
        if completion.body.Some? {
          var chunk := Chunk(completion.index, completion.body.value);
          if run.interval == 0 {
            ResultsGrow(run.completions, i + 1);
            return Crashed, results;
          }
          CheckpointStep(before, results, chunk, run.interval);
          chunks, results := chunks + [chunk], results + [chunk];
          if Due(|chunks|, run.interval) {
            file := Some(Sorted(chunks));
          }
        }
        i := i + 1;
      }
      assert run.completions[..i] == run.completions;
      return Returned(chunks), results;
    }
  }

  lemma {:induction false} ResultsGrow(completions: seq<Completion>, i: nat)
    requires i <= |completions|
    ensures |Results(completions[..i])| <= |Results(completions)|
    decreases |completions|
  {
    if i == |completions| {
      assert completions[..i] == completions;
    } else {
      ResultsGrow(completions[..|completions| - 1], i);
      assert completions[..|completions| - 1][..i] == completions[..i];
    }
  }

  // ---------- What every sequence of runs keeps ----------

  ghost predicate FileOk(file: File, tables: seq<nat>) {
    Increasing(Loaded(file)) && forall c :: c in Loaded(file) ==> c.index in tables
  }

  /** The executor completes each remaining task at most once, and all of them in a run that finishes. */
  ghost predicate Possible(file: File, tables: seq<nat>, run: Run) {
    var tasks := Remaining(tables, IndexSet(Loaded(file)));
    && (forall i, j :: 0 <= i < j < |run.completions| ==> run.completions[i].index != run.completions[j].index)
    && (forall i :: 0 <= i < |run.completions| ==> run.completions[i].index in tasks)
    && (run.finished ==> forall t :: t in tasks ==> Completes(run, t))
  }

  ghost predicate Completes(run: Run, t: nat) {
    exists i :: 0 <= i < |run.completions| && run.completions[i].index == t
  }

  lemma {:induction false} ResultsAre(completions: seq<Completion>)
    ensures forall c :: c in Results(completions) <==>
      Completion(c.index, Some(c.body)) in completions
  {
    if completions != [] {
      var init := completions[..|completions| - 1];
      ResultsAre(init);
      assert completions == init + [completions[|completions| - 1]];
    }
  }

  lemma {:induction false} ResultsDistinct(completions: seq<Completion>)
    requires forall i, j :: 0 <= i < j < |completions| ==> completions[i].index != completions[j].index
    ensures Distinct(Results(completions))
  {
    if completions != [] {
      var init, last := completions[..|completions| - 1], completions[|completions| - 1];
      ResultsDistinct(init);
      ResultsAre(init);
      var before, after := Results(init), Results(completions);
      forall i, j | 0 <= i < j < |after| ensures Apart(after, i, j) {
        if j < |before| {
          assert Apart(before, i, j);
        } else {
          assert before[i] in before;
          assert Completion(before[i].index, Some(before[i].body)) in init;
        }
      }
    }
  }

  /** The loaded chunks and any part of a possible run's results have distinct tables, all of the input. */
  lemma PoolOk(file: File, tables: seq<nat>, run: Run, j: nat)
    requires FileOk(file, tables) && Possible(file, tables, run) && j <= |Results(run.completions)|
    ensures Distinct(Loaded(file) + Results(run.completions)[..j])
    ensures forall c :: c in Loaded(file) + Results(run.completions)[..j] ==> c.index in tables
  {
    var loaded, results := Loaded(file), Results(run.completions);
    ResultsAre(run.completions);
    ResultsDistinct(run.completions);
    RemainingIs(tables, IndexSet(loaded));
    forall c | c in results ensures c.index in tables && c.index !in IndexSet(loaded) {
      assert Completion(c.index, Some(c.body)) in run.completions;
    }
    var pool := loaded + results[..j];
    forall i, k | 0 <= i < k < |pool| ensures Apart(pool, i, k) {
      if k < |loaded| {
        assert At(loaded, i, k, ByIndex);
      } else if i < |loaded| {
        assert results[k - |loaded|] in results && loaded[i].index in IndexSet(loaded);
      } else {
        assert Apart(results, i - |loaded|, k - |loaded|);
      }
    }
  }

  /** Crashed or finished, a run leaves a file sorted with distinct tables of the input, in which every
      chunk of the earlier file stands unchanged. */
  lemma RunKeeps(file: File, tables: seq<nat>, run: Run)
    requires FileOk(file, tables) && Possible(file, tables, run)
    ensures FileOk(AfterRun(file, tables, run), tables)
    ensures forall c :: c in Loaded(file) ==> c in Loaded(AfterRun(file, tables, run))
  {
    var after, results := AfterRun(file, tables, run), Results(run.completions);
    if after != file {
      var j := if run.finished then |results| else Saved(|Loaded(file)|, |results|, run.interval);
      assert results[..|results|] == results;
      PoolOk(file, tables, run, j);
      SortedOrders(Loaded(file) + results[..j]);
      assert after == Some(Sorted(Loaded(file) + results[..j]));
    }
  }

  /** Up to the last checkpoint: the list reached a multiple of the interval there and none since, or no
      checkpoint was written. */
  predicate LastCheckpoint(n: nat, k: nat, interval: int, j: nat)
    requires interval != 0
  {
    j <= k && (j == 0 || IsMultiple(n, j, interval)) && forall i :: j < i <= k ==> !IsMultiple(n, i, interval)
  }

  predicate IsMultiple(loaded: nat, added: nat, interval: int)
    requires interval != 0
  {
    (loaded + added) % (if interval < 0 then -interval else interval) == 0
  }

  lemma {:induction false} SavedTells(n: nat, k: nat, interval: int)
    requires interval != 0
    ensures LastCheckpoint(n, k, interval, Saved(n, k, interval))
  {
    if k > 0 {
      SavedTells(n, k - 1, interval);
      SavedStep(n, k - 1, interval);
      assert IsMultiple(n, k, interval) <==> Due(n + k, interval);
      LastStep(n, k, interval, Saved(n, k - 1, interval));
    } else {
      NoneSaved(n, interval);
    }
  }

  lemma NoneSaved(n: nat, interval: int)
    requires interval != 0
    ensures Saved(n, 0, interval) == 0
  {
  }

  lemma LastStep(n: nat, k: nat, interval: int, j: nat)
    requires interval != 0 && k > 0 && LastCheckpoint(n, k - 1, interval, j)
    ensures LastCheckpoint(n, k, interval, if IsMultiple(n, k, interval) then k else j)
  {
  }

  /** A crashed run leaves the chunks of before and the results up to the last checkpoint, in the order in
      which their tasks were completed. */
  lemma CrashLeaves(file: File, tables: seq<nat>, run: Run) returns (j: nat)
    requires FileOk(file, tables) && Possible(file, tables, run) && !run.finished && run.interval != 0
    requires Remaining(tables, IndexSet(Loaded(file))) != []
    ensures var results := Results(run.completions);
      && LastCheckpoint(|Loaded(file)|, |results|, run.interval, j)
      && forall c :: c in Loaded(AfterRun(file, tables, run)) <==> c in Loaded(file) || c in results[..j]
  {
    var results := Results(run.completions);
    j := Saved(|Loaded(file)|, |results|, run.interval);
    SavedTells(|Loaded(file)|, |results|, run.interval);
    PoolOk(file, tables, run, j);
    SortedOrders(Loaded(file) + results[..j]);
  }

  lemma SavedLoses(n: nat, k: nat, interval: int)
    requires interval != 0
    ensures var over := (n + k) % Period(interval);
      k - Saved(n, k, interval) == (if over <= k then over else k) < Period(interval)
  {
  }

  /** What a crash loses: with `k` results finished, the file misses exactly the remainder of the list's
      length by the interval, or all `k` when no multiple was reached; always fewer than the interval. */
  lemma CrashLoses(file: File, tables: seq<nat>, run: Run)
    requires !run.finished && run.interval != 0
    requires Remaining(tables, IndexSet(Loaded(file))) != []
    ensures var n, k := |Loaded(file)|, |Results(run.completions)|;
      var over := (n + k) % Period(run.interval);
      n + k - |Loaded(AfterRun(file, tables, run))| == (if over <= k then over else k) < Period(run.interval)
  {
    var results := Results(run.completions);
    PrefixLength(file, run, |results|);
    assert results[..|results|] == results;
    SavedLoses(|Loaded(file)|, |results|, run.interval);
  }

  lemma SavedBeforeWrite(n: nat, k: nat, interval: int)
    requires interval != 0
    ensures var unsaved := k + 1 - Saved(n, k, interval);
      && unsaved <= Period(interval)
      && (unsaved == Period(interval) <==> Due(n + k + 1, interval) && k + 1 >= Period(interval))
  {
    ModStep(n + k, Period(interval));
  }

  lemma PrefixLength(file: File, run: Run, k: nat)
    requires run.interval != 0 && k <= |Results(run.completions)|
    ensures var n, results := |Loaded(file)|, Results(run.completions)[..k];
      |Loaded(Checkpointed(file, results, run.interval))| == n + Saved(n, k, run.interval)
  {
    var results := Results(run.completions);
    var j := Saved(|Loaded(file)|, k, run.interval);
    assert results[..k][..j] == results[..j];
  }

  /** The results finished but not in the file at the moment when the run's last result has been appended
      and nothing has been written yet. */
  function UnsavedNow(file: File, run: Run): int
    requires run.interval != 0 && Results(run.completions) != []
  {
    var results := Results(run.completions);
    |Loaded(file)| + |results| - |Loaded(Checkpointed(file, results[..|results| - 1], run.interval))|
  }

  /** The promise that fewer than the interval are unsaved at any moment fails at exactly one: when the
      run has finished at least an interval of results and the list's length is due, just before the write.
      There the number is the interval itself, never more. */
  lemma UnsavedReachesInterval(file: File, run: Run)
    requires run.interval != 0 && Results(run.completions) != []
    ensures var k := |Results(run.completions)|;
      && UnsavedNow(file, run) <= Period(run.interval)
      && (UnsavedNow(file, run) == Period(run.interval) <==>
            Due(|Loaded(file)| + k, run.interval) && k >= Period(run.interval))
  {
    var k := |Results(run.completions)| - 1;
    UnsavedIs(file, run);
    SavedBeforeWrite(|Loaded(file)|, k, run.interval);
  }

  lemma UnsavedIs(file: File, run: Run)
    requires run.interval != 0 && Results(run.completions) != []
    ensures var k := |Results(run.completions)| - 1;
      UnsavedNow(file, run) == k + 1 - Saved(|Loaded(file)|, k, run.interval)
  {
    PrefixLength(file, run, |Results(run.completions)| - 1);
  }

  const TWO_TABLES := [Completion(0, Some("a")), Completion(1, Some("b"))]

  lemma TwoResults()
    ensures Results(TWO_TABLES) == [Chunk(0, "a"), Chunk(1, "b")]
  {
    ResultsStep(TWO_TABLES, 0);
    ResultsStep(TWO_TABLES, 1);
    assert TWO_TABLES[..0] == [] && TWO_TABLES[..2] == TWO_TABLES;
  }

  lemma TwoTablesPossible()
    ensures Possible(None, [0, 1], Run(TWO_TABLES, 2, true))
  {
    var run, done := Run(TWO_TABLES, 2, true), IndexSet(Loaded(None));
    assert done == {};
    RemainingIs([0, 1], done);
    assert TWO_TABLES[0].index == 0 && TWO_TABLES[1].index == 1;
    assert Completes(run, 0) && Completes(run, 1);
  }

  /** Two tables, an interval of two: both results are unsaved when the second one has been appended. */
  lemma UnsavedExample()
    ensures var run := Run(TWO_TABLES, 2, true);
      && FileOk(None, [0, 1]) && Possible(None, [0, 1], run)
      && Results(run.completions) != [] && UnsavedNow(None, run) == 2 == Period(run.interval)
  {
    TwoResults();
    TwoTablesPossible();
    UnsavedReachesInterval(None, Run(TWO_TABLES, 2, true));
  }

  /** The tables a file covers, in order. */
  function Covered(file: File): seq<nat> {
    var chunks := Loaded(file);
    seq(|chunks|, i requires 0 <= i < |chunks| => chunks[i].index)
  }

  ghost predicate AllSucceed(run: Run) {
    forall i :: 0 <= i < |run.completions| ==> run.completions[i].body.Some?
  }

  predicate Smaller(x: nat, y: nat) {
    x < y
  }

  lemma {:induction false} TablesAre(isTable: seq<bool>, t: nat)
    ensures t in Tables(isTable) <==> t < |isTable| && isTable[t]
  {
    if isTable != [] {
      var n := |isTable| - 1;
      TablesAre(isTable[..n], t);
      assert Tables(isTable) == if isTable[n] then Tables(isTable[..n]) + [n] else Tables(isTable[..n]);
    }
  }

  lemma {:induction false} TablesRise(isTable: seq<bool>)
    ensures Ordered(Tables(isTable), Smaller)
  {
    if isTable != [] {
      var n := |isTable| - 1;
      TablesRise(isTable[..n]);
      forall t | t in Tables(isTable[..n]) ensures t < n {
        TablesAre(isTable[..n], t);
      }
      SnocOrdered<nat>(Tables(isTable[..n]), n, Smaller);
      assert Tables(isTable) == if isTable[n] then Tables(isTable[..n]) + [n] else Tables(isTable[..n]);
    }
  }

  /** A finishing run whose tasks all succeed leaves exactly one entry for each table, in order. */
  lemma FinishingRunCompletes(file: File, isTable: seq<bool>, run: Run)
    requires var tables := Tables(isTable);
      FileOk(file, tables) && Possible(file, tables, run) && run.finished && AllSucceed(run) && run.interval != 0
    ensures Covered(AfterRun(file, Tables(isTable), run)) == Tables(isTable)
  {
    var tables := Tables(isTable);
    var after, loaded := AfterRun(file, tables, run), Loaded(file);
    RunKeeps(file, tables, run);
    TablesRise(isTable);
    RemainingIs(tables, IndexSet(loaded));
    ResultsAre(run.completions);
    var covered := Covered(after);
    CoveredRises(after, tables);
    forall t | t in tables ensures t in covered {
      TableIsCovered(file, tables, run, t);
    }
    OrderedIsUnique(covered, tables, Smaller);
  }

  lemma CoveredRises(file: File, tables: seq<nat>)
    requires FileOk(file, tables)
    ensures Ordered(Covered(file), Smaller) && forall t :: t in Covered(file) ==> t in tables
  {
    var chunks := Loaded(file);
    forall i, j | 0 <= i < j < |chunks| ensures At(Covered(file), i, j, Smaller) {
      assert At(chunks, i, j, ByIndex);
    }
    forall t | t in Covered(file) ensures t in tables {
      var i :| 0 <= i < |chunks| && chunks[i].index == t;
      assert chunks[i] in chunks;
    }
  }

  lemma ChunkIsCovered(file: File, c: Chunk)
    requires c in Loaded(file)
    ensures c.index in Covered(file)
  {
    var i :| 0 <= i < |Loaded(file)| && Loaded(file)[i] == c;
    assert Covered(file)[i] == c.index;
  }

  lemma TableIsCovered(file: File, tables: seq<nat>, run: Run, t: nat)
    requires FileOk(file, tables) && Possible(file, tables, run) && run.finished && AllSucceed(run) && run.interval != 0
    requires t in tables
    ensures t in Covered(AfterRun(file, tables, run))
  {
    var after, loaded, results := AfterRun(file, tables, run), Loaded(file), Results(run.completions);
    RunKeeps(file, tables, run);
    RemainingIs(tables, IndexSet(loaded));
    if t in IndexSet(loaded) {
      var c :| c in loaded && c.index == t;
      ChunkIsCovered(after, c);
    } else {
      assert Completes(run, t);
      var i :| 0 <= i < |run.completions| && run.completions[i].index == t;
      ResultsAre(run.completions);
      var c := Chunk(t, run.completions[i].body.value);
      assert run.completions[i] == Completion(c.index, Some(c.body));
      PoolOk(file, tables, run, |results|);
      assert results[..|results|] == results;
      SortedOrders(loaded + results);
      ChunkIsCovered(after, c);
    }
  }

  /** The order in which tasks complete does not matter to a run that finishes. */
  lemma OrderDoesNotMatter(file: File, tables: seq<nat>, a: Run, b: Run)
    requires FileOk(file, tables) && Possible(file, tables, a) && Possible(file, tables, b)
    requires a.finished && b.finished && a.interval != 0 && b.interval != 0
    requires forall c :: c in a.completions <==> c in b.completions
    ensures AfterRun(file, tables, a) == AfterRun(file, tables, b)
  {
    var loaded, x, y := Loaded(file), Results(a.completions), Results(b.completions);
    ResultsAre(a.completions);
    ResultsAre(b.completions);
    PoolOk(file, tables, a, |x|);
    PoolOk(file, tables, b, |y|);
    assert x[..|x|] == x && y[..|y|] == y;
    SortedOrders(loaded + x);
    SortedOrders(loaded + y);
    IncreasingIsUnique(Sorted(loaded + x), Sorted(loaded + y));
  }

  // ---------- Sequences of runs ----------

  ghost predicate PossibleRuns(file: File, tables: seq<nat>, runs: seq<Run>)
    decreases |runs|, 0
  {
    runs == [] || (PossibleRuns(file, tables, runs[..|runs| - 1])
                   && Possible(AfterRuns(file, tables, runs[..|runs| - 1]), tables, runs[|runs| - 1]))
  }

  function AfterRuns(file: File, tables: seq<nat>, runs: seq<Run>): File
    decreases |runs|, 1
  {
    if runs == [] then file
    else AfterRun(AfterRuns(file, tables, runs[..|runs| - 1]), tables, runs[|runs| - 1])
  }

  /** Over any sequence of crashed and finished runs the file stays sorted and distinct and only grows. */
  lemma {:induction false} RunsKeep(file: File, tables: seq<nat>, runs: seq<Run>)
    requires FileOk(file, tables) && PossibleRuns(file, tables, runs)
    ensures FileOk(AfterRuns(file, tables, runs), tables)
    ensures forall c :: c in Loaded(file) ==> c in Loaded(AfterRuns(file, tables, runs))
  {
    if runs != [] {
      RunsKeep(file, tables, runs[..|runs| - 1]);
      RunKeeps(AfterRuns(file, tables, runs[..|runs| - 1]), tables, runs[|runs| - 1]);
    }
  }

  /** Convergence: whatever runs came before, one finishing run whose tasks all succeed completes the
      file, keeps every chunk saved earlier, and any later run changes nothing. */
  lemma RunsConverge(isTable: seq<bool>, runs: seq<Run>, last: Run, later: Run)
    requires var tables := Tables(isTable);
      && PossibleRuns(None, tables, runs) && Possible(AfterRuns(None, tables, runs), tables, last)
      && last.finished && AllSucceed(last) && last.interval != 0
    ensures var tables := Tables(isTable);
      var before := AfterRuns(None, tables, runs);
      var after := AfterRun(before, tables, last);
      && Covered(after) == tables
      && (forall c :: c in Loaded(before) ==> c in Loaded(after))
      && AfterRun(after, tables, later) == after
  {
    var tables := Tables(isTable);
    RunsKeep(None, tables, runs);
    var before := AfterRuns(None, tables, runs);
    FinishingRunCompletes(before, isTable, last);
    RunKeeps(before, tables, last);
    NothingRemains(AfterRun(before, tables, last), tables);
  }

  lemma NothingRemains(file: File, tables: seq<nat>)
    requires Covered(file) == tables
    ensures Remaining(tables, IndexSet(Loaded(file))) == []
  {
    var rest := Remaining(tables, IndexSet(Loaded(file)));
    RemainingIs(tables, IndexSet(Loaded(file)));
    forall t | t in tables ensures t in IndexSet(Loaded(file)) {
      var i :| 0 <= i < |Covered(file)| && Covered(file)[i] == t;
      assert Loaded(file)[i] in Loaded(file);
    }
    EmptyTogether(rest, []);
  }
}
