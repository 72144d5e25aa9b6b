/** A revision that the parser rejects, run after run: the promise that an indexed current row stops
    reruns does not hold while a newer revision fails. */
module LedgerRetries {
  import opened Options
  import opened Paths
  import opened LedgerModel
  import opened LedgerSpec
  import opened LedgerInvariant
  import opened LedgerAccounting
  import opened LedgerRuns

  // ---------- The steps over one file ----------

  /** The same file again and again, at these times. */
  function Repeat(s: Store, ds: string, root: string, f: SourceFile, times: seq<int>): Store {
    if times == [] then s
    else FileStep(Repeat(s, ds, root, f, times[..|times| - 1]), ds, root, false, f, times[|times| - 1])
  }

  /** Row `i` is the current version of the document, and holds something else than `c`. */
  ghost predicate HoldsOther(s: Store, ds: string, lg: LogicalId, c: Checksum, i: nat) {
    && RowsInv(s.rows) && Honest(s.rows)
    && Current(s.rows, ds, lg) == Some(i) && s.rows[i].checksum != c
  }

  /** A changed file whose parse raises is tried again at every step over it, each time with a new version,
      although the current version stays as it is and nothing changes on disk. */
  lemma {:induction false} FailedRevisionAddsForever(
    s: Store, ds: string, root: string, f: SourceFile, times: seq<int>, i: nat)
    requires Recorded(s, f) && !Accepted(f) && HoldsOther(s, ds, LogicalOf(ds, f), f.checksum.value, i)
    ensures var u := Repeat(s, ds, root, f, times);
      && |u.rows| == |s.rows| + |times|
      && Recorded(u, f) && HoldsOther(u, ds, LogicalOf(ds, f), f.checksum.value, i) && u.rows[i] == s.rows[i]
  {
    if times != [] {
      var init := times[..|times| - 1];
      FailedRevisionAddsForever(s, ds, root, f, init, i);
      var t := Repeat(s, ds, root, f, init);
      AddsVersionIff(t, ds, root, f, times[|times| - 1]);
      OwnStep(t, ds, root, f, times[|times| - 1], i);
    }
  }

  lemma OwnStep(s: Store, ds: string, root: string, f: SourceFile, now: int, i: nat)
    requires f.checksum.Some? && !Accepted(f) && HoldsOther(s, ds, LogicalOf(ds, f), f.checksum.value, i)
    ensures var t := FileStep(s, ds, root, false, f, now);
      && HoldsOther(t, ds, LogicalOf(ds, f), f.checksum.value, i) && t.rows[i] == s.rows[i]
      && (Recorded(s, f) ==> Recorded(t, f))
  {
    FailureKeepsCurrent(s, ds, root, false, f, now);
    FileStepKeeps(s, ds, root, false, f, now);
    FileStepGrows(s, ds, root, false, f, now);
  }

  // ---------- Whole runs ----------

  /** One run over a directory; the file in question stands at place `at`. */
  datatype DirectoryRun = DirectoryRun(root: string, files: seq<SourceFile>, at: nat, now: int)

  function RunAll(s: Store, ds: string, runs: seq<DirectoryRun>): Store {
    if runs == [] then s
    else
      var last := runs[|runs| - 1];
      RunOver(RunAll(s, ds, runs[..|runs| - 1]), ds, last.root, false, last.files, last.now)
  }

  /** The run finds content `c` at the document's path, once, and the attempt at it raises. */
  predicate Rejects(ds: string, r: DirectoryRun, lg: LogicalId, c: Checksum) {
    && r.at < |r.files| && Rejected(ds, r.files[r.at], lg, c)
    && forall j :: 0 <= j < |r.files| && j != r.at ==> OtherAt(ds, r.files, j, lg)
  }

  predicate Rejected(ds: string, f: SourceFile, lg: LogicalId, c: Checksum) {
    LogicalOf(ds, f) == lg && f.checksum == Some(c) && !Accepted(f)
  }

  /** The failure can be recorded when the run reaches the file. */
  predicate Records(s: Store, ds: string, r: DirectoryRun)
  {
    r.at < |r.files| && Recorded(Scan(s, ds, r.root, false, r.files[..r.at], r.now), r.files[r.at])
  }

  function RecordingRuns(s: Store, ds: string, runs: seq<DirectoryRun>): nat
  {
    if runs == [] then 0
    else
      var init := runs[..|runs| - 1];
      RecordingRuns(s, ds, init) + if Records(RunAll(s, ds, init), ds, runs[|runs| - 1]) then 1 else 0
  }

  /** How many versions a document has. */
  function DocRows(rows: seq<Row>, ds: string, lg: LogicalId): nat {
    if rows == [] then 0
    else DocRows(rows[..|rows| - 1], ds, lg) + if SameDoc(rows[|rows| - 1], ds, lg) then 1 else 0
  }

  lemma {:induction false} FrozenDocRows(rows: seq<Row>, rows': seq<Row>, ds: string, lg: LogicalId)
    requires |rows| == |rows'| && forall i :: 0 <= i < |rows| ==> Frozen(rows[i], rows'[i])
    ensures DocRows(rows, ds, lg) == DocRows(rows', ds, lg)
  {
    if rows != [] {
      var m := |rows| - 1;
      assert Frozen(rows[m], rows'[m]);
      FrozenDocRows(rows[..m], rows'[..m], ds, lg);
    }
  }

  /** One row more at most. */
  lemma GrownDocRows(rows: seq<Row>, rows': seq<Row>, ds: string, lg: LogicalId)
    requires |rows| <= |rows'| <= |rows| + 1 && forall i :: 0 <= i < |rows| ==> Frozen(rows[i], rows'[i])
    ensures DocRows(rows', ds, lg) == DocRows(rows, ds, lg)
              + if |rows'| > |rows| && SameDoc(rows'[|rows|], ds, lg) then 1 else 0
  {
    FrozenDocRows(rows, rows'[..|rows|], ds, lg);
    if |rows'| == |rows| {
      assert rows'[..|rows|] == rows';
    }
  }

  /** A file step adds to its own document only. */
  lemma StepDocRows(s: Store, ds: string, root: string, f: SourceFile, now: int, lg: LogicalId)
    ensures var t := FileStep(s, ds, root, false, f, now);
      && |s.rows| <= |t.rows| <= |s.rows| + 1
      && DocRows(t.rows, ds, lg) == DocRows(s.rows, ds, lg)
           + if LogicalOf(ds, f) == lg && |t.rows| > |s.rows| then 1 else 0
  {
    var t := FileStep(s, ds, root, false, f, now);
    FileStepGrows(s, ds, root, false, f, now);
    LastIsOwn(s, ds, root, f, now);
    GrownDocRows(s.rows, t.rows, ds, lg);
  }

  lemma LastIsOwn(s: Store, ds: string, root: string, f: SourceFile, now: int)
    ensures var t := FileStep(s, ds, root, false, f, now);
      && |t.rows| <= |s.rows| + 1
      && (|t.rows| > |s.rows| ==> SameDoc(t.rows[|s.rows|], ds, LogicalOf(ds, f)))
  {
  }

  lemma OtherStep(s: Store, ds: string, root: string, f: SourceFile, now: int, lg: LogicalId, c: Checksum, i: nat)
    requires LogicalOf(ds, f) != lg && HoldsOther(s, ds, lg, c, i)
    ensures var t := FileStep(s, ds, root, false, f, now);
      HoldsOther(t, ds, lg, c, i) && t.rows[i] == s.rows[i]
  {
    var t := FileStep(s, ds, root, false, f, now);
    FileStepKeeps(s, ds, root, false, f, now);
    FileStepGrows(s, ds, root, false, f, now);
    FileStepFrame(s, ds, root, false, f, now, i);
    OnlyCurrent(t.rows, ds, lg, i);
  }

  /** One step of a scan, over the document's own rejected file or over another document's. */
  lemma StepRetries(s: Store, ds: string, root: string, f: SourceFile, now: int, lg: LogicalId, c: Checksum, i: nat)
    requires HoldsOther(s, ds, lg, c, i) && (Rejected(ds, f, lg, c) || LogicalOf(ds, f) != lg)
    ensures var t := FileStep(s, ds, root, false, f, now);
      && HoldsOther(t, ds, lg, c, i) && t.rows[i] == s.rows[i]
      && DocRows(t.rows, ds, lg) == DocRows(s.rows, ds, lg)
           + if LogicalOf(ds, f) == lg && Recorded(s, f) then 1 else 0
  {
    StepDocRows(s, ds, root, f, now, lg);
    if LogicalOf(ds, f) == lg {
      OwnStep(s, ds, root, f, now, i);
      AddsVersionIff(s, ds, root, f, now);
    } else {
      OtherStep(s, ds, root, f, now, lg, c, i);
    }
  }

  /** A scan adds a version of the document at its own file and nowhere else. */
  lemma {:induction false} ScanRetries(
    s: Store, ds: string, root: string, files: seq<SourceFile>, at: nat, now: int, lg: LogicalId, c: Checksum, i: nat)
    requires HoldsOther(s, ds, lg, c, i)
    requires at < |files| ==> Rejected(ds, files[at], lg, c)
    requires forall j :: 0 <= j < |files| && j != at ==> OtherAt(ds, files, j, lg)
    ensures var u := Scan(s, ds, root, false, files, now);
      && HoldsOther(u, ds, lg, c, i) && u.rows[i] == s.rows[i]
      && DocRows(u.rows, ds, lg) == DocRows(s.rows, ds, lg)
           + if at < |files| && Recorded(Scan(s, ds, root, false, files[..at], now), files[at]) then 1 else 0
  {
    if files != [] {
      var m := |files| - 1;
      var init := files[..m];
      forall j | 0 <= j < m && j != at ensures OtherAt(ds, init, j, lg) {
        assert OtherAt(ds, files, j, lg);
      }
      ScanRetries(s, ds, root, init, at, now, lg, c, i);
      assert at < m ==> init[..at] == files[..at];
      assert at != m ==> OtherAt(ds, files, m, lg);
      StepRetries(Scan(s, ds, root, false, init, now), ds, root, files[m], now, lg, c, i);
    }
  }

  lemma RunRetries(s: Store, ds: string, r: DirectoryRun, lg: LogicalId, c: Checksum, i: nat)
    requires HoldsOther(s, ds, lg, c, i) && Rejects(ds, r, lg, c)
    ensures var t := RunOver(s, ds, r.root, false, r.files, r.now);
      && HoldsOther(t, ds, lg, c, i) && t.rows[i] == s.rows[i]
      && DocRows(t.rows, ds, lg) == DocRows(s.rows, ds, lg) + if Records(s, ds, r) then 1 else 0
  {
    var u, seen := Scan(s, ds, r.root, false, r.files, r.now), Seen(ds, r.files);
    ScanRetries(s, ds, r.root, r.files, r.at, r.now, lg, c, i);
    assert lg in seen by { assert r.files[r.at] in r.files; }
    SweepRetries(u, ds, r.root, seen, r.now, lg, c, i);
  }

  lemma SweepRetries(
    s: Store, ds: string, root: string, seen: set<LogicalId>, now: int, lg: LogicalId, c: Checksum, i: nat)
    requires HoldsOther(s, ds, lg, c, i) && lg in seen
    ensures var t := Sweep(s, ds, root, seen, now);
      HoldsOther(t, ds, lg, c, i) && t.rows[i] == s.rows[i] && DocRows(t.rows, ds, lg) == DocRows(s.rows, ds, lg)
  {
    var t := Sweep(s, ds, root, seen, now);
    SweepKeeps(s, ds, root, seen, now);
    SweepGrows(s, ds, root, seen, now);
    FrozenDocRows(s.rows, t.rows, ds, lg);
    OnlyCurrent(t.rows, ds, lg, i);
  }

  /** So over any sequence of whole runs that reject the revision, whatever else is in the directory: the
      document gains one version for each run that can record the failure, and its current row never changes. */
  lemma {:induction false} FailedRevisionOverRuns(
    s: Store, ds: string, runs: seq<DirectoryRun>, lg: LogicalId, c: Checksum, i: nat)
    requires HoldsOther(s, ds, lg, c, i) && forall r :: r in runs ==> Rejects(ds, r, lg, c)
    ensures var u := RunAll(s, ds, runs);
      && HoldsOther(u, ds, lg, c, i) && u.rows[i] == s.rows[i]
      && DocRows(u.rows, ds, lg) == DocRows(s.rows, ds, lg) + RecordingRuns(s, ds, runs)
  {
    if runs != [] {
      var m := |runs| - 1;
      FailedRevisionOverRuns(s, ds, runs[..m], lg, c, i);
      assert runs[m] in runs;
      RunRetries(RunAll(s, ds, runs[..m]), ds, runs[m], lg, c, i);
    }
  }

  /** Such a state is reached, at any path: one file indexed, then changed to something the parser rejects. */
  lemma FailedRevisionExample(ds: string, root: string, path: string, now: int, times: seq<int>)
    ensures var s := FileStep(EmptyStore, ds, root, false, IndexedFile(path), now);
            var u := Repeat(s, ds, root, RejectedFile(path), times);
            && |s.rows| == 1 && |u.rows| == 1 + |times|
            && Current(u.rows, ds, LogicalOf(ds, RejectedFile(path))) == Some(0) && u.rows[0].status == Indexed
  {
    FirstIndexed(ds, root, path, now);
    var s := FileStep(EmptyStore, ds, root, false, IndexedFile(path), now);
    FailedRevisionAddsForever(s, ds, root, RejectedFile(path), times, 0);
  }
}
