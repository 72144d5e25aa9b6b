/** Whole runs: safety over every history of steps, exact reconciliation, and what a rerun adds. */
module LedgerRuns {
  import opened Options
  import opened Paths
  import opened LedgerModel
  import opened LedgerSpec
  import opened LedgerInvariant
  import opened LedgerAccounting
  import opened LedgerColumns
  import opened Migration

  // ---------- Histories ----------

  /** The committed steps; `RawEvent` is anything that happens to the raw directory from outside. */
  datatype Event =
    | OpenEvent(now: int)
    | FileEvent(root: string, reset: bool, file: SourceFile, now: int)
    | SweepEvent(root: string, seen: set<LogicalId>, now: int)
    | SyncEvent
    | RawEvent(raw: map<RawName, Checksum>)

  ghost predicate Next(s: Store, ds: string, names: Names, e: Event, t: Store) {
    match e
    case OpenEvent(now) => Migrates(s, names, now, t)
    case FileEvent(root, reset, f, now) => t == FileStep(s, ds, root, reset, f, now)
    case SweepEvent(root, seen, now) => t == Sweep(s, ds, root, seen, now)
    case SyncEvent => t == Sync(s, ds)
    case RawEvent(raw) => t == s.(raw := raw)
  }

  ghost predicate History(ds: string, names: Names, states: seq<Store>, events: seq<Event>) {
    && |states| == |events| + 1
    && forall k :: 0 <= k < |events| ==> StepAt(ds, names, states, events, k)
  }

  ghost predicate StepAt(ds: string, names: Names, states: seq<Store>, events: seq<Event>, k: nat)
    requires |states| == |events| + 1 && k < |events|
  {
    Next(states[k], ds, names, events[k], states[k + 1])
  }

  /** Everything that holds between committed steps. */
  ghost predicate Good(s: Store) {
    RowsInv(s.rows) && Honest(s.rows) && Accounts(s)
  }

  lemma GrowsReflexive(s: Store)
    ensures Grows(s, s)
  {
  }

  /** Honest ids and payload accounts, each kept on its own. */
  ghost predicate KeepsAccounts(s: Store, t: Store) {
    (Honest(s.rows) ==> Honest(t.rows)) && (Accounts(s) ==> Accounts(t))
  }

  lemma FileEventKeeps(s: Store, ds: string, root: string, reset: bool, f: SourceFile, now: int)
    requires RowsInv(s.rows)
    ensures var t := FileStep(s, ds, root, reset, f, now);
            RowsInv(t.rows) && Grows(s, t) && KeepsAccounts(s, t) && (RawIntact(s) ==> RawIntact(t))
  {
    FileStepKeeps(s, ds, root, reset, f, now);
    FileStepGrows(s, ds, root, reset, f, now);
    if Accounts(s) { FileStepAccounts(s, ds, root, reset, f, now); }
    if RawIntact(s) { FileStepKeepsRaw(s, ds, root, reset, f, now); }
  }

  lemma SweepEventKeeps(s: Store, ds: string, root: string, seen: set<LogicalId>, now: int)
    requires RowsInv(s.rows)
    ensures var t := Sweep(s, ds, root, seen, now);
            RowsInv(t.rows) && Grows(s, t) && KeepsAccounts(s, t) && (RawIntact(s) ==> RawIntact(t))
  {
    SweepKeeps(s, ds, root, seen, now);
    SweepGrows(s, ds, root, seen, now);
    if Accounts(s) { SweepAccounts(s, ds, root, seen, now); }
  }

  lemma SideEventKeeps(s: Store, t: Store)
    requires RowsInv(s.rows) && t == s.(registry := t.registry, raw := t.raw)
    ensures RowsInv(t.rows) && Grows(s, t) && KeepsAccounts(s, t)
    ensures RawIntact(s) && t.raw == s.raw ==> RawIntact(t)
  {
    GrowsReflexive(s);
    if Accounts(s) { RelabellingAccounts(s, t); }
  }

  lemma NextKeeps(s: Store, ds: string, names: Names, e: Event, t: Store)
    requires RowsInv(s.rows) && Next(s, ds, names, e, t)
    ensures RowsInv(t.rows) && Grows(s, t) && KeepsAccounts(s, t)
    ensures RawIntact(s) && !e.RawEvent? ==> RawIntact(t)
  {
    match e
    case OpenEvent(now) =>
      MigrationIsIdentity(s, names, now, t);
      GrowsReflexive(s);
    case FileEvent(root, reset, f, now) => FileEventKeeps(s, ds, root, reset, f, now);
    case SweepEvent(root, seen, now) => SweepEventKeeps(s, ds, root, seen, now);
    case SyncEvent => SideEventKeeps(s, t);
    case RawEvent(_) => SideEventKeeps(s, t);
  }

  /** In every history of opens, file steps, sweeps, syncs and outside damage to the raw directory,
      the invariant holds at every committed state and every later state only extends it. */
  lemma {:induction false} HistoryKeeps(
    ds: string, names: Names, states: seq<Store>, events: seq<Event>, i: nat, j: nat)
    requires History(ds, names, states, events) && RowsInv(states[0].rows)
    requires i <= j < |states|
    ensures RowsInv(states[j].rows) && Grows(states[i], states[j]) && KeepsAccounts(states[0], states[j])
    ensures RawIntact(states[0]) && (forall k :: 0 <= k < j ==> !events[k].RawEvent?) ==>
              RawIntact(states[j])
    decreases j
  {
    if j > 0 {
      HistoryKeeps(ds, names, states, events, if i < j then i else j - 1, j - 1);
      assert StepAt(ds, names, states, events, j - 1);
      NextKeeps(states[j - 1], ds, names, events[j - 1], states[j]);
    }
    if i == j {
      GrowsReflexive(states[i]);
    } else {
      GrowsTransitive(states[i], states[j - 1], states[j]);
    }
  }

  /** From a new database everything holds at every committed state. */
  lemma ReachableFromNew(ds: string, names: Names, states: seq<Store>, events: seq<Event>, j: nat)
    requires History(ds, names, states, events) && states[0] == EmptyStore && j < |states|
    ensures Good(states[j])
    ensures (forall k :: 0 <= k < j ==> !events[k].RawEvent?) ==> RawIntact(states[j])
  {
    HistoryKeeps(ds, names, states, events, 0, j);
  }

  /** From a legacy table the row invariant holds from the first open on, for ever, exactly when the
      table is repairable; and then its chunk accounts, if sound, stay so exactly when its pages fit. */
  lemma ReachableFromLegacy(ds: string, names: Names, states: seq<Store>, events: seq<Event>)
    requires History(ds, names, states, events) && DistinctIds(states[0].rows)
    requires events != [] && events[0].OpenEvent?
    ensures Repairable(states[0], names) <==> forall j :: 1 <= j < |states| ==> RowsInv(states[j].rows)
    ensures Repairable(states[0], names) && Accounts(states[0]) ==>
      (PagesFit(states[0]) <==> forall j :: 1 <= j < |states| ==> Accounts(states[j]))
  {
    assert StepAt(ds, names, states, events, 0);
    MigrationEstablishes(states[0], names, events[0].now, states[1]);
    if Repairable(states[0], names) {
      forall j | 1 <= j < |states| ensures RowsInv(states[j].rows) {
        AfterOpen(ds, names, states, events, j);
      }
      if Accounts(states[0]) {
        LegacyAccounts(ds, names, states, events);
      }
    }
  }

  lemma LegacyAccounts(ds: string, names: Names, states: seq<Store>, events: seq<Event>)
    requires History(ds, names, states, events) && events != [] && events[0].OpenEvent?
    requires RowsInv(states[1].rows) && Accounts(states[0])
    ensures PagesFit(states[0]) <==> forall j :: 1 <= j < |states| ==> Accounts(states[j])
  {
    assert StepAt(ds, names, states, events, 0);
    MigrationAccounts(states[0], names, events[0].now, states[1]);
    if PagesFit(states[0]) {
      forall j | 1 <= j < |states| ensures Accounts(states[j]) {
        AfterOpen(ds, names, states, events, j);
      }
    }
  }

  lemma AfterOpen(ds: string, names: Names, states: seq<Store>, events: seq<Event>, j: nat)
    requires History(ds, names, states, events) && events != [] && RowsInv(states[1].rows) && 1 <= j < |states|
    ensures RowsInv(states[j].rows) && KeepsAccounts(states[1], states[j])
  {
    HistoryTail(ds, names, states, events);
    HistoryKeeps(ds, names, states[1..], events[1..], 0, j - 1);
  }

  lemma HistoryTail(ds: string, names: Names, states: seq<Store>, events: seq<Event>)
    requires History(ds, names, states, events) && events != []
    ensures History(ds, names, states[1..], events[1..])
  {
    forall k | 0 <= k < |events[1..]| ensures StepAt(ds, names, states[1..], events[1..], k) {
      assert StepAt(ds, names, states, events, k + 1);
    }
  }

  // ---------- Reconciliation ----------

  lemma FileStepFrame(s: Store, ds: string, root: string, reset: bool, f: SourceFile, now: int, i: nat)
    requires i < |s.rows| && !SameDoc(s.rows[i], ds, LogicalOf(ds, f))
    ensures i < |FileStep(s, ds, root, reset, f, now).rows|
    ensures FileStep(s, ds, root, reset, f, now).rows[i] == s.rows[i]
  {
  }

  lemma {:induction false} ScanFrame(
    s: Store, ds: string, root: string, reset: bool, files: seq<SourceFile>, now: int, i: nat)
    requires i < |s.rows|
    requires forall f :: f in files ==> !SameDoc(s.rows[i], ds, LogicalOf(ds, f))
    ensures i < |Scan(s, ds, root, reset, files, now).rows|
    ensures Scan(s, ds, root, reset, files, now).rows[i] == s.rows[i]
  {
    if files != [] {
      var last := |files| - 1;
      ScanFrame(s, ds, root, reset, files[..last], now, i);
      FileStepFrame(Scan(s, ds, root, reset, files[..last], now), ds, root, reset, files[last], now, i);
    }
  }

  /** After a run over `root` the current local rows recorded there are rows of scanned documents. Of the rows
      that were not scanned, those current under this very root are tombstoned; all others, of another root or
      of none, of another dataset, not from a directory or out of use, are left exactly as they were. */
  lemma ReconciliationIsExact(s: Store, ds: string, root: string, reset: bool, files: seq<SourceFile>, now: int)
    ensures var t := RunOver(s, ds, root, reset, files, now);
      && |s.rows| <= |t.rows|
      && (forall i :: 0 <= i < |t.rows| && CurrentUnder(t.rows[i], ds, root) ==>
            t.rows[i].logical.Some? && t.rows[i].logical.value in Seen(ds, files))
      && (forall i :: 0 <= i < |s.rows| && Unscanned(s.rows[i], ds, files) ==>
            t.rows[i] == if CurrentUnder(s.rows[i], ds, root) then Gone(s.rows[i], now) else s.rows[i])
  {
    var u, t := Scan(s, ds, root, reset, files, now), RunOver(s, ds, root, reset, files, now);
    ScanGrows(s, ds, root, reset, files, now);
    SweepTells(u, ds, root, Seen(ds, files), now);
    forall i: nat | i < |s.rows| && Unscanned(s.rows[i], ds, files) ensures u.rows[i] == s.rows[i] {
      UnscannedStays(s, ds, root, reset, files, now, i);
    }
  }

  lemma UnscannedStays(
    s: Store, ds: string, root: string, reset: bool, files: seq<SourceFile>, now: int, i: nat)
    requires i < |s.rows| && Unscanned(s.rows[i], ds, files)
    ensures i < |Scan(s, ds, root, reset, files, now).rows|
    ensures Scan(s, ds, root, reset, files, now).rows[i] == s.rows[i]
  {
    forall f | f in files ensures !SameDoc(s.rows[i], ds, LogicalOf(ds, f)) {
      assert LogicalOf(ds, f) in Seen(ds, files);
    }
    ScanFrame(s, ds, root, reset, files, now, i);
  }

  /** Only lifecycle, flag and the two stamps of a tombstoned row change. */
  function Gone(r: Row, now: int): Row {
    r.(lifecycle := Removed, current := false, deleted := At(now), updated := At(now))
  }

  predicate CurrentUnder(r: Row, ds: string, root: string) {
    && r.dataset == ds && r.localDirectory && r.sourceRoot == Some(root)
    && r.current && r.lifecycle == Active && r.deleted == Null
  }

  /** The step over a good file leaves the document's current row under the root of the run. */
  lemma StepRecordsRoot(s: Store, ds: string, root: string, f: SourceFile, now: int) returns (i: nat)
    requires RowsInv(s.rows) && Honest(s.rows) && Recorded(s, f) && Accepted(f)
    requires !Settled(s, ds, LogicalOf(ds, f), f.checksum.value)
    ensures var t := FileStep(s, ds, root, false, f, now);
      && i < |t.rows| && SameDoc(t.rows[i], ds, LogicalOf(ds, f)) && CurrentUnder(t.rows[i], ds, root)
      && t.rows[i].checksum == f.checksum.value && RowsInv(t.rows)
  {
    i := |s.rows|;
    FileStepKeeps(s, ds, root, false, f, now);
    AddsVersionIff(s, ds, root, f, now);
    AddedRowTells(s, ds, root, false, f, now);
    GoodAttemptTells(s, ds, root, false, f, now);
  }

  /** A file indexed in one step and deleted from the directory: after a later run over the same root, whatever
      else it scans, no row of its document is current, and the one indexed is marked removed. */
  lemma DeletedFileLeaves(
    s: Store, ds: string, root: string, f: SourceFile, now: int, reset: bool, files: seq<SourceFile>, later: int)
    returns (i: nat)
    requires RowsInv(s.rows) && Honest(s.rows) && Recorded(s, f) && Accepted(f)
    requires !Settled(s, ds, LogicalOf(ds, f), f.checksum.value)
    requires LogicalOf(ds, f) !in Seen(ds, files)
    ensures var u := RunOver(FileStep(s, ds, root, false, f, now), ds, root, reset, files, later);
      && i < |u.rows| && u.rows[i].checksum == f.checksum.value
      && u.rows[i].lifecycle == Removed && u.rows[i].deleted == At(later)
      && forall k :: 0 <= k < |u.rows| && SameDoc(u.rows[k], ds, LogicalOf(ds, f)) ==> !u.rows[k].current
  {
    i := StepRecordsRoot(s, ds, root, f, now);
    UnseenLeaves(FileStep(s, ds, root, false, f, now), ds, root, reset, files, later, LogicalOf(ds, f), i);
  }

  /** The run removes a current row of its root that it does not see, and the document has no other. */
  lemma UnseenLeaves(
    s: Store, ds: string, root: string, reset: bool, files: seq<SourceFile>, now: int, lg: LogicalId, i: nat)
    requires RowsInv(s.rows) && lg !in Seen(ds, files)
    requires i < |s.rows| && SameDoc(s.rows[i], ds, lg) && CurrentUnder(s.rows[i], ds, root)
    ensures var u := RunOver(s, ds, root, reset, files, now);
      && |s.rows| <= |u.rows| && u.rows[i] == Gone(s.rows[i], now)
      && forall k :: 0 <= k < |u.rows| && SameDoc(u.rows[k], ds, lg) ==> !u.rows[k].current
  {
    var u := RunOver(s, ds, root, reset, files, now);
    ReconciliationIsExact(s, ds, root, reset, files, now);
    ScanAddsOthers(s, ds, root, reset, files, now, lg);
    forall k | 0 <= k < |u.rows| && SameDoc(u.rows[k], ds, lg) && k != i ensures !u.rows[k].current {
      assert RowsInv(s.rows) && k < |s.rows| && SameKey(s.rows[k], s.rows[i]) && SameKey(s.rows[i], s.rows[k]);
    }
  }

  /** Rows that a scan adds belong to documents it scans. */
  lemma {:induction false} ScanAddsOthers(
    s: Store, ds: string, root: string, reset: bool, files: seq<SourceFile>, now: int, lg: LogicalId)
    requires lg !in Seen(ds, files)
    ensures var u := Scan(s, ds, root, reset, files, now);
      && |s.rows| <= |u.rows|
      && (forall k :: 0 <= k < |s.rows| && SameDoc(u.rows[k], ds, lg) ==> SameDoc(s.rows[k], ds, lg))
      && forall k :: |s.rows| <= k < |u.rows| ==> !SameDoc(u.rows[k], ds, lg)
  {
    if files != [] {
      var init, f := files[..|files| - 1], files[|files| - 1];
      assert f in files && forall g :: g in init ==> g in files;
      ScanAddsOthers(s, ds, root, reset, init, now, lg);
      StepAddsOthers(Scan(s, ds, root, reset, init, now), ds, root, reset, f, now, lg);
    }
  }

  lemma StepAddsOthers(s: Store, ds: string, root: string, reset: bool, f: SourceFile, now: int, lg: LogicalId)
    requires LogicalOf(ds, f) != lg
    ensures var t := FileStep(s, ds, root, reset, f, now);
      && |s.rows| <= |t.rows|
      && (forall k :: 0 <= k < |s.rows| && SameDoc(t.rows[k], ds, lg) ==> SameDoc(s.rows[k], ds, lg))
      && forall k :: |s.rows| <= k < |t.rows| ==> !SameDoc(t.rows[k], ds, lg)
  {
    var t := FileStep(s, ds, root, reset, f, now);
    FileStepGrows(s, ds, root, reset, f, now);
    AddedIsRegistered(s, ds, root, reset, f, now);
    forall k | 0 <= k < |s.rows| && SameDoc(t.rows[k], ds, lg) ensures SameDoc(s.rows[k], ds, lg) {
      assert Frozen(s.rows[k], t.rows[k]);
    }
  }

  predicate Unscanned(r: Row, ds: string, files: seq<SourceFile>) {
    r.dataset != ds || r.logical.None? || r.logical.value !in Seen(ds, files)
  }

  lemma {:induction false} ScanGrows(s: Store, ds: string, root: string, reset: bool, files: seq<SourceFile>, now: int)
    ensures Grows(s, Scan(s, ds, root, reset, files, now))
    ensures Honest(s.rows) ==> Honest(Scan(s, ds, root, reset, files, now).rows)
    ensures RowsInv(s.rows) ==> RowsInv(Scan(s, ds, root, reset, files, now).rows)
    ensures RawIntact(s) ==> RawIntact(Scan(s, ds, root, reset, files, now))
    ensures Accounts(s) ==> Accounts(Scan(s, ds, root, reset, files, now))
  {
    if files != [] {
      var last := |files| - 1;
      var u := Scan(s, ds, root, reset, files[..last], now);
      ScanGrows(s, ds, root, reset, files[..last], now);
      FileStepGrows(u, ds, root, reset, files[last], now);
      GrowsTransitive(s, u, Scan(s, ds, root, reset, files, now));
      if RowsInv(u.rows) { FileStepKeeps(u, ds, root, reset, files[last], now); }
      if RawIntact(u) { FileStepKeepsRaw(u, ds, root, reset, files[last], now); }
      if Accounts(u) { FileStepAccounts(u, ds, root, reset, files[last], now); }
    }
  }

  /** A run leaves the registry total equal to the searchable chunk counts. */
  lemma RunRegistryTotals(s: Store, ds: string, root: string, reset: bool, files: seq<SourceFile>, now: int)
    requires Good(s)
    ensures var t := RunOver(s, ds, root, reset, files, now);
            Good(t) && t.registry.Some? && t.registry.value.chunkCount == SumCounts(t.rows, ds)
  {
    var u := Scan(s, ds, root, reset, files, now);
    ScanGrows(s, ds, root, reset, files, now);
    SweepIsGood(u, ds, root, Seen(ds, files), now);
    SyncIsGood(Sweep(u, ds, root, Seen(ds, files), now), ds);
  }

  lemma SweepIsGood(s: Store, ds: string, root: string, seen: set<LogicalId>, now: int)
    requires Good(s)
    ensures Good(Sweep(s, ds, root, seen, now))
  {
    SweepKeeps(s, ds, root, seen, now);
    SweepGrows(s, ds, root, seen, now);
    SweepAccounts(s, ds, root, seen, now);
  }

  lemma SyncIsGood(s: Store, ds: string)
    requires Good(s)
    ensures var t := Sync(s, ds);
            Good(t) && t.registry.Some? && t.registry.value.chunkCount == SumCounts(t.rows, ds)
  {
    RegistryTotals(s, ds);
    RelabellingAccounts(s, Sync(s, ds));
  }

  // ---------- Reruns ----------

  /** The disk lets an attempt leave a row behind: the bytes are or get copied, and a failure is recorded. */
  predicate Recorded(s: Store, f: SourceFile) {
    f.checksum.Some? && CopySucceeds(s.raw, f, f.checksum.value) && (Accepted(f) || !f.recordFault)
  }

  /** A readable file adds a version exactly when its current row does not already hold this content, or a reset
      is asked for, and the attempt can leave a row behind. */
  lemma StepAddsIff(s: Store, ds: string, root: string, reset: bool, f: SourceFile, now: int)
    requires RowsInv(s.rows) && Honest(s.rows) && f.checksum.Some?
    ensures |FileStep(s, ds, root, reset, f, now).rows| == |s.rows| +
      if (!reset && Settled(s, ds, LogicalOf(ds, f), f.checksum.value)) || !Recorded(s, f) then 0 else 1
  {
    var c := f.checksum.value;
    RegisteredIsFresh(s.rows, ds, root, f, c, RawTarget(s.raw, f.name, c), now);
  }

  lemma AddsVersionIff(s: Store, ds: string, root: string, f: SourceFile, now: int)
    requires RowsInv(s.rows) && Honest(s.rows) && f.checksum.Some?
    ensures |FileStep(s, ds, root, false, f, now).rows| ==
            |s.rows| + if Settled(s, ds, LogicalOf(ds, f), f.checksum.value) || !Recorded(s, f) then 0 else 1
  {
    StepAddsIff(s, ds, root, false, f, now);
  }

  predicate SettlesHere(s: Store, ds: string, reset: bool, f: SourceFile)
    requires f.checksum.Some?
  {
    var settled := Settled(s, ds, LogicalOf(ds, f), f.checksum.value);
    if Accepted(f) && CopySucceeds(s.raw, f, f.checksum.value) && (reset || !settled)
    then AcceptedStatus(f) != ReviewRequired else settled
  }

  /** What being settled means once the current row is known. */
  lemma SettledAt(s: Store, ds: string, lg: LogicalId, i: nat, c: Checksum)
    requires RowsInv(s.rows) && RawIntact(s)
    requires i < |s.rows| && SameDoc(s.rows[i], ds, lg) && Live(s.rows[i])
    ensures Settled(s, ds, lg, c) <==>
              s.rows[i].checksum == c && (s.rows[i].status == Indexed || s.rows[i].status == NeedsOcr)
  {
    OnlyCurrent(s.rows, ds, lg, i);
  }

  /** The row that is current after an attempt, and its place. */
  lemma CurrentAfterAttempt(s: Store, ds: string, root: string, f: SourceFile, c: Checksum, now: int) returns (i: nat)
    requires RowsInv(s.rows) && Honest(s.rows) && f.checksum == Some(c) && Recorded(s, f)
    ensures var lg, t := LogicalOf(ds, f), Attempt(s, ds, root, f, c, now);
      && i < |t.rows| && SameDoc(t.rows[i], ds, lg) && Live(t.rows[i])
      && if Accepted(f) then t.rows[i].checksum == c && t.rows[i].status == AcceptedStatus(f)
         else match Current(s.rows, ds, lg)
              case None => t.rows[i].status == Failed
              case Some(j) => i == j && t.rows[i] == s.rows[j]
  {
    var lg := LogicalOf(ds, f);
    RegisteredIsFresh(s.rows, ds, root, f, c, RawTarget(s.raw, f.name, c), now);
    var cur := Current(s.rows, ds, lg);
    i := if Accepted(f) || cur.None? then |s.rows| else cur.value;
  }

  lemma SettledAfter(s: Store, ds: string, root: string, reset: bool, f: SourceFile, now: int)
    requires RowsInv(s.rows) && Honest(s.rows) && RawIntact(s) && f.checksum.Some?
    ensures Settled(FileStep(s, ds, root, reset, f, now), ds, LogicalOf(ds, f), f.checksum.value)
            <==> SettlesHere(s, ds, reset, f)
  {
    var lg, c, t := LogicalOf(ds, f), f.checksum.value, FileStep(s, ds, root, reset, f, now);
    var cur := Current(s.rows, ds, lg);
    FileStepKeeps(s, ds, root, reset, f, now);
    FileStepKeepsRaw(s, ds, root, reset, f, now);
    if cur.Some? {
      SettledAt(s, ds, lg, cur.value, c);
    }
    if !reset && Settled(s, ds, lg, c) {
      SettledAt(t, ds, lg, cur.value, c);
    } else if Recorded(s, f) {
      var i := CurrentAfterAttempt(s, ds, root, f, c, now);
      SettledAt(t, ds, lg, i, c);
    } else {
      assert t.rows == s.rows;
      if cur.Some? {
        SettledAt(t, ds, lg, cur.value, c);
      }
    }
  }

  /** Other files do not disturb whether a document is settled. */
  lemma SettledFrame(
    s: Store, ds: string, root: string, reset: bool, f: SourceFile, now: int, lg: LogicalId, c: Checksum)
    requires RowsInv(s.rows) && RawIntact(s) && lg != LogicalOf(ds, f)
    ensures Settled(FileStep(s, ds, root, reset, f, now), ds, lg, c) <==> Settled(s, ds, lg, c)
  {
    var t := FileStep(s, ds, root, reset, f, now);
    var cur := Current(s.rows, ds, lg);
    FileStepKeeps(s, ds, root, reset, f, now);
    FileStepKeepsRaw(s, ds, root, reset, f, now);
    if cur.Some? {
      FileStepFrame(s, ds, root, reset, f, now, cur.value);
      OnlyCurrent(t.rows, ds, lg, cur.value);
    } else {
      NoneStaysNone(s, ds, root, reset, f, now, lg);
    }
  }

  lemma NoneStaysNone(s: Store, ds: string, root: string, reset: bool, f: SourceFile, now: int, lg: LogicalId)
    requires Current(s.rows, ds, lg).None? && lg != LogicalOf(ds, f)
    ensures Current(FileStep(s, ds, root, reset, f, now).rows, ds, lg).None?
  {
    var t := FileStep(s, ds, root, reset, f, now);
    var best := Current(t.rows, ds, lg);
    if best.Some? && best.value < |s.rows| {
      var i := best.value;
      FileStepGrows(s, ds, root, reset, f, now);
      if !SameDoc(s.rows[i], ds, LogicalOf(ds, f)) {
        FileStepFrame(s, ds, root, reset, f, now, i);
      }
    }
  }

  predicate DistinctFiles(ds: string, files: seq<SourceFile>) {
    forall i, j :: 0 <= i < j < |files| ==> LogicalOf(ds, files[i]) != LogicalOf(ds, files[j])
  }

  predicate NotAmong(ds: string, files: seq<SourceFile>, n: nat, lg: LogicalId) {
    forall i :: n <= i < |files| ==> OtherAt(ds, files, i, lg)
  }

  predicate OtherAt(ds: string, files: seq<SourceFile>, i: nat, lg: LogicalId)
    requires i < |files|
  {
    LogicalOf(ds, files[i]) != lg
  }

  /** Only the files before `n` decide whether a document is settled when no later file is its own. */
  lemma {:induction false} SettledSuffix(
    s: Store, ds: string, root: string, reset: bool, files: seq<SourceFile>, now: int, n: nat, lg: LogicalId,
    c: Checksum)
    requires RowsInv(s.rows) && RawIntact(s) && n <= |files| && NotAmong(ds, files, n, lg)
    ensures Settled(Scan(s, ds, root, reset, files, now), ds, lg, c)
            <==> Settled(Scan(s, ds, root, reset, files[..n], now), ds, lg, c)
    decreases |files|
  {
    if n == |files| {
      assert files[..n] == files;
    } else {
      var last := |files| - 1;
      var init := files[..last];
      forall i | n <= i < |init| ensures OtherAt(ds, init, i, lg) {
        assert OtherAt(ds, files, i, lg);
      }
      assert OtherAt(ds, files, last, lg);
      SettledSuffix(s, ds, root, reset, init, now, n, lg, c);
      assert init[..n] == files[..n];
      OtherFileSettles(s, ds, root, reset, init, files[last], now, lg, c);
    }
  }

  lemma OtherFileSettles(
    s: Store, ds: string, root: string, reset: bool, init: seq<SourceFile>, f: SourceFile, now: int, lg: LogicalId,
    c: Checksum)
    requires RowsInv(s.rows) && RawIntact(s) && LogicalOf(ds, f) != lg
    ensures var u := Scan(s, ds, root, reset, init, now);
            Settled(FileStep(u, ds, root, reset, f, now), ds, lg, c) <==> Settled(u, ds, lg, c)
  {
    ScanGrows(s, ds, root, reset, init, now);
    SettledFrame(Scan(s, ds, root, reset, init, now), ds, root, reset, f, now, lg, c);
  }

  lemma ScanSettles(
    s: Store, ds: string, root: string, reset: bool, files: seq<SourceFile>, now: int, k: nat)
    requires RowsInv(s.rows) && Honest(s.rows) && RawIntact(s)
    requires DistinctFiles(ds, files) && k < |files| && files[k].checksum.Some?
    ensures Settled(Scan(s, ds, root, reset, files, now), ds, LogicalOf(ds, files[k]), files[k].checksum.value)
            <==> SettlesHere(Scan(s, ds, root, reset, files[..k], now), ds, reset, files[k])
  {
    var f, upTo := files[k], files[..k + 1];
    assert NotAmong(ds, files, k + 1, LogicalOf(ds, f));
    SettledSuffix(s, ds, root, reset, files, now, k + 1, LogicalOf(ds, f), f.checksum.value);
    assert upTo[..|upTo| - 1] == files[..k] && upTo[|upTo| - 1] == f;
    ScanGrows(s, ds, root, reset, files[..k], now);
    SettledAfter(Scan(s, ds, root, reset, files[..k], now), ds, root, reset, f, now);
  }

  /** The sweep does not unsettle a document that was seen. */
  lemma SweepSettled(s: Store, ds: string, root: string, seen: set<LogicalId>, now: int, lg: LogicalId, c: Checksum)
    requires RowsInv(s.rows) && lg in seen
    ensures Settled(Sweep(s, ds, root, seen, now), ds, lg, c) <==> Settled(s, ds, lg, c)
  {
    var t := Sweep(s, ds, root, seen, now);
    SweepKeeps(s, ds, root, seen, now);
    var cur, cur' := Current(s.rows, ds, lg), Current(t.rows, ds, lg);
    if cur.Some? {
      OnlyCurrent(t.rows, ds, lg, cur.value);
    }
  }

  /** The same path and content as before; what the environment answers this time is free. */
  predicate Unchanged(f: SourceFile, g: SourceFile) {
    Normalize(f.relpath) == Normalize(g.relpath) && f.checksum == g.checksum
  }

  /** What a whole run leaves: sound rows, and a file settled exactly when its own step settled it. */
  lemma RunSettles(
    s: Store, ds: string, root: string, reset: bool, files: seq<SourceFile>, now: int, k: nat)
    requires RowsInv(s.rows) && Honest(s.rows) && RawIntact(s)
    requires DistinctFiles(ds, files) && k < |files| && files[k].checksum.Some?
    ensures var t := RunOver(s, ds, root, reset, files, now);
      && RowsInv(t.rows) && Honest(t.rows) && RawIntact(t)
      && (Settled(t, ds, LogicalOf(ds, files[k]), files[k].checksum.value)
          <==> SettlesHere(Scan(s, ds, root, reset, files[..k], now), ds, reset, files[k]))
  {
    var u, seen := Scan(s, ds, root, reset, files, now), Seen(ds, files);
    ScanGrows(s, ds, root, reset, files, now);
    ScanSettles(s, ds, root, reset, files, now, k);
    assert LogicalOf(ds, files[k]) in seen by { assert files[k] in files; }
    SweepSettled(u, ds, root, seen, now, LogicalOf(ds, files[k]), files[k].checksum.value);
    SweepKeeps(u, ds, root, seen, now);
    SweepGrows(u, ds, root, seen, now);
  }

  /** A second, non-reset run over unchanged files adds a version for a readable file exactly when the
      first run did not leave that very content parsed as the current version and the attempt can leave a
      row behind. */
  lemma RerunAddsVersionIff(
    s: Store, ds: string, root: string, reset: bool, first: seq<SourceFile>, now: int,
    second: seq<SourceFile>, later: int, k: nat)
    requires RowsInv(s.rows) && Honest(s.rows) && RawIntact(s)
    requires DistinctFiles(ds, first) && |second| == |first| && k < |first|
    requires forall i :: 0 <= i < |first| ==> Unchanged(first[i], second[i])
    requires first[k].checksum.Some?
    ensures var before := Scan(RunOver(s, ds, root, reset, first, now), ds, root, false, second[..k], later);
            |FileStep(before, ds, root, false, second[k], later).rows| == |before.rows|
              + if SettlesHere(Scan(s, ds, root, reset, first[..k], now), ds, reset, first[k])
                   || !Recorded(before, second[k]) then 0 else 1
  {
    var lg, c := LogicalOf(ds, first[k]), first[k].checksum.value;
    var s1 := RunOver(s, ds, root, reset, first, now);
    RunSettles(s, ds, root, reset, first, now, k);
    forall i | 0 <= i < |second[..k]| ensures OtherAt(ds, second[..k], i, lg) {
      assert Unchanged(first[i], second[i]) && LogicalOf(ds, first[i]) != LogicalOf(ds, first[k]);
    }
    SettledSuffix(s1, ds, root, false, second[..k], later, 0, lg, c);
    ScanGrows(s1, ds, root, false, second[..k], later);
    assert Unchanged(first[k], second[k]);
    AddsVersionIff(Scan(s1, ds, root, false, second[..k], later), ds, root, second[k], later);
  }

  // ---------- Conflicts ----------

  const OURS := Classification(false, CLASSIFIER_VERSION, "other")

  function IndexedFile(path: string): SourceFile {
    SourceFile(path, path, true, Some(1), CopyOk, OURS, OURS, Parsed(1, []), NoFault, false)
  }

  /** The file after a change that its parser rejects. */
  function RejectedFile(path: string): SourceFile {
    IndexedFile(path).(checksum := Some(2), outcome := ParserRaised(0, [], false))
  }

  lemma FirstIndexed(ds: string, root: string, path: string, now: int)
    ensures var s := FileStep(EmptyStore, ds, root, false, IndexedFile(path), now);
            && |s.rows| == 1 && RowsInv(s.rows) && Honest(s.rows) && s.raw == map[Plain(path) := 1]
            && Current(s.rows, ds, LogicalOf(ds, IndexedFile(path))) == Some(0)
            && s.rows[0].status == Indexed && s.rows[0].checksum == 1
  {
    var f := IndexedFile(path);
    var s := FileStep(EmptyStore, ds, root, false, f, now);
    AddsVersionIff(EmptyStore, ds, root, f, now);
    FileStepKeeps(EmptyStore, ds, root, false, f, now);
    FileStepGrows(EmptyStore, ds, root, false, f, now);
    var i := CurrentAfterAttempt(EmptyStore, ds, root, f, 1, now);
    OnlyCurrent(s.rows, ds, LogicalOf(ds, f), i);
  }

  /** No searchable document is classified as belonging to another company. */
  ghost predicate NoForeignSearchable(rows: seq<Row>) {
    forall i :: 0 <= i < |rows| && Searchable(rows[i]) ==> !rows[i].classification.conflict
  }

  /** Reusing a row with an outdated classifier stores the fresh verdict but does not withdraw the row. */
  predicate RefreshFlags(s: Store, ds: string, reset: bool, f: SourceFile) {
    && f.checksum.Some? && !reset && Settled(s, ds, LogicalOf(ds, f), f.checksum.value)
    && var r := s.rows[Current(s.rows, ds, LogicalOf(ds, f)).value];
       r.status == Indexed && r.classification.classifier != CLASSIFIER_VERSION && f.refreshed.conflict
  }

  /** A file step keeps conflicting documents out of the search index except in exactly that case. */
  lemma ConflictsStayOutIff(s: Store, ds: string, root: string, reset: bool, f: SourceFile, now: int)
    requires NoForeignSearchable(s.rows)
    ensures NoForeignSearchable(FileStep(s, ds, root, reset, f, now).rows) <==> !RefreshFlags(s, ds, reset, f)
  {
    var t := FileStep(s, ds, root, reset, f, now);
    if RefreshFlags(s, ds, reset, f) {
      var i := Current(s.rows, ds, LogicalOf(ds, f)).value;
      assert Searchable(t.rows[i]) && t.rows[i].classification.conflict;
    }
  }

  /** A company's own report, indexed under an older classifier. */
  function ReusedRow(ds: string, path: string): Row {
    Row(GivenDoc("d"), ds, Some(PathDigest(ds, Normalize(path))), 1, None, true, Active, path, None, Normalize(path),
      Plain(path), true, true, Classification(false, "v1", "other"), 1, Indexed, 0, 0, Null, Null)
  }

  /** A sound store and a file on which the refresh leaves a foreign document searchable. */
  lemma RefreshExample(ds: string, root: string, path: string, now: int)
    ensures var s := Store([ReusedRow(ds, path)], [], [], map[Plain(path) := 1], None);
            var f := IndexedFile(path).(refreshed := Classification(true, CLASSIFIER_VERSION, "other"));
            && RowsInv(s.rows) && NoForeignSearchable(s.rows) && RefreshFlags(s, ds, false, f)
            && !NoForeignSearchable(FileStep(s, ds, root, false, f, now).rows)
  {
    var s := Store([ReusedRow(ds, path)], [], [], map[Plain(path) := 1], None);
    var f := IndexedFile(path).(refreshed := Classification(true, CLASSIFIER_VERSION, "other"));
    NormalizeIsCanonical(path);
    assert RowOk(s.rows[0]) && LinkedAt(s.rows, 0);
    OnlyCurrent(s.rows, ds, LogicalOf(ds, f), 0);
    ConflictsStayOutIff(s, ds, root, false, f, now);
  }
}
