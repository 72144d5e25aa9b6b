/** Payload accounting: chunk counts, owners, intact raw copies, savepoint atomicity, and the registry total. */
module LedgerAccounting {
  import opened Options
  import opened LedgerModel
  import opened LedgerSpec
  import opened LedgerInvariant
  import opened Migration

  predicate OwnsNoChunks(status: Status) {
    status == Failed || status == NeedsOcr || status == ReviewRequired
  }

  ghost predicate Balanced(s: Store, r: Row) {
    && r.chunkCount == |ChunksOf(s.chunks, r.docId)|
    && (OwnsNoChunks(r.status) ==> r.chunkCount == 0)
    && (r.status == Failed || r.status == ReviewRequired ==> !HasPages(s.pages, r.docId))
  }

  ghost predicate OwnedBy(rows: seq<Row>, ds: string, id: DocId) {
    exists i :: 0 <= i < |rows| && rows[i].docId == id && rows[i].dataset == ds
  }

  ghost predicate Accounts(s: Store) {
    AllBalanced(s) && ChunksOwned(s) && PagesOwned(s)
  }

  ghost predicate AllBalanced(s: Store) {
    BalancedUpTo(s, |s.rows|)
  }

  ghost predicate BalancedUpTo(s: Store, n: nat)
    requires n <= |s.rows|
  {
    forall i :: 0 <= i < n ==> Balanced(s, s.rows[i])
  }

  ghost predicate ChunksOwned(s: Store) {
    forall k :: 0 <= k < |s.chunks| ==> OwnedBy(s.rows, s.chunks[k].dataset, s.chunks[k].docId)
  }

  ghost predicate PagesOwned(s: Store) {
    forall k :: 0 <= k < |s.pages| ==> !Fresh(s.rows, s.pages[k].docId)
  }

  // ---------- Chunk rows of one document ----------

  lemma {:induction false} ChunksOfAppend(a: seq<ChunkRow>, b: seq<ChunkRow>, id: DocId)
    ensures ChunksOf(a + b, id) == ChunksOf(a, id) + ChunksOf(b, id)
  {
    if b == [] {
      assert a + b == a;
    } else {
      var last := |b| - 1;
      assert (a + b)[..|a + b| - 1] == a + b[..last];
      ChunksOfAppend(a, b[..last], id);
    }
  }

  lemma {:induction false} ChunksOfUniform(b: seq<ChunkRow>, owner: DocId, id: DocId)
    requires forall k :: 0 <= k < |b| ==> b[k].docId == owner
    ensures ChunksOf(b, id) == if id == owner then b else []
  {
    if b != [] {
      ChunksOfUniform(b[..|b| - 1], owner, id);
      assert b == b[..|b| - 1] + [b[|b| - 1]];
    }
  }

  // ---------- Every step keeps the accounts ----------

  lemma OwnersSurvive(s: Store, t: Store)
    requires Grows(s, t)
    ensures forall ds, id :: OwnedBy(s.rows, ds, id) ==> OwnedBy(t.rows, ds, id)
    ensures forall id :: Fresh(t.rows, id) ==> Fresh(s.rows, id)
  {
    forall ds, id | OwnedBy(s.rows, ds, id) ensures OwnedBy(t.rows, ds, id) {
      var i :| 0 <= i < |s.rows| && s.rows[i].docId == id && s.rows[i].dataset == ds;
      assert Frozen(s.rows[i], t.rows[i]);
    }
    forall id | Fresh(t.rows, id) ensures Fresh(s.rows, id) {
      forall j | 0 <= j < |s.rows| ensures s.rows[j].docId != id {
        assert Frozen(s.rows[j], t.rows[j]);
      }
    }
  }

  lemma {:induction false} ChunksOfForeign(b: seq<ChunkRow>, id: DocId)
    requires forall k :: 0 <= k < |b| ==> b[k].docId != id
    ensures ChunksOf(b, id) == []
  {
    if b != [] {
      ChunksOfForeign(b[..|b| - 1], id);
    }
  }

  /** Old rows stay balanced when only payload of new documents is appended. */
  lemma GrowthKeepsBalance(s: Store, t: Store, i: nat)
    requires Accounts(s) && Grows(s, t) && i < |s.rows|
    ensures Balanced(t, t.rows[i])
  {
    assert Balanced(s, s.rows[i]) && Frozen(s.rows[i], t.rows[i]);
    ChunksStay(s, t, i);
    PagesStay(s, t, i);
  }

  lemma ChunksStay(s: Store, t: Store, i: nat)
    requires Grows(s, t) && i < |s.rows|
    ensures ChunksOf(t.chunks, s.rows[i].docId) == ChunksOf(s.chunks, s.rows[i].docId)
  {
    var id, n := s.rows[i].docId, |s.chunks|;
    forall k | n <= k < |t.chunks| ensures t.chunks[k].docId != id {
      assert Fresh(s.rows, t.chunks[k].docId);
    }
    ForeignSuffix(t.chunks, n, id);
    assert t.chunks[..n] == s.chunks;
  }

  lemma {:induction false} ForeignSuffix(chunks: seq<ChunkRow>, n: nat, id: DocId)
    requires n <= |chunks| && forall k :: n <= k < |chunks| ==> chunks[k].docId != id
    ensures ChunksOf(chunks, id) == ChunksOf(chunks[..n], id)
  {
    if n < |chunks| {
      var init := chunks[..|chunks| - 1];
      ForeignSuffix(init, n, id);
      assert init[..n] == chunks[..n];
    } else {
      assert chunks[..n] == chunks;
    }
  }

  lemma PagesStay(s: Store, t: Store, i: nat)
    requires Grows(s, t) && i < |s.rows|
    ensures HasPages(t.pages, s.rows[i].docId) ==> HasPages(s.pages, s.rows[i].docId)
  {
    var id := s.rows[i].docId;
    if HasPages(t.pages, id) {
      var k :| 0 <= k < |t.pages| && t.pages[k].docId == id;
      assert k < |s.pages| by {
        assert k >= |s.pages| ==> Fresh(s.rows, t.pages[k].docId);
      }
      assert s.pages[k] == t.pages[k];
    }
  }

  /** A step that appends nothing keeps the accounts. */
  lemma RelabellingAccounts(s: Store, t: Store)
    requires Accounts(s) && Grows(s, t)
    requires |t.rows| == |s.rows| && t.chunks == s.chunks && t.pages == s.pages
    ensures Accounts(t)
  {
    OwnersSurvive(s, t);
    GrowthBalances(s, t);
  }

  /** So does one that appends a row together with exactly the payload the row declares. */
  lemma AppendAccounts(s: Store, t: Store, row: Row, chunks: seq<ChunkRow>, pages: seq<PageRow>)
    requires Accounts(s) && Grows(s, t) && Fresh(s.rows, row.docId)
    requires |t.rows| == |s.rows| + 1 && t.rows[|s.rows|] == row
    requires t.chunks == s.chunks + chunks && t.pages == s.pages + pages
    requires forall k :: 0 <= k < |chunks| ==> chunks[k].docId == row.docId && chunks[k].dataset == row.dataset
    requires forall k :: 0 <= k < |pages| ==> pages[k].docId == row.docId
    requires row.chunkCount == |chunks| && (OwnsNoChunks(row.status) ==> chunks == [])
    requires row.status == Failed || row.status == ReviewRequired ==> pages == []
    ensures Accounts(t)
  {
    GrowthBalances(s, t);
    NewRowBalanced(s, t, row, chunks, pages);
    BalancedSnoc(t, |s.rows|, row);
    NewChunksOwned(s, t, row, chunks);
    NewPagesOwned(s, t, row, pages);
  }

  lemma BalancedSnoc(t: Store, n: nat, row: Row)
    requires |t.rows| == n + 1 && t.rows[n] == row && BalancedUpTo(t, n) && Balanced(t, row)
    ensures AllBalanced(t)
  {
    forall i | 0 <= i < n + 1 ensures Balanced(t, t.rows[i]) {
    }
  }

  lemma GrowthBalances(s: Store, t: Store)
    requires Accounts(s) && Grows(s, t)
    ensures BalancedUpTo(t, |s.rows|)
  {
    forall i: nat | i < |s.rows| ensures Balanced(t, t.rows[i]) {
      GrowthKeepsBalance(s, t, i);
    }
  }

  lemma NewPagesOwned(s: Store, t: Store, row: Row, pages: seq<PageRow>)
    requires Accounts(s) && Grows(s, t) && |t.rows| == |s.rows| + 1 && t.rows[|s.rows|] == row
    requires t.pages == s.pages + pages && forall k :: 0 <= k < |pages| ==> pages[k].docId == row.docId
    ensures PagesOwned(t)
  {
    OwnersSurvive(s, t);
    forall k | 0 <= k < |t.pages| ensures !Fresh(t.rows, t.pages[k].docId) {
      if k >= |s.pages| {
        assert t.pages[k] == pages[k - |s.pages|];
        assert t.rows[|s.rows|].docId == t.pages[k].docId;
      }
    }
  }

  lemma NewChunksOwned(s: Store, t: Store, row: Row, chunks: seq<ChunkRow>)
    requires Accounts(s) && Grows(s, t) && |t.rows| == |s.rows| + 1 && t.rows[|s.rows|] == row
    requires t.chunks == s.chunks + chunks
    requires forall k :: 0 <= k < |chunks| ==> chunks[k].docId == row.docId && chunks[k].dataset == row.dataset
    ensures ChunksOwned(t)
  {
    OwnersSurvive(s, t);
    forall k | 0 <= k < |t.chunks| ensures OwnedBy(t.rows, t.chunks[k].dataset, t.chunks[k].docId) {
      if k < |s.chunks| {
        assert OwnedBy(s.rows, s.chunks[k].dataset, s.chunks[k].docId);
      } else {
        assert t.chunks[k] == chunks[k - |s.chunks|];
        assert t.rows[|s.rows|] == row;
      }
    }
  }

  lemma NewRowBalanced(s: Store, t: Store, row: Row, chunks: seq<ChunkRow>, pages: seq<PageRow>)
    requires Accounts(s) && Fresh(s.rows, row.docId)
    requires t.chunks == s.chunks + chunks && t.pages == s.pages + pages
    requires forall k :: 0 <= k < |chunks| ==> chunks[k].docId == row.docId
    requires row.chunkCount == |chunks| && (OwnsNoChunks(row.status) ==> chunks == [])
    requires row.status == Failed || row.status == ReviewRequired ==> pages == []
    ensures Balanced(t, row)
  {
    forall k | 0 <= k < |s.chunks| ensures s.chunks[k].docId != row.docId {
      assert OwnedBy(s.rows, s.chunks[k].dataset, s.chunks[k].docId);
    }
    ChunksOfForeign(s.chunks, row.docId);
    ChunksOfAppend(s.chunks, chunks, row.docId);
    ChunksOfUniform(chunks, row.docId, row.docId);
  }

  lemma FileStepAccounts(s: Store, ds: string, root: string, reset: bool, f: SourceFile, now: int)
    requires Accounts(s)
    ensures Accounts(FileStep(s, ds, root, reset, f, now))
  {
    if f.checksum.Some? {
      var c := f.checksum.value;
      if !reset && Settled(s, ds, LogicalOf(ds, f), c) {
        FileStepGrows(s, ds, root, reset, f, now);
        RelabellingAccounts(s, FileStep(s, ds, root, reset, f, now));
      } else {
        var row := Registered(s.rows, ds, root, f, c, RawTarget(s.raw, f.name, c), now);
        AttemptAccounts(s, ds, LogicalOf(ds, f), row, f, c, now);
      }
    }
  }

  lemma AttemptAccounts(s: Store, ds: string, lg: LogicalId, row: Row, f: SourceFile, c: Checksum, now: int)
    requires Accounts(s) && row.dataset == ds && row.chunkCount == 0
    ensures Accounts(AttemptRow(s, ds, lg, row, f, c, now))
  {
    var t := AttemptRow(s, ds, lg, row, f, c, now);
    AttemptRowGrows(s, ds, lg, row, f, c, now);
    if |t.rows| == |s.rows| {
      RelabellingAccounts(s, t);
    } else if Accepted(f) {
      AcceptedAccounts(s, ds, lg, row, f, c, now);
    } else {
      RecordedAccounts(s, t);
    }
  }

  /** A row without payload, as a recorded failure is. */
  lemma RecordedAccounts(s: Store, t: Store)
    requires Accounts(s) && Grows(s, t) && |t.rows| == |s.rows| + 1 && t.chunks == s.chunks && t.pages == s.pages
    requires Fresh(s.rows, t.rows[|s.rows|].docId) && t.rows[|s.rows|].chunkCount == 0
    ensures Accounts(t)
  {
    AppendAccounts(s, t, t.rows[|s.rows|], [], []);
  }

  lemma AcceptedAccounts(s: Store, ds: string, lg: LogicalId, row: Row, f: SourceFile, c: Checksum, now: int)
    requires Accounts(s) && row.dataset == ds && Accepted(f) && CopySucceeds(s.raw, f, c) && Fresh(s.rows, row.docId)
    requires Grows(s, AttemptRow(s, ds, lg, row, f, c, now))
    ensures Accounts(AttemptRow(s, ds, lg, row, f, c, now))
  {
    var r := Activated(row, AcceptedStatus(f), |AcceptedChunks(f)|, now);
    AppendAccounts(s, AttemptRow(s, ds, lg, row, f, c, now), r, LinkedChunks(ds, row.docId, AcceptedChunks(f)),
      PageRows(row.docId, AcceptedPages(f)));
  }

  lemma SweepAccounts(s: Store, ds: string, root: string, seen: set<LogicalId>, now: int)
    requires Accounts(s)
    ensures Accounts(Sweep(s, ds, root, seen, now))
  {
    SweepGrows(s, ds, root, seen, now);
    RelabellingAccounts(s, Sweep(s, ds, root, seen, now));
  }

  /** The migration gives a row with a legacy status the status `failed` although it owns pages. */
  predicate FailsWithPages(s: Store, r: Row) {
    LegacyStatus(r.status) && !r.isPdf && r.chunkCount == 0 && HasPages(s.pages, r.docId)
  }

  ghost predicate PagesFit(s: Store) {
    forall i :: 0 <= i < |s.rows| ==> !FailsWithPages(s, s.rows[i])
  }

  /** The migration keeps the accounts exactly when no page row belongs to a document that is neither a
      PDF nor has chunks and whose legacy status it must replace. */
  lemma MigrationAccounts(s: Store, names: Names, now: int, t: Store)
    requires Accounts(s) && Migrates(s, names, now, t)
    ensures Accounts(t) <==> PagesFit(s)
  {
    forall i: nat | i < |s.rows| ensures Balanced(t, t.rows[i]) <==> !FailsWithPages(s, s.rows[i]) {
      MigratedBalance(s, names, now, t, i);
    }
    forall k | 0 <= k < |t.chunks| ensures OwnedBy(t.rows, t.chunks[k].dataset, t.chunks[k].docId) {
      MigratedOwner(s, names, now, t, t.chunks[k].dataset, t.chunks[k].docId);
    }
    forall k | 0 <= k < |t.pages| ensures !Fresh(t.rows, t.pages[k].docId) {
      var i: nat :| i < |s.rows| && s.rows[i].docId == s.pages[k].docId;
      MigratedOwner(s, names, now, t, s.rows[i].dataset, s.pages[k].docId);
    }
  }

  lemma MigratedBalance(s: Store, names: Names, now: int, t: Store, i: nat)
    requires Migrates(s, names, now, t) && i < |s.rows| && Balanced(s, s.rows[i])
    ensures Balanced(t, t.rows[i]) <==> !FailsWithPages(s, s.rows[i])
  {
    assert RebuiltAt(s, names, now, i, t.rows[i]);
  }

  lemma MigratedOwner(s: Store, names: Names, now: int, t: Store, ds: string, id: DocId)
    requires Migrates(s, names, now, t) && OwnedBy(s.rows, ds, id)
    ensures OwnedBy(t.rows, ds, id) && !Fresh(t.rows, id)
  {
    var i: nat :| i < |s.rows| && s.rows[i].docId == id && s.rows[i].dataset == ds;
    assert RebuiltAt(s, names, now, i, t.rows[i]);
  }

  /** One page row of a deleted document that is neither a PDF nor has chunks. */
  function LegacyPages(): Store {
    var s := OneRow(Removed, At(1));
    s.(rows := [s.rows[0].(isPdf := false, status := LegacyRemoved)], pages := [PageRow(GivenDoc("d"), 1)])
  }

  /** A sound, repairable table whose accounts the migration upsets: a failed row is left with a page. */
  lemma PagesExample(names: Names, now: int, t: Store)
    requires Migrates(LegacyPages(), names, now, t)
    ensures Accounts(LegacyPages()) && DistinctIds(LegacyPages().rows) && Repairable(LegacyPages(), names)
    ensures t.rows[0].status == Failed && t.pages == LegacyPages().pages && !Accounts(t)
  {
    var s := LegacyPages();
    assert s.pages[0].docId == s.rows[0].docId;
    assert OwnedBy(s.rows, "ds", GivenDoc("d"));
    assert FailsWithPages(s, s.rows[0]);
    assert !Chosen(s.rows, names, 0);
    assert RebuiltAt(s, names, now, 0, t.rows[0]);
    MigrationAccounts(s, names, now, t);
  }

  // ---------- Savepoint atomicity ----------

  /** An attempt that raises anywhere leaves the current version and every stored payload as they
      were, whatever the parser wrote before raising. */
  lemma FailureKeepsCurrent(s: Store, ds: string, root: string, reset: bool, f: SourceFile, now: int)
    requires f.checksum.Some? && !Accepted(f)
    requires Current(s.rows, ds, LogicalOf(ds, f)).Some?
    requires reset || !Settled(s, ds, LogicalOf(ds, f), f.checksum.value)
    ensures var t := FileStep(s, ds, root, reset, f, now);
            && s.rows <= t.rows && |t.rows| <= |s.rows| + 1
            && (|t.rows| == |s.rows| + 1 ==> IsFailedAttempt(t.rows[|s.rows|]))
            && t.chunks == s.chunks && t.pages == s.pages && t.registry == s.registry
            && Current(t.rows, ds, LogicalOf(ds, f)) == Current(s.rows, ds, LogicalOf(ds, f))
  {
    var t := FileStep(s, ds, root, reset, f, now);
    if |t.rows| > |s.rows| {
      assert t.rows[..|t.rows| - 1] == s.rows;
    }
  }

  /** A bare record of a failure. */
  predicate IsFailedAttempt(r: Row) {
    r.status == Failed && r.lifecycle == FailedAttempt && !r.current && r.chunkCount == 0
  }

  // ---------- Raw copies ----------

  /** Every version's raw copy still holds the bytes it was registered with. */
  ghost predicate RawIntact(s: Store) {
    RowsIntact(s.rows, s.raw)
  }

  ghost predicate RowsIntact(rows: seq<Row>, raw: map<RawName, Checksum>) {
    forall i :: 0 <= i < |rows| ==> Intact(rows[i], raw)
  }

  predicate Intact(r: Row, raw: map<RawName, Checksum>) {
    Holds(raw, r.stored, r.checksum) && (r.stored.Suffixed? ==> r.stored.checksum == r.checksum)
  }

  /** Copying a new file in, even when the copy breaks off half way, overwrites no version's raw file. */
  lemma CopyOverwritesNothing(s: Store, f: SourceFile, c: Checksum)
    requires RawIntact(s)
    ensures RowsIntact(s.rows, RawAfter(s.raw, f, c))
    ensures CopySucceeds(s.raw, f, c) ==> Holds(RawAfter(s.raw, f, c), RawTarget(s.raw, f.name, c), c)
  {
  }

  lemma FileStepKeepsRaw(s: Store, ds: string, root: string, reset: bool, f: SourceFile, now: int)
    requires RawIntact(s)
    ensures RawIntact(FileStep(s, ds, root, reset, f, now))
  {
    if f.checksum.Some? {
      var c := f.checksum.value;
      if reset || !Settled(s, ds, LogicalOf(ds, f), c) {
        var row := Registered(s.rows, ds, root, f, c, RawTarget(s.raw, f.name, c), now);
        AttemptKeepsRaw(s, ds, LogicalOf(ds, f), row, f, c, now);
      }
    }
  }

  lemma AttemptKeepsRaw(s: Store, ds: string, lg: LogicalId, row: Row, f: SourceFile, c: Checksum, now: int)
    requires RawIntact(s) && row.stored == RawTarget(s.raw, f.name, c) && row.checksum == c
    ensures RawIntact(AttemptRow(s, ds, lg, row, f, c, now))
  {
    CopyOverwritesNothing(s, f, c);
    var raw := RawAfter(s.raw, f, c);
    if CopySucceeds(s.raw, f, c) {
      RetireIntact(s.rows, raw, ds, lg, now);
      SnocIntact(Retire(s.rows, ds, lg, now), raw, Activated(row, AcceptedStatus(f), |AcceptedChunks(f)|, now));
      SnocIntact(Retire(s.rows, ds, lg, now), raw, Activated(row, Failed, 0, now));
      SnocIntact(s.rows, raw, row.(status := Failed, lifecycle := FailedAttempt, deleted := At(now)));
    }
  }

  lemma RetireIntact(rows: seq<Row>, raw: map<RawName, Checksum>, ds: string, lg: LogicalId, now: int)
    requires RowsIntact(rows, raw)
    ensures RowsIntact(Retire(rows, ds, lg, now), raw)
  {
    forall i | 0 <= i < |rows| ensures Intact(Retire(rows, ds, lg, now)[i], raw) {
      assert Intact(rows[i], raw);
    }
  }

  lemma SnocIntact(rows: seq<Row>, raw: map<RawName, Checksum>, r: Row)
    requires RowsIntact(rows, raw) && Intact(r, raw)
    ensures RowsIntact(rows + [r], raw)
  {
  }

  // ---------- The registry ----------

  function SumCounts(rows: seq<Row>, ds: string): int {
    if rows == [] then 0
    else
      var last := rows[|rows| - 1];
      SumCounts(rows[..|rows| - 1], ds) + (if Listed(last, ds, last.docId) then last.chunkCount else 0)
  }

  function CountIn(chunks: seq<ChunkRow>, ds: string, id: DocId): nat {
    if chunks == [] then 0
    else
      var last := chunks[|chunks| - 1];
      CountIn(chunks[..|chunks| - 1], ds, id) + (if last.dataset == ds && last.docId == id then 1 else 0)
  }

  lemma {:induction false} JoinOneRow(chunks: seq<ChunkRow>, rows: seq<Row>, r: Row, ds: string)
    ensures JoinCount(chunks, rows + [r], ds) ==
            JoinCount(chunks, rows, ds) + if Searchable(r) then CountIn(chunks, ds, r.docId) else 0
  {
    if chunks != [] {
      JoinOneRow(chunks[..|chunks| - 1], rows, r, ds);
      assert (rows + [r])[..|rows + [r]| - 1] == rows;
    }
  }

  lemma {:induction false} CountInIsChunksOf(chunks: seq<ChunkRow>, owner: string, ds: string, id: DocId)
    requires forall k :: 0 <= k < |chunks| && chunks[k].docId == id ==> chunks[k].dataset == owner
    ensures CountIn(chunks, ds, id) == if ds == owner then |ChunksOf(chunks, id)| else 0
  {
    if chunks != [] {
      CountInIsChunksOf(chunks[..|chunks| - 1], owner, ds, id);
    }
  }

  lemma {:induction false} JoinEmpty(chunks: seq<ChunkRow>, ds: string)
    ensures JoinCount(chunks, [], ds) == 0
  {
    if chunks != [] {
      JoinEmpty(chunks[..|chunks| - 1], ds);
    }
  }

  lemma {:induction false} JoinIsSum(s: Store, rows: seq<Row>, ds: string)
    requires Accounts(s) && DistinctIds(s.rows) && rows <= s.rows
    ensures JoinCount(s.chunks, rows, ds) == SumCounts(rows, ds)
    decreases |rows|
  {
    if rows == [] {
      JoinEmpty(s.chunks, ds);
    } else {
      var init, r := rows[..|rows| - 1], rows[|rows| - 1];
      assert rows == init + [r];
      JoinIsSum(s, init, ds);
      JoinOneRow(s.chunks, init, r, ds);
      assert r == s.rows[|rows| - 1] && Balanced(s, r);
      forall k | 0 <= k < |s.chunks| && s.chunks[k].docId == r.docId ensures s.chunks[k].dataset == r.dataset {
        assert OwnedBy(s.rows, s.chunks[k].dataset, s.chunks[k].docId);
      }
      CountInIsChunksOf(s.chunks, r.dataset, ds, r.docId);
    }
  }

  predicate Listed(r: Row, ds: string, id: DocId) {
    && r.docId == id && r.dataset == ds
    && r.current && r.lifecycle == Active && r.deleted == Null && r.status == Indexed
  }

  /** After the sync the registry lists the searchable documents and its chunk total is the sum of
      their `chunk_count` columns, although it is computed by counting joined chunk rows. */
  lemma RegistryTotals(s: Store, ds: string)
    requires Accounts(s) && DistinctIds(s.rows)
    ensures Sync(s, ds).registry.Some?
    ensures var g := Sync(s, ds).registry.value;
            && g.chunkCount == SumCounts(s.rows, ds)
            && (forall id :: id in g.docs <==> exists i :: 0 <= i < |s.rows| && Listed(s.rows[i], ds, id))
            && (g.ready <==> SumCounts(s.rows, ds) > 0)
  {
    JoinIsSum(s, s.rows, ds);
    assert s.rows[..|s.rows|] == s.rows;
    DocsAreSearchable(s.rows, ds);
    if SearchableDocs(s.rows, ds) == [] {
      NoDocsNoSum(s.rows, ds);
    }
  }

  lemma {:induction false} DocsAreSearchable(rows: seq<Row>, ds: string)
    ensures forall id :: id in SearchableDocs(rows, ds) <==> exists i :: 0 <= i < |rows| && Listed(rows[i], ds, id)
  {
    if rows != [] {
      var init := rows[..|rows| - 1];
      DocsAreSearchable(init, ds);
      forall id ensures id in SearchableDocs(rows, ds) <==> exists i :: 0 <= i < |rows| && Listed(rows[i], ds, id) {
        if id in SearchableDocs(init, ds) {
          var i :| 0 <= i < |init| && Listed(init[i], ds, id);
          assert rows[i] == init[i];
        }
        if i :| 0 <= i < |rows| && Listed(rows[i], ds, id) {
          assert i < |init| ==> init[i] == rows[i];
        }
      }
    }
  }

  lemma {:induction false} NoDocsNoSum(rows: seq<Row>, ds: string)
    requires SearchableDocs(rows, ds) == []
    ensures SumCounts(rows, ds) == 0
  {
    if rows != [] {
      NoDocsNoSum(rows[..|rows| - 1], ds);
    }
  }
}
