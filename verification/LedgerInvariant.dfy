/** What every step keeps: one current row at most for each logical document, an append-only
    linear version history, and exact payload accounting. */
module LedgerInvariant {
  import opened Options
  import opened Paths
  import opened LedgerModel
  import opened LedgerSpec

  // ---------- The invariant of `documents` ----------

  ghost predicate SameKey(a: Row, b: Row) {
    a.dataset == b.dataset && a.logical == b.logical
  }

  ghost predicate RowOk(r: Row) {
    && r.logical.Some? && Canonical(r.relpath) && r.version >= 1
    && (r.current <==> r.lifecycle == Active)
    && (r.current <==> r.deleted == Null)
    && r.deleted != Blank
    && r.lifecycle != Pending && r.lifecycle != OtherLifecycle("")
    && r.status != LegacyRemoved && r.status != LegacySuperseded
  }

  ghost predicate DistinctIds(rows: seq<Row>) {
    forall i, j :: 0 <= i < j < |rows| ==> rows[i].docId != rows[j].docId
  }

  ghost predicate OneCurrent(rows: seq<Row>) {
    forall i, j :: 0 <= i < j < |rows| && SameKey(rows[i], rows[j]) ==> !(rows[i].current && rows[j].current)
  }

  ghost predicate DistinctVersions(rows: seq<Row>) {
    forall i, j :: 0 <= i < j < |rows| && SameKey(rows[i], rows[j]) ==> rows[i].version != rows[j].version
  }

  /** Row `p` is the version just before row `r` and is the one that `r` supersedes. */
  ghost predicate Precedes(p: Row, r: Row) {
    SameKey(p, r) && p.version == r.version - 1 && r.supersedes == Some(p.docId)
  }

  ghost predicate Linked(rows: seq<Row>, r: Row) {
    if r.version == 1 then r.supersedes == None
    else exists p :: 0 <= p < |rows| && Precedes(rows[p], r)
  }

  ghost predicate RowsInv(rows: seq<Row>) {
    && DistinctIds(rows) && OneCurrent(rows) && DistinctVersions(rows)
    && (forall i :: 0 <= i < |rows| ==> RowOk(rows[i]))
    && (forall i :: 0 <= i < |rows| ==> LinkedAt(rows, i))
  }

  ghost predicate LinkedAt(rows: seq<Row>, i: nat)
    requires i < |rows|
  {
    Linked(rows, rows[i])
  }

  /** Identifiers are digests of the row's own identity (or foreign to the digest scheme). */
  ghost predicate Honest(rows: seq<Row>) {
    forall i :: 0 <= i < |rows| ==> HonestRow(rows[i])
  }

  ghost predicate HonestRow(r: Row) {
    match r.docId
    case GivenDoc(_) => true
    case Digest(ds, lg, version, _) => r.dataset == ds && r.logical == Some(lg) && r.version == version
  }

  /** The columns and payload that no later step may change. */
  ghost predicate Frozen(a: Row, b: Row) {
    && a.docId == b.docId && a.dataset == b.dataset && a.logical == b.logical
    && a.version == b.version && a.supersedes == b.supersedes && a.checksum == b.checksum
    && a.stored == b.stored && a.filename == b.filename && a.status == b.status
    && a.chunkCount == b.chunkCount && a.created == b.created && a.isPdf == b.isPdf
  }

  /** History is append-only: rows keep their place and frozen columns, payload rows only follow. */
  ghost predicate Grows(s: Store, t: Store) {
    && |s.rows| <= |t.rows|
    && (forall i :: 0 <= i < |s.rows| ==> Frozen(s.rows[i], t.rows[i]))
    && s.chunks <= t.chunks && s.pages <= t.pages
    && (forall k :: |s.chunks| <= k < |t.chunks| ==> Fresh(s.rows, t.chunks[k].docId))
    && (forall k :: |s.pages| <= k < |t.pages| ==> Fresh(s.rows, t.pages[k].docId))
  }

  // ---------- Updates of existing rows ----------

  /** Rows changed in place without touching identity or history. */
  ghost predicate Relabelled(rows: seq<Row>, rows': seq<Row>) {
    && |rows'| == |rows|
    && forall i :: 0 <= i < |rows| ==>
         Frozen(rows[i], rows'[i]) && RowOk(rows'[i]) && (rows'[i].current ==> rows[i].current)
  }

  lemma RelabellingKeeps(rows: seq<Row>, rows': seq<Row>)
    requires RowsInv(rows) && Relabelled(rows, rows')
    ensures RowsInv(rows')
  {
    forall i | 0 <= i < |rows'| ensures LinkedAt(rows', i) {
      assert LinkedAt(rows, i) && Frozen(rows[i], rows'[i]);
      if rows[i].version != 1 {
        var p :| 0 <= p < |rows| && Precedes(rows[p], rows[i]);
        assert Frozen(rows[p], rows'[p]);
        assert Precedes(rows'[p], rows'[i]);
      }
    }
    forall i, j | 0 <= i < j < |rows'|
      ensures rows'[i].docId != rows'[j].docId
      ensures SameKey(rows'[i], rows'[j]) ==> rows'[i].version != rows'[j].version
      ensures SameKey(rows'[i], rows'[j]) ==> !(rows'[i].current && rows'[j].current)
    {
      assert Frozen(rows[i], rows'[i]) && Frozen(rows[j], rows'[j]);
    }
  }

  lemma RetireRelabels(rows: seq<Row>, ds: string, lg: LogicalId, now: int)
    requires RowsInv(rows)
    ensures Relabelled(rows, Retire(rows, ds, lg, now))
    ensures RowsInv(Retire(rows, ds, lg, now))
    ensures forall i :: 0 <= i < |rows| && SameDoc(rows[i], ds, lg) ==> !Retire(rows, ds, lg, now)[i].current
  {
    forall i | 0 <= i < |rows|
      ensures RowOk(Retire(rows, ds, lg, now)[i])
      ensures SameDoc(rows[i], ds, lg) ==> !Retire(rows, ds, lg, now)[i].current
    {
      assert RowOk(rows[i]);
    }
    RelabellingKeeps(rows, Retire(rows, ds, lg, now));
  }

  /** The live row of a document is what a search for its current version finds. */
  lemma OnlyCurrent(rows: seq<Row>, ds: string, lg: LogicalId, i: nat)
    requires RowsInv(rows) && i < |rows| && SameDoc(rows[i], ds, lg) && Live(rows[i])
    ensures Current(rows, ds, lg) == Some(i)
  {
    var j := Current(rows, ds, lg).value;
    assert SameKey(rows[i], rows[j]) && SameKey(rows[j], rows[i]) && rows[j].current && rows[i].current;
  }

  // ---------- Appending a version ----------

  /** The versions of one document have no gap, and the newest row carries the highest number. */
  lemma NextLink(rows: seq<Row>, ds: string, lg: LogicalId)
    requires RowsInv(rows)
    ensures NextVersion(rows, ds, lg) == MaxVersion(rows, ds, lg) + 1 >= 1
    ensures var latest := Newest(rows, ds, lg, false);
            if latest.None? then NextVersion(rows, ds, lg) == 1
            else rows[latest.value].version == NextVersion(rows, ds, lg) - 1 >= 1
  {
    var latest := Newest(rows, ds, lg, false);
    if latest.Some? {
      assert RowOk(rows[latest.value]);
    }
  }

  /** `r` continues its document's history: newer than every version and linked to the last one. */
  ghost predicate Continues(rows: seq<Row>, r: Row) {
    && (forall i :: 0 <= i < |rows| && SameKey(rows[i], r) ==> rows[i].version < r.version)
    && Linked(rows, r)
  }

  lemma AppendKeeps(rows: seq<Row>, r: Row)
    requires RowsInv(rows) && RowOk(r) && Fresh(rows, r.docId) && Continues(rows, r)
    requires r.current ==> forall i :: 0 <= i < |rows| && SameKey(rows[i], r) ==> !rows[i].current
    ensures RowsInv(rows + [r])
  {
    var all := rows + [r];
    forall i | 0 <= i < |all| ensures LinkedAt(all, i) {
      assert Linked(rows, all[i]) by {
        assert i < |rows| ==> LinkedAt(rows, i);
      }
      if all[i].version != 1 {
        var p :| 0 <= p < |rows| && Precedes(rows[p], all[i]);
        assert Precedes(all[p], all[i]);
      }
    }
  }

  lemma RegisteredContinues(rows: seq<Row>, ds: string, lg: LogicalId, r: Row)
    requires RowsInv(rows)
    requires SameDoc(r, ds, lg) && r.version == NextVersion(rows, ds, lg)
    requires var latest := Newest(rows, ds, lg, false);
             r.supersedes == if latest.Some? then Some(rows[latest.value].docId) else None
    ensures Continues(rows, r)
  {
    NextLink(rows, ds, lg);
    forall i | 0 <= i < |rows| && SameKey(rows[i], r) ensures rows[i].version < r.version {
      assert SameDoc(rows[i], ds, lg);
    }
    var latest := Newest(rows, ds, lg, false);
    if latest.Some? {
      assert Precedes(rows[latest.value], r);
    }
  }

  lemma RegisteredIsFresh(rows: seq<Row>, ds: string, root: string, f: SourceFile, c: Checksum, stored: RawName,
                          now: int)
    requires RowsInv(rows) && Honest(rows)
    ensures var r := Registered(rows, ds, root, f, c, stored, now);
      Fresh(rows, r.docId) && forall i :: 0 <= i < |rows| && SameKey(rows[i], r) ==> rows[i].version < r.version
  {
    var r := Registered(rows, ds, root, f, c, stored, now);
    NextLink(rows, ds, LogicalOf(ds, f));
    RegisteredContinues(rows, ds, LogicalOf(ds, f), r);
    forall j | 0 <= j < |rows| ensures rows[j].docId != r.docId {
      assert HonestRow(rows[j]);
    }
  }

  // ---------- The versions of a document are exactly 1..n ----------

  ghost function Older(rows: seq<Row>, r: Row): set<nat> {
    set j: nat | j < |rows| && SameKey(rows[j], r) && rows[j].version < r.version
  }

  lemma {:induction false} OlderCount(rows: seq<Row>, i: nat)
    requires RowsInv(rows) && i < |rows|
    ensures |Older(rows, rows[i])| == rows[i].version - 1
    decreases rows[i].version
  {
    assert RowOk(rows[i]) && LinkedAt(rows, i);
    if rows[i].version == 1 {
      forall j: nat | j < |rows| ensures j !in Older(rows, rows[i]) {
        assert RowOk(rows[j]);
      }
      assert Older(rows, rows[i]) == {};
    } else {
      var p: nat :| p < |rows| && Precedes(rows[p], rows[i]);
      assert RowOk(rows[p]);
      OlderCount(rows, p);
      OlderStep(rows, p, i);
    }
  }

  lemma OlderStep(rows: seq<Row>, p: nat, i: nat)
    requires DistinctVersions(rows) && p < |rows| && i < |rows| && Precedes(rows[p], rows[i])
    ensures Older(rows, rows[i]) == Older(rows, rows[p]) + {p} && p !in Older(rows, rows[p])
  {
    forall j: nat | j < |rows| && SameKey(rows[j], rows[p]) && rows[j].version == rows[p].version
      ensures j == p
    {
    }
  }

  ghost function Versions(rows: seq<Row>, ds: string, lg: LogicalId): set<nat> {
    set j: nat | j < |rows| && SameDoc(rows[j], ds, lg)
  }

  lemma {:induction false} VersionExists(rows: seq<Row>, i: nat, v: int) returns (p: nat)
    requires RowsInv(rows) && i < |rows| && 1 <= v <= rows[i].version
    ensures p < |rows| && SameKey(rows[p], rows[i]) && rows[p].version == v
    decreases rows[i].version
  {
    if v == rows[i].version {
      p := i;
    } else {
      assert LinkedAt(rows, i);
      var q: nat :| q < |rows| && Precedes(rows[q], rows[i]);
      p := VersionExists(rows, q, v);
    }
  }

  /** A document with n rows has exactly the versions 1..n, and n+1 comes next. */
  lemma VersionsAreExactly(rows: seq<Row>, ds: string, lg: LogicalId, v: int)
    requires RowsInv(rows)
    ensures NextVersion(rows, ds, lg) == |Versions(rows, ds, lg)| + 1
    ensures 1 <= v <= |Versions(rows, ds, lg)| <==>
              exists i :: 0 <= i < |rows| && SameDoc(rows[i], ds, lg) && rows[i].version == v
  {
    NextLink(rows, ds, lg);
    var latest := Newest(rows, ds, lg, false);
    if latest.None? {
      assert Versions(rows, ds, lg) == {};
    } else {
      var top: nat := latest.value;
      VersionsToTop(rows, ds, lg, top);
      if 1 <= v <= rows[top].version {
        var p := VersionExists(rows, top, v);
        assert SameDoc(rows[p], ds, lg);
      }
      forall i | 0 <= i < |rows| && SameDoc(rows[i], ds, lg) ensures 1 <= rows[i].version <= rows[top].version {
        assert RowOk(rows[i]);
        assert !Newer(rows[i], rows[top]);
      }
    }
  }

  /** With the newest row at `top`, the document has as many rows as that row's version says. */
  lemma VersionsToTop(rows: seq<Row>, ds: string, lg: LogicalId, top: nat)
    requires RowsInv(rows) && Newest(rows, ds, lg, false) == Some(top)
    ensures |Versions(rows, ds, lg)| == rows[top].version
  {
    OlderCount(rows, top);
    forall j: nat | j < |rows|
      ensures j in Versions(rows, ds, lg) <==> j in Older(rows, rows[top]) || j == top
    {
      OlderOrTop(rows, ds, lg, top, j);
    }
    assert Versions(rows, ds, lg) == Older(rows, rows[top]) + {top};
  }

  lemma OlderOrTop(rows: seq<Row>, ds: string, lg: LogicalId, top: nat, j: nat)
    requires DistinctVersions(rows) && Newest(rows, ds, lg, false) == Some(top) && j < |rows|
    ensures j in Versions(rows, ds, lg) <==> j in Older(rows, rows[top]) || j == top
  {
    assert SameDoc(rows[j], ds, lg) ==> !Newer(rows[j], rows[top]) && SameKey(rows[j], rows[top]);
    assert SameKey(rows[j], rows[top]) <==> SameKey(rows[top], rows[j]);
  }

  // ---------- Every step ----------

  /** The invariant survives a file step whatever the file, the parser and the disk do. */
  lemma FileStepKeeps(s: Store, ds: string, root: string, reset: bool, f: SourceFile, now: int)
    requires RowsInv(s.rows)
    ensures RowsInv(FileStep(s, ds, root, reset, f, now).rows)
  {
    if f.checksum.Some? {
      var lg, c := LogicalOf(ds, f), f.checksum.value;
      NormalizeIsCanonical(f.relpath);
      if !reset && Settled(s, ds, lg, c) {
        RelabellingKeeps(s.rows, FileStep(s, ds, root, reset, f, now).rows);
      } else {
        AttemptKeeps(s, ds, root, f, c, now);
      }
    }
  }

  lemma AttemptKeeps(s: Store, ds: string, root: string, f: SourceFile, c: Checksum, now: int)
    requires RowsInv(s.rows)
    ensures RowsInv(Attempt(s, ds, root, f, c, now).rows)
  {
    var lg := LogicalOf(ds, f);
    var row := Registered(s.rows, ds, root, f, c, RawTarget(s.raw, f.name, c), now);
    NormalizeIsCanonical(f.relpath);
    NextLink(s.rows, ds, lg);
    RegisteredContinues(s.rows, ds, lg, row);
    AttemptRowKeeps(s, ds, lg, row, f, c, now);
  }

  lemma AttemptRowKeeps(s: Store, ds: string, lg: LogicalId, row: Row, f: SourceFile, c: Checksum, now: int)
    requires RowsInv(s.rows) && SameDoc(row, ds, lg) && Canonical(row.relpath) && row.version >= 1
    requires Continues(s.rows, row) && !row.current
    ensures RowsInv(AttemptRow(s, ds, lg, row, f, c, now).rows)
  {
    if CopySucceeds(s.raw, f, c) && Fresh(s.rows, row.docId) {
      if Accepted(f) {
        ActivationKeeps(s.rows, ds, lg, row, AcceptedStatus(f), |AcceptedChunks(f)|, now);
      } else if !f.recordFault && Current(s.rows, ds, lg).None? {
        ActivationKeeps(s.rows, ds, lg, row, Failed, 0, now);
      } else if !f.recordFault {
        AppendKeeps(s.rows, row.(status := Failed, lifecycle := FailedAttempt, deleted := At(now)));
      }
    }
  }

  lemma ActivationKeeps(rows: seq<Row>, ds: string, lg: LogicalId, row: Row, status: Status, count: int, now: int)
    requires RowsInv(rows) && SameDoc(row, ds, lg) && Canonical(row.relpath) && row.version >= 1
    requires Fresh(rows, row.docId) && Continues(rows, row)
    requires status != LegacyRemoved && status != LegacySuperseded
    ensures RowsInv(Retire(rows, ds, lg, now) + [Activated(row, status, count, now)])
  {
    var retired, active := Retire(rows, ds, lg, now), Activated(row, status, count, now);
    RetireRelabels(rows, ds, lg, now);
    RetireContinues(rows, ds, lg, row, active, now);
    AppendKeeps(retired, active);
  }

  lemma RetireContinues(rows: seq<Row>, ds: string, lg: LogicalId, row: Row, r: Row, now: int)
    requires Continues(rows, row) && SameKey(row, r) && r.version == row.version && r.supersedes == row.supersedes
    ensures Continues(Retire(rows, ds, lg, now), r)
  {
    var retired := Retire(rows, ds, lg, now);
    if row.version != 1 {
      var p :| 0 <= p < |rows| && Precedes(rows[p], row);
      assert Precedes(retired[p], r);
    }
    forall i | 0 <= i < |rows| && SameKey(retired[i], r) ensures retired[i].version < r.version {
      assert SameKey(rows[i], row);
    }
  }

  lemma SweepKeeps(s: Store, ds: string, root: string, seen: set<LogicalId>, now: int)
    requires RowsInv(s.rows)
    ensures RowsInv(Sweep(s, ds, root, seen, now).rows)
  {
    forall i | 0 <= i < |s.rows| ensures RowOk(Sweep(s, ds, root, seen, now).rows[i]) {
      assert RowOk(s.rows[i]);
    }
    RelabellingKeeps(s.rows, Sweep(s, ds, root, seen, now).rows);
  }

  /** No step rewrites the version, checksum, links, status or payload of a row that exists. */
  lemma FileStepGrows(s: Store, ds: string, root: string, reset: bool, f: SourceFile, now: int)
    ensures Grows(s, FileStep(s, ds, root, reset, f, now))
    ensures Honest(s.rows) ==> Honest(FileStep(s, ds, root, reset, f, now).rows)
  {
    if f.checksum.Some? {
      var lg, c := LogicalOf(ds, f), f.checksum.value;
      if reset || !Settled(s, ds, lg, c) {
        AttemptGrows(s, ds, root, f, c, now);
      } else {
        var t := FileStep(s, ds, root, reset, f, now);
        forall i | 0 <= i < |t.rows| && Honest(s.rows) ensures HonestRow(t.rows[i]) {
          assert HonestRow(s.rows[i]) && Frozen(s.rows[i], t.rows[i]);
        }
      }
    }
  }

  lemma AttemptGrows(s: Store, ds: string, root: string, f: SourceFile, c: Checksum, now: int)
    ensures Grows(s, Attempt(s, ds, root, f, c, now))
    ensures Honest(s.rows) ==> Honest(Attempt(s, ds, root, f, c, now).rows)
  {
    var row := Registered(s.rows, ds, root, f, c, RawTarget(s.raw, f.name, c), now);
    AttemptRowGrows(s, ds, LogicalOf(ds, f), row, f, c, now);
  }

  lemma AttemptRowGrows(s: Store, ds: string, lg: LogicalId, row: Row, f: SourceFile, c: Checksum, now: int)
    ensures Grows(s, AttemptRow(s, ds, lg, row, f, c, now))
    ensures Honest(s.rows) && HonestRow(row) ==> Honest(AttemptRow(s, ds, lg, row, f, c, now).rows)
  {
    if CopySucceeds(s.raw, f, c) && Fresh(s.rows, row.docId) {
      RetireFreezes(s.rows, ds, lg, now, Activated(row, AcceptedStatus(f), |AcceptedChunks(f)|, now));
      RetireFreezes(s.rows, ds, lg, now, Activated(row, Failed, 0, now));
      AppendFreezes(s.rows, row.(status := Failed, lifecycle := FailedAttempt, deleted := At(now)));
    }
  }

  lemma RetireFreezes(rows: seq<Row>, ds: string, lg: LogicalId, now: int, r: Row)
    ensures var rows' := Retire(rows, ds, lg, now) + [r];
      && (forall i :: 0 <= i < |rows| ==> Frozen(rows[i], rows'[i]))
      && (Honest(rows) && HonestRow(r) ==> Honest(rows'))
  {
    var retired := Retire(rows, ds, lg, now);
    assert forall i :: 0 <= i < |rows| && HonestRow(rows[i]) ==> HonestRow(retired[i]);
  }

  lemma AppendFreezes(rows: seq<Row>, r: Row)
    ensures forall i :: 0 <= i < |rows| ==> Frozen(rows[i], (rows + [r])[i])
    ensures Honest(rows) && HonestRow(r) ==> Honest(rows + [r])
  {
  }

  lemma SweepGrows(s: Store, ds: string, root: string, seen: set<LogicalId>, now: int)
    ensures Grows(s, Sweep(s, ds, root, seen, now))
    ensures Honest(s.rows) ==> Honest(Sweep(s, ds, root, seen, now).rows)
  {
    var t := Sweep(s, ds, root, seen, now);
    forall i | 0 <= i < |s.rows| && Honest(s.rows) ensures HonestRow(t.rows[i]) {
      assert HonestRow(s.rows[i]);
    }
  }

  lemma GrowsTransitive(s: Store, t: Store, u: Store)
    requires Grows(s, t) && Grows(t, u)
    ensures Grows(s, u)
  {
    forall i | 0 <= i < |s.rows| ensures Frozen(s.rows[i], u.rows[i]) {
      assert Frozen(s.rows[i], t.rows[i]) && Frozen(t.rows[i], u.rows[i]);
    }
    forall k | |s.chunks| <= k < |u.chunks| ensures Fresh(s.rows, u.chunks[k].docId) {
      if k < |t.chunks| {
        assert t.chunks[k] == u.chunks[k];
      } else {
        forall j | 0 <= j < |s.rows| ensures s.rows[j].docId != u.chunks[k].docId {
          assert Frozen(s.rows[j], t.rows[j]);
        }
      }
    }
    forall k | |s.pages| <= k < |u.pages| ensures Fresh(s.rows, u.pages[k].docId) {
      if k < |t.pages| {
        assert t.pages[k] == u.pages[k];
      } else {
        forall j | 0 <= j < |s.rows| ensures s.rows[j].docId != u.pages[k].docId {
          assert Frozen(s.rows[j], t.rows[j]);
        }
      }
    }
  }
}
