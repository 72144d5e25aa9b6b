/** The ingestion ledger as the program runs it: tables updated statement by statement, with a
    savepoint around each attempt. Every method is tied to the specification functions. */
module Ledger {
  import opened Options
  import opened Paths
  import opened LedgerModel
  import opened LedgerSpec
  import opened LedgerInvariant
  import opened LedgerColumns
  import opened LedgerAccounting
  import opened Migration

  // ---------- UPDATE ... WHERE doc_id = ? ----------

  function SetCount(rows: seq<Row>, id: DocId, count: int, now: int): seq<Row> {
    seq(|rows|, i requires 0 <= i < |rows| =>
      if rows[i].docId == id then rows[i].(chunkCount := count, updated := At(now)) else rows[i])
  }

  function SetStatus(rows: seq<Row>, id: DocId, status: Status, now: int): seq<Row> {
    seq(|rows|, i requires 0 <= i < |rows| =>
      if rows[i].docId == id then rows[i].(status := status, updated := At(now)) else rows[i])
  }

  function SetFailedAttempt(rows: seq<Row>, id: DocId, now: int): seq<Row> {
    seq(|rows|, i requires 0 <= i < |rows| =>
      if rows[i].docId == id
      then rows[i].(lifecycle := FailedAttempt, current := false, deleted := At(now), updated := At(now))
      else rows[i])
  }

  function Supersede(rows: seq<Row>, ds: string, lg: LogicalId, id: DocId, now: int): seq<Row> {
    seq(|rows|, i requires 0 <= i < |rows| =>
      if Superseding(rows[i], ds, lg) && rows[i].docId != id
      then rows[i].(lifecycle := Superseded, current := false, deleted := At(now), updated := At(now))
      else rows[i])
  }

  function MakeActive(rows: seq<Row>, id: DocId, now: int): seq<Row> {
    seq(|rows|, i requires 0 <= i < |rows| =>
      if rows[i].docId == id
      then rows[i].(lifecycle := Active, current := true, deleted := Null, updated := At(now))
      else rows[i])
  }

  // On a table whose last row alone has the id, each update reaches just that row.

  lemma CountReachesLast(rows: seq<Row>, r: Row, count: int, now: int)
    requires Fresh(rows, r.docId) && r.updated == At(now)
    ensures SetCount(rows + [r], r.docId, count, now) == rows + [r.(chunkCount := count)]
  {
  }

  lemma StatusReachesLast(rows: seq<Row>, r: Row, status: Status, now: int)
    requires Fresh(rows, r.docId) && r.updated == At(now)
    ensures SetStatus(rows + [r], r.docId, status, now) == rows + [r.(status := status)]
  {
  }

  lemma FailureReachesLast(rows: seq<Row>, r: Row, now: int)
    requires Fresh(rows, r.docId) && r.updated == At(now)
    ensures SetFailedAttempt(rows + [r], r.docId, now)
            == rows + [r.(lifecycle := FailedAttempt, current := false, deleted := At(now))]
  {
  }

  lemma ActivationReachesLast(rows: seq<Row>, r: Row, ds: string, lg: LogicalId, now: int, rows': seq<Row>)
    requires Fresh(rows, r.docId) && r.updated == At(now) && |rows'| == |rows| + 1
    requires forall i :: 0 <= i < |rows'| ==> ActivatedAt((rows + [r])[i], rows'[i], ds, lg, r.docId, now)
    ensures rows' == Retire(rows, ds, lg, now) + [r.(lifecycle := Active, current := true, deleted := Null)]
  {
    forall i | 0 <= i < |rows| ensures rows'[i] == Retire(rows, ds, lg, now)[i] {
      assert ActivatedAt((rows + [r])[i], rows'[i], ds, lg, r.docId, now);
    }
    assert ActivatedAt((rows + [r])[|rows|], rows'[|rows|], ds, lg, r.docId, now);
  }

  /** What activating document `id` does to one row. */
  predicate ActivatedAt(was: Row, r: Row, ds: string, lg: LogicalId, id: DocId, now: int) {
    if was.docId == id then
      r == was.(lifecycle := Active, current := true, deleted := Null, updated := At(now))
    else if Superseding(was, ds, lg) then
      r == was.(lifecycle := Superseded, current := false, deleted := At(now), updated := At(now))
    else r == was
  }

  /** The last row is a version just registered behind sound rows. */
  ghost predicate JustRegistered(rows: seq<Row>, ds: string, lg: LogicalId, id: DocId) {
    && rows != []
    && var older, r := rows[..|rows| - 1], rows[|rows| - 1];
       && RowsInv(older) && r.docId == id && SameDoc(r, ds, lg) && Canonical(r.relpath) && r.version >= 1
       && Fresh(older, id) && Continues(older, r) && r.status != LegacyRemoved && r.status != LegacySuperseded
  }

  lemma ActivatedRowsOk(rows: seq<Row>, ds: string, lg: LogicalId, id: DocId, now: int)
    requires JustRegistered(rows, ds, lg, id)
    ensures var rows' := MakeActive(Supersede(rows, ds, lg, id, now), id, now);
      RowsInv(rows') && Current(rows', ds, lg) == Some(|rows| - 1)
  {
    var older, r := rows[..|rows| - 1], rows[|rows| - 1];
    var rows' := MakeActive(Supersede(rows, ds, lg, id, now), id, now);
    assert rows' == Retire(older, ds, lg, now) + [Activated(r, r.status, r.chunkCount, now)];
    ActivationKeeps(older, ds, lg, r, r.status, r.chunkCount, now);
    OnlyCurrent(rows', ds, lg, |rows| - 1);
  }

  // ---------- Rebuilding one group ----------

  /** Put `x` into its place in a sorted sequence. */
  method Insert(rows: seq<Row>, names: Names, ordered: seq<nat>, x: nat) returns (r: seq<nat>)
    requires x < |rows| && x !in ordered && Ascending(rows, names, ordered)
    ensures Ascending(rows, names, r)
    ensures |r| == |ordered| + 1 && forall y :: y in r <==> y in ordered || y == x
  {
    var p := |ordered|;
    while p > 0 && Before(rows, names, x, ordered[p - 1])
      invariant 0 <= p <= |ordered|
      invariant forall k :: p <= k < |ordered| ==> Before(rows, names, x, ordered[k])
    {
      p := p - 1;
    }
    forall k | 0 <= k < p ensures Before(rows, names, ordered[k], x) {
      assert ordered[p - 1] in ordered;
      BeforeIsTotal(rows, names, ordered[p - 1], x);
      if k < p - 1 {
        BeforeTransitive(rows, names, ordered[k], ordered[p - 1], x);
      }
    }
    InsertAscends(rows, names, ordered, x, p);
    r := ordered[..p] + [x] + ordered[p..];
    assert ordered == ordered[..p] + ordered[p..];
  }

  lemma InsertAscends(rows: seq<Row>, names: Names, ordered: seq<nat>, x: nat, p: nat)
    requires x < |rows| && Ascending(rows, names, ordered) && p <= |ordered|
    requires forall k :: 0 <= k < p ==> Before(rows, names, ordered[k], x)
    requires forall k :: p <= k < |ordered| ==> Before(rows, names, x, ordered[k])
    ensures Ascending(rows, names, ordered[..p] + [x] + ordered[p..])
  {
    var r := ordered[..p] + [x] + ordered[p..];
    forall k | 0 <= k < |r| ensures r[k] == if k < p then ordered[k] else if k == p then x else ordered[k - 1] {
    }
    forall k, m | 0 <= k < m < |r| ensures Before(rows, names, r[k], r[m]) {
      if k < p && m > p {
        assert Before(rows, names, ordered[k], ordered[m - 1]);
      } else if k > p {
        assert Before(rows, names, ordered[k - 1], ordered[m - 1]);
      }
    }
  }

  /** `sorted(versions, key=(version_no, created_at, doc_id))`. */
  method SortVersions(rows: seq<Row>, names: Names, members: seq<nat>) returns (ordered: seq<nat>)
    requires forall k :: 0 <= k < |members| ==> members[k] < |rows|
    requires forall k, m :: 0 <= k < m < |members| ==> members[k] != members[m]
    ensures Ascending(rows, names, ordered)
    ensures |ordered| == |members| && forall x :: x in ordered <==> x in members
  {
    ordered := [];
    for n := 0 to |members|
      invariant Ascending(rows, names, ordered)
      invariant |ordered| == n && forall x :: x in ordered <==> x in members[..n]
    {
      assert members[n] !in members[..n];
      assert members[..n + 1] == members[..n] + [members[n]];
      ordered := Insert(rows, names, ordered, members[n]);
    }
    assert members[..|members|] == members;
  }

  /** `active[-1]`: the place of the last undeleted row of a sorted group. */
  method LastUndeleted(rows: seq<Row>, ordered: seq<nat>) returns (chosen: Option<nat>)
    requires forall k :: 0 <= k < |ordered| ==> ordered[k] < |rows|
    ensures IsLastUndeleted(rows, ordered, chosen)
  {
    chosen := None;
    for k := 0 to |ordered|
      invariant chosen.Some? ==> chosen.value < k && Undeleted(rows[ordered[chosen.value]])
      invariant forall m :: 0 <= m < k && Undeleted(rows[ordered[m]]) ==> chosen.Some? && m <= chosen.value
    {
      if !rows[ordered[k]].deleted.At? { chosen := Some(k); }
    }
  }

  /** The new columns of one row. */
  method RebuildRow(
    pages: seq<PageRow>, r: Row, version: int, previous: Option<DocId>, isCurrent: bool, anyActive: bool, now: int)
    returns (t: Row)
    requires isCurrent ==> Undeleted(r)
    requires Undeleted(r) ==> anyActive
    ensures t == r.(version := version, supersedes := previous, current := isCurrent,
                    status := NewStatus(pages, r), lifecycle := NewLifecycle(r, isCurrent),
                    deleted := NewDeleted(r, isCurrent, now))
  {
    var status, lifecycle, deleted := r.status, r.lifecycle, r.deleted;
    if lifecycle == OtherLifecycle("") { lifecycle := Active; }
    if status == LegacyRemoved || status == LegacySuperseded {
      lifecycle := if status == LegacyRemoved then Removed else Superseded;
      if r.chunkCount > 0 { status := Indexed; }
      else if r.isPdf && HasPages(pages, r.docId) { status := NeedsOcr; }
      else { status := Failed; }
    }
    if anyActive && !isCurrent && !deleted.At? {
      deleted := if r.updated.At? then r.updated else At(now);
      lifecycle := Superseded;
    } else if isCurrent && !deleted.At? {
      lifecycle := Active;
    } else if !isCurrent && lifecycle == Active {
      lifecycle := Superseded;
    }
    t := r.(version := version, supersedes := previous, current := isCurrent,
            status := status, lifecycle := lifecycle, deleted := deleted);
  }

  /** Walk one group in version order, numbering and linking its rows. */
  method Renumber(pages: seq<PageRow>, rows: seq<Row>, ordered: seq<nat>, chosen: Option<nat>, now: int)
    returns (table: seq<Row>)
    requires forall k :: 0 <= k < |ordered| ==> ordered[k] < |rows|
    requires forall k, m :: 0 <= k < m < |ordered| ==> ordered[k] != ordered[m]
    requires IsLastUndeleted(rows, ordered, chosen)
    ensures table == Scatter(rows, ordered, GroupRows(pages, rows, ordered, chosen, now), |ordered|)
  {
    table := rows;
    ghost var values := GroupRows(pages, rows, ordered, chosen, now);
    var previous: Option<DocId> := None;
    for k := 0 to |ordered|
      invariant table == Scatter(rows, ordered, values, k)
      invariant previous == if k == 0 then None else Some(rows[ordered[k - 1]].docId)
    {
      var i := ordered[k];
      var t := RebuildRow(pages, rows[i], k + 1, previous, chosen == Some(k), chosen.Some?, now);
      assert t == GroupRow(pages, rows, ordered, chosen, k, now) == values[k];
      previous := Some(rows[i].docId);
      table := table[i := t];
    }
  }

  // ---------- Chunk rows ----------

  function LinkedRow(rows: seq<ChunkRow>, k: nat): ChunkRow
    requires k < |rows|
  {
    rows[k].(prev := if k > 0 then Some(rows[k - 1].id) else None,
             next := if k + 1 < |rows| then Some(rows[k + 1].id) else None)
  }

  /** The second pass of `_write_chunks`: link neighbours in place. */
  method LinkNeighbours(plain: seq<ChunkRow>) returns (built: seq<ChunkRow>)
    ensures |built| == |plain| && forall m :: 0 <= m < |plain| ==> built[m] == LinkedRow(plain, m)
  {
    var ids := seq(|plain|, k requires 0 <= k < |plain| => plain[k].id);
    built := plain;
    for k := 0 to |plain|
      invariant |built| == |plain| && built[k..] == plain[k..]
      invariant forall m {:trigger built[m]} :: 0 <= m < k ==> built[m] == LinkedRow(plain, m)
    {
      assert built[k] == built[k..][0];
      built := built[k := built[k].(prev := if k > 0 then Some(ids[k - 1]) else None,
                                    next := if k + 1 < |ids| then Some(ids[k + 1]) else None)];
    }
  }

  /** Build the chunk rows, then link neighbours in a second pass. */
  method BuildChunks(ds: string, id: DocId, bodies: seq<Chunk>) returns (built: seq<ChunkRow>)
    ensures built == LinkedChunks(ds, id, bodies) && IsChain(built, ds, id, bodies)
  {
    built := FillChunks(ds, id, bodies);
    LinkedChunksTell(ds, id, bodies);
  }

  method FillChunks(ds: string, id: DocId, bodies: seq<Chunk>) returns (built: seq<ChunkRow>)
    ensures built == LinkedChunks(ds, id, bodies)
  {
    var plain: seq<ChunkRow> := [];
    for k := 0 to |bodies|
      invariant |plain| == k
      invariant forall m :: 0 <= m < k ==>
        plain[m] == ChunkRow(IdOf(id, m + 1, bodies[m]), ds, id, m + 1, bodies[m], None, None)
    {
      plain := plain + [ChunkRow(IdOf(id, k + 1, bodies[k]), ds, id, k + 1, bodies[k], None, None)];
    }
    built := LinkNeighbours(plain);
    forall k | 0 <= k < |bodies| ensures built[k] == LinkedChunks(ds, id, bodies)[k] {
      assert built[k] == LinkedRow(plain, k);
    }
  }

  class Ledger {
    const dataset: string
    const names: Names
    var rows: seq<Row>
    var chunks: seq<ChunkRow>
    var pages: seq<PageRow>
    var raw: map<RawName, Checksum>
    var registry: Option<Registry>

    constructor (dataset: string, names: Names)
      ensures this.dataset == dataset && this.names == names && Abs() == EmptyStore
    {
      this.dataset, this.names := dataset, names;
      rows, chunks, pages, raw, registry := [], [], [], map[], None;
    }

    function Abs(): Store
      reads this
    {
      Store(rows, chunks, pages, raw, registry)
    }

    // ---------- Copying, registering, writing ----------

    method CopyToRaw(f: SourceFile, c: Checksum) returns (stored: Option<RawName>)
      modifies this`raw
      ensures raw == RawAfter(old(raw), f, c)
      ensures stored == if CopySucceeds(old(raw), f, c) then Some(RawTarget(old(raw), f.name, c)) else None
    {
      var target := Plain(f.name);
      if target in raw {
        if raw[target] == c { return Some(target); }
        target := Suffixed(f.name, c);
        if target in raw && raw[target] == c { return Some(target); }
      }
      match f.copy {
        case CopyOk =>
          raw := raw[target := c];
          stored := Some(target);
        case CopyFails(Some(partial)) =>
          raw := raw[target := partial];
          stored := None;
        case CopyFails(None) =>
          stored := None;
      }
    }

    /** INSERT INTO documents; refused by the primary key or by the (document, version) index. */
    method Register(row: Row) returns (ok: bool)
      modifies this`rows
      ensures ok <==> forall i :: 0 <= i < |old(rows)| ==>
                old(rows)[i].docId != row.docId
                && !(SameKey(old(rows)[i], row) && old(rows)[i].version == row.version)
      ensures rows == if ok then old(rows) + [row] else old(rows)
      ensures DistinctIds(old(rows)) && DistinctVersions(old(rows)) ==> DistinctIds(rows) && DistinctVersions(rows)
    {
      ok := forall i :: 0 <= i < |rows| ==>
        rows[i].docId != row.docId
        && !(rows[i].dataset == row.dataset && rows[i].logical == row.logical && rows[i].version == row.version);
      if ok {
        rows := rows + [row];
      }
    }

    /** Insert the linked chunk rows of a document and store their count. */
    method WriteChunks(id: DocId, bodies: seq<Chunk>, now: int)
      modifies this`rows, this`chunks
      ensures chunks == old(chunks) + LinkedChunks(dataset, id, bodies)
      ensures IsChain(chunks[|old(chunks)|..], dataset, id, bodies)
      ensures rows == SetCount(old(rows), id, |bodies|, now)
    {
      var built := BuildChunks(dataset, id, bodies);
      chunks := chunks + built;
      rows := SetCount(rows, id, |built|, now);
    }

    /** The parser: None means that it raised, possibly after writing part of its output. */
    method Parse(id: DocId, outcome: ParseOutcome, now: int) returns (status: Option<Status>)
      modifies this`rows, this`chunks, this`pages
      ensures status == match outcome
                        case Parsed(_, _) => Some(Indexed)
                        case Scanned(_) => Some(NeedsOcr)
                        case ParserRaised(_, _, _) => None
      ensures !outcome.ParserRaised? ==> pages == old(pages) + PageRows(id, outcome.pages)
      ensures outcome.Scanned? ==> rows == old(rows) && chunks == old(chunks)
      ensures outcome.Parsed? ==>
                && rows == SetCount(old(rows), id, |outcome.chunks|, now)
                && chunks == old(chunks) + LinkedChunks(dataset, id, outcome.chunks)
    {
      pages := pages + PageRows(id, outcome.pages);
      match outcome {
        case Scanned(_) =>
          status := Some(NeedsOcr);
        case Parsed(_, bodies) =>
          WriteChunks(id, bodies, now);
          status := Some(Indexed);
        case ParserRaised(_, bodies, counted) =>
          if counted {
            WriteChunks(id, bodies, now);
          } else {
            chunks := chunks + LinkedChunks(dataset, id, bodies);
          }
          status := None;
      }
    }

    /** Afterwards no other row of the document is live; a version just registered is its current one, and
        the row invariant, broken while the row was pending, holds again. */
    method Activate(lg: LogicalId, id: DocId, now: int)
      modifies this`rows
      ensures |rows| == |old(rows)|
      ensures forall i :: 0 <= i < |rows| ==> ActivatedAt(old(rows)[i], rows[i], dataset, lg, id, now)
      ensures forall i :: 0 <= i < |rows| && SameDoc(rows[i], dataset, lg) && Live(rows[i]) ==> rows[i].docId == id
      ensures JustRegistered(old(rows), dataset, lg, id) ==>
                RowsInv(rows) && Current(rows, dataset, lg) == Some(|rows| - 1)
    {
      if JustRegistered(rows, dataset, lg, id) {
        ActivatedRowsOk(rows, dataset, lg, id, now);
      }
      rows := Supersede(rows, dataset, lg, id, now);
      rows := MakeActive(rows, id, now);
    }

    // ---------- One file ----------

    /** The savepoint body. On false the caller rolls back; nothing is promised about the tables. */
    method TryVersion(row: Row, lg: LogicalId, f: SourceFile, now: int) returns (ok: bool)
      requires SameDoc(row, dataset, lg) && row.updated == At(now)
      requires row.version == NextVersion(rows, dataset, lg)
      requires row.chunkCount == 0
      modifies this`rows, this`chunks, this`pages
      ensures ok <==> Accepted(f) && Fresh(old(rows), row.docId)
      ensures ok ==>
                && rows == Retire(old(rows), dataset, lg, now)
                           + [Activated(row, AcceptedStatus(f), |AcceptedChunks(f)|, now)]
                && chunks == old(chunks) + LinkedChunks(dataset, row.docId, AcceptedChunks(f))
                && pages == old(pages) + PageRows(row.docId, AcceptedPages(f))
    {
      if f.fault.HashFault? || f.fault.RegisterFault? { return false; }
      ok := Register(row);
      assert ok <==> Fresh(old(rows), row.docId) by {
        NextIsUnused(old(rows), dataset, lg, row);
      }
      if !ok { return; }
      ghost var before := old(rows);
      var status := ReviewRequired;
      if !f.classification.conflict {
        var parsed := Parse(row.docId, f.outcome, now);
        if parsed.None? { return false; }
        status := parsed.value;
      }
      ghost var counted := row.(chunkCount := |AcceptedChunks(f)|);
      CountReachesLast(before, row, |AcceptedChunks(f)|, now);
      assert rows == before + [counted];
      StatusReachesLast(before, counted, status, now);
      rows := SetStatus(rows, row.docId, status, now);
      if f.fault.FinishFault? { return false; }
      Activate(lg, row.docId, now);
      ActivationReachesLast(before, counted.(status := status), dataset, lg, now, rows);
      ok := true;
    }

    /** Record the failed attempt without payload; false when even that raises. */
    method RecordFailure(row: Row, lg: LogicalId, hadCurrent: bool, f: SourceFile, now: int) returns (ok: bool)
      requires SameDoc(row, dataset, lg) && row.updated == At(now) && row.status == Parsing
      requires row.version == NextVersion(rows, dataset, lg)
      requires row.chunkCount == 0 && !row.current
      modifies this`rows
      ensures ok <==> !f.recordFault && Fresh(old(rows), row.docId)
      ensures ok && hadCurrent ==>
                rows == old(rows) + [row.(status := Failed, lifecycle := FailedAttempt, deleted := At(now))]
      ensures ok && !hadCurrent ==>
                rows == Retire(old(rows), dataset, lg, now) + [Activated(row, Failed, 0, now)]
    {
      ok := Register(row);
      assert ok <==> Fresh(old(rows), row.docId) by {
        NextIsUnused(old(rows), dataset, lg, row);
      }
      if !ok || f.recordFault { return false; }
      ghost var before := old(rows);
      StatusReachesLast(before, row, Failed, now);
      rows := SetStatus(rows, row.docId, Failed, now);
      if hadCurrent {
        FailureReachesLast(before, row.(status := Failed), now);
        rows := SetFailedAttempt(rows, row.docId, now);
      } else {
        Activate(lg, row.docId, now);
        ActivationReachesLast(before, row.(status := Failed), dataset, lg, now, rows);
      }
    }

    /** Either the version with its payload, or after the rollback the bare failure, or nothing. */
    method TryInSavepoint(row: Row, lg: LogicalId, hadCurrent: bool, f: SourceFile, now: int)
      requires SameDoc(row, dataset, lg) && row.updated == At(now) && row.status == Parsing
      requires row.version == NextVersion(rows, dataset, lg)
      requires row.chunkCount == 0 && !row.current
      modifies this`rows, this`chunks, this`pages
      ensures Accepted(f) && Fresh(old(rows), row.docId) ==>
                && rows == Retire(old(rows), dataset, lg, now)
                           + [Activated(row, AcceptedStatus(f), |AcceptedChunks(f)|, now)]
                && chunks == old(chunks) + LinkedChunks(dataset, row.docId, AcceptedChunks(f))
                && pages == old(pages) + PageRows(row.docId, AcceptedPages(f))
      ensures !(Accepted(f) && Fresh(old(rows), row.docId)) ==>
                && chunks == old(chunks) && pages == old(pages)
                && rows == if f.recordFault || !Fresh(old(rows), row.docId) then old(rows)
                           else if hadCurrent
                           then old(rows) + [row.(status := Failed, lifecycle := FailedAttempt, deleted := At(now))]
                           else Retire(old(rows), dataset, lg, now) + [Activated(row, Failed, 0, now)]
    {
      var savedRows, savedChunks, savedPages := rows, chunks, pages;
      var ok := TryVersion(row, lg, f, now);
      if !ok {
        rows, chunks, pages := savedRows, savedChunks, savedPages;
        ok := RecordFailure(row, lg, hadCurrent, f, now);
        if !ok {
          rows := savedRows;
        }
      }
    }

    /** The per-file step of a run: keep the current version, or try a new one inside a savepoint
        and, when the attempt raises, roll back and record the failure. */
    method IngestFile(root: string, reset: bool, f: SourceFile, now: int)
      modifies this
      ensures Abs() == FileStep(old(Abs()), dataset, root, reset, f, now)
    {
      var lg := LogicalOf(dataset, f);
      var current := Current(rows, dataset, lg);
      var latest := Newest(rows, dataset, lg, false);
      if f.checksum.None? { return; }
      var c := f.checksum.value;
      if !reset && Settled(Abs(), dataset, lg, c) {
        var i := current.value;
        rows := rows[i := Touched(rows[i], root, f, now)];
        return;
      }
      var version := NextVersion(rows, dataset, lg);
      var supersedes := if latest.Some? then Some(rows[latest.value].docId) else None;
      var stored := CopyToRaw(f, c);
      if stored.None? { return; }
      var row := Row(Digest(dataset, lg, version, c), dataset, Some(lg), version, supersedes,
        false, Pending, f.name, Some(root), Normalize(f.relpath), stored.value, f.isPdf, true,
        f.classification, c, Parsing, 0, now, At(now), Null);
      assert row == Registered(rows, dataset, root, f, c, stored.value, now);
      TryInSavepoint(row, lg, current.Some?, f, now);
    }

    // ---------- After the last file ----------

    method MarkRemoved(root: string, seen: set<LogicalId>, now: int) returns (removed: seq<DocId>)
      modifies this`rows
      ensures Abs() == Sweep(old(Abs()), dataset, root, seen, now)
      ensures forall id :: id in removed <==>
                exists i :: 0 <= i < |old(rows)| && old(rows)[i].docId == id &&
                            Vanished(old(rows)[i], dataset, root, seen)
    {
      removed := [];
      var was, table := rows, rows;
      ghost var swept := Sweep(Abs(), dataset, root, seen, now).rows;
      for i := 0 to |was|
        invariant |table| == |was|
        invariant forall j :: 0 <= j < i ==> table[j] == swept[j]
        invariant forall j :: i <= j < |was| ==> table[j] == was[j]
        invariant forall id :: id in removed <==>
          exists j :: 0 <= j < i && was[j].docId == id && Missing(was[j], dataset, root, seen)
      {
        if Missing(was[i], dataset, root, seen) {
          removed := removed + [was[i].docId];
          table := table[i := Tombstone(was[i], now)];
        }
      }
      assert table == swept;
      rows := table;
    }

    /** Afterwards the registry lists exactly the searchable documents; with sound accounts its total, though
        counted by joining chunk rows, is the sum of their counts, and it is ready iff that is positive. */
    method SyncRegistry()
      modifies this`registry
      ensures Abs() == Sync(old(Abs()), dataset) && registry.Some?
      ensures Accounts(Abs()) && DistinctIds(rows) ==>
                && registry.value.chunkCount == SumCounts(rows, dataset)
                && (registry.value.ready <==> SumCounts(rows, dataset) > 0)
                && (forall id :: id in registry.value.docs <==>
                     exists i :: 0 <= i < |rows| && Listed(rows[i], dataset, id))
    {
      if Accounts(Abs()) && DistinctIds(rows) {
        RegistryTotals(Abs(), dataset);
      }
      var docs, count := SearchableDocs(rows, dataset), JoinCount(chunks, rows, dataset);
      registry := Some(Registry(docs, count, docs != [] && count > 0));
    }

    // ---------- Migration ----------

    /** Number, link and relabel one sorted group. */
    method RebuildGroup(ghost was: Store, ordered: seq<nat>, now: int)
      requires was.pages == pages && |rows| == |was.rows| && IsGroup(was.rows, names, ordered)
      requires forall k :: 0 <= k < |ordered| ==> rows[ordered[k]] == Named(was.rows, names, ordered[k])
      modifies this`rows
      ensures |rows| == |old(rows)|
      ensures forall i: nat :: i < |rows| && i !in ordered ==> rows[i] == old(rows)[i]
      ensures forall k :: 0 <= k < |ordered| ==> RebuiltAt(was, names, now, ordered[k], rows[ordered[k]])
    {
      SortedDistinct(was.rows, names, ordered);
      var chosen := LastUndeleted(rows, ordered);
      ghost var values := GroupRows(pages, rows, ordered, chosen, now);
      ScatterAll(rows, ordered, values);
      rows := Renumber(pages, rows, ordered, chosen, now);
      forall k | 0 <= k < |ordered| ensures RebuiltAt(was, names, now, ordered[k], rows[ordered[k]]) {
        NextInGroup(was, names, now, ordered, chosen, k, rows[ordered[k]]);
      }
    }

    /** First pass: settle the identity of every row. */
    method NameRows(before: seq<Row>)
      requires rows == before
      modifies this`rows
      ensures |rows| == |before|
      ensures forall j: nat :: j < |before| ==> rows[j] == Named(before, names, j)
    {
      for i := 0 to |before|
        invariant |rows| == |before|
        invariant forall j: nat :: j < i ==> rows[j] == Named(before, names, j)
        invariant forall j :: i <= j < |before| ==> rows[j] == before[j]
      {
        rows := rows[i := rows[i].(
          logical := Some(NewLogical(before, names, i)), relpath := NewRelpath(before, names, i))];
      }
    }

    /** The members of one group, sorted. */
    method GroupOf(before: seq<Row>, i: nat) returns (ordered: seq<nat>)
      requires i < |before|
      ensures IsGroup(before, names, ordered)
      ensures forall x: nat :: x < |before| ==> (x in ordered <==> SameGroup(before, names, i, x))
    {
      var members: seq<nat> := [];
      for j := 0 to |before|
        invariant forall x: nat :: x in members <==> x < j && SameGroup(before, names, i, x)
        invariant forall k, m :: 0 <= k < m < |members| ==> members[k] != members[m]
      {
        if SameGroup(before, names, i, j) { members := members + [j]; }
      }
      forall k | 0 <= k < |members| ensures members[k] < |before| {
        assert members[k] in members;
      }
      ordered := SortVersions(before, names, members);
      forall k, x: nat | 0 <= k < |ordered| && x < |before|
        ensures x in ordered <==> SameGroup(before, names, ordered[k], x)
      {
        assert ordered[k] in ordered;
      }
    }

    /** Runs on every open of the database. */
    method Migrate(now: int)
      modifies this`rows
      ensures Migrates(old(Abs()), names, now, Abs())
    {
      var before := rows;
      ghost var was := Abs();
      NameRows(before);
      for i := 0 to |before|
        invariant |rows| == |before|
        invariant forall j: nat :: j < |before| ==> Progress(was, names, now, i, j, rows[j])
      {
        VisitedNext(before, names, i);
        if !Visited(before, names, i, i) {
          var ordered := GroupOf(before, i);
          forall k | 0 <= k < |ordered| ensures rows[ordered[k]] == Named(before, names, ordered[k]) {
            assert ordered[k] in ordered && Progress(was, names, now, i, ordered[k], rows[ordered[k]]);
          }
          label walk:
          RebuildGroup(was, ordered, now);
          forall j: nat | j < |before| ensures Progress(was, names, now, i + 1, j, rows[j]) {
            assert Progress(was, names, now, i, j, old@walk(rows)[j]);
            assert j in ordered <==> SameGroup(before, names, i, j);
          }
        } else {
          forall j: nat | j < |before| ensures Progress(was, names, now, i + 1, j, rows[j]) {
            assert Progress(was, names, now, i, j, rows[j]);
          }
        }
      }
      forall j: nat | j < |before| ensures RebuiltAt(was, names, now, j, rows[j]) {
        assert Progress(was, names, now, |before|, j, rows[j]);
        assert SameGroup(before, names, j, j);
      }
    }

    // ---------- A run ----------

    /** Open, ingest every file, sweep, sync. `base` is the state after the migration. */
    method IngestDirectory(root: string, reset: bool, files: seq<SourceFile>, now: int)
      returns (removed: seq<DocId>, ghost base: Store)
      modifies this
      ensures Migrates(old(Abs()), names, now, base)
      ensures Abs() == RunOver(base, dataset, root, reset, files, now)
      ensures RowsInv(old(rows)) ==> Abs() == RunOver(old(Abs()), dataset, root, reset, files, now)
    {
      Migrate(now);
      base := Abs();
      if RowsInv(old(rows)) {
        MigrationIsIdentity(old(Abs()), names, now, base);
      }
      var seen: set<LogicalId> := {};
      for k := 0 to |files|
        invariant seen == Seen(dataset, files[..k])
        invariant Abs() == Scan(base, dataset, root, reset, files[..k], now)
      {
        seen := seen + {LogicalOf(dataset, files[k])};
        IngestFile(root, reset, files[k], now);
        assert files[..k + 1][..k] == files[..k];
      }
      assert files[..|files|] == files;
      removed := MarkRemoved(root, seen, now);
      SyncRegistry();
    }
  }

  /** The (document, version) index never refuses the next version. */
  lemma NextIsUnused(rows: seq<Row>, ds: string, lg: LogicalId, row: Row)
    requires SameDoc(row, ds, lg) && row.version == NextVersion(rows, ds, lg)
    ensures forall i :: 0 <= i < |rows| && SameKey(rows[i], row) ==> rows[i].version != row.version
  {
    forall i | 0 <= i < |rows| && SameKey(rows[i], row) ensures rows[i].version != row.version {
      assert SameDoc(rows[i], ds, lg);
    }
  }

  // ---------- Sorted groups ----------

  function Named(rows: seq<Row>, names: Names, i: nat): Row
    requires i < |rows|
  {
    rows[i].(logical := Some(NewLogical(rows, names, i)), relpath := NewRelpath(rows, names, i))
  }

  /** The group of `j` has its first member before `i`. */
  predicate Visited(rows: seq<Row>, names: Names, i: nat, j: nat)
    requires i <= |rows| && j < |rows|
  {
    exists h :: 0 <= h < i && SameGroup(rows, names, h, j)
  }

  /** Row `j` once the groups first met before `i` have been rebuilt. */
  ghost predicate Progress(was: Store, names: Names, now: int, i: nat, j: nat, r: Row)
    requires i <= |was.rows| && j < |was.rows|
  {
    if Visited(was.rows, names, i, j) then RebuiltAt(was, names, now, j, r) else r == Named(was.rows, names, j)
  }

  lemma VisitedNext(rows: seq<Row>, names: Names, i: nat)
    requires i < |rows|
    ensures forall j: nat :: j < |rows| ==>
              (Visited(rows, names, i + 1, j) <==> Visited(rows, names, i, j) || SameGroup(rows, names, i, j))
    ensures Visited(rows, names, i, i) ==>
              forall j: nat :: j < |rows| && SameGroup(rows, names, i, j) ==> Visited(rows, names, i, j)
    ensures !Visited(rows, names, i, i) ==>
              forall j: nat :: j < |rows| && SameGroup(rows, names, i, j) ==> !Visited(rows, names, i, j)
  {
    forall j: nat | j < |rows|
      ensures Visited(rows, names, i + 1, j) <==> Visited(rows, names, i, j) || SameGroup(rows, names, i, j)
    {
      if Visited(rows, names, i, j) {
        var h :| 0 <= h < i && SameGroup(rows, names, h, j);
        assert 0 <= h < i + 1;
      }
    }
    forall j: nat | j < |rows| && SameGroup(rows, names, i, j)
      ensures Visited(rows, names, i, j) <==> Visited(rows, names, i, i)
    {
      forall h: nat | h < i ensures SameGroup(rows, names, h, j) <==> SameGroup(rows, names, h, i) {
      }
    }
  }

  ghost predicate IsLastUndeleted(rows: seq<Row>, ordered: seq<nat>, chosen: Option<nat>)
    requires forall k :: 0 <= k < |ordered| ==> ordered[k] < |rows|
  {
    && (chosen.Some? ==> chosen.value < |ordered| && Undeleted(rows[ordered[chosen.value]]))
    && forall m :: 0 <= m < |ordered| && Undeleted(rows[ordered[m]]) ==> chosen.Some? && m <= chosen.value
  }

  /** What the walk writes to the k-th row of a sorted group. */
  function GroupRow(
    pages: seq<PageRow>, rows: seq<Row>, ordered: seq<nat>, chosen: Option<nat>, k: nat, now: int): Row
    requires k < |ordered| && forall m :: 0 <= m < |ordered| ==> ordered[m] < |rows|
  {
    var r, isCurrent := rows[ordered[k]], chosen == Some(k);
    r.(version := k + 1, current := isCurrent,
       supersedes := if k == 0 then None else Some(rows[ordered[k - 1]].docId),
       status := NewStatus(pages, r), lifecycle := NewLifecycle(r, isCurrent),
       deleted := NewDeleted(r, isCurrent, now))
  }

  function GroupRows(
    pages: seq<PageRow>, rows: seq<Row>, ordered: seq<nat>, chosen: Option<nat>, now: int): (r: seq<Row>)
    requires forall m :: 0 <= m < |ordered| ==> ordered[m] < |rows|
    ensures |r| == |ordered|
  {
    seq(|ordered|, k requires 0 <= k < |ordered| => GroupRow(pages, rows, ordered, chosen, k, now))
  }

  /** The table after writing the first `n` values to their places. */
  function Scatter<T>(table: seq<T>, places: seq<nat>, values: seq<T>, n: nat): (r: seq<T>)
    requires n <= |places| <= |values| && forall m :: 0 <= m < |places| ==> places[m] < |table|
    ensures |r| == |table|
  {
    if n == 0 then table else Scatter(table, places, values, n - 1)[places[n - 1] := values[n - 1]]
  }

  lemma {:induction false} ScatterAt<T>(table: seq<T>, places: seq<nat>, values: seq<T>, n: nat, i: nat)
    requires n <= |places| <= |values| && forall m :: 0 <= m < |places| ==> places[m] < |table|
    requires forall k, m :: 0 <= k < m < |places| ==> places[k] != places[m]
    requires i < |table|
    ensures (forall k :: 0 <= k < n ==> places[k] != i) ==> Scatter(table, places, values, n)[i] == table[i]
    ensures forall k :: 0 <= k < n && places[k] == i ==> Scatter(table, places, values, n)[i] == values[k]
    decreases n
  {
    if n > 0 {
      ScatterAt(table, places, values, n - 1, i);
    }
  }

  lemma ScatterAll<T>(table: seq<T>, places: seq<nat>, values: seq<T>)
    requires |places| == |values| && forall m :: 0 <= m < |places| ==> places[m] < |table|
    requires forall k, m :: 0 <= k < m < |places| ==> places[k] != places[m]
    ensures var r := Scatter(table, places, values, |places|);
            && (forall i: nat :: i < |table| && i !in places ==> r[i] == table[i])
            && (forall k :: 0 <= k < |places| ==> r[places[k]] == values[k])
  {
    var r := Scatter(table, places, values, |places|);
    forall i: nat | i < |table| && i !in places ensures r[i] == table[i] {
      ScatterAt(table, places, values, |places|, i);
    }
    forall k | 0 <= k < |places| ensures r[places[k]] == values[k] {
      ScatterAt(table, places, values, |places|, places[k]);
    }
  }

  ghost predicate Ascending(rows: seq<Row>, names: Names, ordered: seq<nat>) {
    && (forall k :: 0 <= k < |ordered| ==> ordered[k] < |rows|)
    && (forall k, m :: 0 <= k < m < |ordered| ==> Before(rows, names, ordered[k], ordered[m]))
  }

  /** A whole group in strictly increasing order. */
  ghost predicate IsGroup(rows: seq<Row>, names: Names, ordered: seq<nat>) {
    && Ascending(rows, names, ordered)
    && (forall k, x: nat :: 0 <= k < |ordered| && x < |rows| ==>
          (x in ordered <==> SameGroup(rows, names, ordered[k], x)))
  }

  lemma SortedDistinct(rows: seq<Row>, names: Names, ordered: seq<nat>)
    requires IsGroup(rows, names, ordered)
    ensures forall k, m :: 0 <= k < m < |ordered| ==> ordered[k] != ordered[m]
  {
    forall k, m | 0 <= k < m < |ordered| ensures ordered[k] != ordered[m] {
      BeforeIsTotal(rows, names, ordered[k], ordered[k]);
    }
  }

  ghost function Firsts(ordered: seq<nat>, k: nat): set<nat>
    requires k <= |ordered|
  {
    set m | 0 <= m < k :: ordered[m]
  }

  lemma {:induction false} FirstsCount(ordered: seq<nat>, k: nat)
    requires k <= |ordered|
    requires forall i, m :: 0 <= i < m < |ordered| ==> ordered[i] != ordered[m]
    ensures |Firsts(ordered, k)| == k
  {
    if k > 0 {
      FirstsCount(ordered, k - 1);
      assert Firsts(ordered, k) == Firsts(ordered, k - 1) + {ordered[k - 1]};
    }
  }

  /** The place of a row in its sorted group is its rank. */
  lemma PositionIsRank(rows: seq<Row>, names: Names, ordered: seq<nat>, k: nat)
    requires IsGroup(rows, names, ordered) && k < |ordered|
    ensures Rank(rows, names, ordered[k]) == k
  {
    SortedDistinct(rows, names, ordered);
    FirstsCount(ordered, k);
    var i := ordered[k];
    forall j: nat | j < |rows| ensures j in Earlier(rows, names, i) <==> j in Firsts(ordered, k) {
      if j in Earlier(rows, names, i) {
        assert j in ordered;
        var m :| 0 <= m < |ordered| && ordered[m] == j;
        BeforeIsTotal(rows, names, j, i);
        assert m < k;
      }
      if j in Firsts(ordered, k) {
        assert j in ordered;
      }
    }
    assert Earlier(rows, names, i) == Firsts(ordered, k);
  }

  /** The last undeleted row of the sorted group is the chosen one. */
  lemma LastIsChosen(rows: seq<Row>, names: Names, ordered: seq<nat>, chosen: Option<nat>, k: nat)
    requires IsGroup(rows, names, ordered) && k < |ordered|
    requires chosen.Some? ==> chosen.value < |ordered| && Undeleted(rows[ordered[chosen.value]])
    requires forall m :: 0 <= m < |ordered| && Undeleted(rows[ordered[m]]) ==> chosen.Some? && m <= chosen.value
    ensures Chosen(rows, names, ordered[k]) <==> chosen == Some(k)
  {
    var i := ordered[k];
    if chosen == Some(k) {
      forall j: nat | j < |rows| && SameGroup(rows, names, i, j) && Undeleted(rows[j])
        ensures !Before(rows, names, i, j)
      {
        assert j in ordered;
        var m :| 0 <= m < |ordered| && ordered[m] == j;
        BeforeIsTotal(rows, names, i, j);
      }
    } else if chosen.Some? {
      var j := ordered[chosen.value];
      assert j in ordered;
      assert SameGroup(rows, names, i, j);
    }
  }

  lemma NextInGroup(was: Store, names: Names, now: int, ordered: seq<nat>, chosen: Option<nat>, k: nat, t: Row)
    requires IsGroup(was.rows, names, ordered) && k < |ordered|
    requires chosen.Some? ==> chosen.value < |ordered| && Undeleted(was.rows[ordered[chosen.value]])
    requires forall m :: 0 <= m < |ordered| && Undeleted(was.rows[ordered[m]]) ==> chosen.Some? && m <= chosen.value
    requires var r := Named(was.rows, names, ordered[k]);
             t == r.(version := k + 1, current := chosen == Some(k),
                     supersedes := if k == 0 then None else Some(was.rows[ordered[k - 1]].docId),
                     status := NewStatus(was.pages, r), lifecycle := NewLifecycle(r, chosen == Some(k)),
                     deleted := NewDeleted(r, chosen == Some(k), now))
    ensures RebuiltAt(was, names, now, ordered[k], t)
  {
    PositionIsRank(was.rows, names, ordered, k);
    LastIsChosen(was.rows, names, ordered, chosen, k);
    if k > 0 {
      PositionIsRank(was.rows, names, ordered, k - 1);
      assert ordered[k - 1] in ordered;
      assert IsPredecessor(was.rows, names, ordered[k - 1], ordered[k]);
    }
  }
}
