/** What a file step, a run and the chunk writer put into the tables, column by column. */
module LedgerColumns {
  import opened Options
  import opened Paths
  import opened LedgerModel
  import opened LedgerSpec
  import opened LedgerInvariant

  // ---------- Raw copies ----------

  /** Name and content of the copy: the plain name, unless other content lies there; a good copy is there
      afterwards, a broken one leaves what it leaves, and nothing else is touched. */
  lemma CopyTells(raw: map<RawName, Checksum>, f: SourceFile, c: Checksum)
    ensures var target := RawTarget(raw, f.name, c);
      && target == (if Plain(f.name) in raw && raw[Plain(f.name)] != c then Suffixed(f.name, c) else Plain(f.name))
      && RawAfter(raw, f, c) ==
           (if target in raw && raw[target] == c then raw
            else match f.copy
                 case CopyOk => raw[target := c]
                 case CopyFails(Some(rest)) => raw[target := rest]
                 case CopyFails(None) => raw)
      && (CopySucceeds(raw, f, c) <==> (target in raw && raw[target] == c) || f.copy == CopyOk)
  {
  }

  // ---------- Reuse ----------

  /** A row that makes a further attempt needless. */
  predicate KeepsContent(s: Store, r: Row, ds: string, lg: LogicalId, c: Checksum) {
    && r.dataset == ds && r.logical == Some(lg)
    && r.current && r.lifecycle == Active && r.deleted == Null
    && r.checksum == c && (r.status == Indexed || r.status == NeedsOcr)
    && r.stored in s.raw && s.raw[r.stored] == r.checksum
  }

  ghost predicate Reuses(s: Store, ds: string, reset: bool, f: SourceFile, i: nat) {
    && !reset && f.checksum.Some? && i < |s.rows|
    && KeepsContent(s, s.rows[i], ds, PathDigest(ds, Normalize(f.relpath)), f.checksum.value)
  }

  /** Such a row is the one that is reused: it learns where the file is now and takes a fresh verdict when its
      classifier is outdated. Nothing else changes. */
  lemma ReuseTells(s: Store, ds: string, root: string, reset: bool, f: SourceFile, now: int, i: nat)
    requires RowsInv(s.rows) && Reuses(s, ds, reset, f, i)
    ensures var t, r := FileStep(s, ds, root, reset, f, now), s.rows[i];
      && t == s.(rows := t.rows) && |t.rows| == |s.rows|
      && (forall k :: 0 <= k < |s.rows| && k != i ==> t.rows[k] == s.rows[k])
      && t.rows[i] == r.(sourceRoot := Some(root), relpath := Normalize(f.relpath), updated := At(now),
           classification := if r.classification.classifier == CLASSIFIER_VERSION then r.classification
                             else f.refreshed)
  {
    OnlyCurrent(s.rows, ds, PathDigest(ds, Normalize(f.relpath)), i);
  }

  lemma SettledTells(s: Store, ds: string, lg: LogicalId, c: Checksum)
    requires RowsInv(s.rows)
    ensures Settled(s, ds, lg, c) <==> exists i :: 0 <= i < |s.rows| && KeepsContent(s, s.rows[i], ds, lg, c)
  {
    if i :| 0 <= i < |s.rows| && KeepsContent(s, s.rows[i], ds, lg, c) {
      OnlyCurrent(s.rows, ds, lg, i);
    }
    if Settled(s, ds, lg, c) {
      assert KeepsContent(s, s.rows[Current(s.rows, ds, lg).value], ds, lg, c);
    }
  }

  // ---------- New versions ----------

  /** The attempt ends without an exception. */
  predicate Succeeds(f: SourceFile) {
    f.fault == NoFault && (f.classification.conflict || !f.outcome.ParserRaised?)
  }

  /** What every added row says about its file and its place in the history. */
  ghost predicate Describes(s: Store, r: Row, ds: string, root: string, f: SourceFile, now: int) {
    && f.checksum.Some? && r.dataset == ds && r.logical == Some(PathDigest(ds, Normalize(f.relpath)))
    && r.filename == f.name && r.sourceRoot == Some(root) && r.relpath == Normalize(f.relpath)
    && r.localDirectory && r.isPdf == f.isPdf && r.classification == f.classification
    && r.checksum == f.checksum.value && r.created == now && r.updated == At(now)
    && r.docId == Digest(ds, PathDigest(ds, Normalize(f.relpath)), r.version, r.checksum)
    && r.stored == (if Plain(f.name) in s.raw && s.raw[Plain(f.name)] != r.checksum
                    then Suffixed(f.name, r.checksum) else Plain(f.name))
  }

  /** The version is one above all others of the document, and the row names the one below. */
  ghost predicate Follows(rows: seq<Row>, r: Row) {
    && (forall k :: 0 <= k < |rows| && SameKey(rows[k], r) ==> rows[k].version < r.version)
    && if forall k :: 0 <= k < |rows| ==> !SameKey(rows[k], r) then r.version == 1 && r.supersedes == None
       else exists k :: 0 <= k < |rows| && SameKey(rows[k], r) && rows[k].version == r.version - 1
              && r.supersedes == Some(rows[k].docId)
  }

  lemma AddedRowTells(s: Store, ds: string, root: string, reset: bool, f: SourceFile, now: int)
    requires RowsInv(s.rows)
    ensures var t := FileStep(s, ds, root, reset, f, now);
      && |s.rows| <= |t.rows| <= |s.rows| + 1
      && (|t.rows| > |s.rows| ==>
            Describes(s, t.rows[|s.rows|], ds, root, f, now) && Follows(s.rows, t.rows[|s.rows|]))
  {
    AddedIsRegistered(s, ds, root, reset, f, now);
    var t := FileStep(s, ds, root, reset, f, now);
    if |t.rows| > |s.rows| {
      var c := f.checksum.value;
      RegisteredFollows(s.rows, ds, root, f, c, RawTarget(s.raw, f.name, c), now);
      FollowsCarries(
        s.rows, Registered(s.rows, ds, root, f, c, RawTarget(s.raw, f.name, c), now), t.rows[|s.rows|]);
      RegisteredDescribes(s, ds, root, f, now, t.rows[|s.rows|]);
    }
  }

  /** All columns that registration fills and the outcome leaves alone. */
  predicate AsRegistered(r: Row, r': Row) {
    r' == r.(status := r'.status, chunkCount := r'.chunkCount, current := r'.current, lifecycle := r'.lifecycle,
             deleted := r'.deleted)
  }

  lemma AddedIsRegistered(s: Store, ds: string, root: string, reset: bool, f: SourceFile, now: int)
    ensures var t := FileStep(s, ds, root, reset, f, now);
      && |s.rows| <= |t.rows| <= |s.rows| + 1
      && (|t.rows| > |s.rows| ==> f.checksum.Some? && AsRegistered(
            Registered(s.rows, ds, root, f, f.checksum.value, RawTarget(s.raw, f.name, f.checksum.value), now),
            t.rows[|s.rows|]))
  {
  }

  lemma RegisteredDescribes(s: Store, ds: string, root: string, f: SourceFile, now: int, r: Row)
    requires f.checksum.Some? && AsRegistered(
      Registered(s.rows, ds, root, f, f.checksum.value, RawTarget(s.raw, f.name, f.checksum.value), now), r)
    ensures Describes(s, r, ds, root, f, now)
  {
  }

  lemma FollowsCarries(rows: seq<Row>, r: Row, r': Row)
    requires Follows(rows, r) && SameKey(r, r') && r.version == r'.version && r.supersedes == r'.supersedes
    ensures Follows(rows, r')
  {
    forall k | 0 <= k < |rows| ensures SameKey(rows[k], r) <==> SameKey(rows[k], r') {
    }
  }

  lemma RegisteredFollows(rows: seq<Row>, ds: string, root: string, f: SourceFile, c: Checksum, stored: RawName,
                          now: int)
    requires RowsInv(rows)
    ensures Follows(rows, Registered(rows, ds, root, f, c, stored, now))
  {
    var lg, r := LogicalOf(ds, f), Registered(rows, ds, root, f, c, stored, now);
    NextLink(rows, ds, lg);
    RegisteredContinues(rows, ds, lg, r);
    var latest := Newest(rows, ds, lg, false);
    if latest.Some? {
      assert SameKey(rows[latest.value], r);
    }
    forall k | 0 <= k < |rows| && SameKey(rows[k], r) ensures latest.Some? {
      assert SameDoc(rows[k], ds, lg);
    }
  }

  /** A good attempt: the new row is the current one. */
  lemma GoodAttemptTells(s: Store, ds: string, root: string, reset: bool, f: SourceFile, now: int)
    requires f.checksum.Some? && Succeeds(f)
    requires |FileStep(s, ds, root, reset, f, now).rows| > |s.rows|
    ensures var t, n := FileStep(s, ds, root, reset, f, now), |s.rows|;
      && |t.rows| == n + 1 && var r := t.rows[n];
      && r.current && r.lifecycle == Active && r.deleted == Null
      && r.status == (if f.classification.conflict then ReviewRequired
                      else if f.outcome.Scanned? then NeedsOcr else Indexed)
      && r.chunkCount == |t.chunks| - |s.chunks| && t.registry == s.registry
  {
  }

  /** The row that was current before is superseded. */
  lemma GoodAttemptReplaces(s: Store, ds: string, root: string, reset: bool, f: SourceFile, now: int, k: nat)
    requires f.checksum.Some? && Succeeds(f) && k < |s.rows|
    requires |FileStep(s, ds, root, reset, f, now).rows| > |s.rows|
    ensures var t := FileStep(s, ds, root, reset, f, now);
      t.rows[k] == Replaced(s.rows[k], ds, Some(PathDigest(ds, Normalize(f.relpath))), now)
  {
  }

  /** The payload of a good attempt is what the parser gave, or nothing after a company conflict. */
  lemma GoodPayloadTells(s: Store, ds: string, root: string, reset: bool, f: SourceFile, now: int)
    requires f.checksum.Some? && Succeeds(f)
    requires |FileStep(s, ds, root, reset, f, now).rows| > |s.rows|
    ensures var t := FileStep(s, ds, root, reset, f, now);
      Appends(s, t, ds, t.rows[|s.rows|].docId,
        if f.classification.conflict || f.outcome.Scanned? then [] else f.outcome.chunks,
        if f.classification.conflict then 0 else f.outcome.pages)
  {
    var t := FileStep(s, ds, root, reset, f, now);
    LinkedChunksTell(ds, t.rows[|s.rows|].docId, AcceptedChunks(f));
  }

  /** A row of the document that was current is superseded; every other row stays. */
  function Replaced(r: Row, ds: string, lg: Option<LogicalId>, now: int): Row {
    if r.dataset == ds && r.logical == lg && r.current && r.deleted == Null
    then r.(current := false, lifecycle := Superseded, deleted := At(now), updated := At(now))
    else r
  }

  /** A failed attempt that leaves a row: without payload, and current only as the first of its document. */
  lemma FailedAttemptTells(s: Store, ds: string, root: string, reset: bool, f: SourceFile, now: int)
    requires f.checksum.Some? && !Succeeds(f)
    requires |FileStep(s, ds, root, reset, f, now).rows| > |s.rows|
    ensures var t, n := FileStep(s, ds, root, reset, f, now), |s.rows|;
      && |t.rows| == n + 1 && var r := t.rows[n];
      && r.status == Failed && r.chunkCount == 0
      && t.chunks == s.chunks && t.pages == s.pages && t.registry == s.registry
      && if exists k :: 0 <= k < n && IsCurrent(s.rows[k], ds, r.logical)
         then !r.current && r.lifecycle == FailedAttempt && r.deleted == At(now) && t.rows == s.rows + [r]
         else && r.current && r.lifecycle == Active && r.deleted == Null
              && forall k :: 0 <= k < n ==> t.rows[k] == Replaced(s.rows[k], ds, r.logical, now)
  {
    var cur := Current(s.rows, ds, LogicalOf(ds, f));
    assert cur.Some? ==> IsCurrent(s.rows[cur.value], ds, Some(LogicalOf(ds, f)));
    forall k | 0 <= k < |s.rows| && IsCurrent(s.rows[k], ds, Some(LogicalOf(ds, f))) ensures cur.Some? {
      assert SameDoc(s.rows[k], ds, LogicalOf(ds, f)) && Live(s.rows[k]);
    }
  }

  predicate IsCurrent(r: Row, ds: string, lg: Option<LogicalId>) {
    r.dataset == ds && r.logical == lg && r.current && r.lifecycle == Active && r.deleted == Null
  }

  /** A step that adds no row and reuses none changes the raw directory at most, as the copy says. */
  lemma NothingAddedTells(s: Store, ds: string, root: string, reset: bool, f: SourceFile, now: int)
    requires RowsInv(s.rows) && |FileStep(s, ds, root, reset, f, now).rows| == |s.rows|
    requires forall i: nat :: !Reuses(s, ds, reset, f, i)
    ensures FileStep(s, ds, root, reset, f, now) ==
      s.(raw := if f.checksum.None? then s.raw else RawAfter(s.raw, f, f.checksum.value))
  {
    if f.checksum.Some? {
      SettledTells(s, ds, LogicalOf(ds, f), f.checksum.value);
      if !reset && Settled(s, ds, LogicalOf(ds, f), f.checksum.value) {
        var i := Current(s.rows, ds, LogicalOf(ds, f)).value;
        assert Reuses(s, ds, reset, f, i);
        assert false;
      }
    }
  }

  // ---------- Payload ----------

  /** Chunk rows numbered from one with the given contents and a link each way between neighbours. */
  ghost predicate IsChain(built: seq<ChunkRow>, ds: string, id: DocId, bodies: seq<Chunk>) {
    && |built| == |bodies|
    && (forall k :: 0 <= k < |built| ==> IsNumbered(built[k], ds, id, k + 1, bodies[k]))
    && (forall k, m :: 0 <= k < m < |built| ==> built[k].id != built[m].id)
    && (built != [] ==> built[0].prev == None && built[|built| - 1].next == None)
    && (forall k :: 0 <= k < |built| - 1 ==> Neighbours(built, k))
  }

  predicate IsNumbered(row: ChunkRow, ds: string, id: DocId, index: nat, body: Chunk) {
    && row.dataset == ds && row.docId == id && row.index == index && row.chunk == body
    && row.id == ChunkDigest(id, index, body.content, body.sourceRef)
  }

  predicate Neighbours(built: seq<ChunkRow>, k: nat)
    requires k + 1 < |built|
  {
    built[k].next == Some(built[k + 1].id) && built[k + 1].prev == Some(built[k].id)
  }

  /** Page rows numbered from one. */
  predicate ArePages(pages: seq<PageRow>, id: DocId, count: nat) {
    |pages| == count && forall k :: 0 <= k < count ==> pages[k] == PageRow(id, k + 1)
  }

  ghost predicate Appends(s: Store, t: Store, ds: string, id: DocId, bodies: seq<Chunk>, count: nat) {
    && s.chunks <= t.chunks && IsChain(t.chunks[|s.chunks|..], ds, id, bodies)
    && s.pages <= t.pages && ArePages(t.pages[|s.pages|..], id, count)
  }

  lemma LinkedChunksTell(ds: string, id: DocId, bodies: seq<Chunk>)
    ensures IsChain(LinkedChunks(ds, id, bodies), ds, id, bodies)
  {
    var built := LinkedChunks(ds, id, bodies);
    forall k | 0 <= k < |built| ensures AtPlace(built, ds, id, bodies, k) {
    }
    PlacesMakeChain(built, ds, id, bodies);
  }

  ghost predicate AtPlace(built: seq<ChunkRow>, ds: string, id: DocId, bodies: seq<Chunk>, k: nat)
    requires k < |built| == |bodies|
  {
    && IsNumbered(built[k], ds, id, k + 1, bodies[k])
    && built[k].prev == (if k == 0 then None else Some(IdOf(id, k, bodies[k - 1])))
    && built[k].next == (if k + 1 == |bodies| then None else Some(IdOf(id, k + 2, bodies[k + 1])))
  }

  lemma PlacesMakeChain(built: seq<ChunkRow>, ds: string, id: DocId, bodies: seq<Chunk>)
    requires |built| == |bodies| && forall k :: 0 <= k < |built| ==> AtPlace(built, ds, id, bodies, k)
    ensures IsChain(built, ds, id, bodies)
  {
    forall k | 0 <= k < |built| ensures IsNumbered(built[k], ds, id, k + 1, bodies[k]) {
      assert AtPlace(built, ds, id, bodies, k);
    }
    forall k, m | 0 <= k < m < |built| ensures built[k].id != built[m].id {
      assert AtPlace(built, ds, id, bodies, k) && AtPlace(built, ds, id, bodies, m);
    }
    forall k | 0 <= k < |built| - 1 ensures Neighbours(built, k) {
      assert AtPlace(built, ds, id, bodies, k) && AtPlace(built, ds, id, bodies, k + 1);
    }
    if built != [] {
      assert AtPlace(built, ds, id, bodies, 0) && AtPlace(built, ds, id, bodies, |built| - 1);
    }
  }

  /** These conditions leave no choice: one list of chunk rows meets them. */
  lemma ChainIsUnique(a: seq<ChunkRow>, b: seq<ChunkRow>, ds: string, id: DocId, bodies: seq<Chunk>)
    requires IsChain(a, ds, id, bodies) && IsChain(b, ds, id, bodies)
    ensures a == b
  {
    forall k | 0 <= k < |a| ensures a[k] == b[k] {
      if k > 0 {
        assert Neighbours(a, k - 1) && Neighbours(b, k - 1);
      }
      if k + 1 < |a| {
        assert Neighbours(a, k) && Neighbours(b, k);
      }
    }
  }

  // ---------- The sweep ----------

  /** A current local row recorded under this root whose document was not seen. */
  predicate Vanished(r: Row, ds: string, root: string, seen: set<LogicalId>) {
    && r.dataset == ds && r.localDirectory && r.sourceRoot == Some(root)
    && r.current && r.lifecycle == Active && r.deleted == Null
    && (r.logical.Some? ==> r.logical.value !in seen)
  }

  /** Just these rows are tombstoned: rows of other datasets, of other or unknown roots, rows that did not come
      from a directory and rows out of use stay as they are. */
  lemma SweepTells(s: Store, ds: string, root: string, seen: set<LogicalId>, now: int)
    ensures var t := Sweep(s, ds, root, seen, now);
      && t == s.(rows := t.rows) && |t.rows| == |s.rows|
      && forall i :: 0 <= i < |s.rows| ==>
           if Vanished(s.rows[i], ds, root, seen)
           then t.rows[i] == s.rows[i].(lifecycle := Removed, current := false, deleted := At(now), updated := At(now))
           else t.rows[i] == s.rows[i]
  {
  }
}
