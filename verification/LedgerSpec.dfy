/** What each step of the ingestion does to the tables, as functions of the state before it. */
module LedgerSpec {
  import opened Options
  import opened Paths
  import opened LedgerModel

  // ---------- Queries ----------

  predicate SameDoc(r: Row, ds: string, lg: LogicalId) {
    r.dataset == ds && r.logical == Some(lg)
  }

  predicate Live(r: Row) {
    r.current && r.lifecycle == Active && r.deleted == Null
  }

  predicate Newer(a: Row, b: Row) {
    a.version > b.version || (a.version == b.version && a.created > b.created)
  }

  /** The row that `ORDER BY version_no DESC, created_at DESC LIMIT 1` selects. */
  function Newest(rows: seq<Row>, ds: string, lg: LogicalId, liveOnly: bool): (best: Option<nat>)
    ensures best.Some? ==>
      && best.value < |rows|
      && SameDoc(rows[best.value], ds, lg) && (liveOnly ==> Live(rows[best.value]))
    ensures forall j :: 0 <= j < |rows| && SameDoc(rows[j], ds, lg) && (liveOnly ==> Live(rows[j])) ==>
      best.Some? && !Newer(rows[j], rows[best.value])
  {
    if rows == [] then None
    else
      var last := |rows| - 1;
      var best := Newest(rows[..last], ds, lg, liveOnly);
      if SameDoc(rows[last], ds, lg) && (liveOnly ==> Live(rows[last]))
         && (best.None? || Newer(rows[last], rows[best.value]))
      then Some(last) else best
  }

  function Current(rows: seq<Row>, ds: string, lg: LogicalId): Option<nat> {
    Newest(rows, ds, lg, true)
  }

  /** `COALESCE(MAX(version_no), 0)`. */
  function MaxVersion(rows: seq<Row>, ds: string, lg: LogicalId): (m: int)
    ensures forall j :: 0 <= j < |rows| && SameDoc(rows[j], ds, lg) ==> rows[j].version <= m
    ensures m != 0 ==> exists j :: 0 <= j < |rows| && SameDoc(rows[j], ds, lg) && rows[j].version == m
    ensures (forall j :: 0 <= j < |rows| ==> !SameDoc(rows[j], ds, lg)) ==> m == 0
  {
    var best := Newest(rows, ds, lg, false);
    if best.None? then 0 else rows[best.value].version
  }

  function NextVersion(rows: seq<Row>, ds: string, lg: LogicalId): int {
    var next := MaxVersion(rows, ds, lg) + 1;
    if next == 0 then 1 else next
  }

  predicate Fresh(rows: seq<Row>, id: DocId) {
    forall j :: 0 <= j < |rows| ==> rows[j].docId != id
  }

  function ChunksOf(chunks: seq<ChunkRow>, id: DocId): (r: seq<ChunkRow>)
    ensures forall c :: c in r <==> c in chunks && c.docId == id
  {
    if chunks == [] then []
    else
      var last := |chunks| - 1;
      ChunksOf(chunks[..last], id) + (if chunks[last].docId == id then [chunks[last]] else [])
  }

  // ---------- The raw directory ----------

  function RawTarget(raw: map<RawName, Checksum>, name: string, c: Checksum): RawName {
    if Plain(name) in raw && raw[Plain(name)] != c then Suffixed(name, c) else Plain(name)
  }

  predicate Holds(raw: map<RawName, Checksum>, target: RawName, c: Checksum) {
    target in raw && raw[target] == c
  }

  predicate CopySucceeds(raw: map<RawName, Checksum>, f: SourceFile, c: Checksum) {
    Holds(raw, RawTarget(raw, f.name, c), c) || f.copy.CopyOk?
  }

  function RawAfter(raw: map<RawName, Checksum>, f: SourceFile, c: Checksum): map<RawName, Checksum> {
    var target := RawTarget(raw, f.name, c);
    if Holds(raw, target, c) then raw
    else match f.copy
      case CopyOk => raw[target := c]
      case CopyFails(Some(partial)) => raw[target := partial]
      case CopyFails(None) => raw
  }

  // ---------- One file ----------

  function LogicalOf(ds: string, f: SourceFile): LogicalId {
    PathDigest(ds, Normalize(f.relpath))
  }

  /** The attempt reaches its RELEASE: nothing raised, or the classifier stopped it before the parser. */
  predicate Accepted(f: SourceFile) {
    f.fault.NoFault? && (f.classification.conflict || !f.outcome.ParserRaised?)
  }

  function AcceptedStatus(f: SourceFile): Status {
    if f.classification.conflict then ReviewRequired
    else if f.outcome.Scanned? then NeedsOcr else Indexed
  }

  function AcceptedChunks(f: SourceFile): seq<Chunk> {
    if f.classification.conflict || f.outcome.Scanned? then [] else f.outcome.chunks
  }

  function AcceptedPages(f: SourceFile): nat {
    if f.classification.conflict then 0 else f.outcome.pages
  }

  function IdOf(id: DocId, index: nat, c: Chunk): ChunkId {
    ChunkDigest(id, index, c.content, c.sourceRef)
  }

  /** Chunk rows are numbered from 1 and doubly linked. */
  function LinkedChunks(ds: string, id: DocId, chunks: seq<Chunk>): (r: seq<ChunkRow>)
    ensures |r| == |chunks|
    ensures forall k :: 0 <= k < |r| ==> r[k].docId == id && r[k].dataset == ds
  {
    seq(|chunks|, k requires 0 <= k < |chunks| =>
      ChunkRow(IdOf(id, k + 1, chunks[k]), ds, id, k + 1, chunks[k],
        if k > 0 then Some(IdOf(id, k, chunks[k - 1])) else None,
        if k + 1 < |chunks| then Some(IdOf(id, k + 2, chunks[k + 1])) else None))
  }

  function PageRows(id: DocId, count: nat): (r: seq<PageRow>)
    ensures |r| == count
    ensures forall k :: 0 <= k < |r| ==> r[k].docId == id
  {
    seq(count, k requires 0 <= k < count => PageRow(id, k + 1))
  }

  /** The row as it is inserted, before the outcome of the attempt is known. */
  function Registered(
    rows: seq<Row>, ds: string, root: string, f: SourceFile, c: Checksum, stored: RawName, now: int): Row
  {
    var lg := LogicalOf(ds, f);
    var version := NextVersion(rows, ds, lg);
    var latest := Newest(rows, ds, lg, false);
    Row(Digest(ds, lg, version, c), ds, Some(lg), version,
        if latest.Some? then Some(rows[latest.value].docId) else None,
        false, Pending, f.name, Some(root), Normalize(f.relpath), stored, f.isPdf, true,
        f.classification, c, Parsing, 0, now, At(now), Null)
  }

  predicate Superseding(r: Row, ds: string, lg: LogicalId) {
    SameDoc(r, ds, lg) && r.current && r.deleted == Null
  }

  /** Take the current version of one logical document out of use. */
  function Retire(rows: seq<Row>, ds: string, lg: LogicalId, now: int): (r: seq<Row>)
    ensures |r| == |rows|
  {
    seq(|rows|, i requires 0 <= i < |rows| =>
      if Superseding(rows[i], ds, lg)
      then rows[i].(lifecycle := Superseded, current := false, deleted := At(now), updated := At(now))
      else rows[i])
  }

  function Activated(r: Row, status: Status, chunkCount: int, now: int): Row {
    r.(status := status, chunkCount := chunkCount, lifecycle := Active, current := true,
       deleted := Null, updated := At(now))
  }

  function Touched(r: Row, root: string, f: SourceFile, now: int): Row {
    r.(sourceRoot := Some(root), relpath := Normalize(f.relpath), updated := At(now),
       classification := if r.classification.classifier != CLASSIFIER_VERSION then f.refreshed
                         else r.classification)
  }

  /** The current row is kept when it holds this very content, was parsed, and its raw copy is intact. */
  predicate Settled(s: Store, ds: string, lg: LogicalId, c: Checksum) {
    var cur := Current(s.rows, ds, lg);
    && cur.Some?
    && var r := s.rows[cur.value];
       && r.checksum == c
       && (r.status == Indexed || r.status == NeedsOcr)
       && Holds(s.raw, r.stored, r.checksum)
  }

  function FileStep(s: Store, ds: string, root: string, reset: bool, f: SourceFile, now: int): Store {
    if f.checksum.None? then s
    else
      var lg, c := LogicalOf(ds, f), f.checksum.value;
      if !reset && Settled(s, ds, lg, c) then
        var i := Current(s.rows, ds, lg).value;
        s.(rows := s.rows[i := Touched(s.rows[i], root, f, now)])
      else Attempt(s, ds, root, f, c, now)
  }

  /** A new version: active with its payload, or a bare record of the failure, or nothing. */
  function Attempt(s: Store, ds: string, root: string, f: SourceFile, c: Checksum, now: int): Store {
    AttemptRow(s, ds, LogicalOf(ds, f), Registered(s.rows, ds, root, f, c, RawTarget(s.raw, f.name, c), now), f, c, now)
  }

  /** What becomes of the row to be registered. */
  function AttemptRow(s: Store, ds: string, lg: LogicalId, row: Row, f: SourceFile, c: Checksum, now: int): Store {
    var raw := RawAfter(s.raw, f, c);
    if !CopySucceeds(s.raw, f, c) || !Fresh(s.rows, row.docId) then
      s.(raw := raw)
    else if Accepted(f) then
      var payload := AcceptedChunks(f);
      Store(Retire(s.rows, ds, lg, now) + [Activated(row, AcceptedStatus(f), |payload|, now)],
            s.chunks + LinkedChunks(ds, row.docId, payload),
            s.pages + PageRows(row.docId, AcceptedPages(f)), raw, s.registry)
    else if f.recordFault then
      s.(raw := raw)
    else if Current(s.rows, ds, lg).None? then
      s.(rows := Retire(s.rows, ds, lg, now) + [Activated(row, Failed, 0, now)], raw := raw)
    else
      s.(rows := s.rows + [row.(status := Failed, lifecycle := FailedAttempt, deleted := At(now))],
         raw := raw)
  }

  // ---------- After the last file ----------

  predicate Missing(r: Row, ds: string, root: string, seen: set<LogicalId>) {
    && r.dataset == ds && r.localDirectory && Live(r)
    && r.sourceRoot == Some(root)
    && (r.logical.None? || r.logical.value !in seen)
  }

  function Tombstone(r: Row, now: int): Row {
    r.(lifecycle := Removed, current := false, deleted := At(now), updated := At(now))
  }

  function Sweep(s: Store, ds: string, root: string, seen: set<LogicalId>, now: int): (s': Store)
    ensures |s'.rows| == |s.rows|
  {
    s.(rows := seq(|s.rows|, i requires 0 <= i < |s.rows| =>
      if Missing(s.rows[i], ds, root, seen) then Tombstone(s.rows[i], now) else s.rows[i]))
  }

  predicate Searchable(r: Row) {
    Live(r) && r.status == Indexed
  }

  function SearchableDocs(rows: seq<Row>, ds: string): (r: seq<DocId>)
  {
    if rows == [] then []
    else
      var last := rows[|rows| - 1];
      SearchableDocs(rows[..|rows| - 1], ds)
        + (if last.dataset == ds && Searchable(last) then [last.docId] else [])
  }

  /** `COUNT(*)` of the chunk rows joined with the searchable document rows. */
  function JoinCount(chunks: seq<ChunkRow>, rows: seq<Row>, ds: string): nat {
    if chunks == [] then 0
    else
      var last := chunks[|chunks| - 1];
      JoinCount(chunks[..|chunks| - 1], rows, ds)
        + (if last.dataset == ds then MatchCount(rows, last.docId) else 0)
  }

  function MatchCount(rows: seq<Row>, id: DocId): nat {
    if rows == [] then 0
    else
      var last := rows[|rows| - 1];
      MatchCount(rows[..|rows| - 1], id) + (if last.docId == id && Searchable(last) then 1 else 0)
  }

  function Sync(s: Store, ds: string): Store {
    var docs, count := SearchableDocs(s.rows, ds), JoinCount(s.chunks, s.rows, ds);
    s.(registry := Some(Registry(docs, count, docs != [] && count > 0)))
  }

  // ---------- One run over a directory ----------

  function Scan(s: Store, ds: string, root: string, reset: bool, files: seq<SourceFile>, now: int): Store {
    if files == [] then s
    else
      var last := |files| - 1;
      FileStep(Scan(s, ds, root, reset, files[..last], now), ds, root, reset, files[last], now)
  }

  function Seen(ds: string, files: seq<SourceFile>): set<LogicalId> {
    set f | f in files :: LogicalOf(ds, f)
  }

  function RunOver(s: Store, ds: string, root: string, reset: bool, files: seq<SourceFile>, now: int): Store {
    Sync(Sweep(Scan(s, ds, root, reset, files, now), ds, root, Seen(ds, files), now), ds)
  }
}
