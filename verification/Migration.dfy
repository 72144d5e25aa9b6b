/** The migration that every open of the database runs: it rebuilds version numbers, links and
    lifecycle from whatever the table holds. Specified by rank, without sorting or grouping. */
module Migration {
  import opened Options
  import Orders
  import opened Paths
  import opened LedgerModel
  import opened LedgerSpec
  import opened LedgerInvariant

  /** Two facts about the text of an identifier: its sort position and its first 12 characters. */
  datatype Names = Names(order: DocId -> int, short: DocId -> string)

  // ---------- Identity ----------

  function Fallback(r: Row): string {
    Normalize(if r.relpath != "" then r.relpath else r.filename)
  }

  predicate SharesLegacyPath(a: Row, b: Row) {
    a.logical.None? && b.logical.None? && a.dataset == b.dataset && Fallback(a) == Fallback(b)
  }

  /** More than one row without a logical id claims this path. */
  predicate Ambiguous(rows: seq<Row>, i: nat)
    requires i < |rows|
  {
    exists j :: 0 <= j < |rows| && j != i && SharesLegacyPath(rows[j], rows[i])
  }

  /** `Path(name).name`: the last component that is neither empty nor a dot. */
  function BaseName(s: string): string {
    if s == "" || s == "." then ""
    else if s[|s| - 1] == '/' then BaseName(s[..|s| - 1])
    else if |s| >= 2 && s[|s| - 2..] == "/." then BaseName(s[..|s| - 1])
    else LastComponent(s)
  }

  /** What stands behind the last slash. */
  function LastComponent(s: string): string {
    if s == "" || s[|s| - 1] == '/' then "" else LastComponent(s[..|s| - 1]) + [s[|s| - 1]]
  }

  function NewRelpath(rows: seq<Row>, names: Names, i: nat): string
    requires i < |rows|
  {
    if Ambiguous(rows, i)
    then Normalize("__legacy_ambiguous__/" + names.short(rows[i].docId) + "/" + BaseName(rows[i].filename))
    else Fallback(rows[i])
  }

  function NewLogical(rows: seq<Row>, names: Names, i: nat): LogicalId
    requires i < |rows|
  {
    match rows[i].logical
    case Some(lg) => lg
    case None => PathDigest(rows[i].dataset, NewRelpath(rows, names, i))
  }

  predicate SameGroup(rows: seq<Row>, names: Names, i: nat, j: nat)
    requires i < |rows| && j < |rows|
  {
    rows[i].dataset == rows[j].dataset && NewLogical(rows, names, i) == NewLogical(rows, names, j)
  }

  // ---------- Order ----------

  /** `i` sorts before `j` by (version, creation time, identifier). */
  predicate Before(rows: seq<Row>, names: Names, i: nat, j: nat)
    requires i < |rows| && j < |rows|
  {
    var a, b := rows[i], rows[j];
    a.version < b.version || (a.version == b.version &&
      (a.created < b.created || (a.created == b.created &&
        (names.order(a.docId) < names.order(b.docId) || (names.order(a.docId) == names.order(b.docId) &&
          i < j)))))
  }

  function Earlier(rows: seq<Row>, names: Names, i: nat): set<nat>
    requires i < |rows|
  {
    set j: nat | j < |rows| && SameGroup(rows, names, i, j) && Before(rows, names, j, i)
  }

  function Rank(rows: seq<Row>, names: Names, i: nat): nat
    requires i < |rows|
  {
    |Earlier(rows, names, i)|
  }

  // ---------- Lifecycle ----------

  /** Python's `not row["deleted_at"]`: NULL and the empty string both count. */
  predicate Undeleted(r: Row) {
    !r.deleted.At?
  }

  predicate Chosen(rows: seq<Row>, names: Names, i: nat)
    requires i < |rows|
  {
    && Undeleted(rows[i])
    && forall j: nat :: j < |rows| && SameGroup(rows, names, i, j) && Undeleted(rows[j]) ==>
         !Before(rows, names, i, j)
  }

  predicate LegacyStatus(s: Status) {
    s == LegacyRemoved || s == LegacySuperseded
  }

  predicate HasPages(pages: seq<PageRow>, id: DocId) {
    exists k :: 0 <= k < |pages| && pages[k].docId == id
  }

  function NewStatus(pages: seq<PageRow>, r: Row): Status {
    if !LegacyStatus(r.status) then r.status
    else if r.chunkCount > 0 then Indexed
    else if r.isPdf && HasPages(pages, r.docId) then NeedsOcr
    else Failed
  }

  function StatedLifecycle(r: Row): Lifecycle {
    if r.status == LegacyRemoved then Removed
    else if r.status == LegacySuperseded then Superseded
    else if r.lifecycle == OtherLifecycle("") then Active
    else r.lifecycle
  }

  function NewLifecycle(r: Row, chosen: bool): Lifecycle {
    if chosen then Active
    else if Undeleted(r) || StatedLifecycle(r) == Active then Superseded
    else StatedLifecycle(r)
  }

  function NewDeleted(r: Row, chosen: bool, now: int): Stamp {
    if chosen || !Undeleted(r) then r.deleted
    else if r.updated.At? then r.updated else At(now)
  }

  // ---------- The relation between the tables before and after ----------

  function Relived(s: Store, names: Names, now: int, i: nat, supersedes: Option<DocId>): Row
    requires i < |s.rows|
  {
    var r, chosen := s.rows[i], Chosen(s.rows, names, i);
    r.(logical := Some(NewLogical(s.rows, names, i)), relpath := NewRelpath(s.rows, names, i),
       version := Rank(s.rows, names, i) + 1, supersedes := supersedes, current := chosen,
       status := NewStatus(s.pages, r), lifecycle := NewLifecycle(r, chosen),
       deleted := NewDeleted(r, chosen, now))
  }

  ghost predicate IsPredecessor(rows: seq<Row>, names: Names, p: nat, i: nat)
    requires p < |rows| && i < |rows|
  {
    SameGroup(rows, names, i, p) && Rank(rows, names, p) == Rank(rows, names, i) - 1
  }

  ghost predicate SupersedesRight(rows: seq<Row>, names: Names, i: nat, supersedes: Option<DocId>)
    requires i < |rows|
  {
    if Rank(rows, names, i) == 0 then supersedes == None
    else exists p: nat :: p < |rows| && IsPredecessor(rows, names, p, i) && supersedes == Some(rows[p].docId)
  }

  ghost predicate RebuiltAt(s: Store, names: Names, now: int, i: nat, t: Row)
    requires i < |s.rows|
  {
    t == Relived(s, names, now, i, t.supersedes) && SupersedesRight(s.rows, names, i, t.supersedes)
  }

  ghost predicate Migrates(s: Store, names: Names, now: int, t: Store) {
    && t == s.(rows := t.rows)
    && |t.rows| == |s.rows|
    && forall i: nat :: i < |s.rows| ==> RebuiltAt(s, names, now, i, t.rows[i])
  }

  /** What a legacy table must satisfy: no row that will be chosen carries an empty `deleted_at`,
      and no deleted row is still marked pending. */
  ghost predicate Repairable(s: Store, names: Names) {
    forall i: nat :: i < |s.rows| ==> RepairableAt(s, names, i)
  }

  ghost predicate RepairableAt(s: Store, names: Names, i: nat)
    requires i < |s.rows|
  {
    && (Chosen(s.rows, names, i) ==> s.rows[i].deleted == Null)
    && (s.rows[i].deleted.At? && s.rows[i].lifecycle == Pending ==> LegacyStatus(s.rows[i].status))
  }

  // ---------- Ranks ----------

  lemma BeforeIsTotal(rows: seq<Row>, names: Names, i: nat, j: nat)
    requires i < |rows| && j < |rows|
    ensures !(Before(rows, names, i, j) && Before(rows, names, j, i))
    ensures i != j ==> Before(rows, names, i, j) || Before(rows, names, j, i)
  {
  }

  lemma BeforeTransitive(rows: seq<Row>, names: Names, i: nat, j: nat, k: nat)
    requires i < |rows| && j < |rows| && k < |rows|
    requires Before(rows, names, i, j) && Before(rows, names, j, k)
    ensures Before(rows, names, i, k)
  {
  }

  lemma RankMonotone(rows: seq<Row>, names: Names, i: nat, j: nat)
    requires i < |rows| && j < |rows| && SameGroup(rows, names, i, j) && Before(rows, names, i, j)
    ensures Rank(rows, names, i) < Rank(rows, names, j)
  {
    var a, b := Earlier(rows, names, i), Earlier(rows, names, j);
    forall k | k in a ensures k in b {
      BeforeTransitive(rows, names, k, i, j);
    }
    BeforeIsTotal(rows, names, i, i);
    assert i in b && i !in a;
    Orders.SubsetCard(a + {i}, b);
  }

  /** Rank orders a group exactly as the sort does. */
  lemma RankOrders(rows: seq<Row>, names: Names, i: nat, j: nat)
    requires i < |rows| && j < |rows| && SameGroup(rows, names, i, j)
    ensures Rank(rows, names, i) < Rank(rows, names, j) <==> Before(rows, names, i, j)
    ensures Rank(rows, names, i) == Rank(rows, names, j) <==> i == j
  {
    BeforeIsTotal(rows, names, i, j);
    if Before(rows, names, i, j) {
      RankMonotone(rows, names, i, j);
    } else if Before(rows, names, j, i) {
      RankMonotone(rows, names, j, i);
    }
  }

  // ---------- The migration establishes the invariant ----------

  lemma GroupsBecomeKeys(s: Store, names: Names, now: int, t: Store, i: nat, j: nat)
    requires Migrates(s, names, now, t) && i < |s.rows| && j < |s.rows|
    ensures SameKey(t.rows[i], t.rows[j]) <==> SameGroup(s.rows, names, i, j)
  {
    assert RebuiltAt(s, names, now, i, t.rows[i]) && RebuiltAt(s, names, now, j, t.rows[j]);
  }

  lemma NewPathIsCanonical(rows: seq<Row>, names: Names, i: nat)
    requires i < |rows|
    ensures Canonical(NewRelpath(rows, names, i))
  {
    NormalizeIsCanonical("__legacy_ambiguous__/" + names.short(rows[i].docId) + "/" + BaseName(rows[i].filename));
    NormalizeIsCanonical(if rows[i].relpath != "" then rows[i].relpath else rows[i].filename);
  }

  lemma MigratedRowsOk(s: Store, names: Names, now: int, t: Store)
    requires Migrates(s, names, now, t)
    ensures (forall i :: 0 <= i < |t.rows| ==> RowOk(t.rows[i])) <==> Repairable(s, names)
  {
    forall i: nat | i < |s.rows| ensures RowOk(t.rows[i]) <==> RepairableAt(s, names, i) {
      MigratedRowOk(s, names, now, t, i);
    }
  }

  lemma MigratedRowOk(s: Store, names: Names, now: int, t: Store, i: nat)
    requires Migrates(s, names, now, t) && i < |s.rows|
    ensures RowOk(t.rows[i]) <==> RepairableAt(s, names, i)
  {
    assert RebuiltAt(s, names, now, i, t.rows[i]);
    NewPathIsCanonical(s.rows, names, i);
  }

  lemma MigratedLinks(s: Store, names: Names, now: int, t: Store, i: nat)
    requires Migrates(s, names, now, t) && i < |s.rows|
    ensures LinkedAt(t.rows, i)
  {
    assert RebuiltAt(s, names, now, i, t.rows[i]);
    if Rank(s.rows, names, i) != 0 {
      var p: nat :| p < |s.rows| && IsPredecessor(s.rows, names, p, i) && t.rows[i].supersedes == Some(s.rows[p].docId);
      assert RebuiltAt(s, names, now, p, t.rows[p]);
      GroupsBecomeKeys(s, names, now, t, i, p);
      assert Precedes(t.rows[p], t.rows[i]);
    }
  }

  /** For a table with distinct ids the migration reaches the invariant exactly when the table is
      repairable; nothing else about the legacy rows matters. */
  lemma MigrationEstablishes(s: Store, names: Names, now: int, t: Store)
    requires Migrates(s, names, now, t) && DistinctIds(s.rows)
    ensures RowsInv(t.rows) <==> Repairable(s, names)
  {
    MigratedRowsOk(s, names, now, t);
    forall i | 0 <= i < |t.rows| ensures LinkedAt(t.rows, i) {
      MigratedLinks(s, names, now, t, i);
    }
    forall i, j | 0 <= i < j < |t.rows|
      ensures t.rows[i].docId != t.rows[j].docId
      ensures SameKey(t.rows[i], t.rows[j]) ==> t.rows[i].version != t.rows[j].version
      ensures SameKey(t.rows[i], t.rows[j]) ==> !(t.rows[i].current && t.rows[j].current)
    {
      assert RebuiltAt(s, names, now, i, t.rows[i]) && RebuiltAt(s, names, now, j, t.rows[j]);
      GroupsBecomeKeys(s, names, now, t, i, j);
      if SameGroup(s.rows, names, i, j) {
        RankOrders(s.rows, names, i, j);
        BeforeIsTotal(s.rows, names, i, j);
      }
    }
  }

  // ---------- Tables that are not repairable ----------

  function OneRow(lifecycle: Lifecycle, deleted: Stamp): Store {
    var kind := Classification(false, CLASSIFIER_VERSION, "other");
    var row := Row(GivenDoc("d"), "ds", Some(GivenLogical("l")), 1, None, true, lifecycle, "a.pdf", None, "a.pdf",
      Plain("a.pdf"), true, true, kind, 1, Indexed, 0, 0, Null, deleted);
    Store([row], [], [], map[], None)
  }

  /** The empty string in `deleted_at` counts as not deleted, so the row becomes current, and stays. */
  lemma BlankExample(names: Names, now: int, t: Store)
    requires Migrates(OneRow(Active, Blank), names, now, t)
    ensures t.rows[0].current && t.rows[0].deleted == Blank && !RowsInv(t.rows)
    ensures DistinctIds(OneRow(Active, Blank).rows) && !Repairable(OneRow(Active, Blank), names)
  {
    var s := OneRow(Active, Blank);
    assert RebuiltAt(s, names, now, 0, t.rows[0]);
    BeforeIsTotal(s.rows, names, 0, 0);
    assert Chosen(s.rows, names, 0);
    assert !RepairableAt(s, names, 0);
    assert !RowOk(t.rows[0]);
  }

  /** A deleted row keeps the lifecycle `pending`. */
  lemma PendingExample(names: Names, now: int, t: Store)
    requires Migrates(OneRow(Pending, At(1)), names, now, t)
    ensures t.rows[0].lifecycle == Pending && !RowsInv(t.rows)
    ensures DistinctIds(OneRow(Pending, At(1)).rows) && !Repairable(OneRow(Pending, At(1)), names)
  {
    var s := OneRow(Pending, At(1));
    assert RebuiltAt(s, names, now, 0, t.rows[0]);
    assert !Chosen(s.rows, names, 0);
    assert s.rows[0].lifecycle == Pending;
    assert !RepairableAt(s, names, 0);
    assert !RowOk(t.rows[0]);
  }

  // ---------- The migration is a projection ----------

  lemma GroupsStable(s: Store, names: Names, now: int, t: Store, i: nat, j: nat)
    requires Migrates(s, names, now, t) && i < |s.rows| && j < |s.rows|
    ensures NewRelpath(t.rows, names, i) == t.rows[i].relpath
    ensures SameGroup(t.rows, names, i, j) <==> SameGroup(s.rows, names, i, j)
    ensures SameGroup(s.rows, names, i, j) ==> (Before(t.rows, names, i, j) <==> Before(s.rows, names, i, j))
  {
    assert RebuiltAt(s, names, now, i, t.rows[i]) && RebuiltAt(s, names, now, j, t.rows[j]);
    NewPathIsCanonical(s.rows, names, i);
    NormalizeFixes(t.rows[i].relpath);
    if SameGroup(s.rows, names, i, j) {
      RankOrders(s.rows, names, i, j);
      RankOrders(s.rows, names, j, i);
      BeforeIsTotal(s.rows, names, i, j);
      BeforeIsTotal(t.rows, names, i, j);
    }
  }

  lemma RankStable(s: Store, names: Names, now: int, t: Store, i: nat)
    requires Migrates(s, names, now, t) && i < |s.rows|
    ensures Rank(t.rows, names, i) == Rank(s.rows, names, i)
  {
    forall j: nat | j < |s.rows| ensures j in Earlier(t.rows, names, i) <==> j in Earlier(s.rows, names, i) {
      GroupsStable(s, names, now, t, i, j);
      GroupsStable(s, names, now, t, j, i);
    }
    assert Earlier(t.rows, names, i) == Earlier(s.rows, names, i);
  }

  lemma ChosenStable(s: Store, names: Names, now: int, t: Store, i: nat)
    requires Migrates(s, names, now, t) && i < |s.rows|
    ensures Chosen(t.rows, names, i) <==> Chosen(s.rows, names, i)
  {
    assert RebuiltAt(s, names, now, i, t.rows[i]);
    forall j: nat | j < |s.rows| && SameGroup(s.rows, names, i, j)
      ensures Undeleted(t.rows[j]) ==> Undeleted(s.rows[j])
      ensures Before(t.rows, names, i, j) <==> Before(s.rows, names, i, j)
    {
      assert RebuiltAt(s, names, now, j, t.rows[j]);
      GroupsStable(s, names, now, t, i, j);
    }
    if Chosen(s.rows, names, i) {
      forall j: nat | j < |t.rows| && SameGroup(t.rows, names, i, j) && Undeleted(t.rows[j])
        ensures !Before(t.rows, names, i, j)
      {
        GroupsStable(s, names, now, t, i, j);
      }
    }
  }

  /** Running the migration again changes nothing, for every starting table. */
  lemma MigrationIdempotent(s: Store, names: Names, now: int, t: Store, later: int, u: Store)
    requires Migrates(s, names, now, t) && Migrates(t, names, later, u)
    ensures u == t
  {
    forall i: nat | i < |t.rows| ensures u.rows[i] == t.rows[i] {
      assert RebuiltAt(s, names, now, i, t.rows[i]) && RebuiltAt(t, names, later, i, u.rows[i]);
      RankStable(s, names, now, t, i);
      ChosenStable(s, names, now, t, i);
      GroupsStable(s, names, now, t, i, i);
      if Rank(s.rows, names, i) != 0 {
        SamePredecessor(s, names, now, t, later, u, i);
      }
    }
    assert u.rows == t.rows;
  }

  lemma SamePredecessor(s: Store, names: Names, now: int, t: Store, later: int, u: Store, i: nat)
    requires Migrates(s, names, now, t) && Migrates(t, names, later, u)
    requires i < |s.rows| && Rank(s.rows, names, i) != 0
    ensures u.rows[i].supersedes == t.rows[i].supersedes
  {
    assert RebuiltAt(s, names, now, i, t.rows[i]) && RebuiltAt(t, names, later, i, u.rows[i]);
    RankStable(s, names, now, t, i);
    var p: nat :| p < |s.rows| && IsPredecessor(s.rows, names, p, i) && t.rows[i].supersedes == Some(s.rows[p].docId);
    var q: nat :| q < |t.rows| && IsPredecessor(t.rows, names, q, i) && u.rows[i].supersedes == Some(t.rows[q].docId);
    RankStable(s, names, now, t, p);
    RankStable(s, names, now, t, q);
    GroupsStable(s, names, now, t, i, q);
    RankOrders(s.rows, names, p, q);
    assert RebuiltAt(s, names, now, p, t.rows[p]);
  }

  // ---------- The migration leaves ingested histories alone ----------

  lemma RankIsVersion(s: Store, names: Names, i: nat)
    requires RowsInv(s.rows) && i < |s.rows|
    ensures Rank(s.rows, names, i) == s.rows[i].version - 1
  {
    forall j: nat | j < |s.rows|
      ensures j in Earlier(s.rows, names, i) <==> j in Older(s.rows, s.rows[i])
    {
      GroupsAreKeys(s.rows, names, i, j);
    }
    assert Earlier(s.rows, names, i) == Older(s.rows, s.rows[i]);
    OlderCount(s.rows, i);
  }

  lemma GroupsAreKeys(rows: seq<Row>, names: Names, i: nat, j: nat)
    requires RowsInv(rows) && i < |rows| && j < |rows|
    ensures SameGroup(rows, names, i, j) <==> SameKey(rows[i], rows[j])
    ensures SameKey(rows[i], rows[j]) ==> (Before(rows, names, j, i) <==> rows[j].version < rows[i].version)
    ensures NewRelpath(rows, names, i) == rows[i].relpath
  {
    assert RowOk(rows[i]) && RowOk(rows[j]);
    NormalizeFixes(rows[i].relpath);
    BeforeIsTotal(rows, names, i, i);
    if i < j {
      assert SameKey(rows[i], rows[j]) ==> rows[i].version != rows[j].version;
    } else if j < i {
      assert SameKey(rows[j], rows[i]) ==> rows[j].version != rows[i].version;
    }
  }

  lemma ChosenIsCurrent(s: Store, names: Names, i: nat)
    requires RowsInv(s.rows) && i < |s.rows|
    ensures Chosen(s.rows, names, i) <==> s.rows[i].current
  {
    assert RowOk(s.rows[i]);
    if s.rows[i].current {
      forall j: nat | j < |s.rows| && SameGroup(s.rows, names, i, j) && Undeleted(s.rows[j])
        ensures !Before(s.rows, names, i, j)
      {
        assert RowOk(s.rows[j]);
        GroupsAreKeys(s.rows, names, i, j);
        BeforeIsTotal(s.rows, names, i, i);
      }
    }
  }

  /** On every state that satisfies the invariant the migration is the identity: reopening the
      database rewrites no version, link, flag, status, path or lifecycle. */
  lemma MigrationIsIdentity(s: Store, names: Names, now: int, t: Store)
    requires RowsInv(s.rows) && Migrates(s, names, now, t)
    ensures t == s
  {
    forall i: nat | i < |s.rows| ensures t.rows[i] == s.rows[i] {
      assert RebuiltAt(s, names, now, i, t.rows[i]);
      assert RowOk(s.rows[i]) && LinkedAt(s.rows, i);
      RankIsVersion(s, names, i);
      ChosenIsCurrent(s, names, i);
      GroupsAreKeys(s.rows, names, i, i);
      if s.rows[i].version != 1 {
        var p: nat :| p < |s.rows| && Precedes(s.rows[p], s.rows[i]);
        var q: nat :|
          q < |s.rows| && IsPredecessor(s.rows, names, q, i) && t.rows[i].supersedes == Some(s.rows[q].docId);
        RankIsVersion(s, names, p);
        RankIsVersion(s, names, q);
        GroupsAreKeys(s.rows, names, i, p);
        GroupsAreKeys(s.rows, names, p, q);
        GroupsAreKeys(s.rows, names, i, q);
        RankOrders(s.rows, names, p, q);
      }
    }
    assert t.rows == s.rows;
  }
}
