/** What the migration writes, column by column and in terms of the two tables only: which rows become
    one document, which stay apart, and what each row then says. */
module MigrationColumns {
  import opened Options
  import opened Paths
  import opened LedgerModel
  import opened LedgerInvariant
  import opened Migration

  // ---------- Identity ----------

  const MARK := "__legacy_ambiguous__/"

  /** The path that a row without logical id claims. */
  function ClaimedPath(r: Row): string {
    Normalize(if r.relpath == "" then r.filename else r.relpath)
  }

  /** Another row without logical id claims the same path in the same dataset. */
  predicate Contested(rows: seq<Row>, i: nat)
    requires i < |rows|
  {
    exists k :: 0 <= k < |rows| && k != i && ClaimsWith(rows[k], rows[i])
  }

  predicate ClaimsWith(a: Row, b: Row) {
    a.logical.None? && a.dataset == b.dataset && ClaimedPath(a) == ClaimedPath(b)
  }

  lemma ContestedIsAmbiguous(rows: seq<Row>, i: nat)
    requires i < |rows| && rows[i].logical.None?
    ensures Contested(rows, i) <==> Ambiguous(rows, i)
  {
    forall k | 0 <= k < |rows| ensures ClaimsWith(rows[k], rows[i]) <==> SharesLegacyPath(rows[k], rows[i]) {
    }
  }

  /** A row that has a logical id keeps it; one whose path nobody contests gets that path's digest. Both
      keep their path, normalised. */
  lemma UncontestedKeepPath(s: Store, names: Names, now: int, t: Store, i: nat)
    requires Migrates(s, names, now, t) && i < |s.rows|
    requires s.rows[i].logical.Some? || !Contested(s.rows, i)
    ensures t.rows[i].relpath == ClaimedPath(s.rows[i])
    ensures t.rows[i].logical ==
      if s.rows[i].logical.Some? then s.rows[i].logical
      else Some(PathDigest(s.rows[i].dataset, ClaimedPath(s.rows[i])))
  {
    assert RebuiltAt(s, names, now, i, t.rows[i]);
    if s.rows[i].logical.None? {
      ContestedIsAmbiguous(s.rows, i);
    }
  }

  predicate SlashFree(s: string) {
    '/' !in s && '\\' !in s
  }

  /** The short id stands out in the synthetic path: it does not end in a blank, or a name follows it. */
  predicate Separable(short: string, filename: string) {
    && short != "" && SlashFree(short)
    && (short[|short| - 1] != ' ' || (SlashFree(filename) && filename != "." && TrimRight(filename) != ""))
  }

  /** Two rows that contest one path stay two documents. */
  lemma ContestantsStayApart(s: Store, names: Names, now: int, t: Store, i: nat, j: nat)
    requires Migrates(s, names, now, t) && i < |s.rows| && j < |s.rows| && i != j
    requires s.rows[i].logical.None? && s.rows[j].logical.None?
    requires s.rows[i].dataset == s.rows[j].dataset && ClaimedPath(s.rows[i]) == ClaimedPath(s.rows[j])
    requires names.short(s.rows[i].docId) != names.short(s.rows[j].docId)
    requires Separable(names.short(s.rows[i].docId), s.rows[i].filename)
    requires Separable(names.short(s.rows[j].docId), s.rows[j].filename)
    ensures !SameKey(t.rows[i], t.rows[j])
    ensures MARK <= t.rows[i].relpath && MARK <= t.rows[j].relpath
  {
    var p, q := names.short(s.rows[i].docId), names.short(s.rows[j].docId);
    assert ClaimsWith(s.rows[j], s.rows[i]) && ClaimsWith(s.rows[i], s.rows[j]);
    ContestedPath(s, names, now, t, i);
    ContestedPath(s, names, now, t, j);
    ShortLeads(p, s.rows[i].filename);
    ShortLeads(q, s.rows[j].filename);
    LeadsApart(t.rows[i].relpath, t.rows[j].relpath, p, q);
  }

  lemma ContestedPath(s: Store, names: Names, now: int, t: Store, i: nat)
    requires Migrates(s, names, now, t) && i < |s.rows| && s.rows[i].logical.None? && Contested(s.rows, i)
    ensures t.rows[i].relpath == Normalize(MARK + names.short(s.rows[i].docId) + "/" + BaseName(s.rows[i].filename))
    ensures t.rows[i].logical == Some(PathDigest(s.rows[i].dataset, t.rows[i].relpath))
  {
    assert RebuiltAt(s, names, now, i, t.rows[i]);
    ContestedIsAmbiguous(s.rows, i);
  }

  /** Exactly: contestants become one document if and only if their synthetic paths coincide, as they do when
      short ids and file names are equal. */
  lemma ContestantsMergeIff(s: Store, names: Names, now: int, t: Store, i: nat, j: nat)
    requires Migrates(s, names, now, t) && i < |s.rows| && j < |s.rows| && i != j
    requires s.rows[i].logical.None? && s.rows[j].logical.None?
    requires s.rows[i].dataset == s.rows[j].dataset && ClaimedPath(s.rows[i]) == ClaimedPath(s.rows[j])
    ensures var p, q := names.short(s.rows[i].docId), names.short(s.rows[j].docId);
      var a, b := BaseName(s.rows[i].filename), BaseName(s.rows[j].filename);
      && (SameKey(t.rows[i], t.rows[j]) <==> Normalize(MARK + p + "/" + a) == Normalize(MARK + q + "/" + b))
      && (p == q && a == b ==> SameKey(t.rows[i], t.rows[j]))
  {
    assert ClaimsWith(s.rows[j], s.rows[i]) && ClaimsWith(s.rows[i], s.rows[j]);
    ContestedPath(s, names, now, t, i);
    ContestedPath(s, names, now, t, j);
    OthersStay(s, names, now, t, i);
    OthersStay(s, names, now, t, j);
  }

  /** The path begins with the mark and the short id, and the id ends there. */
  predicate Leads(path: string, short: string) {
    MARK + short <= path && (|path| == |MARK + short| || path[|MARK + short|] == '/')
  }

  lemma LeadsApart(x: string, y: string, p: string, q: string)
    requires Leads(x, p) && Leads(y, q) && SlashFree(p) && SlashFree(q) && p != q
    ensures x != y
  {
    var m := |MARK|;
    assert x[m..m + |p|] == p && y[m..m + |q|] == q;
    assert |p| < |q| ==> y[m + |p|] == q[|p|] && q[|p|] in q;
    assert |q| < |p| ==> x[m + |q|] == p[|q|] && p[|q|] in p;
  }

  lemma ShortLeads(short: string, filename: string)
    requires Separable(short, filename)
    ensures Leads(Normalize(MARK + short + "/" + BaseName(filename)), short)
  {
    var head, tail := MARK + short, "/" + BaseName(filename);
    assert MARK + short + "/" + BaseName(filename) == head + tail;
    assert head[|head| - 1] == short[|short| - 1];
    MarkedIsClean(short);
    NormalizeBehind(head, tail);
    if short[|short| - 1] == ' ' {
      PlainName(filename);
      TrimRightAppend("/", filename);
    }
  }

  lemma MarkedIsClean(short: string)
    requires short != "" && SlashFree(short)
    ensures Clean(MARK + short) && (MARK + short)[|MARK + short| - 1] != '/' && (MARK + short)[0] == '_'
  {
    var s := MARK + short;
    forall i | |MARK| <= i < |s| ensures s[i] != '\\' && s[i] != '/' {
      assert s[i] == short[i - |MARK|] && s[i] in short;
    }
  }

  /** What normalisation makes of a clean beginning and whatever follows from a slash on. */
  lemma NormalizeBehind(head: string, tail: string)
    requires head != "" && Clean(head) && !Edge(head[0]) && head[|head| - 1] != '/' && tail != "" && tail[0] == '/'
    ensures var rest := TrimRight(Collapse(ForwardSlashes(tail)));
      && Normalize(head + tail) == (if rest == "" then TrimRight(head) else head + rest)
      && (rest != "" ==> rest[0] == '/')
  {
    SlashesAppend(head, tail);
    CollapseAppend(head, ForwardSlashes(tail));
    CollapseStart(ForwardSlashes(tail));
    TrimBehind(head, Collapse(ForwardSlashes(tail)));
  }

  lemma SlashesAppend(head: string, tail: string)
    requires Clean(head)
    ensures ForwardSlashes(head + tail) == head + ForwardSlashes(tail)
  {
  }

  lemma TrimBehind(head: string, c: string)
    requires head != "" && !Edge(head[0]) && c != "" && c[0] == '/'
    ensures TrimLeft(head + c) == head + c && TrimRight(head + c) != ""
    ensures TrimRight(head + c) == if TrimRight(c) == "" then TrimRight(head) else head + TrimRight(c)
    ensures TrimRight(c) != "" ==> TrimRight(c)[0] == '/'
  {
    TrimRightAppend(head, c);
    TrimKeepsStart(head);
  }

  lemma {:induction false} TrimKeepsStart(s: string)
    requires s != "" && !Edge(s[0])
    ensures TrimRight(s) != ""
  {
    if Edge(s[|s| - 1]) {
      TrimKeepsStart(s[..|s| - 1]);
    }
  }

  lemma {:induction false} CollapseAppend(a: string, b: string)
    requires Clean(a) && a != "" && a[|a| - 1] != '/'
    ensures Collapse(a + b) == a + Collapse(b)
    decreases |a|
  {
    if |a| == 1 {
      assert (a + b)[1..] == b;
    } else {
      CleanTail(a);
      CollapseAppend(a[1..], b);
      assert a[1..] + b == (a + b)[1..];
      assert [a[0]] + (a[1..] + Collapse(b)) == a + Collapse(b);
    }
  }

  lemma CleanTail(s: string)
    requires Clean(s) && s != ""
    ensures Clean(s[1..])
  {
    forall i | 0 <= i < |s[1..]| - 1 ensures !(s[1..][i] == '/' && s[1..][i + 1] == '/') {
      assert s[1..][i] == s[i + 1] && s[1..][i + 1] == s[i + 2];
    }
  }

  lemma CollapseStart(s: string)
    requires s != "" && s[0] == '/'
    ensures Collapse(s) != "" && Collapse(s)[0] == '/'
    decreases |s|
  {
    if |s| >= 2 && s[1] == '/' {
      CollapseStart(s[1..]);
    }
  }

  /** Trimming eats into the first part only when nothing of the second is left. */
  lemma {:induction false} TrimRightAppend(a: string, b: string)
    ensures TrimRight(a + b) == if TrimRight(b) == "" then TrimRight(a) else a + TrimRight(b)
    ensures TrimRight(b) != "" ==> b != "" && TrimRight(b)[0] == b[0]
    decreases |b|
  {
    if b == "" {
      assert a + b == a;
    } else if Edge(b[|b| - 1]) {
      TrimRightAppend(a, b[..|b| - 1]);
      assert (a + b)[..|a + b| - 1] == a + b[..|b| - 1];
    }
  }

  lemma {:induction false} LastComponentPlain(s: string)
    requires '/' !in s
    ensures LastComponent(s) == s
  {
    if s != "" {
      LastComponentPlain(s[..|s| - 1]);
    }
  }

  lemma PlainName(s: string)
    requires SlashFree(s) && s != "." && TrimRight(s) != ""
    ensures BaseName(s) == s && ForwardSlashes("/" + s) == "/" + s && Collapse("/" + s) == "/" + s
  {
    assert s[|s| - 1] in s;
    assert |s| >= 2 ==> s[|s| - 2] in s;
    LastComponentPlain(s);
    CollapseKeepsClean("/" + s);
  }

  // ---------- Versions ----------

  /** One document's rows are numbered in the order of their old number, creation time and id text. */
  lemma VersionsFollow(s: Store, names: Names, now: int, t: Store, i: nat, j: nat)
    requires Migrates(s, names, now, t) && i < |s.rows| && j < |s.rows| && i != j && SameKey(t.rows[i], t.rows[j])
    ensures var a, b := s.rows[i], s.rows[j];
      t.rows[i].version < t.rows[j].version <==>
        || a.version < b.version
        || (a.version == b.version && a.created < b.created)
        || (a.version == b.version && a.created == b.created && names.order(a.docId) < names.order(b.docId))
        || (a.version == b.version && a.created == b.created && names.order(a.docId) == names.order(b.docId) && i < j)
  {
    assert RebuiltAt(s, names, now, i, t.rows[i]) && RebuiltAt(s, names, now, j, t.rows[j]);
    GroupsBecomeKeys(s, names, now, t, i, j);
    RankOrders(s.rows, names, i, j);
  }

  /** The rows of the document that come before row `i`. */
  ghost function VersionsBefore(rows: seq<Row>, i: nat): set<nat>
    requires i < |rows|
  {
    set k: nat | k < |rows| && SameKey(rows[k], rows[i]) && rows[k].version < rows[i].version
  }

  /** Numbers run from one without a gap, and each row names the one before it. */
  lemma VersionsCount(s: Store, names: Names, now: int, t: Store, i: nat)
    requires Migrates(s, names, now, t) && i < |s.rows|
    ensures t.rows[i].version == |VersionsBefore(t.rows, i)| + 1
    ensures if t.rows[i].version == 1 then t.rows[i].supersedes == None
            else exists p: nat :: p < |t.rows| && SameKey(t.rows[p], t.rows[i])
                   && t.rows[p].version == t.rows[i].version - 1 && t.rows[i].supersedes == Some(t.rows[p].docId)
  {
    assert RebuiltAt(s, names, now, i, t.rows[i]);
    forall k: nat | k < |s.rows| ensures k in VersionsBefore(t.rows, i) <==> k in Earlier(s.rows, names, i) {
      assert RebuiltAt(s, names, now, k, t.rows[k]);
      GroupsBecomeKeys(s, names, now, t, i, k);
      GroupsBecomeKeys(s, names, now, t, k, i);
      if SameGroup(s.rows, names, k, i) {
        RankOrders(s.rows, names, k, i);
      }
    }
    assert VersionsBefore(t.rows, i) == Earlier(s.rows, names, i);
    MigratedLinks(s, names, now, t, i);
    if t.rows[i].version != 1 {
      var p :| 0 <= p < |t.rows| && Precedes(t.rows[p], t.rows[i]);
      assert SameKey(t.rows[p], t.rows[i]);
    }
  }

  /** A row is current exactly when it is not deleted and no other row of the document that is not deleted
      comes after it. */
  lemma CurrentIsLast(s: Store, names: Names, now: int, t: Store, i: nat)
    requires Migrates(s, names, now, t) && i < |s.rows|
    ensures t.rows[i].current <==>
      && !s.rows[i].deleted.At?
      && forall k: nat :: k < |s.rows| && SameKey(t.rows[k], t.rows[i]) && !s.rows[k].deleted.At? ==>
           t.rows[k].version <= t.rows[i].version
  {
    assert RebuiltAt(s, names, now, i, t.rows[i]);
    forall k: nat | k < |s.rows|
      ensures SameGroup(s.rows, names, i, k) <==> SameKey(t.rows[k], t.rows[i])
      ensures SameGroup(s.rows, names, i, k) ==>
        (Before(s.rows, names, i, k) <==> t.rows[i].version < t.rows[k].version)
    {
      assert RebuiltAt(s, names, now, k, t.rows[k]);
      GroupsBecomeKeys(s, names, now, t, i, k);
      if SameGroup(s.rows, names, i, k) {
        RankOrders(s.rows, names, i, k);
      }
    }
  }

  /** So of rows that contest one path every undeleted one is a current first version, unless yet another
      row has its identity. */
  lemma AloneIsCurrent(s: Store, names: Names, now: int, t: Store, i: nat)
    requires Migrates(s, names, now, t) && i < |s.rows| && !s.rows[i].deleted.At?
    requires forall k: nat :: k < |s.rows| && k != i ==> !SameKey(t.rows[k], t.rows[i])
    ensures t.rows[i].current && t.rows[i].lifecycle == Active && t.rows[i].version == 1 && t.rows[i].supersedes == None
  {
    CurrentIsLast(s, names, now, t, i);
    VersionsCount(s, names, now, t, i);
    assert VersionsBefore(t.rows, i) == {};
    assert RebuiltAt(s, names, now, i, t.rows[i]);
  }

  // ---------- The other columns ----------

  /** Status: the two statuses of old are replaced by what is stored for the document. */
  lemma StatusTells(s: Store, names: Names, now: int, t: Store, i: nat)
    requires Migrates(s, names, now, t) && i < |s.rows|
    ensures var r := s.rows[i];
      t.rows[i].status ==
        if r.status != LegacyRemoved && r.status != LegacySuperseded then r.status
        else if r.chunkCount > 0 then Indexed
        else if r.isPdf && exists k :: 0 <= k < |s.pages| && s.pages[k].docId == r.docId then NeedsOcr
        else Failed
  {
    assert RebuiltAt(s, names, now, i, t.rows[i]);
  }

  /** Lifecycle and deletion stamp of a current row, of one that is replaced, and of one deleted before. */
  lemma LifecycleTells(s: Store, names: Names, now: int, t: Store, i: nat)
    requires Migrates(s, names, now, t) && i < |s.rows|
    ensures var r, r' := s.rows[i], t.rows[i];
      && (r'.current ==> r'.lifecycle == Active && r'.deleted == r.deleted)
      && (!r'.current && !r.deleted.At? ==>
            r'.lifecycle == Superseded && r'.deleted == if r.updated.At? then r.updated else At(now))
      && (r.deleted.At? ==> r'.deleted == r.deleted)
      && (r.deleted.At? ==> (r'.lifecycle ==
            if r.status == LegacyRemoved then Removed
            else if r.status == LegacySuperseded || r.lifecycle == Active || r.lifecycle == OtherLifecycle("")
            then Superseded
            else r.lifecycle))
  {
    assert RebuiltAt(s, names, now, i, t.rows[i]);
  }

  /** Everything else stays. */
  lemma OthersStay(s: Store, names: Names, now: int, t: Store, i: nat)
    requires Migrates(s, names, now, t) && i < |s.rows|
    ensures |t.rows| == |s.rows| && t.chunks == s.chunks && t.pages == s.pages
    ensures t.raw == s.raw && t.registry == s.registry
    ensures var r, r' := s.rows[i], t.rows[i];
      && r'.docId == r.docId && r'.dataset == r.dataset && r'.filename == r.filename
      && r'.sourceRoot == r.sourceRoot && r'.stored == r.stored && r'.isPdf == r.isPdf
      && r'.localDirectory == r.localDirectory && r'.classification == r.classification
      && r'.checksum == r.checksum && r'.chunkCount == r.chunkCount
      && r'.created == r.created && r'.updated == r.updated
  {
    assert RebuiltAt(s, names, now, i, t.rows[i]);
  }
}
