/** Two promises of the metadata merge, that differing checksums are refused and that order does not
    matter, and exactly when they hold. */
module MergePromises {
  import opened Options
  import opened Orders
  import opened UpdateMetadata

  // ---------- The files of an entry ----------

  /** The entry's list, or where that is missing or empty the file at its path, or none. */
  lemma FilesTell(m: Metadata)
    ensures m.files.Some? && m.files.value != [] ==> FilesOf(m) == m.files.value
    ensures (m.files.None? || m.files.value == []) && m.path.Some? && m.path.value != "" ==>
      |FilesOf(m)| == 1 && var f := FilesOf(m)[0]; f.url == m.path && f.sha512 == m.sha512 && f.sha2 == m.sha2
    ensures (m.files.None? || m.files.value == []) && (m.path.None? || m.path.value == "") ==> FilesOf(m) == []
  {
  }

  /** A file is valid when it has a URL and at least one sum. */
  lemma ValidTells(f: File)
    ensures ValidFile(f) <==>
      && f.url.Some? && f.url.value != ""
      && ((f.sha512.Some? && f.sha512.value != "") || (f.sha2.Some? && f.sha2.value != ""))
  {
  }

  // ---------- Checksums ----------

  /** The sum a reader of the metadata would check: `sha512` where it says anything, else `sha2`. */
  function Effective(f: File): Option<string> {
    if Truthy(f.sha512) then f.sha512 else f.sha2
  }

  ghost predicate SumsAgree(pool: seq<File>) {
    forall f, g :: f in pool && g in pool && Url(f) == Url(g) ==> Effective(f) == Effective(g)
  }

  predicate Emptied(f: File) {
    f.sha512 == Some("")
  }

  /** Two files of one URL have an empty `sha512` and different `sha2`. */
  ghost predicate Hides(pool: seq<File>) {
    exists f, g :: f in pool && g in pool && Url(f) == Url(g) && Emptied(f) && Emptied(g) && f.sha2 != g.sha2
  }

  /** Of two files of one URL one has an empty `sha512`. */
  ghost predicate Mixes(pool: seq<File>) {
    exists f, g :: f in pool && g in pool && Url(f) == Url(g) && Emptied(f) && !Emptied(g)
  }

  /** For two files the comparison is right in exactly three cases. */
  lemma ComparesRightIff(f: File, g: File)
    requires ValidFile(f) && ValidFile(g)
    ensures (Agree(f, g) <==> Effective(f) == Effective(g)) <==>
      || (!Emptied(f) && !Emptied(g))
      || (Emptied(f) && Emptied(g) && f.sha2 == g.sha2)
      || (Emptied(f) != Emptied(g) && Effective(f) != Effective(g))
  {
  }

  ghost predicate Checkable(entries: seq<Entry>) {
    entries != [] && SameVersions(entries) && forall e :: e in entries ==> ValidEntry(e)
  }

  /** The conflict check lets a real difference pass exactly where an empty `sha512` hides it, refuses equal
      sums exactly where one of them stands behind an empty `sha512`, and is right otherwise. */
  lemma ConflictCheckIsRightIff(entries: seq<Entry>)
    requires Checkable(entries)
    ensures Mergeable(entries) ==> (SumsAgree(Pool(entries)) <==> !Hides(Pool(entries)))
    ensures SumsAgree(Pool(entries)) ==> (Mergeable(entries) <==> !Mixes(Pool(entries)))
    ensures (Mergeable(entries) <==> SumsAgree(Pool(entries))) <==>
      !(Mergeable(entries) && Hides(Pool(entries))) && !(SumsAgree(Pool(entries)) && Mixes(Pool(entries)))
  {
    forall f | f in Pool(entries) ensures ValidFile(f) {
      PoolMembers(entries, f);
    }
    PoolCheckIsRightIff(Pool(entries));
  }

  lemma PoolCheckIsRightIff(pool: seq<File>)
    requires forall f :: f in pool ==> ValidFile(f)
    ensures ConflictFree(pool) ==> (SumsAgree(pool) <==> !Hides(pool))
    ensures SumsAgree(pool) ==> (ConflictFree(pool) <==> !Mixes(pool))
  {
    if ConflictFree(pool) && !Hides(pool) {
      forall f, g | f in pool && g in pool && Url(f) == Url(g) ensures Effective(f) == Effective(g) {
        ComparesRightIff(f, g);
        assert Agree(f, g);
      }
    }
    if SumsAgree(pool) && !Mixes(pool) {
      forall f, g | f in pool && g in pool && Url(f) == Url(g) ensures Agree(f, g) {
        ComparesRightIff(f, g);
        assert Effective(f) == Effective(g);
      }
    }
    if ConflictFree(pool) && Mixes(pool) {
      var f, g :| f in pool && g in pool && Url(f) == Url(g) && Emptied(f) && !Emptied(g);
      assert Agree(f, g);
    }
  }

  function OneFile(url: string, sha512: Option<string>, sha2: Option<string>): Entry {
    Entry("latest.yml", Metadata(Some("1"), None, Some(url), sha512, sha2, None))
  }

  lemma PoolOfTwo(e: Entry, f: Entry)
    ensures Pool([e, f]) == FilesOf(e.metadata) + FilesOf(f.metadata)
  {
    assert [e, f][..1] == [e] && [e][..0] == [];
    assert Pool([e]) == FilesOf(e.metadata);
  }

  /** A difference that passes: two sums of one artifact, both behind an empty `sha512`. */
  lemma EmptySumHidesSha2(url: string, x: string, y: string)
    requires url != "" && x != "" && y != "" && x != y
    ensures var entries := [OneFile(url, Some(""), Some(x)), OneFile(url, Some(""), Some(y))];
      Checkable(entries) && Mergeable(entries) && !SumsAgree(Pool(entries))
  {
    var e, f := OneFile(url, Some(""), Some(x)), OneFile(url, Some(""), Some(y));
    PoolOfTwo(e, f);
    assert FilesOf(e.metadata)[0] in Pool([e, f]) && FilesOf(f.metadata)[0] in Pool([e, f]);
  }

  /** Equal sums that are refused: the same `sha2`, once behind an empty `sha512` and once alone. */
  lemma EmptySumRefusesEqual(url: string, x: string)
    requires url != "" && x != ""
    ensures var entries := [OneFile(url, Some(""), Some(x)), OneFile(url, None, Some(x))];
      Checkable(entries) && !Mergeable(entries) && SumsAgree(Pool(entries))
  {
    var e, f := OneFile(url, Some(""), Some(x)), OneFile(url, None, Some(x));
    PoolOfTwo(e, f);
    var g, h := FilesOf(e.metadata)[0], FilesOf(f.metadata)[0];
    assert g in Pool([e, f]) && h in Pool([e, f]) && !Agree(g, h);
  }

  // ---------- Order ----------

  function LastIn(e: Entry, url: string): Option<File> {
    LastFor(FilesOf(e.metadata), url)
  }

  predicate AgreeAt(e: Entry, f: Entry, url: string) {
    LastIn(e, url).Some? && LastIn(f, url).Some? ==> LastIn(e, url) == LastIn(f, url)
  }

  ghost predicate AgreeThroughout(e: Entry, f: Entry) {
    forall u :: AgreeAt(e, f, u)
  }

  /** Entries that hold a URL hold the same file for it, in every field. */
  ghost predicate Uniform(entries: seq<Entry>) {
    forall e, f :: e in entries && f in entries ==> AgreeThroughout(e, f)
  }

  ghost predicate Reordered(a: seq<Entry>, b: seq<Entry>) {
    multiset(a) == multiset(b)
  }

  lemma {:induction false} LastFromEntry(entries: seq<Entry>, url: string) returns (e: Entry)
    requires LastFor(Pool(entries), url).Some?
    ensures e in entries && LastIn(e, url) == LastFor(Pool(entries), url)
  {
    var m := |entries| - 1;
    LastForAppend(Pool(entries[..m]), FilesOf(entries[m].metadata), url);
    if LastIn(entries[m], url).Some? {
      e := entries[m];
    } else {
      e := LastFromEntry(entries[..m], url);
    }
  }

  /** An entry merged last supplies its files. */
  lemma LastOfAll(entries: seq<Entry>, url: string)
    requires entries != [] && LastIn(entries[|entries| - 1], url).Some?
    ensures LastFor(Pool(entries), url) == LastIn(entries[|entries| - 1], url)
  {
    var m := |entries| - 1;
    LastForAppend(Pool(entries[..m]), FilesOf(entries[m].metadata), url);
  }

  lemma UniformSameLast(a: seq<Entry>, b: seq<Entry>)
    requires SameEntries(a, b) && Uniform(a)
    ensures SameLast(a, b)
  {
    SamePools(a, b);
    forall u ensures SameLastAt(a, b, u) {
      if LastFor(Pool(a), u).Some? {
        var e := LastFromEntry(a, u);
        var f := LastFromEntry(b, u);
        assert AgreeThroughout(e, f) && AgreeAt(e, f, u);
      }
    }
  }

  /** The entries with one of them moved to the end. */
  function MovedLast(entries: seq<Entry>, i: nat): seq<Entry>
    requires i < |entries|
  {
    entries[..i] + entries[i + 1..] + [entries[i]]
  }

  lemma MovedIsReordered(entries: seq<Entry>, i: nat)
    requires i < |entries|
    ensures Reordered(entries, MovedLast(entries, i))
  {
    assert entries == entries[..i] + [entries[i]] + entries[i + 1..];
  }

  lemma ReorderedSame(a: seq<Entry>, b: seq<Entry>)
    requires Reordered(a, b)
    ensures SameEntries(a, b)
  {
    forall e ensures e in a <==> e in b {
      assert e in multiset(a) <==> e in multiset(b);
    }
  }

  /** Two entries that differ at a URL: whichever is moved to the end supplies the file. */
  lemma DifferenceMatters(a: seq<Entry>, i: nat, j: nat, url: string) returns (b: seq<Entry>)
    requires i < |a| && j < |a| && !AgreeAt(a[i], a[j], url)
    ensures Reordered(a, b) && !SameLastAt(a, b, url)
  {
    MovedIsReordered(a, i);
    MovedIsReordered(a, j);
    LastOfAll(MovedLast(a, i), url);
    LastOfAll(MovedLast(a, j), url);
    b := if SameLastAt(a, MovedLast(a, i), url) then MovedLast(a, j) else MovedLast(a, i);
  }

  lemma LastIgnoresOrderIff(a: seq<Entry>)
    ensures Uniform(a) <==> forall b :: Reordered(a, b) ==> SameLast(a, b)
  {
    if Uniform(a) {
      forall b | Reordered(a, b) ensures SameLast(a, b) {
        ReorderedSame(a, b);
        UniformSameLast(a, b);
      }
    } else {
      var e, f :| e in a && f in a && !AgreeThroughout(e, f);
      var u :| !AgreeAt(e, f, u);
      var i :| 0 <= i < |a| && a[i] == e;
      var j :| 0 <= j < |a| && a[j] == f;
      var b := DifferenceMatters(a, i, j, u);
      assert Reordered(a, b) && !SameLast(a, b);
    }
  }

  lemma {:induction false} CollectedPool(pool: seq<File>) returns (keys: seq<string>, byUrl: map<string, File>)
    requires ConflictFree(pool)
    ensures Collected(pool, keys, byUrl)
  {
    if pool == [] {
      keys, byUrl := [], map[];
      assert forall u :: StoredAt(pool, byUrl, u);
    } else {
      var init, f := pool[..|pool| - 1], pool[|pool| - 1];
      assert pool == init + [f];
      keys, byUrl := CollectedPool(init);
      assert StoredAt(init, byUrl, Url(f));
      if Url(f) in byUrl {
        CollectSeen(init, keys, byUrl, f);
      } else {
        CollectNew(init, keys, byUrl, f);
        keys := keys + [Url(f)];
      }
      byUrl := byUrl[Url(f) := f];
    }
  }

  /** What the merge of these entries gives. */
  lemma MergeExists(channel: string, collate: string -> real, entries: seq<Entry>) returns (m: Merged)
    requires Mergeable(entries) && Injective(collate)
    ensures IsMerge(channel, collate, entries, m)
  {
    var keys, byUrl := CollectedPool(Pool(entries));
    var values := seq(|keys|, k requires 0 <= k < |keys| && keys[k] in byUrl => byUrl[keys[k]]);
    forall k | 0 <= k < |keys| ensures LastFor(Pool(entries), keys[k]) == Some(byUrl[keys[k]]) {
      assert StoredAt(Pool(entries), byUrl, keys[k]);
    }
    SortedFiles(Pool(entries), keys, byUrl, values, channel, collate);
    PoolNotEmpty(entries);
    m := Assembled(entries[0].metadata, Sort(values, ByRank(channel, collate)), LatestDate(entries));
  }

  ghost predicate SameFiles(
    channel: string, collate: string -> real, a: seq<Entry>, b: seq<Entry>, m: Merged, n: Merged)
  {
    IsMerge(channel, collate, a, m) && IsMerge(channel, collate, b, n) ==> m.files == n.files
  }

  /** The files come out the same in every field for every order of the entries if and only if the entries
      are uniform. */
  lemma FilesIgnoreOrderIff(channel: string, collate: string -> real, a: seq<Entry>)
    requires Mergeable(a) && Injective(collate)
    ensures Uniform(a) <==> forall b, m, n :: Reordered(a, b) ==> SameFiles(channel, collate, a, b, m, n)
  {
    if Uniform(a) {
      forall b, m, n | Reordered(a, b) ensures SameFiles(channel, collate, a, b, m, n) {
        UniformSameFiles(channel, collate, a, b, m, n);
      }
    } else {
      LastIgnoresOrderIff(a);
      var b :| Reordered(a, b) && !SameLast(a, b);
      ReorderedSame(a, b);
      SamePools(a, b);
      var m := MergeExists(channel, collate, a);
      var n := MergeExists(channel, collate, b);
      FilesAgreeIff(channel, collate, a, b, m, n);
      assert !SameFiles(channel, collate, a, b, m, n);
    }
  }

  lemma UniformSameFiles(channel: string, collate: string -> real, a: seq<Entry>, b: seq<Entry>, m: Merged, n: Merged)
    requires Uniform(a) && Reordered(a, b)
    ensures SameFiles(channel, collate, a, b, m, n)
  {
    ReorderedSame(a, b);
    UniformSameLast(a, b);
    if IsMerge(channel, collate, a, m) && IsMerge(channel, collate, b, n) {
      FilesAgreeIff(channel, collate, a, b, m, n);
    }
  }

  /** Of two entries that differ at a URL, the later supplies the file. */
  lemma SwapMatters(rest: seq<Entry>, e: Entry, f: Entry, url: string)
    requires !AgreeAt(e, f, url)
    ensures !SameLastAt(rest + [e, f], rest + [f, e], url)
  {
    LastOfAll(rest + [e, f], url);
    LastOfAll(rest + [f, e], url);
  }

  lemma OneFileIsLast(url: string, sha512: Option<string>, sha2: Option<string>)
    requires url != ""
    ensures LastIn(OneFile(url, sha512, sha2), url) == Some(File(Some(url), sha512, sha2, ""))
  {
  }

  lemma SwappedMerges(
    channel: string, collate: string -> real, e: Entry, f: Entry, url: string, m: Merged, n: Merged)
    requires !AgreeAt(e, f, url)
    requires IsMerge(channel, collate, [e, f], m) && IsMerge(channel, collate, [f, e], n)
    ensures m.files != n.files
  {
    SwapMatters([], e, f, url);
    assert [] + [e, f] == [e, f] && [] + [f, e] == [f, e];
    FilesAgreeIff(channel, collate, [e, f], [f, e], m, n);
  }

  lemma OneSumMergeable(url: string, x: string, y: string)
    requires url != "" && x != ""
    ensures Mergeable([OneFile(url, Some(x), None), OneFile(url, Some(x), Some(y))])
  {
    PoolOfTwo(OneFile(url, Some(x), None), OneFile(url, Some(x), Some(y)));
  }

  /** One artifact under one `sha512`, with a `sha2` in only one of two entries: the order shows. */
  lemma OrderExample(channel: string, collate: string -> real, url: string, x: string, y: string, m: Merged, n: Merged)
    requires url != "" && x != ""
    requires var e, f := OneFile(url, Some(x), None), OneFile(url, Some(x), Some(y));
      IsMerge(channel, collate, [e, f], m) && IsMerge(channel, collate, [f, e], n)
    ensures Mergeable([OneFile(url, Some(x), None), OneFile(url, Some(x), Some(y))])
    ensures m.files != n.files
  {
    OneSumMergeable(url, x, y);
    OneFileIsLast(url, Some(x), None);
    OneFileIsLast(url, Some(x), Some(y));
    SwappedMerges(channel, collate, OneFile(url, Some(x), None), OneFile(url, Some(x), Some(y)), url, m, n);
  }

  // ---------- The primary file ----------

  function LowerCase(c: char): char {
    if 'A' <= c <= 'Z' then c - 'A' + 'a' else c
  }

  /** The word stands in the URL, in letters of either case, between dashes, underscores, dots or ends. */
  predicate Names(url: string, word: string) {
    exists i :: 0 <= i <= |url| - |word| && NamesAt(url, word, i)
  }

  predicate NamesAt(url: string, word: string, i: nat)
    requires i + |word| <= |url|
  {
    && (forall j :: 0 <= j < |word| ==> LowerCase(url[i + j]) == word[j])
    && (i == 0 || url[i - 1] == '-' || url[i - 1] == '_' || url[i - 1] == '.')
    && var e := i + |word|; (e == |url| || url[e] == '-' || url[e] == '_' || url[e] == '.')
  }

  predicate Ends(url: string, suffix: string) {
    |suffix| <= |url| && forall j :: 0 <= j < |suffix| ==> LowerCase(url[|url| - |suffix| + j]) == suffix[j]
  }

  lemma NamesTell(url: string, word: string)
    requires forall j :: 0 <= j < |word| ==> LowerCase(word[j]) == word[j]
    ensures HasWord(Lower(url), word) <==> Names(url, word)
  {
    forall i | 0 <= i <= |url| - |word| ensures WordAt(Lower(url), word, i) <==> NamesAt(url, word, i) {
      WordTells(url, word, i);
    }
  }

  lemma WordTells(url: string, word: string, i: nat)
    requires i + |word| <= |url|
    ensures WordAt(Lower(url), word, i) <==> NamesAt(url, word, i)
  {
    var u := Lower(url);
    if NamesAt(url, word, i) {
      assert u[i..i + |word|] == word;
    }
    if WordAt(u, word, i) {
      forall j | 0 <= j < |word| ensures LowerCase(url[i + j]) == word[j] {
        assert u[i..i + |word|][j] == u[i + j];
      }
    }
  }

  lemma EndsTell(url: string, suffix: string)
    ensures EndsWith(Lower(url), suffix) <==> Ends(url, suffix)
  {
    var u := Lower(url);
    if Ends(url, suffix) {
      assert u[|u| - |suffix|..] == suffix;
    }
    if EndsWith(u, suffix) {
      forall j | 0 <= j < |suffix| ensures LowerCase(url[|url| - |suffix| + j]) == suffix[j] {
        assert u[|u| - |suffix|..][j] == u[|u| - |suffix| + j];
      }
    }
  }

  datatype Arch = X64 | Arm64 | Ia32 | Unnamed

  function ArchOf(url: string): Arch {
    if Names(url, "x64") || Names(url, "x86_64") || Names(url, "amd64") then X64
    else if Names(url, "arm64") || Names(url, "aarch64") then Arm64
    else if Names(url, "ia32") then Ia32 else Unnamed
  }

  /** 64-bit Intel first, then ARM, then 32-bit Intel, then the rest. */
  predicate PreferredArch(a: Arch, b: Arch) {
    a.X64? || (a.Arm64? && !b.X64?) || (a.Ia32? && (b.Ia32? || b.Unnamed?)) || (a.Unnamed? && b.Unnamed?)
  }

  /** The file that updates itself, before the disk image or package, before the rest. */
  predicate PreferredKind(channel: string, a: string, b: string) {
    if channel == "latest-mac.yml" then Ends(a, ".zip") || (!Ends(b, ".zip") && (Ends(a, ".dmg") || !Ends(b, ".dmg")))
    else if "latest-linux" <= channel then
      Ends(a, ".appimage") || (!Ends(b, ".appimage") && (Ends(a, ".deb") || !Ends(b, ".deb")))
    else true
  }

  lemma ArchTells(url: string)
    ensures ArchRank(url) ==
      match ArchOf(url)
      case X64 => 0
      case Arm64 => 1
      case Ia32 => 2
      case Unnamed => 3
  {
    NamesTell(url, "x64");
    NamesTell(url, "x86_64");
    NamesTell(url, "amd64");
    NamesTell(url, "arm64");
    NamesTell(url, "aarch64");
    NamesTell(url, "ia32");
  }

  lemma KindTells(channel: string, a: string, b: string)
    ensures ArtifactRank(channel, a) <= ArtifactRank(channel, b) <==> PreferredKind(channel, a, b)
  {
    EndsTell(a, ".zip");
    EndsTell(a, ".dmg");
    EndsTell(a, ".appimage");
    EndsTell(a, ".deb");
    EndsTell(b, ".zip");
    EndsTell(b, ".dmg");
    EndsTell(b, ".appimage");
    EndsTell(b, ".deb");
  }

  /** The files of a merge stand by architecture, within one architecture by kind, and then by collation. */
  lemma FilesStandInOrder(channel: string, collate: string -> real, entries: seq<Entry>, m: Merged, i: nat, j: nat)
    requires IsMerge(channel, collate, entries, m) && i < j < |m.files|
    ensures var a, b := Url(m.files[i]), Url(m.files[j]);
      && PreferredArch(ArchOf(a), ArchOf(b))
      && (ArchOf(a) == ArchOf(b) ==> PreferredKind(channel, a, b))
      && (ArchOf(a) == ArchOf(b) && PreferredKind(channel, b, a) ==> collate(a) < collate(b))
  {
    var a, b := Url(m.files[i]), Url(m.files[j]);
    assert At(Urls(m.files), i, j, ByUrl(channel, collate));
    ArchTells(a);
    ArchTells(b);
    KindTells(channel, a, b);
    KindTells(channel, b, a);
  }

  /** The primary file of a merge is of the preferred architecture among all artifacts, and of the preferred
      kind among those of its architecture. */
  lemma PrimaryIsPreferred(channel: string, collate: string -> real, entries: seq<Entry>, m: Merged, f: File)
    requires Mergeable(entries) && IsMerge(channel, collate, entries, m) && f in Pool(entries)
    ensures m.path.Some? && PreferredArch(ArchOf(m.path.value), ArchOf(Url(f)))
    ensures ArchOf(m.path.value) == ArchOf(Url(f)) ==> PreferredKind(channel, m.path.value, Url(f))
  {
    var i := MergeLosesNothing(channel, collate, entries, m, f);
    UrlIsSet(channel, collate, entries, m);
    ArchTells(m.path.value);
    ArchTells(Url(f));
    KindTells(channel, m.path.value, Url(f));
  }
}
