/** Merging the update metadata that several build machines wrote for one release channel. */
module UpdateMetadata {
  import opened Options
  import opened Orders
  import opened Text

  /** One artifact; `detail` stands for the fields the merge never looks at (its size and others). */
  datatype File = File(url: Option<string>, sha512: Option<string>, sha2: Option<string>, detail: string)

  datatype Metadata = Metadata(version: Option<string>, files: Option<seq<File>>, path: Option<string>,
                               sha512: Option<string>, sha2: Option<string>, releaseDate: Option<string>)

  datatype Entry = Entry(source: string, metadata: Metadata)

  datatype Error =
    | EmptyGroup
    | DifferentVersions
    | NoFiles(source: string)
    | MissingUrl(source: string)
    | MissingChecksum(url: string, source: string)
    | Conflict(url: string)

  datatype Result<+T> = Ok(value: T) | Err(error: Error)

  // ---------- One entry's files ----------

  predicate Truthy(o: Option<string>) {
    o.Some? && o.value != ""
  }

  function Url(f: File): string {
    if f.url.Some? then f.url.value else ""
  }

  /** `sha512 ?? sha2`: an empty `sha512` still hides `sha2`. */
  function Checksum(f: File): Option<string> {
    if f.sha512.Some? then f.sha512 else f.sha2
  }

  function FilesOf(m: Metadata): seq<File> {
    if m.files.Some? && m.files.value != [] then m.files.value
    else if Truthy(m.path) then [File(m.path, m.sha512, m.sha2, "")]
    else []
  }

  predicate ValidFile(f: File) {
    Truthy(f.url) && (Truthy(f.sha512) || Truthy(f.sha2))
  }

  ghost predicate ValidEntry(e: Entry) {
    FilesOf(e.metadata) != [] && forall f :: f in FilesOf(e.metadata) ==> ValidFile(f)
  }

  /** The error is one that an entry with these files and this source really has. */
  ghost predicate FaultOf(files: seq<File>, source: string, error: Error) {
    match error
    case NoFiles(s) => s == source && files == []
    case MissingUrl(s) => s == source && exists f :: f in files && !Truthy(f.url)
    case MissingChecksum(u, s) =>
      s == source && exists f :: f in files && Url(f) == u && !Truthy(f.sha512) && !Truthy(f.sha2)
    case _ => false
  }

  function FirstFault(files: seq<File>, source: string): (r: Option<Error>)
    ensures r == None <==> forall f :: f in files ==> ValidFile(f)
    ensures r.Some? ==> FaultOf(files, source, r.value)
  {
    if files == [] then None
    else
      assert files[0] in files;
      if !Truthy(files[0].url) then Some(MissingUrl(source))
    else if !Truthy(files[0].sha512) && !Truthy(files[0].sha2) then Some(MissingChecksum(Url(files[0]), source))
    else
      assert files == [files[0]] + files[1..];
      FirstFault(files[1..], source)
  }

  function MetadataFiles(e: Entry): (r: Result<seq<File>>)
    ensures r.Ok? <==> ValidEntry(e)
    ensures r.Ok? ==> r.value == FilesOf(e.metadata)
    ensures r.Err? ==> FaultOf(FilesOf(e.metadata), e.source, r.error)
  {
    var files := FilesOf(e.metadata);
    if files == [] then Err(NoFiles(e.source))
    else match FirstFault(files, e.source)
      case None => Ok(files)
      case Some(error) => Err(error)
  }

  // ---------- The order of the merged files ----------

  function Lower(s: string): string {
    seq(|s|, i requires 0 <= i < |s| => if 'A' <= s[i] <= 'Z' then s[i] - 'A' + 'a' else s[i])
  }

  predicate Delimiter(c: char) {
    c == '-' || c == '_' || c == '.'
  }

  /** The word stands in the text between delimiters or ends of the text. */
  predicate HasWord(s: string, word: string) {
    exists i :: 0 <= i <= |s| - |word| && WordAt(s, word, i)
  }

  predicate WordAt(s: string, word: string, i: nat)
    requires i + |word| <= |s|
  {
    && s[i..i + |word|] == word
    && (i == 0 || Delimiter(s[i - 1])) && (i + |word| == |s| || Delimiter(s[i + |word|]))
  }

  predicate EndsWith(s: string, suffix: string) {
    |suffix| <= |s| && s[|s| - |suffix|..] == suffix
  }

  function ArchRank(url: string): nat {
    var u := Lower(url);
    if HasWord(u, "x64") || HasWord(u, "x86_64") || HasWord(u, "amd64") then 0
    else if HasWord(u, "arm64") || HasWord(u, "aarch64") then 1
    else if HasWord(u, "ia32") then 2
    else 3
  }

  function ArtifactRank(channel: string, url: string): nat {
    var u := Lower(url);
    if channel == "latest-mac.yml" then
      if EndsWith(u, ".zip") then 0 else if EndsWith(u, ".dmg") then 1 else 2
    else if "latest-linux" <= channel then
      if EndsWith(u, ".appimage") then 0 else if EndsWith(u, ".deb") then 1 else 2
    else 2
  }

  predicate UrlPrecedes(channel: string, collate: string -> real, u: string, v: string) {
    || ArchRank(u) < ArchRank(v)
    || (ArchRank(u) == ArchRank(v) &&
        (|| ArtifactRank(channel, u) < ArtifactRank(channel, v)
         || (ArtifactRank(channel, u) == ArtifactRank(channel, v) && collate(u) < collate(v))))
  }

  function ByUrl(channel: string, collate: string -> real): (string, string) -> bool {
    (u, v) => UrlPrecedes(channel, collate, u, v)
  }

  function ByRank(channel: string, collate: string -> real): (File, File) -> bool {
    (f, g) => UrlPrecedes(channel, collate, Url(f), Url(g))
  }

  /** `localeCompare` as a key: different URLs never compare equal. */
  ghost predicate Injective(collate: string -> real) {
    forall u, v :: collate(u) == collate(v) ==> u == v
  }

  function Urls(files: seq<File>): (r: seq<string>)
    ensures |r| == |files|
    ensures forall u :: u in r <==> exists f :: f in files && Url(f) == u
  {
    var r := seq(|files|, i requires 0 <= i < |files| => Url(files[i]));
    assert forall f :: f in files ==> Url(f) in r by {
      forall f | f in files ensures Url(f) in r {
        var i :| 0 <= i < |files| && files[i] == f;
        assert r[i] == Url(f);
      }
    }
    r
  }

  // ---------- What a merge means ----------

  function Pool(entries: seq<Entry>): seq<File> {
    if entries == [] then []
    else Pool(entries[..|entries| - 1]) + FilesOf(entries[|entries| - 1].metadata)
  }

  ghost predicate ConflictFree(pool: seq<File>) {
    forall f, g :: f in pool && g in pool && Url(f) == Url(g) ==> Agree(f, g)
  }

  ghost predicate Agree(f: File, g: File) {
    Checksum(f) == Checksum(g)
  }

  ghost predicate SameVersions(entries: seq<Entry>) {
    forall i, j :: 0 <= i < |entries| && 0 <= j < |entries| ==>
      entries[i].metadata.version == entries[j].metadata.version
  }

  ghost predicate Mergeable(entries: seq<Entry>) {
    && entries != [] && SameVersions(entries)
    && (forall e :: e in entries ==> ValidEntry(e))
    && ConflictFree(Pool(entries))
  }

  /** The last file with this URL. */
  function LastFor(pool: seq<File>, url: string): (r: Option<File>)
    ensures r.None? <==> forall f :: f in pool ==> Url(f) != url
    ensures r.Some? ==> r.value in pool && Url(r.value) == url
  {
    if pool == [] then None
    else
      assert pool == pool[..|pool| - 1] + [pool[|pool| - 1]];
      if Url(pool[|pool| - 1]) == url then Some(pool[|pool| - 1])
      else LastFor(pool[..|pool| - 1], url)
  }

  lemma {:induction false} LastForAppend(a: seq<File>, b: seq<File>, url: string)
    ensures LastFor(a + b, url) == if LastFor(b, url).Some? then LastFor(b, url) else LastFor(a, url)
  {
    if b == [] {
      assert a + b == a;
    } else {
      LastForAppend(a, b[..|b| - 1], url);
      assert (a + b)[..|a + b| - 1] == a + b[..|b| - 1];
    }
  }

  lemma {:induction false} PoolMembers(entries: seq<Entry>, f: File)
    ensures f in Pool(entries) <==> exists e :: e in entries && f in FilesOf(e.metadata)
  {
    if entries != [] {
      var init, last := entries[..|entries| - 1], entries[|entries| - 1];
      PoolMembers(init, f);
      assert entries == init + [last];
    }
  }

  // ---------- Release dates ----------

  function LatestDate(entries: seq<Entry>): Option<string> {
    if entries == [] then None
    else
      var before, date := LatestDate(entries[..|entries| - 1]), entries[|entries| - 1].metadata.releaseDate;
      if Truthy(date) && (before.None? || AtMost(before.value, date.value)) then date else before
  }

  ghost predicate Dated(entries: seq<Entry>, date: string) {
    date != "" && exists e :: e in entries && e.metadata.releaseDate == Some(date)
  }

  /** The maximum of the dates present. */
  ghost predicate IsLatest(entries: seq<Entry>, latest: Option<string>) {
    match latest
    case None => forall e :: e in entries ==> !Truthy(e.metadata.releaseDate)
    case Some(d) => Dated(entries, d) && forall e :: e in entries ==> NotAfter(e, d)
  }

  predicate NotAfter(e: Entry, date: string) {
    Truthy(e.metadata.releaseDate) ==> AtMost(e.metadata.releaseDate.value, date)
  }

  lemma {:induction false} LatestIsMaximum(entries: seq<Entry>)
    ensures IsLatest(entries, LatestDate(entries))
  {
    if entries != [] {
      var init, last := entries[..|entries| - 1], entries[|entries| - 1];
      LatestIsMaximum(init);
      assert entries == init + [last];
      var before, after := LatestDate(init), LatestDate(entries);
      if after.Some? {
        assert Dated(entries, after.value) by {
          if after == before {
            assert Dated(init, after.value);
          }
        }
        forall e | e in entries ensures NotAfter(e, after.value) {
          if Truthy(e.metadata.releaseDate) {
            AtMostTotal(e.metadata.releaseDate.value, after.value);
            if e in init && before != after {
              AtMostTransitive(e.metadata.releaseDate.value, before.value, after.value);
            }
          }
        }
      }
    }
  }

  lemma LatestIsUnique(a: seq<Entry>, b: seq<Entry>, x: Option<string>, y: Option<string>)
    requires (forall e :: e in a <==> e in b) && IsLatest(a, x) && IsLatest(b, y)
    ensures x == y
  {
    LatestCarries(a, b, x, y);
    LatestCarries(b, a, y, x);
    if x.Some? && y.Some? {
      AtMostTotal(x.value, y.value);
    }
  }

  lemma LatestCarries(a: seq<Entry>, b: seq<Entry>, x: Option<string>, y: Option<string>)
    requires (forall e :: e in a <==> e in b) && IsLatest(a, x) && IsLatest(b, y)
    ensures x.Some? ==> y.Some? && AtMost(x.value, y.value)
  {
    if x.Some? {
      var e :| e in a && e.metadata.releaseDate == x;
      assert e in b;
      assert y.Some?;
      assert NotAfter(e, y.value);
    }
  }

  // ---------- The merge ----------

  datatype Merged = Merged(first: Metadata, files: seq<File>, path: Option<string>,
                           sha512: Option<string>, sha2: Option<string>, releaseDate: Option<string>)

  /** Every URL of the pool, in strict order, each with its last file. */
  ghost predicate Lists(files: seq<File>, pool: seq<File>, channel: string, collate: string -> real) {
    && Ordered(Urls(files), ByUrl(channel, collate))
    && (forall f :: f in files ==> LastFor(pool, Url(f)) == Some(f))
    && (forall f :: f in pool ==> Url(f) in Urls(files))
  }

  ghost predicate IsMerge(channel: string, collate: string -> real, entries: seq<Entry>, m: Merged) {
    && entries != [] && m.first == entries[0].metadata
    && Lists(m.files, Pool(entries), channel, collate)
    && m.files != [] && m.path == m.files[0].url && m.sha512 == m.files[0].sha512
    && m.sha2 == (if Truthy(m.files[0].sha2) then m.files[0].sha2 else None)
    && m.releaseDate == (if LatestDate(entries).Some? then LatestDate(entries) else m.first.releaseDate)
  }

  /** The error names something true of the entries. */
  ghost predicate Explains(entries: seq<Entry>, error: Error) {
    match error
    case EmptyGroup => entries == []
    case DifferentVersions => !SameVersions(entries)
    case Conflict(u) => exists f, g :: f in Pool(entries) && g in Pool(entries) && Url(f) == Url(g) == u && !Agree(f, g)
    case _ => exists e :: e in entries && FaultOf(FilesOf(e.metadata), e.source, error)
  }

  /** The code's Map: keys in order of first insertion, each with the last file stored. */
  ghost predicate Collected(pool: seq<File>, keys: seq<string>, byUrl: map<string, File>) {
    && ConflictFree(pool) && Unique(keys)
    && (forall u :: u in keys <==> u in byUrl)
    && (forall u :: StoredAt(pool, byUrl, u))
  }

  ghost predicate StoredAt(pool: seq<File>, byUrl: map<string, File>, url: string) {
    LastFor(pool, url) == if url in byUrl then Some(byUrl[url]) else None
  }

  ghost predicate Unique(keys: seq<string>) {
    forall j :: 0 <= j < |keys| ==> NewAt(keys, j)
  }

  ghost predicate NewAt(keys: seq<string>, j: nat)
    requires j < |keys|
  {
    keys[j] !in keys[..j]
  }

  /** A file of a URL seen before replaces the one stored. */
  lemma CollectSeen(pool: seq<File>, keys: seq<string>, byUrl: map<string, File>, f: File)
    requires Collected(pool, keys, byUrl) && Url(f) in byUrl && Agree(byUrl[Url(f)], f)
    ensures Collected(pool + [f], keys, byUrl[Url(f) := f])
  {
    var pool', byUrl' := pool + [f], byUrl[Url(f) := f];
    forall v ensures StoredAt(pool', byUrl', v) {
      assert StoredAt(pool, byUrl, v);
      LastForSnoc(pool, f, v);
    }
    assert StoredAt(pool, byUrl, Url(f));
    ConflictFreeSnoc(pool, f);
  }

  lemma CollectNew(pool: seq<File>, keys: seq<string>, byUrl: map<string, File>, f: File)
    requires Collected(pool, keys, byUrl) && Url(f) !in byUrl
    ensures Collected(pool + [f], keys + [Url(f)], byUrl[Url(f) := f])
  {
    var pool', byUrl' := pool + [f], byUrl[Url(f) := f];
    forall v ensures StoredAt(pool', byUrl', v) {
      assert StoredAt(pool, byUrl, v);
      LastForSnoc(pool, f, v);
    }
    assert StoredAt(pool, byUrl, Url(f));
    ConflictFreeSnoc(pool, f);
    UniqueSnoc(keys, Url(f));
  }

  lemma LastForSnoc(pool: seq<File>, f: File, url: string)
    ensures LastFor(pool + [f], url) == if url == Url(f) then Some(f) else LastFor(pool, url)
  {
    assert (pool + [f])[..|pool|] == pool;
  }

  /** A file that agrees with the last one of its URL agrees with all of them. */
  lemma ConflictFreeSnoc(pool: seq<File>, f: File)
    requires ConflictFree(pool) && (LastFor(pool, Url(f)).Some? ==> Agree(LastFor(pool, Url(f)).value, f))
    ensures ConflictFree(pool + [f])
  {
    forall g | g in pool && Url(g) == Url(f) ensures Agree(g, f) {
      assert LastFor(pool, Url(f)).Some?;
      assert Agree(g, LastFor(pool, Url(f)).value);
    }
  }

  lemma UniqueSnoc(keys: seq<string>, key: string)
    requires Unique(keys) && key !in keys
    ensures Unique(keys + [key])
  {
    var keys' := keys + [key];
    forall j | 0 <= j < |keys'| ensures NewAt(keys', j) {
      if j < |keys| {
        assert NewAt(keys, j) && keys'[..j] == keys[..j];
      } else {
        assert keys'[..j] == keys;
      }
    }
  }

  lemma PoolStep(entries: seq<Entry>, i: nat)
    requires i < |entries|
    ensures Pool(entries[..i + 1]) == Pool(entries[..i]) + FilesOf(entries[i].metadata)
    ensures forall f :: f in Pool(entries[..i]) + FilesOf(entries[i].metadata) ==> f in Pool(entries)
  {
    assert entries[..i + 1][..i] == entries[..i];
    forall f | f in Pool(entries[..i + 1]) ensures f in Pool(entries) {
      PoolMembers(entries[..i + 1], f);
      PoolMembers(entries, f);
    }
  }

  /** The map's values in the order of its keys. */
  ghost predicate ValuesOf(values: seq<File>, keys: seq<string>, byUrl: map<string, File>) {
    |values| == |keys| && forall k :: 0 <= k < |keys| ==> ValueAt(values, keys, byUrl, k)
  }

  ghost predicate ValueAt(values: seq<File>, keys: seq<string>, byUrl: map<string, File>, k: nat)
    requires k < |values| == |keys|
  {
    keys[k] in byUrl && values[k] == byUrl[keys[k]] && Url(values[k]) == keys[k]
  }

  lemma ValuesComparable(keys: seq<string>, byUrl: map<string, File>, values: seq<File>,
                         channel: string, collate: string -> real)
    requires Unique(keys) && ValuesOf(values, keys, byUrl) && Injective(collate)
    ensures AllComparable(values, ByRank(channel, collate))
  {
    var less := ByRank(channel, collate);
    forall i, j | 0 <= i < j < |values| ensures ComparableAt(values, i, j, less) {
      assert NewAt(keys, j) && keys[i] in keys[..j];
      assert ValueAt(values, keys, byUrl, i) && ValueAt(values, keys, byUrl, j);
      assert collate(keys[i]) != collate(keys[j]);
    }
  }

  /** The map's values, sorted, list every URL once, in order, each with its last file. */
  lemma SortedFiles(pool: seq<File>, keys: seq<string>, byUrl: map<string, File>, values: seq<File>,
                    channel: string, collate: string -> real)
    requires Collected(pool, keys, byUrl) && ValuesOf(values, keys, byUrl) && Injective(collate)
    ensures Lists(Sort(values, ByRank(channel, collate)), pool, channel, collate)
  {
    var less := ByRank(channel, collate);
    var files := Sort(values, less);
    ValuesComparable(keys, byUrl, values, channel, collate);
    SortOrders(values, less);
    forall i, j | 0 <= i < j < |files| ensures At(Urls(files), i, j, ByUrl(channel, collate)) {
      assert At(files, i, j, less);
    }
    forall f | f in files ensures LastFor(pool, Url(f)) == Some(f) {
      var k :| 0 <= k < |values| && values[k] == f;
      assert ValueAt(values, keys, byUrl, k) && StoredAt(pool, byUrl, keys[k]);
    }
    forall f | f in pool ensures Url(f) in Urls(files) {
      assert StoredAt(pool, byUrl, Url(f)) && LastFor(pool, Url(f)).Some?;
      assert Url(f) in keys;
      var k :| 0 <= k < |keys| && keys[k] == Url(f);
      assert ValueAt(values, keys, byUrl, k) && values[k] in files;
    }
  }

  method VersionsAgree(entries: seq<Entry>) returns (same: bool)
    requires entries != []
    ensures same <==> SameVersions(entries)
  {
    for i := 0 to |entries|
      invariant forall k :: 0 <= k < i ==> entries[k].metadata.version == entries[0].metadata.version
    {
      if entries[i].metadata.version != entries[0].metadata.version {
        return false;
      }
    }
    return true;
  }

  /** One entry's files into the map, stopping at the first conflict. */
  method AddFiles(ghost pool: seq<File>, files: seq<File>, keys: seq<string>, byUrl: map<string, File>)
    returns (conflict: Option<string>, keys': seq<string>, byUrl': map<string, File>)
    requires Collected(pool, keys, byUrl)
    ensures conflict.None? ==> Collected(pool + files, keys', byUrl')
    ensures conflict.Some? ==> exists f, g ::
      f in pool + files && g in files && Url(f) == Url(g) == conflict.value && !Agree(f, g)
  {
    keys', byUrl' := keys, byUrl;
    assert pool + files[..0] == pool;
    for j := 0 to |files|
      invariant Collected(pool + files[..j], keys', byUrl')
    {
      var file := files[j];
      ghost var seen := pool + files[..j];
      assert pool + files[..j + 1] == seen + [file];
      if Url(file) in byUrl' && Checksum(byUrl'[Url(file)]) != Checksum(file) {
        assert StoredAt(seen, byUrl', Url(file));
        ghost var stored := LastFor(seen, Url(file)).value;
        assert stored in seen && !Agree(stored, file);
        return Some(Url(file)), keys', byUrl';
      }
      if Url(file) in byUrl' {
        CollectSeen(seen, keys', byUrl', file);
      } else {
        CollectNew(seen, keys', byUrl', file);
        keys' := keys' + [Url(file)];
      }
      byUrl' := byUrl'[Url(file) := file];
    }
    assert files[..|files|] == files;
    conflict := None;
  }

  method CollectFiles(entries: seq<Entry>) returns (error: Option<Error>, keys: seq<string>, byUrl: map<string, File>)
    requires SameVersions(entries)
    ensures error.None? <==> (forall e :: e in entries ==> ValidEntry(e)) && ConflictFree(Pool(entries))
    ensures error.None? ==> Collected(Pool(entries), keys, byUrl)
    ensures error.Some? ==> Explains(entries, error.value)
  {
    keys, byUrl := [], map[];
    for i := 0 to |entries|
      invariant forall k :: 0 <= k < i ==> ValidEntry(entries[k])
      invariant Collected(Pool(entries[..i]), keys, byUrl)
    {
      var checked := MetadataFiles(entries[i]);
      if checked.Err? {
        return Some(checked.error), keys, byUrl;
      }
      PoolStep(entries, i);
      var conflict: Option<string>;
      conflict, keys, byUrl := AddFiles(Pool(entries[..i]), checked.value, keys, byUrl);
      if conflict.Some? {
        return Some(Conflict(conflict.value)), keys, byUrl;
      }
    }
    assert entries[..|entries|] == entries;
    error := None;
  }

  method SortedPool(channel: string, entries: seq<Entry>, collate: string -> real)
    returns (error: Option<Error>, files: seq<File>)
    requires entries != [] && SameVersions(entries) && Injective(collate)
    ensures error.None? <==> Mergeable(entries)
    ensures error.Some? ==> Explains(entries, error.value)
    ensures error.None? ==> files != [] && Lists(files, Pool(entries), channel, collate)
  {
    var keys, byUrl;
    error, keys, byUrl := CollectFiles(entries);
    if error.Some? {
      return error, [];
    }
    files := SortValues(Pool(entries), keys, byUrl, channel, collate);
    PoolNotEmpty(entries);
  }

  method SortValues(ghost pool: seq<File>, keys: seq<string>, byUrl: map<string, File>, channel: string,
                    collate: string -> real) returns (files: seq<File>)
    requires Collected(pool, keys, byUrl) && Injective(collate)
    ensures Lists(files, pool, channel, collate)
  {
    forall k | 0 <= k < |keys| ensures LastFor(pool, keys[k]) == Some(byUrl[keys[k]]) {
      assert StoredAt(pool, byUrl, keys[k]);
    }
    var values := seq(|keys|, k requires 0 <= k < |keys| && keys[k] in byUrl => byUrl[keys[k]]);
    files := Sort(values, ByRank(channel, collate));
    SortedFiles(pool, keys, byUrl, values, channel, collate);
  }

  method MergeEntries(channel: string, entries: seq<Entry>, collate: string -> real) returns (r: Result<Merged>)
    requires Injective(collate)
    ensures r.Ok? <==> Mergeable(entries)
    ensures r.Ok? ==> IsMerge(channel, collate, entries, r.value)
    ensures r.Err? ==> Explains(entries, r.error)
  {
    if entries == [] {
      return Err(EmptyGroup);
    }
    var first := entries[0].metadata;
    var same := VersionsAgree(entries);
    if !same {
      return Err(DifferentVersions);
    }
    var error, files := SortedPool(channel, entries, collate);
    if error.Some? {
      return Err(error.value);
    }
    return Ok(Assembled(first, files, LatestDate(entries)));
  }

  function Assembled(first: Metadata, files: seq<File>, latest: Option<string>): Merged
    requires files != []
  {
    var primary := files[0];
    Merged(first, files, primary.url, primary.sha512, if Truthy(primary.sha2) then primary.sha2 else None,
           if latest.Some? then latest else first.releaseDate)
  }

  lemma PoolNotEmpty(entries: seq<Entry>)
    requires Mergeable(entries)
    ensures exists f :: f in Pool(entries)
  {
    assert ValidEntry(entries[0]);
    var f := FilesOf(entries[0].metadata)[0];
    PoolMembers(entries, f);
  }

  // ---------- What the merge promises ----------

  lemma MergedUrls(channel: string, collate: string -> real, entries: seq<Entry>, m: Merged)
    requires IsMerge(channel, collate, entries, m)
    ensures forall u :: u in Urls(m.files) <==> exists f :: f in Pool(entries) && Url(f) == u
  {
    forall u | u in Urls(m.files) ensures exists f :: f in Pool(entries) && Url(f) == u {
      var f :| f in m.files && Url(f) == u;
      assert LastFor(Pool(entries), Url(f)) == Some(f);
    }
  }

  /** Nothing is lost: every input artifact is listed exactly once, with its checksum, and the primary one
      is the least by architecture, kind and name. */
  lemma MergeLosesNothing(channel: string, collate: string -> real, entries: seq<Entry>, m: Merged, f: File)
    returns (i: nat)
    requires Mergeable(entries) && IsMerge(channel, collate, entries, m) && f in Pool(entries)
    ensures i < |m.files| && Url(m.files[i]) == Url(f) && Checksum(m.files[i]) == Checksum(f)
    ensures forall j :: 0 <= j < |m.files| && j != i ==> Url(m.files[j]) != Url(f)
    ensures Some(Url(f)) == m.path || (m.path.Some? && UrlPrecedes(channel, collate, m.path.value, Url(f)))
  {
    i := ListedOnce(m.files, Pool(entries), channel, collate, f);
    UrlIsSet(channel, collate, entries, m);
    LeastFirst(m.files, channel, collate, i);
  }

  lemma ListedOnce(files: seq<File>, pool: seq<File>, channel: string, collate: string -> real, f: File)
    returns (i: nat)
    requires Lists(files, pool, channel, collate) && ConflictFree(pool) && f in pool
    ensures i < |files| && Url(files[i]) == Url(f) && Checksum(files[i]) == Checksum(f)
    ensures forall j :: 0 <= j < |files| && j != i ==> Url(files[j]) != Url(f)
  {
    var less, urls := ByUrl(channel, collate), Urls(files);
    assert Url(f) in urls;
    i :| 0 <= i < |urls| && urls[i] == Url(f);
    var g := files[i];
    assert g in files && LastFor(pool, Url(g)) == Some(g);
    assert Agree(f, g);
    forall j | 0 <= j < |files| && j != i ensures Url(files[j]) != Url(f) {
      assert if j < i then At(urls, j, i, less) else At(urls, i, j, less);
    }
  }

  lemma LeastFirst(files: seq<File>, channel: string, collate: string -> real, i: nat)
    requires Ordered(Urls(files), ByUrl(channel, collate)) && i < |files|
    ensures i == 0 || UrlPrecedes(channel, collate, Url(files[0]), Url(files[i]))
  {
    assert i > 0 ==> At(Urls(files), 0, i, ByUrl(channel, collate));
  }

  function Pairs(files: seq<File>): seq<(string, Option<string>)> {
    seq(|files|, i requires 0 <= i < |files| => (Url(files[i]), Checksum(files[i])))
  }

  ghost predicate SameEntries(a: seq<Entry>, b: seq<Entry>) {
    forall e :: e in a <==> e in b
  }

  lemma SamePools(a: seq<Entry>, b: seq<Entry>)
    requires SameEntries(a, b)
    ensures forall f :: f in Pool(a) <==> f in Pool(b)
    ensures Mergeable(a) <==> Mergeable(b)
  {
    forall f ensures f in Pool(a) <==> f in Pool(b) {
      PoolMembers(a, f);
      PoolMembers(b, f);
    }
    SameVersionsCarry(a, b);
    SameVersionsCarry(b, a);
    EmptyTogether(a, b);
    EmptyTogether(b, a);
  }

  lemma SameVersionsCarry(a: seq<Entry>, b: seq<Entry>)
    requires SameEntries(a, b)
    ensures SameVersions(a) ==> SameVersions(b)
  {
    if SameVersions(a) {
      forall i, j | 0 <= i < |b| && 0 <= j < |b| ensures b[i].metadata.version == b[j].metadata.version {
        assert b[i] in a && b[j] in a;
      }
    }
  }

  /** Order independence: the same entries in any order, and with any repetitions, merge or fail alike and
      give the same artifacts with the same checksums, the same primary and the same latest date. */
  lemma MergeIgnoresOrder(channel: string, collate: string -> real, a: seq<Entry>, b: seq<Entry>, m: Merged, n: Merged)
    requires SameEntries(a, b)
    ensures Mergeable(a) <==> Mergeable(b)
    ensures Mergeable(a) && IsMerge(channel, collate, a, m) && IsMerge(channel, collate, b, n) ==>
      && Pairs(m.files) == Pairs(n.files) && m.path == n.path
      && LatestDate(a) == LatestDate(b) && (LatestDate(a).Some? ==> m.releaseDate == n.releaseDate)
  {
    SamePools(a, b);
    if Mergeable(a) && IsMerge(channel, collate, a, m) && IsMerge(channel, collate, b, n) {
      SamePairs(channel, collate, a, b, m, n);
      UrlIsSet(channel, collate, a, m);
      UrlIsSet(channel, collate, b, n);
      assert Pairs(m.files)[0] == Pairs(n.files)[0];
      SameDates(a, b);
    }
  }

  lemma SamePairs(channel: string, collate: string -> real, a: seq<Entry>, b: seq<Entry>, m: Merged, n: Merged)
    requires Mergeable(a) && forall f :: f in Pool(a) <==> f in Pool(b)
    requires IsMerge(channel, collate, a, m) && IsMerge(channel, collate, b, n)
    ensures Pairs(m.files) == Pairs(n.files)
  {
    SameUrls(channel, collate, a, b, m, n);
    assert |Urls(m.files)| == |Urls(n.files)|;
    forall i | 0 <= i < |m.files| ensures Pairs(m.files)[i] == Pairs(n.files)[i] {
      SameAt(channel, collate, a, b, m, n, i);
    }
  }

  lemma SameUrls(channel: string, collate: string -> real, a: seq<Entry>, b: seq<Entry>, m: Merged, n: Merged)
    requires forall f :: f in Pool(a) <==> f in Pool(b)
    requires IsMerge(channel, collate, a, m) && IsMerge(channel, collate, b, n)
    ensures Urls(m.files) == Urls(n.files)
  {
    MergedUrls(channel, collate, a, m);
    MergedUrls(channel, collate, b, n);
    OrderedIsUnique(Urls(m.files), Urls(n.files), ByUrl(channel, collate));
  }

  lemma SameDates(a: seq<Entry>, b: seq<Entry>)
    requires SameEntries(a, b)
    ensures LatestDate(a) == LatestDate(b)
  {
    LatestIsMaximum(a);
    LatestIsMaximum(b);
    LatestIsUnique(a, b, LatestDate(a), LatestDate(b));
  }

  lemma SameAt(channel: string, collate: string -> real, a: seq<Entry>, b: seq<Entry>, m: Merged, n: Merged, i: nat)
    requires Mergeable(a) && forall f :: f in Pool(a) <==> f in Pool(b)
    requires IsMerge(channel, collate, a, m) && IsMerge(channel, collate, b, n)
    requires Urls(m.files) == Urls(n.files) && i < |m.files|
    ensures Url(m.files[i]) == Url(n.files[i]) && Checksum(m.files[i]) == Checksum(n.files[i])
  {
    var f, g := m.files[i], n.files[i];
    assert Urls(m.files)[i] == Url(f) && Urls(n.files)[i] == Url(g);
    assert f in m.files && LastFor(Pool(a), Url(f)) == Some(f);
    assert g in n.files && LastFor(Pool(b), Url(g)) == Some(g);
    assert Agree(f, g);
  }

  lemma UrlIsSet(channel: string, collate: string -> real, entries: seq<Entry>, m: Merged)
    requires Mergeable(entries) && IsMerge(channel, collate, entries, m)
    ensures m.path == Some(Url(m.files[0]))
  {
    var f := m.files[0];
    assert f in m.files && LastFor(Pool(entries), Url(f)) == Some(f);
    PoolMembers(entries, f);
    assert ValidFile(f);
  }

  /** The other fields do depend on the order: the entry merged last supplies them. */
  lemma LastEntryWins(
    channel: string, collate: string -> real, entries: seq<Entry>, last: Entry, m: Merged, url: string)
    requires IsMerge(channel, collate, entries + [last], m) && LastFor(FilesOf(last.metadata), url).Some?
    ensures LastFor(FilesOf(last.metadata), url).value in m.files
  {
    var all := entries + [last];
    assert all[..|all| - 1] == entries;
    LastForAppend(Pool(entries), FilesOf(last.metadata), url);
    var f := LastFor(FilesOf(last.metadata), url).value;
    assert LastFor(Pool(all), url) == Some(f);
    assert Url(f) in Urls(m.files);
    var g :| g in m.files && Url(g) == url;
  }

  lemma MergedFile(channel: string, collate: string -> real, entries: seq<Entry>, m: Merged, f: File)
    requires IsMerge(channel, collate, entries, m)
    ensures f in m.files <==> LastFor(Pool(entries), Url(f)) == Some(f)
  {
    if LastFor(Pool(entries), Url(f)) == Some(f) {
      assert Url(f) in Urls(m.files);
      var g :| g in m.files && Url(g) == Url(f);
      assert LastFor(Pool(entries), Url(g)) == Some(g);
    }
  }

  /** So two merges, of the same entries in two orders or of any others, list the same files in every field
      if and only if each URL has the same last file in both; equal checksums are not enough. */
  lemma FilesAgreeIff(channel: string, collate: string -> real, a: seq<Entry>, b: seq<Entry>, m: Merged, n: Merged)
    requires IsMerge(channel, collate, a, m) && IsMerge(channel, collate, b, n)
    ensures m.files == n.files <==> SameLast(a, b)
  {
    if SameLast(a, b) {
      forall f ensures f in m.files <==> f in n.files {
        MergedFile(channel, collate, a, m, f);
        MergedFile(channel, collate, b, n, f);
        assert SameLastAt(a, b, Url(f));
      }
      FilesOrdered(m.files, channel, collate);
      FilesOrdered(n.files, channel, collate);
      OrderedIsUnique(m.files, n.files, ByRank(channel, collate));
    } else if m.files == n.files {
      forall u ensures SameLastAt(a, b, u) {
        LastCarries(channel, collate, a, b, m, n, u);
        LastCarries(channel, collate, b, a, n, m, u);
      }
    }
  }

  ghost predicate SameLast(a: seq<Entry>, b: seq<Entry>) {
    forall u :: SameLastAt(a, b, u)
  }

  predicate SameLastAt(a: seq<Entry>, b: seq<Entry>, url: string) {
    LastFor(Pool(a), url) == LastFor(Pool(b), url)
  }

  lemma LastCarries(channel: string, collate: string -> real, a: seq<Entry>, b: seq<Entry>, m: Merged, n: Merged,
                    url: string)
    requires IsMerge(channel, collate, a, m) && IsMerge(channel, collate, b, n) && m.files == n.files
    ensures LastFor(Pool(a), url).Some? ==> LastFor(Pool(b), url) == LastFor(Pool(a), url)
  {
    if LastFor(Pool(a), url).Some? {
      var f := LastFor(Pool(a), url).value;
      MergedFile(channel, collate, a, m, f);
      MergedFile(channel, collate, b, n, f);
    }
  }

  lemma FilesOrdered(files: seq<File>, channel: string, collate: string -> real)
    requires Ordered(Urls(files), ByUrl(channel, collate))
    ensures Ordered(files, ByRank(channel, collate))
  {
    forall i, j | 0 <= i < j < |files| ensures At(files, i, j, ByRank(channel, collate)) {
      assert At(Urls(files), i, j, ByUrl(channel, collate));
    }
  }
}
