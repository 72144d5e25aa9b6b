/** Loading chunk files into one collection: duplicates by content hash, then links to neighbours. */
module Dedup {
  import opened Options
  import opened Text

  datatype Doc = Doc(content: string, page: int)

  /** `pages` is the range a leading meta chunk gives. */
  datatype SourceFile = SourceFile(name: string, date: string, pages: Option<(int, int)>, docs: seq<Doc>)

  datatype Chunk = Chunk(content: string, filename: string, page: int, date: string, docId: string,
                         globalId: nat, prev: string, next: string)

  // ---------- The chunks read, in order ----------

  predicate Skipped(f: SourceFile, d: Doc, ignoreRange: bool) {
    f.pages.Some? && !ignoreRange && !(f.pages.value.0 <= d.page <= f.pages.value.1)
  }

  function Read(f: SourceFile, d: Doc, hash: string -> string, gid: nat): Chunk {
    Chunk(d.content, f.name, d.page, f.date, hash(d.content), gid, "", "")
  }

  /** The chunks read so far, and then those of a file's first `n` entries; ids count the chunks read. */
  function AfterDocs(f: SourceFile, n: nat, read: seq<Chunk>, ignoreRange: bool, hash: string -> string): seq<Chunk>
    requires n <= |f.docs|
  {
    if n == 0 then read
    else
      var before := AfterDocs(f, n - 1, read, ignoreRange, hash);
      if Skipped(f, f.docs[n - 1], ignoreRange) then before
      else before + [Read(f, f.docs[n - 1], hash, |before|)]
  }

  function AllChunks(files: seq<SourceFile>, n: nat, ignoreRange: bool, hash: string -> string): seq<Chunk>
    requires n <= |files|
  {
    if n == 0 then []
    else AfterDocs(files[n - 1], |files[n - 1].docs|, AllChunks(files, n - 1, ignoreRange, hash), ignoreRange, hash)
  }

  /** Global ids are the places in the order of reading, and document ids the digests of the contents. */
  ghost predicate Numbered(read: seq<Chunk>, hash: string -> string) {
    forall k :: 0 <= k < |read| ==> read[k].globalId == k && read[k].docId == hash(read[k].content)
  }

  lemma {:induction false} DocsNumbered(
    f: SourceFile, n: nat, read: seq<Chunk>, ignoreRange: bool, hash: string -> string)
    requires n <= |f.docs| && Numbered(read, hash)
    ensures Numbered(AfterDocs(f, n, read, ignoreRange, hash), hash)
  {
    if n > 0 {
      DocsNumbered(f, n - 1, read, ignoreRange, hash);
    }
  }

  lemma {:induction false} AllChunksNumbered(files: seq<SourceFile>, n: nat, ignoreRange: bool, hash: string -> string)
    requires n <= |files|
    ensures Numbered(AllChunks(files, n, ignoreRange, hash), hash)
  {
    if n > 0 {
      AllChunksNumbered(files, n - 1, ignoreRange, hash);
      DocsNumbered(files[n - 1], |files[n - 1].docs|, AllChunks(files, n - 1, ignoreRange, hash), ignoreRange, hash);
    }
  }

  /** What the file's page range admits. */
  predicate Admits(f: SourceFile, d: Doc, ignoreRange: bool) {
    match f.pages
    case None => true
    case Some(range) => ignoreRange || (range.0 <= d.page && d.page <= range.1)
  }

  predicate FromDoc(c: Chunk, f: SourceFile, d: Doc) {
    c.content == d.content && c.page == d.page && c.filename == f.name && c.date == f.date
  }

  /** The chunks read before stay in front. */
  lemma {:induction false} DocsExtend(
    f: SourceFile, n: nat, read: seq<Chunk>, ignoreRange: bool, hash: string -> string)
    requires n <= |f.docs|
    ensures read <= AfterDocs(f, n, read, ignoreRange, hash)
  {
    if n > 0 {
      DocsExtend(f, n - 1, read, ignoreRange, hash);
    }
  }

  lemma {:induction false} DocOf(
    f: SourceFile, n: nat, read: seq<Chunk>, ignoreRange: bool, hash: string -> string, k: nat) returns (m: nat)
    requires n <= |f.docs| && |read| <= k < |AfterDocs(f, n, read, ignoreRange, hash)|
    ensures m < n && Admits(f, f.docs[m], ignoreRange)
    ensures FromDoc(AfterDocs(f, n, read, ignoreRange, hash)[k], f, f.docs[m])
  {
    if k < |AfterDocs(f, n - 1, read, ignoreRange, hash)| {
      m := DocOf(f, n - 1, read, ignoreRange, hash, k);
    } else {
      m := n - 1;
    }
  }

  lemma {:induction false} PlaceOfDoc(
    f: SourceFile, n: nat, read: seq<Chunk>, ignoreRange: bool, hash: string -> string, m: nat) returns (k: nat)
    requires m < n <= |f.docs| && Admits(f, f.docs[m], ignoreRange)
    ensures |read| <= k < |AfterDocs(f, n, read, ignoreRange, hash)|
    ensures FromDoc(AfterDocs(f, n, read, ignoreRange, hash)[k], f, f.docs[m])
  {
    DocsExtend(f, n - 1, read, ignoreRange, hash);
    if m == n - 1 {
      k := |AfterDocs(f, n - 1, read, ignoreRange, hash)|;
    } else {
      k := PlaceOfDoc(f, n - 1, read, ignoreRange, hash, m);
    }
  }

  /** Every chunk read is that of an entry which its file's range admits. */
  lemma {:induction false} ReadIsAdmitted(
    files: seq<SourceFile>, n: nat, ignoreRange: bool, hash: string -> string, k: nat) returns (i: nat, m: nat)
    requires n <= |files| && k < |AllChunks(files, n, ignoreRange, hash)|
    ensures i < n && m < |files[i].docs| && Admits(files[i], files[i].docs[m], ignoreRange)
    ensures FromDoc(AllChunks(files, n, ignoreRange, hash)[k], files[i], files[i].docs[m])
  {
    var f, before := files[n - 1], AllChunks(files, n - 1, ignoreRange, hash);
    DocsExtend(f, |f.docs|, before, ignoreRange, hash);
    if k < |before| {
      i, m := ReadIsAdmitted(files, n - 1, ignoreRange, hash, k);
    } else {
      i := n - 1;
      m := DocOf(f, |f.docs|, before, ignoreRange, hash, k);
    }
  }

  /** And every such entry is read. */
  lemma {:induction false} AdmittedIsRead(
    files: seq<SourceFile>, n: nat, ignoreRange: bool, hash: string -> string, i: nat, m: nat) returns (k: nat)
    requires i < n <= |files| && m < |files[i].docs| && Admits(files[i], files[i].docs[m], ignoreRange)
    ensures k < |AllChunks(files, n, ignoreRange, hash)|
    ensures FromDoc(AllChunks(files, n, ignoreRange, hash)[k], files[i], files[i].docs[m])
  {
    var f, before := files[n - 1], AllChunks(files, n - 1, ignoreRange, hash);
    DocsExtend(f, |f.docs|, before, ignoreRange, hash);
    if i < n - 1 {
      k := AdmittedIsRead(files, n - 1, ignoreRange, hash, i, m);
    } else {
      k := PlaceOfDoc(f, |f.docs|, before, ignoreRange, hash, m);
    }
  }

  // ---------- Duplicates ----------

  predicate Newer(c: Chunk, than: Chunk) {
    !AtMost(c.date, than.date)
  }

  /** The chunk kept for a hash after the code has seen these. */
  function Best(read: seq<Chunk>, h: string): Option<Chunk> {
    if read == [] then None
    else
      var last, best := read[|read| - 1], Best(read[..|read| - 1], h);
      if last.docId == h && (best.None? || Newer(last, best.value)) then Some(last) else best
  }

  /** Hashes in order of first sight: a replacement keeps the old position. */
  function Keys(read: seq<Chunk>): seq<string> {
    if read == [] then []
    else
      var last, keys := read[|read| - 1], Keys(read[..|read| - 1]);
      if last.docId in keys then keys else keys + [last.docId]
  }

  ghost predicate BestAt(read: seq<Chunk>, h: string, k: nat) {
    && k < |read| && read[k].docId == h
    && (forall j :: 0 <= j < |read| && read[j].docId == h ==> AtMost(read[j].date, read[k].date))
    && (forall j :: 0 <= j < k && read[j].docId == h ==> read[j].date != read[k].date)
  }

  /** The kept chunk has the greatest date among all of its hash, and is the first with that date. */
  lemma {:induction false} BestIsNewest(read: seq<Chunk>, h: string) returns (k: nat)
    requires exists j :: 0 <= j < |read| && read[j].docId == h
    ensures BestAt(read, h, k) && Best(read, h) == Some(read[k])
  {
    var n := |read| - 1;
    var init, last := read[..n], read[n];
    if exists j :: 0 <= j < n && init[j].docId == h {
      k := BestIsNewest(init, h);
      AtMostTotal(last.date, read[k].date);
      if last.docId == h && Newer(last, read[k]) {
        forall j | 0 <= j < n && read[j].docId == h
          ensures AtMost(read[j].date, last.date) && read[j].date != last.date
        {
          assert init[j] == read[j];
          AtMostTransitive(init[j].date, init[k].date, last.date);
          AtMostTotal(last.date, init[k].date);
        }
        AtMostTotal(last.date, last.date);
        k := n;
      } else {
        assert forall j :: 0 <= j < n ==> read[j] == init[j];
      }
    } else {
      NoneBest(init, h);
      AtMostTotal(last.date, last.date);
      assert forall j :: 0 <= j < n ==> read[j] == init[j];
      k := n;
    }
  }

  lemma {:induction false} NoneBest(read: seq<Chunk>, h: string)
    requires forall j :: 0 <= j < |read| ==> read[j].docId != h
    ensures Best(read, h) == None
  {
    if read != [] {
      NoneBest(read[..|read| - 1], h);
    }
  }

  ghost predicate Unique(keys: seq<string>) {
    forall i, j :: 0 <= i < j < |keys| ==> Differ(keys, i, j)
  }

  ghost predicate Differ(keys: seq<string>, i: nat, j: nat)
    requires i < j < |keys|
  {
    keys[i] != keys[j]
  }

  /** The hash is seen first at this place. */
  predicate FirstAt(read: seq<Chunk>, h: string, k: nat) {
    k < |read| && read[k].docId == h && forall j :: 0 <= j < k ==> read[j].docId != h
  }

  lemma FirstAtMore(read: seq<Chunk>, h: string, k: nat)
    requires read != [] && FirstAt(read[..|read| - 1], h, k)
    ensures FirstAt(read, h, k)
  {
  }

  lemma {:induction false} KeySeen(read: seq<Chunk>, i: nat) returns (k: nat)
    requires i < |Keys(read)|
    ensures FirstAt(read, Keys(read)[i], k)
  {
    var n := |read| - 1;
    if i < |Keys(read[..n])| {
      k := KeySeen(read[..n], i);
      FirstAtMore(read, Keys(read)[i], k);
    } else {
      k := n;
      NewKey(read);
    }
  }

  /** A hash that is added was not seen before. */
  lemma NewKey(read: seq<Chunk>)
    requires read != [] && read[|read| - 1].docId !in Keys(read[..|read| - 1])
    ensures FirstAt(read, read[|read| - 1].docId, |read| - 1)
  {
    var n := |read| - 1;
    KeysAreUnique(read[..n]);
    forall j | 0 <= j < n ensures read[j].docId != read[n].docId {
      assert read[..n][j] == read[j] && HasHash(read[..n], read[j].docId);
    }
  }

  /** The hashes stand in the order in which they are first seen. */
  lemma {:induction false} KeysInOrder(read: seq<Chunk>, i: nat, j: nat) returns (k: nat, m: nat)
    requires i < j < |Keys(read)|
    ensures FirstAt(read, Keys(read)[i], k) && FirstAt(read, Keys(read)[j], m) && k < m
  {
    var n := |read| - 1;
    if j < |Keys(read[..n])| {
      k, m := KeysInOrder(read[..n], i, j);
      FirstAtMore(read, Keys(read)[i], k);
      FirstAtMore(read, Keys(read)[j], m);
    } else {
      k := KeySeen(read[..n], i);
      m := n;
      FirstAtMore(read, Keys(read)[i], k);
      NewKey(read);
    }
  }

  lemma {:induction false} KeysAreUnique(read: seq<Chunk>)
    ensures Unique(Keys(read)) && forall h :: h in Keys(read) <==> HasHash(read, h)
  {
    if read != [] {
      var init, last := read[..|read| - 1], read[|read| - 1];
      KeysAreUnique(init);
      var before, after := Keys(init), Keys(read);
      forall i, j | 0 <= i < j < |after| ensures Differ(after, i, j) {
        if j < |before| {
          assert Differ(before, i, j);
        } else {
          assert before[i] in before;
        }
      }
      forall h ensures h in Keys(read) <==> HasHash(read, h) {
        assert HasHash(read, h) <==> HasHash(init, h) || last.docId == h by {
          assert read == init + [last];
        }
      }
    }
  }

  ghost predicate HasHash(read: seq<Chunk>, h: string) {
    exists c :: c in read && c.docId == h
  }

  /** One chunk for each hash, at the place where the hash was first seen. */
  ghost predicate IsDedup(read: seq<Chunk>, chunks: seq<Chunk>) {
    |chunks| == |Keys(read)| && forall i :: 0 <= i < |chunks| ==> Best(read, Keys(read)[i]) == Some(chunks[i])
  }

  /** The kept chunks: distinct hashes, distinct global ids, every hash read is there, and each chunk is
      the newest of its hash, the first read among equally new ones. */
  lemma DedupKeepsNewest(read: seq<Chunk>, chunks: seq<Chunk>, hash: string -> string)
    requires IsDedup(read, chunks) && Numbered(read, hash)
    ensures forall i, j :: 0 <= i < j < |chunks| ==>
      chunks[i].docId != chunks[j].docId && chunks[i].globalId != chunks[j].globalId
    ensures forall h :: HasHash(read, h) <==> HasHash(chunks, h)
    ensures forall i :: 0 <= i < |chunks| ==>
      BestAt(read, chunks[i].docId, chunks[i].globalId) && read[chunks[i].globalId] == chunks[i]
  {
    KeysAreUnique(read);
    forall i | 0 <= i < |chunks| ensures KeptAt(read, chunks, i) {
      KeptIsBest(read, chunks, hash, i);
    }
    forall i, j | 0 <= i < j < |chunks| ensures
      chunks[i].docId != chunks[j].docId && chunks[i].globalId != chunks[j].globalId
    {
      assert KeptAt(read, chunks, i) && KeptAt(read, chunks, j) && Differ(Keys(read), i, j);
    }
    forall h ensures HasHash(read, h) <==> HasHash(chunks, h) {
      if HasHash(read, h) {
        var i :| 0 <= i < |Keys(read)| && Keys(read)[i] == h;
        assert KeptAt(read, chunks, i) && chunks[i] in chunks;
      }
      if HasHash(chunks, h) {
        var i :| 0 <= i < |chunks| && chunks[i].docId == h;
        assert KeptAt(read, chunks, i);
      }
    }
    forall i | 0 <= i < |chunks| ensures
      BestAt(read, chunks[i].docId, chunks[i].globalId) && read[chunks[i].globalId] == chunks[i]
    {
      assert KeptAt(read, chunks, i);
    }
  }

  ghost predicate KeptAt(read: seq<Chunk>, chunks: seq<Chunk>, i: nat)
    requires i < |chunks| == |Keys(read)|
  {
    && chunks[i].docId == Keys(read)[i] && BestAt(read, chunks[i].docId, chunks[i].globalId)
    && read[chunks[i].globalId] == chunks[i]
  }

  lemma KeptIsBest(read: seq<Chunk>, chunks: seq<Chunk>, hash: string -> string, i: nat)
    requires IsDedup(read, chunks) && Numbered(read, hash) && i < |chunks|
    ensures KeptAt(read, chunks, i)
  {
    KeysAreUnique(read);
    var h := Keys(read)[i];
    assert h in Keys(read) && HasHash(read, h);
    var c :| c in read && c.docId == h;
    var j :| 0 <= j < |read| && read[j] == c;
    var k := BestIsNewest(read, h);
    assert read[k].globalId == k;
  }

  /** The code's dictionary after some chunks: keys in insertion order, each with the chunk kept. */
  ghost predicate Holds(read: seq<Chunk>, keys: seq<string>, kept: map<string, Chunk>) {
    && keys == Keys(read) && (forall h :: h in keys <==> h in kept)
    && (forall h :: Best(read, h) == if h in kept then Some(kept[h]) else None)
  }

  lemma HoldsStep(read: seq<Chunk>, keys: seq<string>, kept: map<string, Chunk>, c: Chunk)
    requires Holds(read, keys, kept)
    ensures Holds(read + [c], if c.docId in kept then keys else keys + [c.docId],
                  if c.docId !in kept || Newer(c, kept[c.docId]) then kept[c.docId := c] else kept)
  {
    assert (read + [c])[..|read|] == read;
  }

  /** A chunk into the dictionary: it replaces an older one of its hash in place. */
  method Put(keys: seq<string>, kept: map<string, Chunk>, chunk: Chunk, ghost read: seq<Chunk>)
    returns (keys': seq<string>, kept': map<string, Chunk>)
    requires Holds(read, keys, kept)
    ensures Holds(read + [chunk], keys', kept')
  {
    keys', kept' := keys, kept;
    HoldsStep(read, keys, kept, chunk);
    if chunk.docId in kept {
      if Newer(chunk, kept[chunk.docId]) {
        kept' := kept[chunk.docId := chunk];
      }
    } else {
      keys', kept' := keys + [chunk.docId], kept[chunk.docId := chunk];
    }
  }

  /** One file's chunks into the dictionary. */
  method AddFile(f: SourceFile, ignoreRange: bool, hash: string -> string, keys: seq<string>, kept: map<string, Chunk>,
                 gid: nat, ghost read: seq<Chunk>)
    returns (keys': seq<string>, kept': map<string, Chunk>, gid': nat)
    requires gid == |read| && Holds(read, keys, kept)
    ensures var read' := AfterDocs(f, |f.docs|, read, ignoreRange, hash);
      gid' == |read'| && Holds(read', keys', kept')
  {
    keys', kept', gid' := keys, kept, gid;
    for j := 0 to |f.docs|
      invariant gid' == |AfterDocs(f, j, read, ignoreRange, hash)|
      invariant Holds(AfterDocs(f, j, read, ignoreRange, hash), keys', kept')
    {
      if !Skipped(f, f.docs[j], ignoreRange) {
        var chunk := Read(f, f.docs[j], hash, gid');
        keys', kept' := Put(keys', kept', chunk, AfterDocs(f, j, read, ignoreRange, hash));
        gid' := gid' + 1;
      }
    }
  }

  method Deduplicate(files: seq<SourceFile>, ignoreRange: bool, hash: string -> string) returns (chunks: seq<Chunk>)
    ensures IsDedup(AllChunks(files, |files|, ignoreRange, hash), chunks)
  {
    var keys: seq<string>, kept: map<string, Chunk>, gid := [], map[], 0;
    for i := 0 to |files|
      invariant gid == |AllChunks(files, i, ignoreRange, hash)|
      invariant Holds(AllChunks(files, i, ignoreRange, hash), keys, kept)
    {
      keys, kept, gid := AddFile(files[i], ignoreRange, hash, keys, kept, gid, AllChunks(files, i, ignoreRange, hash));
    }
    chunks := seq(|keys|, i requires 0 <= i < |keys| && keys[i] in kept => kept[keys[i]]);
    HeldIsDedup(AllChunks(files, |files|, ignoreRange, hash), keys, kept, chunks);
  }

  lemma HeldIsDedup(read: seq<Chunk>, keys: seq<string>, kept: map<string, Chunk>, chunks: seq<Chunk>)
    requires Holds(read, keys, kept) && |chunks| == |keys|
    requires forall i :: 0 <= i < |keys| ==> keys[i] in kept && chunks[i] == kept[keys[i]]
    ensures IsDedup(read, chunks)
  {
    forall i | 0 <= i < |chunks| ensures Best(read, Keys(read)[i]) == Some(chunks[i]) {
      assert Best(read, keys[i]) == Some(kept[keys[i]]);
    }
  }

  // ---------- Links to the neighbours ----------

  function Prev(chunks: seq<Chunk>, i: nat): string
    requires i < |chunks|
  {
    if i > 0 && chunks[i].filename == chunks[i - 1].filename then chunks[i - 1].docId else ""
  }

  function Next(chunks: seq<Chunk>, i: nat): string
    requires i < |chunks|
  {
    if i < |chunks| - 1 && chunks[i].filename == chunks[i + 1].filename then chunks[i + 1].docId else ""
  }

  /** The same chunks, each with its links. */
  ghost predicate Linked(chunks: seq<Chunk>, linked: seq<Chunk>) {
    |linked| == |chunks| && forall i :: 0 <= i < |chunks| ==> LinkedAt(chunks, linked, i)
  }

  ghost predicate LinkedAt(chunks: seq<Chunk>, linked: seq<Chunk>, i: nat)
    requires i < |chunks| == |linked|
  {
    linked[i] == chunks[i].(prev := Prev(chunks, i), next := Next(chunks, i))
  }

  method LinkNeighbours(list: array<Chunk>)
    modifies list
    ensures Linked(old(list[..]), list[..])
  {
    ghost var was := list[..];
    for i := 0 to list.Length
      invariant forall k :: 0 <= k < i ==> LinkedAt(was, list[..], k)
      invariant forall k :: i <= k < list.Length ==> list[k] == was[k]
    {
      var prev, next := "", "";
      if i > 0 && list[i].filename == list[i - 1].filename {
        assert LinkedAt(was, list[..], i - 1);
        prev := list[i - 1].docId;
      }
      assert i > 0 ==> LinkedAt(was, list[..], i - 1);
      if i < list.Length - 1 && list[i].filename == list[i + 1].filename {
        next := list[i + 1].docId;
      }
      ghost var before := list[..];
      list[i] := list[i].(prev := prev, next := next);
      forall k | 0 <= k < i ensures LinkedAt(was, list[..], k) {
        assert LinkedAt(was, before, k);
      }
    }
  }

  /** Digests are never empty, and after dedup each belongs to one chunk. */
  ghost predicate Identified(chunks: seq<Chunk>) {
    && (forall i :: 0 <= i < |chunks| ==> chunks[i].docId != "")
    && (forall i, j :: 0 <= i < j < |chunks| ==> chunks[i].docId != chunks[j].docId)
  }

  ghost predicate Links(linked: seq<Chunk>, i: nat, j: nat)
    requires i < |linked| && j < |linked|
  {
    linked[i].next == linked[j].docId
  }

  /** Links are mutually inverse, join exactly the neighbours of one file, and so never leave it. */
  lemma LinksAreInverse(chunks: seq<Chunk>, linked: seq<Chunk>, i: nat, j: nat)
    requires Linked(chunks, linked) && Identified(chunks) && i < |linked| && j < |linked|
    ensures Links(linked, i, j) <==> linked[j].prev == linked[i].docId
    ensures Links(linked, i, j) <==> j == i + 1 && linked[i].filename == linked[j].filename
  {
    assert LinkedAt(chunks, linked, i) && LinkedAt(chunks, linked, j);
    assert i < |chunks| - 1 ==> LinkedAt(chunks, linked, i + 1);
    assert j > 0 ==> LinkedAt(chunks, linked, j - 1);
    UniqueId(chunks, i, j);
  }

  lemma UniqueId(chunks: seq<Chunk>, i: nat, j: nat)
    requires Identified(chunks) && i < |chunks| && j < |chunks|
    ensures chunks[i].docId != "" && chunks[j].docId != ""
    ensures i < |chunks| - 1 && chunks[i + 1].docId == chunks[j].docId ==> j == i + 1
    ensures j > 0 && chunks[j - 1].docId == chunks[i].docId ==> j == i + 1
  {
  }

  ghost predicate IsWalk(linked: seq<Chunk>, walk: seq<nat>) {
    && (forall n :: 0 <= n < |walk| ==> walk[n] < |linked|)
    && (forall n :: 0 < n < |walk| ==> StepAt(linked, walk, n))
  }

  ghost predicate StepAt(linked: seq<Chunk>, walk: seq<nat>, n: nat)
    requires 0 < n < |walk|
  {
    walk[n - 1] < |linked| && walk[n] < |linked| && Links(linked, walk[n - 1], walk[n])
  }

  /** A walk along the links stays in one file and never returns to a chunk: the links form disjoint
      acyclic paths. */
  lemma {:induction false} WalksAdvance(chunks: seq<Chunk>, linked: seq<Chunk>, walk: seq<nat>, k: nat)
    requires Linked(chunks, linked) && Identified(chunks) && IsWalk(linked, walk) && k < |walk|
    ensures walk[k] == walk[0] + k && linked[walk[k]].filename == linked[walk[0]].filename
  {
    if k > 0 {
      WalksAdvance(chunks, linked, walk, k - 1);
      assert StepAt(linked, walk, k);
      LinksAreInverse(chunks, linked, walk[k - 1], walk[k]);
    }
  }

  /** Both passes together. */
  method ImportChunks(files: seq<SourceFile>, ignoreRange: bool, hash: string -> string)
    returns (list: array<Chunk>, ghost chunks: seq<Chunk>)
    ensures fresh(list)
    ensures IsDedup(AllChunks(files, |files|, ignoreRange, hash), chunks) && Linked(chunks, list[..])
  {
    var kept := Deduplicate(files, ignoreRange, hash);
    chunks := kept;
    list := new Chunk[|kept|](i requires 0 <= i < |kept| => kept[i]);
    assert list[..] == kept;
    LinkNeighbours(list);
  }

  /** Any import with non-empty digests satisfies what the links need. */
  lemma ImportIsIdentified(files: seq<SourceFile>, ignoreRange: bool, hash: string -> string, chunks: seq<Chunk>)
    requires forall s :: hash(s) != ""
    requires IsDedup(AllChunks(files, |files|, ignoreRange, hash), chunks)
    ensures Identified(chunks)
  {
    var read := AllChunks(files, |files|, ignoreRange, hash);
    AllChunksNumbered(files, |files|, ignoreRange, hash);
    DedupKeepsNewest(read, chunks, hash);
  }
}
