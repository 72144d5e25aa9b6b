/** A whole Markdown file: cut into sections, and every section packed on its own. */
module MarkdownPacking {
  import opened Options
  import opened Text
  import opened Packing
  import M = Markdown

  const LEAST_MAX_CHARS := 64

  /** A piece with the heading path of its section. */
  datatype FileChunk = FileChunk(path: seq<string>, piece: Piece)

  datatype PackedSection = PackedSection(section: M.Section, pieces: seq<Piece>)

  function Items(lines: seq<(nat, string)>): (r: seq<Item>)
    ensures |r| == |lines|
  {
    seq(|lines|, i requires 0 <= i < |lines| => Item(lines[i].0, lines[i].1))
  }

  function Tagged(p: PackedSection): (r: seq<FileChunk>)
    ensures |r| == |p.pieces|
  {
    seq(|p.pieces|, i requires 0 <= i < |p.pieces| => FileChunk(p.section.path, p.pieces[i]))
  }

  function Flat(packed: seq<PackedSection>): seq<FileChunk> {
    if packed == [] then [] else Flat(packed[..|packed| - 1]) + Tagged(packed[|packed| - 1])
  }

  ghost predicate AllPacked(packed: seq<PackedSection>, maxChars: int) {
    forall k :: 0 <= k < |packed| ==> PackedAt(packed, maxChars, k)
  }

  ghost predicate PackedAt(packed: seq<PackedSection>, maxChars: int, k: nat)
    requires k < |packed|
  {
    IsPacked(Items(packed[k].section.items), maxChars, "", packed[k].pieces)
  }

  function Sections(packed: seq<PackedSection>): (r: seq<M.Section>)
    ensures |r| == |packed|
  {
    seq(|packed|, k requires 0 <= k < |packed| => packed[k].section)
  }

  /** The chunks are the packed sections of the file, in order. */
  ghost predicate IsPackedFile(chunks: seq<FileChunk>, lines: seq<string>, title: string, maxChars: int) {
    exists packed :: FromSections(chunks, packed, lines, title, maxChars)
  }

  ghost predicate FromSections(chunks: seq<FileChunk>, packed: seq<PackedSection>, lines: seq<string>, title: string,
                               maxChars: int)
  {
    M.IsSectioning(Sections(packed), lines, title) && AllPacked(packed, maxChars) && chunks == Flat(packed)
  }

  /** None stands for the error that a limit below 64 raises. */
  method AdaptMarkdown(lines: seq<string>, title: string, maxChars: int) returns (chunks: Option<seq<FileChunk>>)
    ensures chunks.None? <==> maxChars < 64
    ensures chunks.Some? ==> IsPackedFile(chunks.value, lines, title, maxChars)
  {
    if maxChars < LEAST_MAX_CHARS {
      return None;
    }
    var sections := M.MarkdownSections(lines, title);
    ghost var packed;
    var list;
    list, packed := PackSections(sections, maxChars);
    assert FromSections(list, packed, lines, title, maxChars);
    return Some(list);
  }

  method PackSections(sections: seq<M.Section>, maxChars: int)
    returns (list: seq<FileChunk>, ghost packed: seq<PackedSection>)
    ensures SoFar(list, packed, sections, maxChars)
  {
    list, packed := [], [];
    for k := 0 to |sections|
      invariant SoFar(list, packed, sections[..k], maxChars)
    {
      list, packed := AddSection(list, packed, sections[..k], sections[k], maxChars);
      assert sections[..k + 1] == sections[..k] + [sections[k]];
    }
    assert sections[..|sections|] == sections;
  }

  ghost predicate SoFar(list: seq<FileChunk>, packed: seq<PackedSection>, sections: seq<M.Section>, maxChars: int) {
    Sections(packed) == sections && AllPacked(packed, maxChars) && list == Flat(packed)
  }

  method AddSection(list: seq<FileChunk>, ghost packed: seq<PackedSection>, ghost sections: seq<M.Section>,
                    s: M.Section, maxChars: int)
    returns (list': seq<FileChunk>, ghost packed': seq<PackedSection>)
    requires SoFar(list, packed, sections, maxChars)
    ensures SoFar(list', packed', sections + [s], maxChars)
  {
    var pieces := PackNumberedItems(Items(s.items), maxChars, "");
    var p := PackedSection(s, pieces);
    PackedSnoc(packed, p, maxChars);
    FlatSnoc(packed, p);
    list', packed' := list + Tagged(p), packed + [p];
  }

  lemma PackedSnoc(packed: seq<PackedSection>, p: PackedSection, maxChars: int)
    requires AllPacked(packed, maxChars) && IsPacked(Items(p.section.items), maxChars, "", p.pieces)
    ensures AllPacked(packed + [p], maxChars)
  {
    forall k | 0 <= k < |packed + [p]| ensures PackedAt(packed + [p], maxChars, k) {
      if k < |packed| {
        assert PackedAt(packed, maxChars, k);
      }
    }
  }

  lemma FlatSnoc(packed: seq<PackedSection>, p: PackedSection)
    ensures Flat(packed + [p]) == Flat(packed) + Tagged(p)
    ensures Sections(packed + [p]) == Sections(packed) + [p.section]
  {
    assert (packed + [p])[..|packed|] == packed;
  }

  // ---------- What packing a file guarantees ----------

  function Pieces(chunks: seq<FileChunk>): (r: seq<Piece>)
    ensures |r| == |chunks|
  {
    seq(|chunks|, i requires 0 <= i < |chunks| => chunks[i].piece)
  }

  function Lines(items: seq<(nat, string)>): (r: seq<string>)
    ensures |r| == |items|
  {
    seq(|items|, i requires 0 <= i < |items| => items[i].1)
  }

  lemma SectionTexts(s: M.Section)
    ensures Texts(Items(s.items)) == Lines(s.items)
  {
  }

  // ---------- Content ----------

  ghost predicate KeepsContent(p: PackedSection) {
    Content(Bodies(p.pieces, "")) == Content(Lines(p.section.items))
  }

  lemma SectionKeepsContent(p: PackedSection, maxChars: int)
    requires IsPacked(Items(p.section.items), maxChars, "", p.pieces)
    ensures KeepsContent(p)
  {
    PackingKeepsEveryCharacter(Items(p.section.items), maxChars, "", p.pieces);
    SectionTexts(p.section);
  }

  lemma {:induction false} ContentOfFile(packed: seq<PackedSection>)
    requires forall p :: p in packed ==> KeepsContent(p)
    ensures Content(Bodies(Pieces(Flat(packed)), "")) == Content(Lines(M.ItemsOf(Sections(packed))))
  {
    if packed == [] {
      assert Bodies(Pieces(Flat(packed)), "") == [] == Lines(M.ItemsOf(Sections(packed)));
    } else {
      var init, p := packed[..|packed| - 1], packed[|packed| - 1];
      assert packed == init + [p];
      ContentOfFile(init);
      PiecesSnoc(init, p);
      ItemsSnoc(init, p);
      ContentSnoc(Pieces(Flat(init)), M.ItemsOf(Sections(init)), p);
    }
  }

  lemma ContentSnoc(pieces: seq<Piece>, items: seq<(nat, string)>, p: PackedSection)
    requires Content(Bodies(pieces, "")) == Content(Lines(items)) && KeepsContent(p)
    ensures Content(Bodies(pieces + p.pieces, "")) == Content(Lines(items + p.section.items))
  {
    BodiesSplit(pieces, p.pieces, "");
    assert Lines(items + p.section.items) == Lines(items) + Lines(p.section.items);
    ContentAppend(Lines(items), Lines(p.section.items));
  }

  // ---------- Bound and ranges ----------

  /** Bound and order of the pieces of the lines after `a` up to `n`. */
  ghost predicate Spans(pieces: seq<Piece>, a: nat, n: nat, maxChars: int) {
    Bounded(pieces, maxChars) && Ranged(pieces, a + 1, n)
  }

  lemma SectionSpans(p: PackedSection, lines: seq<string>, a: nat, n: nat, maxChars: int)
    requires a < n <= |lines| && p.section.items == M.Numbered(lines, a, n) && maxChars >= 32
    requires IsPacked(Items(p.section.items), maxChars, "", p.pieces)
    ensures Spans(p.pieces, a, n, maxChars)
  {
    var items := Items(p.section.items);
    BoundHoldsIff(maxChars);
    forall i, j | 0 <= i < j < |items| ensures Before(items, i, j) {
    }
    PackingRangesFollow(items, maxChars, "", p.pieces);
  }

  lemma SpansConcat(left: seq<Piece>, right: seq<Piece>, a: nat, n: nat, maxChars: int)
    requires Spans(left, 0, a, maxChars) && Spans(right, a, n, maxChars) && a < n && (a == 0 ==> left == [])
    ensures Spans(left + right, 0, n, maxChars)
  {
    if a == 0 {
      assert left + right == right;
    } else {
      RangesConcat(left, right, 1, a, a + 1, n);
    }
  }

  ghost predicate AllSpan(packed: seq<PackedSection>, cuts: seq<nat>, maxChars: int) {
    |cuts| > |packed| && cuts[0] == 0 && forall k :: 0 <= k < |packed| ==> SpansAt(packed, cuts, maxChars, k)
  }

  ghost predicate SpansAt(packed: seq<PackedSection>, cuts: seq<nat>, maxChars: int, k: nat)
    requires k < |packed| < |cuts|
  {
    cuts[k] < cuts[k + 1] && Spans(packed[k].pieces, cuts[k], cuts[k + 1], maxChars)
  }

  lemma {:induction false} SpansOfFile(packed: seq<PackedSection>, cuts: seq<nat>, maxChars: int)
    requires AllSpan(packed, cuts, maxChars)
    ensures Spans(Pieces(Flat(packed)), 0, cuts[|packed|], maxChars)
    ensures cuts[|packed|] == 0 ==> packed == []
  {
    if packed == [] {
      assert Pieces(Flat(packed)) == [];
    } else {
      var m := |packed| - 1;
      var init, p := packed[..m], packed[m];
      assert packed == init + [p];
      assert SpansAt(packed, cuts, maxChars, m);
      SpansInit(packed, init, cuts, maxChars);
      SpansOfFile(init, cuts, maxChars);
      PiecesSnoc(init, p);
      SpansConcat(Pieces(Flat(init)), p.pieces, cuts[m], cuts[m + 1], maxChars);
    }
  }

  lemma SpansInit(packed: seq<PackedSection>, init: seq<PackedSection>, cuts: seq<nat>, maxChars: int)
    requires AllSpan(packed, cuts, maxChars) && init <= packed
    ensures AllSpan(init, cuts, maxChars)
  {
    forall k | 0 <= k < |init| ensures SpansAt(init, cuts, maxChars, k) {
      assert SpansAt(packed, cuts, maxChars, k);
    }
  }

  lemma SectionsSpan(packed: seq<PackedSection>, cuts: seq<nat>, lines: seq<string>, heads: M.Heads, title: string,
                     maxChars: int)
    requires |heads| == |lines| && M.LevelsOk(heads) && maxChars >= 32
    requires M.Covers(Sections(packed), cuts, lines, heads, title, |lines|) && AllPacked(packed, maxChars)
    ensures AllSpan(packed, cuts, maxChars) && cuts[|packed|] == |lines|
  {
    forall k | 0 <= k < |packed| ensures SpansAt(packed, cuts, maxChars, k) {
      assert M.SectionK(Sections(packed), cuts, lines, heads, title, k) && PackedAt(packed, maxChars, k);
      SectionSpans(packed[k], lines, cuts[k], cuts[k + 1], maxChars);
    }
  }

  lemma PiecesSnoc(packed: seq<PackedSection>, p: PackedSection)
    ensures Pieces(Flat(packed + [p])) == Pieces(Flat(packed)) + p.pieces
  {
    FlatSnoc(packed, p);
  }

  lemma ItemsSnoc(packed: seq<PackedSection>, p: PackedSection)
    ensures M.ItemsOf(Sections(packed + [p])) == M.ItemsOf(Sections(packed)) + p.section.items
  {
    FlatSnoc(packed, p);
    assert (Sections(packed) + [p.section])[..|packed|] == Sections(packed);
  }

  // ---------- The whole file ----------

  /** A file's chunks hold every non-white character of its lines once and in order, none is longer than
      the limit, and their line ranges lie in the file and rise, two sharing a line only as successive
      parts of it. */
  lemma FileIsFaithful(chunks: seq<FileChunk>, lines: seq<string>, title: string, maxChars: int)
    requires IsPackedFile(chunks, lines, title, maxChars) && maxChars >= 32
    ensures var pieces := Pieces(chunks);
      && Content(Bodies(pieces, "")) == Content(lines)
      && Bounded(pieces, maxChars)
      && Ranged(pieces, 1, |lines|)
  {
    var packed :| FromSections(chunks, packed, lines, title, maxChars);
    var cuts :| M.Covers(Sections(packed), cuts, lines, M.HeadsOf(lines), title, |lines|);
    SectionsSpan(packed, cuts, lines, M.HeadsOf(lines), title, maxChars);
    SpansOfFile(packed, cuts, maxChars);
    FileKeepsContent(packed, lines, title, maxChars);
  }

  lemma FileKeepsContent(packed: seq<PackedSection>, lines: seq<string>, title: string, maxChars: int)
    requires M.IsSectioning(Sections(packed), lines, title) && AllPacked(packed, maxChars)
    ensures Content(Bodies(Pieces(Flat(packed)), "")) == Content(lines)
  {
    forall p | p in packed ensures KeepsContent(p) {
      var k :| 0 <= k < |packed| && packed[k] == p;
      assert PackedAt(packed, maxChars, k);
      SectionKeepsContent(p, maxChars);
    }
    ContentOfFile(packed);
    M.SectioningIsLossless(Sections(packed), lines, title);
    assert Lines(M.Numbered(lines, 0, |lines|)) == lines;
  }

  lemma {:induction false} ChunkOf(packed: seq<PackedSection>, c: FileChunk) returns (k: nat)
    requires c in Flat(packed)
    ensures k < |packed| && c.path == packed[k].section.path && c.piece in packed[k].pieces
  {
    var m := |packed| - 1;
    if c in Tagged(packed[m]) {
      k := m;
    } else {
      k := ChunkOf(packed[..m], c);
    }
  }

  /** Every chunk carries the heading path of the one section whose lines it holds. */
  lemma ChunkTells(chunks: seq<FileChunk>, lines: seq<string>, title: string, maxChars: int, c: FileChunk)
    returns (sections: seq<M.Section>, k: nat)
    requires IsPackedFile(chunks, lines, title, maxChars) && maxChars >= 32 && c in chunks
    ensures M.IsSectioning(sections, lines, title) && k < |sections| && c.path == sections[k].path
    ensures var items := sections[k].items;
      items != [] && items[0].0 <= c.piece.start <= c.piece.end <= items[|items| - 1].0
  {
    var packed :| FromSections(chunks, packed, lines, title, maxChars);
    var cuts :| M.Covers(Sections(packed), cuts, lines, M.HeadsOf(lines), title, |lines|);
    sections := Sections(packed);
    k := ChunkOf(packed, c);
    SectionsSpan(packed, cuts, lines, M.HeadsOf(lines), title, maxChars);
    PieceInSection(packed, cuts, lines, M.HeadsOf(lines), title, maxChars, k, c.piece);
  }

  lemma PieceInSection(packed: seq<PackedSection>, cuts: seq<nat>, lines: seq<string>, heads: M.Heads, title: string,
                       maxChars: int, k: nat, p: Piece)
    requires |heads| == |lines| && M.LevelsOk(heads) && k < |packed| && p in packed[k].pieces
    requires M.Covers(Sections(packed), cuts, lines, heads, title, |lines|) && AllSpan(packed, cuts, maxChars)
    ensures var items := packed[k].section.items;
      items != [] && items[0].0 <= p.start <= p.end <= items[|items| - 1].0
  {
    assert M.SectionK(Sections(packed), cuts, lines, heads, title, k) && SpansAt(packed, cuts, maxChars, k);
    var items := packed[k].section.items;
    assert items[0].0 == cuts[k] + 1 && items[|items| - 1].0 == cuts[k + 1];
  }
}
