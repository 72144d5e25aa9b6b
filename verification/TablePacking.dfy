/** Packing a table: rows rendered one to a line, with the header repeated in front of every piece. */
module TablePacking {
  import opened Options
  import opened Text
  import opened Packing
  import opened PackingTight
  import opened TableRows

  datatype SourceRow = SourceRow(number: int, cells: seq<string>)

  function Dashes(n: nat): string {
    if n == 0 then "" else if n == 1 then "---" else "---" + " | " + Dashes(n - 1)
  }

  function Separator(headers: seq<string>): string {
    "| " + Dashes(|headers|) + " |"
  }

  function RenderHeader(headers: seq<string>): string {
    RenderRow(headers) + "\n" + Separator(headers)
  }

  function RenderedRow(row: SourceRow): Item {
    Item(row.number, RenderRow(row.cells))
  }

  function Rendered(rows: seq<SourceRow>): (r: seq<Item>)
    ensures |r| == |rows| && forall i :: 0 <= i < |rows| ==> r[i] == RenderedRow(rows[i])
  {
    if rows == [] then [] else Rendered(rows[..|rows| - 1]) + [RenderedRow(rows[|rows| - 1])]
  }

  /** Without rows the header itself is the only item, at its source row or else at row one. */
  method PackTableRows(headers: seq<string>, rows: seq<SourceRow>, maxChars: int, headerRow: Option<int>)
    returns (pieces: seq<Piece>)
    ensures rows != [] ==> IsPacked(Rendered(rows), maxChars, RenderHeader(headers), pieces)
    ensures rows == [] ==>
      var number := if headerRow.Some? && headerRow.value != 0 then headerRow.value else 1;
      IsPacked([Item(number, RenderHeader(headers))], maxChars, "", pieces)
  {
    var prefix := RenderHeader(headers);
    if rows == [] {
      var number := if headerRow.Some? && headerRow.value != 0 then headerRow.value else 1;
      pieces := PackNumberedItems([Item(number, prefix)], maxChars, "");
    } else {
      pieces := PackNumberedItems(Rendered(rows), maxChars, prefix);
    }
  }

  // ---------- Reading a piece back ----------

  function Cons(c: char, rest: seq<string>): seq<string>
    requires rest != []
  {
    if c == '\n' then [""] + rest else [[c] + rest[0]] + rest[1..]
  }

  function Lines(s: string): (r: seq<string>)
    ensures r != []
  {
    if s == "" then [""] else Cons(s[0], Lines(s[1..]))
  }

  lemma ConsAppend(c: char, rest: seq<string>, more: seq<string>)
    requires rest != []
    ensures Cons(c, rest + more) == Cons(c, rest) + more
  {
    assert (rest + more)[1..] == rest[1..] + more;
  }

  lemma {:induction false} LinesJoin(a: string, b: string)
    ensures Lines(a + "\n" + b) == Lines(a) + Lines(b)
  {
    var s := a + "\n" + b;
    if a == "" {
      assert s[1..] == b;
    } else {
      LinesJoin(a[1..], b);
      assert s[1..] == a[1..] + "\n" + b && s[0] == a[0];
      ConsAppend(a[0], Lines(a[1..]), Lines(b));
    }
  }

  lemma {:induction false} OneLine(s: string)
    requires '\n' !in s
    ensures Lines(s) == [s]
  {
    if s != "" {
      OneLine(s[1..]);
      assert [s[0]] + s[1..] == s;
    }
  }

  lemma {:induction false} RunLines(items: seq<Item>)
    requires items != [] && forall i :: 0 <= i < |items| ==> '\n' !in items[i].text
    ensures Lines(Join(items)) == Texts(items)
  {
    var n := |items| - 1;
    OneLine(items[n].text);
    if n == 0 {
      assert Texts(items) == [items[0].text];
    } else {
      RunLines(items[..n]);
      LinesJoin(Join(items[..n]), items[n].text);
      assert Texts(items) == Texts(items[..n]) + [items[n].text];
    }
  }

  /** A text between bars needs no stripping. */
  lemma BarsAreTrimmed(middle: string)
    ensures var s := "| " + middle + " |"; s != "" && Trimmed(s) && Strip(s) == s
  {
    var s := "| " + middle + " |";
    assert s[0] == '|' && s[|s| - 1] == '|';
    StripTrims(s);
  }

  lemma NormalizedSnoc(items: seq<Item>, item: Item)
    requires Normalized(items) == items && item.text != "" && Strip(item.text) == item.text
    ensures Normalized(items + [item]) == items + [item]
  {
    assert (items + [item])[..|items|] == items;
  }

  lemma {:induction false} RenderedIsNormal(rows: seq<SourceRow>)
    ensures Normalized(Rendered(rows)) == Rendered(rows)
  {
    if rows != [] {
      var n := |rows| - 1;
      RenderedIsNormal(rows[..n]);
      BarsAreTrimmed(JoinCells(rows[n].cells));
      NormalizedSnoc(Rendered(rows[..n]), RenderedRow(rows[n]));
    }
  }

  lemma {:induction false} DashesAreOneLine(n: nat)
    ensures '\n' !in Dashes(n)
  {
    if n > 1 {
      DashesAreOneLine(n - 1);
    }
  }

  lemma HeaderIsTrimmed(headers: seq<string>)
    ensures Strip(RenderHeader(headers)) == RenderHeader(headers) != ""
    ensures Lines(RenderHeader(headers)) == [RenderRow(headers), Separator(headers)]
  {
    var s := RenderHeader(headers);
    assert s[0] == '|' && s[|s| - 1] == '|';
    StripTrims(s);
    RowIsOneLine(headers);
    DashesAreOneLine(|headers|);
    OneLine(RenderRow(headers));
    OneLine(Separator(headers));
    LinesJoin(RenderRow(headers), Separator(headers));
  }

  function HeaderLines(headers: seq<string>, maxChars: int): seq<string> {
    if |RenderHeader(headers)| + 32 < maxChars then [RenderRow(headers), Separator(headers)] else []
  }

  lemma WrapLines(headers: seq<string>, maxChars: int, body: string)
    ensures Lines(Wrap(KeptPrefix(RenderHeader(headers), maxChars), body)) ==
      HeaderLines(headers, maxChars) + Lines(body)
  {
    HeaderIsTrimmed(headers);
    LinesJoin(RenderHeader(headers), body);
  }

  lemma RowsLines(rows: seq<SourceRow>, a: nat, n: nat)
    requires a < n <= |rows|
    ensures Lines(Join(Rendered(rows)[a..n])) == Texts(Rendered(rows)[a..n])
  {
    var run := Rendered(rows)[a..n];
    forall i | 0 <= i < |run| ensures '\n' !in run[i].text {
      RowIsOneLine(rows[a + i].cells);
    }
    RunLines(run);
  }

  lemma PackedRows(rows: seq<SourceRow>, maxChars: int, prefix: string, pieces: seq<Piece>, p: Piece)
    returns (a: nat, n: nat)
    requires IsPacked(Rendered(rows), maxChars, prefix, pieces) && p in pieces && p.partCount == 1
    ensures IsWholePiece(p, Rendered(rows), a, n, KeptPrefix(prefix, maxChars))
  {
    RenderedIsNormal(rows);
    NormalizedTrimmed(Rendered(rows));
    a, n := PackedItems(Rendered(rows), maxChars, prefix, pieces, p);
  }

  lemma PackedItems(items: seq<Item>, maxChars: int, prefix: string, pieces: seq<Piece>, p: Piece)
    returns (a: nat, n: nat)
    requires Normalized(items) == items && Tidy(items)
    requires IsPacked(items, maxChars, prefix, pieces) && p in pieces && p.partCount == 1
    ensures IsWholePiece(p, items, a, n, KeptPrefix(prefix, maxChars))
  {
    var plan :| IsPacking(items, maxChars, prefix, plan, pieces);
    var kept := KeptPrefix(prefix, maxChars);
    a, n := WholePiece(items, plan, kept, Available(kept, maxChars), p);
  }

  /** A table over rows `a` to `n`: its lines are the header and separator, unless these leave no room,
      and then exactly its rows, each of which reads back as the texts of its cells; its range names the
      first and the last of these rows. */
  ghost predicate IsTable(p: Piece, headers: seq<string>, rows: seq<SourceRow>, maxChars: int, a: nat, n: nat) {
    && a < n <= |rows| && p.start == rows[a].number && p.end == rows[n - 1].number
    && Lines(p.text) == HeaderLines(headers, maxChars) + Texts(Rendered(rows)[a..n])
    && forall i :: a <= i < n ==> ReadsBack(RenderedRow(rows[i]).text, rows[i].cells)
  }

  lemma WholeIsTable(p: Piece, headers: seq<string>, rows: seq<SourceRow>, maxChars: int, a: nat, n: nat)
    requires IsWholePiece(p, Rendered(rows), a, n, KeptPrefix(RenderHeader(headers), maxChars))
    ensures IsTable(p, headers, rows, maxChars, a, n)
  {
    WrapLines(headers, maxChars, Join(Rendered(rows)[a..n]));
    RowsLines(rows, a, n);
    forall i | a <= i < n ensures ReadsBack(RenderedRow(rows[i]).text, rows[i].cells) {
      RowReadsBack(rows[i].cells);
    }
  }

  lemma RowReadsBack(cells: seq<string>)
    ensures ReadsBack(RenderRow(cells), cells)
  {
    RowRoundTrip(cells);
  }

  lemma {:induction false} DashesAreCells(n: nat)
    ensures Dashes(n) == JoinCells(seq(n, _ => "---"))
  {
    if n == 1 {
      DashCell();
    } else if n > 1 {
      DashesAreCells(n - 1);
      DashCell();
      assert seq(n, _ => "---")[1..] == seq(n - 1, _ => "---");
    }
  }

  lemma DashCell()
    ensures TableCell("---") == "---"
  {
    var s := "---";
    DisplayTells(s);
    CellReadsBack(s);
    StripTrims(s);
    assert Escape(s[1..]) == "--" by {
      assert s[1..][1..] == "-" && Escape("-") == "-";
    }
  }

  /** The line below the header is itself a row of dashes, one cell for each header. */
  lemma SeparatorTells(headers: seq<string>)
    requires headers != []
    ensures ParseRow(Separator(headers)) == seq(|headers|, _ => "---")
  {
    SeparatorIsRow(headers);
    RowRoundTrip(seq(|headers|, _ => "---"));
    DashShows();
  }

  lemma SeparatorIsRow(headers: seq<string>)
    ensures Separator(headers) == RenderRow(seq(|headers|, _ => "---"))
  {
    DashesAreCells(|headers|);
  }

  lemma DashShows()
    ensures Display("---") == "---"
  {
    DisplayTells("---");
    StripTrims("---");
  }

  // ---------- Parts of an over-long row ----------

  lemma {:induction false} PartsAreOneLine(text: string, limit: nat, part: string)
    requires limit >= 1 && '\n' !in text && part in Parts(text, limit)
    ensures '\n' !in part
    decreases |text|
  {
    if |text| > limit {
      var cut := Cut(text, limit);
      if part == RStrip(text[..cut]) {
        RStripSubset(text[..cut]);
      } else {
        LStripSubset(text[cut..]);
        PartsAreOneLine(LStrip(text[cut..]), limit, part);
      }
    }
  }

  /** `p` is one of the parts into which the over-long item is split, which follow each other among the pieces. */
  ghost predicate IsSplitPiece(p: Piece, item: Item, kept: string, room: nat, pieces: seq<Piece>) {
    && room >= 1 && |item.text| > room
    && p in PartPieces(item, kept, room)
    && exists i :: StandAt(PartPieces(item, kept, room), pieces, i)
  }

  lemma SplitPiece(items: seq<Item>, plan: seq<Group>, kept: string, room: nat, p: Piece) returns (at: nat)
    requires AllOk(plan, items, room) && p in Render(plan, items, kept, room) && p.partCount != 1
    ensures at < |items| && IsSplitPiece(p, items[at], kept, room, Render(plan, items, kept, room))
  {
    var k, i := PieceGroup(plan, items, kept, room, p);
    assert GroupOk(plan[k], items, room);
    at := plan[k].Start();
  }

  /** The parts are trimmed, bounded and keep every non-white character of the text. */
  ghost predicate AreParts(parts: seq<string>, text: string, room: nat) {
    && |parts| > 1 && Content(parts) == Solid(text)
    && forall t :: t in parts ==> 1 <= |t| <= room && Trimmed(t)
  }

  lemma OverlongParts(text: string, room: nat)
    requires room >= 1 && |text| > room && Trimmed(text)
    ensures AreParts(Parts(text, room), text, room)
  {
    PartsAreBounded(text, room);
  }

  /** One part of an over-long item: its lines are those of the header and that part of the text, its range
      is the item, and the parts, all of them pieces in a row, keep the characters of the item. */
  ghost predicate IsPart(p: Piece, item: Item, head: seq<string>, kept: string, room: nat, pieces: seq<Piece>) {
    && IsSplitPiece(p, item, kept, room, pieces)
    && AreParts(Parts(item.text, room), item.text, room)
    && IsPartOf(p, item, head, Parts(item.text, room))
  }

  ghost predicate IsPartOf(p: Piece, item: Item, head: seq<string>, parts: seq<string>) {
    && 1 <= p.partIndex <= p.partCount == |parts| && p.start == p.end == item.number
    && Lines(p.text) == head + [parts[p.partIndex - 1]]
  }

  ghost predicate IsRowPart(p: Piece, headers: seq<string>, row: SourceRow, maxChars: int, pieces: seq<Piece>) {
    var kept := KeptPrefix(RenderHeader(headers), maxChars);
    IsPart(p, RenderedRow(row), HeaderLines(headers, maxChars), kept, Available(kept, maxChars), pieces)
  }

  lemma PieceOfPart(p: Piece, item: Item, kept: string, room: nat) returns (j: nat)
    requires room >= 1 && p in PartPieces(item, kept, room)
    ensures var parts := Parts(item.text, room);
      j < |parts| && p == Piece(Wrap(kept, parts[j]), item.number, item.number, j + 1, |parts|)
  {
    j :| 0 <= j < |PartPieces(item, kept, room)| && p == PartPieces(item, kept, room)[j];
  }

  lemma SplitIsPart(p: Piece, item: Item, head: seq<string>, kept: string, room: nat)
    requires room >= 1 && p in PartPieces(item, kept, room) && '\n' !in item.text
    requires forall body :: Lines(Wrap(kept, body)) == head + Lines(body)
    ensures IsPartOf(p, item, head, Parts(item.text, room))
  {
    var j := PieceOfPart(p, item, kept, room);
    PartsAreOneLine(item.text, room, Parts(item.text, room)[j]);
    PartLines(p, Parts(item.text, room)[j], head, kept);
  }

  lemma PartLines(p: Piece, part: string, head: seq<string>, kept: string)
    requires p.text == Wrap(kept, part) && '\n' !in part
    requires forall body :: Lines(Wrap(kept, body)) == head + Lines(body)
    ensures Lines(p.text) == head + [part]
  {
    OneLine(part);
  }

  lemma SplitIsRowPart(p: Piece, headers: seq<string>, row: SourceRow, maxChars: int, pieces: seq<Piece>)
    requires var kept := KeptPrefix(RenderHeader(headers), maxChars);
      IsSplitPiece(p, RenderedRow(row), kept, Available(kept, maxChars), pieces)
    ensures IsRowPart(p, headers, row, maxChars, pieces)
  {
    var kept := KeptPrefix(RenderHeader(headers), maxChars);
    BarsAreTrimmed(JoinCells(row.cells));
    RowIsOneLine(row.cells);
    forall body ensures Lines(Wrap(kept, body)) == HeaderLines(headers, maxChars) + Lines(body) {
      WrapLines(headers, maxChars, body);
    }
    OverlongParts(RenderRow(row.cells), Available(kept, maxChars));
    SplitIsPart(p, RenderedRow(row), HeaderLines(headers, maxChars), kept, Available(kept, maxChars));
  }

  lemma PackedParts(items: seq<Item>, maxChars: int, prefix: string, pieces: seq<Piece>, p: Piece)
    returns (at: nat)
    requires Normalized(items) == items
    requires IsPacked(items, maxChars, prefix, pieces) && p in pieces && p.partCount != 1
    ensures at < |items| && var kept := KeptPrefix(prefix, maxChars);
      IsSplitPiece(p, items[at], kept, Available(kept, maxChars), pieces)
  {
    var plan :| IsPacking(items, maxChars, prefix, plan, pieces);
    var kept := KeptPrefix(prefix, maxChars);
    at := SplitPiece(items, plan, kept, Available(kept, maxChars), p);
  }

  /** Print, pack and read back: every piece is itself a table of just the rows it names, or one part of
      a row that is too long for a piece. */
  lemma PieceIsTable(headers: seq<string>, rows: seq<SourceRow>, maxChars: int, pieces: seq<Piece>, p: Piece)
    returns (a: nat, n: nat)
    requires IsPacked(Rendered(rows), maxChars, RenderHeader(headers), pieces) && p in pieces
    ensures p.partCount == 1 ==> IsTable(p, headers, rows, maxChars, a, n)
    ensures p.partCount != 1 ==> a < |rows| && IsRowPart(p, headers, rows[a], maxChars, pieces)
  {
    if p.partCount == 1 {
      a, n := PackedRows(rows, maxChars, RenderHeader(headers), pieces, p);
      WholeIsTable(p, headers, rows, maxChars, a, n);
    } else {
      RenderedIsNormal(rows);
      a := PackedParts(Rendered(rows), maxChars, RenderHeader(headers), pieces, p);
      n := a + 1;
      SplitIsRowPart(p, headers, rows[a], maxChars, pieces);
    }
  }

  predicate ReadsBack(line: string, cells: seq<string>) {
    cells == [] || ParseRow(line) == seq(|cells|, i requires 0 <= i < |cells| => Display(cells[i]))
  }
}
