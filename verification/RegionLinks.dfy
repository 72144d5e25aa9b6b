/** Which cells of a sheet end up in one region: exactly those that small steps connect. */
module RegionLinks {
  import opened Regions

  /** From one of the two values to the other no step between neighbouring values is wider than two. */
  ghost predicate Linked(values: set<int>, a: int, b: int) {
    forall v :: v in values && (a <= v < b || b <= v < a) ==> Near(values, v)
  }

  ghost predicate Near(values: set<int>, v: int) {
    v + 1 in values || v + 2 in values
  }

  /** The columns of the cells in rows that are linked to the row. */
  ghost function LinkedCols(cells: seq<Cell>, row: int): set<int> {
    set c | c in cells && Linked(RowsOf(cells), row, c.row) :: c.col
  }

  ghost function RowsOf(cells: seq<Cell>): set<int> {
    set c | c in cells :: c.row
  }

  /** Rows linked within the sheet, columns linked within those rows. */
  ghost predicate Together(cells: seq<Cell>, c: Cell, d: Cell) {
    Linked(RowsOf(cells), c.row, d.row) && Linked(LinkedCols(cells, c.row), c.col, d.col)
  }

  /** The greatest value below a bound. */
  lemma GreatestBelow(values: set<int>, b: int, low: int) returns (v: int)
    requires b in values && b < low
    ensures v in values && b <= v < low && forall w :: w in values ==> !(v < w < low)
    decreases low - b
  {
    if w :| w in values && b < w < low {
      v := GreatestBelow(values, w, low);
    } else {
      v := b;
    }
  }

  /** A maximal run holds just the values linked to one of its values. */
  lemma RunIsLinked(run: Interval, values: set<int>, a: int, b: int)
    requires MaxRun(run, values, 1) && a in values && b in values && Within(a, run)
    ensures Within(b, run) <==> Linked(values, a, b)
  {
    if Within(b, run) {
      forall v | v in values && (a <= v < b || b <= v < a) ensures Near(values, v) {
        assert Within(v, run) && Followed(v, values, 1);
      }
    } else {
      var v := run.high;
      if b < run.low {
        v := GreatestBelow(values, b, run.low);
      }
      assert v in values && (a <= v < b || b <= v < a) && !Near(values, v);
    }
  }

  lemma MemberRows(cells: seq<Cell>)
    ensures Members(Rows(cells)) == RowsOf(cells)
  {
    forall c | c in cells ensures c.row in Members(Rows(cells)) {
      var i :| 0 <= i < |cells| && cells[i] == c;
      assert Rows(cells)[i] in Members(Rows(cells));
    }
  }

  lemma MemberCols(cells: seq<Cell>, band: Interval, row: int)
    requires MaxRun(band, RowsOf(cells), 1) && row in RowsOf(cells) && Within(row, band)
    ensures Members(Cols(Band(cells, band))) == LinkedCols(cells, row)
  {
    var part := Band(cells, band);
    forall c | c in cells ensures Within(c.row, band) <==> Linked(RowsOf(cells), row, c.row) {
      RunIsLinked(band, RowsOf(cells), row, c.row);
    }
    forall c | c in part ensures c.col in Members(Cols(part)) {
      var i :| 0 <= i < |part| && part[i] == c;
      assert Cols(part)[i] in Members(Cols(part));
    }
    forall x | x in Members(Cols(part)) ensures x in LinkedCols(cells, row) {
      var i :| 0 <= i < |part| && Cols(part)[i] == x;
      assert part[i] in part && part[i] in cells;
    }
  }

  /** Within a band the cells of one run of columns are those together with one of them. */
  lemma BandHolds(band: Interval, cells: seq<Cell>, cols: Interval, c: Cell, d: Cell)
    requires MaxRun(band, RowsOf(cells), 1) && MaxRun(cols, Members(Cols(Band(cells, band))), 1)
    requires c in cells && d in cells && Within(c.row, band) && Within(c.col, cols)
    ensures Within(d.row, band) && Within(d.col, cols) <==> Together(cells, c, d)
  {
    MemberCols(cells, band, c.row);
    RunIsLinked(band, RowsOf(cells), c.row, d.row);
    RunIsLinked(band, RowsOf(cells), c.row, c.row);
    if Within(d.row, band) {
      assert c.col in LinkedCols(cells, c.row) && d.col in LinkedCols(cells, c.row);
      RunIsLinked(cols, LinkedCols(cells, c.row), c.col, d.col);
    }
  }

  /** A box of the detection that holds one cell holds just the cells together with it. */
  lemma BoxHolds(r: Region, cells: seq<Cell>, c: Cell, d: Cell)
    requires RunBox(r, cells) && c in cells && d in cells && Inside(c, r)
    ensures Inside(d, r) <==> Together(cells, c, d)
  {
    var band :| RunBoxOf(r, cells, band);
    var cols :| ColBoxOf(r, Band(cells, band), cols);
    MemberRows(cells);
    BoxWithin(r, cells, band, cols, c);
    BoxWithin(r, cells, band, cols, d);
    BandHolds(band, cells, cols, c, d);
  }

  lemma BoxWithin(r: Region, cells: seq<Cell>, band: Interval, cols: Interval, c: Cell)
    requires RunBoxOf(r, cells, band) && ColBoxOf(r, Band(cells, band), cols) && c in cells
    ensures Inside(c, r) <==> Within(c.row, band) && Within(c.col, cols)
  {
    assert c in Band(cells, band) <==> Within(c.row, band);
  }

  /** Two cells share a region exactly when they are together. With cover and tightness this leaves no choice
      of the regions. */
  lemma SameRegionIff(regions: seq<Region>, cells: seq<Cell>, c: Cell, d: Cell)
    requires Partitions(regions, cells) && forall i :: 0 <= i < |regions| ==> RunBox(regions[i], cells)
    requires c in cells && d in cells
    ensures (exists k :: 0 <= k < |regions| && Inside(c, regions[k]) && Inside(d, regions[k])) <==>
      Together(cells, c, d)
  {
    if k :| 0 <= k < |regions| && Inside(c, regions[k]) && Inside(d, regions[k]) {
      BoxHolds(regions[k], cells, c, d);
    }
    assert Covered(c, regions);
    var k :| 0 <= k < |regions| && Inside(c, regions[k]);
    BoxHolds(regions[k], cells, c, d);
  }
}
