/** Detecting the regions of a sheet: rows, then columns, grouped into intervals with small gaps. */
module Regions {

  datatype Cell = Cell(row: int, col: int)

  datatype Interval = Interval(low: int, high: int)

  datatype Region = Region(top: int, left: int, bottom: int, right: int)

  predicate Within(v: int, i: Interval) {
    i.low <= v <= i.high
  }

  predicate Inside(c: Cell, r: Region) {
    r.top <= c.row <= r.bottom && r.left <= c.col <= r.right
  }

  // ---------- sorted(set(values)) ----------

  ghost predicate Increasing(s: seq<int>) {
    forall i, j :: 0 <= i < j < |s| ==> s[i] < s[j]
  }

  function InsertOnce(x: int, s: seq<int>): (r: seq<int>)
    requires Increasing(s)
    ensures Increasing(r) && forall y :: y in r <==> y in s || y == x
  {
    if s == [] then [x]
    else if x < s[0] then [x] + s
    else if x == s[0] then s
    else
      var tail := InsertOnce(x, s[1..]);
      assert forall y :: y in s[1..] ==> s[0] < y;
      PrependLeast(s[0], tail);
      [s[0]] + tail
  }

  lemma PrependLeast(x: int, tail: seq<int>)
    requires Increasing(tail) && forall y :: y in tail ==> x < y
    ensures Increasing([x] + tail)
  {
    var r := [x] + tail;
    forall i, j | 0 <= i < j < |r| ensures r[i] < r[j] {
      assert r[j] == tail[j - 1] && tail[j - 1] in tail;
    }
  }

  function SortedSet(values: seq<int>): (r: seq<int>)
    ensures Increasing(r) && forall y :: y in r <==> y in values
  {
    if values == [] then [] else InsertOnce(values[0], SortedSet(values[1..]))
  }

  // ---------- Grouping ----------

  /** Intervals that begin and end at values, are further apart than the gap, leave no value out, and
      have no hole wider than the gap: the maximal runs of the values. */
  ghost predicate Groups(groups: seq<Interval>, values: set<int>, gap: nat) {
    Bounds(groups, values) && Separate(groups, gap) && Complete(groups, values) && Dense(groups, values, gap)
  }

  ghost predicate Bounds(groups: seq<Interval>, values: set<int>) {
    forall i :: 0 <= i < |groups| ==>
      groups[i].low <= groups[i].high && groups[i].low in values && groups[i].high in values
  }

  ghost predicate Separate(groups: seq<Interval>, gap: nat) {
    forall i, j :: 0 <= i < j < |groups| ==> groups[i].high + gap + 1 < groups[j].low
  }

  ghost predicate Complete(groups: seq<Interval>, values: set<int>) {
    forall v {:trigger InSome(v, groups)} :: v in values ==> InSome(v, groups)
  }

  ghost predicate Dense(groups: seq<Interval>, values: set<int>, gap: nat) {
    forall i, v {:trigger Within(v, groups[i])} ::
      0 <= i < |groups| && Within(v, groups[i]) && v in values && v < groups[i].high ==> Followed(v, values, gap)
  }

  ghost predicate InSome(v: int, groups: seq<Interval>) {
    exists i :: 0 <= i < |groups| && Within(v, groups[i])
  }

  /** Another value follows within the gap. */
  ghost predicate Followed(v: int, values: set<int>, gap: nat) {
    exists w :: w in values && v < w <= v + gap + 1
  }

  ghost function Members(s: seq<int>): set<int> {
    set y | y in s
  }

  method GroupSorted(values: seq<int>, gap: nat) returns (groups: seq<Interval>)
    ensures Groups(groups, Members(values), gap)
  {
    groups := [];
    if values == [] { return; }
    var sorted := SortedSet(values);
    assert values[0] in sorted;
    var start, prev := sorted[0], sorted[0];
    FirstGroup(sorted, gap);
    for n := 1 to |sorted|
      invariant prev == sorted[n - 1] && start <= prev
      invariant Groups(groups + [Interval(start, prev)], Members(sorted[..n]), gap)
    {
      var value := sorted[n];
      SameMembers(sorted, n);
      if value - prev <= gap + 1 {
        Extend(groups, start, prev, value, Members(sorted[..n]), Members(sorted[..n + 1]), gap);
        prev := value;
      } else {
        groups := groups + [Interval(start, prev)];
        OpenNext(groups, value, Members(sorted[..n]), Members(sorted[..n + 1]), gap);
        start, prev := value, value;
      }
    }
    groups := groups + [Interval(start, prev)];
    assert sorted[..|sorted|] == sorted;
    assert Members(sorted) == Members(values);
  }

  lemma FirstGroup(sorted: seq<int>, gap: nat)
    requires sorted != []
    ensures Groups([] + [Interval(sorted[0], sorted[0])], Members(sorted[..1]), gap)
  {
    var groups := [] + [Interval(sorted[0], sorted[0])];
    assert sorted[..1] == [sorted[0]];
    forall v | v in Members(sorted[..1]) ensures InSome(v, groups) {
      assert Within(v, groups[0]);
    }
  }

  lemma SameMembers(sorted: seq<int>, n: nat)
    requires Increasing(sorted) && n < |sorted|
    ensures Members(sorted[..n + 1]) == Members(sorted[..n]) + {sorted[n]}
    ensures forall y :: y in Members(sorted[..n]) ==> y < sorted[n]
    ensures n > 0 ==> forall y :: y in Members(sorted[..n]) ==> y <= sorted[n - 1]
  {
    assert sorted[..n + 1] == sorted[..n] + [sorted[n]];
  }

  /** The next value joins the last interval. */
  lemma Extend(groups: seq<Interval>, start: int, prev: int, value: int, was: set<int>, now: set<int>, gap: nat)
    requires Groups(groups + [Interval(start, prev)], was, gap) && start <= prev < value <= prev + gap + 1
    requires now == was + {value} && forall y :: y in was ==> y <= prev
    ensures Groups(groups + [Interval(start, value)], now, gap)
  {
    var old_, new_ := groups + [Interval(start, prev)], groups + [Interval(start, value)];
    assert old_[|groups|] == Interval(start, prev);
    forall i | 0 <= i < |groups| ensures new_[i] == old_[i] == groups[i] {
    }
    assert Separate(new_, gap);
    assert Bounds(new_, now);
    ExtendComplete(groups, start, prev, value, was, now);
    ExtendDense(groups, start, prev, value, was, now, gap);
  }

  lemma ExtendComplete(groups: seq<Interval>, start: int, prev: int, value: int, was: set<int>, now: set<int>)
    requires Complete(groups + [Interval(start, prev)], was) && start <= prev < value && now == was + {value}
    ensures Complete(groups + [Interval(start, value)], now)
  {
    var old_, new_ := groups + [Interval(start, prev)], groups + [Interval(start, value)];
    forall v | v in now ensures InSome(v, new_) {
      if v == value {
        assert Within(v, new_[|groups|]);
      } else {
        assert InSome(v, old_);
        var i :| 0 <= i < |old_| && Within(v, old_[i]);
        assert Within(v, new_[i]);
      }
    }
  }

  lemma ExtendDense(groups: seq<Interval>, start: int, prev: int, value: int, was: set<int>, now: set<int>, gap: nat)
    requires Dense(groups + [Interval(start, prev)], was, gap) && Bounds(groups + [Interval(start, prev)], was)
    requires start <= prev < value <= prev + gap + 1
    requires now == was + {value} && forall y :: y in was ==> y <= prev
    ensures Dense(groups + [Interval(start, value)], now, gap)
  {
    var old_, new_ := groups + [Interval(start, prev)], groups + [Interval(start, value)];
    forall i, v | 0 <= i < |new_| && Within(v, new_[i]) && v in now && v < new_[i].high ensures Followed(v, now, gap) {
      if v == prev {
        assert value in now;
      } else {
        assert old_[i].high in was;
        assert Within(v, old_[i]) && v in was;
        FollowedMore(v, was, now, gap);
      }
    }
  }

  lemma FollowedMore(v: int, was: set<int>, now: set<int>, gap: nat)
    requires Followed(v, was, gap) && was <= now
    ensures Followed(v, now, gap)
  {
    var w :| w in was && v < w <= v + gap + 1;
    assert w in now;
  }

  /** The next value is too far away: it opens an interval of its own. */
  lemma OpenNext(groups: seq<Interval>, value: int, was: set<int>, now: set<int>, gap: nat)
    requires Groups(groups, was, gap) && groups != [] && groups[|groups| - 1].high + gap + 1 < value
    requires now == was + {value} && forall y :: y in was ==> y <= groups[|groups| - 1].high
    ensures Groups(groups + [Interval(value, value)], now, gap)
  {
    var new_ := groups + [Interval(value, value)];
    assert new_[|groups|] == Interval(value, value);
    forall i | 0 <= i < |groups| ensures new_[i] == groups[i] && groups[i].high in was {
    }
    assert Bounds(new_, now);
    assert Separate(new_, gap);
    OpenComplete(groups, value, was, now);
    OpenDense(groups, value, was, now, gap);
  }

  lemma OpenComplete(groups: seq<Interval>, value: int, was: set<int>, now: set<int>)
    requires Complete(groups, was) && now == was + {value}
    ensures Complete(groups + [Interval(value, value)], now)
  {
    var new_ := groups + [Interval(value, value)];
    forall v | v in now ensures InSome(v, new_) {
      if v == value {
        assert Within(v, new_[|groups|]);
      } else {
        assert InSome(v, groups);
        var i :| 0 <= i < |groups| && Within(v, groups[i]);
        assert Within(v, new_[i]);
      }
    }
  }

  lemma OpenDense(groups: seq<Interval>, value: int, was: set<int>, now: set<int>, gap: nat)
    requires Dense(groups, was, gap) && Bounds(groups, was)
    requires now == was + {value} && forall y :: y in was ==> y < value
    ensures Dense(groups + [Interval(value, value)], now, gap)
  {
    var new_ := groups + [Interval(value, value)];
    forall i, v | 0 <= i < |new_| && Within(v, new_[i]) && v in now && v < new_[i].high ensures Followed(v, now, gap) {
      assert i < |groups| && new_[i] == groups[i] && groups[i].high in was;
      assert Within(v, groups[i]) && v in was;
      FollowedMore(v, was, now, gap);
    }
  }

  // ---------- Regions ----------

  function Rows(cells: seq<Cell>): (r: seq<int>)
    ensures |r| == |cells| && forall i :: 0 <= i < |r| ==> r[i] == cells[i].row
  {
    seq(|cells|, i requires 0 <= i < |cells| => cells[i].row)
  }

  function Cols(cells: seq<Cell>): (r: seq<int>)
    ensures |r| == |cells| && forall i :: 0 <= i < |r| ==> r[i] == cells[i].col
  {
    seq(|cells|, i requires 0 <= i < |cells| => cells[i].col)
  }

  /** The cells whose row lies in the band. */
  function Band(cells: seq<Cell>, rows: Interval): (r: seq<Cell>)
    ensures forall c :: c in r <==> c in cells && Within(c.row, rows)
  {
    if cells == [] then []
    else
      var rest := Band(cells[1..], rows);
      if Within(cells[0].row, rows) then [cells[0]] + rest else rest
  }

  function Columns(cells: seq<Cell>, cols: Interval): (r: seq<Cell>)
    ensures forall c :: c in r <==> c in cells && Within(c.col, cols)
  {
    if cells == [] then []
    else
      var rest := Columns(cells[1..], cols);
      if Within(cells[0].col, cols) then [cells[0]] + rest else rest
  }

  function Min(s: seq<int>): (m: int)
    requires s != []
    ensures m in s && forall y :: y in s ==> m <= y
  {
    if |s| == 1 then s[0]
    else
      var rest := Min(s[1..]);
      assert s == [s[0]] + s[1..];
      if s[0] < rest then s[0] else rest
  }

  function Max(s: seq<int>): (m: int)
    requires s != []
    ensures m in s && forall y :: y in s ==> y <= m
  {
    if |s| == 1 then s[0]
    else
      var rest := Max(s[1..]);
      assert s == [s[0]] + s[1..];
      if s[0] > rest then s[0] else rest
  }

  /** Every side of the box touches one of the cells in it. */
  ghost predicate Tight(r: Region, cells: seq<Cell>) {
    && (exists c :: c in cells && Inside(c, r) && c.row == r.top)
    && (exists c :: c in cells && Inside(c, r) && c.row == r.bottom)
    && (exists c :: c in cells && Inside(c, r) && c.col == r.left)
    && (exists c :: c in cells && Inside(c, r) && c.col == r.right)
  }

  method BoundingBox(part: seq<Cell>) returns (r: Region)
    requires part != []
    ensures forall c :: c in part ==> Inside(c, r)
    ensures Tight(r, part)
  {
    var rows, cols := Rows(part), Cols(part);
    r := Region(Min(rows), Min(cols), Max(rows), Max(cols));
    forall c | c in part ensures Inside(c, r) {
      var i :| 0 <= i < |part| && part[i] == c;
      assert rows[i] in rows && cols[i] in cols;
    }
    var top :| 0 <= top < |rows| && rows[top] == r.top;
    var bottom :| 0 <= bottom < |rows| && rows[bottom] == r.bottom;
    var left :| 0 <= left < |cols| && cols[left] == r.left;
    var right :| 0 <= right < |cols| && cols[right] == r.right;
    assert part[top] in part && part[bottom] in part && part[left] in part && part[right] in part;
  }

  /** Regions in order: a later one lies below or to the right of an earlier one, more than the gap away. */
  ghost predicate Apart(a: Region, b: Region) {
    a.bottom + 2 < b.top || a.right + 2 < b.left
  }

  ghost predicate Covered(c: Cell, regions: seq<Region>) {
    exists k :: 0 <= k < |regions| && Inside(c, regions[k])
  }

  ghost predicate Partitions(regions: seq<Region>, cells: seq<Cell>) {
    && (forall c :: c in cells ==> Covered(c, regions))
    && (forall i, j :: 0 <= i < j < |regions| ==> Apart(regions[i], regions[j]))
    && (forall i :: 0 <= i < |regions| ==> Tight(regions[i], cells))
  }

  /** The state of the column loop: the cells of the first `g` groups are covered, by boxes in those groups. */
  ghost predicate ColsDone(part: seq<Cell>, groups: seq<Interval>, g: nat, regions: seq<Region>)
    requires g <= |groups|
  {
    && (forall c :: c in part && g > 0 && c.col <= groups[g - 1].high ==> Covered(c, regions))
    && (forall i :: 0 <= i < |regions| ==> Tight(regions[i], part))
    && (forall i :: 0 <= i < |regions| ==> Ends(regions[i], groups, g))
    && (forall i, j :: 0 <= i < j < |regions| ==> LeftOf(regions[i], regions[j]))
  }

  ghost predicate LeftOf(a: Region, b: Region) {
    a.right + 2 < b.left
  }

  ghost predicate Ends(r: Region, groups: seq<Interval>, g: nat)
    requires g <= |groups|
  {
    g > 0 && r.right <= groups[g - 1].high
  }

  /** A run of values without a hole wider than the gap that no further value could join. */
  ghost predicate MaxRun(run: Interval, values: set<int>, gap: nat) {
    && run.low in values && run.high in values && run.low <= run.high
    && (forall v :: v in values && Within(v, run) && v < run.high ==> Followed(v, values, gap))
    && (forall v :: v in values ==> !(run.high < v <= run.high + gap + 1))
    && (forall v :: v in values ==> !(run.low - gap - 1 <= v < run.low))
  }

  lemma GroupIsMaxRun(groups: seq<Interval>, values: set<int>, gap: nat, g: nat)
    requires Groups(groups, values, gap) && g < |groups|
    ensures MaxRun(groups[g], values, gap)
  {
    var run := groups[g];
    forall v | v in values
      ensures !(run.high < v <= run.high + gap + 1) && !(run.low - gap - 1 <= v < run.low)
    {
      assert InSome(v, groups);
      var k :| 0 <= k < |groups| && Within(v, groups[k]);
      assert k < g ==> groups[k].high + gap + 1 < run.low;
      assert g < k ==> run.high + gap + 1 < groups[k].low;
    }
  }

  /** The box holds just the cells of the part whose columns form one run. */
  ghost predicate ColBox(r: Region, part: seq<Cell>) {
    exists cols :: ColBoxOf(r, part, cols)
  }

  ghost predicate ColBoxOf(r: Region, part: seq<Cell>, cols: Interval) {
    MaxRun(cols, Members(Cols(part)), 1) && forall c :: c in part ==> (Inside(c, r) <==> Within(c.col, cols))
  }

  ghost predicate ColBoxes(regions: seq<Region>, part: seq<Cell>) {
    forall i :: 0 <= i < |regions| ==> ColBox(regions[i], part)
  }

  lemma ColBoxesSnoc(
    regions: seq<Region>, box: Region, inside: seq<Cell>, part: seq<Cell>, groups: seq<Interval>, g: nat)
    requires ColBoxes(regions, part) && Groups(groups, Members(Cols(part)), 1) && g < |groups|
    requires inside == Columns(part, groups[g]) && forall c :: c in inside ==> Inside(c, box)
    requires groups[g].low <= box.left && box.right <= groups[g].high
    ensures ColBoxes(regions + [box], part)
  {
    GroupIsMaxRun(groups, Members(Cols(part)), 1, g);
    assert ColBoxOf(box, part, groups[g]);
  }

  /** The same for a box of the sheet: its rows lie in one run of the sheet's rows, and within this band its
      cells are those of one run of columns. */
  ghost predicate RunBox(r: Region, cells: seq<Cell>) {
    exists band :: RunBoxOf(r, cells, band)
  }

  ghost predicate RunBoxOf(r: Region, cells: seq<Cell>, band: Interval) {
    && MaxRun(band, Members(Rows(cells)), 1) && band.low <= r.top && r.bottom <= band.high
    && ColBox(r, Band(cells, band))
  }

  /** The regions of one band of rows. */
  method BandRegions(part: seq<Cell>) returns (regions: seq<Region>)
    ensures Partitions(regions, part) && ColBoxes(regions, part)
  {
    regions := [];
    var groups := GroupSorted(Cols(part), 1);
    for g := 0 to |groups|
      invariant ColsDone(part, groups, g, regions)
      invariant ColBoxes(regions, part)
    {
      var inside := Columns(part, groups[g]);
      GroupNotEmpty(part, groups, g);
      if inside != [] {
        var box := BoundingBox(inside);
        BoxInGroup(box, inside, part, groups[g]);
        ColumnStep(part, groups, g, regions, box);
        ColBoxesSnoc(regions, box, inside, part, groups, g);
        regions := regions + [box];
      }
    }
    forall c | c in part ensures Covered(c, regions) {
      LastColumn(part, groups, c);
    }
    forall i, j | 0 <= i < j < |regions| ensures Apart(regions[i], regions[j]) {
      assert LeftOf(regions[i], regions[j]);
    }
  }

  lemma ColumnStep(part: seq<Cell>, groups: seq<Interval>, g: nat, regions: seq<Region>, box: Region)
    requires Groups(groups, Members(Cols(part)), 1) && g < |groups| && ColsDone(part, groups, g, regions)
    requires Tight(box, part) && groups[g].low <= box.left && box.right <= groups[g].high
    requires forall c :: c in part && Within(c.col, groups[g]) ==> Inside(c, box)
    ensures ColsDone(part, groups, g + 1, regions + [box])
  {
    assert g > 0 ==> groups[g - 1].high + 2 < groups[g].low;
    forall c | c in part && c.col <= groups[g].high ensures Covered(c, regions + [box]) {
      if g > 0 && c.col <= groups[g - 1].high {
        CoveredMore(c, regions, [box]);
      } else {
        ColumnInGroup(part, groups, g, c);
        assert Inside(c, (regions + [box])[|regions|]);
      }
    }
    BoxAtRight(part, groups, g, regions, box);
  }

  lemma BoxAtRight(part: seq<Cell>, groups: seq<Interval>, g: nat, regions: seq<Region>, box: Region)
    requires g < |groups| && (g > 0 ==> groups[g - 1].high + 2 < groups[g].low <= groups[g].high)
    requires forall i :: 0 <= i < |regions| ==> Tight(regions[i], part) && Ends(regions[i], groups, g)
    requires forall i, j :: 0 <= i < j < |regions| ==> LeftOf(regions[i], regions[j])
    requires Tight(box, part) && groups[g].low <= box.left && box.right <= groups[g].high
    ensures forall i :: 0 <= i < |regions + [box]| ==>
      Tight((regions + [box])[i], part) && Ends((regions + [box])[i], groups, g + 1)
    ensures forall i, j :: 0 <= i < j < |regions + [box]| ==> LeftOf((regions + [box])[i], (regions + [box])[j])
  {
    var all := regions + [box];
    forall i, j | 0 <= i < j < |all| ensures LeftOf(all[i], all[j]) {
      assert all[i] == regions[i] && Ends(regions[i], groups, g);
      assert j < |regions| ==> LeftOf(regions[i], regions[j]);
    }
  }

  lemma CoveredMore(c: Cell, regions: seq<Region>, more: seq<Region>)
    requires Covered(c, regions) || Covered(c, more)
    ensures Covered(c, regions + more)
  {
    if Covered(c, regions) {
      var k :| 0 <= k < |regions| && Inside(c, regions[k]);
      assert Inside(c, (regions + more)[k]);
    } else {
      var k :| 0 <= k < |more| && Inside(c, more[k]);
      assert Inside(c, (regions + more)[|regions| + k]);
    }
  }

  lemma LastColumn(part: seq<Cell>, groups: seq<Interval>, c: Cell)
    requires Groups(groups, Members(Cols(part)), 1) && c in part
    ensures |groups| > 0 && c.col <= groups[|groups| - 1].high
  {
    var i :| 0 <= i < |part| && part[i] == c;
    assert Cols(part)[i] in Members(Cols(part)) && InSome(c.col, groups);
    var k :| 0 <= k < |groups| && Within(c.col, groups[k]);
    if k < |groups| - 1 {
      assert groups[k].high + 2 < groups[|groups| - 1].low;
    }
  }

  lemma GroupNotEmpty(part: seq<Cell>, groups: seq<Interval>, g: nat)
    requires Groups(groups, Members(Cols(part)), 1) && g < |groups|
    ensures Columns(part, groups[g]) != []
  {
    assert groups[g].low in Members(Cols(part));
    var i :| 0 <= i < |part| && Cols(part)[i] == groups[g].low;
    assert part[i] in part && part[i] in Columns(part, groups[g]);
  }

  /** A column after the previous group and not after this one lies in this one. */
  lemma ColumnInGroup(part: seq<Cell>, groups: seq<Interval>, g: nat, c: Cell)
    requires Groups(groups, Members(Cols(part)), 1) && g < |groups| && c in part
    requires c.col <= groups[g].high && (g > 0 ==> c.col > groups[g - 1].high)
    ensures Within(c.col, groups[g])
  {
    var i :| 0 <= i < |part| && part[i] == c;
    assert Cols(part)[i] in Members(Cols(part)) && InSome(c.col, groups);
    var k :| 0 <= k < |groups| && Within(c.col, groups[k]);
    if k > g {
      assert groups[g].high + 2 < groups[k].low;
    } else if k < g - 1 {
      assert groups[k].high + 2 < groups[g - 1].low;
    }
  }

  lemma BoxInGroup(box: Region, inside: seq<Cell>, part: seq<Cell>, cols: Interval)
    requires Tight(box, inside) && inside == Columns(part, cols)
    ensures Tight(box, part) && cols.low <= box.left && box.right <= cols.high
  {
    var a :| a in inside && Inside(a, box) && a.row == box.top;
    var b :| b in inside && Inside(b, box) && b.row == box.bottom;
    var c :| c in inside && Inside(c, box) && c.col == box.left;
    var d :| d in inside && Inside(d, box) && d.col == box.right;
    assert a in part && b in part && c in part && d in part;
  }

  /** The state of the row loop, band by band. */
  ghost predicate RowsDone(cells: seq<Cell>, bands: seq<Interval>, b: nat, regions: seq<Region>)
    requires b <= |bands|
  {
    && (forall c :: c in cells && b > 0 && c.row <= bands[b - 1].high ==> Covered(c, regions))
    && (forall i :: 0 <= i < |regions| ==> Tight(regions[i], cells))
    && (forall i :: 0 <= i < |regions| ==> EndsAbove(regions[i], bands, b))
    && (forall i, j :: 0 <= i < j < |regions| ==> Apart(regions[i], regions[j]))
  }

  ghost predicate EndsAbove(r: Region, bands: seq<Interval>, b: nat)
    requires b <= |bands|
  {
    b > 0 && r.bottom <= bands[b - 1].high
  }

  /** The sheet's regions: bands of rows, then groups of columns within each band. */
  method DetectRegions(cells: seq<Cell>) returns (regions: seq<Region>)
    ensures Partitions(regions, cells) && forall i :: 0 <= i < |regions| ==> RunBox(regions[i], cells)
  {
    regions := [];
    var bands := GroupSorted(Rows(cells), 1);
    for b := 0 to |bands|
      invariant RowsDone(cells, bands, b, regions)
      invariant forall i :: 0 <= i < |regions| ==> RunBox(regions[i], cells)
    {
      var part := Band(cells, bands[b]);
      var found := BandRegions(part);
      BandStep(cells, bands, b, part, regions, found);
      BandBoxes(cells, bands, b, part, found);
      regions := regions + found;
    }
    forall c | c in cells ensures Covered(c, regions) {
      LastRow(cells, bands, c);
    }
  }

  lemma BandBoxes(cells: seq<Cell>, bands: seq<Interval>, b: nat, part: seq<Cell>, found: seq<Region>)
    requires Groups(bands, Members(Rows(cells)), 1) && b < |bands| && part == Band(cells, bands[b])
    requires Partitions(found, part) && ColBoxes(found, part)
    ensures forall i :: 0 <= i < |found| ==> RunBox(found[i], cells)
  {
    GroupIsMaxRun(bands, Members(Rows(cells)), 1, b);
    forall i | 0 <= i < |found| ensures RunBox(found[i], cells) {
      BoxInBand(found[i], part, cells, bands[b]);
      assert RunBoxOf(found[i], cells, bands[b]);
    }
  }

  lemma BandStep(
    cells: seq<Cell>, bands: seq<Interval>, b: nat, part: seq<Cell>, regions: seq<Region>, found: seq<Region>)
    requires Groups(bands, Members(Rows(cells)), 1) && b < |bands| && RowsDone(cells, bands, b, regions)
    requires part == Band(cells, bands[b]) && Partitions(found, part)
    ensures RowsDone(cells, bands, b + 1, regions + found)
  {
    forall i | 0 <= i < |found|
      ensures Tight(found[i], cells) && bands[b].low <= found[i].top && found[i].bottom <= bands[b].high
    {
      BoxInBand(found[i], part, cells, bands[b]);
    }
    forall c | c in cells && c.row <= bands[b].high ensures Covered(c, regions + found) {
      if !(b > 0 && c.row <= bands[b - 1].high) {
        RowInBand(cells, bands, b, c);
        assert c in part;
      }
      CoveredMore(c, regions, found);
    }
    assert b > 0 ==> bands[b - 1].high + 2 < bands[b].low;
    BoxesBelow(cells, bands, b, regions, found);
  }

  lemma BoxesBelow(cells: seq<Cell>, bands: seq<Interval>, b: nat, regions: seq<Region>, found: seq<Region>)
    requires b < |bands| && (b > 0 ==> bands[b - 1].high + 2 < bands[b].low <= bands[b].high)
    requires forall i :: 0 <= i < |regions| ==> Tight(regions[i], cells) && EndsAbove(regions[i], bands, b)
    requires forall i, j :: 0 <= i < j < |regions| ==> Apart(regions[i], regions[j])
    requires forall i, j :: 0 <= i < j < |found| ==> Apart(found[i], found[j])
    requires forall i :: 0 <= i < |found| ==>
               Tight(found[i], cells) && bands[b].low <= found[i].top && found[i].bottom <= bands[b].high
    ensures forall i :: 0 <= i < |regions + found| ==>
              Tight((regions + found)[i], cells) && EndsAbove((regions + found)[i], bands, b + 1)
    ensures forall i, j :: 0 <= i < j < |regions + found| ==> Apart((regions + found)[i], (regions + found)[j])
  {
    JoinApart(regions, found, if b > 0 then bands[b - 1].high else bands[b].low - 3, bands[b].low);
  }

  lemma JoinApart(regions: seq<Region>, found: seq<Region>, high: int, low: int)
    requires high + 2 < low
    requires forall i, j :: 0 <= i < j < |regions| ==> Apart(regions[i], regions[j])
    requires forall i, j :: 0 <= i < j < |found| ==> Apart(found[i], found[j])
    requires forall i :: 0 <= i < |regions| ==> regions[i].bottom <= high
    requires forall i :: 0 <= i < |found| ==> low <= found[i].top
    ensures forall i, j :: 0 <= i < j < |regions + found| ==> Apart((regions + found)[i], (regions + found)[j])
  {
    var all := regions + found;
    forall i, j | 0 <= i < j < |all| ensures Apart(all[i], all[j]) {
      if j < |regions| {
        assert Apart(regions[i], regions[j]);
      } else if i >= |regions| {
        assert Apart(found[i - |regions|], found[j - |regions|]);
      }
    }
  }

  lemma LastRow(cells: seq<Cell>, bands: seq<Interval>, c: Cell)
    requires Groups(bands, Members(Rows(cells)), 1) && c in cells
    ensures |bands| > 0 && c.row <= bands[|bands| - 1].high
  {
    var i :| 0 <= i < |cells| && cells[i] == c;
    assert Rows(cells)[i] in Members(Rows(cells)) && InSome(c.row, bands);
    var k :| 0 <= k < |bands| && Within(c.row, bands[k]);
    if k < |bands| - 1 {
      assert bands[k].high + 2 < bands[|bands| - 1].low;
    }
  }

  lemma RowInBand(cells: seq<Cell>, bands: seq<Interval>, b: nat, c: Cell)
    requires Groups(bands, Members(Rows(cells)), 1) && b < |bands| && c in cells
    requires c.row <= bands[b].high && (b > 0 ==> c.row > bands[b - 1].high)
    ensures Within(c.row, bands[b])
  {
    var i :| 0 <= i < |cells| && cells[i] == c;
    assert Rows(cells)[i] in Members(Rows(cells)) && InSome(c.row, bands);
    var k :| 0 <= k < |bands| && Within(c.row, bands[k]);
    if k > b {
      assert bands[b].high + 2 < bands[k].low;
    } else if k < b - 1 {
      assert bands[k].high + 2 < bands[b - 1].low;
    }
  }

  lemma BoxInBand(box: Region, part: seq<Cell>, cells: seq<Cell>, rows: Interval)
    requires Tight(box, part) && part == Band(cells, rows)
    ensures Tight(box, cells) && rows.low <= box.top && box.bottom <= rows.high
  {
    var a :| a in part && Inside(a, box) && a.row == box.top;
    var b :| b in part && Inside(b, box) && b.row == box.bottom;
    var c :| c in part && Inside(c, box) && c.col == box.left;
    var d :| d in part && Inside(d, box) && d.col == box.right;
    assert a in cells && b in cells && c in cells && d in cells;
  }

  // ---------- Counts ----------

  /** The per-region counter: cells of a chosen kind (all of them, or the formulas) inside a box. */
  function CountIn(cells: seq<Cell>, r: Region, kind: Cell -> bool): nat {
    if cells == [] then 0
    else CountIn(cells[..|cells| - 1], r, kind)
         + (if Inside(cells[|cells| - 1], r) && kind(cells[|cells| - 1]) then 1 else 0)
  }

  function Count(cells: seq<Cell>, kind: Cell -> bool): nat {
    if cells == [] then 0
    else Count(cells[..|cells| - 1], kind) + (if kind(cells[|cells| - 1]) then 1 else 0)
  }

  function SumCounts(regions: seq<Region>, cells: seq<Cell>, kind: Cell -> bool): nat {
    if regions == [] then 0
    else SumCounts(regions[..|regions| - 1], cells, kind) + CountIn(cells, regions[|regions| - 1], kind)
  }

  function Hits(regions: seq<Region>, c: Cell): nat {
    if regions == [] then 0
    else Hits(regions[..|regions| - 1], c) + (if Inside(c, regions[|regions| - 1]) then 1 else 0)
  }

  lemma {:induction false} NoHits(regions: seq<Region>, c: Cell)
    requires !Covered(c, regions)
    ensures Hits(regions, c) == 0
  {
    if regions != [] {
      var init := regions[..|regions| - 1];
      forall k | 0 <= k < |init| ensures !Inside(c, init[k]) {
        assert !Inside(c, regions[k]);
      }
      NoHits(init, c);
      assert !Inside(c, regions[|regions| - 1]);
    }
  }

  /** In separated regions a covered cell is hit exactly once. */
  lemma {:induction false} OneHit(regions: seq<Region>, c: Cell)
    requires Covered(c, regions) && forall i, j :: 0 <= i < j < |regions| ==> Apart(regions[i], regions[j])
    ensures Hits(regions, c) == 1
  {
    var init, last := regions[..|regions| - 1], |regions| - 1;
    var k :| 0 <= k < |regions| && Inside(c, regions[k]);
    if k == last {
      forall i | 0 <= i < |init| ensures !Inside(c, init[i]) {
        assert Apart(regions[i], regions[last]);
      }
      NoHits(init, c);
    } else {
      assert Inside(c, init[k]);
      assert Apart(regions[k], regions[last]);
      OneHit(init, c);
    }
  }

  lemma {:induction false} AddCell(regions: seq<Region>, cells: seq<Cell>, c: Cell, kind: Cell -> bool)
    ensures SumCounts(regions, cells + [c], kind) ==
      SumCounts(regions, cells, kind) + if kind(c) then Hits(regions, c) else 0
  {
    if regions != [] {
      AddCell(regions[..|regions| - 1], cells, c, kind);
      assert (cells + [c])[..|cells + [c]| - 1] == cells;
    }
  }

  lemma {:induction false} SumEmpty(regions: seq<Region>, kind: Cell -> bool)
    ensures SumCounts(regions, [], kind) == 0
  {
    if regions != [] {
      SumEmpty(regions[..|regions| - 1], kind);
    }
  }

  /** The per-region counts add up to the sheet's count, for the cells and for any kind of cell. */
  lemma {:induction false} CountsAddUp(regions: seq<Region>, cells: seq<Cell>, kind: Cell -> bool)
    requires forall c :: c in cells ==> Covered(c, regions)
    requires forall i, j :: 0 <= i < j < |regions| ==> Apart(regions[i], regions[j])
    ensures SumCounts(regions, cells, kind) == Count(cells, kind)
    decreases |cells|
  {
    if cells == [] {
      SumEmpty(regions, kind);
    } else {
      var init, c := cells[..|cells| - 1], cells[|cells| - 1];
      CountsAddUp(regions, init, kind);
      AddCell(regions, init, c, kind);
      assert cells == init + [c];
      OneHit(regions, c);
    }
  }
}
