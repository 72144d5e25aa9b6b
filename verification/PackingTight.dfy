/** How much a packing puts into each piece: as much as fits, and never less. */
module PackingTight {
  import opened Text
  import opened Packing

  // ---------- Where the pieces of a group stand ----------

  ghost predicate StandAt(some: seq<Piece>, all: seq<Piece>, at: nat) {
    at + |some| <= |all| && all[at..at + |some|] == some
  }

  lemma StandConcat(some: seq<Piece>, left: seq<Piece>, right: seq<Piece>, at: nat)
    requires StandAt(some, left, at) || (some == right && at == |left|)
    ensures StandAt(some, left + right, at)
  {
  }

  /** The group that a piece comes from, and where its pieces stand. */
  lemma {:induction false} PieceGroup(plan: seq<Group>, items: seq<Item>, kept: string, room: nat, p: Piece)
    returns (k: nat, at: nat)
    requires AllOk(plan, items, room) && p in Render(plan, items, kept, room)
    ensures k < |plan| && p in GroupPieces(plan[k], items, kept, room)
    ensures StandAt(GroupPieces(plan[k], items, kept, room), Render(plan, items, kept, room), at)
  {
    var m := |plan| - 1;
    var left, right := Render(plan[..m], items, kept, room), GroupPieces(plan[m], items, kept, room);
    if p in right {
      k, at := m, |left|;
    } else {
      k, at := PieceGroup(plan[..m], items, kept, room, p);
    }
    StandConcat(GroupPieces(plan[k], items, kept, room), left, right, at);
  }

  lemma PartsAreSeveral(item: Item, kept: string, room: nat, p: Piece)
    requires room >= 1 && |item.text| > room && Trimmed(item.text) && p in PartPieces(item, kept, room)
    ensures p.partCount != 1
  {
    PartsAreBounded(item.text, room);
  }

  /** A piece that is not a part of a longer text is a run of whole items. */
  lemma WholePiece(items: seq<Item>, plan: seq<Group>, kept: string, room: nat, p: Piece) returns (a: nat, n: nat)
    requires AllOk(plan, items, room) && Tidy(items) && p in Render(plan, items, kept, room) && p.partCount == 1
    ensures IsWholePiece(p, items, a, n, kept)
  {
    var k, i := PieceGroup(plan, items, kept, room, p);
    var g := plan[k];
    assert GroupOk(g, items, room);
    if g.Split? {
      PartsAreSeveral(items[g.at], kept, room, p);
      assert false;
    }
    a, n := g.from, g.to;
  }

  ghost predicate IsWholePiece(p: Piece, items: seq<Item>, a: nat, n: nat, kept: string) {
    && a < n <= |items| && p.start == items[a].number && p.end == items[n - 1].number
    && p.text == Wrap(kept, Join(items[a..n]))
  }

  // ---------- In terms of the limit and the prefix ----------

  /** The characters that the prefix and its newline take: none when fewer than 33 would be left. */
  function Taken(prefix: string, maxChars: int): nat {
    var p := Strip(prefix);
    if p == "" || |p| + 32 >= maxChars then 0 else |p| + 1
  }

  /** What stands in front of every piece. */
  function Head(prefix: string, maxChars: int): string {
    if Taken(prefix, maxChars) == 0 then "" else Strip(prefix) + "\n"
  }

  lemma RoomIsRest(prefix: string, maxChars: int)
    requires maxChars >= 32
    ensures Available(KeptPrefix(prefix, maxChars), maxChars) + Taken(prefix, maxChars) == maxChars
    ensures |Head(prefix, maxChars)| == Taken(prefix, maxChars)
    ensures forall body :: Wrap(KeptPrefix(prefix, maxChars), body) == Head(prefix, maxChars) + body
  {
  }

  /** Every piece, whole or part, has the prefix in front, unless the prefix takes too much. */
  lemma HeadLeads(items: seq<Item>, maxChars: int, prefix: string, pieces: seq<Piece>, p: Piece)
    requires maxChars >= 32 && IsPacked(items, maxChars, prefix, pieces) && p in pieces
    ensures Head(prefix, maxChars) <= p.text
  {
    var plan :| IsPacking(items, maxChars, prefix, plan, pieces);
    var kept := KeptPrefix(prefix, maxChars);
    var room := Available(kept, maxChars);
    RoomIsRest(prefix, maxChars);
    var k, at := PieceGroup(plan, Normalized(items), kept, room, p);
    WrappedPiece(plan[k], Normalized(items), kept, room, p);
  }

  lemma WrappedPiece(g: Group, items: seq<Item>, kept: string, room: nat, p: Piece)
    requires GroupOk(g, items, room) && p in GroupPieces(g, items, kept, room)
    ensures exists body :: p.text == Wrap(kept, body)
  {
    match g
    case Whole(a, n) => assert p.text == Wrap(kept, Join(items[a..n]));
    case Split(at) =>
      var j :| 0 <= j < |PartPieces(items[at], kept, room)| && p == PartPieces(items[at], kept, room)[j];
      assert p.text == Wrap(kept, Parts(items[at].text, room)[j]);
  }

  // ---------- An item that fits is not cut ----------

  lemma {:induction false} NormalizedHas(items: seq<Item>, item: Item)
    requires item in items && Strip(item.text) != ""
    ensures Item(item.number, Strip(item.text)) in Normalized(items)
  {
    var m := |items| - 1;
    if item != items[m] {
      assert item in items[..m];
      NormalizedHas(items[..m], item);
    }
  }

  lemma {:induction false} FromItem(items: seq<Item>, i: nat) returns (item: Item)
    requires i < |Normalized(items)|
    ensures item in items && Normalized(items)[i] == Item(item.number, Strip(item.text)) && Strip(item.text) != ""
  {
    var m := |items| - 1;
    if i < |Normalized(items[..m])| {
      item := FromItem(items[..m], i);
    } else {
      item := items[m];
    }
  }

  /** The group that covers an item. */
  lemma {:induction false} GroupOf(plan: seq<Group>, items: seq<Item>, n: nat, room: nat, i: nat) returns (k: nat)
    requires PlanOk(plan, items, n, room) && i < n
    ensures k < |plan| && plan[k].Start() <= i < plan[k].End()
    decreases |plan|
  {
    var m := |plan| - 1;
    PlanInit(plan, items, n, room);
    if i < plan[m].Start() {
      k := GroupOf(plan[..m], items, plan[m].Start(), room, i);
    } else {
      k := m;
    }
  }

  lemma {:induction false} GroupStands(plan: seq<Group>, items: seq<Item>, kept: string, room: nat, k: nat)
    returns (at: nat)
    requires AllOk(plan, items, room) && k < |plan|
    ensures StandAt(GroupPieces(plan[k], items, kept, room), Render(plan, items, kept, room), at)
  {
    var m := |plan| - 1;
    var left, right := Render(plan[..m], items, kept, room), GroupPieces(plan[m], items, kept, room);
    if k == m {
      at := |left|;
    } else {
      at := GroupStands(plan[..m], items, kept, room, k);
    }
    StandConcat(GroupPieces(plan[k], items, kept, room), left, right, at);
  }

  /** The item stands in the text as a block of whole lines. */
  predicate Holds(text: string, head: string, item: string, left: string, right: string) {
    && text == head + left + item + right
    && (left == "" || left[|left| - 1] == '\n') && (right == "" || right[0] == '\n')
  }

  lemma {:induction false} JoinAround(items: seq<Item>, i: nat) returns (left: string, right: string)
    requires i < |items|
    ensures Holds(Join(items), "", items[i].text, left, right)
  {
    var m := |items| - 1;
    if m == 0 {
      left, right := "", "";
    } else if i == m {
      left, right := Join(items[..m]) + "\n", "";
      HoldsLast(Join(items[..m]), items[m].text);
    } else {
      left, right := JoinAround(items[..m], i);
      HoldsMore(Join(items[..m]), items[i].text, left, right, items[m].text);
      right := right + "\n" + items[m].text;
    }
  }

  lemma HoldsLast(body: string, item: string)
    ensures Holds(body + "\n" + item, "", item, body + "\n", "")
  {
  }

  lemma HoldsMore(body: string, item: string, left: string, right: string, more: string)
    requires Holds(body, "", item, left, right)
    ensures Holds(body + "\n" + more, "", item, left, right + "\n" + more)
  {
    assert "" + left + item + right + "\n" + more == "" + left + item + (right + "\n" + more);
    assert right == "" ==> (right + "\n" + more)[0] == '\n';
  }

  /** An item that fits behind the prefix lies whole in one piece, in lines of its own. */
  lemma FittingItemIsWhole(items: seq<Item>, maxChars: int, prefix: string, pieces: seq<Piece>, item: Item)
    returns (p: Piece, left: string, right: string)
    requires maxChars >= 32 && IsPacked(items, maxChars, prefix, pieces)
    requires item in items && Strip(item.text) != "" && Taken(prefix, maxChars) + |Strip(item.text)| <= maxChars
    ensures p in pieces && p.partCount == 1
    ensures Holds(p.text, Head(prefix, maxChars), Strip(item.text), left, right)
  {
    var plan :| IsPacking(items, maxChars, prefix, plan, pieces);
    var kept, normal := KeptPrefix(prefix, maxChars), Normalized(items);
    RoomIsRest(prefix, maxChars);
    NormalizedHas(items, item);
    var i :| 0 <= i < |normal| && normal[i] == Item(item.number, Strip(item.text));
    var body;
    p, body, left, right := RunOfItem(plan, normal, kept, Available(kept, maxChars), i);
    HoldsBehind(Head(prefix, maxChars), body, Strip(item.text), left, right);
  }

  lemma HoldsBehind(head: string, body: string, item: string, left: string, right: string)
    requires Holds(body, "", item, left, right)
    ensures Holds(head + body, head, item, left, right)
  {
    assert "" + left == left;
    assert head + (left + item + right) == head + left + item + right;
  }

  lemma RunOfItem(plan: seq<Group>, items: seq<Item>, kept: string, room: nat, i: nat)
    returns (p: Piece, body: string, left: string, right: string)
    requires PlanOk(plan, items, |items|, room) && AllOk(plan, items, room)
    requires i < |items| && |items[i].text| <= room
    ensures p in Render(plan, items, kept, room) && p.partCount == 1
    ensures p.text == Wrap(kept, body) && Holds(body, "", items[i].text, left, right)
  {
    var k := GroupOf(plan, items, |items|, room, i);
    var at := GroupStands(plan, items, kept, room, k);
    FittingIsRun(plan[k], items, room, i);
    p := TheRun(plan[k], items, kept, room, Render(plan, items, kept, room), at);
    body, left, right := RunHolds(items, plan[k].from, plan[k].to, i, kept);
  }

  lemma FittingIsRun(g: Group, items: seq<Item>, room: nat, i: nat)
    requires GroupOk(g, items, room) && g.Start() <= i < g.End() && i < |items| && |items[i].text| <= room
    ensures g.Whole? && g.from <= i < g.to <= |items|
  {
  }

  lemma RunHolds(items: seq<Item>, a: nat, n: nat, i: nat, kept: string)
    returns (body: string, left: string, right: string)
    requires a <= i < n <= |items|
    ensures RunPiece(items[a..n], kept).text == Wrap(kept, body) && Holds(body, "", items[i].text, left, right)
  {
    body := Join(items[a..n]);
    left, right := JoinAround(items[a..n], i - a);
    assert items[a..n][i - a] == items[i];
  }

  lemma TheRun(g: Group, items: seq<Item>, kept: string, room: nat, pieces: seq<Piece>, at: nat) returns (p: Piece)
    requires GroupOk(g, items, room) && g.Whole? && StandAt(GroupPieces(g, items, kept, room), pieces, at)
    ensures p == RunPiece(items[g.from..g.to], kept) && p in pieces
  {
    p := RunPiece(items[g.from..g.to], kept);
    OneStands(p, pieces, at);
  }

  lemma OneStands(p: Piece, pieces: seq<Piece>, at: nat)
    requires StandAt([p], pieces, at)
    ensures at < |pieces| && pieces[at] == p
  {
    assert pieces[at..at + 1][0] == p;
  }

  // ---------- Neighbours could not be joined ----------

  lemma {:induction false} JoinStarts(items: seq<Item>)
    requires items != []
    ensures items[0].text <= Join(items)
  {
    var m := |items| - 1;
    if m > 0 {
      JoinStarts(items[..m]);
      PrefixOfMore(items[0].text, Join(items[..m]), "\n" + items[m].text);
      assert Join(items[..m]) + ("\n" + items[m].text) == Join(items[..m]) + "\n" + items[m].text;
    }
  }

  lemma PrefixOfMore(a: string, b: string, c: string)
    requires a <= b
    ensures a <= b + c
  {
  }

  /** A group with a piece that is no part is one run. */
  lemma OneRun(g: Group, items: seq<Item>, kept: string, room: nat, j: nat)
    requires GroupOk(g, items, room) && Tidy(items)
    requires j < |GroupPieces(g, items, kept, room)| && GroupPieces(g, items, kept, room)[j].partCount == 1
    ensures g.Whole? && j == 0 && GroupPieces(g, items, kept, room) == [RunPiece(items[g.from..g.to], kept)]
  {
    if g.Split? {
      PartsAreSeveral(items[g.at], kept, room, GroupPieces(g, items, kept, room)[j]);
      assert false;
    }
  }

  lemma GroupNotEmpty(g: Group, items: seq<Item>, kept: string, room: nat)
    requires GroupOk(g, items, room) && Tidy(items)
    ensures GroupPieces(g, items, kept, room) != []
  {
    if g.Split? {
      PartsAreBounded(items[g.at].text, room);
    }
  }

  lemma LastIsRun(plan: seq<Group>, items: seq<Item>, kept: string, room: nat)
    requires AllOk(plan, items, room) && Tidy(items)
    requires var pieces := Render(plan, items, kept, room); pieces != [] && pieces[|pieces| - 1].partCount == 1
    ensures plan != [] && var g, pieces := plan[|plan| - 1], Render(plan, items, kept, room);
      g.Whole? && g.from < g.to <= |items| && pieces[|pieces| - 1] == RunPiece(items[g.from..g.to], kept)
  {
    var m := |plan| - 1;
    var right := GroupPieces(plan[m], items, kept, room);
    GroupNotEmpty(plan[m], items, kept, room);
    OneRun(plan[m], items, kept, room, |right| - 1);
  }

  /** Piece `k + 1` begins with the item, which would not have fitted behind the body of piece `k`. */
  ghost predicate Opened(pieces: seq<Piece>, k: nat, item: Item, kept: string, body: string, room: nat)
    requires k + 1 < |pieces|
  {
    && pieces[k].text == Wrap(kept, body) && |body| + 1 + |item.text| > room
    && pieces[k + 1].start == item.number && Wrap(kept, item.text) <= pieces[k + 1].text
  }

  lemma OpenedCarries(
    left: seq<Piece>, right: seq<Piece>, k: nat, item: Item, kept: string, body: string, room: nat)
    requires k + 1 < |left| && Opened(left, k, item, kept, body, room)
    ensures Opened(left + right, k, item, kept, body, room)
  {
  }

  lemma RunStarts(items: seq<Item>, a: nat, n: nat, kept: string)
    requires a < n <= |items|
    ensures RunPiece(items[a..n], kept).start == items[a].number
    ensures Wrap(kept, items[a].text) <= RunPiece(items[a..n], kept).text
  {
    JoinStarts(items[a..n]);
  }

  /** Two neighbouring runs of a plan: what the first holds and the next item together exceed the room. */
  lemma {:induction false} NeighbourRuns(
    plan: seq<Group>, items: seq<Item>, n: nat, kept: string, room: nat, k: nat) returns (i: nat, body: string)
    requires PlanOk(plan, items, n, room) && AllOk(plan, items, room) && Tidy(items)
    requires var pieces := Render(plan, items, kept, room);
      k + 1 < |pieces| && pieces[k].partCount == 1 && pieces[k + 1].partCount == 1
    ensures i < |items| && Opened(Render(plan, items, kept, room), k, items[i], kept, body, room)
    decreases |plan|
  {
    var m := |plan| - 1;
    var init, g := plan[..m], plan[m];
    var left, right := Render(init, items, kept, room), GroupPieces(g, items, kept, room);
    PlanInit(plan, items, n, room);
    if k + 1 < |left| {
      i, body := NeighbourRuns(init, items, g.Start(), kept, room, k);
      OpenedCarries(left, right, k, items[i], kept, body, room);
    } else {
      OneRun(g, items, kept, room, k + 1 - |left|);
      LastIsRun(init, items, kept, room);
      i, body := RunsMeet(plan, items, room);
      RunStarts(items, g.from, g.to, kept);
    }
  }

  /** The last two groups, both runs: the first was closed because the next item did not fit. */
  lemma RunsMeet(plan: seq<Group>, items: seq<Item>, room: nat) returns (i: nat, body: string)
    requires |plan| >= 2 && PlaceOk(plan, |plan| - 1, items, room)
    requires plan[|plan| - 1].Whole? && plan[|plan| - 2].Whole?
    ensures var g, h := plan[|plan| - 1], plan[|plan| - 2];
      && h.from <= h.to <= |items| && i == g.from < |items| && body == Join(items[h.from..h.to])
      && |body| + 1 + |items[i].text| > room
  {
    i, body := plan[|plan| - 1].from, Join(items[plan[|plan| - 2].from..plan[|plan| - 2].to]);
  }

  /** Neighbouring pieces of whole items could not be joined, not even by one item: the first with a newline
      and the first item of the second is longer than the limit. */
  lemma NeighboursAreFull(items: seq<Item>, maxChars: int, prefix: string, pieces: seq<Piece>, k: nat)
    returns (item: Item)
    requires maxChars >= 32 && IsPacked(items, maxChars, prefix, pieces)
    requires k + 1 < |pieces| && pieces[k].partCount == 1 && pieces[k + 1].partCount == 1
    ensures item in items && pieces[k + 1].start == item.number
    ensures Head(prefix, maxChars) + Strip(item.text) <= pieces[k + 1].text
    ensures |pieces[k].text| + 1 + |Strip(item.text)| > maxChars
  {
    var plan :| IsPacking(items, maxChars, prefix, plan, pieces);
    var kept, normal := KeptPrefix(prefix, maxChars), Normalized(items);
    RoomIsRest(prefix, maxChars);
    NormalizedTrimmed(items);
    var i, body := NeighbourRuns(plan, normal, |normal|, kept, Available(kept, maxChars), k);
    item := FromItem(items, i);
  }
}
