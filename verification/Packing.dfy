/** Splitting over-long text and packing numbered items into bounded pieces. */
module Packing {
  import opened Text

  // ---------- Hard splitting ----------

  predicate IsBreak(c: char) { c == '\n' || c == ' ' }

  /** The larger of the two `rfind` results over `text[0:upTo + 1]`, or -1. */
  function LastBreak(text: string, upTo: int): (cut: int)
    requires -1 <= upTo < |text|
    ensures -1 <= cut <= upTo
  {
    if upTo < 0 then -1 else if IsBreak(text[upTo]) then upTo else LastBreak(text, upTo - 1)
  }

  function Cut(text: string, limit: nat): (cut: nat)
    requires 1 <= limit < |text|
    ensures 1 <= cut <= limit
  {
    var found := LastBreak(text, limit);
    if found < (if limit / 2 > 1 then limit / 2 else 1) then limit else found
  }

  lemma {:induction false} LastBreakIsLast(text: string, upTo: int)
    requires -1 <= upTo < |text|
    ensures var cut := LastBreak(text, upTo);
            (cut >= 0 ==> IsBreak(text[cut])) && forall i :: cut < i <= upTo ==> !IsBreak(text[i])
  {
    if upTo >= 0 && !IsBreak(text[upTo]) {
      LastBreakIsLast(text, upTo - 1);
    }
  }

  /** The cut falls at the last break of the window, if that lies in the window's second half; otherwise a
      word is cut in two at the limit. */
  lemma CutPrefersBreaks(text: string, limit: nat)
    requires 1 <= limit < |text|
    ensures var cut, low := Cut(text, limit), if limit / 2 > 1 then limit / 2 else 1;
      if exists i :: low <= i <= limit && (text[i] == '\n' || text[i] == ' ')
      then low <= cut <= limit && (text[cut] == '\n' || text[cut] == ' ')
           && forall i :: cut < i <= limit ==> text[i] != '\n' && text[i] != ' '
      else cut == limit
  {
    LastBreakIsLast(text, limit);
  }

  function Parts(text: string, limit: nat): seq<string>
    requires limit >= 1
    decreases |text|
  {
    if text == "" then []
    else if |text| <= limit then [text]
    else
      var cut := Cut(text, limit);
      [RStrip(text[..cut])] + Parts(LStrip(text[cut..]), limit)
  }

  method HardSplit(source: string, limit: nat) returns (pieces: seq<string>)
    requires limit >= 1
    ensures pieces == Parts(Strip(source), limit)
  {
    var text := Strip(source);
    pieces := [];
    if text == "" { return; }
    ghost var all := Parts(text, limit);
    while |text| > limit
      invariant pieces + Parts(text, limit) == all
      decreases |text|
    {
      var cut := Cut(text, limit);
      ghost var tail := Parts(LStrip(text[cut..]), limit);
      assert pieces + ([RStrip(text[..cut])] + tail) == pieces + [RStrip(text[..cut])] + tail;
      pieces := pieces + [RStrip(text[..cut])];
      text := LStrip(text[cut..]);
    }
    if text != "" {
      pieces := pieces + [text];
    }
  }

  /** One cut: both sides stay non-empty, and only white space is lost between them. */
  lemma CutStep(text: string, limit: nat)
    requires 1 <= limit < |text| && Trimmed(text)
    ensures var cut := Cut(text, limit);
            var head, rest := RStrip(text[..cut]), LStrip(text[cut..]);
            && 1 <= |head| <= limit && Trimmed(head)
            && rest != "" && Trimmed(rest) && |rest| < |text|
            && Solid(head) + Solid(rest) == Solid(text)
  {
    var cut := Cut(text, limit);
    var left, right := text[..cut], text[cut..];
    assert text == left + right;
    assert left[0] == text[0] && right[|right| - 1] == text[|text| - 1];
    RStripKeepsStart(left);
    LStripKeepsEnd(right);
    SolidAppend(left, right);
    SolidRStrip(left);
    SolidLStrip(right);
  }

  /** Splitting yields trimmed, non-empty parts within the limit, and loses white space only. */
  lemma {:induction false} PartsAreBounded(text: string, limit: nat)
    requires limit >= 1 && Trimmed(text)
    ensures forall p :: p in Parts(text, limit) ==> 1 <= |p| <= limit && Trimmed(p)
    ensures Solid(Flatten(Parts(text, limit))) == Solid(text)
    ensures |Parts(text, limit)| == 0 <==> text == ""
    ensures |Parts(text, limit)| > 1 <==> |text| > limit
    ensures |text| <= limit && text != "" ==> Parts(text, limit) == [text]
    decreases |text|
  {
    if |text| > limit {
      CutStep(text, limit);
      var cut := Cut(text, limit);
      var head, rest := RStrip(text[..cut]), LStrip(text[cut..]);
      PartsAreBounded(rest, limit);
      FlattenCons(head, Parts(rest, limit));
      SolidAppend(head, Flatten(Parts(rest, limit)));
    } else if text != "" {
      assert Flatten([text]) == text;
    }
  }

  lemma FlattenCons(head: string, tail: seq<string>)
    ensures Flatten([head] + tail) == head + Flatten(tail)
  {
    FlattenAppend([head], tail);
    assert Flatten([head]) == head;
  }

  // ---------- Packing ----------

  datatype Item = Item(number: int, text: string)

  datatype Piece = Piece(text: string, start: int, end: int, partIndex: nat, partCount: nat)

  /** The blank items dropped, the others stripped. */
  function Normalized(items: seq<Item>): seq<Item> {
    if items == [] then []
    else
      var last := items[|items| - 1];
      Normalized(items[..|items| - 1])
        + (if Strip(last.text) == "" then [] else [Item(last.number, Strip(last.text))])
  }

  lemma {:induction false} NormalizedTrimmed(items: seq<Item>)
    ensures forall i :: 0 <= i < |Normalized(items)| ==>
              Normalized(items)[i].text != "" && Trimmed(Normalized(items)[i].text)
  {
    if items != [] {
      NormalizedTrimmed(items[..|items| - 1]);
      StripTrims(items[|items| - 1].text);
    }
  }

  function KeptPrefix(prefix: string, maxChars: int): string {
    var p := Strip(prefix);
    if p != "" && |p| + 32 >= maxChars then "" else p
  }

  function Available(kept: string, maxChars: int): (n: nat)
    ensures n >= 32
  {
    var room := maxChars - |kept| - (if kept == "" then 0 else 1);
    if room < 32 then 32 else room
  }

  function Wrap(kept: string, body: string): string {
    if kept == "" then body else kept + "\n" + body
  }

  function Unwrap(kept: string, text: string): string {
    if kept == "" || |text| <= |kept| then text else text[|kept| + 1..]
  }

  function Join(items: seq<Item>): string {
    if items == [] then ""
    else if |items| == 1 then items[0].text
    else Join(items[..|items| - 1]) + "\n" + items[|items| - 1].text
  }

  // ---------- Plans: what a list of pieces means ----------

  /** A run of whole items packed into one piece, or one item split into parts. */
  datatype Group = Whole(from: nat, to: nat) | Split(at: nat) {
    function Start(): nat { if Whole? then from else at }
    function End(): nat { if Whole? then to else at + 1 }
  }

  ghost predicate GroupOk(g: Group, items: seq<Item>, room: nat) {
    && room >= 1
    && match g
       case Whole(a, n) =>
         a < n <= |items| && |Join(items[a..n])| <= room && forall i :: a <= i < n ==> |items[i].text| <= room
       case Split(at) => at < |items| && |items[at].text| > room
  }

  /** Groups in order, without gap or overlap, covering exactly the first `n` items; a run is only
      closed when the next item would not have fitted. */
  ghost predicate PlanOk(plan: seq<Group>, items: seq<Item>, n: nat, room: nat) {
    && n == EndBefore(plan, |plan|)
    && forall i :: 0 <= i < |plan| ==> PlaceOk(plan, i, items, room)
  }

  ghost predicate PlaceOk(plan: seq<Group>, i: nat, items: seq<Item>, room: nat)
    requires i < |plan|
  {
    && GroupOk(plan[i], items, room)
    && plan[i].Start() == EndBefore(plan, i)
    && ClosedBefore(plan, i, items, room)
  }

  function EndBefore(plan: seq<Group>, i: nat): nat
    requires i <= |plan|
  {
    if i == 0 then 0 else plan[i - 1].End()
  }

  ghost predicate ClosedBefore(plan: seq<Group>, i: nat, items: seq<Item>, room: nat)
    requires i < |plan|
  {
    i == 0 || plan[i].Split? || plan[i - 1].Split? ||
    (plan[i - 1].from <= plan[i - 1].to <= |items| && plan[i].from < |items| &&
     |Join(items[plan[i - 1].from..plan[i - 1].to])| + 1 + |items[plan[i].from].text| > room)
  }

  /** The pieces of an over-long item, numbered 1..count. */
  function PartPieces(item: Item, kept: string, room: nat): (r: seq<Piece>)
    requires room >= 1
    ensures |r| == |Parts(item.text, room)|
  {
    var parts := Parts(item.text, room);
    seq(|parts|, j requires 0 <= j < |parts| =>
      Piece(Wrap(kept, parts[j]), item.number, item.number, j + 1, |parts|))
  }

  /** The one piece of a run of whole items. */
  function RunPiece(run: seq<Item>, kept: string): Piece
    requires run != []
  {
    Piece(Wrap(kept, Join(run)), run[0].number, run[|run| - 1].number, 1, 1)
  }

  ghost function GroupPieces(g: Group, items: seq<Item>, kept: string, room: nat): seq<Piece>
    requires GroupOk(g, items, room)
  {
    match g
    case Whole(a, n) => [RunPiece(items[a..n], kept)]
    case Split(at) => PartPieces(items[at], kept, room)
  }

  ghost predicate AllOk(plan: seq<Group>, items: seq<Item>, room: nat) {
    forall i :: 0 <= i < |plan| ==> GroupOk(plan[i], items, room)
  }

  ghost function Render(plan: seq<Group>, items: seq<Item>, kept: string, room: nat): seq<Piece>
    requires AllOk(plan, items, room)
  {
    if plan == [] then []
    else Render(plan[..|plan| - 1], items, kept, room) + GroupPieces(plan[|plan| - 1], items, kept, room)
  }

  lemma RenderSnoc(plan: seq<Group>, g: Group, items: seq<Item>, kept: string, room: nat)
    requires AllOk(plan, items, room) && GroupOk(g, items, room)
    ensures AllOk(plan + [g], items, room)
    ensures Render(plan + [g], items, kept, room) == Render(plan, items, kept, room) + GroupPieces(g, items, kept, room)
  {
    assert (plan + [g])[..|plan + [g]| - 1] == plan;
  }

  lemma PlanSnoc(plan: seq<Group>, g: Group, items: seq<Item>, n: nat, room: nat)
    requires PlanOk(plan, items, n, room) && GroupOk(g, items, room) && g.Start() == n
    requires g.Whole? ==> Opens(plan, items, g.from, room)
    ensures PlanOk(plan + [g], items, g.End(), room)
  {
    var all := plan + [g];
    forall i | 0 <= i < |all| ensures PlaceOk(all, i, items, room) {
      if i < |plan| {
        assert PlaceOk(plan, i, items, room);
      } else if i > 0 {
        assert PlaceOk(plan, i - 1, items, room);
      }
    }
  }

  lemma PlanInit(plan: seq<Group>, items: seq<Item>, n: nat, room: nat)
    requires PlanOk(plan, items, n, room) && plan != []
    ensures PlanOk(plan[..|plan| - 1], items, plan[|plan| - 1].Start(), room)
    ensures GroupOk(plan[|plan| - 1], items, room) && plan[|plan| - 1].End() == n
  {
    var init := plan[..|plan| - 1];
    assert PlaceOk(plan, |plan| - 1, items, room);
    forall i | 0 <= i < |init| ensures PlaceOk(init, i, items, room) {
      assert PlaceOk(plan, i, items, room);
    }
  }

  // ---------- The packing loop ----------

  /** The plan of the finished pieces after `n` items, and the run still open. */
  ghost predicate Packed(plan: seq<Group>, current: seq<Item>, items: seq<Item>, n: nat, room: nat) {
    && |current| <= n <= |items| && current == items[n - |current|..n]
    && PlanOk(plan, items, n - |current|, room) && AllOk(plan, items, room)
    && (current != [] ==> RunOk(items[n - |current|..n], room) && Opens(plan, items, n - |current|, room))
  }

  ghost predicate RunOk(run: seq<Item>, room: nat) {
    |Join(run)| <= room && forall i :: 0 <= i < |run| ==> |run[i].text| <= room
  }

  /** Item `a` may open a new run after these groups. */
  ghost predicate Opens(plan: seq<Group>, items: seq<Item>, a: nat, room: nat)
    requires a < |items|
  {
    AfterParts(plan) ||
    (var last := plan[|plan| - 1];
     last.from <= last.to <= |items| && |Join(items[last.from..last.to])| + 1 + |items[a].text| > room)
  }

  ghost predicate AfterParts(plan: seq<Group>) {
    plan == [] || plan[|plan| - 1].Split?
  }

  method PackNumberedItems(items: seq<Item>, maxChars: int, prefix: string)
    returns (pieces: seq<Piece>)
    ensures IsPacked(items, maxChars, prefix, pieces)
  {
    ghost var plan;
    pieces, plan := PackByPlan(items, maxChars, prefix);
  }

  /** The loop, with the plan that its pieces follow. */
  method PackByPlan(items: seq<Item>, maxChars: int, prefix: string)
    returns (pieces: seq<Piece>, ghost plan: seq<Group>)
    ensures IsPacking(items, maxChars, prefix, plan, pieces)
  {
    var normalized := Normalized(items);
    pieces, plan := [], [];
    if normalized == [] { return; }
    NormalizedTrimmed(items);
    var kept := KeptPrefix(prefix, maxChars);
    var room := Available(kept, maxChars);
    var current: seq<Item> := [];
    for n := 0 to |normalized|
      invariant Packed(plan, current, normalized, n, room)
      invariant pieces == Render(plan, normalized, kept, room)
      invariant current == [] ==> AfterParts(plan)
    {
      assert normalized[n].text != "" && Trimmed(normalized[n].text);
      pieces, current, plan := PackOne(pieces, current, normalized[n], plan, normalized, n, kept, room);
    }
    pieces, plan := Finish(pieces, current, plan, normalized, |normalized|, kept, room);
  }

  /** The body of the packing loop. */
  method PackOne(
    pieces: seq<Piece>, current: seq<Item>, item: Item,
    ghost plan: seq<Group>, ghost items: seq<Item>, ghost n: nat, kept: string, room: nat)
    returns (r: seq<Piece>, open: seq<Item>, ghost plan': seq<Group>)
    requires Packed(plan, current, items, n, room) && n < |items| && item == items[n]
    requires pieces == Render(plan, items, kept, room)
    requires item.text != "" && Trimmed(item.text) && room >= 1
    requires current == [] ==> AfterParts(plan)
    ensures Packed(plan', open, items, n + 1, room)
    ensures r == Render(plan', items, kept, room)
    ensures open == [] ==> AfterParts(plan')
  {
    var splitItems := HardSplit(item.text, room);
    StripTrims(item.text);
    PartsAreBounded(item.text, room);
    r, plan' := pieces, plan;
    if |splitItems| > 1 {
      r, plan' := Finish(pieces, current, plan, items, n, kept, room);
      r, plan' := EmitParts(r, splitItems, item, plan', items, n, kept, room);
      open := [];
    } else if current != [] && |Join(current + [item])| > room {
      r, plan' := Finish(pieces, current, plan, items, n, kept, room);
      OpenRun(plan', items, n, room);
      open := [item];
    } else {
      if current == [] {
        OpenRun(plan, items, n, room);
      } else {
        ExtendRun(plan, current, items, n, room);
      }
      open := current + [item];
    }
  }

  /** One piece for each part of an over-long item. */
  method EmitParts(
    pieces: seq<Piece>, splitItems: seq<string>, item: Item,
    ghost plan: seq<Group>, ghost items: seq<Item>, ghost n: nat, kept: string, room: nat)
    returns (r: seq<Piece>, ghost plan': seq<Group>)
    requires Packed(plan, [], items, n, room) && n < |items| && item == items[n]
    requires pieces == Render(plan, items, kept, room)
    requires room >= 1 && splitItems == Parts(item.text, room) && |item.text| > room
    ensures Packed(plan', [], items, n + 1, room) && AfterParts(plan')
    ensures r == Render(plan', items, kept, room)
  {
    PlanSnoc(plan, Split(n), items, n, room);
    RenderSnoc(plan, Split(n), items, kept, room);
    plan' := plan + [Split(n)];
    r := EmitPieces(pieces, splitItems, item, kept, room);
  }

  method EmitPieces(pieces: seq<Piece>, splitItems: seq<string>, item: Item, kept: string, room: nat)
    returns (r: seq<Piece>)
    requires room >= 1 && splitItems == Parts(item.text, room)
    ensures r == pieces + PartPieces(item, kept, room)
  {
    ghost var emitted := PartPieces(item, kept, room);
    r := pieces;
    for k := 0 to |splitItems|
      invariant r == pieces + emitted[..k]
    {
      assert emitted[k] == Piece(Wrap(kept, splitItems[k]), item.number, item.number, k + 1, |splitItems|);
      r := r + [Piece(Wrap(kept, splitItems[k]), item.number, item.number, k + 1, |splitItems|)];
      assert emitted[..k + 1] == emitted[..k] + [emitted[k]];
    }
    assert emitted[..|splitItems|] == emitted;
  }

  /** An item that fits opens a run. */
  lemma OpenRun(plan: seq<Group>, items: seq<Item>, n: nat, room: nat)
    requires Packed(plan, [], items, n, room) && n < |items|
    requires |items[n].text| <= room && Opens(plan, items, n, room)
    ensures Packed(plan, [items[n]], items, n + 1, room)
  {
    assert items[n..n + 1] == [items[n]];
  }

  /** An item that fits is added to the open run. */
  lemma ExtendRun(plan: seq<Group>, current: seq<Item>, items: seq<Item>, n: nat, room: nat)
    requires Packed(plan, current, items, n, room) && n < |items| && current != []
    requires |items[n].text| <= room && |Join(current + [items[n]])| <= room
    ensures Packed(plan, current + [items[n]], items, n + 1, room)
  {
    assert items[n - |current|..n + 1] == current + [items[n]];
  }

  /** `finish()`: close the current run, if there is one. */
  method Finish(
    pieces: seq<Piece>, current: seq<Item>,
    ghost plan: seq<Group>, ghost items: seq<Item>, ghost n: nat, kept: string, room: nat)
    returns (r: seq<Piece>, ghost plan': seq<Group>)
    requires Packed(plan, current, items, n, room) && room >= 1
    requires pieces == Render(plan, items, kept, room)
    ensures Packed(plan', [], items, n, room)
    ensures r == Render(plan', items, kept, room)
    ensures current != [] && n < |items| && |Join(current + [items[n]])| > room ==> Opens(plan', items, n, room)
  {
    if current == [] { return pieces, plan; }
    RunGroup(plan, current, items, n, kept, room);
    if n < |items| && |Join(current + [items[n]])| > room {
      FullRunOpens(plan, current, items, n, room);
    }
    r := pieces + [RunPiece(current, kept)];
    plan' := plan + [Whole(n - |current|, n)];
  }

  /** The open run, closed, is the next group of the plan. */
  lemma RunGroup(plan: seq<Group>, current: seq<Item>, items: seq<Item>, n: nat, kept: string, room: nat)
    requires 0 < |current| <= n <= |items| && room >= 1 && current == items[n - |current|..n] && RunOk(current, room)
    requires PlanOk(plan, items, n - |current|, room) && AllOk(plan, items, room)
    requires Opens(plan, items, n - |current|, room)
    ensures var plan' := plan + [Whole(n - |current|, n)];
      && PlanOk(plan', items, n, room) && AllOk(plan', items, room)
      && Render(plan', items, kept, room) == Render(plan, items, kept, room) + [RunPiece(current, kept)]
  {
    var a := n - |current|;
    RunIsGroup(items, a, n, room);
    PlanSnoc(plan, Whole(a, n), items, a, room);
    RenderSnoc(plan, Whole(a, n), items, kept, room);
  }

  /** After a run that the next item does not fit, that item may open a new one. */
  lemma FullRunOpens(plan: seq<Group>, current: seq<Item>, items: seq<Item>, n: nat, room: nat)
    requires 0 < |current| <= n < |items| && current == items[n - |current|..n] && |Join(current + [items[n]])| > room
    ensures Opens(plan + [Whole(n - |current|, n)], items, n, room)
  {
    JoinSnoc(current, items[n]);
  }

  lemma RunIsGroup(items: seq<Item>, a: nat, n: nat, room: nat)
    requires a < n <= |items| && room >= 1 && RunOk(items[a..n], room)
    ensures GroupOk(Whole(a, n), items, room)
  {
    forall i | a <= i < n ensures |items[i].text| <= room {
      assert items[a..n][i - a] == items[i];
    }
  }

  /** The pieces are a packing of the caller's items. */
  ghost predicate IsPacked(items: seq<Item>, maxChars: int, prefix: string, pieces: seq<Piece>) {
    exists plan :: IsPacking(items, maxChars, prefix, plan, pieces)
  }

  /** `pieces` render a plan that covers the caller's items. */
  ghost predicate IsPacking(items: seq<Item>, maxChars: int, prefix: string, plan: seq<Group>, pieces: seq<Piece>) {
    var kept := KeptPrefix(prefix, maxChars);
    var room := Available(kept, maxChars);
    && PlanOk(plan, Normalized(items), |Normalized(items)|, room) && AllOk(plan, Normalized(items), room)
    && pieces == Render(plan, Normalized(items), kept, room)
  }

  lemma UnwrapWrap(kept: string, body: string)
    ensures Unwrap(kept, Wrap(kept, body)) == body
  {
  }

  lemma JoinSnoc(items: seq<Item>, item: Item)
    ensures Join(items + [item]) == if items == [] then item.text else Join(items) + "\n" + item.text
  {
    assert (items + [item])[..|items + [item]| - 1] == items;
  }

  // ---------- The plan is determined by the items ----------

  lemma {:induction false} JoinGrows(items: seq<Item>, m: nat)
    requires m <= |items|
    ensures |Join(items[..m])| <= |Join(items)|
    ensures 0 < m < |items| ==> |Join(items[..m])| + 1 + |items[m].text| <= |Join(items)|
    decreases |items|
  {
    if m == |items| {
      assert items[..m] == items;
    } else {
      var init, last := items[..|items| - 1], items[|items| - 1];
      JoinSnoc(init, last);
      assert items == init + [last] && init[..m] == items[..m];
      JoinGrows(init, m);
    }
  }

  lemma {:induction false} EndsBelow(plan: seq<Group>, items: seq<Item>, n: nat, room: nat, i: nat)
    requires PlanOk(plan, items, n, room) && i <= |plan|
    ensures EndBefore(plan, i) <= n && (i < |plan| ==> EndBefore(plan, i) < plan[i].End() <= n)
    decreases |plan| - i
  {
    if i < |plan| {
      assert PlaceOk(plan, i, items, room);
      EndsBelow(plan, items, n, room, i + 1);
    }
  }

  /** A run that ends earlier than another run from the same start was closed without need. */
  lemma RunsEndTogether(p: seq<Group>, q: seq<Group>, items: seq<Item>, n: nat, room: nat, k: nat)
    requires PlanOk(p, items, n, room) && PlanOk(q, items, n, room) && k < |p| && k < |q|
    requires p[k].Whole? && q[k].Whole? && p[k].from == q[k].from
    ensures p[k].to >= q[k].to
  {
    var a, m, e := p[k].from, p[k].to, q[k].to;
    assert PlaceOk(p, k, items, room) && PlaceOk(q, k, items, room);
    EndsBelow(q, items, n, room, k);
    if m < e {
      assert k + 1 < |p|;
      assert PlaceOk(p, k + 1, items, room);
      assert p[k + 1].Start() == m;
      RunGrows(items, a, m, e);
    }
  }

  lemma RunGrows(items: seq<Item>, a: nat, m: nat, e: nat)
    requires a < m < e <= |items|
    ensures |Join(items[a..m])| + 1 + |items[m].text| <= |Join(items[a..e])|
  {
    JoinGrows(items[a..e], m - a);
    assert items[a..e][..m - a] == items[a..m] && items[a..e][m - a] == items[m];
  }

  lemma {:induction false} PlansAgree(p: seq<Group>, q: seq<Group>, items: seq<Item>, n: nat, room: nat, k: nat)
    requires PlanOk(p, items, n, room) && PlanOk(q, items, n, room) && k <= |p| && k <= |q|
    ensures p[..k] == q[..k]
  {
    if k > 0 {
      PlansAgree(p, q, items, n, room, k - 1);
      assert PlaceOk(p, k - 1, items, room) && PlaceOk(q, k - 1, items, room);
      assert k > 1 ==> p[..k - 1][k - 2] == q[..k - 1][k - 2];
      assert p[k - 1].Start() == q[k - 1].Start();
      if p[k - 1].Whole? && q[k - 1].Whole? {
        RunsEndTogether(p, q, items, n, room, k - 1);
        RunsEndTogether(q, p, items, n, room, k - 1);
      }
      assert p[k - 1] == q[k - 1];
      assert p[..k] == p[..k - 1] + [p[k - 1]] && q[..k] == q[..k - 1] + [q[k - 1]];
    }
  }

  /** The contract of packing admits exactly one result. */
  lemma PackingIsUnique(items: seq<Item>, maxChars: int, prefix: string, pieces: seq<Piece>, pieces': seq<Piece>)
    requires IsPacked(items, maxChars, prefix, pieces) && IsPacked(items, maxChars, prefix, pieces')
    ensures pieces == pieces'
  {
    var plan :| IsPacking(items, maxChars, prefix, plan, pieces);
    var plan' :| IsPacking(items, maxChars, prefix, plan', pieces');
    PlanIsUnique(items, maxChars, prefix, plan, pieces, plan', pieces');
  }

  lemma PlanIsUnique(
    items: seq<Item>, maxChars: int, prefix: string,
    plan: seq<Group>, pieces: seq<Piece>, plan': seq<Group>, pieces': seq<Piece>)
    requires IsPacking(items, maxChars, prefix, plan, pieces) && IsPacking(items, maxChars, prefix, plan', pieces')
    ensures plan == plan' && pieces == pieces'
  {
    var normal := Normalized(items);
    var room, k := Available(KeptPrefix(prefix, maxChars), maxChars), if |plan| <= |plan'| then |plan| else |plan'|;
    PlansAgree(plan, plan', normal, |normal|, room, k);
    EndsBelow(plan, normal, |normal|, room, k);
    EndsBelow(plan', normal, |normal|, room, k);
    assert k > 0 ==> plan[..k][k - 1] == plan'[..k][k - 1];
    assert plan[..k] == plan'[..k];
    assert |plan| == |plan'| == k;
    assert plan == plan[..k] && plan' == plan'[..k];
  }

  // ---------- What a packing guarantees ----------

  ghost predicate Tidy(items: seq<Item>) {
    forall i :: 0 <= i < |items| ==> items[i].text != "" && Trimmed(items[i].text)
  }

  function Overhead(kept: string): nat {
    if kept == "" then 0 else |kept| + 1
  }

  lemma GroupFits(g: Group, items: seq<Item>, kept: string, room: nat)
    requires GroupOk(g, items, room) && Tidy(items)
    ensures forall p :: p in GroupPieces(g, items, kept, room) ==> |p.text| <= Overhead(kept) + room
  {
    if g.Split? {
      var parts := Parts(items[g.at].text, room);
      PartsAreBounded(items[g.at].text, room);
      forall p | p in PartPieces(items[g.at], kept, room) ensures |p.text| <= Overhead(kept) + room {
        var j :| 0 <= j < |parts| && p == PartPieces(items[g.at], kept, room)[j];
        assert parts[j] in parts;
      }
    }
  }

  lemma {:induction false} PiecesFit(plan: seq<Group>, items: seq<Item>, kept: string, room: nat)
    requires Tidy(items) && AllOk(plan, items, room)
    ensures forall p :: p in Render(plan, items, kept, room) ==> |p.text| <= Overhead(kept) + room
  {
    if plan != [] {
      PiecesFit(plan[..|plan| - 1], items, kept, room);
      GroupFits(plan[|plan| - 1], items, kept, room);
    }
  }

  ghost predicate Bounded(pieces: seq<Piece>, maxChars: int) {
    forall p :: p in pieces ==> |p.text| <= maxChars
  }

  /** Every piece, prefix included, keeps to `maxChars` for all inputs exactly when `maxChars` is at least 32. */
  lemma BoundHoldsIff(maxChars: int)
    ensures maxChars >= 32 <==>
            forall items, prefix, pieces :: IsPacked(items, maxChars, prefix, pieces) ==> Bounded(pieces, maxChars)
  {
    if maxChars >= 32 {
      forall items, prefix, pieces | IsPacked(items, maxChars, prefix, pieces) ensures Bounded(pieces, maxChars) {
        var plan :| IsPacking(items, maxChars, prefix, plan, pieces);
        NormalizedTrimmed(items);
        var kept := KeptPrefix(prefix, maxChars);
        PiecesFit(plan, Normalized(items), kept, Available(kept, maxChars));
      }
    } else {
      TooSmall(maxChars);
    }
  }

  /** Below 32 a single unbroken item of 32 characters is kept whole. */
  lemma TooSmall(maxChars: int)
    requires maxChars < 32
    ensures exists items, prefix, pieces :: IsPacked(items, maxChars, prefix, pieces) && !Bounded(pieces, maxChars)
  {
    var text := seq(32, _ => 'x');
    var items, plan, pieces := [Item(1, text)], [Whole(0, 1)], [Piece(text, 1, 1, 1, 1)];
    StripTrims(text);
    assert Normalized(items) == items by {
      assert items[..|items| - 1] == [];
      assert Normalized([]) == [];
    }
    assert KeptPrefix("", maxChars) == "" && Available("", maxChars) == 32;
    assert items[0..1] == items && Join(items) == text;
    RenderSnoc([], Whole(0, 1), items, "", 32);
    assert [] + [Whole(0, 1)] == plan;
    assert Render(plan, items, "", 32) == pieces;
    assert IsPacking(items, maxChars, "", plan, pieces);
    assert IsPacked(items, maxChars, "", pieces);
    assert pieces[0] in pieces && !Bounded(pieces, maxChars);
  }

  // ---------- Nothing is lost ----------

  function Bodies(pieces: seq<Piece>, kept: string): (r: seq<string>)
    ensures |r| == |pieces|
  {
    seq(|pieces|, i requires 0 <= i < |pieces| => Unwrap(kept, pieces[i].text))
  }

  function Texts(items: seq<Item>): (r: seq<string>)
    ensures |r| == |items|
  {
    seq(|items|, i requires 0 <= i < |items| => items[i].text)
  }

  /** The characters other than white space of several texts run together. */
  function Content(ss: seq<string>): string {
    Solid(Flatten(ss))
  }

  lemma ContentAppend(a: seq<string>, b: seq<string>)
    ensures Content(a + b) == Content(a) + Content(b)
  {
    FlattenAppend(a, b);
    SolidAppend(Flatten(a), Flatten(b));
  }

  lemma ContentOne(s: string)
    ensures Content([s]) == Solid(s)
  {
    FlattenCons(s, []);
    assert [s] + [] == [s];
    assert s + Flatten([]) == s;
  }

  lemma {:induction false} SolidJoin(items: seq<Item>)
    ensures Solid(Join(items)) == Content(Texts(items))
  {
    if items == [] {
      assert Texts(items) == [];
    } else {
      var init, last := items[..|items| - 1], items[|items| - 1];
      SolidJoin(init);
      TextsSnoc(init, last);
      assert items == init + [last];
      JoinSnoc(init, last);
      if init == [] {
        assert Texts(init) == [];
      } else {
        assert "\n" == ['\n'];
        SolidAcross(Join(init), '\n', last.text);
      }
    }
  }

  lemma SolidAcross(a: string, c: char, b: string)
    requires IsSpace(c)
    ensures Solid(a + [c] + b) == Solid(a) + Solid(b)
  {
    SolidAppend(a + [c], b);
    SolidAppend(a, [c]);
    SolidSpace(c);
  }

  lemma TextsSnoc(init: seq<Item>, last: Item)
    ensures Content(Texts(init + [last])) == Content(Texts(init)) + Solid(last.text)
  {
    assert Texts(init + [last]) == Texts(init) + [last.text];
    ContentAppend(Texts(init), [last.text]);
    ContentOne(last.text);
  }

  lemma PartBodies(item: Item, kept: string, room: nat)
    requires room >= 1 && Trimmed(item.text)
    ensures Content(Bodies(PartPieces(item, kept, room), kept)) == Solid(item.text)
  {
    var parts := Parts(item.text, room);
    forall j | 0 <= j < |parts| ensures Unwrap(kept, PartPieces(item, kept, room)[j].text) == parts[j] {
      UnwrapWrap(kept, parts[j]);
    }
    assert Bodies(PartPieces(item, kept, room), kept) == parts;
    PartsAreBounded(item.text, room);
  }

  lemma WholeBody(items: seq<Item>, kept: string, a: nat, n: nat, p: Piece)
    requires a < n <= |items| && p.text == Wrap(kept, Join(items[a..n]))
    ensures Content(Bodies([p], kept)) == Content(Texts(items[a..n]))
  {
    UnwrapWrap(kept, Join(items[a..n]));
    assert Bodies([p], kept) == [Join(items[a..n])];
    ContentOne(Join(items[a..n]));
    SolidJoin(items[a..n]);
  }

  lemma SplitBody(items: seq<Item>, kept: string, room: nat, at: nat)
    requires at < |items| && room >= 1 && Trimmed(items[at].text)
    ensures Content(Bodies(PartPieces(items[at], kept, room), kept)) == Content(Texts(items[at..at + 1]))
  {
    PartBodies(items[at], kept, room);
    assert Texts(items[at..at + 1]) == [items[at].text];
    ContentOne(items[at].text);
  }

  lemma GroupBodies(g: Group, items: seq<Item>, kept: string, room: nat)
    requires GroupOk(g, items, room) && Tidy(items)
    ensures Content(Bodies(GroupPieces(g, items, kept, room), kept)) == Content(Texts(items[g.Start()..g.End()]))
  {
    match g
    case Whole(a, n) =>
      WholeBody(items, kept, a, n, RunPiece(items[a..n], kept));
    case Split(at) =>
      SplitBody(items, kept, room, at);
  }

  /** Dropping the prefixes and all white space gives back the items' characters, in order. */
  lemma {:induction false} PlanIsLossless(plan: seq<Group>, items: seq<Item>, n: nat, kept: string, room: nat)
    requires PlanOk(plan, items, n, room) && AllOk(plan, items, room) && Tidy(items) && n <= |items|
    ensures Content(Bodies(Render(plan, items, kept, room), kept)) == Content(Texts(items[..n]))
    decreases |plan|
  {
    if plan == [] {
      assert Texts(items[..n]) == [] && Bodies(Render(plan, items, kept, room), kept) == [];
    } else {
      var init, g := plan[..|plan| - 1], plan[|plan| - 1];
      PlanInit(plan, items, n, room);
      PlanIsLossless(init, items, g.Start(), kept, room);
      GroupBodies(g, items, kept, room);
      ContentStep(Render(init, items, kept, room), GroupPieces(g, items, kept, room), items, g.Start(), n, kept);
    }
  }

  lemma ContentStep(left: seq<Piece>, right: seq<Piece>, items: seq<Item>, a: nat, n: nat, kept: string)
    requires a <= n <= |items|
    requires Content(Bodies(left, kept)) == Content(Texts(items[..a]))
    requires Content(Bodies(right, kept)) == Content(Texts(items[a..n]))
    ensures Content(Bodies(left + right, kept)) == Content(Texts(items[..n]))
  {
    BodiesSplit(left, right, kept);
    TextsSplit(items, a, n);
  }

  lemma BodiesSplit(left: seq<Piece>, right: seq<Piece>, kept: string)
    ensures Content(Bodies(left + right, kept)) == Content(Bodies(left, kept)) + Content(Bodies(right, kept))
  {
    assert Bodies(left + right, kept) == Bodies(left, kept) + Bodies(right, kept);
    ContentAppend(Bodies(left, kept), Bodies(right, kept));
  }

  lemma TextsSplit(items: seq<Item>, a: nat, n: nat)
    requires a <= n <= |items|
    ensures Content(Texts(items[..n])) == Content(Texts(items[..a])) + Content(Texts(items[a..n]))
  {
    assert Texts(items[..n]) == Texts(items[..a]) + Texts(items[a..n]);
    ContentAppend(Texts(items[..a]), Texts(items[a..n]));
  }

  lemma {:induction false} NormalizingIsLossless(items: seq<Item>)
    ensures Content(Texts(Normalized(items))) == Content(Texts(items))
  {
    if items == [] {
      assert Texts(Normalized(items)) == [] && Texts(items) == [];
    } else {
      var init, last := items[..|items| - 1], items[|items| - 1];
      NormalizingIsLossless(init);
      TextsSnoc(init, last);
      assert items == init + [last];
      SolidStrip(last.text);
      if Strip(last.text) != "" {
        TextsSnoc(Normalized(init), Item(last.number, Strip(last.text)));
      } else {
        assert Normalized(items) == Normalized(init) && Solid("") == "";
      }
    }
  }

  /** The same against the caller's own items, blank and unstripped ones included. */
  lemma PackingKeepsEveryCharacter(items: seq<Item>, maxChars: int, prefix: string, pieces: seq<Piece>)
    requires IsPacked(items, maxChars, prefix, pieces)
    ensures Content(Bodies(pieces, KeptPrefix(prefix, maxChars))) == Content(Texts(items))
  {
    var plan :| IsPacking(items, maxChars, prefix, plan, pieces);
    var kept, normal := KeptPrefix(prefix, maxChars), Normalized(items);
    NormalizedTrimmed(items);
    PlanIsLossless(plan, normal, |normal|, kept, Available(kept, maxChars));
    assert normal[..|normal|] == normal;
    NormalizingIsLossless(items);
  }

  // ---------- Provenance ranges ----------

  ghost predicate Increasing(items: seq<Item>) {
    forall i, j :: 0 <= i < j < |items| ==> Before(items, i, j)
  }

  ghost predicate Before(items: seq<Item>, i: nat, j: nat)
    requires i < j < |items|
  {
    items[i].number < items[j].number
  }

  ghost predicate InOrder(p: Piece, q: Piece) {
    || p.end < q.start
    || (p.end == q.start == p.start == q.end && p.partCount == q.partCount > 1 && p.partIndex < q.partIndex)
  }

  /** The pieces of one stretch of items: their ranges lie in it and follow one another. */
  ghost predicate Ranged(pieces: seq<Piece>, low: int, high: int) {
    && (forall i :: 0 <= i < |pieces| ==> low <= pieces[i].start <= pieces[i].end <= high)
    && (forall i, j :: 0 <= i < j < |pieces| ==> InOrder(pieces[i], pieces[j]))
  }

  lemma GroupRanges(g: Group, items: seq<Item>, kept: string, room: nat)
    requires GroupOk(g, items, room) && Increasing(items)
    ensures Ranged(GroupPieces(g, items, kept, room), items[g.Start()].number, items[g.End() - 1].number)
  {
    match g
    case Whole(a, n) => assert a < n - 1 ==> Before(items, a, n - 1);
    case Split(at) => PartRanges(items[at], kept, room);
  }

  lemma PartRanges(item: Item, kept: string, room: nat)
    requires room >= 1
    ensures Ranged(PartPieces(item, kept, room), item.number, item.number)
  {
  }

  lemma RangesConcat(left: seq<Piece>, right: seq<Piece>, low: int, mid: int, mid': int, high: int)
    requires Ranged(left, low, mid) && Ranged(right, mid', high) && low <= mid < mid' <= high
    ensures Ranged(left + right, low, high)
  {
    var all := left + right;
    forall i, j | 0 <= i < j < |all| ensures InOrder(all[i], all[j]) {
      if j < |left| {
        assert InOrder(left[i], left[j]);
      } else if i >= |left| {
        assert InOrder(right[i - |left|], right[j - |left|]);
      } else {
        assert left[i].end <= mid && right[j - |left|].start >= mid';
      }
    }
  }

  /** Well-formed ranges inside the first `n` items that follow one another. */
  ghost predicate RangesUpTo(pieces: seq<Piece>, items: seq<Item>, n: nat) {
    0 < n <= |items| && Ranged(pieces, items[0].number, items[n - 1].number)
  }

  lemma RangesStep(left: seq<Piece>, g: Group, items: seq<Item>, kept: string, room: nat)
    requires GroupOk(g, items, room) && Increasing(items) && RangesUpTo(left, items, g.Start())
    ensures RangesUpTo(left + GroupPieces(g, items, kept, room), items, g.End())
  {
    GroupRanges(g, items, kept, room);
    assert Before(items, g.Start() - 1, g.Start());
    assert g.Start() > 1 ==> Before(items, 0, g.Start() - 1);
    assert g.Start() < g.End() - 1 ==> Before(items, g.Start(), g.End() - 1);
    var low, mid := items[0].number, items[g.Start() - 1].number;
    var mid', high := items[g.Start()].number, items[g.End() - 1].number;
    RangesConcat(left, GroupPieces(g, items, kept, room), low, mid, mid', high);
  }

  lemma RangesOne(g: Group, items: seq<Item>, kept: string, room: nat)
    requires GroupOk(g, items, room) && Increasing(items) && g.Start() == 0
    ensures AllOk([g], items, room) && RangesUpTo(Render([g], items, kept, room), items, g.End())
  {
    RenderOne(g, items, kept, room);
    GroupRanges(g, items, kept, room);
  }

  lemma RenderOne(g: Group, items: seq<Item>, kept: string, room: nat)
    requires GroupOk(g, items, room)
    ensures AllOk([g], items, room) && Render([g], items, kept, room) == GroupPieces(g, items, kept, room)
  {
    RenderSnoc([], g, items, kept, room);
    assert [] + [g] == [g] && Render([], items, kept, room) == [];
  }

  /** Ranges are well-formed and follow one another; two pieces share a source number only as successive
      parts of one item. */
  lemma {:induction false} RangesFollow(plan: seq<Group>, items: seq<Item>, n: nat, kept: string, room: nat)
    requires PlanOk(plan, items, n, room) && AllOk(plan, items, room) && Increasing(items) && plan != []
    ensures RangesUpTo(Render(plan, items, kept, room), items, n)
    decreases |plan|
  {
    PlanInit(plan, items, n, room);
    var init, g := plan[..|plan| - 1], plan[|plan| - 1];
    if init == [] {
      assert plan == [g];
      RangesOne(g, items, kept, room);
    } else {
      RangesFollow(init, items, g.Start(), kept, room);
      RangesStep(Render(init, items, kept, room), g, items, kept, room);
    }
  }

  lemma {:induction false} NormalizedIncreasing(items: seq<Item>)
    requires Increasing(items)
    ensures Increasing(Normalized(items))
    ensures forall i :: 0 <= i < |Normalized(items)| ==>
      items != [] && items[0].number <= Normalized(items)[i].number <= items[|items| - 1].number
  {
    if items != [] {
      var init, last := items[..|items| - 1], items[|items| - 1];
      forall i, j | 0 <= i < j < |init| ensures Before(init, i, j) {
        assert Before(items, i, j);
      }
      NormalizedIncreasing(init);
      if init != [] {
        assert Before(items, |init| - 1, |init|) && Before(items, 0, |init|);
        assert init[0] == items[0];
      }
      var before, after := Normalized(init), Normalized(items);
      forall i, j | 0 <= i < j < |after| ensures Before(after, i, j) {
        if j < |before| {
          assert Before(before, i, j);
        }
      }
    }
  }

  /** The ranges of the caller's own items: increasing line or row numbers give ranges in order. */
  lemma PackingRangesFollow(items: seq<Item>, maxChars: int, prefix: string, pieces: seq<Piece>)
    requires IsPacked(items, maxChars, prefix, pieces) && Increasing(items)
    ensures forall i, j :: 0 <= i < j < |pieces| ==> InOrder(pieces[i], pieces[j])
    ensures forall i :: 0 <= i < |pieces| ==>
      items != [] && items[0].number <= pieces[i].start <= pieces[i].end <= items[|items| - 1].number
  {
    var plan :| IsPacking(items, maxChars, prefix, plan, pieces);
    if plan != [] {
      NormalizedIncreasing(items);
      var normal, kept := Normalized(items), KeptPrefix(prefix, maxChars);
      RangesFollow(plan, normal, |normal|, kept, Available(kept, maxChars));
    }
  }
}
