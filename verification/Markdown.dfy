/** Cutting a Markdown file into sections at its headings. Headings and fences follow the ideas of the
    CommonMark specification, sections 4.2 and 4.5, with the looser rules of the program. */
module Markdown {
  import opened Options
  import opened Text

  // ---------- One line ----------

  function Run(s: string, c: char): (n: nat)
    ensures n <= |s| && (forall i :: 0 <= i < n ==> s[i] == c)
    ensures n < |s| ==> s[n] != c
  {
    if s == "" || s[0] != c then 0 else 1 + Run(s[1..], c)
  }

  datatype Fence = Fence(mark: char, length: nat)

  /** Three or more backticks or tildes at the start, whatever follows them. */
  function FenceOf(line: string): Option<Fence> {
    var s := LStrip(line);
    if Run(s, '`') >= 3 then Some(Fence('`', Run(s, '`')))
    else if Run(s, '~') >= 3 then Some(Fence('~', Run(s, '~')))
    else None
  }

  datatype Heading = Heading(level: nat, text: string)

  function BlankRun(s: string): (n: nat)
    ensures n <= |s|
  {
    if s == "" || (s[0] != ' ' && s[0] != '\t') then 0 else 1 + BlankRun(s[1..])
  }

  /** White space, closing hashes, white space: what may follow a heading's text. */
  predicate Closing(s: string) {
    var t := LStrip(s);
    LStrip(t[Run(t, '#')..]) == ""
  }

  predicate ClosesFrom(body: string, m: nat)
    requires m <= |body|
  {
    Closing(body[m..])
  }

  /** The shortest non-empty prefix that leaves only a closing sequence. */
  function TextLength(body: string, k: nat): (n: nat)
    requires k <= |body|
    ensures k <= n <= |body| && ClosesFrom(body, n)
    ensures forall m :: k <= m < n ==> !ClosesFrom(body, m)
    decreases |body| - k
  {
    assert body[|body|..] == "";
    if ClosesFrom(body, k) then k else TextLength(body, k + 1)
  }

  /** One to six hashes, at least one blank, then at least one more character. */
  function HeadingOf(line: string): (r: Option<Heading>)
    ensures r.Some? ==> 1 <= r.value.level <= 6
  {
    var s := LStrip(line);
    var level := Run(s, '#');
    var rest := s[level..];
    var blanks := BlankRun(rest);
    if 1 <= level <= 6 && blanks >= 1 && |rest| >= 2 then
      var body := if blanks < |rest| then rest[blanks..] else rest[|rest| - 1..];
      Some(Heading(level, Strip(body[..TextLength(body, 1)])))
    else None
  }

  // ---------- The outline of a file ----------

  /** What one line looks like on its own. */
  datatype Mark = Mark(fence: Option<Fence>, heading: Option<Heading>)

  function MarkOf(line: string): (m: Mark)
    ensures m.heading.Some? ==> 1 <= m.heading.value.level <= 6
  {
    Mark(FenceOf(line), HeadingOf(line))
  }

  function MarksOf(lines: seq<string>): (r: seq<Mark>)
    ensures |r| == |lines|
  {
    seq(|lines|, i requires 0 <= i < |lines| => MarkOf(lines[i]))
  }

  /** A fence is closed by a run of its own mark that is at least as long. */
  function NextFence(open: Option<Fence>, here: Option<Fence>): Option<Fence> {
    if open.None? then here
    else if here.Some? && here.value.mark == open.value.mark && here.value.length >= open.value.length then None
    else open
  }

  /** The fence that is open after the first `n` lines. */
  function FenceAfter(marks: seq<Mark>, n: nat): Option<Fence>
    requires n <= |marks|
  {
    if n == 0 then None else NextFence(FenceAfter(marks, n - 1), marks[n - 1].fence)
  }

  /** A line counts as a heading unless it is fenced or opens a fence. */
  function HeadGiven(open: Option<Fence>, m: Mark): Option<Heading> {
    if open.None? && m.fence.None? then m.heading else None
  }

  type Heads = seq<Option<Heading>>

  /** The headings among the first `n` lines, at their places. */
  function HeadsUpTo(marks: seq<Mark>, n: nat): (r: Heads)
    requires n <= |marks|
    ensures |r| == n
  {
    if n == 0 then [] else HeadsUpTo(marks, n - 1) + [HeadGiven(FenceAfter(marks, n - 1), marks[n - 1])]
  }

  lemma {:induction false} HeadsAt(marks: seq<Mark>, n: nat, i: nat)
    requires i < n <= |marks|
    ensures HeadsUpTo(marks, n)[i] == HeadGiven(FenceAfter(marks, i), marks[i])
  {
    if i < n - 1 {
      HeadsAt(marks, n - 1, i);
    }
  }

  function HeadsOf(lines: seq<string>): (r: Heads)
    ensures |r| == |lines| && LevelsOk(r)
  {
    MarksAreLevelled(lines);
    HeadsUpTo(MarksOf(lines), |lines|)
  }

  lemma MarksAreLevelled(lines: seq<string>)
    ensures LevelsOk(HeadsUpTo(MarksOf(lines), |lines|))
  {
    var marks := MarksOf(lines);
    forall i | 0 <= i < |marks| && HeadsUpTo(marks, |marks|)[i].Some?
      ensures 1 <= HeadsUpTo(marks, |marks|)[i].value.level <= 6
    {
      HeadsAt(marks, |marks|, i);
      assert marks[i] == MarkOf(lines[i]);
    }
  }

  predicate LevelsOk(heads: Heads) {
    forall i :: 0 <= i < |heads| && heads[i].Some? ==> 1 <= heads[i].value.level <= 6
  }

  /** The last heading of level `level` or higher rank among the first `n` lines. */
  function LastWithin(heads: Heads, n: nat, level: nat): (r: Option<nat>)
    requires n <= |heads|
    ensures r.Some? ==> r.value < n && heads[r.value].Some? && heads[r.value].value.level <= level
    ensures forall i :: (if r.Some? then r.value + 1 else 0) <= i < n && heads[i].Some? ==> heads[i].value.level > level
  {
    if n == 0 then None
    else if heads[n - 1].Some? && heads[n - 1].value.level <= level then Some(n - 1)
    else LastWithin(heads, n - 1, level)
  }

  /** The outline entry in force at a level: its own heading, or a placeholder when a higher heading
      came later or there is none. */
  function Label(heads: Heads, n: nat, level: nat): string
    requires n <= |heads|
  {
    var h := LastWithin(heads, n, level);
    if h.Some? && heads[h.value].value.level == level then heads[h.value].value.text else "untitled"
  }

  function PathFrom(heads: Heads, title: string, a: nat): seq<string>
    requires a < |heads| && LevelsOk(heads)
  {
    if heads[a].None? then [title, "preamble"]
    else
      var h := heads[a].value;
      [title] + seq(h.level - 1, j requires 0 <= j < h.level - 1 => Label(heads, a, j + 1)) + [h.text]
  }

  // ---------- Sections ----------

  datatype Section = Section(path: seq<string>, items: seq<(nat, string)>)

  /** Lines `a..b` with their numbers, counted from 1. */
  function Numbered(lines: seq<string>, a: nat, b: nat): seq<(nat, string)>
    requires a <= b <= |lines|
  {
    seq(b - a, i requires 0 <= i < b - a => (a + i + 1, lines[a + i]))
  }

  ghost predicate SectionAt(s: Section, lines: seq<string>, heads: Heads, title: string, a: nat, b: nat)
    requires |heads| == |lines| && LevelsOk(heads)
  {
    && a < b <= |lines|
    && s == Section(PathFrom(heads, title, a), Numbered(lines, a, b))
    && (a > 0 ==> heads[a].Some?)
    && (forall i :: a < i < b ==> heads[i].None?)
  }

  /** The sections cut the first `n` lines exactly at the headings; `cuts` are the places of the cuts. */
  ghost predicate Covers(
    sections: seq<Section>, cuts: seq<nat>, lines: seq<string>, heads: Heads, title: string, n: nat)
    requires |heads| == |lines| && LevelsOk(heads)
  {
    && |cuts| == |sections| + 1 && cuts[0] == 0 && cuts[|sections|] == n
    && forall k :: 0 <= k < |sections| ==> SectionK(sections, cuts, lines, heads, title, k)
  }

  ghost predicate SectionK(
    sections: seq<Section>, cuts: seq<nat>, lines: seq<string>, heads: Heads, title: string, k: nat)
    requires |heads| == |lines| && LevelsOk(heads) && k < |sections| && |cuts| == |sections| + 1
  {
    SectionAt(sections[k], lines, heads, title, cuts[k], cuts[k + 1])
  }

  ghost predicate StackOk(stack: seq<string>, heads: Heads, n: nat)
    requires n <= |heads|
  {
    && (match LastWithin(heads, n, 6)
        case None => stack == []
        case Some(h) => |stack| == heads[h].value.level)
    && (forall j :: 0 <= j < |stack| ==> stack[j] == Label(heads, n, j + 1))
  }

  /** The loop's state after `n` lines. */
  ghost predicate Scanned(
    sections: seq<Section>, cuts: seq<nat>, stack: seq<string>, path: seq<string>, items: seq<(nat, string)>,
    lines: seq<string>, heads: Heads, title: string, n: nat)
    requires |heads| == |lines| && LevelsOk(heads) && n <= |lines|
  {
    && |items| <= n && Covers(sections, cuts, lines, heads, title, n - |items|)
    && (if n == 0 then path == [title, "preamble"]
        else SectionAt(Section(path, items), lines, heads, title, n - |items|, n))
    && StackOk(stack, heads, n)
  }

  /** The sections cut the whole file exactly at its headings. */
  ghost predicate IsSectioning(sections: seq<Section>, lines: seq<string>, title: string) {
    exists cuts :: Covers(sections, cuts, lines, HeadsOf(lines), title, |lines|)
  }

  method MarkdownSections(lines: seq<string>, title: string) returns (sections: seq<Section>)
    ensures IsSectioning(sections, lines, title)
  {
    ghost var cuts;
    HeadsAreOutline(lines);
    sections, cuts := CutSections(lines, title, MarksOf(lines), HeadsOf(lines));
  }

  /** The loop, with the places of its cuts. */
  method CutSections(lines: seq<string>, title: string, ghost marks: seq<Mark>, ghost heads: Heads)
    returns (sections: seq<Section>, ghost cuts: seq<nat>)
    requires |marks| == |heads| == |lines| && LevelsOk(heads) && IsOutline(marks, heads, lines)
    ensures Covers(sections, cuts, lines, heads, title, |lines|)
  {
    var scan := Scan([], [], [title, "preamble"], [], None);
    cuts := [0];
    ScanStarts(lines, marks, heads, title);
    for n := 0 to |lines|
      invariant InScan(scan, cuts, lines, marks, heads, title, n)
    {
      scan, cuts := TakeLine(scan, lines, title, n, cuts, marks, heads);
    }
    sections, cuts := CloseScan(scan, cuts, lines, marks, heads, title);
  }

  /** The loop's variables: finished sections, heading stack, path and lines of the open section, open fence. */
  datatype Scan = Scan(sections: seq<Section>, stack: seq<string>, path: seq<string>, items: seq<(nat, string)>,
                       open: Option<Fence>)

  ghost predicate InScan(scan: Scan, cuts: seq<nat>, lines: seq<string>, marks: seq<Mark>, heads: Heads, title: string,
                         n: nat)
    requires |marks| == |heads| == |lines| && LevelsOk(heads) && n <= |lines|
  {
    match scan
    case Scan(sections, stack, path, items, open) =>
      open == FenceAfter(marks, n) && Scanned(sections, cuts, stack, path, items, lines, heads, title, n)
  }

  /** The loop body: one line of the file. */
  method TakeLine(scan: Scan, lines: seq<string>, title: string, n: nat, ghost cuts: seq<nat>, ghost marks: seq<Mark>,
                  ghost heads: Heads)
    returns (scan': Scan, ghost cuts': seq<nat>)
    requires |marks| == |heads| == |lines| && LevelsOk(heads) && IsOutline(marks, heads, lines) && n < |lines|
    requires InScan(scan, cuts, lines, marks, heads, title, n)
    ensures InScan(scan', cuts', lines, marks, heads, title, n + 1)
  {
    var open, head := NextLine(scan.open, lines, n, marks, heads);
    var sections, stack, path, items;
    sections, stack, path, items, cuts' :=
      Take(scan.sections, scan.stack, scan.path, scan.items, head, lines[n], cuts, lines, heads, title, n);
    scan' := Scan(sections, stack, path, items, open);
  }

  method CloseScan(
    scan: Scan, ghost cuts: seq<nat>, ghost lines: seq<string>, ghost marks: seq<Mark>, ghost heads: Heads,
    ghost title: string)
    returns (sections: seq<Section>, ghost cuts': seq<nat>)
    requires |marks| == |heads| == |lines| && LevelsOk(heads) && InScan(scan, cuts, lines, marks, heads, title, |lines|)
    ensures Covers(sections, cuts', lines, heads, title, |lines|)
  {
    sections, cuts' := Close(scan.sections, scan.path, scan.items, cuts, lines, heads, title, |lines|, scan.stack);
  }

  method NextLine(open: Option<Fence>, lines: seq<string>, n: nat, ghost marks: seq<Mark>, ghost heads: Heads)
    returns (open': Option<Fence>, head: Option<Heading>)
    requires |marks| == |heads| == |lines| && n < |lines|
    requires IsOutline(marks, heads, lines) && open == FenceAfter(marks, n)
    ensures open' == FenceAfter(marks, n + 1) && head == heads[n]
  {
    assert OutlineAt(marks, heads, lines, n);
    open', head := Classify(open, lines[n]);
  }

  /** Line by line, the fence and the heading that the loop sees are those of the whole file. */
  ghost predicate IsOutline(marks: seq<Mark>, heads: Heads, lines: seq<string>)
    requires |marks| == |heads| == |lines|
  {
    forall n :: 0 <= n < |lines| ==> OutlineAt(marks, heads, lines, n)
  }

  ghost predicate OutlineAt(marks: seq<Mark>, heads: Heads, lines: seq<string>, n: nat)
    requires n < |marks| == |heads| == |lines|
  {
    marks[n] == MarkOf(lines[n]) && heads[n] == HeadGiven(FenceAfter(marks, n), marks[n])
  }

  lemma HeadsAreOutline(lines: seq<string>)
    ensures IsOutline(MarksOf(lines), HeadsOf(lines), lines)
  {
    forall n | 0 <= n < |lines| ensures OutlineAt(MarksOf(lines), HeadsOf(lines), lines, n) {
      HeadsAt(MarksOf(lines), |lines|, n);
    }
  }

  lemma ScanStarts(lines: seq<string>, marks: seq<Mark>, heads: Heads, title: string)
    requires |marks| == |heads| == |lines| && LevelsOk(heads)
    ensures InScan(Scan([], [], [title, "preamble"], [], None), [0], lines, marks, heads, title, 0)
  {
  }

  /** The fence bookkeeping of one line, and the heading it is if no fence claims it. */
  method Classify(open: Option<Fence>, line: string) returns (open': Option<Fence>, head: Option<Heading>)
    ensures open' == NextFence(open, MarkOf(line).fence) && head == HeadGiven(open, MarkOf(line))
  {
    var fence := FenceOf(line);
    open', head := open, None;
    if open.Some? {
      if fence.Some? && fence.value.mark == open.value.mark && fence.value.length >= open.value.length {
        open' := None;
      }
    } else if fence.Some? {
      open' := fence;
    } else {
      head := HeadingOf(line);
    }
  }

  /** `finish()`: the open section, if it has lines, is complete. */
  method Close(
    sections: seq<Section>, path: seq<string>, items: seq<(nat, string)>, ghost cuts: seq<nat>,
    ghost lines: seq<string>, ghost heads: Heads, ghost title: string, ghost n: nat, ghost stack: seq<string>)
    returns (r: seq<Section>, ghost cuts': seq<nat>)
    requires |heads| == |lines| && LevelsOk(heads) && n <= |lines|
    requires Scanned(sections, cuts, stack, path, items, lines, heads, title, n)
    ensures Covers(r, cuts', lines, heads, title, n)
  {
    r, cuts' := sections, cuts;
    if items != [] {
      CoversSnoc(sections, cuts, Section(path, items), lines, heads, title, n - |items|, n);
      r, cuts' := r + [Section(path, items)], cuts + [n];
    }
  }

  lemma CoversSnoc(
    sections: seq<Section>, cuts: seq<nat>, last: Section, lines: seq<string>, heads: Heads, title: string,
    a: nat, n: nat)
    requires |heads| == |lines| && LevelsOk(heads)
    requires Covers(sections, cuts, lines, heads, title, a) && SectionAt(last, lines, heads, title, a, n)
    ensures Covers(sections + [last], cuts + [n], lines, heads, title, n)
  {
    var r, cuts' := sections + [last], cuts + [n];
    forall k | 0 <= k < |r| ensures SectionK(r, cuts', lines, heads, title, k) {
      if k < |sections| {
        assert SectionK(sections, cuts, lines, heads, title, k);
      }
    }
  }

  /** One line, already told apart: extend the open section, or start the next one. */
  method Take(
    sections: seq<Section>, stack: seq<string>, path: seq<string>, items: seq<(nat, string)>,
    head: Option<Heading>, line: string, ghost cuts: seq<nat>,
    ghost lines: seq<string>, ghost heads: Heads, title: string, n: nat)
    returns (
      r: seq<Section>, stack': seq<string>, path': seq<string>, items': seq<(nat, string)>,
      ghost cuts': seq<nat>)
    requires |heads| == |lines| && LevelsOk(heads) && n < |lines|
    requires head == heads[n] && line == lines[n]
    requires Scanned(sections, cuts, stack, path, items, lines, heads, title, n)
    ensures Scanned(r, cuts', stack', path', items', lines, heads, title, n + 1)
  {
    if head.None? {
      PlainLine(path, items, lines, heads, title, n);
      PlainStack(stack, heads, n);
      return sections, stack, path, items + [(n + 1, line)], cuts;
    }
    r, cuts' := Close(sections, path, items, cuts, lines, heads, title, n, stack);
    stack' := PushStack(stack, head.value);
    HeadingLine(stack, lines, heads, title, n);
    path', items' := [title] + stack', [(n + 1, line)];
  }

  method PushStack(stack: seq<string>, h: Heading) returns (r: seq<string>)
    requires h.level >= 1
    ensures r == Pushed(stack, h)
  {
    r := if |stack| >= h.level - 1 then stack[..h.level - 1] else stack;
    while |r| < h.level - 1
      invariant |Cut(stack, h)| <= |r| <= h.level - 1
      invariant r == Cut(stack, h) + seq(|r| - |Cut(stack, h)|, _ => "untitled")
    {
      r := r + ["untitled"];
    }
    r := r + [h.text];
  }

  // ---------- The loop's steps ----------

  function Cut(stack: seq<string>, h: Heading): (r: seq<string>)
    requires h.level >= 1
    ensures |r| <= h.level - 1
  {
    if |stack| >= h.level - 1 then stack[..h.level - 1] else stack
  }

  /** The stack cut to the levels above the heading, padded, with its text on top. */
  function Pushed(stack: seq<string>, h: Heading): (r: seq<string>)
    requires h.level >= 1
    ensures |r| == h.level
  {
    Cut(stack, h) + seq(h.level - 1 - |Cut(stack, h)|, _ => "untitled") + [h.text]
  }

  lemma PlainLine(path: seq<string>, items: seq<(nat, string)>, lines: seq<string>, heads: Heads, title: string, n: nat)
    requires |heads| == |lines| && LevelsOk(heads) && n < |lines| && heads[n].None? && |items| <= n
    requires if n == 0 then path == [title, "preamble"]
             else SectionAt(Section(path, items), lines, heads, title, n - |items|, n)
    ensures SectionAt(Section(path, items + [(n + 1, lines[n])]), lines, heads, title, n - |items|, n + 1)
  {
    assert items + [(n + 1, lines[n])] == Numbered(lines, n - |items|, n + 1);
  }

  lemma PlainStack(stack: seq<string>, heads: Heads, n: nat)
    requires n < |heads| && heads[n].None? && StackOk(stack, heads, n)
    ensures StackOk(stack, heads, n + 1)
  {
    assert LastWithin(heads, n + 1, 6) == LastWithin(heads, n, 6);
    forall j | 0 <= j < |stack| ensures stack[j] == Label(heads, n + 1, j + 1) {
      assert LastWithin(heads, n + 1, j + 1) == LastWithin(heads, n, j + 1);
    }
  }

  lemma {:induction false} LastCovers(heads: Heads, n: nat, level: nat)
    requires n <= |heads| && level <= 6 && LevelsOk(heads)
    ensures var top := LastWithin(heads, n, 6);
            && (top.None? ==> LastWithin(heads, n, level).None?)
            && (top.Some? && heads[top.value].value.level <= level ==> LastWithin(heads, n, level) == top)
  {
    if n > 0 && heads[n - 1].None? {
      LastCovers(heads, n - 1, level);
    }
  }

  /** Levels that the stack does not reach are unlabelled. */
  lemma BeyondStack(stack: seq<string>, heads: Heads, n: nat, j: nat)
    requires n <= |heads| && LevelsOk(heads) && StackOk(stack, heads, n) && |stack| < j <= 6
    ensures Label(heads, n, j) == "untitled"
  {
    LastCovers(heads, n, j);
  }

  /** Cutting the stack, padding it and pushing the text gives the outline after the heading. */
  lemma PushHeading(stack: seq<string>, heads: Heads, n: nat)
    requires n < |heads| && LevelsOk(heads) && heads[n].Some? && StackOk(stack, heads, n)
    ensures var h := heads[n].value;
      && StackOk(Pushed(stack, h), heads, n + 1)
      && (forall j :: 0 <= j < h.level - 1 ==> Pushed(stack, h)[j] == Label(heads, n, j + 1))
  {
    var h := heads[n].value;
    var r := Pushed(stack, h);
    forall j | 0 <= j < h.level - 1
      ensures r[j] == Label(heads, n, j + 1) && Label(heads, n + 1, j + 1) == Label(heads, n, j + 1)
    {
      HigherLabelStays(heads, n, j + 1);
      PushedBelow(stack, heads, n, j);
    }
    assert LastWithin(heads, n + 1, 6) == Some(n) && LastWithin(heads, n + 1, h.level) == Some(n);
  }

  /** Below the pushed text stand the labels already in force. */
  lemma PushedBelow(stack: seq<string>, heads: Heads, n: nat, j: nat)
    requires n < |heads| && LevelsOk(heads) && heads[n].Some? && StackOk(stack, heads, n)
    requires j < heads[n].value.level - 1
    ensures Pushed(stack, heads[n].value)[j] == Label(heads, n, j + 1)
  {
    if j >= |stack| {
      BeyondStack(stack, heads, n, j + 1);
    }
  }

  lemma HigherLabelStays(heads: Heads, n: nat, level: nat)
    requires n < |heads| && heads[n].Some? && level < heads[n].value.level
    ensures Label(heads, n + 1, level) == Label(heads, n, level)
  {
    assert LastWithin(heads, n + 1, level) == LastWithin(heads, n, level);
  }

  lemma HeadingLine(stack: seq<string>, lines: seq<string>, heads: Heads, title: string, n: nat)
    requires |heads| == |lines| && LevelsOk(heads) && n < |heads| && heads[n].Some? && StackOk(stack, heads, n)
    ensures var stack' := Pushed(stack, heads[n].value);
            StackOk(stack', heads, n + 1)
            && SectionAt(Section([title] + stack', [(n + 1, lines[n])]), lines, heads, title, n, n + 1)
  {
    PushHeading(stack, heads, n);
    NewPath(Pushed(stack, heads[n].value), lines, heads, title, n);
  }

  lemma NewPath(stack: seq<string>, lines: seq<string>, heads: Heads, title: string, n: nat)
    requires |heads| == |lines| && LevelsOk(heads) && n < |heads| && heads[n].Some?
    requires |stack| == heads[n].value.level && stack[|stack| - 1] == heads[n].value.text
    requires forall j :: 0 <= j < |stack| - 1 ==> stack[j] == Label(heads, n, j + 1)
    ensures SectionAt(Section([title] + stack, [(n + 1, lines[n])]), lines, heads, title, n, n + 1)
  {
    assert [(n + 1, lines[n])] == Numbered(lines, n, n + 1);
    NewPathIs(stack, heads, title, n);
  }

  lemma NewPathIs(stack: seq<string>, heads: Heads, title: string, n: nat)
    requires LevelsOk(heads) && n < |heads| && heads[n].Some?
    requires |stack| == heads[n].value.level && stack[|stack| - 1] == heads[n].value.text
    requires forall j :: 0 <= j < |stack| - 1 ==> stack[j] == Label(heads, n, j + 1)
    ensures [title] + stack == PathFrom(heads, title, n)
  {
    var labels := seq(|stack| - 1, j requires 0 <= j < |stack| - 1 => Label(heads, n, j + 1));
    assert stack[..|stack| - 1] == labels;
    assert stack == labels + [heads[n].value.text];
    assert [title] + (labels + [heads[n].value.text]) == [title] + labels + [heads[n].value.text];
  }

  // ---------- What sectioning guarantees ----------

  function ItemsOf(sections: seq<Section>): seq<(nat, string)> {
    if sections == [] then [] else ItemsOf(sections[..|sections| - 1]) + sections[|sections| - 1].items
  }

  /** Concatenating the sections gives every line once, in order, with its number. */
  lemma SectioningIsLossless(sections: seq<Section>, lines: seq<string>, title: string)
    requires IsSectioning(sections, lines, title)
    ensures ItemsOf(sections) == Numbered(lines, 0, |lines|)
  {
    var cuts :| Covers(sections, cuts, lines, HeadsOf(lines), title, |lines|);
    ItemsUpTo(sections, cuts, lines, HeadsOf(lines), title, |lines|, |sections|);
    assert sections[..|sections|] == sections;
  }

  lemma {:induction false} ItemsUpTo(
    sections: seq<Section>, cuts: seq<nat>, lines: seq<string>, heads: Heads, title: string, n: nat, k: nat)
    requires |heads| == |lines| && LevelsOk(heads)
    requires Covers(sections, cuts, lines, heads, title, n) && k <= |sections|
    ensures cuts[k] <= |lines| && ItemsOf(sections[..k]) == Numbered(lines, 0, cuts[k])
  {
    if k > 0 {
      ItemsUpTo(sections, cuts, lines, heads, title, n, k - 1);
      assert SectionK(sections, cuts, lines, heads, title, k - 1);
      assert sections[..k][..k - 1] == sections[..k - 1];
      var a, b := cuts[k - 1], cuts[k];
      assert Numbered(lines, 0, b) == Numbered(lines, 0, a) + Numbered(lines, a, b);
    }
  }

  /** Two cuttings of one file agree section by section. */
  lemma {:induction false} CutsAgree(
    s: seq<Section>, c: seq<nat>, t: seq<Section>, d: seq<nat>, lines: seq<string>, heads: Heads, title: string,
    n: nat, k: nat)
    requires |heads| == |lines| && LevelsOk(heads)
    requires Covers(s, c, lines, heads, title, n) && Covers(t, d, lines, heads, title, n)
    requires k <= |s| && k <= |t|
    ensures c[k] == d[k] && s[..k] == t[..k]
  {
    if k > 0 {
      CutsAgree(s, c, t, d, lines, heads, title, n, k - 1);
      assert SectionK(s, c, lines, heads, title, k - 1) && SectionK(t, d, lines, heads, title, k - 1);
      CutsRise(s, c, lines, heads, title, n, k - 1);
      CutsRise(t, d, lines, heads, title, n, k - 1);
      NextCut(s, c, lines, heads, title, n, k, d[k]);
      NextCut(t, d, lines, heads, title, n, k, c[k]);
      assert s[..k] == s[..k - 1] + [s[k - 1]] && t[..k] == t[..k - 1] + [t[k - 1]];
    }
  }

  /** A cut ends a section at a heading or at the end, so another section cannot run past it. */
  lemma NextCut(
    s: seq<Section>, c: seq<nat>, lines: seq<string>, heads: Heads, title: string, n: nat, k: nat, other: nat)
    requires |heads| == |lines| && LevelsOk(heads) && Covers(s, c, lines, heads, title, n) && 0 < k <= |s|
    requires c[k - 1] < other <= n && forall i :: c[k - 1] < i < other && i < |heads| ==> heads[i].None?
    ensures c[k] >= other
  {
    assert SectionK(s, c, lines, heads, title, k - 1);
    if k < |s| {
      assert SectionK(s, c, lines, heads, title, k);
    }
  }

  lemma {:induction false} CutsRise(
    s: seq<Section>, c: seq<nat>, lines: seq<string>, heads: Heads, title: string, n: nat, k: nat)
    requires |heads| == |lines| && LevelsOk(heads) && Covers(s, c, lines, heads, title, n) && k <= |s|
    ensures c[k] <= n && (k < |s| ==> c[k] < c[k + 1] <= n)
    decreases |s| - k
  {
    if k < |s| {
      assert SectionK(s, c, lines, heads, title, k);
      CutsRise(s, c, lines, heads, title, n, k + 1);
    }
  }

  /** The cut is determined by the file: no two different lists of sections cover it. */
  lemma SectioningIsUnique(s: seq<Section>, t: seq<Section>, lines: seq<string>, title: string)
    requires IsSectioning(s, lines, title) && IsSectioning(t, lines, title)
    ensures s == t
  {
    var c :| Covers(s, c, lines, HeadsOf(lines), title, |lines|);
    var d :| Covers(t, d, lines, HeadsOf(lines), title, |lines|);
    CutsDetermine(s, c, t, d, lines, HeadsOf(lines), title, |lines|);
  }

  lemma CutsDetermine(
    s: seq<Section>, c: seq<nat>, t: seq<Section>, d: seq<nat>, lines: seq<string>, heads: Heads, title: string, n: nat)
    requires |heads| == |lines| && LevelsOk(heads)
    requires Covers(s, c, lines, heads, title, n) && Covers(t, d, lines, heads, title, n)
    ensures s == t
  {
    var k := if |s| <= |t| then |s| else |t|;
    CutsAgree(s, c, t, d, lines, heads, title, n, k);
    CutsRise(s, c, lines, heads, title, n, k);
    CutsRise(t, d, lines, heads, title, n, k);
    assert s == s[..|s|] && t == t[..|t|];
  }

  /** A section is non-empty and starts at a heading, or it is the preamble. */
  ghost predicate Starts(s: Section, heads: Heads, title: string, first: bool) {
    && s.items != [] && 1 <= s.items[0].0 <= |heads|
    && var i := s.items[0].0 - 1;
       match heads[i]
       case None => first && i == 0 && s.path == [title, "preamble"]
       case Some(h) =>
         && |s.path| == h.level + 1 && s.path[0] == title && s.path[h.level] == h.text
         && forall j :: 1 <= j < h.level ==> s.path[j] == Label(heads, i, j)
  }

  /** Every section starts at a heading, whose path holds the title and one entry for each level down
      to its own; only the first section may be a preamble. */
  lemma SectionsStartAtHeadings(sections: seq<Section>, lines: seq<string>, title: string, k: nat)
    requires IsSectioning(sections, lines, title) && k < |sections|
    ensures Starts(sections[k], HeadsOf(lines), title, k == 0)
  {
    var cuts :| Covers(sections, cuts, lines, HeadsOf(lines), title, |lines|);
    CutSectionStarts(sections, cuts, lines, HeadsOf(lines), title, |lines|, k);
  }

  lemma CutSectionStarts(
    sections: seq<Section>, cuts: seq<nat>, lines: seq<string>, heads: Heads, title: string, n: nat, k: nat)
    requires |heads| == |lines| && LevelsOk(heads)
    requires Covers(sections, cuts, lines, heads, title, n) && k < |sections|
    ensures Starts(sections[k], heads, title, k == 0)
  {
    assert SectionK(sections, cuts, lines, heads, title, k);
    if k > 0 {
      assert SectionK(sections, cuts, lines, heads, title, k - 1);
    }
    SectionStarts(sections[k], lines, heads, title, cuts[k], cuts[k + 1], k == 0);
  }

  lemma SectionStarts(s: Section, lines: seq<string>, heads: Heads, title: string, a: nat, b: nat, first: bool)
    requires |heads| == |lines| && LevelsOk(heads)
    requires SectionAt(s, lines, heads, title, a, b) && (first <==> a == 0)
    ensures Starts(s, heads, title, first)
  {
    assert s.items[0] == (a + 1, lines[a]);
    if heads[a].Some? {
      var h := heads[a].value;
      forall j | 1 <= j < h.level ensures s.path[j] == Label(heads, a, j) {
      }
    }
  }

  lemma BoundaryUnfenced(marks: seq<Mark>, heads: Heads, title: string, s: Section, first: bool)
    requires heads == HeadsUpTo(marks, |marks|) && Starts(s, heads, title, first)
    ensures var n := s.items[0].0;
      FenceAfter(marks, n - 1) == None && (first || FenceAfter(marks, n) == None)
  {
    var i := s.items[0].0 - 1;
    if heads[i].Some? {
      HeadsAt(marks, |marks|, i);
    }
  }

  /** The section begins where no fence is open, and does not begin with one unless it is the first. */
  ghost predicate BeginsUnfenced(s: Section, lines: seq<string>, first: bool) {
    && s.items != [] && 1 <= s.items[0].0 <= |lines|
    && FenceAfter(MarksOf(lines), s.items[0].0 - 1) == None
    && (first || FenceAfter(MarksOf(lines), s.items[0].0) == None)
  }

  lemma StartUnfenced(s: Section, lines: seq<string>, title: string, first: bool)
    requires Starts(s, HeadsOf(lines), title, first)
    ensures BeginsUnfenced(s, lines, first)
  {
    BoundaryUnfenced(MarksOf(lines), HeadsOf(lines), title, s, first);
  }

  /** No section boundary falls inside an open fence. */
  lemma BoundariesAreOutsideFences(sections: seq<Section>, lines: seq<string>, title: string)
    requires IsSectioning(sections, lines, title)
    ensures forall k :: 0 <= k < |sections| ==> BeginsUnfenced(sections[k], lines, k == 0)
  {
    forall k | 0 <= k < |sections| ensures BeginsUnfenced(sections[k], lines, k == 0) {
      SectionsStartAtHeadings(sections, lines, title, k);
      StartUnfenced(sections[k], lines, title, k == 0);
    }
  }
}
