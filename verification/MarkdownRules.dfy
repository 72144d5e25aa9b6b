/** What opens and closes a fence, what is a heading, and what the path of a section says, in terms of the
    lines themselves. */
module MarkdownRules {
  import opened Options
  import opened Text
  import opened Markdown

  // ---------- Fences ----------

  /** The line is a fence of this many marks: nothing but white space stands in front, and no further mark
      follows. */
  predicate IsFence(line: string, mark: char, length: nat) {
    && (mark == '`' || mark == '~') && length >= 3
    && exists from :: 0 <= from <= |line| - length && FenceFrom(line, mark, length, from)
  }

  predicate FenceFrom(line: string, mark: char, length: nat, from: nat)
    requires from + length <= |line|
  {
    && (forall i :: 0 <= i < from ==> IsSpace(line[i]))
    && (forall i :: from <= i < from + length ==> line[i] == mark)
    && (from + length < |line| ==> line[from + length] != mark)
  }

  lemma {:induction false} LeftBlank(s: string) returns (from: nat)
    ensures from <= |s| && LStrip(s) == s[from..] && forall i :: 0 <= i < from ==> IsSpace(s[i])
  {
    if s != "" && IsSpace(s[0]) {
      from := LeftBlank(s[1..]);
      assert s[1..][from..] == s[from + 1..];
      assert forall i :: 1 <= i < from + 1 ==> s[i] == s[1..][i - 1];
      from := from + 1;
    } else {
      from := 0;
    }
  }

  lemma LeftEnds(s: string, from: nat)
    requires from <= |s| && LStrip(s) == s[from..]
    ensures from < |s| ==> !IsSpace(s[from])
  {
    assert from < |s| ==> LStrip(s)[0] == s[from];
  }

  lemma FenceTells(line: string, mark: char, length: nat)
    ensures FenceOf(line) == Some(Fence(mark, length)) <==> IsFence(line, mark, length)
  {
    var from := LeftBlank(line);
    LeftEnds(line, from);
    if FenceOf(line) == Some(Fence(mark, length)) {
      RunFrom(line, from, mark);
      assert FenceFrom(line, mark, length, from);
    }
    if at :| 0 <= at <= |line| - length && IsFence(line, mark, length) && FenceFrom(line, mark, length, at) {
      RunFrom(line, from, mark);
      SameFence(line, from, mark, length, at);
    }
  }

  /** The run of a mark behind the white space, in the places of the line. */
  lemma RunFrom(line: string, from: nat, mark: char)
    requires from <= |line|
    ensures var n := Run(line[from..], mark);
      && from + n <= |line| && (forall i :: from <= i < from + n ==> line[i] == mark)
      && (from + n < |line| ==> line[from + n] != mark)
  {
    var s, n := line[from..], Run(line[from..], mark);
    forall i | from <= i < from + n ensures line[i] == mark {
      assert s[i - from] == mark;
    }
    assert n < |s| ==> s[n] == line[from + n];
  }

  lemma SameFence(line: string, from: nat, mark: char, length: nat, at: nat)
    requires from <= |line| && (forall i :: 0 <= i < from ==> IsSpace(line[i]))
    requires from < |line| ==> !IsSpace(line[from])
    requires at + length <= |line| && length >= 3 && (mark == '`' || mark == '~') && FenceFrom(line, mark, length, at)
    ensures at == from && Run(line[from..], mark) == length
  {
    assert line[at] == mark && !IsSpace(mark);
    RunFrom(line, from, mark);
  }

  /** The fence `f` was opened at line `at` and no line since is a run of its mark at least as long. */
  predicate OpenSince(marks: seq<Mark>, n: nat, f: Fence, at: nat)
    requires at < n <= |marks|
  {
    && marks[at].fence == Some(f)
    && forall j :: at < j < n && marks[j].fence.Some? && marks[j].fence.value.mark == f.mark ==>
         marks[j].fence.value.length < f.length
  }

  /** A fence is open after `n` lines exactly when it was opened outside any other and has not been closed. */
  lemma {:induction false} OpenUntilClosed(marks: seq<Mark>, n: nat, f: Fence)
    requires n <= |marks|
    ensures FenceAfter(marks, n) == Some(f) <==>
      exists at :: 0 <= at < n && FenceAfter(marks, at) == None && OpenSince(marks, n, f, at)
  {
    if n > 0 {
      OpenUntilClosed(marks, n - 1, f);
      if FenceAfter(marks, n) == Some(f) {
        if FenceAfter(marks, n - 1) == None {
          assert OpenSince(marks, n, f, n - 1);
        } else {
          var at :| 0 <= at < n - 1 && FenceAfter(marks, at) == None && OpenSince(marks, n - 1, f, at);
          assert OpenSince(marks, n, f, at);
        }
      }
      if at :| 0 <= at < n && FenceAfter(marks, at) == None && OpenSince(marks, n, f, at) {
        if at < n - 1 {
          assert OpenSince(marks, n - 1, f, at);
        }
      }
    }
  }

  // ---------- Headings ----------

  /** White space, any number of hashes, white space. */
  predicate ClosingSequence(s: string) {
    exists i, j :: 0 <= i <= j <= |s| && HashesWithin(s, i, j)
  }

  predicate HashesWithin(s: string, i: nat, j: nat)
    requires i <= j <= |s|
  {
    && (forall k :: 0 <= k < i ==> IsSpace(s[k])) && (forall k :: i <= k < j ==> s[k] == '#')
    && (forall k :: j <= k < |s| ==> IsSpace(s[k]))
  }

  lemma {:induction false} AllBlank(s: string)
    ensures LStrip(s) == "" <==> forall k :: 0 <= k < |s| ==> IsSpace(s[k])
  {
    var from := LeftBlank(s);
    if from < |s| {
      assert LStrip(s)[0] == s[from];
    }
  }

  lemma ClosingTells(s: string)
    ensures Closing(s) <==> ClosingSequence(s)
  {
    var i := LeftBlank(s);
    var t := LStrip(s);
    var n := Run(t, '#');
    var rest := t[n..];
    assert forall k :: 0 <= k < |t| ==> t[k] == s[i + k];
    assert forall k :: 0 <= k < |rest| ==> rest[k] == s[i + n + k];
    AllBlank(rest);
    if Closing(s) {
      forall k | i + n <= k < |s| ensures IsSpace(s[k]) {
        assert s[k] == rest[k - i - n];
      }
      assert HashesWithin(s, i, i + n);
    }
    if ClosingSequence(s) {
      var a, b :| 0 <= a <= b <= |s| && HashesWithin(s, a, b);
      forall k | 0 <= k < |rest| ensures IsSpace(rest[k]) {
        AfterHashes(s, i, n, a, b, k);
      }
    }
  }

  /** Where white space and hashes alternate once, nothing but white space follows the first run of hashes. */
  lemma AfterHashes(s: string, i: nat, n: nat, a: nat, b: nat, k: nat)
    requires i + n + k < |s| && a <= b <= |s| && HashesWithin(s, a, b)
    requires (forall m :: 0 <= m < i ==> IsSpace(s[m])) && !IsSpace(s[i])
    requires (forall m :: i <= m < i + n ==> s[m] == '#') && s[i + n] != '#'
    ensures IsSpace(s[i + n + k])
  {
  }

  /** Behind white space one to six hashes, a blank or tab, and at least one more character. */
  predicate IsHeading(line: string, from: nat, level: nat) {
    && 1 <= level <= 6 && from + level + 1 < |line|
    && (forall i :: 0 <= i < from ==> IsSpace(line[i]))
    && (forall i :: from <= i < from + level ==> line[i] == '#')
    && (line[from + level] == ' ' || line[from + level] == '\t')
  }

  /** The text begins at `b`, behind all blanks unless they reach the end, and ends at `m`, the first place
      from which only a closing sequence is left. */
  predicate TextWithin(line: string, from: nat, level: nat, b: nat, m: nat) {
    && from + level < b < m <= |line|
    && (forall i :: from + level <= i < b ==> line[i] == ' ' || line[i] == '\t')
    && ((line[b] != ' ' && line[b] != '\t') || b == |line| - 1)
    && ClosingSequence(line[m..]) && forall k :: b < k < m ==> !ClosesAt(line, k)
  }

  predicate ClosesAt(line: string, k: nat)
    requires k <= |line|
  {
    ClosingSequence(line[k..])
  }

  lemma {:induction false} BlankRunTells(s: string)
    ensures var n := BlankRun(s);
      && (forall i :: 0 <= i < n ==> s[i] == ' ' || s[i] == '\t')
      && (n < |s| ==> s[n] != ' ' && s[n] != '\t')
  {
    if s != "" && (s[0] == ' ' || s[0] == '\t') {
      BlankRunTells(s[1..]);
      assert forall i :: 1 <= i <= BlankRun(s[1..]) ==> s[i] == s[1..][i - 1];
      assert BlankRun(s) < |s| ==> s[BlankRun(s)] == s[1..][BlankRun(s) - 1];
    }
  }

  lemma HeadingTells(line: string)
    ensures HeadingOf(line).Some? <==> exists from, level :: IsHeading(line, from, level)
  {
    var from := LeftBlank(line);
    var s := LStrip(line);
    var level := Run(s, '#');
    assert forall i :: 0 <= i < |s| ==> s[i] == line[from + i];
    BlankRunTells(s[level..]);
    if HeadingOf(line).Some? {
      assert s[level..][0] == line[from + level];
      assert IsHeading(line, from, level);
    }
    if at, n :| IsHeading(line, at, n) {
      SameHeading(line, from, level, at, n);
    }
  }

  /** The hashes stand where the white space ends, and all of them count. */
  lemma SameHeading(line: string, from: nat, level: nat, at: nat, n: nat)
    requires IsHeading(line, at, n) && from <= |line| && LStrip(line) == line[from..]
    requires (forall i :: 0 <= i < from ==> IsSpace(line[i])) && level == Run(line[from..], '#')
    ensures at == from && n == level
  {
    assert line[at] == '#' && !IsSpace('#');
    LeftEnds(line, from);
    RunFrom(line, from, '#');
  }

  lemma HeadingTextTells(line: string, from: nat, level: nat) returns (b: nat, m: nat)
    requires IsHeading(line, from, level)
    ensures HeadingOf(line).Some? && HeadingOf(line).value.level == level
    ensures TextWithin(line, from, level, b, m) && HeadingOf(line).value.text == Strip(line[b..m])
  {
    var at := LeftBlank(line);
    SameHeading(line, at, Run(line[at..], '#'), from, level);
    b, m := TextPlace(line, from, level);
    HeadingIs(line, from, level, line[b..], line[b..m]);
  }

  lemma TextPlace(line: string, from: nat, level: nat) returns (b: nat, m: nat)
    requires from + level + 1 < |line| && (line[from + level] == ' ' || line[from + level] == '\t')
    ensures TextWithin(line, from, level, b, m) && IsBody(line, from + level, line[b..])
    ensures line[b..m] == line[b..][..TextLength(line[b..], 1)]
  {
    b := TextBegins(line, from + level);
    m := b + TextLength(line[b..], 1);
    BodyEnds(line, b, m);
  }

  /** What is left of the line behind the blanks, or its last character. */
  predicate IsBody(line: string, h: nat, body: string)
    requires h < |line|
  {
    var rest, n := line[h..], BlankRun(line[h..]);
    n >= 1 && body == if n < |rest| then rest[n..] else rest[|rest| - 1..]
  }

  lemma HeadingIs(line: string, from: nat, level: nat, body: string, text: string)
    requires from + level + 1 < |line| && 1 <= level <= 6
    requires LStrip(line) == line[from..] && Run(line[from..], '#') == level && IsBody(line, from + level, body)
    requires body != "" && text == body[..TextLength(body, 1)]
    ensures HeadingOf(line) == Some(Heading(level, Strip(text)))
  {
    assert line[from..][level..] == line[from + level..];
  }

  lemma TextBegins(line: string, h: nat) returns (b: nat)
    requires h + 1 < |line| && (line[h] == ' ' || line[h] == '\t')
    ensures h < b < |line| && (forall i :: h <= i < b ==> line[i] == ' ' || line[i] == '\t')
    ensures (line[b] != ' ' && line[b] != '\t') || b == |line| - 1
    ensures IsBody(line, h, line[b..])
  {
    var rest := line[h..];
    BlankRunTells(rest);
    assert rest[0] == line[h];
    var n := BlankRun(rest);
    b := if n < |rest| then h + n else |line| - 1;
    forall i | h <= i < b ensures line[i] == ' ' || line[i] == '\t' {
      assert line[i] == rest[i - h];
    }
    assert n < |rest| ==> line[b] == rest[n];
  }

  lemma BodyEnds(line: string, b: nat, m: nat)
    requires b < |line| && m == b + TextLength(line[b..], 1)
    ensures ClosingSequence(line[m..]) && forall k :: b < k < m ==> !ClosesAt(line, k)
  {
    var body := line[b..];
    assert body[m - b..] == line[m..];
    assert ClosesFrom(body, m - b);
    ClosingTells(line[m..]);
    forall k | b < k < m ensures !ClosesAt(line, k) {
      assert !ClosesFrom(body, k - b);
      assert body[k - b..] == line[k..];
      ClosingTells(line[k..]);
    }
  }

  // ---------- Sections and paths ----------

  /** Every heading that is not in a fence begins a section. */
  lemma HeadingBegins(sections: seq<Section>, lines: seq<string>, title: string, i: nat) returns (k: nat)
    requires IsSectioning(sections, lines, title) && i < |lines|
    requires HeadingOf(lines[i]).Some? && FenceOf(lines[i]).None? && FenceAfter(MarksOf(lines), i).None?
    ensures k < |sections| && sections[k].items != [] && sections[k].items[0] == (i + 1, lines[i])
    ensures |sections[k].path| == HeadingOf(lines[i]).value.level + 1
  {
    var heads := HeadsOf(lines);
    var cuts :| Covers(sections, cuts, lines, heads, title, |lines|);
    HeadsAreOutline(lines);
    assert OutlineAt(MarksOf(lines), heads, lines, i);
    k := HeadCuts(sections, cuts, lines, heads, title, i);
  }

  lemma HeadCuts(
    sections: seq<Section>, cuts: seq<nat>, lines: seq<string>, heads: Heads, title: string, i: nat) returns (k: nat)
    requires |heads| == |lines| && LevelsOk(heads) && Covers(sections, cuts, lines, heads, title, |lines|)
    requires i < |lines| && heads[i].Some?
    ensures k < |sections| && sections[k].items != [] && sections[k].items[0] == (i + 1, lines[i])
    ensures |sections[k].path| == heads[i].value.level + 1
  {
    k := CutAround(sections, cuts, lines, heads, title, i, |sections|);
    assert SectionK(sections, cuts, lines, heads, title, k);
    assert cuts[k] == i;
  }

  lemma {:induction false} CutAround(
    sections: seq<Section>, cuts: seq<nat>, lines: seq<string>, heads: Heads, title: string, i: nat, n: nat)
    returns (k: nat)
    requires |heads| == |lines| && LevelsOk(heads) && Covers(sections, cuts, lines, heads, title, |lines|)
    requires n <= |sections| && i < cuts[n]
    ensures k < n && cuts[k] <= i < cuts[k + 1]
  {
    if cuts[n - 1] <= i {
      k := n - 1;
    } else {
      k := CutAround(sections, cuts, lines, heads, title, i, n - 1);
    }
  }

  /** Line `i` is the last heading of this level, and no higher one came after it. */
  predicate InForce(heads: Heads, n: nat, level: nat, i: nat)
    requires n <= |heads|
  {
    && i < n && heads[i].Some? && heads[i].value.level == level
    && forall j :: i < j < n && heads[j].Some? ==> heads[j].value.level > level
  }

  /** An entry of a path is the heading in force at its level, or a placeholder when there is none. */
  lemma LabelTells(heads: Heads, n: nat, level: nat)
    requires n <= |heads|
    ensures forall i: nat :: InForce(heads, n, level, i) ==> Label(heads, n, level) == heads[i].value.text
    ensures (forall i: nat :: !InForce(heads, n, level, i)) ==> Label(heads, n, level) == "untitled"
  {
    var h := LastWithin(heads, n, level);
    if h.Some? && heads[h.value].value.level == level {
      assert InForce(heads, n, level, h.value);
    }
    forall i: nat | InForce(heads, n, level, i) ensures h == Some(i) {
    }
  }
}
