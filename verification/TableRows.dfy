/** Rendering table rows and reading them back (GFM specification, section 4.10). */
module TableRows {
  import opened Text

  // ---------- Cells ----------

  function BreakOf(c: char): string {
    if c == '\r' then " " else if c == '\n' then "<br>" else [c]
  }

  /** Carriage returns become blanks and newlines become `<br>`. */
  function Breaks(s: string): string {
    if |s| == 0 then [] else BreakOf(s[0]) + Breaks(s[1..])
  }

  function EscapeOf(c: char): string {
    if c == '|' then "\\|" else [c]
  }

  function Escape(s: string): string {
    if |s| == 0 then [] else EscapeOf(s[0]) + Escape(s[1..])
  }

  /** Replace `\|` by `|`, scanning from the left. */
  function Unescape(s: string): string {
    if |s| == 0 then []
    else if |s| >= 2 && s[0] == '\\' && s[1] == '|' then ['|'] + Unescape(s[2..])
    else [s[0]] + Unescape(s[1..])
  }

  function TableCell(value: string): string {
    Strip(Escape(Breaks(value)))
  }

  /** What a reader of the table sees of a value. */
  function Display(value: string): string {
    Strip(Breaks(value))
  }

  // ---------- Rows ----------

  function JoinCells(values: seq<string>): string {
    if |values| == 0 then []
    else if |values| == 1 then TableCell(values[0])
    else TableCell(values[0]) + " | " + JoinCells(values[1..])
  }

  function RenderRow(values: seq<string>): string {
    "| " + JoinCells(values) + " |"
  }

  predicate BareAt(s: string, i: nat)
    requires i < |s|
  {
    s[i] == '|' && (i == 0 || s[i - 1] != '\\')
  }

  function FirstBare(s: string, from: nat): (p: nat)
    requires from <= |s|
    ensures from <= p <= |s|
    decreases |s| - from
  {
    if from == |s| || BareAt(s, from) then from else FirstBare(s, from + 1)
  }

  /** Split at the pipes that no backslash precedes. */
  function Split(s: string): seq<string>
    decreases |s|
  {
    var p := FirstBare(s, 0);
    if p == |s| then [s] else [s[..p]] + Split(s[p + 1..])
  }

  /** The reader: split, drop the empty ends, trim, unescape. */
  function ParseRow(line: string): seq<string> {
    Inner(Split(line))
  }

  /** The parts between the outer two, each trimmed and unescaped. */
  function Inner(parts: seq<string>): (r: seq<string>)
    ensures |parts| >= 2 ==> |r| == |parts| - 2 && forall i :: 0 <= i < |r| ==> r[i] == ReadCell(parts[i + 1])
  {
    if |parts| < 2 then []
    else seq(|parts| - 2, i requires 0 <= i < |parts| - 2 => ReadCell(parts[i + 1]))
  }

  function ReadCell(part: string): string {
    Unescape(Strip(part))
  }

  // ---------- Line breaks in a value ----------

  lemma {:induction false} BreaksAppend(a: string, b: string)
    ensures Breaks(a + b) == Breaks(a) + Breaks(b)
  {
    if a == "" {
      assert a + b == b;
    } else {
      var ab := a + b;
      assert ab[1..] == a[1..] + b && ab[0] == a[0];
      BreaksAppend(a[1..], b);
      assert BreakOf(a[0]) + (Breaks(a[1..]) + Breaks(b)) == (BreakOf(a[0]) + Breaks(a[1..])) + Breaks(b);
    }
  }

  /** A newline shows as `<br>`, a carriage return as a blank. */
  lemma BreaksTell(a: string, b: string)
    ensures Breaks(a + "\n" + b) == Breaks(a) + "<br>" + Breaks(b)
    ensures Breaks(a + "\r" + b) == Breaks(a) + " " + Breaks(b)
  {
    BreaksAppend(a + "\n", b);
    BreaksAppend(a + "\r", b);
    BreaksAppend(a, "\n");
    BreaksAppend(a, "\r");
    assert "\n"[1..] == "" && "\r"[1..] == "";
    assert Breaks("\n") == "<br>" && Breaks("\r") == " ";
  }

  /** A value without line breaks shows as it is, stripped. */
  lemma {:induction false} DisplayTells(value: string)
    requires '\n' !in value && '\r' !in value
    ensures Breaks(value) == value && Display(value) == Strip(value)
  {
    if value != "" {
      DisplayTells(value[1..]);
      assert [value[0]] + value[1..] == value;
    }
  }

  // ---------- Escaping ----------

  lemma {:induction false} EscapeAppend(a: string, b: string)
    ensures Escape(a + b) == Escape(a) + Escape(b)
  {
    if |a| == 0 {
      assert a + b == b;
    } else {
      var ab := a + b;
      assert ab[1..] == a[1..] + b && ab[0] == a[0];
      EscapeAppend(a[1..], b);
      assert EscapeOf(a[0]) + (Escape(a[1..]) + Escape(b)) == (EscapeOf(a[0]) + Escape(a[1..])) + Escape(b);
    }
  }

  /** Unescaping undoes escaping, backslashes in the text included. */
  lemma {:induction false} UnescapeEscape(s: string)
    ensures Unescape(Escape(s)) == s
    ensures s != "" ==> Escape(s) != "" && Escape(s)[0] != '|'
  {
    if s != "" {
      var c, rest, e := s[0], s[1..], Escape(s);
      UnescapeEscape(rest);
      assert s == [c] + rest;
      if c == '|' {
        assert e == "\\|" + Escape(rest) && e[0] == '\\' && e[1] == '|';
        assert e[2..] == Escape(rest);
      } else {
        assert e == [c] + Escape(rest) && e[0] == c && e[1..] == Escape(rest);
        assert |e| >= 2 ==> e[1] == Escape(rest)[0];
      }
    }
  }

  lemma EscapeOne(c: char)
    ensures Escape([c]) == EscapeOf(c)
  {
    assert [c][1..] == [] && Escape([]) == [];
    assert EscapeOf(c) + [] == EscapeOf(c);
  }

  lemma PipeIsSolid()
    ensures !IsSpace('|') && !IsSpace('\\') && IsSpace(' ')
  {
  }

  lemma {:induction false} LStripEscape(s: string)
    ensures LStrip(Escape(s)) == Escape(LStrip(s))
  {
    PipeIsSolid();
    if s != "" {
      var e := Escape(s);
      if IsSpace(s[0]) {
        assert e == [s[0]] + Escape(s[1..]) && e[1..] == Escape(s[1..]);
        LStripEscape(s[1..]);
      } else {
        assert e[0] == (if s[0] == '|' then '\\' else s[0]);
      }
    }
  }

  lemma {:induction false} RStripEscape(s: string)
    ensures RStrip(Escape(s)) == Escape(RStrip(s))
  {
    PipeIsSolid();
    if s != "" {
      var init, c, e := s[..|s| - 1], s[|s| - 1], Escape(s);
      assert s == init + [c];
      EscapeAppend(init, [c]);
      EscapeOne(c);
      assert e == Escape(init) + EscapeOf(c);
      assert e[|e| - 1] == c;
      if IsSpace(c) {
        assert e[..|e| - 1] == Escape(init);
        RStripEscape(init);
      }
    }
  }

  /** A cell is the escaped display text, so a reader recovers the display text from it. */
  lemma CellReadsBack(value: string)
    ensures TableCell(value) == Escape(Display(value))
    ensures Unescape(TableCell(value)) == Display(value)
  {
    LStripEscape(Breaks(value));
    RStripEscape(LStrip(Breaks(value)));
    UnescapeEscape(Display(value));
  }

  // ---------- Splitting ----------

  ghost predicate NoBare(s: string) {
    forall i :: 0 <= i < |s| ==> !BareAt(s, i)
  }

  lemma {:induction false} EscapedHasNoBare(s: string)
    ensures NoBare(Escape(s))
  {
    if s != "" {
      var rest, e := Escape(s[1..]), Escape(s);
      EscapedHasNoBare(s[1..]);
      var head := EscapeOf(s[0]);
      assert e == head + rest;
      forall i | 0 <= i < |e| ensures !BareAt(e, i) {
        if i >= |head| {
          assert !BareAt(rest, i - |head|);
          assert e[i] == rest[i - |head|];
        }
      }
    }
  }

  lemma {:induction false} FirstBareFinds(s: string, from: nat, p: nat)
    requires from <= p <= |s| && (p < |s| ==> BareAt(s, p))
    requires forall i :: from <= i < p ==> !BareAt(s, i)
    ensures FirstBare(s, from) == p
    decreases |s| - from
  {
    if from < p {
      FirstBareFinds(s, from + 1, p);
    }
  }

  lemma SplitAt(a: string, b: string)
    requires NoBare(a) && (a != "" ==> a[|a| - 1] != '\\')
    ensures Split(a + "|" + b) == [a] + Split(b)
  {
    var s := a + "|" + b;
    assert s[|a|] == '|' && s[..|a|] == a && s[|a| + 1..] == b;
    forall i | 0 <= i < |a| ensures !BareAt(s, i) {
      assert !BareAt(a, i) && s[i] == a[i] && (i > 0 ==> s[i - 1] == a[i - 1]);
    }
    FirstBareFinds(s, 0, |a|);
  }

  /** A cell between its two blanks. */
  function Padded(value: string): string {
    " " + TableCell(value) + " "
  }

  lemma PaddedCell(value: string)
    ensures NoBare(Padded(value)) && Padded(value)[|Padded(value)| - 1] == ' '
    ensures Strip(Padded(value)) == TableCell(value)
  {
    var cell, p := TableCell(value), Padded(value);
    CellReadsBack(value);
    EscapedHasNoBare(Display(value));
    forall i | 0 <= i < |p| ensures !BareAt(p, i) {
      if 1 <= i <= |cell| {
        assert !BareAt(cell, i - 1) && p[i] == cell[i - 1];
        assert i > 1 ==> p[i - 1] == cell[i - 2];
      }
    }
    StripTrims(Escape(Breaks(value)));
    StripPadding(cell);
  }

  lemma StripPadding(cell: string)
    requires Trimmed(cell)
    ensures Strip(" " + cell + " ") == cell
  {
    PipeIsSolid();
    var p := " " + cell + " ";
    assert p[1..] == cell + " ";
    if cell == "" {
      assert p[1..] == " " && " "[1..] == "";
      assert LStrip(p) == LStrip(" ") == LStrip("") == "";
    } else {
      var t := cell + " ";
      assert t[0] == cell[0] && LStrip(p) == LStrip(t) == t;
      assert t[..|t| - 1] == cell && t[|t| - 1] == ' ';
      assert RStrip(t) == RStrip(cell) == cell;
    }
  }

  /** The part of a row after its first pipe. */
  lemma {:induction false} SplitTail(values: seq<string>)
    requires |values| >= 1
    ensures Split(" " + JoinCells(values) + " |") == PaddedAll(values) + [""]
  {
    var p, rest := Padded(values[0]), values[1..];
    PaddedCell(values[0]);
    TailCons(values);
    if |values| == 1 {
      SplitAt(p, "");
      assert Split("") == [""];
      assert PaddedAll(values) == [p] + PaddedAll(rest) == [p];
    } else {
      SplitTail(rest);
      SplitAt(p, " " + JoinCells(rest) + " |");
      assert PaddedAll(values) + [""] == [p] + (PaddedAll(rest) + [""]);
    }
  }

  lemma TailCons(values: seq<string>)
    requires |values| >= 1
    ensures " " + JoinCells(values) + " |"
            == Padded(values[0]) + "|" + if |values| == 1 then "" else " " + JoinCells(values[1..]) + " |"
  {
    var cell := TableCell(values[0]);
    assert " |" == " " + "|" && " | " == " " + "|" + " ";
    if |values| == 1 {
      Regroup1(" ", cell, "|");
    } else {
      Regroup2(" ", cell, "|", JoinCells(values[1..]), " |");
    }
  }

  lemma Regroup1(sp: string, cell: string, bar: string)
    ensures sp + cell + (sp + bar) == (sp + cell + sp) + bar + ""
  {
  }

  lemma Regroup2(sp: string, cell: string, bar: string, more: string, end: string)
    ensures sp + (cell + (sp + bar + sp) + more) + end == (sp + cell + sp) + bar + (sp + more + end)
  {
    var left, right := sp + cell, more + end;
    assert sp + (cell + (sp + bar + sp) + more) + end == left + (sp + bar + sp) + right;
    assert (sp + cell + sp) + bar + (sp + more + end) == left + (sp + bar + sp) + right;
  }

  function PaddedAll(values: seq<string>): (r: seq<string>)
    ensures |r| == |values| && forall i :: 0 <= i < |values| ==> r[i] == Padded(values[i])
  {
    if values == [] then [] else [Padded(values[0])] + PaddedAll(values[1..])
  }

  /** Splitting a rendered row gives back exactly its cells, each between blanks, and two empty ends. */
  lemma RowSplitsIntoCells(values: seq<string>)
    requires |values| >= 1
    ensures Split(RenderRow(values)) == [""] + PaddedAll(values) + [""]
  {
    SplitTail(values);
    SplitFirst(" " + JoinCells(values) + " |", PaddedAll(values));
    BarFirst(JoinCells(values));
  }

  lemma SplitFirst(tail: string, cells: seq<string>)
    requires Split(tail) == cells + [""]
    ensures Split("|" + tail) == [""] + cells + [""]
  {
    assert "|" + tail == "" + "|" + tail;
    SplitAt("", tail);
  }

  lemma BarFirst(cells: string)
    ensures "| " + cells + " |" == "|" + (" " + cells + " |")
  {
    assert "| " == "|" + " ";
  }

  /** Print, then read: every row of at least one value comes back as its display texts. A row without
      values is the exception: it prints as one empty cell. */
  lemma RowRoundTrip(values: seq<string>)
    ensures |values| >= 1 ==>
              ParseRow(RenderRow(values)) == seq(|values|, i requires 0 <= i < |values| => Display(values[i]))
    ensures |values| == 0 ==> ParseRow(RenderRow(values)) == [""]
  {
    if |values| >= 1 {
      RowSplitsIntoCells(values);
      var cells, shown := PaddedAll(values), seq(|values|, i requires 0 <= i < |values| => Display(values[i]));
      forall i | 0 <= i < |values| ensures ReadCell(cells[i]) == shown[i] {
        PaddedReadsBack(values[i]);
      }
      InnerReads(cells, shown);
    } else {
      EmptyRow();
    }
  }

  lemma PaddedReadsBack(value: string)
    ensures ReadCell(Padded(value)) == Display(value)
  {
    PaddedCell(value);
    CellReadsBack(value);
  }

  lemma InnerReads(cells: seq<string>, shown: seq<string>)
    requires |cells| == |shown| && forall i :: 0 <= i < |cells| ==> ReadCell(cells[i]) == shown[i]
    ensures Inner([""] + cells + [""]) == shown
  {
    var parts := [""] + cells + [""];
    assert forall i :: 0 <= i < |cells| ==> parts[i + 1] == cells[i];
  }

  lemma EmptyRow()
    ensures ParseRow(RenderRow([])) == [""]
  {
    EmptyRowSplits();
    assert "  " == " " + "" + " ";
    StripPadding("");
    InnerReads(["  "], [""]);
  }

  lemma EmptyRowSplits()
    ensures Split(RenderRow([])) == [""] + ["  "] + [""]
  {
    var row := RenderRow([]);
    assert row == "" + "|" + ("  " + "|" + "");
    SplitAt("", "  " + "|" + "");
    SplitAt("  ", "");
    assert Split("") == [""];
  }

  /** A rendered row stays on one line. */
  lemma RowIsOneLine(values: seq<string>)
    ensures '\n' !in RenderRow(values) && '\r' !in RenderRow(values)
  {
    CellsAreOneLine(values);
  }

  lemma {:induction false} CellsAreOneLine(values: seq<string>)
    ensures '\n' !in JoinCells(values) && '\r' !in JoinCells(values)
  {
    if |values| >= 1 {
      BreaksAreOneLine(values[0]);
      EscapeAddsNoBreaks(Breaks(values[0]));
      StripKeepsOut(Escape(Breaks(values[0])));
      CellsAreOneLine(values[1..]);
    }
  }

  lemma {:induction false} BreaksAreOneLine(s: string)
    ensures '\n' !in Breaks(s) && '\r' !in Breaks(s)
  {
    if |s| > 0 {
      BreaksAreOneLine(s[1..]);
    }
  }

  lemma {:induction false} EscapeAddsNoBreaks(s: string)
    requires '\n' !in s && '\r' !in s
    ensures '\n' !in Escape(s) && '\r' !in Escape(s)
  {
    if |s| > 0 {
      EscapeAddsNoBreaks(s[1..]);
    }
  }

  lemma StripKeepsOut(s: string)
    requires '\n' !in s && '\r' !in s
    ensures '\n' !in Strip(s) && '\r' !in Strip(s)
  {
    LStripSubset(s);
    RStripSubset(LStrip(s));
  }

  lemma {:induction false} LStripSubset(s: string)
    ensures forall c :: c in LStrip(s) ==> c in s
  {
    if s != "" && IsSpace(s[0]) {
      LStripSubset(s[1..]);
    }
  }

  lemma {:induction false} RStripSubset(s: string)
    ensures forall c :: c in RStrip(s) ==> c in s
  {
    if s != "" && IsSpace(s[|s| - 1]) {
      RStripSubset(s[..|s| - 1]);
    }
  }
}
