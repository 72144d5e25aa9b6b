/** Python's string helpers as far as the modelled code uses them. */
module Text {

  /** The code points that `str.isspace` accepts. */
  predicate SpaceCode(n: int) {
    || 0x09 <= n <= 0x0d || 0x1c <= n <= 0x20 || n == 0x85 || n == 0xa0 || n == 0x1680
    || 0x2000 <= n <= 0x200a || 0x2028 <= n <= 0x2029 || n == 0x202f || n == 0x205f || n == 0x3000
  }

  predicate IsSpace(c: char) {
    SpaceCode(c as int)
  }

  function LStrip(s: string): (r: string)
    ensures |r| <= |s| && (r != "" ==> !IsSpace(r[0]))
  {
    if s != "" && IsSpace(s[0]) then LStrip(s[1..]) else s
  }

  function RStrip(s: string): (r: string)
    ensures |r| <= |s| && (r != "" ==> !IsSpace(r[|r| - 1]))
  {
    if s != "" && IsSpace(s[|s| - 1]) then RStrip(s[..|s| - 1]) else s
  }

  lemma {:induction false} LStripKeepsEnd(s: string)
    requires s != "" && !IsSpace(s[|s| - 1])
    ensures LStrip(s) != "" && !IsSpace(LStrip(s)[|LStrip(s)| - 1])
  {
    if IsSpace(s[0]) {
      assert |s| > 1;
      LStripKeepsEnd(s[1..]);
    }
  }

  lemma {:induction false} RStripKeepsStart(s: string)
    requires s != "" && !IsSpace(s[0])
    ensures RStrip(s) != "" && RStrip(s)[0] == s[0]
  {
    if IsSpace(s[|s| - 1]) {
      RStripKeepsStart(s[..|s| - 1]);
    }
  }

  function Strip(s: string): (r: string) {
    RStrip(LStrip(s))
  }

  lemma StripTrims(s: string)
    ensures Trimmed(Strip(s)) && (Trimmed(s) ==> Strip(s) == s)
  {
    if LStrip(s) != "" {
      RStripKeepsStart(LStrip(s));
    }
  }

  ghost predicate AllSpace(s: string) {
    forall i :: 0 <= i < |s| ==> IsSpace(s[i])
  }

  lemma {:induction false} LStripTells(s: string) returns (left: string)
    ensures s == left + LStrip(s) && AllSpace(left)
  {
    if s != "" && IsSpace(s[0]) {
      left := LStripTells(s[1..]);
      left := [s[0]] + left;
    } else {
      left := "";
    }
  }

  lemma {:induction false} RStripTells(s: string) returns (right: string)
    ensures s == RStrip(s) + right && AllSpace(right)
  {
    if s != "" && IsSpace(s[|s| - 1]) {
      right := RStripTells(s[..|s| - 1]);
      right := right + [s[|s| - 1]];
    } else {
      right := "";
    }
  }

  /** Stripping takes white space off both ends, all of it and nothing else. */
  lemma StripTells(s: string) returns (left: string, right: string)
    ensures s == left + Strip(s) + right && AllSpace(left) && AllSpace(right) && Trimmed(Strip(s))
  {
    left := LStripTells(s);
    right := RStripTells(LStrip(s));
    StripTrims(s);
  }

  predicate Trimmed(s: string) {
    s != "" ==> !IsSpace(s[0]) && !IsSpace(s[|s| - 1])
  }

  function Keep(c: char): string {
    if IsSpace(c) then "" else [c]
  }

  /** The characters that are not white space, in order. */
  function Solid(s: string): string {
    if |s| == 0 then [] else Solid(s[..|s| - 1]) + Keep(s[|s| - 1])
  }

  lemma {:induction false} SolidAppend(a: string, b: string)
    ensures Solid(a + b) == Solid(a) + Solid(b)
  {
    if |b| == 0 {
      assert a + b == a;
    } else {
      var init, c, ab := b[..|b| - 1], b[|b| - 1], a + b;
      SolidAppend(a, init);
      assert ab[..|ab| - 1] == a + init && ab[|ab| - 1] == c;
      assert (Solid(a) + Solid(init)) + Keep(c) == Solid(a) + (Solid(init) + Keep(c));
    }
  }

  lemma SolidSpace(c: char)
    requires IsSpace(c)
    ensures Solid([c]) == ""
  {
    assert [c][..0] == "";
  }

  lemma {:induction false} SolidLStrip(s: string)
    ensures Solid(LStrip(s)) == Solid(s)
  {
    if s != "" && IsSpace(s[0]) {
      SolidLStrip(s[1..]);
      SolidAppend([s[0]], s[1..]);
      assert [s[0]] + s[1..] == s;
    }
  }

  lemma {:induction false} SolidRStrip(s: string)
    ensures Solid(RStrip(s)) == Solid(s)
  {
    if s != "" && IsSpace(s[|s| - 1]) {
      SolidRStrip(s[..|s| - 1]);
    }
  }

  lemma SolidStrip(s: string)
    ensures Solid(Strip(s)) == Solid(s)
  {
    SolidLStrip(s);
    SolidRStrip(LStrip(s));
  }

  function Flatten(ss: seq<string>): string {
    if ss == [] then "" else Flatten(ss[..|ss| - 1]) + ss[|ss| - 1]
  }

  lemma {:induction false} FlattenAppend(a: seq<string>, b: seq<string>)
    ensures Flatten(a + b) == Flatten(a) + Flatten(b)
  {
    if b == [] {
      assert a + b == a;
    } else {
      FlattenAppend(a, b[..|b| - 1]);
      assert (a + b)[..|a + b| - 1] == a + b[..|b| - 1];
    }
  }

  /** Comparison of strings by code unit, as `>` and an uncompared sort do. */
  predicate AtMost(a: string, b: string) {
    a == "" || (b != "" && (a[0] < b[0] || (a[0] == b[0] && AtMost(a[1..], b[1..]))))
  }

  lemma {:induction false} AtMostTotal(a: string, b: string)
    ensures AtMost(a, b) || AtMost(b, a)
    ensures AtMost(a, b) && AtMost(b, a) ==> a == b
  {
    if a != "" && b != "" {
      AtMostTotal(a[1..], b[1..]);
      assert a == [a[0]] + a[1..] && b == [b[0]] + b[1..];
    }
  }

  lemma {:induction false} AtMostTransitive(a: string, b: string, c: string)
    requires AtMost(a, b) && AtMost(b, c)
    ensures AtMost(a, c)
  {
    if a != "" && a[0] == b[0] == c[0] {
      AtMostTransitive(a[1..], b[1..], c[1..]);
    }
  }
}
