/** Normalisation of source-relative paths (Unicode NFKC is taken as the identity). */
module Paths {

  function ForwardSlashes(s: string): (r: string)
    ensures |r| == |s|
    ensures forall i :: 0 <= i < |r| ==> r[i] != '\\'
  {
    seq(|s|, i requires 0 <= i < |s| => if s[i] == '\\' then '/' else s[i])
  }

  /** Every run of slashes becomes one slash. */
  function Collapse(s: string): string {
    if |s| < 2 then s
    else if s[0] == '/' && s[1] == '/' then Collapse(s[1..])
    else [s[0]] + Collapse(s[1..])
  }

  predicate Edge(c: char) { c == '/' || c == ' ' }

  function TrimLeft(s: string): string {
    if s != "" && Edge(s[0]) then TrimLeft(s[1..]) else s
  }

  function TrimRight(s: string): string {
    if s != "" && Edge(s[|s| - 1]) then TrimRight(s[..|s| - 1]) else s
  }

  function Normalize(s: string): string {
    var t := TrimRight(TrimLeft(Collapse(ForwardSlashes(s))));
    if t == "" then "document" else t
  }

  /** The shape of a normalised path: what `Normalize` produces and leaves alone. */
  ghost predicate Canonical(s: string) {
    && s != "" && !Edge(s[0]) && !Edge(s[|s| - 1])
    && Clean(s)
  }

  ghost predicate Clean(s: string) {
    && (forall i :: 0 <= i < |s| ==> s[i] != '\\')
    && (forall i :: 0 <= i < |s| - 1 ==> !(s[i] == '/' && s[i + 1] == '/'))
  }

  lemma {:induction false} CollapseCleans(s: string)
    requires forall i :: 0 <= i < |s| ==> s[i] != '\\'
    ensures Clean(Collapse(s))
    ensures s != "" ==> Collapse(s) != "" && Collapse(s)[0] == s[0]
  {
    if |s| >= 2 {
      CollapseCleans(s[1..]);
    }
  }

  lemma {:induction false} CollapseKeepsClean(s: string)
    requires Clean(s)
    ensures Collapse(s) == s
  {
    if |s| >= 2 {
      assert Clean(s[1..]) by {
        forall i | 0 <= i < |s[1..]| - 1 ensures !(s[1..][i] == '/' && s[1..][i + 1] == '/') {
          assert s[1..][i] == s[i + 1] && s[1..][i + 1] == s[i + 2];
        }
      }
      CollapseKeepsClean(s[1..]);
    }
  }

  lemma {:induction false} TrimLeftTrims(s: string)
    requires Clean(s)
    ensures Clean(TrimLeft(s)) && (TrimLeft(s) != "" ==> !Edge(TrimLeft(s)[0]))
  {
    if s != "" && Edge(s[0]) {
      assert Clean(s[1..]) by {
        forall i | 0 <= i < |s[1..]| - 1 ensures !(s[1..][i] == '/' && s[1..][i + 1] == '/') {
          assert s[1..][i] == s[i + 1] && s[1..][i + 1] == s[i + 2];
        }
      }
      TrimLeftTrims(s[1..]);
    }
  }

  lemma {:induction false} TrimRightTrims(s: string)
    requires Clean(s) && (s != "" ==> !Edge(s[0]))
    ensures TrimRight(s) == "" || Canonical(TrimRight(s))
  {
    if s != "" && Edge(s[|s| - 1]) {
      TrimRightTrims(s[..|s| - 1]);
    }
  }

  lemma NormalizeIsCanonical(s: string)
    ensures Canonical(Normalize(s))
  {
    var t := ForwardSlashes(s);
    CollapseCleans(t);
    TrimLeftTrims(Collapse(t));
    TrimRightTrims(TrimLeft(Collapse(t)));
    assert Canonical("document");
  }

  /** Normalising is a projection onto the canonical paths. */
  lemma NormalizeFixes(s: string)
    ensures Normalize(s) == s <==> Canonical(s)
  {
    NormalizeIsCanonical(s);
    if Canonical(s) {
      assert ForwardSlashes(s) == s;
      CollapseKeepsClean(s);
    }
  }

  // ---------- Normalisation, rule by rule ----------

  // These rules rewrite any path into a canonical one or into the empty one, so they leave no choice.

  lemma EmptyIsDocument()
    ensures Normalize("") == "document"
  {
  }

  /** A backslash counts as a slash. */
  lemma BackslashIsSlash(a: string, b: string)
    ensures Normalize(a + "\\" + b) == Normalize(a + "/" + b)
  {
    assert ForwardSlashes(a + "\\" + b) == ForwardSlashes(a + "/" + b);
  }

  /** Two slashes in a row count as one. */
  lemma DoubleSlashIsOne(a: string, b: string)
    ensures Normalize(a + "//" + b) == Normalize(a + "/" + b)
  {
    var x, y := ForwardSlashes(a), ForwardSlashes(b);
    assert ForwardSlashes(a + "//" + b) == x + "//" + y;
    assert ForwardSlashes(a + "/" + b) == x + "/" + y;
    CollapseDouble(x, y);
  }

  lemma {:induction false} CollapseDouble(a: string, b: string)
    ensures Collapse(a + "//" + b) == Collapse(a + "/" + b)
    decreases |a|
  {
    if a == "" {
      assert ("" + "//" + b)[1..] == "" + "/" + b;
    } else {
      CollapseDouble(a[1..], b);
      assert (a + "//" + b)[1..] == a[1..] + "//" + b && (a + "/" + b)[1..] == a[1..] + "/" + b;
      assert (a + "//" + b)[1] == (a + "/" + b)[1];
    }
  }

  /** A slash or blank at either end does not count. */
  lemma OuterEdgesGo(s: string, c: char)
    requires Edge(c)
    ensures Normalize([c] + s) == Normalize(s) && Normalize(s + [c]) == Normalize(s)
  {
    var t := ForwardSlashes(s);
    assert ForwardSlashes([c] + s) == [c] + t && ForwardSlashes(s + [c]) == t + [c];
    CollapseFront(c, t);
    CollapseBack(t, c);
    TrimLeftBack(Collapse(t), c);
  }

  lemma CollapseFront(c: char, t: string)
    requires Edge(c)
    ensures TrimLeft(Collapse([c] + t)) == TrimLeft(Collapse(t))
  {
    assert ([c] + t)[1..] == t;
    if t == "" {
      assert Collapse([c] + t) == [c];
    } else if !(c == '/' && t[0] == '/') {
      assert Collapse([c] + t) == [c] + Collapse(t);
    }
  }

  /** A slash behind a slash disappears; any other character stays. */
  lemma {:induction false} CollapseBack(t: string, c: char)
    ensures Collapse(t + [c]) == Collapse(t) || Collapse(t + [c]) == Collapse(t) + [c]
    decreases |t|
  {
    if |t| == 1 {
      assert (t + [c])[1..] == [c];
    } else if |t| >= 2 {
      CollapseBack(t[1..], c);
      assert (t + [c])[1..] == t[1..] + [c];
    }
  }

  lemma {:induction false} TrimLeftBack(s: string, c: char)
    requires Edge(c)
    ensures TrimRight(TrimLeft(s + [c])) == TrimRight(TrimLeft(s))
    decreases |s|
  {
    if s == "" {
      assert s + [c] == [c] && [c][1..] == "";
    } else if Edge(s[0]) {
      assert (s + [c])[1..] == s[1..] + [c];
      TrimLeftBack(s[1..], c);
    } else {
      assert (s + [c])[..|s|] == s;
    }
  }
}
