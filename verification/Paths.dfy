/** Normalised paths: a sequence of names and its "/"-joined string. The empty sequence is the root, written ".". */
module Paths {
  import opened Text

  predicate IsName(s: string) {
    s != "" && '/' !in s && s != "." && s != ".."
  }

  type Name = s: string | IsName(s) witness "a"
  type Path = seq<Name>

  function Join(p: Path): string {
    if p == [] then "" else if |p| == 1 then p[0] else p[0] + "/" + Join(p[1..])
  }

  function Str(p: Path): (r: string)
    ensures r != ""
  {
    if p == [] then "." else Join(p)
  }

  // Reading a stored string back: split at "/" and drop what normalisation drops.
  function FromStr(s: string): Path
    decreases |s|
  {
    var n := Head(s);
    var rest := if |n| < |s| then FromStr(s[|n| + 1..]) else [];
    if IsName(n) then [n] + rest else rest
  }

  function Head(s: string): (h: string)
    ensures h <= s && '/' !in h && (|h| < |s| ==> s[|h|] == '/')
  {
    if s == "" || s[0] == '/' then "" else [s[0]] + Head(s[1..])
  }

  lemma HeadOfJoin(n: string, rest: string)
    requires '/' !in n
    ensures Head(n + "/" + rest) == n && Head(n) == n
  {
    var s := n + "/" + rest;
    var h := Head(s);
    assert forall i :: 0 <= i < |h| ==> h[i] == s[i];
    assert forall i :: 0 <= i < |n| ==> n[i] == s[i];
    assert s[|n|] == '/';
    assert |h| == |n|;
    assert h == s[..|h|] && n == s[..|n|];
    var g := Head(n);
    assert |g| == |n|;
    assert g == n[..|n|];
  }

  /** The string of a path determines the path. */
  lemma {:induction false} FromStrInverse(p: Path)
    ensures FromStr(Str(p)) == p
  {
    if p != [] {
      JoinInverse(p);
    } else {
      assert Head(".") == ".";
    }
  }

  lemma {:induction false} JoinInverse(p: Path)
    requires p != []
    ensures FromStr(Join(p)) == p
  {
    hide Head;
    assert p == [p[0]] + p[1..];
    if |p| == 1 {
      HeadOfJoin(p[0], "");
    } else {
      var s := p[0] + "/" + Join(p[1..]);
      HeadOfJoin(p[0], Join(p[1..]));
      assert s[|p[0]| + 1..] == Join(p[1..]);
      JoinInverse(p[1..]);
    }
  }

  lemma {:induction false} JoinConcat(p: Path, q: Path)
    requires p != [] && q != []
    ensures Join(p + q) == Join(p) + "/" + Join(q)
  {
    if |p| == 1 {
      assert (p + q)[1..] == q;
    } else {
      assert (p + q)[1..] == p[1..] + q;
      JoinConcat(p[1..], q);
    }
  }

  // ----- Case folding

  function LowerName(n: Name): Name {
    var r := Lower(n);
    assert IsName(r) by {
      assert forall i :: 0 <= i < |n| ==> (r[i] == '.' <==> n[i] == '.');
      assert r == "." ==> n == ".";
      assert r == ".." ==> n == "..";
    }
    r
  }

  function Fold(p: Path): (r: Path)
    ensures |r| == |p|
    ensures forall i :: 0 <= i < |p| ==> r[i] == LowerName(p[i])
  {
    seq(|p|, i requires 0 <= i < |p| => LowerName(p[i]))
  }

  // Equality of paths: the same up to case.
  predicate Same(p: Path, q: Path) {
    Fold(p) == Fold(q)
  }

  lemma SameLengths(p: Path, q: Path)
    ensures Same(p, q) ==> |p| == |q|
  {
    assert |Fold(p)| == |p| && |Fold(q)| == |q|;
  }

  lemma SameReflexive(p: Path)
    ensures Same(p, p)
  {
  }

  lemma FoldTake(p: Path, k: nat)
    requires k <= |p|
    ensures Fold(p[..k]) == Fold(p)[..k]
  {
  }

  lemma FoldConcat(p: Path, q: Path)
    ensures Fold(p + q) == Fold(p) + Fold(q)
  {
  }

  lemma {:induction false} LowerJoin(p: Path)
    ensures Lower(Join(p)) == Join(Fold(p))
  {
    if |p| == 1 {
      assert Fold(p) == [LowerName(p[0])];
    } else if |p| > 1 {
      LowerJoin(p[1..]);
      LowerConcat(p[0] + "/", Join(p[1..]));
      LowerConcat(p[0], "/");
      assert Lower("/") == "/";
      assert Fold(p)[1..] == Fold(p[1..]);
    }
  }

  lemma LowerStr(p: Path)
    ensures Lower(Str(p)) == Str(Fold(p))
  {
    LowerJoin(p);
  }

  lemma StrInjective(p: Path, q: Path)
    requires Str(p) == Str(q)
    ensures p == q
  {
    FromStrInverse(p);
    FromStrInverse(q);
  }

  lemma RootString(p: Path)
    ensures Str(p) == "." <==> p == []
  {
    if Str(p) == "." { StrInjective(p, []); }
  }

  /** Paths compare by folded strings; that is equality of folded components. */
  lemma SameIsStringEquality(p: Path, q: Path)
    ensures Same(p, q) <==> Lower(Str(p)) == Lower(Str(q))
  {
    LowerStr(p);
    LowerStr(q);
    if Str(Fold(p)) == Str(Fold(q)) { StrInjective(Fold(p), Fold(q)); }
  }

  // ----- Parents

  function Parent(p: Path): Path {
    if p == [] then [] else p[..|p| - 1]
  }

  function NameOf(p: Path): string {
    if p == [] then "." else p[|p| - 1]
  }

  // Every proper ancestor, the root included; the root itself has none.
  function Parents(p: Path): (r: set<Path>)
    ensures forall q :: q in r <==> q < p
  {
    var r := set k | 0 <= k < |p| :: p[..k];
    assert forall q :: q < p ==> q == p[..|q|];
    r
  }

  // q lies strictly below p, up to case.
  predicate Below(p: Path, q: Path) {
    Fold(p) < Fold(q)
  }

  predicate AtOrBelow(p: Path, q: Path) {
    Fold(p) <= Fold(q)
  }

  // ----- Prefix queries on strings

  lemma PrefixAfterSlash(a: string, u: string, b: string, t: string)
    requires '/' !in a && '/' !in b
    ensures a + "/" + u <= b + "/" + t <==> a == b && u <= t
  {
    var x, y := a + "/" + u, b + "/" + t;
    if x <= y {
      var rest := y[|a| + 1..];
      assert a + "/" + rest == y;
      HeadUnique(a, rest, b, t);
      assert u == x[|a| + 1..];
    }
  }

  lemma {:induction false} JoinPrefix(p: Path, q: Path)
    requires p != []
    ensures Join(p) + "/" <= Join(q) <==> p < q
  {
    var a, s := p[0], Join(q);
    if |q| <= 1 {
      assert forall i :: 0 <= i < |s| ==> s[i] != '/';
      assert (Join(p) + "/")[|a|] == '/';
    } else {
      var t := Join(q[1..]);
      assert s == q[0] + "/" + t;
      var u := if |p| == 1 then "" else Join(p[1..]) + "/";
      assert Join(p) + "/" == a + "/" + u;
      PrefixAfterSlash(a, u, q[0], t);
      if |p| > 1 { JoinPrefix(p[1..], q[1..]); }
      assert p == [a] + p[1..] && q == [q[0]] + q[1..];
      assert p < q <==> a == q[0] && p[1..] < q[1..];
    }
  }

  /** "Starts with p + '/'" on strings is proper ancestry on components; for the root "./" nothing matches. */
  lemma PrefixIsAncestry(p: Path, q: Path)
    ensures Str(p) + "/" <= Str(q) <==> p != [] && p < q
  {
    if p == [] {
      assert (Str(p) + "/")[..2] == "./";
      if q != [] {
        assert Join(q)[..|q[0]|] == q[0];
        if "./" <= Join(q) {
          if |q| == 1 {
            assert Join(q)[1] == '/';
          } else {
            HeadUnique(".", Join(q)[2..], q[0], Join(q[1..]));
          }
        }
      }
    } else {
      JoinPrefix(p, q);
      if q == [] { assert |Str(p) + "/"| >= 2; }
    }
  }

  /** The same for the case-insensitive query. */
  lemma IPrefixIsAncestry(p: Path, q: Path)
    ensures IStartsWith(Str(q), Str(p) + "/") <==> p != [] && Below(p, q)
  {
    LowerStr(p);
    LowerStr(q);
    LowerConcat(Str(p), "/");
    assert Lower("/") == "/";
    PrefixIsAncestry(Fold(p), Fold(q));
  }

  // is_relative_to on the paths' strings.
  predicate IsRelativeTo(q: Path, p: Path) {
    || Str(p) == "."
    || Lower(Str(q)) == Lower(Str(p))
    || Lower(Str(p)) + "/" <= Lower(Str(q))
  }

  /** is_relative_to says: q is p, or has p among its parents, up to case. */
  lemma RelativeIsAncestry(q: Path, p: Path)
    ensures IsRelativeTo(q, p) <==> AtOrBelow(p, q)
    ensures IsRelativeTo(q, p) <==> (Same(p, q) || exists a :: a in Parents(q) && Same(a, p))
  {
    LowerConcat(Str(p), "/");
    assert Lower("/") == "/";
    IPrefixIsAncestry(p, q);
    SameIsStringEquality(q, p);
    RootString(p);
    if AtOrBelow(p, q) {
      FoldTake(q, |p|);
      assert Same(q[..|p|], p);
      if |p| == |q| { assert q[..|p|] == q; } else { assert q[..|p|] in Parents(q); }
    }
    if a :| a in Parents(q) && Same(a, p) {
      assert a == q[..|a|];
      FoldTake(q, |a|);
    }
  }

  /** is_relative_to is a partial order up to case. */
  lemma RelativeIsPartialOrder(p: Path, q: Path, r: Path)
    ensures IsRelativeTo(p, p)
    ensures IsRelativeTo(p, q) && IsRelativeTo(q, p) ==> Same(p, q)
    ensures IsRelativeTo(p, q) && IsRelativeTo(q, r) ==> IsRelativeTo(p, r)
  {
    RelativeIsAncestry(p, p);
    RelativeIsAncestry(p, q);
    RelativeIsAncestry(q, p);
    RelativeIsAncestry(q, r);
    RelativeIsAncestry(p, r);
  }

  // path.with_restored_casing(p), on strings.
  function RestoredString(q: Path, p: Path): string
    requires AtOrBelow(p, q)
  {
    RootString(p);
    if Str(p) == "." then Str(q)
    else AncestorString(p, q); Str(p) + Str(q)[|Str(p)|..]
  }

  function WithRestoredCasing(q: Path, p: Path): Path
    requires AtOrBelow(p, q)
  {
    p + q[|p|..]
  }

  lemma SameLength(p: Path, q: Path)
    requires Same(p, q)
    ensures |Str(p)| == |Str(q)|
  {
    LowerStr(p);
    LowerStr(q);
    assert |Lower(Str(p))| == |Lower(Str(q))|;
  }

  lemma ConcatString(p: Path, rest: Path)
    requires p != []
    ensures Str(p + rest) == Str(p) + if rest == [] then "" else "/" + Join(rest)
  {
    if rest == [] {
      assert p + rest == p;
    } else {
      JoinConcat(p, rest);
    }
  }

  lemma AncestorString(p: Path, q: Path)
    requires AtOrBelow(p, q) && p != []
    ensures |Str(p)| <= |Str(q)|
    ensures Str(q)[|Str(p)|..] == if |p| == |q| then "" else "/" + Join(q[|p|..])
  {
    var a, rest := q[..|p|], q[|p|..];
    FoldTake(q, |p|);
    SameLength(p, a);
    hide AtOrBelow, Same;
    assert q == a + rest;
    ConcatString(a, rest);
    hide Str, Join;
    var tail := if rest == [] then "" else "/" + Join(rest);
    assert Str(q) == Str(a) + tail;
  }

  /** Restoring casing keeps the path up to case and takes the leading components from the given path. */
  lemma RestoredCasingSame(q: Path, p: Path)
    requires AtOrBelow(p, q)
    ensures Same(WithRestoredCasing(q, p), q) && p <= WithRestoredCasing(q, p)
  {
    FoldConcat(p, q[|p|..]);
    FoldConcat(q[..|p|], q[|p|..]);
    assert q[..|p|] + q[|p|..] == q;
    FoldTake(q, |p|);
  }

  /** with_restored_casing cuts and joins strings; the result is that path. */
  lemma RestoredCasingString(q: Path, p: Path)
    requires AtOrBelow(p, q)
    ensures RestoredString(q, p) == Str(WithRestoredCasing(q, p))
  {
    RootString(p);
    if p == [] {
      assert p + q[|p|..] == q;
    } else {
      AncestorString(p, q);
      ConcatString(p, q[|p|..]);
    }
  }

  /** On a row whose leading components are exactly `at`, replace-first swaps that prefix. */
  lemma ReplaceFirstIsPrefixSwap(q: Path, at: Path, to: Path)
    requires at != [] && at < q && to != []
    ensures FromStr(ReplaceFirst(Str(q), Str(at), Str(to))) == to + q[|at|..]
  {
    var rest := q[|at|..];
    assert q == at + rest;
    JoinConcat(at, rest);
    assert Str(at) <= Str(q);
    assert Str(q)[|Str(at)|..] == "/" + Join(rest);
    JoinConcat(to, rest);
    assert ReplaceFirst(Str(q), Str(at), Str(to)) == Join(to) + ("/" + Join(rest));
    assert Join(to) + ("/" + Join(rest)) == Str(to + rest);
    FromStrInverse(to + rest);
  }

  lemma SameParents(p: Path, q: Path)
    requires Same(p, q) && p != [] && q != []
    ensures Same(Parent(p), Parent(q))
  {
    SameLengths(p, q);
    FoldTake(p, |p| - 1);
    FoldTake(q, |q| - 1);
  }
}
