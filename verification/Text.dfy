/** Strings as the database and Python treat them: case folding, prefix tests and the two replace operations. */
module Text {

  // Case folding is taken to be length preserving, so only ASCII letters fold.
  function LowerChar(c: char): char {
    if 'A' <= c <= 'Z' then (c as int + 32) as char else c
  }

  function Lower(s: string): (r: string)
    ensures |r| == |s|
    ensures forall i :: 0 <= i < |s| ==> r[i] == LowerChar(s[i])
  {
    seq(|s|, i requires 0 <= i < |s| => LowerChar(s[i]))
  }

  lemma LowerConcat(a: string, b: string)
    ensures Lower(a + b) == Lower(a) + Lower(b)
  {
  }

  // Python's str.startswith after folding, and the database's `istartswith`.
  predicate IStartsWith(s: string, prefix: string) {
    Lower(prefix) <= Lower(s)
  }

  predicate Contains(s: string, pat: string) {
    exists i :: 0 <= i <= |s| && pat <= s[i..]
  }

  // Python's s.replace(pat, rep, 1).
  function ReplaceFirst(s: string, pat: string, rep: string): string
    requires pat != ""
  {
    if pat <= s then rep + s[|pat|..]
    else if s == "" then ""
    else [s[0]] + ReplaceFirst(s[1..], pat, rep)
  }

  // SQL's REPLACE(s, pat, rep): every non-overlapping occurrence, left to right.
  function ReplaceAll(s: string, pat: string, rep: string): string
    requires pat != ""
    decreases |s|
  {
    if pat <= s then rep + ReplaceAll(s[|pat|..], pat, rep)
    else if s == "" then ""
    else [s[0]] + ReplaceAll(s[1..], pat, rep)
  }

  lemma {:induction false} ReplaceAllBySame(s: string, pat: string)
    requires pat != ""
    ensures ReplaceAll(s, pat, pat) == s
    decreases |s|
  {
    if pat <= s {
      ReplaceAllBySame(s[|pat|..], pat);
      assert s == pat + s[|pat|..];
    } else if s != "" {
      ReplaceAllBySame(s[1..], pat);
    }
  }

  lemma ContainsTail(s: string, pat: string)
    requires s != "" && !(pat <= s)
    ensures Contains(s, pat) <==> Contains(s[1..], pat)
  {
    if Contains(s, pat) {
      var i :| 0 <= i <= |s| && pat <= s[i..];
      assert i > 0;
      assert s[1..][i - 1..] == s[i..];
    }
    if Contains(s[1..], pat) {
      var i :| 0 <= i <= |s[1..]| && pat <= s[1..][i..];
      assert s[1..][i..] == s[i + 1..];
    }
  }

  function Replacements(s: string, pat: string): nat
    requires pat != ""
    decreases |s|
  {
    if pat <= s then 1 + Replacements(s[|pat|..], pat)
    else if s == "" then 0
    else Replacements(s[1..], pat)
  }

  lemma {:induction false} ReplaceAllLength(s: string, pat: string, rep: string)
    requires pat != ""
    ensures |rep| >= |pat| ==> |ReplaceAll(s, pat, rep)| >= |s|
    ensures |rep| <= |pat| ==> |ReplaceAll(s, pat, rep)| <= |s|
    ensures Replacements(s, pat) > 0 && |rep| > |pat| ==> |ReplaceAll(s, pat, rep)| > |s|
    ensures Replacements(s, pat) > 0 && |rep| < |pat| ==> |ReplaceAll(s, pat, rep)| < |s|
    decreases |s|
  {
    if pat <= s {
      ReplaceAllLength(s[|pat|..], pat, rep);
    } else if s != "" {
      ReplaceAllLength(s[1..], pat, rep);
    }
  }

  lemma {:induction false} ReplacementsPositive(s: string, pat: string)
    requires pat != ""
    ensures Replacements(s, pat) > 0 <==> Contains(s, pat)
    decreases |s|
  {
    if pat <= s {
      assert s[0..] == s;
    } else if s != "" {
      ContainsTail(s, pat);
      ReplacementsPositive(s[1..], pat);
    }
  }

  lemma {:induction false} ReplaceAllChanges(s: string, pat: string, rep: string)
    requires pat != "" && |pat| == |rep| && pat != rep && Contains(s, pat)
    ensures ReplaceAll(s, pat, rep) != s
    decreases |s|
  {
    if pat <= s {
      assert ReplaceAll(s, pat, rep)[..|rep|] == rep;
      assert s[..|pat|] == pat;
    } else {
      ContainsTail(s, pat);
      ReplaceAllChanges(s[1..], pat, rep);
      assert ReplaceAll(s, pat, rep)[1..] == ReplaceAll(s[1..], pat, rep);
    }
  }

  lemma {:induction false} ReplaceAllAbsent(s: string, pat: string, rep: string)
    requires pat != "" && !Contains(s, pat)
    ensures ReplaceAll(s, pat, rep) == s
    decreases |s|
  {
    if s != "" {
      assert !(pat <= s) by { assert s[0..] == s; }
      ContainsTail(s, pat);
      ReplaceAllAbsent(s[1..], pat, rep);
    } else {
      assert s[0..] == s;
    }
  }

  /** SQL REPLACE on a key that starts with the pattern swaps just that prefix
      exactly when the remainder does not contain the pattern again. */
  lemma ReplaceAllIsPrefixSwap(pat: string, rep: string, rest: string)
    requires pat != "" && pat != rep
    ensures ReplaceAll(pat + rest, pat, rep) == rep + rest <==> !Contains(rest, pat)
  {
    var s := pat + rest;
    assert s[|pat|..] == rest;
    assert ReplaceAll(s, pat, rep) == rep + ReplaceAll(rest, pat, rep);
    assert (rep + ReplaceAll(rest, pat, rep))[|rep|..] == ReplaceAll(rest, pat, rep);
    assert (rep + rest)[|rep|..] == rest;
    if Contains(rest, pat) {
      if |pat| == |rep| {
        ReplaceAllChanges(rest, pat, rep);
      } else {
        ReplaceAllLength(rest, pat, rep);
        ReplacementsPositive(rest, pat);
      }
    } else {
      ReplaceAllAbsent(rest, pat, rep);
    }
  }

  /** Two strings with a separator cannot be parsed in two ways when the heads lack it. */
  lemma {:induction false} HeadUnique(a: string, x: string, b: string, y: string)
    requires '/' !in a && '/' !in b
    requires a + "/" + x == b + "/" + y
    ensures a == b && x == y
  {
    var s := a + "/" + x;
    assert s[|a|] == '/' && s[|b|] == '/';
    assert forall i :: 0 <= i < |a| ==> s[i] == a[i];
    assert forall i :: 0 <= i < |b| ==> s[i] == b[i];
    assert |a| == |b|;
    assert s[..|a|] == a && s[..|b|] == b;
    assert s[|a| + 1..] == x && s[|b| + 1..] == y;
  }

  // The order of strings by code points.
  predicate LexLe(a: string, b: string) {
    a == "" || (b != "" && (a[0] < b[0] || (a[0] == b[0] && LexLe(a[1..], b[1..]))))
  }

  lemma {:induction false} LexTotal(a: string, b: string)
    ensures LexLe(a, b) || LexLe(b, a)
    ensures LexLe(a, b) && LexLe(b, a) ==> a == b
  {
    if a != "" && b != "" && a[0] == b[0] {
      LexTotal(a[1..], b[1..]);
      if a[1..] == b[1..] { assert a == [a[0]] + a[1..] && b == [b[0]] + b[1..]; }
    }
  }

  lemma {:induction false} LexTransitive(a: string, b: string, c: string)
    requires LexLe(a, b) && LexLe(b, c)
    ensures LexLe(a, c)
  {
    if a != "" && a[0] == b[0] && b[0] == c[0] {
      LexTransitive(a[1..], b[1..], c[1..]);
    }
  }

  lemma {:induction false} LexPrefix(a: string, b: string)
    requires a <= b
    ensures LexLe(a, b)
  {
    if a != "" { LexPrefix(a[1..], b[1..]); }
  }
}
