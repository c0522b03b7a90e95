/** Numbered names: the path an upload gets when its own is taken. */
module Names {
  import opened Text
  import opened Paths
  import opened Rows
  import opened Trees

  // ----- Stems and suffixes

  function LastDot(s: string): (r: int)
    ensures -1 <= r < |s| && (r >= 0 ==> s[r] == '.')
  {
    if s == "" then -1 else if s[|s| - 1] == '.' then |s| - 1 else LastDot(s[..|s| - 1])
  }

  // os.path.splitext on a name: leading dots do not start a suffix.
  function SplitExt(name: string): (r: (string, string))
    ensures r.0 + r.1 == name
  {
    var d := LastDot(name);
    if d > 0 && exists i :: 0 <= i < d && name[i] != '.' then (name[..d], name[d..]) else (name, "")
  }

  const ENCODINGS := {".gz", ".Z", ".bz2", ".xz", ".br"}

  // A compression suffix is kept together with the one before it.
  function SplitName(name: string): (r: (string, string))
    ensures r.0 + r.1 == name
  {
    var (stem, suffix) := SplitExt(name);
    if suffix in ENCODINGS then
      var (inner, ext) := SplitExt(stem);
      assert inner + (ext + suffix) == (inner + ext) + suffix;
      (inner, ext + suffix)
    else (stem, suffix)
  }

  // The last dot of a name, unless there are only dots before it, starts its extension.
  ghost predicate StartsExtension(name: string, d: nat) {
    && d < |name| && name[d] == '.' && (exists i :: 0 <= i < d && name[i] != '.')
    && forall k :: d < k < |name| ==> name[k] != '.'
  }

  ghost predicate HasExtension(name: string) {
    exists d: nat :: StartsExtension(name, d)
  }

  predicate IsCompression(ext: string) {
    ext == ".gz" || ext == ".Z" || ext == ".bz2" || ext == ".xz" || ext == ".br"
  }

  // Where a name is cut: at its end, at its extension, or at the extension before a compression suffix.
  ghost predicate CutsAt(name: string, c: nat) {
    if !HasExtension(name) then c == |name|
    else exists d: nat :: StartsExtension(name, d) && CutsWith(name, d, c)
  }

  ghost predicate CutsWith(name: string, d: nat, c: nat)
    requires d <= |name|
  {
    if IsCompression(name[d..]) && HasExtension(name[..d]) then StartsExtension(name[..d], c) else c == d
  }

  lemma {:induction false} LastDotIsLast(s: string)
    ensures forall k :: LastDot(s) < k < |s| ==> s[k] != '.'
  {
    if s != "" && s[|s| - 1] != '.' {
      var front := s[..|s| - 1];
      LastDotIsLast(front);
      forall k | LastDot(s) < k < |s| - 1 ensures s[k] != '.' { assert s[k] == front[k]; }
    }
  }

  lemma OneExtension(name: string, d: nat, e: nat)
    requires StartsExtension(name, d) && StartsExtension(name, e)
    ensures d == e
  {
  }

  // splitext cuts at the extension, if there is one.
  lemma SplitExtCuts(name: string)
    ensures var d := |SplitExt(name).0|;
            if HasExtension(name) then StartsExtension(name, d) && SplitExt(name) == (name[..d], name[d..])
            else SplitExt(name) == (name, "")
  {
    LastDotIsLast(name);
    var d := LastDot(name);
    if e: nat :| StartsExtension(name, e) {
      assert d == e;
    }
    if d > 0 && exists i :: 0 <= i < d && name[i] != '.' { assert StartsExtension(name, d); }
  }

  /** Stem and suffix: the suffix is the extension, together with the one before it if it is a compression suffix. */
  lemma SplitNameCuts(name: string)
    ensures var (stem, suffix) := SplitName(name);
            stem + suffix == name && forall c: nat :: CutsAt(name, c) <==> c == |stem|
  {
    hide LastDot, SplitExt, StartsExtension, HasExtension;
    SplitExtCuts(name);
    var (stem, suffix) := SplitExt(name);
    if HasExtension(name) {
      forall d: nat | StartsExtension(name, d) ensures d == |stem| { OneExtension(name, d, |stem|); }
      assert suffix in ENCODINGS <==> IsCompression(suffix);
      SplitExtCuts(stem);
      forall c: nat | StartsExtension(stem, c) && HasExtension(stem) ensures c == |SplitExt(stem).0| {
        OneExtension(stem, c, |SplitExt(stem).0|);
      }
      forall c: nat ensures CutsWith(name, |stem|, c) <==> c == |SplitName(name).0| {
      }
    }
  }

  function Stem(p: Path): string {
    SplitName(NameOf(p)).0
  }

  function Suffix(p: Path): string {
    SplitName(NameOf(p)).1
  }

  // ----- Numbers

  function Digit(n: nat): char
    requires n < 10
  {
    (n + 48) as char
  }

  function Decimal(n: nat): (r: string)
    ensures r != "" && forall i :: 0 <= i < |r| ==> '0' <= r[i] <= '9'
  {
    if n < 10 then [Digit(n)] else Decimal(n / 10) + [Digit(n % 10)]
  }

  lemma {:induction false} DecimalInjective(m: nat, n: nat)
    requires Decimal(m) == Decimal(n)
    ensures m == n
  {
    var a, b := Decimal(m), Decimal(n);
    assert n >= 10 ==> |b| >= 2;
    assert m >= 10 ==> |a| >= 2;
    if m >= 10 && n >= 10 {
      assert a[..|a| - 1] == Decimal(m / 10) && b[..|b| - 1] == Decimal(n / 10);
      DecimalInjective(m / 10, n / 10);
      assert a[|a| - 1] == Digit(m % 10) && b[|b| - 1] == Digit(n % 10);
    }
  }

  // Reading digits.
  function Value(s: string): int {
    if s == "" then 0 else 10 * Value(s[..|s| - 1]) + s[|s| - 1] as int - '0' as int
  }

  /** A number is written in decimal, without leading zeros. */
  lemma {:induction false} DecimalReads(n: nat)
    ensures Value(Decimal(n)) == n && (n > 0 ==> Decimal(n)[0] != '0')
  {
    if n < 10 {
      assert Decimal(n)[..0] == "";
    } else {
      DecimalReads(n / 10);
      assert Decimal(n)[..|Decimal(n)| - 1] == Decimal(n / 10);
    }
  }

  // ----- Available paths

  // "{stem} ({n}){suffix}"
  function NumberedName(p: Path, n: nat): Name {
    var r := Stem(p) + (" (" + Decimal(n) + ")") + Suffix(p);
    NumberedIsName(p, n);
    r
  }

  lemma NoSlashInParts(a: string, b: string)
    ensures '/' !in a + b ==> '/' !in a && '/' !in b
  {
  }

  lemma PartsOfName(p: Path)
    ensures Stem(p) + Suffix(p) == NameOf(p) && '/' !in NameOf(p)
  {
  }

  lemma NumberedIsName(p: Path, n: nat)
    ensures IsName(Stem(p) + (" (" + Decimal(n) + ")") + Suffix(p))
  {
    var r := Stem(p) + (" (" + Decimal(n) + ")") + Suffix(p);
    hide Stem, Suffix, Decimal;
    var name := Stem(p) + Suffix(p);
    PartsOfName(p);
    NoSlashInParts(Stem(p), Suffix(p));
    assert '/' !in name;
    assert r[|Stem(p)| + 1] == '(';
  }

  function NumberedPath(p: Path, n: nat): Path {
    Parent(p) + [NumberedName(p, n)]
  }

  // The name as it is, with the number in parentheses where it is cut.
  ghost predicate NumberedAtCut(p: Path, n: nat, q: Path) {
    p != [] && exists c: nat :: CutsAt(p[|p| - 1], c) && NumberPut(p, n, c, q)
  }

  predicate NumberPut(p: Path, n: nat, c: nat, q: Path)
    requires p != []
  {
    var name := p[|p| - 1];
    && c <= |name| && |q| == |p| && q[..|p| - 1] == p[..|p| - 1]
    && q[|p| - 1] == name[..c] + (" (" + Decimal(n) + ")") + name[c..]
  }

  /** The number goes where the name is cut and the rest stays in place. */
  lemma NumberGoesAtCut(p: Path, n: nat)
    requires p != []
    ensures NumberedAtCut(p, n, NumberedPath(p, n))
  {
    hide SplitName, CutsAt, Decimal;
    var name := p[|p| - 1];
    SplitNameCuts(name);
    var c := |Stem(p)|;
    assert name[..c] == Stem(p) && name[c..] == Suffix(p);
    assert CutsAt(name, c) && NumberPut(p, n, c, NumberedPath(p, n));
  }

  /** The second "f.tar.gz" is "f (1).tar.gz". */
  lemma NumberedTarball()
    ensures NumberedPath(["f.tar.gz"], 1) == ["f (1).tar.gz"]
  {
    hide SplitName, CutsAt, Decimal;
    var p: Path := ["f.tar.gz"];
    TarballCut();
    SplitNameCuts(NameOf(p));
    assert NameOf(p)[..1] == "f" && NameOf(p)[1..] == ".tar.gz";
    OneIsOne();
    assert NumberedName(p, 1) == "f (1).tar.gz";
  }

  lemma TarballCut()
    ensures CutsAt("f.tar.gz", 1)
  {
    var name := "f.tar.gz";
    assert name[0] == 'f' && name[5] == '.';
    assert name[..5][0] == 'f' && name[..5][1] == '.';
    assert StartsExtension(name, 5) && name[5..] == ".gz";
    assert StartsExtension(name[..5], 1);
    assert CutsWith(name, 5, 1);
  }

  lemma OneIsOne()
    ensures Decimal(1) == "1"
  {
  }

  // Stem and suffix are put into the pattern as they are, so their dots match any character.
  predicate Wild(s: string, pat: string) {
    |s| == |pat| && forall i :: 0 <= i < |s| ==> pat[i] == '.' || LowerChar(s[i]) == LowerChar(pat[i])
  }

  const PATTERN_CHARS := {'\\', '^', '$', '|', '?', '*', '+', '(', ')', '[', ']', '{', '}'}

  // Nothing in the name but dots means more to a regular expression than itself.
  predicate PlainName(p: Path) {
    forall c :: c in NameOf(p) ==> c !in PATTERN_CHARS
  }

  predicate Digits(s: string) {
    s != "" && forall i :: 0 <= i < |s| ==> '0' <= s[i] <= '9'
  }

  // At position i of s: the stem, " (", digits, ")" and the suffix, up to the end.
  predicate NumberedAt(s: string, stem: string, suffix: string, i: nat) {
    var d, e := i + |stem| + 2, |s| - |suffix| - 1;
    && d <= e
    && Wild(s[i..i + |stem|], stem)
    && s[i + |stem|..d] == " (" && Digits(s[d..e]) && s[e] == ')'
    && Wild(s[e + 1..], suffix)
  }

  // s ends with "{stem} (digits){suffix}", for a plain name.
  predicate MatchesNumbered(s: string, stem: string, suffix: string) {
    exists i :: 0 <= i <= |s| && NumberedAt(s, stem, suffix, i)
  }

  // The pattern is matched against whole paths, anywhere in the namespace.
  function Numbered(t: Table, ns: string, p: Path): set<nat> {
    set i | i in t && t[i].ns == ns && MatchesNumbered(Str(t[i].path), Stem(p), Suffix(p))
  }

  // What the regular expression counts for a taken path: the numbered names, for a plain name; for any other name
  // nothing is known.
  ghost predicate Counted(t: Table, ns: string, p: Path, count: nat) {
    Taken(t, ns, p) && PlainName(p) ==> count == |Numbered(t, ns, p)|
  }

  ghost function Available(t: Table, ns: string, p: Path, count: nat): Path {
    if Taken(t, ns, p) then NumberedPath(p, count + 1) else p
  }

  // The path is free, or the number after the count is.
  ghost predicate FreeNumber(t: Table, ns: string, p: Path, count: nat) {
    Taken(t, ns, p) ==> !Taken(t, ns, NumberedPath(p, count + 1))
  }

  // Every number in use for this name in this folder is at most the namespace-wide count.
  ghost predicate NumbersBounded(t: Table, ns: string, p: Path) {
    forall n: nat :: Taken(t, ns, NumberedPath(p, n)) ==> n <= |Numbered(t, ns, p)|
  }

  /** While the numbers in use for a plain name are bounded by the count, the chosen path is free and asking again
      changes nothing, whatever is counted then. */
  lemma AvailableIsFree(t: Table, ns: string, p: Path, count: nat, again: nat)
    requires PlainName(p) && NumbersBounded(t, ns, p) && Counted(t, ns, p, count)
    ensures FreeNumber(t, ns, p, count) && !Taken(t, ns, Available(t, ns, p, count))
    ensures Available(t, ns, Available(t, ns, p, count), again) == Available(t, ns, p, count)
  {
    var n := count + 1;
    assert Taken(t, ns, NumberedPath(p, n)) ==> n <= |Numbered(t, ns, p)|;
  }

  lemma LastName(q: Path, name: Name) returns (pre: string)
    ensures Str(q + [name]) == pre + name
  {
    if q == [] {
      pre := "";
      assert q + [name] == [name];
    } else {
      pre := Join(q) + "/";
      JoinConcat(q, [name]);
    }
  }

  lemma NumberedMatches(p: Path, n: nat)
    ensures MatchesNumbered(Str(NumberedPath(p, n)), Stem(p), Suffix(p))
  {
    hide Stem, Suffix, Str, Decimal;
    var pre := LastName(Parent(p), NumberedName(p, n));
    NumberedParts(pre, Stem(p), Decimal(n), Suffix(p));
    assert NumberedAt(Str(NumberedPath(p, n)), Stem(p), Suffix(p), |pre|);
  }

  lemma NumberedParts(pre: string, stem: string, d: string, suffix: string)
    requires Digits(d)
    ensures NumberedAt(pre + (stem + (" (" + d + ")") + suffix), stem, suffix, |pre|)
  {
    var s := pre + (stem + (" (" + d + ")") + suffix);
    var i := |pre|;
    assert s[i..i + |stem|] == stem;
    assert s[i + |stem|..i + |stem| + 2] == " (";
    assert s[i + |stem| + 2..|s| - |suffix| - 1] == d;
    assert s[|s| - |suffix|..] == suffix;
  }

  lemma SameLastNames(q: Path, r: Path)
    requires Same(q, r) && q != [] && r != []
    ensures Lower(q[|q| - 1]) == Lower(r[|r| - 1])
  {
    assert |q| == |Fold(q)| == |Fold(r)| == |r|;
    assert Fold(q)[|q| - 1] == LowerName(q[|q| - 1]) && Fold(r)[|r| - 1] == LowerName(r[|r| - 1]);
  }

  lemma SameNumbers(p: Path, m: nat, n: nat)
    requires Same(NumberedPath(p, m), NumberedPath(p, n))
    ensures m == n
  {
    hide Stem, Suffix, Decimal, Lower, Same;
    SameLastNames(NumberedPath(p, m), NumberedPath(p, n));
    SameMiddles(Stem(p), Decimal(m), Decimal(n), Suffix(p));
    DecimalInjective(m, n);
  }

  lemma SameMiddles(stem: string, a: string, b: string, suffix: string)
    requires Digits(a) && Digits(b)
    requires Lower(stem + (" (" + a + ")") + suffix) == Lower(stem + (" (" + b + ")") + suffix)
    ensures a == b
  {
    var s, u := stem + (" (" + a + ")") + suffix, stem + (" (" + b + ")") + suffix;
    var o := |stem| + 2;
    assert |s| == |Lower(s)| == |Lower(u)| == |u|;
    assert |a| == |b|;
    assert s[o..o + |a|] == a && u[o..o + |b|] == b;
    forall i | 0 <= i < |a| ensures a[i] == b[i] {
      assert a[i] == s[o..o + |a|][i] == s[o + i] && b[i] == u[o..o + |b|][i] == u[o + i];
      assert Lower(s)[o + i] == Lower(u)[o + i];
    }
  }

  lemma NotItsOwnNumber(p: Path, n: nat)
    ensures !Same(NumberedPath(p, n), p)
  {
    var q := NumberedPath(p, n);
    NumberedIsLonger(p, n);
    LowerLength(NumberedName(p, n), NameOf(p));
    if Same(q, p) {
      SameLengths(q, p);
      SameLastNames(q, p);
    }
  }

  lemma NumberedIsLonger(p: Path, n: nat)
    ensures |NumberedName(p, n)| > |NameOf(p)|
  {
    assert NameOf(p) == Stem(p) + Suffix(p);
  }

  lemma LowerLength(s: string, u: string)
    ensures Lower(s) == Lower(u) ==> |s| == |u|
  {
    assert |Lower(s)| == |s| && |Lower(u)| == |u|;
  }

  lemma TakenAfter(t: Table, id: nat, r: Row, ns: string, p: Path)
    requires id !in t
    ensures Taken(Added(t, id, r), ns, p) <==> Taken(t, ns, p) || At(r, ns, p)
  {
    var t' := Added(t, id, r);
    if i :| i in t && At(t[i], ns, p) { assert At(t'[i], ns, p); }
    if At(r, ns, p) { assert At(t'[id], ns, p); }
    if i :| i in t' && At(t'[i], ns, p) {
      if i != id { assert At(t[i], ns, p); }
    }
  }

  lemma CountAfter(t: Table, id: nat, r: Row, ns: string, p: Path)
    requires id !in t && r.ns == ns
    ensures |Numbered(Added(t, id, r), ns, p)|
         == |Numbered(t, ns, p)| + if MatchesNumbered(Str(r.path), Stem(p), Suffix(p)) then 1 else 0
  {
    hide MatchesNumbered, Stem, Suffix, Str;
    var t' := Added(t, id, r);
    assert forall i :: i in t ==> t'[i].path == t[i].path && t'[i].ns == t[i].ns;
    var a, b := Numbered(t, ns, p), Numbered(t', ns, p);
    assert forall i :: i in t ==> (i in b <==> i in a);
    assert id in b <==> MatchesNumbered(Str(r.path), Stem(p), Suffix(p));
    OneMore(a, b, id);
  }

  lemma OneMore(a: set<nat>, b: set<nat>, id: nat)
    requires id !in a && forall i :: i != id ==> (i in a <==> i in b)
    ensures |b| == |a| + if id in b then 1 else 0
  {
    if id in b { assert b == a + {id}; } else { assert b == a; }
  }

  /** Saving a file under the chosen path keeps the numbers bounded. */
  lemma SavingKeepsBounded(t: Table, id: nat, r: Row, p: Path, count: nat)
    requires id !in t && PlainName(p) && NumbersBounded(t, r.ns, p)
    requires Counted(t, r.ns, p, count) && r.path == Available(t, r.ns, p, count)
    ensures NumbersBounded(Added(t, id, r), r.ns, p)
  {
    hide MatchesNumbered, Numbered, Same, NumberedPath, PlainName;
    var ns, c := r.ns, |Numbered(t, r.ns, p)|;
    CountAfter(t, id, r, ns, p);
    if Taken(t, ns, p) { NumberedMatches(p, c + 1); }
    forall n: nat | Taken(Added(t, id, r), ns, NumberedPath(p, n)) ensures n <= |Numbered(Added(t, id, r), ns, p)| {
      TakenAfter(t, id, r, ns, NumberedPath(p, n));
      if !Taken(t, ns, NumberedPath(p, n)) {
        OnlyThisNumber(t, r, p, n, c);
      }
    }
  }

  lemma OnlyThisNumber(t: Table, r: Row, p: Path, n: nat, c: nat)
    requires Same(r.path, NumberedPath(p, n))
    requires r.path == p || r.path == NumberedPath(p, c + 1)
    ensures r.path != p && n == c + 1
  {
    NotItsOwnNumber(p, n);
    if r.path != p { SameNumbers(p, c + 1, n); }
  }

  // Uploads of one name, one after the other: each path is the one chosen for what is counted at that moment.
  ghost predicate Uploads(t: Table, id: nat, r: Row, p: Path, paths: seq<Path>)
    decreases |paths|
  {
    paths != [] ==>
      && (exists count :: Counted(t, r.ns, p, count) && paths[0] == Available(t, r.ns, p, count))
      && Uploads(Added(t, id, r.(path := paths[0], name := NameOf(paths[0]))), id + 1, r, p, paths[1..])
  }

  ghost predicate DistinctPaths(s: seq<Path>) {
    forall i, j :: 0 <= i < j < |s| ==> !Same(s[i], s[j])
  }

  ghost predicate AllFree(t: Table, ns: string, s: seq<Path>) {
    forall i :: 0 <= i < |s| ==> !Taken(t, ns, s[i])
  }

  lemma FirstUpload(t: Table, id: nat, r: Row, rest: seq<Path>)
    requires id !in t && !Taken(t, r.ns, r.path)
    requires AllFree(Added(t, id, r), r.ns, rest) && DistinctPaths(rest)
    ensures AllFree(t, r.ns, [r.path] + rest) && DistinctPaths([r.path] + rest)
  {
    hide Same, Taken;
    forall i | 0 <= i < |rest| ensures !Taken(t, r.ns, rest[i]) && !Same(r.path, rest[i]) {
      TakenAfter(t, id, r, r.ns, rest[i]);
    }
  }

  /** Any number of uploads of one plain name get paths that are free and pairwise different, ignoring case. */
  lemma {:induction false} UploadsGetDistinctPaths(t: Table, id: nat, r: Row, p: Path, paths: seq<Path>)
    requires PlainName(p) && NumbersBounded(t, r.ns, p) && (forall i :: i in t ==> i < id)
             && Uploads(t, id, r, p, paths)
    ensures AllFree(t, r.ns, paths) && DistinctPaths(paths)
    decreases |paths|
  {
    hide NumbersBounded, Available, Counted, AllFree, DistinctPaths, PlainName;
    if paths != [] {
      var q := paths[0];
      var r' := r.(path := q, name := NameOf(q));
      var count :| Counted(t, r.ns, p, count) && q == Available(t, r.ns, p, count);
      AvailableIsFree(t, r.ns, p, count, count);
      SavingKeepsBounded(t, id, r', p, count);
      UploadsGetDistinctPaths(Added(t, id, r'), id + 1, r, p, paths[1..]);
      FirstUpload(t, id, r', paths[1..]);
      assert paths == [q] + paths[1..];
    } else {
      NoUploads(t, r.ns);
    }
  }

  lemma NoUploads(t: Table, ns: string)
    ensures AllFree(t, ns, []) && DistinctPaths([])
  {
  }
}
