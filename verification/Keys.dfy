/** Storage keys: owner, "files" and the path, joined by "/". */
module Keys {
  import opened Text
  import opened Paths
  import opened BlobStore
  import opened Retry

  function StorageKey(owner: string, path: Path): string {
    owner + "/" + ("files" + "/" + Str(path))
  }

  function KeyPrefix(owner: string, path: Path): string {
    StorageKey(owner, path) + "/"
  }

  /** The key of a path, and of what lies below it. */
  lemma KeyShape(owner: string, a: Name, b: Name)
    ensures StorageKey(owner, [a, b]) == owner + "/files/" + a + "/" + b
    ensures KeyPrefix(owner, [a]) == owner + "/files/" + a + "/"
  {
    var p: Path := [a, b];
    assert p[1..] == [b];
    assert Join(p) == a + "/" + b;
    assert "/" + ("files" + "/") == "/files/";
  }

  // Owners are ids: hexadecimal digits and dashes.
  predicate IsOwner(owner: string) {
    '-' in owner && forall c :: c in owner ==> '0' <= c <= '9' || 'a' <= c <= 'f' || c == '-'
  }

  lemma PrefixHead(a: string, x: string, b: string, y: string)
    requires '/' !in a && '/' !in b
    ensures a + "/" + x <= b + "/" + y <==> a == b && x <= y
  {
    var f, k := a + "/" + x, b + "/" + y;
    if f <= k {
      var rest := k[|a| + 1..];
      assert k == a + "/" + rest by { assert k[..|f|] == f; assert f[..|a| + 1] == a + "/"; }
      HeadUnique(a, rest, b, y);
      assert f[|a| + 1..] == x;
    }
    if a == b && x <= y {
      assert k == f + y[|x|..];
    }
  }

  /** Distinct owners or paths have distinct keys. */
  lemma KeyInjective(o: string, p: Path, o': string, q: Path)
    requires IsOwner(o) && IsOwner(o') && StorageKey(o, p) == StorageKey(o', q)
    ensures o == o' && p == q
  {
    HeadUnique(o, "files" + "/" + Str(p), o', "files" + "/" + Str(q));
    HeadUnique("files", Str(p), "files", Str(q));
    StrInjective(p, q);
  }

  /** A key lies under a folder's key prefix exactly when its path lies strictly below the folder, for the same
      owner. */
  lemma UnderPrefix(o: string, p: Path, o': string, q: Path)
    requires IsOwner(o) && IsOwner(o')
    ensures KeyPrefix(o, p) <= StorageKey(o', q) <==> o == o' && p != [] && p < q
  {
    hide Str;
    PrefixIsAncestry(p, q);
    assert KeyPrefix(o, p) == o + "/" + ("files" + "/" + (Str(p) + "/"));
    PrefixHead(o, "files" + "/" + (Str(p) + "/"), o', "files" + "/" + Str(q));
    PrefixHead("files", Str(p) + "/", "files", Str(q));
  }

  // The part of a key below a folder's prefix.
  lemma KeyBelow(o: string, p: Path, rest: Path)
    requires p != [] && rest != []
    ensures StorageKey(o, p + rest) == KeyPrefix(o, p) + Join(rest)
  {
    JoinConcat(p, rest);
  }

  /** Swapping key prefixes is swapping path prefixes. */
  lemma SwapKey(o: string, at: Path, o': string, to: Path, rest: Path)
    requires at != [] && to != [] && rest != []
    ensures Swap(KeyPrefix(o, at), KeyPrefix(o', to), StorageKey(o, at + rest)) == StorageKey(o', to + rest)
  {
    KeyBelow(o, at, rest);
    KeyBelow(o', to, rest);
    assert StorageKey(o, at + rest)[|KeyPrefix(o, at)|..] == Join(rest);
  }

  // No component contains the owner's id.
  ghost predicate Clean(owner: string, p: Path) {
    forall k :: 0 <= k < |p| ==> !Contains(p[k], owner)
  }

  lemma Covered(s: string, w: string, i: int, k: int)
    requires 0 <= i <= k < i + |w| && i <= |s| && w <= s[i..]
    ensures s[k] in w
  {
    assert w[k - i] == s[i..][k - i];
  }

  // A string without some character occurs on one side of it.
  lemma OccursOnOneSide(n: string, c: char, t: string, w: string)
    requires c !in w && w != "" && Contains(n + [c] + t, w)
    ensures Contains(n, w) || Contains(t, w)
  {
    var s := n + [c] + t;
    var i :| 0 <= i <= |s| && w <= s[i..];
    assert s[i..][..|w|] == w;
    if i + |w| <= |n| {
      assert n[i..][..|w|] == s[i..][..|w|];
    } else if i > |n| {
      assert t[i - |n| - 1..] == s[i..];
    } else {
      Covered(s, w, i, |n|);
    }
  }

  lemma {:induction false} OccursInComponent(p: Path, w: string)
    requires '/' !in w && w != "" && Contains(Join(p), w)
    ensures exists k :: 0 <= k < |p| && Contains(p[k], w)
  {
    hide Contains;
    if |p| > 1 {
      OccursOnOneSide(p[0], '/', Join(p[1..]), w);
      if !Contains(p[0], w) {
        OccursInComponent(p[1..], w);
        var k :| 0 <= k < |p[1..]| && Contains(p[1..][k], w);
        assert p[1..][k] == p[k + 1];
      }
    } else {
      NothingInEmpty(w);
    }
  }

  lemma NothingInEmpty(w: string)
    ensures w != "" ==> !Contains("", w)
  {
  }

  /** Where no component contains the owner's id, a folder's key prefix does not occur again below it. */
  lemma PrefixNotRepeated(o: string, at: Path, rest: Path)
    requires IsOwner(o) && Clean(o, rest)
    ensures !Contains(Join(rest), KeyPrefix(o, at))
  {
    var s, f := Join(rest), KeyPrefix(o, at);
    if i :| 0 <= i <= |s| && f <= s[i..] {
      assert o <= f;
      assert o <= s[i..];
      assert Contains(s, o);
      OccursInComponent(rest, o);
    }
  }

  /** Folder prefixes are apart when neither folder contains the other. */
  lemma PrefixesApart(o: string, at: Path, o': string, to: Path)
    requires IsOwner(o) && IsOwner(o') && at != [] && to != []
    requires o == o' ==> !(at <= to) && !(to <= at)
    ensures Apart(KeyPrefix(o, at), KeyPrefix(o', to))
  {
    PrefixInPrefix(o, at, o', to);
    PrefixInPrefix(o', to, o, at);
  }

  lemma PrefixInPrefix(o: string, p: Path, o': string, q: Path)
    requires IsOwner(o) && IsOwner(o') && p != [] && q != []
    ensures KeyPrefix(o, p) <= KeyPrefix(o', q) ==> o == o' && p <= q
  {
    if KeyPrefix(o, p) <= KeyPrefix(o', q) {
      var a: Name := "a";
      KeyBelow(o', q, [a]);
      UnderPrefix(o, p, o', q + [a]);
      assert p == (q + [a])[..|p|];
      assert q[..|p|] == (q + [a])[..|p|];
    }
  }
}
