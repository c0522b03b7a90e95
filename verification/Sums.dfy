/** Sums over finite maps, with the linearity facts the size invariants need. */
module Sums {
  ghost function Sum(m: map<nat, int>): int {
    if m == map[] then 0 else var k :| k in m; m[k] + Sum(m - {k})
  }

  lemma {:induction false} SumPick(m: map<nat, int>, k: nat)
    requires k in m
    ensures Sum(m) == m[k] + Sum(m - {k})
    decreases |m|
  {
    var j :| j in m && Sum(m) == m[j] + Sum(m - {j});
    if j != k {
      SumPick(m - {j}, k);
      SumPick(m - {k}, j);
      assert (m - {j}) - {k} == (m - {k}) - {j};
    }
  }

  lemma {:induction false} SumZero(m: map<nat, int>)
    requires forall i :: i in m ==> m[i] == 0
    ensures Sum(m) == 0
    decreases |m|
  {
    if k :| k in m {
      SumPick(m, k);
      SumZero(m - {k});
    }
  }

  /** Pointwise addition adds the sums. */
  lemma {:induction false} SumAdd(a: map<nat, int>, b: map<nat, int>, c: map<nat, int>)
    requires a.Keys == b.Keys == c.Keys
    requires forall i :: i in c ==> c[i] == a[i] + b[i]
    ensures Sum(c) == Sum(a) + Sum(b)
    decreases |c|
  {
    if k :| k in c {
      SumPick(a, k);
      SumPick(b, k);
      SumPick(c, k);
      SumAdd(a - {k}, b - {k}, c - {k});
    } else {
      assert a == map[] && b == map[] && c == map[];
    }
  }

  /** Keys that carry zero do not matter. */
  lemma {:induction false} SumSupport(a: map<nat, int>, m: map<nat, int>)
    requires a.Keys <= m.Keys
    requires forall i :: i in m ==> m[i] == if i in a then a[i] else 0
    ensures Sum(a) == Sum(m)
    decreases |m|
  {
    if k :| k in m {
      SumPick(m, k);
      if k in a { SumPick(a, k); } else { NotThere(a, k); }
      DropKey(a, m, k);
      SumSupport(a - {k}, m - {k});
    } else {
      assert a == map[];
    }
  }

  lemma NotThere(a: map<nat, int>, k: nat)
    requires k !in a
    ensures a - {k} == a
  {
  }

  lemma DropKey(a: map<nat, int>, m: map<nat, int>, k: nat)
    requires a.Keys <= m.Keys && k in m
    requires forall i :: i in m ==> m[i] == if i in a then a[i] else 0
    ensures (a - {k}).Keys <= (m - {k}).Keys && |m - {k}| < |m|
    ensures forall i :: i in m - {k} ==> (m - {k})[i] == if i in a - {k} then (a - {k})[i] else 0
  {
    assert (m - {k}).Keys == m.Keys - {k} && (a - {k}).Keys == a.Keys - {k};
    assert |m| == |m.Keys| && |m - {k}| == |(m - {k}).Keys|;
  }

  lemma {:induction false} SumNonNegative(m: map<nat, int>)
    requires forall i :: i in m ==> m[i] >= 0
    ensures Sum(m) >= 0
    decreases |m|
  {
    if k :| k in m {
      SumPick(m, k);
      SumNonNegative(m - {k});
    }
  }

  lemma SumSingle(m: map<nat, int>, k: nat)
    requires k in m && forall i :: i in m && i != k ==> m[i] == 0
    ensures Sum(m) == m[k]
  {
    SumPick(m, k);
    SumZero(m - {k});
  }

  // b may drop keys of a; the shift s is counted on neither, one or both sides.
  lemma SumBalance(a: map<nat, int>, b: map<nat, int>, s: map<nat, int>, gains: bool, loses: bool)
    requires a.Keys == s.Keys && b.Keys <= a.Keys
    requires forall j :: j in a ==>
               a[j] + (if gains then s[j] else 0) == (if j in b then b[j] else 0) + (if loses then s[j] else 0)
    ensures Sum(a) + (if gains then Sum(s) else 0) == Sum(b) + (if loses then Sum(s) else 0)
  {
    var c := map j | j in a :: if j in b then b[j] else 0;
    assert forall j :: j in a ==> a[j] + (if gains then s[j] else 0) == c[j] + (if loses then s[j] else 0);
    SumSupport(b, c);
    SumShift(a, c, s, gains, loses);
  }

  lemma SumShift(a: map<nat, int>, c: map<nat, int>, s: map<nat, int>, gains: bool, loses: bool)
    requires a.Keys == s.Keys == c.Keys
    requires forall j :: j in a ==> a[j] + (if gains then s[j] else 0) == c[j] + (if loses then s[j] else 0)
    ensures Sum(a) + (if gains then Sum(s) else 0) == Sum(c) + (if loses then Sum(s) else 0)
  {
    if gains == loses { assert a == c; }
    else if gains { SumAdd(a, s, c); }
    else { SumAdd(c, s, a); }
  }
}
