/** Sequence vocabulary shared by the models. */
module Sequences {

  datatype Option<+T> = None | Some(value: T)

  /** The last min(n, |s|) elements. */
  function LastN<T>(s: seq<T>, n: nat): (r: seq<T>)
    ensures |r| == if |s| <= n then |s| else n
  {
    if |s| <= n then s else s[|s| - n..]
  }

  lemma LastNSnoc<T>(s: seq<T>, n: nat, x: T)
    ensures LastN(LastN(s, n) + [x], n) == LastN(s + [x], n)
  {
  }

  lemma LastNIsSuffix<T>(s: seq<T>, n: nat)
    ensures LastN(s, n) == s[|s| - |LastN(s, n)|..]
  {
  }

  lemma SliceSnoc<T>(s: seq<T>, a: nat, b: nat)
    requires a <= b < |s|
    ensures s[a..b] + [s[b]] == s[a..b + 1]
  {
  }

  lemma Unsnoc<T>(s: seq<T>)
    requires s != []
    ensures s == s[..|s| - 1] + [s[|s| - 1]]
  {
  }

  function Sum(xs: seq<real>): real {
    if xs == [] then 0.0 else Sum(xs[..|xs| - 1]) + xs[|xs| - 1]
  }

  lemma Regroup<T>(a: seq<T>, b: seq<T>, c: seq<T>)
    ensures a + b + c == a + (b + c)
  {
  }

  lemma ConcatSnoc<T>(a: seq<T>, b: seq<T>, x: T)
    ensures a + (b + [x]) == a + b + [x]
  {
  }

  predicate Distinct<T(==)>(s: seq<T>) {
    forall i, j :: 0 <= i < j < |s| ==> s[i] != s[j]
  }

  lemma DistinctConcat<T>(a: seq<T>, b: seq<T>)
    ensures Distinct(a + b) <==> Distinct(a) && Distinct(b) && forall e :: e in b ==> e !in a
  {
    var all := a + b;
    if Distinct(all) {
      forall i, j | 0 <= i < j < |a|
        ensures a[i] != a[j]
      {
        assert all[i] != all[j];
      }
      forall i, j | 0 <= i < j < |b|
        ensures b[i] != b[j]
      {
        assert all[|a| + i] != all[|a| + j];
      }
      forall i, j | 0 <= i < |a| && 0 <= j < |b|
        ensures a[i] != b[j]
      {
        assert all[i] != all[|a| + j];
      }
    }
    if Distinct(a) && Distinct(b) && forall e :: e in b ==> e !in a {
      forall i, j | 0 <= i < j < |all|
        ensures all[i] != all[j]
      {
        if i < |a| <= j { assert b[j - |a|] in b; }
      }
    }
  }

  /** s lists every element of x exactly once. */
  ghost predicate Enumerates<T(!new)>(s: seq<T>, x: set<T>) {
    Distinct(s) && forall e :: e in s <==> e in x
  }

  lemma {:induction false} EnumerationSize<T(!new)>(s: seq<T>, x: set<T>)
    requires Enumerates(s, x)
    ensures |s| == |x|
    decreases s
  {
    if s == [] {
      if x != {} {
        var e := Pick(x);
        assert false;
      }
    } else {
      var n := |s| - 1;
      EnumerationSize(s[..n], x - {s[n]});
    }
  }

  lemma Pick<T>(s: set<T>) returns (x: T)
    requires s != {}
    ensures x in s
  {
    x :| x in s;
  }
}
