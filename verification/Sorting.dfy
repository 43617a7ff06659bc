/** Orders and the sorting that `sort -V` and Python's sorted do. */
module Sorting {
  import opened Text

  ghost predicate TotalOrder(le: (string, string) -> bool) {
    && (forall a :: le(a, a))
    && (forall a, b :: le(a, b) || le(b, a))
    && (forall a, b :: le(a, b) && le(b, a) ==> a == b)
    && (forall a, b, c :: le(a, b) && le(b, c) ==> le(a, c))
  }

  lemma LexIsTotal()
    ensures TotalOrder(LexLeq)
  {
    forall a, b ensures LexLeq(a, a) && (LexLeq(a, b) || LexLeq(b, a)) && (LexLeq(a, b) && LexLeq(b, a) ==> a == b) {
      LexTotal(a, a);
      LexTotal(a, b);
    }
    forall a, b, c | LexLeq(a, b) && LexLeq(b, c) ensures LexLeq(a, c) {
      LexTransitive(a, b, c);
    }
  }

  lemma {:induction false} Least(le: (string, string) -> bool, names: set<string>) returns (least: string)
    requires TotalOrder(le) && names != {}
    ensures least in names && forall y :: y in names ==> le(least, y)
  {
    var x :| x in names;
    least := x;
    if names - {x} == {} {
      forall y | y in names ensures y == x {
        assert y !in names - {x};
      }
    } else {
      var m := Least(le, names - {x});
      least := if le(x, m) then x else m;
      forall y | y in names ensures le(least, y) {
        if y != x {
          assert y in names - {x};
          assert le(m, y) && le(least, m);
        }
      }
    }
  }

  /** The elements of a set in order, each once. */
  method SortSet(le: (string, string) -> bool, names: set<string>) returns (r: seq<string>)
    requires TotalOrder(le)
    ensures forall x :: x in r <==> x in names
    ensures forall i, j :: 0 <= i < j < |r| ==> le(r[i], r[j]) && r[i] != r[j]
  {
    r := [];
    var rest := names;
    while rest != {}
      invariant rest <= names
      invariant forall x :: x in names <==> x in r || x in rest
      invariant forall i, j :: 0 <= i < j < |r| ==> le(r[i], r[j]) && r[i] != r[j]
      invariant forall i, y :: 0 <= i < |r| && y in rest ==> le(r[i], y) && r[i] != y
      decreases rest
    {
      ghost var least := Least(le, rest);
      var x :| x in rest && forall y :: y in rest ==> le(x, y);
      r := r + [x];
      rest := rest - {x};
    }
  }

  /** A total preorder, as a sort key gives. */
  ghost predicate Preorder<T(!new)>(le: (T, T) -> bool) {
    && (forall a, b :: le(a, b) || le(b, a))
    && (forall a, b, c :: le(a, b) && le(b, c) ==> le(a, c))
  }

  ghost predicate Sorted<T>(le: (T, T) -> bool, xs: seq<T>) {
    forall i, j :: 0 <= i < j < |xs| ==> le(xs[i], xs[j])
  }

  /** Python's sorted: an ordered rearrangement. */
  method SortSeq<T(!new)>(le: (T, T) -> bool, xs: seq<T>) returns (r: seq<T>)
    requires Preorder(le)
    ensures multiset(r) == multiset(xs) && Sorted(le, r)
  {
    r := [];
    for i := 0 to |xs|
      invariant multiset(r) == multiset(xs[..i]) && Sorted(le, r)
    {
      var x, k := xs[i], 0;
      while k < |r| && le(r[k], x)
        invariant 0 <= k <= |r|
        invariant forall n :: 0 <= n < k ==> le(r[n], x)
      {
        k := k + 1;
      }
      assert forall n :: k <= n < |r| ==> le(x, r[n]);
      assert xs[..i + 1] == xs[..i] + [x];
      Inserted(le, r, x, k);
      r := r[..k] + [x] + r[k..];
    }
    assert xs[..|xs|] == xs;
  }

  lemma Inserted<T(!new)>(le: (T, T) -> bool, r: seq<T>, x: T, k: nat)
    requires k <= |r| && Sorted(le, r) && (forall n :: 0 <= n < k ==> le(r[n], x)) && forall n :: k <= n < |r| ==> le(x, r[n])
    ensures Sorted(le, r[..k] + [x] + r[k..])
    ensures multiset(r[..k] + [x] + r[k..]) == multiset(r) + multiset{x}
  {
    assert r == r[..k] + r[k..];
  }
}
