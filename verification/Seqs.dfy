/** Small facts about sequences and products that several components share. */
module Seqs {

  datatype Option<+T> = None | Some(value: T)

  lemma Assoc<T>(a: seq<T>, b: seq<T>, c: seq<T>)
    ensures a + (b + c) == a + b + c
  {
  }

  lemma Regroup<T>(a: seq<T>, b: seq<T>, n: nat)
    requires n <= |a|
    ensures a == a[..n] + a[n..]
    ensures a + b == a[..n] + (a[n..] + b)
  {
  }

  function Concat<T>(parts: seq<seq<T>>): seq<T> {
    if parts == [] then [] else parts[0] + Concat(parts[1..])
  }

  lemma {:induction false} ConcatOfAppend<T>(p: seq<seq<T>>, q: seq<seq<T>>)
    ensures Concat(p + q) == Concat(p) + Concat(q)
  {
    if p == [] {
      assert p + q == q;
    } else {
      assert (p + q)[1..] == p[1..] + q;
      ConcatOfAppend(p[1..], q);
      Assoc(p[0], Concat(p[1..]), Concat(q));
    }
  }

  lemma ConcatOfOne<T>(part: seq<T>)
    ensures Concat([part]) == part
  {
    assert Concat([part]) == part + Concat([part][1..]);
  }

  lemma ConcatSnoc<T>(parts: seq<seq<T>>, last: seq<T>)
    ensures Concat(parts + [last]) == Concat(parts) + last
  {
    ConcatOfAppend(parts, [last]);
    ConcatOfOne(last);
  }

  predicate IsSuffix<T(==)>(tail: seq<T>, whole: seq<T>) {
    |tail| <= |whole| && whole[|whole| - |tail|..] == tail
  }

  lemma SuffixSnoc<T>(tail: seq<T>, whole: seq<T>, last: T)
    requires IsSuffix(tail, whole)
    ensures IsSuffix(tail + [last], whole + [last])
  {
  }

  lemma OneMore(k: int, n: int)
    ensures (k + 1) * n == k * n + n
  {
  }

  lemma {:induction false} TimesOrdered(j: int, k: int, n: nat)
    ensures j <= k ==> j * n <= k * n
  {
    if j <= k {
      assert k * n == j * n + (k - j) * n;
      assert 0 <= (k - j) * n;
    }
  }

  lemma Product(x: real, y: real)
    ensures x > 0.0 && y > 0.0 ==> x * y > 0.0
  {
  }

  ghost predicate IsLeast(s: set<nat>, least: nat) {
    least in s && forall x :: x in s ==> least <= x
  }

  lemma {:induction false} LeastExists(s: set<nat>)
    requires s != {}
    ensures exists m :: IsLeast(s, m)
    decreases s
  {
    var x :| x in s;
    if s == {x} {
      assert IsLeast(s, x);
    } else {
      LeastExists(s - {x});
      var m :| IsLeast(s - {x}, m);
      forall y | y in s ensures (if x < m then x else m) <= y {
        assert y == x || y in s - {x};
      }
      assert IsLeast(s, if x < m then x else m);
    }
  }

  function Least(s: set<nat>): (m: nat)
    requires s != {}
    ensures IsLeast(s, m)
  {
    LeastExists(s);
    var m :| m in s && forall x :: x in s ==> m <= x;
    m
  }
}
