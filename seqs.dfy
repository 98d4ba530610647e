/**
 * Sequence vocabulary shared by the model: order-preserving subsequences,
 * Python's `filter` over a list, and Python's `list.remove` (drop the first
 * occurrence of a value).
 */
module Seqs {

  /** `a` is `b` with some elements left out, the rest kept in their order. */
  predicate Subseq<T(==)>(a: seq<T>, b: seq<T>)
    decreases |b|
  {
    a == [] ||
    (b != [] &&
     ((a[|a| - 1] == b[|b| - 1] && Subseq(a[..|a| - 1], b[..|b| - 1])) ||
      Subseq(a, b[..|b| - 1])))
  }

  lemma {:induction false} SubseqRefl<T>(s: seq<T>)
    ensures Subseq(s, s)
    decreases |s|
  {
    if s != [] {
      SubseqRefl(s[..|s| - 1]);
    }
  }

  lemma {:induction false} SubseqTrans<T>(a: seq<T>, b: seq<T>, c: seq<T>)
    requires Subseq(a, b) && Subseq(b, c)
    ensures Subseq(a, c)
    decreases |c|
  {
    if a != [] {
      var b', c' := b[..|b| - 1], c[..|c| - 1];
      if Subseq(b, c') {
        SubseqTrans(a, b, c');
      } else if a[|a| - 1] == b[|b| - 1] && Subseq(a[..|a| - 1], b') {
        SubseqTrans(a[..|a| - 1], b', c');
      } else {
        SubseqTrans(a, b', c');
      }
    }
  }

  /** Putting the same element in front of both sides keeps the relation. */
  lemma {:induction false} SubseqCons<T>(y: T, a: seq<T>, b: seq<T>)
    requires Subseq(a, b)
    ensures Subseq([y] + a, [y] + b)
    decreases |b|
  {
    if b == [] {
      assert [y] + a == [y];
      assert ([y] + a)[..0] == [];
    } else {
      var b' := b[..|b| - 1];
      assert ([y] + b)[..|b|] == [y] + b';
      if a != [] && a[|a| - 1] == b[|b| - 1] && Subseq(a[..|a| - 1], b') {
        SubseqCons(y, a[..|a| - 1], b');
        assert ([y] + a)[..|a|] == [y] + a[..|a| - 1];
      } else {
        SubseqCons(y, a, b');
      }
    }
  }

  /** An element put in front of the larger side only keeps the relation. */
  lemma {:induction false} SubseqPrepend<T>(y: T, a: seq<T>, b: seq<T>)
    requires Subseq(a, b)
    ensures Subseq(a, [y] + b)
    decreases |b|
  {
    if a != [] {
      var b' := b[..|b| - 1];
      assert ([y] + b)[..|b|] == [y] + b';
      if a[|a| - 1] == b[|b| - 1] && Subseq(a[..|a| - 1], b') {
        SubseqPrepend(y, a[..|a| - 1], b');
      } else {
        SubseqPrepend(y, a, b');
      }
    }
  }

  /** Python's `filter(p, s)`, collected into a list. */
  function Filter<T>(p: T -> bool, s: seq<T>): (r: seq<T>)
    ensures |r| <= |s|
    decreases |s|
  {
    if s == [] then []
    else Filter(p, s[..|s| - 1]) + (if p(s[|s| - 1]) then [s[|s| - 1]] else [])
  }

  /**
   * A filter keeps every element that passes, as often as it occurs, drops
   * every element that fails, and keeps the order: together these pin the
   * result down.
   */
  lemma FilterSpec<T>(p: T -> bool, s: seq<T>)
    ensures Subseq(Filter(p, s), s)
    ensures forall x :: multiset(Filter(p, s))[x] == if p(x) then multiset(s)[x] else 0
  {
    FilterSubseq(p, s);
    FilterCount(p, s);
  }

  lemma {:induction false} FilterSubseq<T>(p: T -> bool, s: seq<T>)
    ensures Subseq(Filter(p, s), s)
    decreases |s|
  {
    if s != [] {
      var init, last := s[..|s| - 1], s[|s| - 1];
      FilterSubseq(p, init);
      var r := Filter(p, s);
      if p(last) {
        assert r == Filter(p, init) + [last];
        assert r[..|r| - 1] == Filter(p, init);
      } else {
        assert r == Filter(p, init) + [];
        assert r == Filter(p, init);
        assert Subseq(r, s[..|s| - 1]);
      }
    }
  }

  lemma {:induction false} FilterCount<T>(p: T -> bool, s: seq<T>)
    ensures forall x :: multiset(Filter(p, s))[x] == if p(x) then multiset(s)[x] else 0
    decreases |s|
  {
    if s != [] {
      var init, last := s[..|s| - 1], s[|s| - 1];
      FilterCount(p, init);
      assert s == init + [last];
      assert multiset(s) == multiset(init) + multiset{last};
      var kept := if p(last) then [last] else [];
      assert Filter(p, s) == Filter(p, init) + kept;
      assert multiset(Filter(p, s)) == multiset(Filter(p, init)) + multiset(kept);
    }
  }

  lemma {:induction false} FilterConcat<T>(p: T -> bool, a: seq<T>, b: seq<T>)
    ensures Filter(p, a + b) == Filter(p, a) + Filter(p, b)
    decreases |b|
  {
    if b != [] {
      var b' := b[..|b| - 1];
      assert (a + b)[..|a + b| - 1] == a + b';
      FilterConcat(p, a, b');
    } else {
      assert a + b == a;
    }
  }

  lemma {:induction false} FilterNone<T>(p: T -> bool, s: seq<T>)
    requires forall k :: 0 <= k < |s| ==> !p(s[k])
    ensures Filter(p, s) == []
    decreases |s|
  {
    if s != [] {
      FilterNone(p, s[..|s| - 1]);
    }
  }

  /** Python's `list.remove(x)` on the list's contents: the first `x` goes. */
  function RemoveFirst<T(==)>(s: seq<T>, x: T): (r: seq<T>)
    ensures |r| == if x in s then |s| - 1 else |s|
    decreases |s|
  {
    if s == [] then []
    else if s[0] == x then s[1..]
    else [s[0]] + RemoveFirst(s[1..], x)
  }

  /** Removing an occurrence takes exactly one copy of `x` away, nothing else. */
  lemma {:induction false} RemoveFirstMultiset<T>(s: seq<T>, x: T)
    ensures x in s ==> multiset(RemoveFirst(s, x)) == multiset(s) - multiset{x}
    ensures x !in s ==> RemoveFirst(s, x) == s
    decreases |s|
  {
    if s != [] {
      assert s == [s[0]] + s[1..];
      RemoveFirstMultiset(s[1..], x);
    }
  }

  /**
   * Closed form of `list.remove(x)`: when `i` is the first position holding
   * `x`, the result is the list with that one element cut out.
   */
  lemma {:induction false} RemoveFirstAt<T>(s: seq<T>, x: T, i: nat)
    requires i < |s| && s[i] == x && x !in s[..i]
    ensures RemoveFirst(s, x) == s[..i] + s[i + 1..]
    decreases i
  {
    if i == 0 {
      assert s[..0] == [];
    } else {
      var t := s[1..];
      assert s[0] != x by {
        assert s[0] == s[..i][0];
      }
      assert t[..i - 1] == s[1..i];
      RemoveFirstAt(t, x, i - 1);
      assert s[..i] == [s[0]] + t[..i - 1];
      assert s[i + 1..] == t[i..];
    }
  }

  /** What is left after `list.remove` keeps its order. */
  lemma {:induction false} RemoveFirstSubseq<T>(s: seq<T>, x: T)
    ensures Subseq(RemoveFirst(s, x), s)
    decreases |s|
  {
    if s != [] {
      assert s == [s[0]] + s[1..];
      if s[0] == x {
        SubseqRefl(s[1..]);
        SubseqPrepend(s[0], s[1..], s[1..]);
      } else {
        RemoveFirstSubseq(s[1..], x);
        SubseqCons(s[0], RemoveFirst(s[1..], x), s[1..]);
      }
    }
  }
  /**
   * The list after `list.remove(x)` has been called `m[x]` times for every
   * `x`, each call finding its `x`: scanning from the front, the first `m[x]`
   * copies of each `x` are dropped and everything else is kept in order.
   */
  function DropFirsts<T(==)>(s: seq<T>, m: multiset<T>): seq<T>
    decreases |s|
  {
    if s == [] then []
    else if m[s[0]] > 0 then DropFirsts(s[1..], m - multiset{s[0]})
    else [s[0]] + DropFirsts(s[1..], m)
  }

  /** With nothing to drop the list is kept whole. */
  lemma {:induction false} DropFirstsEmpty<T>(s: seq<T>)
    ensures DropFirsts(s, multiset{}) == s
    decreases |s|
  {
    if s != [] {
      DropFirstsEmpty(s[1..]);
      assert s == [s[0]] + s[1..];
    }
  }

  /**
   * One more removal of an `x` that is still present is a `list.remove(x)`
   * on what was left.
   */
  lemma {:induction false} DropFirstsRemove<T>(s: seq<T>, m: multiset<T>, x: T)
    requires m[x] < multiset(s)[x]
    ensures DropFirsts(s, m + multiset{x}) == RemoveFirst(DropFirsts(s, m), x)
    decreases |s|
  {
    if s != [] {
      var y, rest := s[0], s[1..];
      assert s == [y] + rest;
      if m[y] > 0 {
        var m' := m - multiset{y};
        assert (m + multiset{x}) - multiset{y} == m' + multiset{x};
        DropFirstsRemove(rest, m', x);
      } else if y == x {
        assert (m + multiset{x}) - multiset{y} == m;
      } else {
        DropFirstsRemove(rest, m, x);
      }
    }
  }

  /** Asking to drop more copies of `x` than the list holds changes nothing. */
  lemma {:induction false} DropFirstsExhausted<T>(s: seq<T>, m: multiset<T>, x: T)
    requires m[x] >= multiset(s)[x]
    ensures DropFirsts(s, m + multiset{x}) == DropFirsts(s, m)
    decreases |s|
  {
    if s != [] {
      var y, rest := s[0], s[1..];
      assert s == [y] + rest;
      if m[y] > 0 {
        var m' := m - multiset{y};
        assert (m + multiset{x}) - multiset{y} == m' + multiset{x};
        DropFirstsExhausted(rest, m', x);
      } else {
        DropFirstsExhausted(rest, m, x);
      }
    }
  }
}
