/** The array methods the store and the price history use: `filter`,
    `some` and `slice(-n)`, on sequences. */
module Lists {

  /** `xs.filter(p)`: the elements of `xs` that satisfy `p`, in order. */
  function Keep<T>(xs: seq<T>, p: T -> bool): (r: seq<T>)
    ensures |r| <= |xs|
    ensures forall i :: 0 <= i < |r| ==> p(r[i])
  {
    if xs == [] then []
    else Keep(xs[..|xs| - 1], p) + (if p(xs[|xs| - 1]) then [xs[|xs| - 1]] else [])
  }

  /** An element is kept exactly when it is in `xs` and satisfies `p`. */
  lemma {:induction false} KeepMembers<T>(xs: seq<T>, p: T -> bool)
    ensures forall x :: x in Keep(xs, p) <==> x in xs && p(x)
  {
    if xs != [] {
      var init := xs[..|xs| - 1];
      KeepMembers(init, p);
      assert xs == init + [xs[|xs| - 1]];
    }
  }

  lemma {:induction false} KeepConcat<T>(a: seq<T>, b: seq<T>, p: T -> bool)
    ensures Keep(a + b, p) == Keep(a, p) + Keep(b, p)
  {
    if b != [] {
      var init := b[..|b| - 1];
      assert (a + b)[..|a + b| - 1] == a + init;
      KeepConcat(a, init, p);
    } else {
      assert a + b == a;
    }
  }

  /** Filtering one element more of a prefix. */
  lemma KeepStep<T>(xs: seq<T>, p: T -> bool, k: nat)
    requires k < |xs|
    ensures Keep(xs[..k + 1], p) == Keep(xs[..k], p) + (if p(xs[k]) then [xs[k]] else [])
  {
    assert xs[..k + 1][..k] == xs[..k];
  }

  /** Filtering by a predicate that every element satisfies keeps all of them. */
  lemma {:induction false} KeepAll<T>(xs: seq<T>, p: T -> bool)
    requires forall i :: 0 <= i < |xs| ==> p(xs[i])
    ensures Keep(xs, p) == xs
  {
    if xs != [] {
      KeepAll(xs[..|xs| - 1], p);
    }
  }

  /** Filtering by a predicate that no element satisfies keeps nothing. */
  lemma {:induction false} KeepNone<T>(xs: seq<T>, p: T -> bool)
    requires forall i :: 0 <= i < |xs| ==> !p(xs[i])
    ensures Keep(xs, p) == []
  {
    if xs != [] {
      KeepNone(xs[..|xs| - 1], p);
    }
  }

  /** Two predicates that agree on the elements keep the same ones. */
  lemma {:induction false} KeepSame<T>(xs: seq<T>, p: T -> bool, q: T -> bool)
    requires forall i :: 0 <= i < |xs| ==> p(xs[i]) == q(xs[i])
    ensures Keep(xs, p) == Keep(xs, q)
  {
    if xs != [] {
      KeepSame(xs[..|xs| - 1], p, q);
    }
  }

  /** Filtering twice is filtering once by both predicates. */
  lemma {:induction false} KeepKeep<T>(xs: seq<T>, p: T -> bool, q: T -> bool, pq: T -> bool)
    requires forall x :: pq(x) == (p(x) && q(x))
    ensures Keep(Keep(xs, p), q) == Keep(xs, pq)
  {
    if xs != [] {
      var init := xs[..|xs| - 1];
      var x := xs[|xs| - 1];
      KeepKeep(init, p, q, pq);
      KeepConcat(Keep(init, p), if p(x) then [x] else [], q);
    }
  }

  /** Filtering `a + b`, where `a` satisfies `p` throughout and `b` its
      negation, gives back `a` and `b`. */
  lemma KeepSplit<T>(a: seq<T>, b: seq<T>, p: T -> bool, q: T -> bool)
    requires forall i :: 0 <= i < |a| ==> p(a[i]) && !q(a[i])
    requires forall i :: 0 <= i < |b| ==> q(b[i]) && !p(b[i])
    ensures Keep(a + b, p) == a && Keep(a + b, q) == b
  {
    KeepConcat(a, b, p);
    KeepConcat(a, b, q);
    KeepAll(a, p);
    KeepNone(b, p);
    KeepNone(a, q);
    KeepAll(b, q);
  }

  /** A suffix of a filtered list satisfies the filter throughout. */
  lemma SuffixKept<T>(xs: seq<T>, suffix: seq<T>, p: T -> bool)
    requires forall i :: 0 <= i < |xs| ==> p(xs[i])
    requires |suffix| <= |xs| && suffix == xs[|xs| - |suffix|..]
    ensures forall i :: 0 <= i < |suffix| ==> p(suffix[i])
  {
    assert forall i :: 0 <= i < |suffix| ==> suffix[i] == xs[|xs| - |suffix| + i];
  }

  /** The lists `f` gives for the elements of `xs`, one after another. */
  function FlatMap<T, U>(xs: seq<T>, f: T -> seq<U>): seq<U> {
    if xs == [] then [] else FlatMap(xs[..|xs| - 1], f) + f(xs[|xs| - 1])
  }

  /** What `f` gives for an element of `xs` is part of the whole. */
  lemma {:induction false} FlatMapMember<T, U>(xs: seq<T>, f: T -> seq<U>, x: T)
    requires x in xs
    ensures forall u :: u in f(x) ==> u in FlatMap(xs, f)
  {
    var init := xs[..|xs| - 1];
    if xs[|xs| - 1] != x {
      assert xs == init + [xs[|xs| - 1]];
      assert x in init;
      FlatMapMember(init, f, x);
    }
  }

  /** `xs.slice(-n)` for `n > 0`: the last `n` elements, or all of them
      when there are fewer. */
  function Last<T>(xs: seq<T>, n: nat): (r: seq<T>)
    ensures |r| == if |xs| <= n then |xs| else n
    ensures r == xs[|xs| - |r|..]
  {
    if |xs| <= n then xs else xs[|xs| - n..]
  }
}
