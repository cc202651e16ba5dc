/** Order facts about sequences shared by the filters of the model. */
module Seqs {
  import opened Options

  /** `sub` can be obtained from `s` by deleting elements, keeping the order of the rest. */
  ghost predicate IsSubsequence<T>(sub: seq<T>, s: seq<T>)
    decreases |s|
  {
    if sub == [] then true
    else if s == [] then false
    else (sub[|sub| - 1] == s[|s| - 1] && IsSubsequence(sub[..|sub| - 1], s[..|s| - 1]))
         || IsSubsequence(sub, s[..|s| - 1])
  }

  /** Every element of a subsequence comes from the sequence it was taken from. */
  lemma {:induction false} SubsequenceMembers<T>(sub: seq<T>, s: seq<T>)
    requires IsSubsequence(sub, s)
    ensures forall x | x in sub :: x in s
    decreases |s|
  {
    if sub != [] {
      if sub[|sub| - 1] == s[|s| - 1] && IsSubsequence(sub[..|sub| - 1], s[..|s| - 1]) {
        SubsequenceMembers(sub[..|sub| - 1], s[..|s| - 1]);
        assert sub == sub[..|sub| - 1] + [sub[|sub| - 1]];
        assert s == s[..|s| - 1] + [s[|s| - 1]];
      } else {
        SubsequenceMembers(sub, s[..|s| - 1]);
        assert s == s[..|s| - 1] + [s[|s| - 1]];
      }
    }
  }

  /** Extending the longer sequence by one element keeps the relation. */
  lemma {:induction false} SubsequenceSnoc<T>(sub: seq<T>, s: seq<T>, x: T)
    requires IsSubsequence(sub, s)
    ensures IsSubsequence(sub, s + [x]) && IsSubsequence(sub + [x], s + [x])
  {
    assert (s + [x])[..|s|] == s;
    assert (sub + [x])[..|sub|] == sub;
  }

  /** Number of elements of `s` equal to `x`. */
  function Count<T(==)>(s: seq<T>, x: T): (n: nat)
    ensures n <= |s|
  {
    if s == [] then 0
    else Count(s[..|s| - 1], x) + (if s[|s| - 1] == x then 1 else 0)
  }

  /** `x` is counted exactly when it occurs. */
  lemma {:induction false} CountZero<T>(s: seq<T>, x: T)
    ensures Count(s, x) == 0 <==> x !in s
  {
    if s != [] {
      CountZero(s[..|s| - 1], x);
      assert s == s[..|s| - 1] + [s[|s| - 1]];
    }
  }

  lemma CountSnoc<T>(s: seq<T>, y: T, x: T)
    ensures Count(s + [y], x) == Count(s, x) + (if y == x then 1 else 0)
  {
    assert (s + [y])[..|s|] == s;
  }

  lemma {:induction false} CountAppend<T>(a: seq<T>, b: seq<T>, x: T)
    ensures Count(a + b, x) == Count(a, x) + Count(b, x)
    decreases |b|
  {
    if b != [] {
      var init := b[..|b| - 1];
      assert (a + b)[..|a + b| - 1] == a + init;
      CountAppend(a, init, x);
    } else {
      assert a + b == a;
    }
  }

  /** The concatenation of `g(x)` over the elements `x` of `xs`, in order. */
  function Flatten<T, U>(xs: seq<T>, g: T -> seq<U>): seq<U> {
    if xs == [] then [] else Flatten(xs[..|xs| - 1], g) + g(xs[|xs| - 1])
  }

  /** An element of a concatenation comes from one of its parts, and every part's elements are in it. */
  lemma {:induction false} FlattenMembers<T, U>(xs: seq<T>, g: T -> seq<U>, u: U)
    ensures u in Flatten(xs, g) <==> exists i | 0 <= i < |xs| :: u in g(xs[i])
  {
    if xs != [] {
      var init := xs[..|xs| - 1];
      FlattenMembers(init, g, u);
      assert forall i | 0 <= i < |init| :: init[i] == xs[i];
    }
  }

  /** `order` lists every element of `s` exactly once: one possible iteration order of a Go map with key set `s`. */
  ghost predicate Enumerates<T>(order: seq<T>, s: set<T>) {
    && (forall i, j | 0 <= i < j < |order| :: order[i] != order[j])
    && (forall x | x in order :: x in s)
    && (forall x | x in s :: x in order)
  }

  /** A distinct enumeration of a set has exactly one element per member. */
  lemma {:induction false} EnumeratesSize<T>(order: seq<T>, s: set<T>)
    requires Enumerates(order, s)
    ensures |order| == |s|
  {
    if order == [] {
      assert s == {};
    } else {
      var init, last := order[..|order| - 1], order[|order| - 1];
      EnumeratesInit(order, s);
      EnumeratesSize(init, s - {last});
    }
  }

  /** Dropping the last element of an enumeration enumerates the set without it. */
  lemma EnumeratesInit<T>(order: seq<T>, s: set<T>)
    requires Enumerates(order, s) && order != []
    ensures order[|order| - 1] in s
    ensures Enumerates(order[..|order| - 1], s - {order[|order| - 1]})
  {
    var init, last := order[..|order| - 1], order[|order| - 1];
    assert order == init + [last];
    forall x | x in init
      ensures x != last
    {
      var i :| 0 <= i < |init| && init[i] == x;
      assert order[i] == x;
    }
  }

  /** The elements of `xs` that satisfy `p`, in order. */
  function Filter<T>(xs: seq<T>, p: T -> bool): (r: seq<T>)
    ensures |r| <= |xs|
  {
    if xs == [] then []
    else Filter(xs[..|xs| - 1], p) + (if p(xs[|xs| - 1]) then [xs[|xs| - 1]] else [])
  }

  /** The filtered elements are exactly the elements that satisfy `p`. */
  lemma {:induction false} FilterMembers<T>(xs: seq<T>, p: T -> bool, x: T)
    ensures x in Filter(xs, p) <==> x in xs && p(x)
  {
    if xs != [] {
      FilterMembers(xs[..|xs| - 1], p, x);
      assert xs == xs[..|xs| - 1] + [xs[|xs| - 1]];
    }
  }

  /** A subsequence of a subsequence is a subsequence. */
  lemma {:induction false} SubsequenceTransitive<T>(a: seq<T>, b: seq<T>, c: seq<T>)
    requires IsSubsequence(a, b) && IsSubsequence(b, c)
    ensures IsSubsequence(a, c)
    decreases |c|
  {
    if a != [] {
      var b', c' := b[..|b| - 1], c[..|c| - 1];
      if b[|b| - 1] == c[|c| - 1] && IsSubsequence(b', c') {
        if a[|a| - 1] == b[|b| - 1] && IsSubsequence(a[..|a| - 1], b') {
          SubsequenceTransitive(a[..|a| - 1], b', c');
        } else {
          SubsequenceTransitive(a, b', c');
        }
      } else {
        SubsequenceTransitive(a, b, c');
      }
    }
  }

  /** Every sequence is a subsequence of itself. */
  lemma {:induction false} SubsequenceReflexive<T>(s: seq<T>)
    ensures IsSubsequence(s, s)
  {
    if s != [] {
      SubsequenceReflexive(s[..|s| - 1]);
    }
  }

  /** Filtering keeps the order: its output is a subsequence of its input. */
  lemma {:induction false} FilterSubsequence<T>(xs: seq<T>, p: T -> bool)
    ensures IsSubsequence(Filter(xs, p), xs)
  {
    if xs != [] {
      var init, last := xs[..|xs| - 1], xs[|xs| - 1];
      FilterSubsequence(init, p);
      assert xs == init + [last];
      SubsequenceSnoc(Filter(init, p), init, last);
      if p(last) {
        assert Filter(xs, p) == Filter(init, p) + [last];
      } else {
        assert Filter(xs, p) == Filter(init, p);
      }
    }
  }

  /** A sequence every element of which satisfies `p` is its own filter. */
  lemma {:induction false} FilterAll<T>(xs: seq<T>, p: T -> bool)
    requires forall i | 0 <= i < |xs| :: p(xs[i])
    ensures Filter(xs, p) == xs
  {
    if xs != [] {
      FilterAll(xs[..|xs| - 1], p);
    }
  }

  /** Filtering twice by the same predicate is filtering once. */
  lemma FilterIdempotent<T>(xs: seq<T>, p: T -> bool)
    ensures Filter(Filter(xs, p), p) == Filter(xs, p)
  {
    var once := Filter(xs, p);
    forall i | 0 <= i < |once|
      ensures p(once[i])
    {
      FilterMembers(xs, p, once[i]);
    }
    FilterAll(once, p);
  }

  /** Filtering an enumeration of `s` enumerates the members of `s` that satisfy `p`. */
  lemma {:induction false} FilterEnumerates<T>(order: seq<T>, s: set<T>, p: T -> bool)
    requires Enumerates(order, s)
    ensures Enumerates(Filter(order, p), set x | x in s && p(x))
  {
    if order == [] {
      assert s == {};
    } else {
      var init, last := order[..|order| - 1], order[|order| - 1];
      EnumeratesInit(order, s);
      FilterEnumerates(init, s - {last}, p);
      var prev := Filter(init, p);
      if p(last) {
        assert Filter(order, p) == prev + [last];
        var rest := set x | x in s - {last} && p(x);
        assert (set x | x in s && p(x)) == rest + {last};
        EnumeratesSnoc(prev, rest, last);
      } else {
        assert Filter(order, p) == prev;
        assert (set x | x in s && p(x)) == (set x | x in s - {last} && p(x));
      }
    }
  }

  /** Appending a new element to an enumeration enumerates the set with it. */
  lemma EnumeratesSnoc<T>(order: seq<T>, s: set<T>, x: T)
    requires Enumerates(order, s) && x !in s
    ensures Enumerates(order + [x], s + {x})
  {
    var order' := order + [x];
    forall i, j | 0 <= i < j < |order'|
      ensures order'[i] != order'[j]
    {
      if j == |order| {
        assert order[i] in order;
      }
    }
  }

  /** The first index at or after `i` whose element satisfies `p`: a left-to-right scan that stops at the first hit. */
  function FirstFrom<T>(xs: seq<T>, p: T -> bool, i: nat): (r: Option<nat>)
    requires i <= |xs|
    ensures r.Some? ==> i <= r.value < |xs| && p(xs[r.value]) && forall j | i <= j < r.value :: !p(xs[j])
    ensures r.None? ==> forall j | i <= j < |xs| :: !p(xs[j])
    decreases |xs| - i
  {
    if i == |xs| then None else if p(xs[i]) then Some(i) else FirstFrom(xs, p, i + 1)
  }

  /** The first index whose element satisfies `p`. */
  function First<T>(xs: seq<T>, p: T -> bool): (r: Option<nat>)
    ensures r.Some? ==> r.value < |xs| && p(xs[r.value]) && forall j | 0 <= j < r.value :: !p(xs[j])
    ensures r.None? ==> forall j | 0 <= j < |xs| :: !p(xs[j])
  {
    FirstFrom(xs, p, 0)
  }

  /** The `for ... { if p(x) { ...; break } }` scan: the index where it stops, if it does. */
  method FindFirst<T>(xs: seq<T>, p: T -> bool) returns (r: Option<nat>)
    ensures r == First(xs, p)
  {
    r := None;
    for i := 0 to |xs|
      invariant forall j | 0 <= j < i :: !p(xs[j])
    {
      if p(xs[i]) {
        r := Some(i);
        return;
      }
    }
  }
}
