/** Order-preserving filters over sequences, the shape of every "append when it matches" loop. */
module Seqs {
  import opened Wrappers

  /** The elements of `s` that satisfy `f`, in their original order. */
  function Filter<T>(s: seq<T>, f: T -> bool): (r: seq<T>)
    ensures |r| <= |s|
  {
    if s == [] then [] else (if f(s[0]) then [s[0]] else []) + Filter(s[1..], f)
  }

  /** The `Some` values of `f` over `s`, in the order of `s`: a parser applied line by line. */
  function Collect<T, U>(s: seq<T>, f: T -> Option<U>): (r: seq<U>)
    ensures |r| <= |s|
  {
    if s == [] then []
    else
      var rest := Collect(s[1..], f);
      match f(s[0])
      case Some(u) => [u] + rest
      case None => rest
  }

  /** `f` applied to every element, in order. */
  function Map<T, U>(s: seq<T>, f: T -> U): (r: seq<U>)
    ensures |r| == |s|
  {
    if s == [] then [] else [f(s[0])] + Map(s[1..], f)
  }

  lemma {:induction false} MapAt<T, U>(s: seq<T>, f: T -> U, i: int)
    requires 0 <= i < |s|
    ensures Map(s, f)[i] == f(s[i])
  {
    if i > 0 {
      MapAt(s[1..], f, i - 1);
    }
  }

  /** `Filter` keeps exactly the elements that pass. */
  lemma {:induction false} FilterMembership<T>(s: seq<T>, f: T -> bool, x: T)
    ensures x in Filter(s, f) <==> x in s && f(x)
  {
    if s != [] {
      FilterMembership(s[1..], f, x);
      assert x in s <==> x == s[0] || x in s[1..];
    }
  }

  /** `Collect` holds exactly the values some element produces. */
  lemma {:induction false} CollectMembership<T, U>(s: seq<T>, f: T -> Option<U>, u: U)
    ensures u in Collect(s, f) <==> exists x :: x in s && f(x) == Some(u)
  {
    if s != [] {
      CollectMembership(s[1..], f, u);
      if exists x :: x in s && f(x) == Some(u) {
        var x :| x in s && f(x) == Some(u);
        if x != s[0] {
          assert x in s[1..];
        }
      }
      if exists x :: x in s[1..] && f(x) == Some(u) {
        var x :| x in s[1..] && f(x) == Some(u);
        assert x in s;
      }
    }
  }

  lemma {:induction false} FilterAppend<T>(s: seq<T>, x: T, f: T -> bool)
    ensures Filter(s + [x], f) == Filter(s, f) + (if f(x) then [x] else [])
  {
    if s == [] {
      assert s + [x] == [x];
    } else {
      var head := if f(s[0]) then [s[0]] else [];
      var tail := if f(x) then [x] else [];
      assert (s + [x])[0] == s[0] && (s + [x])[1..] == s[1..] + [x];
      FilterAppend(s[1..], x, f);
      calc {
        Filter(s + [x], f);
        head + Filter(s[1..] + [x], f);
        head + (Filter(s[1..], f) + tail);
        (head + Filter(s[1..], f)) + tail;
      }
    }
  }

  lemma {:induction false} CollectAppend<T, U>(s: seq<T>, x: T, f: T -> Option<U>)
    ensures Collect(s + [x], f) == Collect(s, f) + (if f(x).Some? then [f(x).value] else [])
  {
    if s == [] {
      assert s + [x] == [x];
    } else {
      assert (s + [x])[1..] == s[1..] + [x];
      CollectAppend(s[1..], x, f);
    }
  }

  /** One more element of a prefix adds its value, if it has one, at the end. */
  lemma CollectStep<T, U>(s: seq<T>, i: nat, f: T -> Option<U>)
    requires i < |s|
    ensures Collect(s[..i + 1], f) == Collect(s[..i], f) + (if f(s[i]).Some? then [f(s[i]).value] else [])
  {
    assert s[..i + 1] == s[..i] + [s[i]];
    CollectAppend(s[..i], s[i], f);
  }

  /** Filtering twice with the same test is filtering once. */
  lemma {:induction false} FilterIdempotent<T>(s: seq<T>, f: T -> bool)
    ensures Filter(Filter(s, f), f) == Filter(s, f)
  {
    if s != [] {
      var rest := Filter(s[1..], f);
      FilterIdempotent(s[1..], f);
      if f(s[0]) {
        var once := [s[0]] + rest;
        assert Filter(s, f) == once;
        assert once[0] == s[0] && once[1..] == rest;
        assert Filter(once, f) == [s[0]] + Filter(rest, f);
      } else {
        assert Filter(s, f) == rest;
      }
    }
  }

  /** Two tests that never hold together select at most as many elements as there are. */
  lemma {:induction false} DisjointFiltersFit<T>(s: seq<T>, f: T -> bool, g: T -> bool)
    requires forall x :: x in s ==> !(f(x) && g(x))
    ensures |Filter(s, f)| + |Filter(s, g)| <= |s|
  {
    if s != [] {
      DisjointFiltersFit(s[1..], f, g);
    }
  }

  /** When every element satisfies one of two exclusive tests, the two selections split `s` exactly. */
  lemma {:induction false} ComplementaryFiltersSplit<T>(s: seq<T>, f: T -> bool, g: T -> bool)
    requires forall x :: x in s ==> (f(x) <==> !g(x))
    ensures |Filter(s, f)| + |Filter(s, g)| == |s|
  {
    if s != [] {
      ComplementaryFiltersSplit(s[1..], f, g);
    }
  }

  /** A weaker test keeps at least the elements a stronger one keeps. */
  lemma {:induction false} FilterMonotone<T>(s: seq<T>, f: T -> bool, g: T -> bool)
    requires forall x :: x in s && f(x) ==> g(x)
    ensures |Filter(s, f)| <= |Filter(s, g)|
    ensures multiset(Filter(s, f)) <= multiset(Filter(s, g))
  {
    if s != [] {
      FilterMonotone(s[1..], f, g);
    }
  }

  /** Filters only look at the elements they keep or drop: tests agreeing on `s` select the same. */
  lemma {:induction false} FilterExtensional<T>(s: seq<T>, f: T -> bool, g: T -> bool)
    requires forall x :: x in s ==> f(x) == g(x)
    ensures Filter(s, f) == Filter(s, g)
  {
    if s != [] {
      FilterExtensional(s[1..], f, g);
    }
  }
}
