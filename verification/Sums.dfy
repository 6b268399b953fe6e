/** Sums of a real-valued attribute over the rows of a sequence, and their grouping by a key. */
module Sums {
  import opened Wrappers

  function SumBy<T>(xs: seq<T>, f: T -> real): real {
    if xs == [] then 0.0 else f(xs[0]) + SumBy(xs[1..], f)
  }

  lemma {:induction false} SumByConcat<T>(a: seq<T>, b: seq<T>, f: T -> real)
    ensures SumBy(a + b, f) == SumBy(a, f) + SumBy(b, f)
  {
    if a == [] {
      assert a + b == b;
    } else {
      SumByConcat(a[1..], b, f);
      assert (a + b)[1..] == a[1..] + b;
    }
  }

  lemma {:induction false} SumByAppend<T>(a: seq<T>, x: T, f: T -> real)
    ensures SumBy(a + [x], f) == SumBy(a, f) + f(x)
  {
    SumByConcat(a, [x], f);
    assert [x][1..] == [];
  }

  /** If f is a * g + b * h on every row, so are the sums. */
  lemma {:induction false} SumByLinear<T>(xs: seq<T>, f: T -> real, a: real, g: T -> real, b: real, h: T -> real)
    requires forall x :: x in xs ==> f(x) == a * g(x) + b * h(x)
    ensures SumBy(xs, f) == a * SumBy(xs, g) + b * SumBy(xs, h)
  {
    if xs != [] {
      SumByLinear(xs[1..], f, a, g, b, h);
      Distribute(a, g(xs[0]), SumBy(xs[1..], g), SumBy(xs, g));
      Distribute(b, h(xs[0]), SumBy(xs[1..], h), SumBy(xs, h));
    } else {
      assert a * 0.0 == 0.0 && b * 0.0 == 0.0;
    }
  }

  lemma {:induction false} Distribute(a: real, x: real, y: real, s: real)
    requires s == x + y
    ensures a * s == a * x + a * y
  {
  }

  lemma {:induction false} SumByScaled<T>(xs: seq<T>, f: T -> real, c: real, g: T -> real)
    requires forall x :: x in xs ==> f(x) == c * g(x)
    ensures SumBy(xs, f) == c * SumBy(xs, g)
  {
    if xs != [] {
      SumByScaled(xs[1..], f, c, g);
      Distribute(c, g(xs[0]), SumBy(xs[1..], g), SumBy(xs, g));
    } else {
      assert c * 0.0 == 0.0;
    }
  }

  lemma {:induction false} SumByUnfolded<T>(xs: seq<T>, f: T -> real)
    ensures SumBy(xs, f) == if xs == [] then 0.0 else f(xs[0]) + SumBy(xs[1..], f)
  {
  }

  lemma {:induction false} SumByEqual<T>(xs: seq<T>, f: T -> real, g: T -> real)
    requires forall x :: x in xs ==> f(x) == g(x)
    ensures SumBy(xs, f) == SumBy(xs, g)
  {
    if xs != [] {
      SumByEqual(xs[1..], f, g);
    }
  }

  /** Rowwise equality of two attributes on two frames of the same length. */
  lemma {:induction false} SumByPointwise<T, U>(xs: seq<T>, f: T -> real, ys: seq<U>, g: U -> real)
    requires |xs| == |ys| && forall i :: 0 <= i < |xs| ==> f(xs[i]) == g(ys[i])
    ensures SumBy(xs, f) == SumBy(ys, g)
  {
    if xs != [] {
      SumByPointwise(xs[1..], f, ys[1..], g);
    }
  }

  lemma {:induction false} SumByRemove<T>(xs: seq<T>, i: nat, f: T -> real)
    requires i < |xs|
    ensures SumBy(xs, f) == f(xs[i]) + SumBy(xs[..i] + xs[i + 1..], f)
  {
    SumByConcat(xs[..i], xs[i..], f);
    SumByConcat(xs[..i], xs[i + 1..], f);
    assert xs == xs[..i] + xs[i..];
    assert xs[i..][1..] == xs[i + 1..];
  }

  lemma {:induction false} SumByPermutation<T>(xs: seq<T>, ys: seq<T>, f: T -> real)
    requires multiset(xs) == multiset(ys)
    ensures SumBy(xs, f) == SumBy(ys, f)
    decreases |xs|
  {
    if xs == [] {
      assert |multiset(ys)| == 0;
    } else {
      assert xs[0] in multiset(ys);
      var i :| 0 <= i < |ys| && ys[i] == xs[0];
      MatchRemoved(xs, ys, i);
      SumByRemove(ys, i, f);
      SumByPermutation(xs[1..], ys[..i] + ys[i + 1..], f);
    }
  }

  lemma {:induction false} MatchRemoved<T>(xs: seq<T>, ys: seq<T>, i: nat)
    requires xs != [] && i < |ys| && ys[i] == xs[0] && multiset(xs) == multiset(ys)
    ensures multiset(xs[1..]) == multiset(ys[..i] + ys[i + 1..])
  {
    assert xs == [xs[0]] + xs[1..] && ys == ys[..i] + [ys[i]] + ys[i + 1..];
    assert multiset(ys[..i] + ys[i + 1..]) == multiset(ys) - multiset{ys[i]};
    assert multiset(xs[1..]) == multiset(xs) - multiset{xs[0]};
  }

  // ---------------------------------------------------------------- grouping

  /** Rows whose key is k. */
  function Group<T, K(==)>(xs: seq<T>, key: T -> Option<K>, k: K): (r: seq<T>)
    ensures forall x :: x in r ==> x in xs && key(x) == Some(k)
    ensures forall x :: x in xs && key(x) == Some(k) ==> x in r
  {
    if xs == [] then []
    else (if key(xs[0]) == Some(k) then [xs[0]] else []) + Group(xs[1..], key, k)
  }

  /** Rows with a key; grouping drops the others. */
  function Keyed<T, K>(xs: seq<T>, key: T -> Option<K>): (r: seq<T>)
    ensures forall x :: x in r ==> x in xs && key(x).Some?
    ensures forall x :: x in xs && key(x).Some? ==> x in r
  {
    if xs == [] then []
    else (if key(xs[0]).Some? then [xs[0]] else []) + Keyed(xs[1..], key)
  }

  predicate Distinct<K(==)>(keys: seq<K>) {
    forall i, j :: 0 <= i < j < |keys| ==> keys[i] != keys[j]
  }

  /** The keys present, each once. */
  function KeysOf<T, K(==)>(xs: seq<T>, key: T -> Option<K>): (keys: seq<K>)
    ensures Distinct(keys)
    ensures forall k :: k in keys ==> exists x :: x in xs && key(x) == Some(k)
    ensures forall x :: x in xs && key(x).Some? ==> key(x).value in keys
  {
    if xs == [] then []
    else
      var rest := KeysOf(xs[1..], key);
      if key(xs[0]).Some? && key(xs[0]).value !in rest then [key(xs[0]).value] + rest else rest
  }

  function SumOfGroups<T, K(==)>(keys: seq<K>, xs: seq<T>, key: T -> Option<K>, f: T -> real): real {
    if keys == [] then 0.0 else SumBy(Group(xs, key, keys[0]), f) + SumOfGroups(keys[1..], xs, key, f)
  }

  lemma {:induction false} GroupsOfNothing<T, K>(keys: seq<K>, key: T -> Option<K>, f: T -> real)
    ensures SumOfGroups(keys, [], key, f) == 0.0
  {
    if keys != [] {
      GroupsOfNothing(keys[1..], key, f);
    }
  }

  /** One row adds its value to the total of the group sums once when its key is listed, else not at all. */
  lemma {:induction false} GroupsOfRow<T, K>(keys: seq<K>, xs: seq<T>, key: T -> Option<K>, f: T -> real)
    requires xs != [] && Distinct(keys)
    ensures SumOfGroups(keys, xs, key, f) == SumOfGroups(keys, xs[1..], key, f)
              + if key(xs[0]).Some? && key(xs[0]).value in keys then f(xs[0]) else 0.0
  {
    if keys != [] {
      GroupsOfRow(keys[1..], xs, key, f);
      if key(xs[0]) == Some(keys[0]) {
        assert Group(xs, key, keys[0])[1..] == Group(xs[1..], key, keys[0]);
        assert keys[0] !in keys[1..];
      } else {
        assert Group(xs, key, keys[0]) == Group(xs[1..], key, keys[0]);
      }
    }
  }

  /** Group totals add up to the total of the rows that have a key. */
  lemma {:induction false} GroupsCoverKeyed<T, K>(keys: seq<K>, xs: seq<T>, key: T -> Option<K>, f: T -> real)
    requires Distinct(keys) && forall x :: x in xs && key(x).Some? ==> key(x).value in keys
    ensures SumOfGroups(keys, xs, key, f) == SumBy(Keyed(xs, key), f)
  {
    if xs == [] {
      GroupsOfNothing(keys, key, f);
    } else {
      GroupsOfRow(keys, xs, key, f);
      GroupsCoverKeyed(keys, xs[1..], key, f);
      if key(xs[0]).Some? {
        assert Keyed(xs, key)[1..] == Keyed(xs[1..], key);
      } else {
        assert Keyed(xs, key) == Keyed(xs[1..], key);
      }
    }
  }

  lemma {:induction false} AllKeyed<T, K>(xs: seq<T>, key: T -> Option<K>)
    requires forall x :: x in xs ==> key(x).Some?
    ensures Keyed(xs, key) == xs
  {
    if xs != [] {
      AllKeyed(xs[1..], key);
      assert xs == [xs[0]] + xs[1..];
    }
  }

  /** Dropping the rows without a key is summing a value that is 0 on them. */
  lemma {:induction false} KeyedIsMasked<T, K>(xs: seq<T>, key: T -> Option<K>, f: T -> real, masked: T -> real)
    requires forall x :: x in xs ==> masked(x) == if key(x).Some? then f(x) else 0.0
    ensures SumBy(Keyed(xs, key), f) == SumBy(xs, masked)
  {
    if xs != [] {
      KeyedIsMasked(xs[1..], key, f, masked);
      if key(xs[0]).Some? {
        assert Keyed(xs, key)[1..] == Keyed(xs[1..], key);
      } else {
        assert Keyed(xs, key) == Keyed(xs[1..], key);
      }
    }
  }

  /** Rows without a key. */
  function Unkeyed<T, K>(xs: seq<T>, key: T -> Option<K>): (r: seq<T>)
    ensures forall x :: x in r ==> x in xs && key(x).None?
    ensures forall x :: x in xs && key(x).None? ==> x in r
  {
    if xs == [] then []
    else (if key(xs[0]).None? then [xs[0]] else []) + Unkeyed(xs[1..], key)
  }

  lemma {:induction false} KeyedAndUnkeyed<T, K>(xs: seq<T>, key: T -> Option<K>, f: T -> real)
    ensures SumBy(xs, f) == SumBy(Keyed(xs, key), f) + SumBy(Unkeyed(xs, key), f)
  {
    if xs != [] {
      KeyedAndUnkeyed(xs[1..], key, f);
      if key(xs[0]).Some? {
        assert Keyed(xs, key)[1..] == Keyed(xs[1..], key);
        assert Unkeyed(xs, key) == Unkeyed(xs[1..], key);
      } else {
        assert Keyed(xs, key) == Keyed(xs[1..], key);
        assert Unkeyed(xs, key)[1..] == Unkeyed(xs[1..], key);
      }
    }
  }
}
