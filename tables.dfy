/** Table primitives shared by the dashboard's transformations: boolean-mask
    selection, the distinct keys of a group-by, and per-group sums, counts and
    means. A table is a sequence of rows; a group-by is described by a key
    function and, for aggregation, a value function. */
module Tables {

  /** A cell that may hold no value (pandas' NaN as a missing-value marker). */
  datatype Option<T> = None | Some(value: T)

  /** No element occurs twice. */
  ghost predicate Distinct<K>(s: seq<K>) {
    forall i, j :: 0 <= i < j < |s| ==> s[i] != s[j]
  }

  /** `a` is `b` with some elements removed, the rest in their order. */
  ghost predicate IsSubsequence<T>(a: seq<T>, b: seq<T>)
    decreases |b|
  {
    a == [] || (b != [] && ((a[0] == b[0] && IsSubsequence(a[1..], b[1..])) || IsSubsequence(a, b[1..])))
  }

  /** The rows of `s` for which `keep` holds, in their original order
      (pandas' `df[mask]`). */
  function Where<T(!new)>(s: seq<T>, keep: T -> bool): (r: seq<T>)
    ensures forall x :: x in r <==> x in s && keep(x)
    ensures forall x :: multiset(r)[x] == if keep(x) then multiset(s)[x] else 0
    ensures IsSubsequence(r, s)
  {
    if s == [] then []
    else
      var rest := Where(s[1..], keep);
      assert s == [s[0]] + s[1..];
      if keep(s[0]) then [s[0]] + rest else rest
  }

  /** The distinct keys of `s`, each once, in order of first appearance. */
  function Keys<T(!new), K(==,!new)>(s: seq<T>, key: T -> K): (r: seq<K>)
    ensures Distinct(r)
    ensures forall k :: k in r <==> exists x :: x in s && key(x) == k
  {
    if s == [] then []
    else
      var init := s[..|s| - 1];
      assert s == init + [s[|s| - 1]];
      var ks := Keys(init, key);
      var k := key(s[|s| - 1]);
      if k in ks then ks else ks + [k]
  }

  /** Sum of `val` over the whole table. */
  function Sum<T>(s: seq<T>, val: T -> real): real {
    if s == [] then 0.0 else Sum(s[..|s| - 1], val) + val(s[|s| - 1])
  }

  /** Sum of `val` over the rows whose key is `k`. */
  function SumWhere<T(!new), K(==,!new)>(s: seq<T>, key: T -> K, val: T -> real, k: K): real {
    if s == [] then 0.0
    else SumWhere(s[..|s| - 1], key, val, k) + (if key(s[|s| - 1]) == k then val(s[|s| - 1]) else 0.0)
  }

  /** Number of rows whose key is `k`. */
  function CountWhere<T(!new), K(==,!new)>(s: seq<T>, key: T -> K, k: K): nat {
    if s == [] then 0
    else CountWhere(s[..|s| - 1], key, k) + (if key(s[|s| - 1]) == k then 1 else 0)
  }

  /** Arithmetic mean of `val` over the rows whose key is `k` (0 when the
      group is empty, a case no caller asks for). */
  function MeanWhere<T(!new), K(==,!new)>(s: seq<T>, key: T -> K, val: T -> real, k: K): real {
    var n := CountWhere(s, key, k);
    if n == 0 then 0.0 else SumWhere(s, key, val, k) / (n as real)
  }

  /** Sum over the listed keys of their group sums. */
  function SumOver<T(!new), K(==,!new)>(ks: seq<K>, s: seq<T>, key: T -> K, val: T -> real): real {
    if ks == [] then 0.0
    else SumOver(ks[..|ks| - 1], s, key, val) + SumWhere(s, key, val, ks[|ks| - 1])
  }

  /** A group with no row sums to zero and counts zero. */
  lemma {:induction false} EmptyGroup<T(!new), K(!new)>(s: seq<T>, key: T -> K, val: T -> real, k: K)
    requires forall x :: x in s ==> key(x) != k
    ensures SumWhere(s, key, val, k) == 0.0
    ensures CountWhere(s, key, k) == 0
  {
    if s != [] {
      var init := s[..|s| - 1];
      assert forall x :: x in init ==> x in s;
      EmptyGroup(init, key, val, k);
    }
  }

  /** A key that occurs in the table has a non-empty group. */
  lemma {:induction false} PresentGroup<T(!new), K(!new)>(s: seq<T>, key: T -> K, x: T)
    requires x in s
    ensures CountWhere(s, key, key(x)) > 0
  {
    var init := s[..|s| - 1];
    assert s == init + [s[|s| - 1]];
    if s[|s| - 1] != x {
      PresentGroup(init, key, x);
    }
  }

  /** Appending one row adds its value to exactly one group among distinct keys. */
  lemma {:induction false} SumOverSnoc<T(!new), K(!new)>(ks: seq<K>, s: seq<T>, key: T -> K, val: T -> real, x: T)
    requires Distinct(ks)
    ensures SumOver(ks, s + [x], key, val) == SumOver(ks, s, key, val) + (if key(x) in ks then val(x) else 0.0)
  {
    assert (s + [x])[..|s|] == s;
    if ks != [] {
      var kinit := ks[..|ks| - 1];
      assert ks == kinit + [ks[|ks| - 1]];
      assert Distinct(kinit);
      SumOverSnoc(kinit, s, key, val, x);
    }
  }

  /** Group-summing loses and duplicates nothing: the group sums over the
      distinct keys add up to the sum over the whole table. */
  lemma {:induction false} GroupSumsAddUp<T(!new), K(!new)>(s: seq<T>, key: T -> K, val: T -> real)
    ensures SumOver(Keys(s, key), s, key, val) == Sum(s, val)
  {
    if s != [] {
      var init := s[..|s| - 1];
      var x := s[|s| - 1];
      assert s == init + [x];
      var ks := Keys(init, key);
      GroupSumsAddUp(init, key, val);
      SumOverSnoc(ks, init, key, val, x);
      if key(x) !in ks {
        assert Keys(s, key) == ks + [key(x)];
        assert (ks + [key(x)])[..|ks|] == ks;
        assert forall y :: y in init ==> key(y) != key(x);
        EmptyGroup(init, key, val, key(x));
      }
    }
  }

  /** Counting splits over concatenation. */
  lemma {:induction false} CountAppend<T(!new), K(!new)>(a: seq<T>, b: seq<T>, key: T -> K, k: K)
    ensures CountWhere(a + b, key, k) == CountWhere(a, key, k) + CountWhere(b, key, k)
  {
    if b != [] {
      var binit := b[..|b| - 1];
      assert b == binit + [b[|b| - 1]];
      assert (a + b)[..|a + b| - 1] == a + binit;
      assert (a + b)[|a + b| - 1] == b[|b| - 1];
      CountAppend(a, binit, key, k);
      assert CountWhere(a + b, key, k) == CountWhere(a + binit, key, k) + (if key(b[|b| - 1]) == k then 1 else 0);
      assert CountWhere(b, key, k) == CountWhere(binit, key, k) + (if key(b[|b| - 1]) == k then 1 else 0);
    } else {
      assert a + b == a;
    }
  }

  /** Counting depends only on the rows present, not on their order. */
  lemma {:induction false} CountPermutation<T(!new), K(!new)>(a: seq<T>, b: seq<T>, key: T -> K, k: K)
    requires multiset(a) == multiset(b)
    ensures CountWhere(a, key, k) == CountWhere(b, key, k)
    decreases |a|
  {
    if a != [] {
      var ainit := a[..|a| - 1];
      var x := a[|a| - 1];
      assert a == ainit + [x];
      assert x in multiset(b);
      var j :| 0 <= j < |b| && b[j] == x;
      var b' := b[..j] + b[j + 1..];
      assert b == b[..j] + [x] + b[j + 1..];
      assert multiset(b) == multiset(b[..j]) + multiset{x} + multiset(b[j + 1..]);
      assert multiset(a) == multiset(ainit) + multiset{x};
      assert multiset(b') == multiset(b[..j]) + multiset(b[j + 1..]);
      forall y
        ensures multiset(b')[y] == multiset(ainit)[y]
      {
        assert multiset(a)[y] == multiset(b)[y];
        assert multiset(a)[y] == multiset(ainit)[y] + multiset{x}[y];
        assert multiset(b)[y] == multiset(b[..j])[y] + multiset{x}[y] + multiset(b[j + 1..])[y];
      }
      assert multiset(b') == multiset(ainit);
      CountPermutation(ainit, b', key, k);
      CountAppend(b[..j], [x], key, k);
      CountAppend(b[..j] + [x], b[j + 1..], key, k);
      CountAppend(b[..j], b[j + 1..], key, k);
      assert CountWhere([x], key, k) == CountWhere(a, key, k) - CountWhere(ainit, key, k);
    }
  }

  /** A prefix never has more rows of a group than a longer prefix, and
      taking one more row adds one exactly when that row is in the group. */
  lemma {:induction false} CountPrefix<T(!new), K(!new)>(s: seq<T>, key: T -> K, k: K, i: nat, j: nat)
    requires i <= j <= |s|
    ensures CountWhere(s[..i], key, k) <= CountWhere(s[..j], key, k)
    ensures j == i + 1 ==> CountWhere(s[..j], key, k) == CountWhere(s[..i], key, k) + (if key(s[i]) == k then 1 else 0)
    decreases j - i
  {
    if i < j {
      assert s[..j][..j - 1] == s[..j - 1];
      CountPrefix(s, key, k, i, j - 1);
    }
  }

  /** If every value of group `k` exceeds `m`, the group sum exceeds its size times `m`. */
  lemma {:induction false} SumAbove<T(!new), K(!new)>(s: seq<T>, key: T -> K, val: T -> real, k: K, m: real)
    requires forall x :: x in s && key(x) == k ==> val(x) > m
    ensures SumWhere(s, key, val, k) >= (CountWhere(s, key, k) as real) * m
    ensures CountWhere(s, key, k) > 0 ==> SumWhere(s, key, val, k) > (CountWhere(s, key, k) as real) * m
  {
    if s != [] {
      var init := s[..|s| - 1];
      assert forall x :: x in init ==> x in s;
      SumAbove(init, key, val, k, m);
      var c := CountWhere(init, key, k) as real;
      assert (c + 1.0) * m == c * m + m;
    }
  }

  /** If every value of group `k` is below `m`, the group sum is below its size times `m`. */
  lemma {:induction false} SumBelow<T(!new), K(!new)>(s: seq<T>, key: T -> K, val: T -> real, k: K, m: real)
    requires forall x :: x in s && key(x) == k ==> val(x) < m
    ensures SumWhere(s, key, val, k) <= (CountWhere(s, key, k) as real) * m
    ensures CountWhere(s, key, k) > 0 ==> SumWhere(s, key, val, k) < (CountWhere(s, key, k) as real) * m
  {
    if s != [] {
      var init := s[..|s| - 1];
      assert forall x :: x in init ==> x in s;
      SumBelow(init, key, val, k, m);
      var c := CountWhere(init, key, k) as real;
      assert (c + 1.0) * m == c * m + m;
    }
  }

  /** The mean of a non-empty group lies between the group's smallest and
      largest value: some member is at most the mean and some is at least it. */
  lemma MeanBetweenExtremes<T(!new), K(!new)>(s: seq<T>, key: T -> K, val: T -> real, k: K)
    requires CountWhere(s, key, k) > 0
    ensures exists x :: x in s && key(x) == k && val(x) <= MeanWhere(s, key, val, k)
    ensures exists x :: x in s && key(x) == k && MeanWhere(s, key, val, k) <= val(x)
  {
    var n := CountWhere(s, key, k) as real;
    var m := MeanWhere(s, key, val, k);
    assert n * m == SumWhere(s, key, val, k);
    if forall x :: x in s && key(x) == k ==> val(x) > m {
      SumAbove(s, key, val, k, m);
      assert false;
    }
    if forall x :: x in s && key(x) == k ==> val(x) < m {
      SumBelow(s, key, val, k, m);
      assert false;
    }
  }

  /** A sequence without repeats has every multiplicity at most one. */
  lemma {:induction false} DistinctAtMostOnce<K>(s: seq<K>)
    requires Distinct(s)
    ensures forall x :: multiset(s)[x] <= 1
  {
    if s != [] {
      var init := s[..|s| - 1];
      var y := s[|s| - 1];
      assert s == init + [y];
      assert Distinct(init);
      DistinctAtMostOnce(init);
      assert y !in init;
      assert multiset(s) == multiset(init) + multiset{y};
    }
  }

  /** An element at two positions occurs at least twice. */
  lemma Repeated<K>(s: seq<K>, i: nat, j: nat)
    requires i < j < |s| && s[i] == s[j]
    ensures multiset(s)[s[i]] >= 2
  {
    assert s == s[..i] + [s[i]] + s[i + 1..j] + [s[j]] + s[j + 1..];
    assert multiset(s) == multiset(s[..i]) + multiset{s[i]} + multiset(s[i + 1..j]) + multiset{s[j]} + multiset(s[j + 1..]);
  }

  /** A sequence whose multiplicities are all at most one has no repeats. */
  lemma AtMostOnceDistinct<K>(s: seq<K>)
    requires forall x :: multiset(s)[x] <= 1
    ensures Distinct(s)
  {
    forall i, j | 0 <= i < j < |s|
      ensures s[i] != s[j]
    {
      if s[i] == s[j] {
        Repeated(s, i, j);
        assert false;
      }
    }
  }

  /** Reordering a sequence without repeats keeps it without repeats. */
  lemma DistinctPermutation<K>(a: seq<K>, b: seq<K>)
    requires multiset(a) == multiset(b) && Distinct(a)
    ensures Distinct(b)
  {
    DistinctAtMostOnce(a);
    AtMostOnceDistinct(b);
  }
}
