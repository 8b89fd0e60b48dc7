/** List operations the Python code performs by hand: appending only what is
    not yet present, keeping first occurrences, reversing, counting. */
module Lists {

  predicate NoDup<T(==)>(s: seq<T>) {
    forall i, j :: 0 <= i < j < |s| ==> s[i] != s[j]
  }

  /** `set(s)`. */
  function Elements<T(!new)>(s: seq<T>): (r: set<T>)
    ensures forall x :: x in r <==> x in s
  {
    set i | 0 <= i < |s| :: s[i]
  }

  /** Joining two duplicate-free lists with no element in common. */
  lemma NoDupConcat<T(!new)>(a: seq<T>, b: seq<T>)
    requires NoDup(a) && NoDup(b)
    requires Elements(a) !! Elements(b)
    ensures NoDup(a + b)
    ensures Elements(a + b) == Elements(a) + Elements(b)
  {
    var r := a + b;
    forall i, j | 0 <= i < j < |r| ensures r[i] != r[j] {
      if j < |a| {
        assert r[i] == a[i] && r[j] == a[j];
      } else if i >= |a| {
        assert r[i] == b[i - |a|] && r[j] == b[j - |a|];
      } else {
        assert r[i] == a[i] && r[j] == b[j - |a|];
        assert r[i] in Elements(a) && r[j] in Elements(b);
      }
    }
  }

  /** `if x not in s: s.append(x)`. */
  function AppendNew<T(==,!new)>(s: seq<T>, x: T): (r: seq<T>)
    ensures x in r
    ensures forall y :: y in r <==> y in s || y == x
    ensures NoDup(s) ==> NoDup(r)
  {
    if x in s then s else s + [x]
  }

  /** Appending an element that is not yet present. */
  lemma AppendFresh<T(!new)>(s: seq<T>, x: T)
    requires NoDup(s) && x !in s
    ensures AppendNew(s, x) == s + [x]
    ensures NoDup(s + [x]) && Elements(s + [x]) == Elements(s) + {x}
  {
  }

  /** The first occurrence of every element of `s`, in order: what a loop
      of `AppendNew` over `s` builds. */
  function Dedup<T(==,!new)>(s: seq<T>): (r: seq<T>)
    ensures NoDup(r)
    ensures forall y :: y in r <==> y in s
  {
    if s == [] then [] else AppendNew(Dedup(s[..|s| - 1]), s[|s| - 1])
  }

  /** A list without duplicates is its own first-occurrence list. */
  lemma {:induction false} DedupOfNoDup<T(!new)>(s: seq<T>)
    requires NoDup(s)
    ensures Dedup(s) == s
  {
    if s != [] {
      var init, last := s[..|s| - 1], s[|s| - 1];
      assert NoDup(init) by {
        forall i, j | 0 <= i < j < |init| ensures init[i] != init[j] {
          assert init[i] == s[i] && init[j] == s[j];
        }
      }
      DedupOfNoDup(init);
      assert last !in init by {
        forall i | 0 <= i < |init| ensures init[i] != last {
          assert init[i] == s[i];
        }
      }
      InitLast(s);
    }
  }

  /** One more element at the end is kept exactly when it is new. */
  lemma DedupSnoc<T(!new)>(s: seq<T>, x: T)
    ensures Dedup(s + [x]) == AppendNew(Dedup(s), x)
  {
    assert (s + [x])[..|s|] == s;
  }

  /** The first `k + 1` elements are the first `k` and then the next. */
  lemma TakeSnoc<T>(s: seq<T>, k: nat)
    requires k < |s|
    ensures s[..k + 1] == s[..k] + [s[k]]
  {
  }

  lemma InitLast<T>(s: seq<T>)
    requires s != []
    ensures s[..|s| - 1] + [s[|s| - 1]] == s
  {
  }

  lemma AppendNothing<T>(a: seq<T>, s: seq<T>)
    ensures a + s[..0] == a
  {
    assert s[..0] == [];
  }

  /** A prefix of `s` after `a`, grown by the next element of `s`. */
  lemma AppendTake<T>(a: seq<T>, s: seq<T>, k: nat)
    requires k < |s|
    ensures (a + s[..k]) + [s[k]] == a + s[..k + 1]
  {
    assert s[..k + 1] == s[..k] + [s[k]];
  }

  lemma SnocAssoc<T>(a: seq<T>, b: seq<T>, x: T)
    ensures (a + b) + [x] == a + (b + [x])
  {
  }

  /** One more element at the end. */
  lemma UnionSnoc<T>(a: set<T>, b: set<T>, x: T)
    ensures (a + b) + {x} == a + (b + {x})
  {
  }

  lemma ElementsSnoc<T(!new)>(s: seq<T>, x: T)
    ensures Elements(s + [x]) == Elements(s) + {x}
  {
  }

  /** One more element of a prefix. */
  lemma ElementsPrefix<T(!new)>(s: seq<T>, i: nat)
    requires i < |s|
    ensures Elements(s[..i + 1]) == Elements(s[..i]) + {s[i]}
  {
    assert s[..i + 1] == s[..i] + [s[i]];
  }

  /** Dropping one more element of a suffix. */
  lemma DropOne<T>(s: seq<T>, i: nat)
    requires i < |s|
    ensures s[i..][0] == s[i] && s[i..][1..] == s[i + 1..]
  {
  }

  lemma TakeAll<T>(s: seq<T>)
    ensures s[..|s|] == s
  {
  }

  lemma TakeOneMore<T>(s: seq<T>, i: nat)
    requires i < |s|
    ensures s[..i + 1] == s[..i] + [s[i]]
    ensures s[..i + 1][..i] == s[..i]
  {
  }

  lemma ElementsWhole<T(!new)>(s: seq<T>)
    ensures Elements(s[..|s|]) == Elements(s)
  {
    assert s[..|s|] == s;
  }

  /** What is in a prefix is in every longer prefix. */
  lemma PrefixMember<T>(s: seq<T>, i: nat, j: nat, x: T)
    requires i <= j <= |s| && x in s[..i]
    ensures x in s[..j]
  {
    var k :| 0 <= k < i && s[..i][k] == x;
    assert s[..j][k] == x;
  }

  /** In a list without duplicates, an element is not in the prefix before it. */
  lemma NoDupPrefix<T(!new)>(s: seq<T>, i: nat)
    requires NoDup(s) && i < |s|
    ensures s[i] !in Elements(s[..i])
  {
    forall k | 0 <= k < i ensures s[..i][k] != s[i] {
      assert s[..i][k] == s[k];
    }
  }

  /** `s.reverse()`. */
  function Reverse<T>(s: seq<T>): (r: seq<T>)
    ensures |r| == |s|
    ensures forall i :: 0 <= i < |s| ==> r[i] == s[|s| - 1 - i]
  {
    if s == [] then [] else Reverse(s[1..]) + [s[0]]
  }

  /** Reversing twice gives the list back. */
  lemma ReverseReverse<T>(s: seq<T>)
    ensures Reverse(Reverse(s)) == s
  {
    var r := Reverse(Reverse(s));
    forall i | 0 <= i < |s| ensures r[i] == s[i] {
      assert r[i] == Reverse(s)[|s| - 1 - i];
    }
  }

  lemma ReverseKeepsElements<T>(s: seq<T>)
    ensures forall x :: x in Reverse(s) <==> x in s
    ensures NoDup(s) ==> NoDup(Reverse(s))
  {
    var r := Reverse(s);
    forall x | x in s ensures x in r {
      var i :| 0 <= i < |s| && s[i] == x;
      assert r[|s| - 1 - i] == x;
    }
  }

  /** How many times `x` occurs in `s`. */
  function Count<T(==)>(s: seq<T>, x: T): (n: nat)
    ensures n <= |s|
    ensures n == 0 <==> x !in s
  {
    if s == [] then 0 else Count(s[..|s| - 1], x) + (if s[|s| - 1] == x then 1 else 0)
  }

  /** The keys of the elements of `xs`. */
  function KeySet<T, K>(xs: seq<T>, key: T -> K): set<K> {
    set i | 0 <= i < |xs| :: key(xs[i])
  }

  /** No key occurs twice among the elements of `xs`. */
  predicate DistinctKeys<T, K(==)>(xs: seq<T>, key: T -> K) {
    forall i, j :: 0 <= i < j < |xs| ==> key(xs[i]) != key(xs[j])
  }

  /** `xs` without its first element whose key is `k`. */
  function WithoutKey<T, K(==)>(xs: seq<T>, key: T -> K, k: K): (r: seq<T>)
    ensures |r| <= |xs|
  {
    if xs == [] then []
    else if key(xs[0]) == k then xs[1..]
    else [xs[0]] + WithoutKey(xs[1..], key, k)
  }

  lemma KeySetCons<T, K>(x: T, xs: seq<T>, key: T -> K)
    ensures KeySet([x] + xs, key) == {key(x)} + KeySet(xs, key)
  {
    var r := [x] + xs;
    forall k | k in KeySet(r, key) ensures k in {key(x)} + KeySet(xs, key) {
      var i :| 0 <= i < |r| && key(r[i]) == k;
      if i > 0 { assert r[i] == xs[i - 1]; }
    }
    forall k | k in KeySet(xs, key) ensures k in KeySet(r, key) {
      var i :| 0 <= i < |xs| && key(xs[i]) == k;
      assert r[i + 1] == xs[i];
    }
    assert key(r[0]) in KeySet(r, key);
  }

  lemma KeySetSnoc<T, K>(xs: seq<T>, x: T, key: T -> K)
    ensures KeySet(xs + [x], key) == KeySet(xs, key) + {key(x)}
  {
    var r := xs + [x];
    forall k | k in KeySet(r, key) ensures k in KeySet(xs, key) + {key(x)} {
      var i :| 0 <= i < |r| && key(r[i]) == k;
      if i < |xs| { assert r[i] == xs[i]; }
    }
    forall k | k in KeySet(xs, key) ensures k in KeySet(r, key) {
      var i :| 0 <= i < |xs| && key(xs[i]) == k;
      assert r[i] == xs[i];
    }
    assert key(r[|xs|]) in KeySet(r, key);
  }

  /** Dropping the element with key `k` from a list with distinct keys
      leaves the other keys, each still once. */
  lemma {:induction false} WithoutKeyDistinct<T, K>(xs: seq<T>, key: T -> K, k: K)
    requires DistinctKeys(xs, key)
    ensures DistinctKeys(WithoutKey(xs, key, k), key)
    ensures KeySet(WithoutKey(xs, key, k), key) == KeySet(xs, key) - {k}
  {
    if xs != [] {
      var tail := xs[1..];
      assert xs == [xs[0]] + tail;
      KeySetCons(xs[0], tail, key);
      assert DistinctKeys(tail, key) by {
        forall i, j | 0 <= i < j < |tail| ensures key(tail[i]) != key(tail[j]) {
          assert tail[i] == xs[i + 1] && tail[j] == xs[j + 1];
        }
      }
      assert key(xs[0]) !in KeySet(tail, key) by {
        forall i | 0 <= i < |tail| ensures key(tail[i]) != key(xs[0]) {
          assert tail[i] == xs[i + 1];
        }
      }
      if key(xs[0]) != k {
        WithoutKeyDistinct(tail, key, k);
        var rest := WithoutKey(tail, key, k);
        var r := [xs[0]] + rest;
        KeySetCons(xs[0], rest, key);
        forall i, j | 0 <= i < j < |r| ensures key(r[i]) != key(r[j]) {
          assert r[j] == rest[j - 1];
          if i == 0 {
            assert key(rest[j - 1]) in KeySet(rest, key);
          } else {
            assert r[i] == rest[i - 1];
          }
        }
      }
    }
  }

  /** The scan for the first element with key `k`, split at `i`: before
      the first step, after the last, and one step. */
  lemma WithoutKeyStart<T, K>(xs: seq<T>, key: T -> K, k: K)
    ensures xs[..0] + WithoutKey(xs[0..], key, k) == WithoutKey(xs, key, k)
  {
    assert xs[..0] == [] && xs[0..] == xs;
  }

  lemma WithoutKeyEnd<T, K>(xs: seq<T>, key: T -> K, k: K)
    ensures xs[..|xs|] + WithoutKey(xs[|xs|..], key, k) == xs
  {
    assert xs[..|xs|] == xs && xs[|xs|..] == [];
  }

  lemma WithoutKeyStep<T, K>(xs: seq<T>, key: T -> K, k: K, i: nat)
    requires i < |xs|
    ensures key(xs[i]) == k ==> WithoutKey(xs[i..], key, k) == xs[i + 1..]
    ensures key(xs[i]) != k ==>
      xs[..i] + WithoutKey(xs[i..], key, k) == xs[..i + 1] + WithoutKey(xs[i + 1..], key, k)
  {
    assert xs[i..][1..] == xs[i + 1..];
    if key(xs[i]) != k {
      assert xs[..i + 1] == xs[..i] + [xs[i]];
    }
  }

  function ReplaceKeyed<T, K(==)>(xs: seq<T>, key: T -> K, x: T): seq<T> {
    WithoutKey(xs, key, key(x)) + [x]
  }

  lemma ReplaceKeyedDistinct<T, K>(xs: seq<T>, key: T -> K, x: T)
    requires DistinctKeys(xs, key)
    ensures DistinctKeys(ReplaceKeyed(xs, key, x), key)
    ensures KeySet(ReplaceKeyed(xs, key, x), key) == KeySet(xs, key) + {key(x)}
  {
    WithoutKeyDistinct(xs, key, key(x));
    var rest := WithoutKey(xs, key, key(x));
    var r := rest + [x];
    KeySetSnoc(rest, x, key);
    forall i, j | 0 <= i < j < |r| ensures key(r[i]) != key(r[j]) {
      assert r[i] == rest[i];
      if j == |rest| {
        assert key(rest[i]) in KeySet(rest, key);
      } else {
        assert r[j] == rest[j];
      }
    }
  }

  /** Replacing every element of `more` in turn. */
  function ReplaceAllKeyed<T, K(==)>(xs: seq<T>, key: T -> K, more: seq<T>): seq<T> {
    if more == [] then xs
    else ReplaceKeyed(ReplaceAllKeyed(xs, key, more[..|more| - 1]), key, more[|more| - 1])
  }

  lemma {:induction false} ReplaceAllKeyedDistinct<T, K>(xs: seq<T>, key: T -> K, more: seq<T>)
    requires DistinctKeys(xs, key)
    ensures DistinctKeys(ReplaceAllKeyed(xs, key, more), key)
    ensures KeySet(ReplaceAllKeyed(xs, key, more), key) == KeySet(xs, key) + KeySet(more, key)
  {
    if more != [] {
      var init := more[..|more| - 1];
      ReplaceAllKeyedDistinct(xs, key, init);
      ReplaceKeyedDistinct(ReplaceAllKeyed(xs, key, init), key, more[|more| - 1]);
      assert more == init + [more[|more| - 1]];
      KeySetSnoc(init, more[|more| - 1], key);
    }
  }

  /** The elements of `s` that satisfy `keep`, in order. */
  function Filter<T>(s: seq<T>, keep: T -> bool): (r: seq<T>)
    ensures |r| <= |s|
  {
    if s == [] then [] else Filter(s[..|s| - 1], keep) + (if keep(s[|s| - 1]) then [s[|s| - 1]] else [])
  }

  lemma {:induction false} FilterMembers<T>(s: seq<T>, keep: T -> bool)
    ensures forall x :: x in Filter(s, keep) <==> x in s && keep(x)
  {
    if s != [] {
      FilterMembers(s[..|s| - 1], keep);
      InitLast(s);
      assert forall x :: x in s <==> x in s[..|s| - 1] || x == s[|s| - 1];
    }
  }

  lemma {:induction false} NoDupAtMostOnce<T>(s: seq<T>)
    requires NoDup(s)
    ensures forall x :: multiset(s)[x] <= 1
  {
    if s != [] {
      var init, last := s[..|s| - 1], s[|s| - 1];
      assert NoDup(init) by {
        forall i, j | 0 <= i < j < |init| ensures init[i] != init[j] {
          assert init[i] == s[i] && init[j] == s[j];
        }
      }
      NoDupAtMostOnce(init);
      assert last !in init by {
        forall i | 0 <= i < |init| ensures init[i] != last {
          assert init[i] == s[i];
        }
      }
      InitLast(s);
      assert multiset(s) == multiset(init) + multiset{last};
    }
  }

  /** A rearrangement of a list without duplicates has none either. */
  lemma NoDupPermutation<T>(s: seq<T>, t: seq<T>)
    requires NoDup(s) && multiset(s) == multiset(t)
    ensures NoDup(t)
  {
    NoDupAtMostOnce(s);
    forall i, j | 0 <= i < j < |t| ensures t[i] != t[j] {
      assert t == t[..j] + t[j..];
      assert multiset(t) == multiset(t[..j]) + multiset(t[j..]);
      assert multiset(t)[t[i]] == multiset(t[..j])[t[i]] + multiset(t[j..])[t[i]];
      assert t[i] in t[..j] && t[j] in t[j..];
      assert multiset(t[..j])[t[i]] >= 1 && multiset(t[j..])[t[j]] >= 1;
    }
  }

  /** A second update of the same key replaces the first. */
  lemma UpdateTwice<K, V>(m: map<K, V>, k: K, a: V, b: V)
    ensures m[k := a][k := b] == m[k := b]
  {
  }
}
