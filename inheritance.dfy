/** Inheritance closure of a seed collection (germinate/seeds.py,
    `SeedStructure._expand_inheritance`): each seed's list of inherited
    seeds is completed with what those seeds inherit, ancestors first. */
module Inheritance {
  import opened Lists

  /** The contract of `topo_sort` on an inheritance map: every seed once,
      each after all the seeds it inherits from. */
  predicate IsTopoOrder(inherit: map<string, seq<string>>, order: seq<string>) {
    NoDup(order) && Elements(order) == inherit.Keys
    && forall i :: 0 <= i < |order| ==>
         order[i] in inherit && forall x :: x in inherit[order[i]] ==> x in order[..i]
  }

  /** Every seed of `list` is known, and every seed it inherits from comes
      earlier in `list`. */
  ghost predicate AncestorsFirst(inherit: map<string, seq<string>>, list: seq<string>) {
    forall i :: 0 <= i < |list| ==>
      list[i] in inherit && forall x :: x in inherit[list[i]] ==> x in list[..i]
  }

  /** Whether `p` is one of `direct` whose list in `inherit` holds `x`. */
  ghost predicate Through(inherit: map<string, seq<string>>, direct: seq<string>, x: string) {
    exists p :: p in direct && p in inherit && x in inherit[p]
  }

  /** For each of `direct` in turn, the seeds it inherits from and then
      the seed itself: the order in which `_expand_inheritance` meets
      them. */
  function Expansion(inherit: map<string, seq<string>>, direct: seq<string>): seq<string>
    requires forall p :: p in direct ==> p in inherit
  {
    if direct == [] then []
    else
      var last := direct[|direct| - 1];
      Expansion(inherit, direct[..|direct| - 1]) + inherit[last] + [last]
  }

  /** Seed `n`'s list in `inherit` is the expansion of its list in `orig`:
      without duplicates, ancestors first, and holding exactly the direct
      inheritees and what they inherit. */
  ghost predicate Expanded(orig: map<string, seq<string>>, inherit: map<string, seq<string>>, n: string) {
    n in orig && n in inherit
    && NoDup(inherit[n])
    && AncestorsFirst(inherit, inherit[n])
    && forall x :: x in inherit[n] <==> x in orig[n] || Through(inherit, orig[n], x)
  }

  /** Seed `n`'s list in `inherit` is in the order in which its direct
      inheritees and what they inherit first occur in `Expansion`. */
  ghost predicate InExpansionOrder(orig: map<string, seq<string>>, inherit: map<string, seq<string>>, n: string) {
    n in orig && n in inherit
    && (forall p :: p in orig[n] ==> p in inherit)
    && inherit[n] == Dedup(Expansion(inherit, orig[n]))
  }

  lemma ExpansionSnoc(inherit: map<string, seq<string>>, direct: seq<string>, p: string)
    requires forall q :: q in direct ==> q in inherit
    requires p in inherit
    ensures Expansion(inherit, direct + [p]) == Expansion(inherit, direct) + inherit[p] + [p]
  {
    assert (direct + [p])[..|direct|] == direct;
  }

  /** `Expansion` only looks at the lists of the seeds in `direct`. */
  lemma {:induction false} ExpansionFrame(inherit: map<string, seq<string>>, inherit': map<string, seq<string>>, direct: seq<string>)
    requires forall p :: p in direct ==> p in inherit && p in inherit' && inherit'[p] == inherit[p]
    ensures Expansion(inherit', direct) == Expansion(inherit, direct)
  {
    if direct != [] {
      assert direct[|direct| - 1] in direct;
      ExpansionFrame(inherit, inherit', direct[..|direct| - 1]);
    }
  }

  lemma AncestorsFirstSnoc(inherit: map<string, seq<string>>, list: seq<string>, x: string)
    requires AncestorsFirst(inherit, list)
    requires x in inherit && forall y :: y in inherit[x] ==> y in list
    ensures AncestorsFirst(inherit, list + [x])
  {
    var r := list + [x];
    forall i | 0 <= i < |r| ensures r[i] in inherit && forall y :: y in inherit[r[i]] ==> y in r[..i] {
      if i < |list| {
        assert r[i] == list[i] && r[..i] == list[..i];
      } else {
        assert r[..i] == list;
      }
    }
  }

  /** `AncestorsFirst` only looks at the lists of the seeds in `list`. */
  lemma AncestorsFirstFrame(inherit: map<string, seq<string>>, inherit': map<string, seq<string>>, list: seq<string>)
    requires AncestorsFirst(inherit, list)
    requires forall x :: x in list ==> x in inherit' && inherit'[x] == inherit[x]
    ensures AncestorsFirst(inherit', list)
  {
    forall i | 0 <= i < |list| ensures list[i] in inherit' && forall y :: y in inherit'[list[i]] ==> y in list[..i] {
      assert list[i] in list;
    }
  }

  lemma ThroughSnoc(inherit: map<string, seq<string>>, direct: seq<string>, p: string)
    requires p in inherit
    ensures forall x :: Through(inherit, direct + [p], x) <==> Through(inherit, direct, x) || x in inherit[p]
  {
    forall x | Through(inherit, direct + [p], x) ensures Through(inherit, direct, x) || x in inherit[p] {
      var q :| q in direct + [p] && q in inherit && x in inherit[q];
      if q != p { assert q in direct; }
    }
    forall x | Through(inherit, direct, x) ensures Through(inherit, direct + [p], x) {
      var q :| q in direct && q in inherit && x in inherit[q];
      assert q in direct + [p];
    }
    assert p in direct + [p];
  }

  /** The inner loop of `_expand_inheritance`: the seeds of `expansion`
      not yet seen are appended in order, so that a first-occurrence list
      of `done` becomes that of `done` followed by `expansion`. */
  method AppendUnseen(inherit: map<string, seq<string>>, ghost done: seq<string>, r: seq<string>, seen: set<string>,
                      expansion: seq<string>)
    returns (r': seq<string>, seen': set<string>)
    requires seen == Elements(r) && AncestorsFirst(inherit, r)
    requires r == Dedup(done)
    requires AncestorsFirst(inherit, expansion)
    ensures seen' == Elements(r') && NoDup(r') && AncestorsFirst(inherit, r')
    ensures forall x :: x in r' <==> x in r || x in expansion
    ensures r' == Dedup(done + expansion)
  {
    r', seen' := r, seen;
    var k := 0;
    AppendNothing(done, expansion);
    while k < |expansion|
      invariant 0 <= k <= |expansion|
      invariant seen' == Elements(r') && AncestorsFirst(inherit, r')
      invariant r' == Dedup(done + expansion[..k])
    {
      var expanded := expansion[k];
      UnseenStep(inherit, done, expansion, k, r', seen');
      if expanded !in seen' {
        r' := r' + [expanded];
        seen' := seen' + {expanded};
      }
      k := k + 1;
    }
    TakeAll(expansion);
  }

  /** One pass of the inner loop: `expansion[k]` is appended unless seen,
      which keeps the list the first occurrences of what was met. */
  lemma UnseenStep(inherit: map<string, seq<string>>, done: seq<string>, expansion: seq<string>, k: nat,
                   r: seq<string>, seen: set<string>)
    requires k < |expansion| && AncestorsFirst(inherit, expansion)
    requires seen == Elements(r) && AncestorsFirst(inherit, r)
    requires r == Dedup(done + expansion[..k])
    ensures var x := expansion[k];
      x !in seen ==>
        && seen + {x} == Elements(r + [x]) && AncestorsFirst(inherit, r + [x])
        && r + [x] == Dedup(done + expansion[..k + 1])
    ensures expansion[k] in seen ==> r == Dedup(done + expansion[..k + 1])
  {
    var x := expansion[k];
    AppendTake(done, expansion, k);
    DedupStep(done + expansion[..k], r, seen, x);
    if x !in seen {
      assert forall y :: y in inherit[x] ==> y in expansion[..k];
      AncestorsFirstSnoc(inherit, r, x);
    }
  }

  /** Appending `x` unless it has been seen keeps the first occurrences,
      and the seen set in step with them. */
  lemma DedupStep(met: seq<string>, r: seq<string>, seen: set<string>, x: string)
    requires r == Dedup(met) && seen == Elements(r)
    ensures x !in seen ==> r + [x] == Dedup(met + [x]) && seen + {x} == Elements(r + [x])
    ensures x in seen ==> r == Dedup(met + [x])
  {
    DedupSnoc(met, x);
    if x !in seen {
      AppendFresh(r, x);
    }
  }

  /** The body of the loop of `_expand_inheritance` for one seed whose
      direct inheritees are `direct`: for each inheritee, first what it
      inherits and then the inheritee itself, skipping seeds already seen. */
  method ExpandOne(inherit: map<string, seq<string>>, direct: seq<string>) returns (r: seq<string>)
    requires forall p :: p in direct ==> p in inherit && AncestorsFirst(inherit, inherit[p])
    ensures NoDup(r)
    ensures AncestorsFirst(inherit, r)
    ensures forall x :: x in r <==> x in direct || Through(inherit, direct, x)
    ensures r == Dedup(Expansion(inherit, direct))
  {
    var seen: set<string> := {};
    r := [];
    var i := 0;
    while i < |direct|
      invariant 0 <= i <= |direct|
      invariant seen == Elements(r) && AncestorsFirst(inherit, r)
      invariant r == Dedup(Expansion(inherit, direct[..i]))
    {
      var inheritee := direct[i];
      assert inheritee in direct;
      ghost var done := Expansion(inherit, direct[..i]);
      r, seen := AppendUnseen(inherit, done, r, seen, inherit[inheritee]);
      AppendInheritee(inherit, direct, i, r, seen);
      if inheritee !in seen {
        r := r + [inheritee];
        seen := seen + {inheritee};
      }
      i := i + 1;
    }
    TakeAll(direct);
    ExpansionElements(inherit, direct);
  }

  /** After what `direct[i]` inherits, the inheritee itself is appended
      unless seen, which completes the expansion of `direct[..i + 1]`. */
  lemma AppendInheritee(inherit: map<string, seq<string>>, direct: seq<string>, i: nat, r: seq<string>, seen: set<string>)
    requires i < |direct| && forall p :: p in direct ==> p in inherit
    requires seen == Elements(r) && AncestorsFirst(inherit, r)
    requires r == Dedup(Expansion(inherit, direct[..i]) + inherit[direct[i]])
    requires forall y :: y in inherit[direct[i]] ==> y in r
    ensures var x := direct[i];
      x !in seen ==>
        && seen + {x} == Elements(r + [x]) && AncestorsFirst(inherit, r + [x])
        && r + [x] == Dedup(Expansion(inherit, direct[..i + 1]))
    ensures direct[i] in seen ==> r == Dedup(Expansion(inherit, direct[..i + 1]))
  {
    var x := direct[i];
    assert x in direct;
    TakeSnoc(direct, i);
    ExpansionSnoc(inherit, direct[..i], x);
    DedupStep(Expansion(inherit, direct[..i]) + inherit[x], r, seen, x);
    if x !in seen {
      AncestorsFirstSnoc(inherit, r, x);
    }
  }

  /** The expansion holds exactly the direct inheritees and what they
      inherit. */
  lemma {:induction false} ExpansionElements(inherit: map<string, seq<string>>, direct: seq<string>)
    requires forall p :: p in direct ==> p in inherit
    ensures forall x :: x in Expansion(inherit, direct) <==> x in direct || Through(inherit, direct, x)
  {
    if direct != [] {
      var init, last := direct[..|direct| - 1], direct[|direct| - 1];
      assert direct == init + [last];
      ExpansionElements(inherit, init);
      ThroughSnoc(inherit, init, last);
    }
  }

  /** The first `j` seeds of `order` have been expanded: each one's list is
      `Expanded` and holds only seeds earlier in `order`. */
  ghost predicate Done(orig: map<string, seq<string>>, inherit: map<string, seq<string>>, order: seq<string>, j: nat) {
    j <= |order|
    && forall i :: 0 <= i < j ==>
         Expanded(orig, inherit, order[i]) && InExpansionOrder(orig, inherit, order[i])
         && forall x :: x in inherit[order[i]] ==> x in order[..i]
  }

  /** The seeds of `order` from `j` on still have their original lists. */
  ghost predicate Pending(orig: map<string, seq<string>>, inherit: map<string, seq<string>>, order: seq<string>, j: nat) {
    forall i :: j <= i < |order| ==> order[i] in inherit && order[i] in orig && inherit[order[i]] == orig[order[i]]
  }

  /** Before seed `order[j]` is expanded, every seed it inherits from
      directly already has a list whose ancestors come first. */
  lemma ExpandReady(orig: map<string, seq<string>>, inherit: map<string, seq<string>>, order: seq<string>, j: nat)
    requires IsTopoOrder(orig, order) && j < |order|
    requires Done(orig, inherit, order, j) && Pending(orig, inherit, order, j)
    ensures order[j] in inherit && inherit[order[j]] == orig[order[j]]
    ensures forall p :: p in inherit[order[j]] ==> p in inherit && AncestorsFirst(inherit, inherit[p])
    ensures forall p :: p in inherit[order[j]] ==> p in order[..j]
  {
    forall p | p in inherit[order[j]] ensures p in inherit && AncestorsFirst(inherit, inherit[p]) {
      assert p in order[..j];
      var i :| 0 <= i < j && order[i] == p;
      assert Expanded(orig, inherit, order[i]);
    }
  }

  /** Changing the list of a seed not among the first `j` of `order`
      keeps those `j` expanded. */
  lemma DoneFrame(orig: map<string, seq<string>>, inherit: map<string, seq<string>>, order: seq<string>, j: nat, list: seq<string>)
    requires j < |order| && NoDup(order)
    requires Done(orig, inherit, order, j)
    ensures Done(orig, inherit[order[j] := list], order, j)
  {
    var inherit' := inherit[order[j] := list];
    forall i | 0 <= i < j
      ensures Expanded(orig, inherit', order[i]) && InExpansionOrder(orig, inherit', order[i])
      ensures forall x :: x in inherit'[order[i]] ==> x in order[..i]
    {
      var m := order[i];
      assert Expanded(orig, inherit, m) && InExpansionOrder(orig, inherit, m);
      assert forall x :: x in order[..i] ==> x in order[..j] && x != order[j];
      assert forall p :: p in orig[m] ==> p in inherit[m];
      AncestorsFirstFrame(inherit, inherit', inherit[m]);
      ThroughFrame(inherit, inherit', orig[m], order[..i]);
      ExpansionFrame(inherit, inherit', orig[m]);
    }
  }

  /** The expansion of `order[j]` only names seeds earlier in `order`. */
  lemma ExpansionEarlier(orig: map<string, seq<string>>, inherit: map<string, seq<string>>, order: seq<string>, j: nat, list: seq<string>)
    requires j < |order| && Done(orig, inherit, order, j)
    requires order[j] in inherit
    requires forall p :: p in inherit[order[j]] ==> p in order[..j]
    requires forall x :: x in list ==> x in inherit[order[j]] || Through(inherit, inherit[order[j]], x)
    ensures forall x :: x in list ==> x in order[..j]
  {
    forall x | x in list ensures x in order[..j] {
      if x !in inherit[order[j]] {
        var p :| p in inherit[order[j]] && p in inherit && x in inherit[p];
        var i :| 0 <= i < j && order[i] == p;
        PrefixMember(order, i, j, x);
      }
    }
  }

  /** Storing the expansion of `order[j]` keeps the earlier expansions and
      completes one more. */
  lemma {:induction false} ExpandStep(orig: map<string, seq<string>>, inherit: map<string, seq<string>>, order: seq<string>, j: nat, list: seq<string>)
    requires IsTopoOrder(orig, order) && j < |order|
    requires Done(orig, inherit, order, j) && Pending(orig, inherit, order, j)
    requires order[j] in inherit
    requires forall p :: p in inherit[order[j]] ==> p in order[..j]
    requires NoDup(list) && AncestorsFirst(inherit, list)
    requires forall x :: x in list <==> x in inherit[order[j]] || Through(inherit, inherit[order[j]], x)
    requires forall p :: p in inherit[order[j]] ==> p in inherit
    requires list == Dedup(Expansion(inherit, inherit[order[j]]))
    ensures Done(orig, inherit[order[j] := list], order, j + 1)
  {
    var n := order[j];
    var inherit' := inherit[n := list];
    DoneFrame(orig, inherit, order, j, list);
    ExpansionEarlier(orig, inherit, order, j, list);
    DoneKnown(orig, inherit, order, j);
    assert n !in order[..j];
    StoreExpansion(orig, inherit, n, order[..j], list);
    forall i | 0 <= i < j + 1
      ensures Expanded(orig, inherit', order[i]) && InExpansionOrder(orig, inherit', order[i])
      ensures forall x :: x in inherit'[order[i]] ==> x in order[..i]
    {
      if i == j {
        assert order[i] == n;
      }
    }
  }

  /** The seeds already done are known. */
  lemma DoneKnown(orig: map<string, seq<string>>, inherit: map<string, seq<string>>, order: seq<string>, j: nat)
    requires Done(orig, inherit, order, j)
    ensures forall x :: x in order[..j] ==> x in inherit
  {
    forall x | x in order[..j] ensures x in inherit {
      var i :| 0 <= i < j && order[i] == x;
      assert Expanded(orig, inherit, order[i]);
    }
  }

  /** Storing the list of `order[j]` leaves the seeds after it pending. */
  lemma PendingStep(orig: map<string, seq<string>>, inherit: map<string, seq<string>>, order: seq<string>, j: nat, list: seq<string>)
    requires NoDup(order) && j < |order|
    requires Pending(orig, inherit, order, j)
    ensures Pending(orig, inherit[order[j] := list], order, j + 1)
  {
  }

  /** The expansion of `n` stored over its original list is its expanded
      list, in the order of `Expansion`. */
  lemma StoreExpansion(orig: map<string, seq<string>>, inherit: map<string, seq<string>>, n: string, earlier: seq<string>, list: seq<string>)
    requires n in orig && n in inherit && orig[n] == inherit[n]
    requires n !in earlier && forall x :: x in earlier ==> x in inherit
    requires forall p :: p in inherit[n] ==> p in earlier
    requires NoDup(list) && AncestorsFirst(inherit, list)
    requires forall x :: x in list <==> x in inherit[n] || Through(inherit, inherit[n], x)
    requires list == Dedup(Expansion(inherit, inherit[n]))
    requires forall x :: x in list ==> x in earlier
    ensures Expanded(orig, inherit[n := list], n)
    ensures InExpansionOrder(orig, inherit[n := list], n)
  {
    var inherit' := inherit[n := list];
    AncestorsFirstFrame(inherit, inherit', list);
    ThroughFrame(inherit, inherit', inherit[n], earlier);
    ExpansionFrame(inherit, inherit', inherit[n]);
  }

  /** The loop of `_expand_inheritance` over the seeds in topological
      order, each list replaced by its expansion. */
  method ExpandAll(orig: map<string, seq<string>>, order: seq<string>) returns (inherit: map<string, seq<string>>)
    requires IsTopoOrder(orig, order)
    ensures inherit.Keys == orig.Keys
    ensures forall n :: n in inherit ==> Expanded(orig, inherit, n) && InExpansionOrder(orig, inherit, n)
  {
    inherit := orig;
    var j := 0;
    while j < |order|
      invariant 0 <= j <= |order|
      invariant inherit.Keys == orig.Keys
      invariant Done(orig, inherit, order, j) && Pending(orig, inherit, order, j)
    {
      inherit := ExpandAt(orig, inherit, order, j);
      j := j + 1;
    }
    AllDone(orig, inherit, order);
  }

  /** One pass of the loop of `_expand_inheritance`: the list of
      `order[j]` is replaced by its expansion, which completes one more
      seed of the order and leaves the later ones pending. */
  method ExpandAt(orig: map<string, seq<string>>, inherit: map<string, seq<string>>, order: seq<string>, j: nat)
    returns (inherit': map<string, seq<string>>)
    requires IsTopoOrder(orig, order) && j < |order|
    requires Done(orig, inherit, order, j) && Pending(orig, inherit, order, j)
    ensures inherit'.Keys == inherit.Keys
    ensures Done(orig, inherit', order, j + 1) && Pending(orig, inherit', order, j + 1)
  {
    var name := order[j];
    ExpandReady(orig, inherit, order, j);
    var list := ExpandOne(inherit, inherit[name]);
    ExpandStep(orig, inherit, order, j, list);
    PendingStep(orig, inherit, order, j, list);
    inherit' := inherit[name := list];
  }

  /** Once the whole order is done, every seed is expanded. */
  lemma AllDone(orig: map<string, seq<string>>, inherit: map<string, seq<string>>, order: seq<string>)
    requires IsTopoOrder(orig, order) && inherit.Keys == orig.Keys
    requires Done(orig, inherit, order, |order|)
    ensures forall n :: n in inherit ==> Expanded(orig, inherit, n) && InExpansionOrder(orig, inherit, n)
  {
    forall n | n in inherit
      ensures Expanded(orig, inherit, n) && InExpansionOrder(orig, inherit, n)
    {
      assert n in Elements(order);
      var i :| 0 <= i < |order| && order[i] == n;
    }
  }

  /** `Through` only looks at the lists of the seeds in `direct`. */
  lemma ThroughFrame(inherit: map<string, seq<string>>, inherit': map<string, seq<string>>, direct: seq<string>, done: seq<string>)
    requires forall p :: p in direct ==> p in done
    requires forall p :: p in done ==> p in inherit && p in inherit' && inherit'[p] == inherit[p]
    ensures forall x :: Through(inherit, direct, x) <==> Through(inherit', direct, x)
  {
  }

  lemma AncestorsFirstConcat(inherit: map<string, seq<string>>, a: seq<string>, b: seq<string>)
    requires AncestorsFirst(inherit, a) && AncestorsFirst(inherit, b)
    ensures AncestorsFirst(inherit, a + b)
  {
    var r := a + b;
    forall i | 0 <= i < |r| ensures r[i] in inherit && forall y :: y in inherit[r[i]] ==> y in r[..i] {
      if i < |a| {
        assert r[i] == a[i] && r[..i] == a[..i];
      } else {
        assert r[i] == b[i - |a|];
        assert r[..i] == a + b[..i - |a|];
      }
    }
  }

  /** Keeping first occurrences keeps ancestors first. */
  lemma {:induction false} DedupAncestorsFirst(inherit: map<string, seq<string>>, s: seq<string>)
    requires AncestorsFirst(inherit, s)
    ensures AncestorsFirst(inherit, Dedup(s))
  {
    if s != [] {
      var init, x := s[..|s| - 1], s[|s| - 1];
      assert AncestorsFirst(inherit, init) by {
        forall i | 0 <= i < |init| ensures init[i] in inherit && forall y :: y in inherit[init[i]] ==> y in init[..i] {
          assert init[i] == s[i] && init[..i] == s[..i];
        }
      }
      DedupAncestorsFirst(inherit, init);
      if x !in Dedup(init) {
        assert s[..|s| - 1] == init;
        AncestorsFirstSnoc(inherit, Dedup(init), x);
      }
    }
  }
}
