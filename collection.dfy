/** The whole seed collection (germinate/seeds.py, `SeedStructure`): the
    merged structure of a branch and the branches it includes, the seeds
    it names, and the operations on seed names that the rest of Germinate
    uses. */
module Collection {
  import opened Wrappers
  import opened Text
  import opened Lists
  import opened Seeds
  import opened StructureFile
  import opened StructureMerge
  import opened Inheritance

  /** The seed sources used when none are given: the default for the
      version control system, split at commas. */
  function SeedBases(seedBases: Option<seq<string>>, vcs: Option<Vcs>): (r: seq<string>)
    ensures seedBases.Some? ==> r == seedBases.value
    ensures seedBases.None? ==> r != [] && Join(r, ",") == DefaultSeedSource(vcs)
  {
    if seedBases.Some? then seedBases.value
    else
      var bases := SplitOn(DefaultSeedSource(vcs), ',');
      SplitOnJoin(DefaultSeedSource(vcs), ',');
      bases
  }

  /** For each requested seed in turn, the seeds it inherits from and then
      the seed itself. */
  function Chain(inherit: map<string, seq<string>>, wanted: seq<string>): seq<string>
    requires forall w :: w in wanted ==> w in inherit
  {
    if wanted == [] then []
    else Chain(inherit, wanted[..|wanted| - 1]) + inherit[wanted[|wanted| - 1]] + [wanted[|wanted| - 1]]
  }

  /** The names `limit(wanted)` keeps: `Chain` without repeats, in order of
      first occurrence. */
  function Limited(inherit: map<string, seq<string>>, wanted: seq<string>): seq<string>
    requires forall w :: w in wanted ==> w in inherit
  {
    Dedup(Chain(inherit, wanted))
  }

  /** Seed `x` is one of `wanted` or inherited by one of them. */
  ghost predicate Requested(inherit: map<string, seq<string>>, wanted: seq<string>, x: string) {
    exists w :: w in wanted && w in inherit && (x == w || x in inherit[w])
  }

  lemma {:induction false} ChainMembers(inherit: map<string, seq<string>>, wanted: seq<string>)
    requires forall w :: w in wanted ==> w in inherit
    ensures forall x :: x in Chain(inherit, wanted) <==> Requested(inherit, wanted, x)
  {
    if wanted != [] {
      var init, last := wanted[..|wanted| - 1], wanted[|wanted| - 1];
      assert forall w :: w in wanted <==> w in init || w == last by {
        InitLast(wanted);
      }
      ChainMembers(inherit, init);
      forall x | Requested(inherit, wanted, x) ensures x in Chain(inherit, wanted) {
        var w :| w in wanted && w in inherit && (x == w || x in inherit[w]);
        if w != last {
          assert Requested(inherit, init, x);
        }
      }
    }
  }

  /** `limit` keeps each requested seed and everything it inherits from,
      nothing else, and no name twice. */
  lemma LimitedMembers(inherit: map<string, seq<string>>, wanted: seq<string>)
    requires forall w :: w in wanted ==> w in inherit
    ensures NoDup(Limited(inherit, wanted))
    ensures forall x :: x in Limited(inherit, wanted) <==> Requested(inherit, wanted, x)
  {
    ChainMembers(inherit, wanted);
  }

  /** The seeds among `names`, in order, whose list in `inherit` holds `s`. */
  function Inheritors(names: seq<string>, inherit: map<string, seq<string>>, s: string): seq<string>
    requires forall n :: n in names ==> n in inherit
  {
    if names == [] then []
    else
      var last := names[|names| - 1];
      Inheritors(names[..|names| - 1], inherit, s) + (if s in inherit[last] then [last] else [])
  }

  lemma {:induction false} InheritorsMembers(names: seq<string>, inherit: map<string, seq<string>>, s: string)
    requires forall n :: n in names ==> n in inherit
    ensures forall x :: x in Inheritors(names, inherit, s) <==> x in names && s in inherit[x]
    ensures NoDup(names) ==> NoDup(Inheritors(names, inherit, s))
  {
    if names != [] {
      var init, last := names[..|names| - 1], names[|names| - 1];
      InitLast(names);
      assert forall n :: n in names <==> n in init || n == last;
      InheritorsMembers(init, inherit, s);
      if NoDup(names) {
        assert NoDup(init) by {
          forall i, j | 0 <= i < j < |init| ensures init[i] != init[j] {
            assert init[i] == names[i] && init[j] == names[j];
          }
        }
        assert last !in init by {
          forall i | 0 <= i < |init| ensures init[i] != last {
            assert init[i] == names[i];
          }
        }
      }
    }
  }

  /** An expanded seed never inherits from itself. */
  lemma NotOwnAncestor(orig: map<string, seq<string>>, inherit: map<string, seq<string>>, n: string)
    requires Expanded(orig, inherit, n)
    ensures n !in inherit[n]
  {
    var list := inherit[n];
    forall i | 0 <= i < |list| ensures list[i] != n {
      assert list[i] in list;
      assert list[i] !in list[..i] by {
        forall k | 0 <= k < i ensures list[..i][k] != list[i] {
          assert list[..i][k] == list[k];
        }
      }
    }
  }

  lemma {:induction false} ChainAncestorsFirst(inherit: map<string, seq<string>>, wanted: seq<string>)
    requires forall w :: w in wanted ==> w in inherit && AncestorsFirst(inherit, inherit[w])
    ensures AncestorsFirst(inherit, Chain(inherit, wanted))
  {
    if wanted != [] {
      var init, w := wanted[..|wanted| - 1], wanted[|wanted| - 1];
      assert forall v :: v in init ==> v in wanted;
      ChainAncestorsFirst(inherit, init);
      assert w in wanted;
      AncestorsFirstConcat(inherit, Chain(inherit, init), inherit[w]);
      AncestorsFirstSnoc(inherit, Chain(inherit, init) + inherit[w], w);
    }
  }

  /** Once the lists are expanded, the names `limit` keeps still come
      after every seed they inherit from. */
  lemma LimitedAncestorsFirst(orig: map<string, seq<string>>, inherit: map<string, seq<string>>, wanted: seq<string>)
    requires forall w :: w in wanted ==> w in inherit && Expanded(orig, inherit, w)
    ensures AncestorsFirst(inherit, Limited(inherit, wanted))
  {
    ChainAncestorsFirst(inherit, wanted);
    DedupAncestorsFirst(inherit, Chain(inherit, wanted));
  }

  /** Adding a seed under an expanded parent, as `add` does, keeps every
      list expanded, when the new seed's original list is `[parent]`. */
  lemma AddKeepsExpanded(orig: map<string, seq<string>>, inherit: map<string, seq<string>>, name: string, parent: string)
    requires orig.Keys == inherit.Keys
    requires forall m :: m in inherit ==> Expanded(orig, inherit, m)
    requires parent in inherit && name !in inherit
    ensures var inherit' := inherit[name := inherit[parent] + [parent]];
      forall m :: m in inherit' ==> Expanded(orig[name := [parent]], inherit', m)
  {
    var orig', inherit' := orig[name := [parent]], inherit[name := inherit[parent] + [parent]];
    forall m | m in inherit ensures Expanded(orig', inherit', m) {
      ExpandedFrame(orig, inherit, name, inherit[parent] + [parent], [parent], m);
    }
    assert Expanded(orig, inherit, parent);
    NewSeedExpanded(orig, inherit, name, parent);
  }

  /** A seed not yet known can be given a list without disturbing the
      expansion of the others. */
  lemma ExpandedFrame(orig: map<string, seq<string>>, inherit: map<string, seq<string>>, name: string,
                      list: seq<string>, direct: seq<string>, m: string)
    requires Expanded(orig, inherit, m) && name !in inherit
    requires forall x :: x in inherit[m] ==> x in inherit
    ensures Expanded(orig[name := direct], inherit[name := list], m)
  {
    var inherit' := inherit[name := list];
    AncestorsFirstFrame(inherit, inherit', inherit[m]);
    ThroughFrame(inherit, inherit', orig[m], inherit[m]);
  }

  lemma NewSeedExpanded(orig: map<string, seq<string>>, inherit: map<string, seq<string>>, name: string, parent: string)
    requires Expanded(orig, inherit, parent)
    requires forall x :: x in inherit[parent] ==> x in inherit
    requires name !in inherit
    ensures Expanded(orig[name := [parent]], inherit[name := inherit[parent] + [parent]], name)
  {
    var list := inherit[parent] + [parent];
    var inherit' := inherit[name := list];
    assert parent != name && inherit'[parent] == inherit[parent];
    NotOwnAncestor(orig, inherit, parent);
    AncestorsFirstFrame(inherit, inherit', inherit[parent]);
    AncestorsFirstSnoc(inherit', inherit[parent], parent);
    assert Elements(inherit[parent]) !! Elements([parent]);
    NoDupConcat(inherit[parent], [parent]);
    assert [] + [parent] == [parent];
    ThroughSnoc(inherit', [], parent);
    assert forall x :: !Through(inherit', [], x);
    assert forall x :: x in list <==> x in [parent] || Through(inherit', [parent], x);
  }

  /** Appending the elements of `more` not yet present, in order, to the
      first-occurrence list of `before`. */
  method ExtendDedup(ghost before: seq<string>, names: seq<string>, more: seq<string>) returns (r: seq<string>)
    requires names == Dedup(before)
    ensures r == Dedup(before + more)
  {
    r := names;
    var k := 0;
    AppendNothing(before, more);
    while k < |more|
      invariant 0 <= k <= |more|
      invariant r == Dedup(before + more[..k])
    {
      AppendTake(before, more, k);
      if more[k] !in r {
        r := r + [more[k]];
      }
      k := k + 1;
    }
    TakeAll(more);
  }

  /** The loop of `SeedStructure.__init__` that reads every seed of the
      order from the merged branch list; the first seed that cannot be
      read ends it. */
  method LoadSeeds(fetch: Fetcher, bases: seq<string>, branches: seq<string>, order: seq<string>, vcs: Option<Vcs>)
    returns (r: Result<map<string, Seed>>)
    ensures r.Ok? ==> r.value.Keys == Elements(order)
    ensures r.Ok? ==> forall n :: n in r.value ==> FirstFetched(fetch, bases, branches, n, vcs) == Ok(r.value[n])
    ensures r.Err? ==>
      exists k :: (0 <= k < |order| && FirstFetched(fetch, bases, branches, order[k], vcs) == Err(r.msg)
        && forall j :: 0 <= j < k ==> FirstFetched(fetch, bases, branches, order[j], vcs).Ok?)
  {
    var seeds: map<string, Seed> := map[];
    var i := 0;
    while i < |order|
      invariant 0 <= i <= |order|
      invariant seeds.Keys == Elements(order[..i])
      invariant forall n :: n in seeds ==> FirstFetched(fetch, bases, branches, n, vcs) == Ok(seeds[n])
      invariant forall j :: 0 <= j < i ==> FirstFetched(fetch, bases, branches, order[j], vcs).Ok?
    {
      var name := order[i];
      var seed := LoadSeed(fetch, bases, branches, name, vcs);
      if seed.Err? {
        return Err(seed.msg);
      }
      seeds := seeds[name := seed.value];
      TakeOneMore(order, i);
      i := i + 1;
    }
    TakeAll(order);
    r := Ok(seeds);
  }

  /** Every seed of `order` can be read. */
  ghost predicate AllFetch(fetch: Fetcher, bases: seq<string>, branches: seq<string>, order: seq<string>, vcs: Option<Vcs>) {
    forall k :: 0 <= k < |order| ==> FirstFetched(fetch, bases, branches, order[k], vcs).Ok?
  }

  /** `order[k]` is the first seed of `order` that cannot be read, and
      `msg` is its error. */
  ghost predicate FirstSeedFailure(fetch: Fetcher, bases: seq<string>, branches: seq<string>, order: seq<string>,
                                   vcs: Option<Vcs>, k: int, msg: string) {
    0 <= k < |order| && FirstFetched(fetch, bases, branches, order[k], vcs) == Err(msg)
    && forall j :: 0 <= j < k ==> FirstFetched(fetch, bases, branches, order[j], vcs).Ok?
  }

  /** The full structure of a seed collection. */
  class SeedStructure {
    var seedBases: seq<string>
    var branch: string
    var vcs: Option<Vcs>
    var features: set<string>
    var seedOrder: seq<string>
    var inherit: map<string, seq<string>>
    var originalInherit: map<string, seq<string>>
    var lines: seq<string>
    var seeds: map<string, Seed>
    var names: seq<string>
    /** The merged branch list the seeds were searched in. */
    ghost var searchBranches: seq<string>

    /** Every seed has a list of inherited seeds, every seed on such a list
        and every name is a seed, and the order lists only seeds. */
    ghost predicate Valid()
      reads this
    {
      seeds.Keys == inherit.Keys
      && (forall n :: n in inherit ==> forall x :: x in inherit[n] ==> x in inherit)
      && (forall n :: n in names ==> n in inherit)
      && (forall n :: n in seedOrder ==> n in inherit)
    }

    constructor (seedBases: seq<string>, branch: string, vcs: Option<Vcs>, st: Structure,
                 seeds: map<string, Seed>, ghost searchBranches: seq<string>)
      ensures this.seedBases == seedBases && this.branch == branch && this.vcs == vcs
      ensures features == st.features && seedOrder == st.seedOrder && inherit == st.inherit
      ensures lines == st.lines && this.seeds == seeds && names == [] && originalInherit == st.inherit
      ensures this.searchBranches == searchBranches
    {
      this.seedBases := seedBases;
      this.branch := branch;
      this.vcs := vcs;
      features := st.features;
      seedOrder := st.seedOrder;
      inherit := st.inherit;
      originalInherit := st.inherit;
      lines := st.lines;
      this.seeds := seeds;
      names := [];
      this.searchBranches := searchBranches;
    }

    /** `SeedStructure.__init__`: parse the structure of `branch` and the
        branches it includes, read every seed it names from the merged
        branch list, and expand the inheritance lists. `structures` stands
        for the `STRUCTURE` files that can be fetched, `fetch` for opening
        a seed, and `topoSort` for `topo_sort`, whose result is checked. */
    static method Open(structures: map<string, string>, fetch: Fetcher, branch: string,
                       seedBases: Option<seq<string>>, vcs: Option<Vcs>,
                       topoSort: map<string, seq<string>> -> seq<string>)
      returns (r: Result<SeedStructure>)
      ensures branch !in structures ==> r == Err("Could not open STRUCTURE")
      ensures ParseSpec(structures, branch, {}).0.Err? ==> r == Err(ParseSpec(structures, branch, {}).0.msg)
      ensures r.Ok? ==> ParseSpec(structures, branch, {}).0.Ok?
      ensures r.Ok? ==> var st := ParseSpec(structures, branch, {}).0.value;
        && r.value.seedOrder == st.seedOrder && r.value.originalInherit == st.inherit
        && r.value.searchBranches == st.branches && r.value.lines == st.lines && r.value.features == st.features
      ensures r.Ok? ==> fresh(r.value) && r.value.Valid()
      ensures r.Ok? ==> r.value.branch == branch && r.value.vcs == vcs
      ensures r.Ok? ==> r.value.seedBases == SeedBases(seedBases, vcs)
      ensures r.Ok? ==> branch in r.value.searchBranches && NoDup(r.value.searchBranches)
      ensures r.Ok? ==> r.value.names == topoSort(r.value.originalInherit)
      ensures r.Ok? ==> IsTopoOrder(r.value.originalInherit, r.value.names)
      ensures r.Ok? ==> forall n :: n in r.value.seedOrder <==> n in r.value.originalInherit
      ensures r.Ok? ==> NameSet(r.value.lines) == Elements(r.value.seedOrder) && DistinctNames(r.value.lines)
      ensures r.Ok? ==> forall n :: n in r.value.inherit ==> Expanded(r.value.originalInherit, r.value.inherit, n)
      ensures r.Ok? ==> forall n :: n in r.value.inherit ==> InExpansionOrder(r.value.originalInherit, r.value.inherit, n)
      ensures r.Ok? ==> forall n :: n in r.value.seeds ==>
        FirstFetched(fetch, r.value.seedBases, r.value.searchBranches, n, vcs) == Ok(r.value.seeds[n])
      ensures ParseSpec(structures, branch, {}).0.Ok? ==> var st := ParseSpec(structures, branch, {}).0.value;
        (r.Ok? <==> AllFetch(fetch, SeedBases(seedBases, vcs), st.branches, st.seedOrder, vcs)
                    && IsTopoOrder(st.inherit, topoSort(st.inherit)))
      ensures ParseSpec(structures, branch, {}).0.Ok? && r.Err? ==> var st := ParseSpec(structures, branch, {}).0.value;
        (exists k :: FirstSeedFailure(fetch, SeedBases(seedBases, vcs), st.branches, st.seedOrder, vcs, k, r.msg))
        || (AllFetch(fetch, SeedBases(seedBases, vcs), st.branches, st.seedOrder, vcs)
            && r.msg == "seed inheritance cannot be sorted")
    {
      var bases := SeedBases(seedBases, vcs);
      var parsed, _, _, own := ParseBranch(structures, branch, {});
      if parsed.Err? {
        return Err(parsed.msg);
      }
      var st := parsed.value;
      assert branch in st.branches by {
        ParseBranchesAndFlags(branch, Entries(LinesOf(structures[branch])));
      }
      r := Load(fetch, bases, branch, vcs, st, topoSort);
    }

    /** The seed-reading part of `__init__` once the structure `st` is
        parsed: read every seed of its order from its branches, sort the
        inheritance and assemble the structure. It succeeds exactly when
        every seed can be read and the order sorts; otherwise the error is
        the first unreadable seed's. */
    static method Load(fetch: Fetcher, bases: seq<string>, branch: string, vcs: Option<Vcs>, st: Structure,
                       topoSort: map<string, seq<string>> -> seq<string>)
      returns (r: Result<SeedStructure>)
      requires Coherent(st)
      ensures r.Ok? <==> AllFetch(fetch, bases, st.branches, st.seedOrder, vcs) && IsTopoOrder(st.inherit, topoSort(st.inherit))
      ensures r.Err? ==>
        (exists k :: FirstSeedFailure(fetch, bases, st.branches, st.seedOrder, vcs, k, r.msg))
        || (AllFetch(fetch, bases, st.branches, st.seedOrder, vcs) && r.msg == "seed inheritance cannot be sorted")
      ensures r.Ok? ==> fresh(r.value) && r.value.Valid()
      ensures r.Ok? ==> r.value.seedBases == bases && r.value.branch == branch && r.value.vcs == vcs
      ensures r.Ok? ==>
        && r.value.seedOrder == st.seedOrder && r.value.originalInherit == st.inherit
        && r.value.searchBranches == st.branches && r.value.lines == st.lines && r.value.features == st.features
      ensures r.Ok? ==> r.value.names == topoSort(st.inherit) && IsTopoOrder(st.inherit, r.value.names)
      ensures r.Ok? ==> r.value.seeds.Keys == Elements(st.seedOrder)
      ensures r.Ok? ==> forall n :: n in r.value.inherit ==> Expanded(r.value.originalInherit, r.value.inherit, n)
      ensures r.Ok? ==> forall n :: n in r.value.inherit ==> InExpansionOrder(r.value.originalInherit, r.value.inherit, n)
      ensures r.Ok? ==> forall n :: n in r.value.seeds ==>
        FirstFetched(fetch, bases, st.branches, n, vcs) == Ok(r.value.seeds[n])
    {
      var seeds := LoadSeeds(fetch, bases, st.branches, st.seedOrder, vcs);
      if seeds.Err? {
        ghost var k :| 0 <= k < |st.seedOrder| && FirstFetched(fetch, bases, st.branches, st.seedOrder[k], vcs) == Err(seeds.msg)
          && forall j :: 0 <= j < k ==> FirstFetched(fetch, bases, st.branches, st.seedOrder[j], vcs).Ok?;
        assert FirstSeedFailure(fetch, bases, st.branches, st.seedOrder, vcs, k, seeds.msg);
        return Err(seeds.msg);
      }
      assert AllFetch(fetch, bases, st.branches, st.seedOrder, vcs) by {
        forall k | 0 <= k < |st.seedOrder|
          ensures FirstFetched(fetch, bases, st.branches, st.seedOrder[k], vcs).Ok?
        {
          assert st.seedOrder[k] in Elements(st.seedOrder);
        }
      }
      var order := topoSort(st.inherit);
      if !IsTopoOrder(st.inherit, order) {
        return Err("seed inheritance cannot be sorted");
      }
      var s := Assemble(bases, branch, vcs, st, seeds.value, order);
      r := Ok(s);
    }

    /** The last part of `__init__`: store what was read and expand the
        inheritance lists along `order`. */
    static method Assemble(bases: seq<string>, branch: string, vcs: Option<Vcs>, st: Structure,
                           seeds: map<string, Seed>, order: seq<string>)
      returns (s: SeedStructure)
      requires Coherent(st) && IsTopoOrder(st.inherit, order)
      requires seeds.Keys == Elements(st.seedOrder)
      ensures fresh(s) && s.Valid()
      ensures s.seedBases == bases && s.branch == branch && s.vcs == vcs && s.searchBranches == st.branches
      ensures s.originalInherit == st.inherit && s.names == order
      ensures s.seedOrder == st.seedOrder && s.lines == st.lines && s.seeds == seeds && s.features == st.features
      ensures forall n :: n in s.inherit ==> Expanded(s.originalInherit, s.inherit, n)
      ensures forall n :: n in s.inherit ==> InExpansionOrder(s.originalInherit, s.inherit, n)
    {
      s := new SeedStructure(bases, branch, vcs, st, seeds, st.branches);
      s.ExpandInheritance(order);
      s.ExpandedValid();
    }

    /** `_expand_inheritance`: keep the original lists, take the seeds in
        topological order as the names, and replace each seed's list by its
        expansion, ancestors first. */
    method ExpandInheritance(order: seq<string>)
      requires IsTopoOrder(inherit, order)
      modifies this`inherit, this`originalInherit, this`names
      ensures originalInherit == old(inherit) && names == order
      ensures inherit.Keys == old(inherit).Keys
      ensures forall n :: n in inherit ==> Expanded(originalInherit, inherit, n)
      ensures forall n :: n in inherit ==> InExpansionOrder(originalInherit, inherit, n)
    {
      var expanded := ExpandAll(inherit, order);
      originalInherit, inherit, names := inherit, expanded, order;
    }

    /** After the expansion the structure is valid. */
    lemma ExpandedValid()
      requires seeds.Keys == inherit.Keys
      requires forall n :: n in inherit ==> Expanded(originalInherit, inherit, n)
      requires forall n :: n in names ==> n in originalInherit
      requires forall n :: n in seedOrder <==> n in originalInherit
      requires inherit.Keys == originalInherit.Keys
      ensures Valid()
    {
      forall n, x | n in inherit && x in inherit[n] ensures x in inherit {
        var list := inherit[n];
        assert Expanded(originalInherit, inherit, n);
        var i :| 0 <= i < |list| && list[i] == x;
      }
    }

    /** `limit(wanted)`: the names become, for each wanted seed in order,
        the seeds it inherits from and then itself, skipping names already
        present. */
    method Limit(wanted: seq<string>)
      requires Valid()
      requires forall w :: w in wanted ==> w in inherit
      modifies this`names
      ensures names == Limited(inherit, wanted)
      ensures Valid()
    {
      var r := [];
      var i := 0;
      while i < |wanted|
        invariant 0 <= i <= |wanted|
        invariant r == Dedup(Chain(inherit, wanted[..i]))
      {
        var name := wanted[i];
        ghost var before := Chain(inherit, wanted[..i]);
        r := ExtendDedup(before, r, inherit[name]);
        TakeOneMore(wanted, i);
        assert Chain(inherit, wanted[..i + 1]) == (before + inherit[name]) + [name];
        if name !in r {
          r := r + [name];
        }
        i := i + 1;
      }
      TakeAll(wanted);
      names := r;
      LimitedMembers(inherit, wanted);
    }

    /** `add(name, entries, parent)`: a custom seed is appended to the
        names, inherits from `parent` and what `parent` inherits, and has
        `entries` as its text. */
    method Add(name: string, entries: seq<string>, parent: Option<string>)
      requires Valid()
      requires parent.Some? ==> parent.value in inherit
      modifies this`names, this`inherit, this`seeds
      ensures names == old(names) + [name]
      ensures inherit == old(inherit)[name := if parent.Some? then old(inherit)[parent.value] + [parent.value] else []]
      ensures seeds == old(seeds)[name := CustomSeed(name, entries)]
      ensures Valid()
    {
      names := names + [name];
      if parent.Some? {
        inherit := inherit[name := inherit[parent.value] + [parent.value]];
      } else {
        inherit := inherit[name := []];
      }
      seeds := seeds[name := CustomSeed(name, entries)];
    }

    /** `inner_seeds(seed)`: the seed and the seeds it inherits from, the
        seed last. */
    function InnerSeeds(seed: string): (r: seq<string>)
      requires seed in inherit
      reads this
      ensures r != [] && r[|r| - 1] == seed
      ensures forall x :: x in r <==> x == seed || x in inherit[seed]
    {
      inherit[seed] + [seed]
    }

    /** `strictly_outer_seeds(seed)`: the names, in order, that inherit from
        `seed`. */
    method StrictlyOuterSeeds(seed: string) returns (r: seq<string>)
      requires Valid()
      ensures r == Inheritors(names, inherit, seed)
    {
      r := [];
      var i := 0;
      while i < |names|
        invariant 0 <= i <= |names|
        invariant r == Inheritors(names[..i], inherit, seed)
      {
        TakeOneMore(names, i);
        if seed in inherit[names[i]] {
          r := r + [names[i]];
        }
        i := i + 1;
      }
      TakeAll(names);
    }

    /** `outer_seeds(seed)`: the seed followed by the names that inherit
        from it. */
    method OuterSeeds(seed: string) returns (r: seq<string>)
      requires Valid()
      ensures r == [seed] + Inheritors(names, inherit, seed)
    {
      var strictly := StrictlyOuterSeeds(seed);
      r := [seed] + strictly;
    }

    /** `supported`: the last seed of the structure, if any. */
    function Supported(): (r: Option<string>)
      reads this
      ensures r.Some? <==> seedOrder != []
      ensures Valid() && r.Some? ==> r.value in seeds
    {
      if seedOrder == [] then None else Some(seedOrder[|seedOrder| - 1])
    }
  }

  /** Outer and inner seeds are converse: once the lists are expanded, a
      name is strictly outer to `s` exactly when `s` is among its inner
      seeds other than itself. */
  lemma OuterInnerConverse(st: SeedStructure, s: string, n: string)
    requires st.Valid()
    requires forall m :: m in st.inherit ==> Expanded(st.originalInherit, st.inherit, m)
    requires n in st.names
    ensures n in Inheritors(st.names, st.inherit, s) <==> s in st.InnerSeeds(n) && s != n
  {
    InheritorsMembers(st.names, st.inherit, s);
    NotOwnAncestor(st.originalInherit, st.inherit, n);
  }
}
