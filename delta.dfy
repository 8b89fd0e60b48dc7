/** The changelog bookkeeping of germinate/scripts/germinate_update_metapackage.py:
    how the new depends and recommends lists of one seed on one
    architecture are compared with the old ones, and how the changes are
    worded. */
module MetapackageDelta {
  import opened Wrappers
  import opened Text
  import opened Lists

  /** One `[seed_name, architecture]` entry of the `additions`,
      `removals` and `moves` lists. */
  datatype Change = Change(seed: string, arch: string)

  /** The entries recorded for one package. */
  datatype Delta = Delta(added: seq<Change>, removed: seq<Change>, moved: seq<Change>)

  /** The count of `merged`: +1 for each time the new list has `p`, -1 if
      the old list has it; nothing is counted without an old list. */
  function Tally(newList: seq<string>, oldList: Option<set<string>>, p: string): int {
    if oldList.None? then 0 else Count(newList, p) - (if p in oldList.value then 1 else 0)
  }

  /** Without duplicates in the new list, the count is +1 exactly for new
      packages and -1 exactly for dropped ones. */
  lemma TallyMeaning(newList: seq<string>, oldList: set<string>, p: string)
    requires NoDup(newList)
    ensures Tally(newList, Some(oldList), p) == 1 <==> p in newList && p !in oldList
    ensures Tally(newList, Some(oldList), p) == -1 <==> p !in newList && p in oldList
    ensures Tally(newList, Some(oldList), p) == 0 <==> (p in newList <==> p in oldList)
  {
    NoDupAtMostOnce(newList);
    CountIsMultiplicity(newList, p);
  }

  lemma {:induction false} CountIsMultiplicity(s: seq<string>, x: string)
    ensures Count(s, x) == multiset(s)[x]
  {
    if s != [] {
      CountIsMultiplicity(s[..|s| - 1], x);
      InitLast(s);
      assert multiset(s) == multiset(s[..|s| - 1]) + multiset{s[|s| - 1]};
    }
  }

  /** The first loop over `merged`: what a dependency count `m` records,
      given the recommends count `r`. */
  function DepDelta(seed: string, arch: string, m: int, r: int): Delta {
    if m == 1 then
      (if r == -1 then Delta([], [], [Change(seed, arch)]) else Delta([Change(seed, arch)], [], []))
    else if m == -1 then
      (if r == 1 then Delta([], [], [Change(seed + "-recommends", arch)]) else Delta([], [Change(seed, arch)], []))
    else Delta([], [], [])
  }

  /** The recommends count after the first loop: a move cancels it. */
  function RecAfter(m: int, r: int): int {
    if (m == 1 && r == -1) || (m == -1 && r == 1) then 0 else r
  }

  /** The second loop, over `recommends_merged`. */
  function RecDelta(seed: string, arch: string, r: int): Delta {
    if r == 1 then Delta([Change(seed + "-recommends", arch)], [], [])
    else if r == -1 then Delta([], [Change(seed + "-recommends", arch)], [])
    else Delta([], [], [])
  }

  /** Everything recorded for one package with counts `m` and `r`. */
  function PackageDelta(seed: string, arch: string, m: int, r: int): Delta {
    var d := DepDelta(seed, arch, m, r);
    var e := RecDelta(seed, arch, RecAfter(m, r));
    Delta(d.added + e.added, d.removed + e.removed, d.moved)
  }

  /** A package moves exactly when its dependency count and its
      recommends count are opposite ±1; a move records nothing else, and
      a package is never both added and removed. */
  lemma PackageDeltaCases(seed: string, arch: string, m: int, r: int)
    ensures var d := PackageDelta(seed, arch, m, r);
      (d.moved != [] <==> (m == 1 && r == -1) || (m == -1 && r == 1))
      && (d.moved != [] ==> d.added == [] && d.removed == [])
      && !(d.added != [] && d.removed != [])
      && (m == 1 && r != -1 ==> Change(seed, arch) in d.added)
      && (m == -1 && r != 1 ==> Change(seed, arch) in d.removed)
      && (m == 0 && r == 0 ==> d == Delta([], [], []))
  {
  }

  /** Without old lists nothing is recorded. */
  lemma NoOldListsNoDelta(seed: string, arch: string, newList: seq<string>, newRec: seq<string>, p: string)
    ensures PackageDelta(seed, arch, Tally(newList, None, p), Tally(newRec, None, p)) == Delta([], [], [])
  {
  }

  /** The entries of `p` in a `defaultdict(list)`. */
  function Get(m: map<string, seq<Change>>, p: string): seq<Change> {
    if p in m then m[p] else []
  }

  /** `m[p].append(c)` on a `defaultdict(list)`. */
  function AppendAt(m: map<string, seq<Change>>, p: string, c: Change): map<string, seq<Change>> {
    m[p := Get(m, p) + [c]]
  }

  /** `m[p].extend(cs)` on a `defaultdict(list)` that is only touched
      when there is something to append. */
  function Extend(m: map<string, seq<Change>>, p: string, cs: seq<Change>): map<string, seq<Change>> {
    if cs == [] then m else m[p := Get(m, p) + cs]
  }

  /** `m[p] = v` where the first loop writes it: only a move changes a
      recommends count, so nothing is stored when the count stays. */
  function Put0(m: map<string, int>, p: string, v: int): map<string, int> {
    if Get0(m, p) == v then m else m[p := v]
  }

  /** `merged.get(p, 0)`. */
  function Get0(m: map<string, int>, p: string): int {
    if p in m then m[p] else 0
  }

  /** The counting loops: `merged` (with its keys in insertion order)
      for a new list and an optional old one. */
  method Counts(newList: seq<string>, oldList: Option<set<string>>) returns (counts: map<string, int>, keys: seq<string>)
    ensures NoDup(keys) && Elements(keys) == counts.Keys
    ensures forall p :: Get0(counts, p) == Tally(newList, oldList, p)
  {
    if oldList.None? {
      return map[], [];
    }
    counts, keys := CountNew(newList);
    counts, keys := CountOld(newList, oldList.value, counts, keys);
  }

  /** The first counting loop: +1 for each occurrence in the new list. */
  method CountNew(newList: seq<string>) returns (counts: map<string, int>, keys: seq<string>)
    ensures NoDup(keys) && Elements(keys) == counts.Keys
    ensures forall p :: Get0(counts, p) == Count(newList, p)
  {
    counts, keys := map[], [];
    var i := 0;
    while i < |newList|
      invariant 0 <= i <= |newList|
      invariant NoDup(keys) && Elements(keys) == counts.Keys
      invariant forall p :: Get0(counts, p) == Count(newList[..i], p)
    {
      var p := newList[i];
      TakeOneMore(newList, i);
      if p in counts {
        counts := counts[p := counts[p] + 1];
      } else {
        counts := counts[p := 1];
        keys := AppendNew(keys, p);
      }
      i := i + 1;
    }
    TakeAll(newList);
  }

  /** The second counting loop: -1 for each package of the old list. */
  method CountOld(ghost newList: seq<string>, oldList: set<string>, counts: map<string, int>, keys: seq<string>)
    returns (counts': map<string, int>, keys': seq<string>)
    requires NoDup(keys) && Elements(keys) == counts.Keys
    requires forall p :: Get0(counts, p) == Count(newList, p)
    ensures NoDup(keys') && Elements(keys') == counts'.Keys
    ensures forall p :: Get0(counts', p) == Count(newList, p) - (if p in oldList then 1 else 0)
  {
    counts', keys' := counts, keys;
    var rest := oldList;
    while rest != {}
      invariant rest <= oldList
      invariant NoDup(keys') && Elements(keys') == counts'.Keys
      invariant forall p :: Get0(counts', p) == Count(newList, p) - (if p in oldList && p !in rest then 1 else 0)
      decreases |rest|
    {
      var p :| p in rest;
      if p in counts' {
        counts' := counts'[p := counts'[p] - 1];
      } else {
        counts' := counts'[p := -1];
        keys' := AppendNew(keys', p);
      }
      rest := rest - {p};
    }
  }

  /** `m` is `m0` with `f(p)` appended for every package `p` of `done`. */
  ghost predicate Tracks(m0: map<string, seq<Change>>, m: map<string, seq<Change>>, done: set<string>, f: string -> seq<Change>) {
    forall p :: Get(m, p) == Get(m0, p) + (if p in done then f(p) else [])
  }

  lemma TracksStep(m0: map<string, seq<Change>>, m: map<string, seq<Change>>, m': map<string, seq<Change>>,
                   done: set<string>, package: string, f: string -> seq<Change>)
    requires Tracks(m0, m, done, f) && package !in done
    requires m' == Extend(m, package, f(package))
    ensures Tracks(m0, m', done + {package}, f)
  {
  }

  /** What the first loop appends for each package, per list. */
  function DepAdded(seed: string, arch: string, merged: map<string, int>, rec: map<string, int>): string -> seq<Change> {
    p => DepDelta(seed, arch, Get0(merged, p), Get0(rec, p)).added
  }

  function DepRemoved(seed: string, arch: string, merged: map<string, int>, rec: map<string, int>): string -> seq<Change> {
    p => DepDelta(seed, arch, Get0(merged, p), Get0(rec, p)).removed
  }

  function DepMoved(seed: string, arch: string, merged: map<string, int>, rec: map<string, int>): string -> seq<Change> {
    p => DepDelta(seed, arch, Get0(merged, p), Get0(rec, p)).moved
  }

  /** The recommends counts after the packages of `done` went through the
      first loop. */
  ghost predicate RecTracks(rec: map<string, int>, rec': map<string, int>, merged: map<string, int>, done: set<string>) {
    rec'.Keys == rec.Keys
    && forall p :: Get0(rec', p) == if p in done then RecAfter(Get0(merged, p), Get0(rec, p)) else Get0(rec, p)
  }

  lemma RecTracksStep(rec: map<string, int>, rec': map<string, int>, rec'': map<string, int>, merged: map<string, int>,
                      done: set<string>, package: string)
    requires RecTracks(rec, rec', merged, done) && package !in done
    requires Get0(rec', package) != 0 || RecAfter(Get0(merged, package), Get0(rec, package)) == 0
    requires rec'' == Put0(rec', package, RecAfter(Get0(merged, package), Get0(rec, package)))
    ensures RecTracks(rec, rec'', merged, done + {package})
  {
  }

  /** The first loop of the delta over the sorted keys of `merged`. */
  method ClassifyDepends(seed: string, arch: string, keys: seq<string>, merged: map<string, int>, rec: map<string, int>,
                         additions: map<string, seq<Change>>, removals: map<string, seq<Change>>, moves: map<string, seq<Change>>)
    returns (rec': map<string, int>, additions': map<string, seq<Change>>, removals': map<string, seq<Change>>, moves': map<string, seq<Change>>)
    requires NoDup(keys)
    requires forall p :: p in keys ==> p in merged
    ensures FirstLoop(seed, arch, merged, rec, Elements(keys), rec', additions, additions', removals, removals', moves, moves')
  {
    rec', additions', removals', moves' := rec, additions, removals, moves;
    ghost var done: set<string> := {};
    var i := 0;
    while i < |keys|
      invariant 0 <= i <= |keys| && done == Elements(keys[..i])
      invariant FirstLoop(seed, arch, merged, rec, done, rec', additions, additions', removals, removals', moves, moves')
    {
      var package := keys[i];
      NoDupPrefix(keys, i);
      ElementsPrefix(keys, i);
      ghost var rc, a, r, m := rec', additions', removals', moves';
      var recValue;
      recValue, additions', removals', moves' := DependsPackage(seed, arch, package, merged[package], Get0(rec', package), additions', removals', moves');
      rec' := Put0(rec', package, recValue);
      FirstLoopStep(seed, arch, merged, rec, done, package, additions, removals, moves, rc, a, r, m, rec', additions', removals', moves');
      done := done + {package};
      i := i + 1;
    }
    ElementsWhole(keys);
  }

  /** The invariant of the first loop once the packages of `done` went
      through it. */
  ghost predicate FirstLoop(seed: string, arch: string, merged: map<string, int>, rec: map<string, int>, done: set<string>,
                            rec': map<string, int>, a0: map<string, seq<Change>>, a: map<string, seq<Change>>,
                            r0: map<string, seq<Change>>, r: map<string, seq<Change>>,
                            m0: map<string, seq<Change>>, m: map<string, seq<Change>>) {
    && RecTracks(rec, rec', merged, done)
    && Tracks(a0, a, done, DepAdded(seed, arch, merged, rec))
    && Tracks(r0, r, done, DepRemoved(seed, arch, merged, rec))
    && Tracks(m0, m, done, DepMoved(seed, arch, merged, rec))
  }

  /** One package through the first loop keeps its invariant. */
  lemma FirstLoopStep(seed: string, arch: string, merged: map<string, int>, rec: map<string, int>, done: set<string>, package: string,
                      a0: map<string, seq<Change>>, r0: map<string, seq<Change>>, m0: map<string, seq<Change>>,
                      rc: map<string, int>, a: map<string, seq<Change>>, r: map<string, seq<Change>>, m: map<string, seq<Change>>,
                      rc': map<string, int>, a': map<string, seq<Change>>, r': map<string, seq<Change>>, m': map<string, seq<Change>>)
    requires package in merged && package !in done
    requires FirstLoop(seed, arch, merged, rec, done, rc, a0, a, r0, r, m0, m)
    requires var d := DepDelta(seed, arch, merged[package], Get0(rc, package));
      && a' == Extend(a, package, d.added)
      && r' == Extend(r, package, d.removed)
      && m' == Extend(m, package, d.moved)
      && rc' == Put0(rc, package, RecAfter(merged[package], Get0(rc, package)))
      && (RecAfter(merged[package], Get0(rc, package)) != Get0(rc, package) ==> Get0(rc, package) != 0)
    ensures FirstLoop(seed, arch, merged, rec, done + {package}, rc', a0, a', r0, r', m0, m')
  {
    assert merged[package] == Get0(merged, package) && Get0(rc, package) == Get0(rec, package);
    RecTracksStep(rec, rc, rc', merged, done, package);
    TracksStep(a0, a, a', done, package, DepAdded(seed, arch, merged, rec));
    TracksStep(r0, r, r', done, package, DepRemoved(seed, arch, merged, rec));
    TracksStep(m0, m, m', done, package, DepMoved(seed, arch, merged, rec));
  }

  /** The body of the first loop for one package with dependency count
      `value` and recommends count `recValue`: the entries it appends and
      the recommends count it leaves. */
  method DependsPackage(seed: string, arch: string, package: string, value: int, recValue: int,
                        additions: map<string, seq<Change>>, removals: map<string, seq<Change>>, moves: map<string, seq<Change>>)
    returns (recValue': int, additions': map<string, seq<Change>>, removals': map<string, seq<Change>>, moves': map<string, seq<Change>>)
    ensures recValue' == RecAfter(value, recValue)
    ensures recValue' != recValue ==> recValue != 0
    ensures var d := DepDelta(seed, arch, value, recValue);
      && additions' == Extend(additions, package, d.added)
      && removals' == Extend(removals, package, d.removed)
      && moves' == Extend(moves, package, d.moved)
  {
    recValue', additions', removals', moves' := recValue, additions, removals, moves;
    if value == 1 {
      if recValue == -1 {
        moves' := AppendAt(moves, package, Change(seed, arch));
        recValue' := recValue + 1;
      } else {
        additions' := AppendAt(additions, package, Change(seed, arch));
      }
    } else if value == -1 {
      if recValue == 1 {
        moves' := AppendAt(moves, package, Change(seed + "-recommends", arch));
        recValue' := recValue - 1;
      } else {
        removals' := AppendAt(removals, package, Change(seed, arch));
      }
    }
  }

  function RecAdded(seed: string, arch: string, rec: map<string, int>): string -> seq<Change> {
    p => RecDelta(seed, arch, Get0(rec, p)).added
  }

  function RecRemoved(seed: string, arch: string, rec: map<string, int>): string -> seq<Change> {
    p => RecDelta(seed, arch, Get0(rec, p)).removed
  }

  /** The second loop of the delta over the sorted keys of
      `recommends_merged`. */
  method ClassifyRecommends(seed: string, arch: string, keys: seq<string>, rec: map<string, int>,
                            additions: map<string, seq<Change>>, removals: map<string, seq<Change>>)
    returns (additions': map<string, seq<Change>>, removals': map<string, seq<Change>>)
    requires NoDup(keys)
    requires forall p :: p in keys ==> p in rec
    ensures SecondLoop(seed, arch, rec, Elements(keys), additions, additions', removals, removals')
  {
    additions', removals' := additions, removals;
    ghost var done: set<string> := {};
    var i := 0;
    while i < |keys|
      invariant 0 <= i <= |keys| && done == Elements(keys[..i])
      invariant SecondLoop(seed, arch, rec, done, additions, additions', removals, removals')
    {
      var package := keys[i];
      NoDupPrefix(keys, i);
      ElementsPrefix(keys, i);
      ghost var a, r := additions', removals';
      additions', removals' := RecommendsPackage(seed, arch, package, rec[package], additions', removals');
      SecondLoopStep(seed, arch, rec, done, package, additions, removals, a, r, additions', removals');
      done := done + {package};
      i := i + 1;
    }
    ElementsWhole(keys);
  }

  /** The invariant of the second loop once the packages of `done` went
      through it. */
  ghost predicate SecondLoop(seed: string, arch: string, rec: map<string, int>, done: set<string>,
                             a0: map<string, seq<Change>>, a: map<string, seq<Change>>,
                             r0: map<string, seq<Change>>, r: map<string, seq<Change>>) {
    && Tracks(a0, a, done, RecAdded(seed, arch, rec))
    && Tracks(r0, r, done, RecRemoved(seed, arch, rec))
  }

  lemma SecondLoopStep(seed: string, arch: string, rec: map<string, int>, done: set<string>, package: string,
                       a0: map<string, seq<Change>>, r0: map<string, seq<Change>>,
                       a: map<string, seq<Change>>, r: map<string, seq<Change>>,
                       a': map<string, seq<Change>>, r': map<string, seq<Change>>)
    requires package in rec && package !in done
    requires SecondLoop(seed, arch, rec, done, a0, a, r0, r)
    requires a' == Extend(a, package, RecDelta(seed, arch, rec[package]).added)
    requires r' == Extend(r, package, RecDelta(seed, arch, rec[package]).removed)
    ensures SecondLoop(seed, arch, rec, done + {package}, a0, a', r0, r')
  {
    assert rec[package] == Get0(rec, package);
    TracksStep(a0, a, a', done, package, RecAdded(seed, arch, rec));
    TracksStep(r0, r, r', done, package, RecRemoved(seed, arch, rec));
  }

  /** The body of the second loop for one package with recommends count
      `value`. */
  method RecommendsPackage(seed: string, arch: string, package: string, value: int,
                           additions: map<string, seq<Change>>, removals: map<string, seq<Change>>)
    returns (additions': map<string, seq<Change>>, removals': map<string, seq<Change>>)
    ensures additions' == Extend(additions, package, RecDelta(seed, arch, value).added)
    ensures removals' == Extend(removals, package, RecDelta(seed, arch, value).removed)
  {
    additions', removals' := additions, removals;
    if value == 1 {
      additions' := AppendAt(additions, package, Change(seed + "-recommends", arch));
    } else if value == -1 {
      removals' := AppendAt(removals, package, Change(seed + "-recommends", arch));
    }
  }

  /** The delta calculation of `main` for one seed on one architecture:
      every package gets, appended to what it already had, exactly what
      `PackageDelta` says for its counts. */
  method DeltaStep(seed: string, arch: string, newList: seq<string>, oldList: Option<set<string>>,
                   newRec: seq<string>, oldRec: Option<set<string>>,
                   additions: map<string, seq<Change>>, removals: map<string, seq<Change>>, moves: map<string, seq<Change>>)
    returns (additions': map<string, seq<Change>>, removals': map<string, seq<Change>>, moves': map<string, seq<Change>>)
    ensures forall p :: Get(additions', p) ==
                        Get(additions, p) + PackageDelta(seed, arch, Tally(newList, oldList, p), Tally(newRec, oldRec, p)).added
    ensures forall p :: Get(removals', p) ==
                        Get(removals, p) + PackageDelta(seed, arch, Tally(newList, oldList, p), Tally(newRec, oldRec, p)).removed
    ensures forall p :: Get(moves', p) ==
                        Get(moves, p) + PackageDelta(seed, arch, Tally(newList, oldList, p), Tally(newRec, oldRec, p)).moved
  {
    var merged, mergedKeys := Counts(newList, oldList);
    var rec, recKeys := Counts(newRec, oldRec);
    var sortedKeys := SortedKeys(mergedKeys);
    var rec', a, r, m := ClassifyDepends(seed, arch, sortedKeys, merged, rec, additions, removals, moves);
    var sortedRecKeys := SortedKeys(recKeys);
    assert forall q :: q in sortedRecKeys ==> q in rec';
    additions', removals' := ClassifyRecommends(seed, arch, sortedRecKeys, rec', a, r);
    moves' := m;
    assert Elements(sortedKeys) == merged.Keys && Elements(sortedRecKeys) == rec.Keys;
    BothLoops(seed, arch, newList, oldList, newRec, oldRec, merged, rec, rec', additions, a, additions', removals, r, removals', moves, moves');
  }

  /** The two loops together, for every package. */
  lemma BothLoops(seed: string, arch: string, newList: seq<string>, oldList: Option<set<string>>,
                  newRec: seq<string>, oldRec: Option<set<string>>,
                  merged: map<string, int>, rec: map<string, int>, rec': map<string, int>,
                  a0: map<string, seq<Change>>, a1: map<string, seq<Change>>, a2: map<string, seq<Change>>,
                  r0: map<string, seq<Change>>, r1: map<string, seq<Change>>, r2: map<string, seq<Change>>,
                  m0: map<string, seq<Change>>, m1: map<string, seq<Change>>)
    requires forall p :: Get0(merged, p) == Tally(newList, oldList, p)
    requires forall p :: Get0(rec, p) == Tally(newRec, oldRec, p)
    requires RecTracks(rec, rec', merged, merged.Keys)
    requires Tracks(a0, a1, merged.Keys, DepAdded(seed, arch, merged, rec))
    requires Tracks(r0, r1, merged.Keys, DepRemoved(seed, arch, merged, rec))
    requires Tracks(m0, m1, merged.Keys, DepMoved(seed, arch, merged, rec))
    requires Tracks(a1, a2, rec.Keys, RecAdded(seed, arch, rec'))
    requires Tracks(r1, r2, rec.Keys, RecRemoved(seed, arch, rec'))
    ensures forall p :: Get(a2, p) ==
                        Get(a0, p) + PackageDelta(seed, arch, Tally(newList, oldList, p), Tally(newRec, oldRec, p)).added
    ensures forall p :: Get(r2, p) ==
                        Get(r0, p) + PackageDelta(seed, arch, Tally(newList, oldList, p), Tally(newRec, oldRec, p)).removed
    ensures forall p :: Get(m1, p) ==
                        Get(m0, p) + PackageDelta(seed, arch, Tally(newList, oldList, p), Tally(newRec, oldRec, p)).moved
  {
    forall p
      ensures Get(a2, p) == Get(a0, p) + PackageDelta(seed, arch, Tally(newList, oldList, p), Tally(newRec, oldRec, p)).added
      ensures Get(r2, p) == Get(r0, p) + PackageDelta(seed, arch, Tally(newList, oldList, p), Tally(newRec, oldRec, p)).removed
      ensures Get(m1, p) == Get(m0, p) + PackageDelta(seed, arch, Tally(newList, oldList, p), Tally(newRec, oldRec, p)).moved
    {
      BothLoopsAt(seed, arch, merged, rec, rec', a0, a1, a2, r0, r1, r2, m0, m1, p);
    }
  }

  /** What the two loops leave for one package `p`. */
  lemma BothLoopsAt(seed: string, arch: string, merged: map<string, int>, rec: map<string, int>, rec': map<string, int>,
                    a0: map<string, seq<Change>>, a1: map<string, seq<Change>>, a2: map<string, seq<Change>>,
                    r0: map<string, seq<Change>>, r1: map<string, seq<Change>>, r2: map<string, seq<Change>>,
                    m0: map<string, seq<Change>>, m1: map<string, seq<Change>>, p: string)
    requires RecTracks(rec, rec', merged, merged.Keys)
    requires Tracks(a0, a1, merged.Keys, DepAdded(seed, arch, merged, rec))
    requires Tracks(r0, r1, merged.Keys, DepRemoved(seed, arch, merged, rec))
    requires Tracks(m0, m1, merged.Keys, DepMoved(seed, arch, merged, rec))
    requires Tracks(a1, a2, rec.Keys, RecAdded(seed, arch, rec'))
    requires Tracks(r1, r2, rec.Keys, RecRemoved(seed, arch, rec'))
    ensures var d := PackageDelta(seed, arch, Get0(merged, p), Get0(rec, p));
      && Get(a2, p) == Get(a0, p) + d.added
      && Get(r2, p) == Get(r0, p) + d.removed
      && Get(m1, p) == Get(m0, p) + d.moved
  {
    var m, rv := Get0(merged, p), Get0(rec, p);
    DeltaOfPackage(seed, arch, m, rv, p in merged, p in rec);
    assert Get0(rec', p) == if p in merged then RecAfter(m, rv) else rv;
    var d := if p in merged then DepDelta(seed, arch, m, rv) else Delta([], [], []);
    var e := if p in rec then RecDelta(seed, arch, Get0(rec', p)) else Delta([], [], []);
    assert Get(a1, p) == Get(a0, p) + d.added;
    assert Get(r1, p) == Get(r0, p) + d.removed;
    assert Get(m1, p) == Get(m0, p) + d.moved;
    assert Get(a2, p) == Get(a1, p) + e.added;
    assert Get(r2, p) == Get(r1, p) + e.removed;
    Chain(Get(a0, p), Get(a1, p), Get(a2, p), d.added, e.added);
    Chain(Get(r0, p), Get(r1, p), Get(r2, p), d.removed, e.removed);
  }

  lemma Chain(g0: seq<Change>, g1: seq<Change>, g2: seq<Change>, d: seq<Change>, e: seq<Change>)
    requires g1 == g0 + d && g2 == g1 + e
    ensures g2 == g0 + (d + e)
  {
  }

  /** `sorted(d.items())` on the keys: the keys in sorted order, each once. */
  function SortedKeys(keys: seq<string>): (r: seq<string>)
    requires NoDup(keys)
    ensures NoDup(r) && Sorted(r)
    ensures forall p :: p in r <==> p in keys
    ensures Elements(r) == Elements(keys)
  {
    var r := Sort(keys);
    NoDupPermutation(keys, r);
    assert forall p :: p in r <==> p in multiset(r);
    assert forall p :: p in keys <==> p in multiset(keys);
    r
  }

  /** The two loops together, for one package: a package missing from a
      key list has count 0 there. */
  lemma DeltaOfPackage(seed: string, arch: string, m: int, r: int, inMerged: bool, inRec: bool)
    requires !inMerged ==> m == 0
    requires !inRec ==> r == 0
    ensures var d := if inMerged then DepDelta(seed, arch, m, r) else Delta([], [], []);
      var r' := if inMerged then RecAfter(m, r) else r;
      var e := if inRec then RecDelta(seed, arch, r') else Delta([], [], []);
      PackageDelta(seed, arch, m, r) == Delta(d.added + e.added, d.removed + e.removed, d.moved)
  {
  }

  /** The seeds of `items`, each once, in order of first appearance: the
      keys of `by_arch`. */
  function SeedsOf(items: seq<Change>): (r: seq<string>)
    ensures NoDup(r)
  {
    if items == [] then [] else AppendNew(SeedsOf(items[..|items| - 1]), items[|items| - 1].seed)
  }

  lemma {:induction false} SeedsOfMembers(items: seq<Change>)
    ensures forall seed :: seed in SeedsOf(items) <==> exists k :: 0 <= k < |items| && items[k].seed == seed
  {
    if items != [] {
      var init := items[..|items| - 1];
      SeedsOfMembers(init);
      assert forall k :: 0 <= k < |init| ==> init[k] == items[k];
    }
  }

  /** The architectures recorded for `seed`, each once, in order of first
      appearance: the set `by_arch[seed]`. */
  function ArchesOf(items: seq<Change>, seed: string): (r: seq<string>)
    ensures NoDup(r)
  {
    if items == [] then []
    else
      var init, last := items[..|items| - 1], items[|items| - 1];
      if last.seed == seed then AppendNew(ArchesOf(init, seed), last.arch) else ArchesOf(init, seed)
  }

  lemma {:induction false} ArchesOfMembers(items: seq<Change>, seed: string)
    ensures forall arch :: arch in ArchesOf(items, seed) <==> Change(seed, arch) in items
  {
    if items != [] {
      var init := items[..|items| - 1];
      ArchesOfMembers(init, seed);
      InitLast(items);
      assert forall c :: c in items <==> c in init || c == items[|items| - 1];
    }
  }

  /** The text for one seed: bare when it is on every configured
      architecture, otherwise followed by its sorted architectures. */
  function Chunk(seed: string, arches: seq<string>, architectures: seq<string>): string {
    if Elements(architectures) - Elements(arches) != {} then seed + " [" + Join(Sort(arches), " ") + "]" else seed
  }

  /** A chunk is the bare seed name exactly when every configured
      architecture is among the seed's architectures. */
  lemma ChunkBare(seed: string, arches: seq<string>, architectures: seq<string>)
    ensures Chunk(seed, arches, architectures) == seed <==> forall arch :: arch in architectures ==> arch in arches
    ensures StartsWith(Chunk(seed, arches, architectures), seed)
  {
    var c := Chunk(seed, arches, architectures);
    if Elements(architectures) - Elements(arches) != {} {
      assert |c| > |seed|;
      var arch :| arch in Elements(architectures) - Elements(arches);
      assert arch in architectures && arch !in arches;
      assert c[..|seed|] == seed;
    } else {
      forall arch | arch in architectures ensures arch in arches {
        assert arch in Elements(architectures) && arch !in Elements(architectures) - Elements(arches);
      }
    }
  }

  /** One chunk per seed of `seeds`, in that order. */
  function Chunks(seeds: seq<string>, items: seq<Change>, architectures: seq<string>): (r: seq<string>)
    ensures |r| == |seeds|
  {
    if seeds == [] then []
    else Chunks(seeds[..|seeds| - 1], items, architectures) + [Chunk(seeds[|seeds| - 1], ArchesOf(items, seeds[|seeds| - 1]), architectures)]
  }

  lemma {:induction false} ChunksAt(seeds: seq<string>, items: seq<Change>, architectures: seq<string>, k: nat)
    requires k < |seeds|
    ensures Chunks(seeds, items, architectures)[k] == Chunk(seeds[k], ArchesOf(items, seeds[k]), architectures)
  {
    if k < |seeds| - 1 {
      ChunksAt(seeds[..|seeds| - 1], items, architectures, k);
    }
  }

  lemma ChunksStep(seeds: seq<string>, j: nat, items: seq<Change>, architectures: seq<string>)
    requires j < |seeds|
    ensures Chunks(seeds[..j + 1], items, architectures)
      == Chunks(seeds[..j], items, architectures) + [Chunk(seeds[j], ArchesOf(items, seeds[j]), architectures)]
  {
    TakeOneMore(seeds, j);
  }

  /** `format_changes(items)`: the chunks of the seeds of `items` in
      sorted order, joined by `, `. */
  function FormatSpec(items: seq<Change>, architectures: seq<string>): string {
    Join(Chunks(SortedKeys(SeedsOf(items)), items, architectures), ", ")
  }

  /** The chunks name every seed of `items` once, in sorted order, and each
      chunk is bare exactly when its seed is on every configured
      architecture. */
  lemma FormatChunks(items: seq<Change>, architectures: seq<string>)
    ensures var seeds := SortedKeys(SeedsOf(items));
      var chunks := Chunks(seeds, items, architectures);
      && Sorted(seeds) && NoDup(seeds)
      && (forall seed :: seed in seeds <==> exists k :: 0 <= k < |items| && items[k].seed == seed)
      && (forall k :: 0 <= k < |chunks| ==> StartsWith(chunks[k], seeds[k]))
      && (forall k :: 0 <= k < |chunks| ==>
            (chunks[k] == seeds[k] <==> forall arch :: arch in architectures ==> Change(seeds[k], arch) in items))
  {
    var seeds := SortedKeys(SeedsOf(items));
    var chunks := Chunks(seeds, items, architectures);
    SeedsOfMembers(items);
    forall k | 0 <= k < |chunks|
      ensures StartsWith(chunks[k], seeds[k])
      ensures chunks[k] == seeds[k] <==> forall arch :: arch in architectures ==> Change(seeds[k], arch) in items
    {
      ChunksAt(seeds, items, architectures, k);
      ChunkBare(seeds[k], ArchesOf(items, seeds[k]), architectures);
      ArchesOfMembers(items, seeds[k]);
    }
  }

  /** A seed without items has no architectures. */
  lemma {:induction false} ArchesOfUnseen(items: seq<Change>, seed: string)
    requires seed !in SeedsOf(items)
    ensures ArchesOf(items, seed) == []
  {
    if items != [] {
      ArchesOfUnseen(items[..|items| - 1], seed);
    }
  }

  lemma PrefixOfItems(items: seq<Change>, i: nat)
    requires i < |items|
    ensures SeedsOf(items[..i + 1]) == AppendNew(SeedsOf(items[..i]), items[i].seed)
  {
    TakeOneMore(items, i);
  }

  lemma ArchesStep(items: seq<Change>, i: nat, seed: string)
    requires i < |items|
    ensures ArchesOf(items[..i + 1], seed) ==
      if items[i].seed == seed then AppendNew(ArchesOf(items[..i], seed), items[i].arch) else ArchesOf(items[..i], seed)
  {
    TakeOneMore(items, i);
  }

  /** One pass of the first loop of `format_changes` keeps the seeds and
      the keys of `by_arch` equal to those of the changes read so far ... */
  lemma CollectSeedsStep(items: seq<Change>, i: nat, byArch: map<string, seq<string>>, seeds: seq<string>,
                         byArch': map<string, seq<string>>, seeds': seq<string>)
    requires i < |items|
    requires seeds == SeedsOf(items[..i])
    requires forall seed :: seed in byArch <==> seed in seeds
    requires seeds' == AppendNew(seeds, items[i].seed)
    requires forall seed :: seed in byArch' <==> seed in byArch || seed == items[i].seed
    ensures seeds' == SeedsOf(items[..i + 1])
    ensures forall seed :: seed in byArch' <==> seed in seeds'
  {
    PrefixOfItems(items, i);
  }

  /** ... and each seed's architectures equal to those of its changes. */
  lemma CollectArchesStep(items: seq<Change>, i: nat, byArch: map<string, seq<string>>, seeds: seq<string>,
                          byArch': map<string, seq<string>>)
    requires i < |items|
    requires seeds == SeedsOf(items[..i])
    requires forall seed :: seed in byArch <==> seed in seeds
    requires forall seed :: seed in byArch ==> byArch[seed] == ArchesOf(items[..i], seed)
    requires byArch' == byArch[items[i].seed := AppendNew(if items[i].seed in byArch then byArch[items[i].seed] else [], items[i].arch)]
    ensures forall seed :: seed in byArch' ==> byArch'[seed] == ArchesOf(items[..i + 1], seed)
  {
    var c := items[i];
    if c.seed !in byArch {
      ArchesOfUnseen(items[..i], c.seed);
    }
    forall seed | seed in byArch'
      ensures byArch'[seed] == ArchesOf(items[..i + 1], seed)
    {
      ArchesStep(items, i, seed);
    }
  }

  /** The first loop of `format_changes`: `by_arch`, with its keys in
      order of first appearance. */
  method CollectArches(items: seq<Change>) returns (byArch: map<string, seq<string>>, seeds: seq<string>)
    ensures seeds == SeedsOf(items)
    ensures forall seed :: seed in byArch <==> seed in seeds
    ensures forall seed :: seed in byArch ==> byArch[seed] == ArchesOf(items, seed)
  {
    byArch, seeds := map[], [];
    var i := 0;
    while i < |items|
      invariant 0 <= i <= |items|
      invariant seeds == SeedsOf(items[..i])
      invariant forall seed :: seed in byArch <==> seed in seeds
      invariant forall seed :: seed in byArch ==> byArch[seed] == ArchesOf(items[..i], seed)
    {
      byArch, seeds := CollectOne(items, i, byArch, seeds);
      i := i + 1;
    }
    TakeAll(items);
  }

  /** One pass of that loop: the change at `i` joins its seed's list. */
  method CollectOne(items: seq<Change>, i: nat, byArch: map<string, seq<string>>, seeds: seq<string>)
    returns (byArch': map<string, seq<string>>, seeds': seq<string>)
    requires i < |items|
    requires seeds == SeedsOf(items[..i])
    requires forall seed :: seed in byArch <==> seed in seeds
    requires forall seed :: seed in byArch ==> byArch[seed] == ArchesOf(items[..i], seed)
    ensures seeds' == SeedsOf(items[..i + 1])
    ensures forall seed :: seed in byArch' <==> seed in seeds'
    ensures forall seed :: seed in byArch' ==> byArch'[seed] == ArchesOf(items[..i + 1], seed)
  {
    var c := items[i];
    var arches := if c.seed in byArch then byArch[c.seed] else [];
    byArch', seeds' := byArch[c.seed := AppendNew(arches, c.arch)], AppendNew(seeds, c.seed);
    CollectSeedsStep(items, i, byArch, seeds, byArch', seeds');
    CollectArchesStep(items, i, byArch, seeds, byArch');
  }

  /** `format_changes`: the chunks of the sorted seeds, joined. */
  method FormatChanges(items: seq<Change>, architectures: seq<string>) returns (s: string)
    ensures s == FormatSpec(items, architectures)
  {
    var byArch, seeds := CollectArches(items);
    var sortedSeeds := SortedKeys(seeds);
    var chunks: seq<string> := [];
    var j := 0;
    while j < |sortedSeeds|
      invariant 0 <= j <= |sortedSeeds|
      invariant chunks == Chunks(sortedSeeds[..j], items, architectures)
    {
      var seed := sortedSeeds[j];
      var arches := byArch[seed];
      if Elements(architectures) - Elements(arches) != {} {
        chunks := chunks + [seed + " [" + Join(Sort(arches), " ") + "]"];
      } else {
        chunks := chunks + [seed];
      }
      ChunksStep(sortedSeeds, j, items, architectures);
      j := j + 1;
    }
    TakeAll(sortedSeeds);
    s := Join(chunks, ", ");
  }
}
