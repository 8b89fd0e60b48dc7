/** Reading a whole seed collection (germinate/seeds.py,
    `SeedStructure._parse`): the `STRUCTURE` file of a branch and,
    recursively, of every branch it includes, merged into one seed order,
    one inheritance map, one branch search list and one set of structure
    lines. */
module StructureMerge {
  import opened Wrappers
  import opened Text
  import opened Lists
  import opened StructureFile

  /** The seed names the structure lines declare. */
  function NameSet(lines: seq<string>): set<string> {
    KeySet(lines, LineName)
  }

  /** No seed name is declared by two of the lines. */
  predicate DistinctNames(lines: seq<string>) {
    DistinctKeys(lines, LineName)
  }

  /** The effect of merging one structure line: the first earlier line
      declaring the same seed is deleted and the line goes to the end. */
  function Replace(lines: seq<string>, line: string): seq<string> {
    ReplaceKeyed(lines, LineName, line)
  }

  /** The inner loop of `_parse` for one structure line: scan for the first
      line declaring the same seed, delete it, stop, then append. */
  method ReplaceLine(lines: seq<string>, line: string) returns (r: seq<string>)
    ensures r == Replace(lines, line)
  {
    var name := LineName(line);
    var i := 0;
    WithoutKeyStart(lines, LineName, name);
    while i < |lines|
      invariant 0 <= i <= |lines|
      invariant WithoutKey(lines, LineName, name) == lines[..i] + WithoutKey(lines[i..], LineName, name)
    {
      WithoutKeyStep(lines, LineName, name, i);
      if LineName(lines[i]) == name {
        return lines[..i] + lines[i + 1..] + [line];
      }
      i := i + 1;
    }
    WithoutKeyEnd(lines, LineName, name);
    return lines + [line];
  }

  /** Merging the lines `more` one after the other. */
  function ReplaceAll(lines: seq<string>, more: seq<string>): seq<string> {
    ReplaceAllKeyed(lines, LineName, more)
  }

  /** The loop merging a child's (or the branch's own) structure lines. */
  method MergeLines(lines: seq<string>, more: seq<string>) returns (r: seq<string>)
    ensures r == ReplaceAll(lines, more)
  {
    r := lines;
    var i := 0;
    while i < |more|
      invariant 0 <= i <= |more|
      invariant r == ReplaceAll(lines, more[..i])
    {
      TakeOneMore(more, i);
      r := ReplaceLine(r, more[i]);
      i := i + 1;
    }
    TakeAll(more);
  }

  /** Appending the branches of `more` not yet listed, in order. */
  function AppendAll(branches: seq<string>, more: seq<string>): (r: seq<string>)
    ensures NoDup(branches) ==> NoDup(r)
    ensures forall b :: b in r <==> b in branches || b in more
    ensures |branches| <= |r| && r[..|branches|] == branches
  {
    if more == [] then branches
    else
      var init := AppendAll(branches, more[..|more| - 1]);
      assert forall b :: b in more <==> b in more[..|more| - 1] || b == more[|more| - 1] by {
        assert more == more[..|more| - 1] + [more[|more| - 1]];
      }
      AppendNew(init, more[|more| - 1])
  }

  /** The loops `if b not in all_branches: all_branches.append(b)`. */
  method MergeBranches(branches: seq<string>, more: seq<string>) returns (r: seq<string>)
    ensures r == AppendAll(branches, more)
  {
    r := branches;
    var i := 0;
    while i < |more|
      invariant 0 <= i <= |more|
      invariant r == AppendAll(branches, more[..i])
    {
      TakeOneMore(more, i);
      if more[i] !in r {
        r := r + [more[i]];
      }
      i := i + 1;
    }
    assert more[..i] == more;
  }

  /** Every seed of the order has parents, and the lines declare exactly
      the seeds of the order. */
  ghost predicate Consistent(st: Structure) {
    (forall n :: n in st.inherit <==> n in st.seedOrder)
    && NameSet(st.lines) == Elements(st.seedOrder)
  }

  /** A merged structure lists each branch once and declares each seed
      on one line. */
  ghost predicate Coherent(st: Structure) {
    Consistent(st) && NoDup(st.branches) && DistinctNames(st.lines)
  }

  /** The seeds and lines kept by one parsed file agree: each kept line
      declares the seed at its position. */
  lemma OwnConsistent(branch: string, lines: seq<string>, own: Structure)
    requires ParseLines(branch, lines) == Ok(own)
    ensures Consistent(own)
  {
    KeptLinesNamed(branch, lines);
    NamedLines(own.lines, own.seedOrder);
  }

  /** Lines that declare the seeds of `order` position by position
      declare exactly those seeds. */
  lemma NamedLines(lines: seq<string>, order: seq<string>)
    requires |lines| == |order|
    requires forall i :: 0 <= i < |lines| ==> LineName(lines[i]) == order[i]
    ensures NameSet(lines) == Elements(order)
  {
    forall n | n in NameSet(lines) ensures n in Elements(order) {
      var i :| 0 <= i < |lines| && LineName(lines[i]) == n;
    }
    forall n | n in Elements(order) ensures n in NameSet(lines) {
      var i :| 0 <= i < |order| && order[i] == n;
      assert LineName(lines[i]) in NameSet(lines);
    }
  }

  /** What merging the structure `part` into the accumulated `acc` gives:
      seeds appended, parents overridden, new branches appended, lines
      replaced by name, features united. */
  function Absorb(acc: Structure, part: Structure): Structure {
    Structure(acc.seedOrder + part.seedOrder,
              acc.inherit + part.inherit,
              AppendAll(acc.branches, part.branches),
              ReplaceAll(acc.lines, part.lines),
              acc.features + part.features)
  }

  /** Merging a consistent structure keeps the accumulated one coherent. */
  lemma AbsorbCoherent(acc: Structure, part: Structure)
    requires Coherent(acc) && Consistent(part)
    ensures Coherent(Absorb(acc, part))
  {
    ReplaceAllKeyedDistinct(acc.lines, LineName, part.lines);
    var r := Absorb(acc, part);
    assert Elements(r.seedOrder) == Elements(acc.seedOrder) + Elements(part.seedOrder);
  }

  /** One round of the merging loops of `_parse`. */
  method MergeStructure(acc: Structure, part: Structure) returns (r: Structure)
    ensures r == Absorb(acc, part)
  {
    var branches := MergeBranches(acc.branches, part.branches);
    var lines := MergeLines(acc.lines, part.lines);
    r := Structure(acc.seedOrder + part.seedOrder, acc.inherit + part.inherit, branches, lines, acc.features + part.features);
  }

  /** The branch's own `STRUCTURE` file, parsed. */
  function OwnFile(structures: map<string, string>, branch: string): Result<Structure>
    requires branch in structures
  {
    ParseLines(branch, LinesOf(structures[branch]))
  }

  /** The structure nothing has been merged into yet. */
  const NoStructure := Structure([], map[], [], [], {})

  /** `SeedStructure._parse(branch, got_branches)` as a value: the result
      and the `got_branches` set afterwards. The `STRUCTURE` file of
      `branch` (looked up in `structures`, which stands for every
      `STRUCTURE` file that can be fetched) is parsed, `branch` is marked
      as got, the included branches are parsed and merged in order, the
      branch's own data is merged last, and the branch list is reversed. */
  function ParseSpec(structures: map<string, string>, branch: string, got: set<string>): (p: (Result<Structure>, set<string>))
    requires branch !in got
    ensures got <= p.1
    decreases structures.Keys - got, 1
  {
    if branch !in structures then (Err("Could not open STRUCTURE"), got)
    else match OwnFile(structures, branch)
      case Err(m) => (Err(m), got)
      case Ok(own) =>
        var (children, after) := IncludedSpec(structures, branch, got, got + {branch}, NoStructure, own.branches);
        if children.Err? then (Err(children.msg), after)
        else
          var acc := Absorb(children.value, own);
          (Ok(acc.(branches := Reverse(acc.branches))), after)
  }

  /** The loop of `_parse` over the branches `included` that the file of
      `branch` lists, from the merged structure `acc` and the got set
      `current` on: a branch already got is passed over, any other is
      parsed and merged, and the first error ends the loop. */
  function IncludedSpec(structures: map<string, string>, branch: string, got: set<string>, current: set<string>,
                        acc: Structure, included: seq<string>): (p: (Result<Structure>, set<string>))
    requires branch in structures && branch !in got && got + {branch} <= current
    ensures current <= p.1
    decreases structures.Keys - got, 0, |included|
  {
    if included == [] then (Ok(acc), current)
    else if included[0] in current then IncludedSpec(structures, branch, got, current, acc, included[1..])
    else
      assert structures.Keys - current < structures.Keys - got by {
        assert branch in structures.Keys - got;
      }
      var (sub, after) := ParseSpec(structures, included[0], current);
      if sub.Err? then (Err(sub.msg), after)
      else IncludedSpec(structures, branch, got, after, Absorb(acc, sub.value), included[1..])
  }

  /** `SeedStructure._parse(branch, got_branches)`: parse the file of
      `branch`, then every included branch not yet got, recursively, then
      merge the branch's own data and reverse the branch list. `gotAfter`
      is the updated `got_branches`; `visited` lists the branches this
      call parsed and `own` is this branch's own file. */
  method ParseBranch(structures: map<string, string>, branch: string, got: set<string>)
    returns (r: Result<Structure>, gotAfter: set<string>, ghost visited: seq<string>, ghost own: Structure)
    requires branch !in got
    ensures (r, gotAfter) == ParseSpec(structures, branch, got)
    ensures got <= gotAfter
    ensures r.Err? && branch !in structures ==> r.msg == "Could not open STRUCTURE"
    ensures r.Ok? ==> branch in structures && OwnFile(structures, branch) == Ok(own)
    ensures r.Ok? ==> Coherent(r.value)
    ensures r.Ok? ==>
      |own.seedOrder| <= |r.value.seedOrder| && r.value.seedOrder[|r.value.seedOrder| - |own.seedOrder|..] == own.seedOrder
    ensures r.Ok? ==> forall n :: n in own.inherit ==> n in r.value.inherit && r.value.inherit[n] == own.inherit[n]
    ensures r.Ok? ==> forall b :: b in own.branches ==> b in r.value.branches
    ensures r.Ok? ==> own.features <= r.value.features
    ensures r.Ok? ==>
      NoDup(visited) && visited != [] && visited[0] == branch && gotAfter == got + Elements(visited) && Elements(visited) !! got
    decreases structures.Keys - got, 1
  {
    visited := [];
    own := Empty(branch);
    if branch !in structures {
      return Err("Could not open STRUCTURE"), got, visited, own;
    }
    var parsed := ParseStructure(branch, structures[branch]);
    if parsed.Err? {
      return Err(parsed.msg), got, visited, own;
    }
    var structure := parsed.value;
    own := structure;
    var children, current;
    children, current, visited := ParseIncluded(structures, branch, got, structure.branches);
    if children.Err? {
      return Err(children.msg), current, visited, own;
    }
    OwnConsistent(branch, LinesOf(structures[branch]), structure);
    AbsorbCoherent(children.value, structure);
    var acc := MergeStructure(children.value, structure);
    ReverseKeepsElements(acc.branches);
    r := Ok(acc.(branches := Reverse(acc.branches)));
    gotAfter := current;
  }

  /** The loop of `_parse` over the branches `included` that the file of
      `branch` lists: each one not yet got is parsed recursively and
      merged, in order. */
  method ParseIncluded(structures: map<string, string>, branch: string, got: set<string>, included: seq<string>)
    returns (r: Result<Structure>, current: set<string>, ghost visited: seq<string>)
    requires branch in structures && branch !in got
    ensures (r, current) == IncludedSpec(structures, branch, got, got + {branch}, NoStructure, included)
    ensures r.Ok? ==> Coherent(r.value)
    ensures r.Ok? ==>
      NoDup(visited) && visited != [] && visited[0] == branch && current == got + Elements(visited) && Elements(visited) !! got
    decreases structures.Keys - got, 0
  {
    current := got + {branch};
    visited := [branch];
    var acc := NoStructure;
    var c := 0;
    while c < |included|
      invariant 0 <= c <= |included|
      invariant got + {branch} <= current
      invariant NoDup(visited) && visited != [] && visited[0] == branch
      invariant current == got + Elements(visited) && Elements(visited) !! got
      invariant Coherent(acc)
      invariant IncludedSpec(structures, branch, got, got + {branch}, NoStructure, included)
        == IncludedSpec(structures, branch, got, current, acc, included[c..])
    {
      var child := included[c];
      DropOne(included, c);
      if child in current {
        c := c + 1;
        continue;
      }
      var sub, after, subVisited, _ := ParseBranch(structures, child, current);
      if sub.Err? {
        return Err(sub.msg), after, visited;
      }
      AbsorbCoherent(acc, sub.value);
      acc := MergeStructure(acc, sub.value);
      NoDupConcat(visited, subVisited);
      visited := visited + subVisited;
      current := after;
      c := c + 1;
    }
    r := Ok(acc);
  }

  /** When `_parse` succeeds, its result is the included branches' merged
      structure followed by the branch's own: the included branches' seeds
      come first and its own last, its own parents override any an
      included branch gives the same seed, the branch list read backwards
      is the included branches' list with the branch's own appended, its
      own lines replace same-named ones, and the features are united. */
  lemma ParseSpecMerge(structures: map<string, string>, branch: string, got: set<string>)
    requires branch !in got
    requires ParseSpec(structures, branch, got).0.Ok?
    ensures branch in structures && OwnFile(structures, branch).Ok?
    ensures var own := OwnFile(structures, branch).value;
      var children := IncludedSpec(structures, branch, got, got + {branch}, NoStructure, own.branches).0;
      var r := ParseSpec(structures, branch, got).0.value;
      && children.Ok?
      && r.seedOrder == children.value.seedOrder + own.seedOrder
      && (forall n :: n in own.inherit ==> n in r.inherit && r.inherit[n] == own.inherit[n])
      && (forall n :: n in r.inherit && n !in own.inherit ==>
            n in children.value.inherit && r.inherit[n] == children.value.inherit[n])
      && Reverse(r.branches) == AppendAll(children.value.branches, own.branches)
      && r.lines == ReplaceAll(children.value.lines, own.lines)
      && r.features == children.value.features + own.features
  {
    var own := OwnFile(structures, branch).value;
    var children := IncludedSpec(structures, branch, got, got + {branch}, NoStructure, own.branches).0;
    ReverseReverse(Absorb(children.value, own).branches);
  }

  /** A branch whose file includes one other branch, whose own file
      includes none: the including branch comes first in the search list,
      so that its seeds are found before the included branch's; its seeds
      follow the included branch's in the order, and its parents and
      features are merged over the included branch's. */
  lemma IncludingBranchFirst(structures: map<string, string>, branch: string, child: string, own: Structure, sub: Structure)
    requires branch != child && branch in structures && child in structures
    requires OwnFile(structures, branch) == Ok(own) && own.branches == [branch, child]
    requires OwnFile(structures, child) == Ok(sub) && sub.branches == [child]
    ensures var r := ParseSpec(structures, branch, {}).0;
      && r.Ok?
      && r.value.branches == [branch, child]
      && r.value.seedOrder == sub.seedOrder + own.seedOrder
      && r.value.inherit == sub.inherit + own.inherit
      && r.value.features == sub.features + own.features
  {
    var children := OneChildIncluded(structures, branch, child, sub);
    var none: set<string> := {};
    assert none + {branch} == {branch};
    ParseSpecOfIncluded(structures, branch, {}, own, children);
    SearchOrderOfTwo(child, branch);
  }

  /** `ParseSpec` of a branch whose included branches merge without error. */
  lemma ParseSpecOfIncluded(structures: map<string, string>, branch: string, got: set<string>, own: Structure, children: Structure)
    requires branch !in got && branch in structures
    requires OwnFile(structures, branch) == Ok(own)
    requires IncludedSpec(structures, branch, got, got + {branch}, NoStructure, own.branches).0 == Ok(children)
    ensures var acc := Absorb(children, own);
      ParseSpec(structures, branch, got).0 == Ok(acc.(branches := Reverse(acc.branches)))
  {
    ParseSpecUnfold(structures, branch, got, own);
  }

  /** The included-branch loop of a branch listing itself and then one
      branch that includes none: it passes over the branch itself and
      merges the other's own data. */
  lemma OneChildIncluded(structures: map<string, string>, branch: string, child: string, sub: Structure)
    returns (children: Structure)
    requires branch != child && branch in structures && child in structures
    requires OwnFile(structures, child) == Ok(sub) && sub.branches == [child]
    ensures children.branches == [child] && children.seedOrder == sub.seedOrder
    ensures children.inherit == sub.inherit && children.features == sub.features
    ensures IncludedSpec(structures, branch, {}, {branch}, NoStructure, [branch, child]) == (Ok(children), {branch} + {child})
  {
    var subResult := IncludedAlone(structures, child, {branch}, sub);
    var current := {branch} + {child};
    children := Absorb(NoStructure, subResult);
    AbsorbIntoNothing(subResult);
    assert [branch, child][1..] == [child] && [child][1..] == [];
    assert IncludedSpec(structures, branch, {}, current, children, []) == (Ok(children), current);
    assert IncludedSpec(structures, branch, {}, {branch}, NoStructure, [child]) == (Ok(children), current);
  }

  /** A branch whose file includes no other branch parses to its own
      data alone. */
  lemma IncludedAlone(structures: map<string, string>, child: string, got: set<string>, sub: Structure)
    returns (subResult: Structure)
    requires child in structures && child !in got
    requires OwnFile(structures, child) == Ok(sub) && sub.branches == [child]
    ensures subResult.branches == [child] && subResult.seedOrder == sub.seedOrder
    ensures subResult.inherit == sub.inherit && subResult.features == sub.features
    ensures ParseSpec(structures, child, got) == (Ok(subResult), got + {child})
  {
    assert [child][1..] == [];
    assert IncludedSpec(structures, child, got, got + {child}, NoStructure, [child]) == (Ok(NoStructure), got + {child});
    AbsorbIntoNothing(sub);
    subResult := Absorb(NoStructure, sub).(branches := [child]);
    assert Reverse([child]) == [child];
    ParseSpecUnfold(structures, child, got, sub);
  }

  /** Merging into the empty structure keeps the seeds, parents and
      features; a single branch stays alone. */
  lemma AbsorbIntoNothing(part: Structure)
    ensures var r := Absorb(NoStructure, part);
      r.seedOrder == part.seedOrder && r.inherit == part.inherit && r.features == part.features
      && (|part.branches| == 1 ==> r.branches == part.branches)
  {
    PrependNothing(part.seedOrder);
    MergeIntoNothing(part.inherit);
    if |part.branches| == 1 {
      AppendAllOne(part.branches[0]);
      assert part.branches == [part.branches[0]];
    }
  }

  lemma PrependNothing(s: seq<string>)
    ensures [] + s == s
  {
  }

  lemma MergeIntoNothing(m: map<string, seq<string>>)
    ensures map[] + m == m
  {
  }

  lemma AppendAllOne(b: string)
    ensures AppendAll([], [b]) == [b]
  {
    AppendAllSnoc([], [], b);
    assert [] + [b] == [b];
  }

  /** `ParseSpec` on a file that parses. */
  lemma ParseSpecUnfold(structures: map<string, string>, branch: string, got: set<string>, own: Structure)
    requires branch !in got && branch in structures
    requires OwnFile(structures, branch) == Ok(own)
    ensures var (children, after) := IncludedSpec(structures, branch, got, got + {branch}, NoStructure, own.branches);
      var acc := if children.Ok? then Absorb(children.value, own) else NoStructure;
      ParseSpec(structures, branch, got) ==
        if children.Err? then (Err(children.msg), after) else (Ok(acc.(branches := Reverse(acc.branches))), after)
  {
  }

  /** The included branch, then the including one that lists both, read
      backwards. */
  lemma SearchOrderOfTwo(child: string, branch: string)
    requires child != branch
    ensures Reverse(AppendAll([child], [branch, child])) == [branch, child]
  {
    AppendAllSnoc([child], [], branch);
    AppendAllSnoc([child], [branch], child);
    assert [] + [branch] == [branch] && [branch] + [child] == [branch, child];
    assert AppendAll([child], [branch, child]) == [child, branch];
    assert [child, branch][1..] == [branch] && [branch][1..] == [];
  }

  lemma AppendAllSnoc(branches: seq<string>, more: seq<string>, x: string)
    ensures AppendAll(branches, more + [x]) == AppendNew(AppendAll(branches, more), x)
  {
    assert (more + [x])[..|more|] == more;
  }
}
