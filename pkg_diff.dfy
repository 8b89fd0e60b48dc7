/** germinate/scripts/germinate_pkg_diff.py: how the packages selected on a
    system compare with what a set of seeds asks for. */
module PkgDiff {
  import opened Wrappers
  import opened Text
  import opened Lists

  /** What the comparison knows of one package: the seed lists that name
      it and whether dpkg has it selected. */
  datatype PackageState = PackageState(seeds: set<string>, installed: bool)

  /** The two-character mark of the default mode. */
  function Mark(st: PackageState): string {
    if st.installed && st.seeds == {} then "- "
    else if !st.installed && st.seeds != {} then "+ "
    else "  "
  }

  /** The name left-justified to 30 columns and a tab. */
  function Head(name: string): string {
    LJust(name, 30) + "\t"
  }

  /** `Package.output(outmode)`. */
  function Line(name: string, st: PackageState, outmode: string): string {
    var seeded := st.seeds != {};
    if outmode == "i" then
      (if st.installed && !seeded then Head(name) + "deinstall"
       else if !st.installed && seeded then Head(name) + "install"
       else "")
    else if outmode == "r" then
      (if st.installed && !seeded then Head(name) + "install"
       else if !st.installed && seeded then Head(name) + "deinstall"
       else "")
    else
      Mark(st) + Head(name) + Join(SortSet(st.seeds), ",")
  }

  /** Modes `i` and `r` show the same packages, those whose selection
      disagrees with the seeds, with the two words swapped. */
  lemma InstallRemoveModes(name: string, st: PackageState)
    ensures Line(name, st, "i") == "" <==> (st.installed <==> st.seeds != {})
    ensures Line(name, st, "r") == "" <==> (st.installed <==> st.seeds != {})
    ensures Line(name, st, "i") == Head(name) + "install" <==> Line(name, st, "r") == Head(name) + "deinstall"
    ensures Line(name, st, "i") == Head(name) + "deinstall" <==> Line(name, st, "r") == Head(name) + "install"
    ensures Line(name, st, "i") == Head(name) + "install" <==> !st.installed && st.seeds != {}
  {
    var h := Head(name);
    assert (h + "install")[|h|..] == "install";
    assert (h + "deinstall")[|h|..] == "deinstall";
  }

  /** The default mode shows every package: its mark says what mode `i`
      would do, then come its name and its sorted seed lists. */
  lemma DefaultMode(name: string, st: PackageState, outmode: string)
    requires outmode != "i" && outmode != "r"
    ensures var l := Line(name, st, outmode);
      && l != ""
      && l[..2] == Mark(st)
      && l[2..2 + |name|] == name
      && l[2 + |Head(name)|..] == Join(SortSet(st.seeds), ",")
    ensures Mark(st) == "+ " <==> Line(name, st, "i") == Head(name) + "install"
    ensures Mark(st) == "- " <==> Line(name, st, "i") == Head(name) + "deinstall"
    ensures Mark(st) == "  " <==> Line(name, st, "i") == ""
  {
    InstallRemoveModes(name, st);
    var l := Line(name, st, outmode);
    var h := Head(name);
    assert l == Mark(st) + h + Join(SortSet(st.seeds), ",");
    assert h[..|name|] == name;
    assert l[2..2 + |name|] == h[..|name|];
    var j := Join(SortSet(st.seeds), ",");
    assert l[2 + |h|..] == j;
    assert (h + "deinstall")[|h|..] == "deinstall";
  }

  /** `Package`: a name, the seed lists naming it and its dpkg state. */
  class Package {
    const name: string
    var seed: map<string, int>
    var installed: bool

    constructor(name: string)
      ensures this.name == name && seed == map[] && !installed
    {
      this.name := name;
      seed := map[];
      installed := false;
    }

    /** `set_seed`: the seed is a key, so naming it again changes nothing. */
    method SetSeed(s: string)
      modifies this`seed
      ensures seed == old(seed)[s := 1]
      ensures seed.Keys == old(seed.Keys) + {s}
    {
      seed := seed[s := 1];
    }

    method SetInstalled()
      modifies this`installed
      ensures installed
    {
      installed := true;
    }

    function State(): PackageState
      reads this
    {
      PackageState(seed.Keys, installed)
    }

    function Output(outmode: string): string
      reads this
    {
      Line(name, State(), outmode)
    }
  }

  /** One line of a selections listing: a package and its status. */
  datatype Sel = Sel(pkg: string, status: string)

  /** `pkg, st = l.split(None)`: the line must be exactly two words. */
  function ParseSelection(l: string): Option<Sel> {
    var w := Words(l);
    if |w| == 2 then Some(Sel(w[0], w[1])) else None
  }

  /** The selections read before the first line that does not parse. */
  function Selections(lines: seq<string>): seq<Sel> {
    if lines == [] then []
    else
      match ParseSelection(lines[0])
      case None => []
      case Some(s) => [s] + Selections(lines[1..])
  }

  /** The selections are the leading lines that parse, each read on its
      own; all lines are read exactly when every line parses. */
  lemma {:induction false} SelectionsFacts(lines: seq<string>)
    ensures |Selections(lines)| <= |lines|
    ensures forall k :: 0 <= k < |Selections(lines)| ==> ParseSelection(lines[k]) == Some(Selections(lines)[k])
    ensures |Selections(lines)| < |lines| ==> ParseSelection(lines[|Selections(lines)|]).None?
    ensures |Selections(lines)| == |lines| <==> forall k :: 0 <= k < |lines| ==> ParseSelection(lines[k]).Some?
  {
    if lines != [] && ParseSelection(lines[0]).Some? {
      var rest := lines[1..];
      SelectionsFacts(rest);
      assert forall k :: 0 <= k < |rest| ==> rest[k] == lines[k + 1];
      var r := Selections(lines);
      assert r == [ParseSelection(lines[0]).value] + Selections(rest);
      forall k | 0 <= k < |r| ensures ParseSelection(lines[k]) == Some(r[k]) {
        if k > 0 {
          assert r[k] == Selections(rest)[k - 1];
        }
      }
      if forall k :: 0 <= k < |lines| ==> ParseSelection(lines[k]).Some? {
        assert forall k :: 0 <= k < |rest| ==> ParseSelection(rest[k]).Some?;
      }
    }
  }

  /** The effect of one selection: the package exists afterwards, and is
      installed if it was or if the status is `install` or `hold`. */
  function Selected(st: map<string, PackageState>, pkg: string, status: string): map<string, PackageState> {
    var p := if pkg in st then st[pkg] else PackageState({}, false);
    st[pkg := if status == "install" || status == "hold" then p.(installed := true) else p]
  }

  /** The effect of a sequence of selections, in order. */
  function ApplyDpkg(st: map<string, PackageState>, sels: seq<Sel>): map<string, PackageState>
    decreases |sels|
  {
    if sels == [] then st
    else ApplyDpkg(Selected(st, sels[0].pkg, sels[0].status), sels[1..])
  }

  /** The selection installs or holds `pkg`. */
  predicate Installs(s: Sel, pkg: string) {
    s.pkg == pkg && (s.status == "install" || s.status == "hold")
  }

  /** The packages after the selections: those before and every package
      a selection names, and no other. */
  lemma {:induction false} DpkgKeys(st: map<string, PackageState>, sels: seq<Sel>, p: string)
    ensures p in ApplyDpkg(st, sels) <==> p in st || exists k :: 0 <= k < |sels| && sels[k].pkg == p
    decreases |sels|
  {
    if sels != [] {
      var rest := sels[1..];
      DpkgKeys(Selected(st, sels[0].pkg, sels[0].status), rest, p);
      if exists k :: 0 <= k < |sels| && sels[k].pkg == p {
        var k :| 0 <= k < |sels| && sels[k].pkg == p;
        if k > 0 {
          assert rest[k - 1] == sels[k];
        }
      }
      if exists k :: 0 <= k < |rest| && rest[k].pkg == p {
        var k :| 0 <= k < |rest| && rest[k].pkg == p;
        assert rest[k] == sels[k + 1];
      }
    }
  }

  /** Selections leave the seed lists of every package as they were. */
  lemma {:induction false} DpkgSeeds(st: map<string, PackageState>, sels: seq<Sel>, p: string)
    requires p in ApplyDpkg(st, sels)
    ensures ApplyDpkg(st, sels)[p].seeds == if p in st then st[p].seeds else {}
    decreases |sels|
  {
    if sels != [] {
      DpkgSeeds(Selected(st, sels[0].pkg, sels[0].status), sels[1..], p);
    }
  }

  /** A package is installed after the selections exactly when it was
      before or some selection installs or holds it. */
  lemma {:induction false} DpkgInstalled(st: map<string, PackageState>, sels: seq<Sel>, p: string)
    requires p in ApplyDpkg(st, sels)
    ensures ApplyDpkg(st, sels)[p].installed <==>
      (p in st && st[p].installed) || exists k :: 0 <= k < |sels| && Installs(sels[k], p)
    decreases |sels|
  {
    if sels != [] {
      var rest := sels[1..];
      DpkgInstalled(Selected(st, sels[0].pkg, sels[0].status), rest, p);
      if exists k :: 0 <= k < |sels| && Installs(sels[k], p) {
        var k :| 0 <= k < |sels| && Installs(sels[k], p);
        if k > 0 {
          assert rest[k - 1] == sels[k];
        }
      }
      if exists k :: 0 <= k < |rest| && Installs(rest[k], p) {
        var k :| 0 <= k < |rest| && Installs(rest[k], p);
        assert rest[k] == sels[k + 1];
      }
    }
  }

  /** `'%s+build-depends' % structure.supported`; `None` stands for an
      empty seed order, whose supported seed cannot be read. */
  function BuildDependsSeed(supported: Option<string>): string {
    (if supported.Some? then supported.value else "None") + "+build-depends"
  }

  /** One `setdefault(pkg, Package(pkg)).set_seed(tag)`: the package
      exists afterwards and `tag` is among its seed lists. */
  function Tagged(st: map<string, PackageState>, pkg: string, tag: string): map<string, PackageState> {
    var p := if pkg in st then st[pkg] else PackageState({}, false);
    st[pkg := p.(seeds := p.seeds + {tag})]
  }

  /** The same for every package of a list, in order. */
  function TagAllSpec(st: map<string, PackageState>, pkgs: seq<string>, tag: string): map<string, PackageState>
    decreases |pkgs|
  {
    if pkgs == [] then st else TagAllSpec(Tagged(st, pkgs[0], tag), pkgs[1..], tag)
  }

  /** Tagging adds exactly the listed packages, adds `tag` to the seed
      lists of exactly those, and changes no installed flag. */
  lemma {:induction false} TagAllMeaning(st: map<string, PackageState>, pkgs: seq<string>, tag: string, p: string)
    ensures p in TagAllSpec(st, pkgs, tag) <==> p in st || p in pkgs
    ensures p in TagAllSpec(st, pkgs, tag) ==>
      var before := if p in st then st[p] else PackageState({}, false);
      TagAllSpec(st, pkgs, tag)[p] == before.(seeds := before.seeds + if p in pkgs then {tag} else {})
    decreases |pkgs|
  {
    if pkgs != [] {
      var st' := Tagged(st, pkgs[0], tag);
      TagAllMeaning(st', pkgs[1..], tag, p);
      assert p in pkgs <==> p == pkgs[0] || p in pkgs[1..];
    }
  }

  /** The build-depends of a seed less everything the inner seeds of the
      supported seed already hold: the loop over the inner seeds removes
      each one's entries, recommends and depends in turn. */
  method BuildTreeOnly(buildDepends: set<string>, inner: seq<set<string>>) returns (r: set<string>)
    ensures forall p :: p in r <==> p in buildDepends && forall k :: 0 <= k < |inner| ==> p !in inner[k]
  {
    r := buildDepends;
    var i := 0;
    while i < |inner|
      invariant 0 <= i <= |inner|
      invariant forall p :: p in r <==> p in buildDepends && forall k :: 0 <= k < i ==> p !in inner[k]
    {
      r := r - inner[i];
      i := i + 1;
    }
  }

  /** The seed-name loop of `set_seeds`: a request for the supported
      seed's build-depends asks for the supported seed itself and turns on
      the build-depends tree. `supported` is `None` only for an empty seed
      order, where reading the supported seed fails before this loop; the
      model then compares with `None+build-depends` instead. */
  method NeededSeeds(seeds: seq<string>, supported: Option<string>) returns (needed: seq<Option<string>>, buildTree: bool)
    ensures |needed| == |seeds|
    ensures forall k :: 0 <= k < |seeds| ==>
      needed[k] == if seeds[k] == BuildDependsSeed(supported) then supported else Some(seeds[k])
    ensures buildTree <==> BuildDependsSeed(supported) in seeds
  {
    needed, buildTree := [], false;
    var i := 0;
    while i < |seeds|
      invariant 0 <= i <= |seeds| && |needed| == i
      invariant forall k :: 0 <= k < i ==>
        needed[k] == if seeds[k] == BuildDependsSeed(supported) then supported else Some(seeds[k])
      invariant buildTree <==> BuildDependsSeed(supported) in seeds[..i]
    {
      var seedname := Some(seeds[i]);
      if seeds[i] == BuildDependsSeed(supported) {
        seedname := supported;
        buildTree := true;
      }
      TakeOneMore(seeds, i);
      needed := needed + [seedname];
      i := i + 1;
    }
    TakeAll(seeds);
  }

  /** The line of package `n`, or nothing when it is unknown. */
  function LineOf(n: string, st: map<string, PackageState>, outmode: string): string {
    if n in st then Line(n, st[n], outmode) else ""
  }

  /** The candidate lines of the packages `names`, in order. */
  function AllLines(names: seq<string>, st: map<string, PackageState>, outmode: string): (r: seq<string>)
    ensures |r| == |names|
    ensures forall k :: 0 <= k < |names| ==> r[k] == LineOf(names[k], st, outmode)
  {
    seq(|names|, k requires 0 <= k < |names| => LineOf(names[k], st, outmode))
  }

  /** `if len(l): print(l)` over the lines in order. */
  function Shown(ls: seq<string>): seq<string> {
    if ls == [] then []
    else Shown(ls[..|ls| - 1]) + (if |ls[|ls| - 1]| > 0 then [ls[|ls| - 1]] else [])
  }

  lemma ShownSnoc(ls: seq<string>, i: nat)
    requires i < |ls|
    ensures Shown(ls[..i + 1]) == Shown(ls[..i]) + if |ls[i]| > 0 then [ls[i]] else []
  {
    TakeOneMore(ls, i);
  }

  /** Nothing printed is empty, and when no line is empty every line is
      printed. */
  lemma {:induction false} ShownFacts(ls: seq<string>)
    ensures forall k :: 0 <= k < |Shown(ls)| ==> Shown(ls)[k] != ""
    ensures (forall k :: 0 <= k < |ls| ==> ls[k] != "") ==> Shown(ls) == ls
  {
    if ls != [] {
      var init := ls[..|ls| - 1];
      ShownFacts(init);
      if forall k :: 0 <= k < |ls| ==> ls[k] != "" {
        assert forall k :: 0 <= k < |init| ==> init[k] == ls[k];
        assert ls == init + [ls[|ls| - 1]];
      }
    }
  }

  /** `Globals.output`: the non-empty lines of the packages in sorted name
      order. */
  function OutputLines(st: map<string, PackageState>, outmode: string): seq<string> {
    Shown(AllLines(SortSet(st.Keys), st, outmode))
  }

  /** The printed lines are never empty; in the default mode there is one
      per package, in sorted name order, and `DefaultMode` gives its
      shape. */
  lemma OutputFacts(st: map<string, PackageState>, outmode: string)
    ensures forall k :: 0 <= k < |OutputLines(st, outmode)| ==> OutputLines(st, outmode)[k] != ""
    ensures outmode != "i" && outmode != "r" ==>
      var names := SortSet(st.Keys);
      |OutputLines(st, outmode)| == |st|
      && forall k :: 0 <= k < |names| ==> OutputLines(st, outmode)[k] == Line(names[k], st[names[k]], outmode)
  {
    var names := SortSet(st.Keys);
    ShownFacts(AllLines(names, st, outmode));
    if outmode != "i" && outmode != "r" {
      AllShown(names, st, outmode);
    }
  }

  /** In the default mode no package's line is empty. */
  lemma AllShown(names: seq<string>, st: map<string, PackageState>, outmode: string)
    requires outmode != "i" && outmode != "r"
    requires forall k :: 0 <= k < |names| ==> names[k] in st
    ensures forall k :: 0 <= k < |names| ==> AllLines(names, st, outmode)[k] != ""
  {
    forall k | 0 <= k < |names| ensures AllLines(names, st, outmode)[k] != "" {
      DefaultShown(names[k], st[names[k]], outmode);
    }
  }

  lemma DefaultShown(name: string, st: PackageState, outmode: string)
    requires outmode != "i" && outmode != "r"
    ensures |Line(name, st, outmode)| > 0
  {
  }

  /** `Globals`: the packages by name and the output mode. */
  class Globals {
    var package: map<string, Package>
    var seeds: seq<string>
    var outmode: string

    /** Every package is filed under its own name, so no two names share
        one `Package`. */
    ghost predicate Valid()
      reads this, package.Values
    {
      forall k :: k in package ==> package[k].name == k
    }

    ghost function States(): map<string, PackageState>
      reads this, package.Values
    {
      map k | k in package :: package[k].State()
    }

    constructor()
      ensures Valid() && package == map[] && seeds == [] && outmode == ""
    {
      package := map[];
      seeds := [];
      outmode := "";
    }

    method SetOutput(mode: string)
      modifies this`outmode
      ensures outmode == mode
    {
      outmode := mode;
    }

    /** The body of the `parse_dpkg` loop for one line `pkg st`. */
    method Select(pkg: string, status: string)
      requires Valid()
      modifies this`package, package.Values
      ensures Valid()
      ensures States() == Selected(old(States()), pkg, status)
      ensures forall k :: k in package ==> (k in old(package) && package[k] == old(package[k])) || fresh(package[k])
    {
      ghost var st0 := States();
      ghost var p := if pkg in st0 then st0[pkg] else PackageState({}, false);
      SetDefault(pkg);
      ghost var st1 := States();
      assert st1 == st0[pkg := p];
      if status == "install" || status == "hold" {
        MarkInstalled(pkg);
        assert States() == st1[pkg := p.(installed := true)];
        UpdateTwice(st0, pkg, p, p.(installed := true));
      }
    }

    /** `self.package.setdefault(pkg, Package(pkg))`: a new package has no
        seeds and is not installed; an existing one is kept. */
    method SetDefault(pkg: string)
      requires Valid()
      modifies this`package
      ensures Valid() && pkg in package
      ensures States() == old(States())[pkg := if pkg in old(States()) then old(States())[pkg] else PackageState({}, false)]
      ensures forall k :: k in package ==> (k in old(package) && package[k] == old(package[k])) || fresh(package[k])
    {
      ghost var st0 := States();
      if pkg !in package {
        var p := new Package(pkg);
        package := package[pkg := p];
        var want := st0[pkg := PackageState({}, false)];
        forall k | k in package
          ensures package[k].State() == want[k]
        {
        }
        assert States() == want;
      } else {
        assert st0 == st0[pkg := st0[pkg]];
      }
    }

    /** `package[pkg].installed = True`: only that package changes. */
    method MarkInstalled(pkg: string)
      requires Valid() && pkg in package
      modifies package[pkg]
      ensures Valid() && package == old(package)
      ensures States() == old(States())[pkg := old(States())[pkg].(installed := true)]
    {
      package[pkg].SetInstalled();
      forall k | k in package && k != pkg
        ensures package[k] != package[pkg]
      {
        assert package[k].name != package[pkg].name;
      }
    }

    /** `package[pkg].set_seed(tag)`: only that package changes. */
    method MarkSeed(pkg: string, tag: string)
      requires Valid() && pkg in package
      modifies package[pkg]
      ensures Valid() && package == old(package)
      ensures States() == old(States())[pkg := old(States())[pkg].(seeds := old(States())[pkg].seeds + {tag})]
    {
      package[pkg].SetSeed(tag);
      forall k | k in package && k != pkg
        ensures package[k] != package[pkg]
      {
        assert package[k].name != package[pkg].name;
      }
    }

    /** `self.package.setdefault(pkg, Package(pkg))` then
        `set_seed(tag)`. */
    method Tag(pkg: string, tag: string)
      requires Valid()
      modifies this`package, package.Values
      ensures Valid()
      ensures States() == Tagged(old(States()), pkg, tag)
      ensures forall k :: k in package ==> (k in old(package) && package[k] == old(package[k])) || fresh(package[k])
    {
      ghost var st0 := States();
      ghost var p := if pkg in st0 then st0[pkg] else PackageState({}, false);
      SetDefault(pkg);
      ghost var st1 := States();
      assert st1 == st0[pkg := p];
      MarkSeed(pkg, tag);
      assert States() == st1[pkg := p.(seeds := p.seeds + {tag})];
      UpdateTwice(st0, pkg, p, p.(seeds := p.seeds + {tag}));
    }

    /** One of the loops of `set_seeds`: every package of a seed's list is
        recorded under the tag of that list, such as `base.seed` or
        `base.depends`. */
    method TagAll(pkgs: seq<string>, tag: string)
      requires Valid()
      modifies this`package, package.Values
      ensures Valid()
      ensures States() == TagAllSpec(old(States()), pkgs, tag)
    {
      var i := 0;
      while i < |pkgs|
        invariant 0 <= i <= |pkgs| && Valid()
        invariant TagAllSpec(States(), pkgs[i..], tag) == TagAllSpec(old(States()), pkgs, tag)
        invariant forall k :: k in package ==> (k in old(package) && package[k] == old(package[k])) || fresh(package[k])
      {
        DropOne(pkgs, i);
        Tag(pkgs[i], tag);
        i := i + 1;
      }
    }

    /** `parse_dpkg` on the lines of a selections listing: the lines are
        applied in order until one that is not two words, where the
        unpacking fails. */
    method ParseDpkg(lines: seq<string>) returns (r: Result<()>)
      requires Valid()
      modifies this`package, package.Values
      ensures Valid()
      ensures r.Ok? <==> forall k :: 0 <= k < |lines| ==> ParseSelection(lines[k]).Some?
      ensures States() == ApplyDpkg(old(States()), Selections(lines))
    {
      var i := 0;
      while i < |lines|
        invariant 0 <= i <= |lines| && Valid()
        invariant forall k :: 0 <= k < i ==> ParseSelection(lines[k]).Some?
        invariant ApplyDpkg(States(), Selections(lines[i..])) == ApplyDpkg(old(States()), Selections(lines))
        invariant forall k :: k in package ==> (k in old(package) && package[k] == old(package[k])) || fresh(package[k])
      {
        var w := Words(lines[i]);
        if |w| != 2 {
          return Err("a selection line must hold a package and a status");
        }
        DropOne(lines, i);
        Select(w[0], w[1]);
        i := i + 1;
      }
      r := Ok(());
    }

    /** `Globals.output`, returning the printed lines. */
    method Output() returns (out: seq<string>)
      requires Valid()
      ensures out == OutputLines(States(), outmode)
    {
      assert States().Keys == package.Keys;
      var names := SortSet(package.Keys);
      out := [];
      var i := 0;
      while i < |names|
        invariant 0 <= i <= |names| && names == SortSet(States().Keys)
        invariant out == Shown(AllLines(names, States(), outmode)[..i])
      {
        var l := package[names[i]].Output(outmode);
        ShownSnoc(AllLines(names, States(), outmode), i);
        if |l| > 0 {
          out := out + [l];
        }
        i := i + 1;
      }
      TakeAll(AllLines(names, States(), outmode));
    }
  }
}
