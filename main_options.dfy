/** germinate/scripts/germinate_main.py: the `--vcs` option type, the
    defaulting and comma-splitting after option parsing, the custom seeds
    of `--seed-packages` and the files `main` writes. */
module MainOptions {
  import opened Wrappers
  import opened Text
  import opened Lists
  import opened Seeds
  import opened Collection
  import PkgDiff

  /** `germinate.defaults.mirror`. */
  const DefaultMirror := "http://archive.ubuntu.com/ubuntu/"

  /** `check_seed_vcs(option, opt, value)`: the value of `--vcs` named
      `opt` on the command line. */
  function CheckSeedVcs(opt: string, value: string): Result<Option<Vcs>> {
    if value == "none" then Ok(None)
    else if value == "auto" then Ok(Some(Auto))
    else if value == "bzr" then Ok(Some(Bzr))
    else if value == "git" then Ok(Some(Git))
    else Err("option " + opt + ": unrecognised VCS value: " + value)
  }

  /** The spelling `--vcs` accepts for each choice. */
  function VcsName(v: Option<Vcs>): string {
    match v
    case None => "none"
    case Some(Auto) => "auto"
    case Some(Bzr) => "bzr"
    case Some(Git) => "git"
  }

  /** Exactly the four spellings are accepted, each names the choice it
      reads back as, and anything else is an option error. */
  lemma CheckSeedVcsSpellings(opt: string, value: string)
    ensures CheckSeedVcs(opt, value).Ok? <==> value == "none" || value == "auto" || value == "bzr" || value == "git"
    ensures CheckSeedVcs(opt, value).Ok? ==> VcsName(CheckSeedVcs(opt, value).value) == value
    ensures CheckSeedVcs(opt, value).Err? ==> EndsWith(CheckSeedVcs(opt, value).msg, value)
    ensures forall v :: CheckSeedVcs(opt, VcsName(v)) == Ok(v)
  {
    var m := "option " + opt + ": unrecognised VCS value: " + value;
    assert m[|m| - |value|..] == value;
  }

  /** The options as optparse leaves them: absent values are `None`, the
      dist and components carry their defaults. */
  datatype RawOptions = RawOptions(
    seeds: Option<string>,
    vcs: Option<Vcs>,
    mirrors: Option<seq<string>>,
    dist: string,
    components: string,
    seedPackages: Option<string>)

  /** The options after `parse_options` has rewritten them. */
  datatype Options = Options(
    seeds: seq<string>,
    vcs: Option<Vcs>,
    mirrors: seq<string>,
    dist: seq<string>,
    components: seq<string>,
    seedPackages: seq<string>)

  /** `s.split(',')`. */
  function Commas(s: string): seq<string> {
    SplitOn(s, ',')
  }

  /** The post-processing at the end of `parse_options`. */
  function NormaliseOptions(raw: RawOptions): Options {
    var source := if raw.seeds.Some? then raw.seeds.value else DefaultSeedSource(raw.vcs);
    Options(
      Commas(source),
      raw.vcs,
      if raw.mirrors.Some? then raw.mirrors.value else [DefaultMirror],
      Commas(raw.dist),
      Commas(raw.components),
      if raw.seedPackages.Some? then Commas(raw.seedPackages.value) else [])
  }

  /** A comma split never loses text: joining the pieces with commas gives
      the string back, and no piece holds a comma. */
  lemma CommasFacts(s: string)
    ensures |Commas(s)| >= 1
    ensures Join(Commas(s), ",") == s
    ensures forall k :: 0 <= k < |Commas(s)| ==> ',' !in Commas(s)[k]
  {
    SplitOnJoin(s, ',');
  }

  /** The seed source falls back on the default of the VCS choice; every
      list option is the comma split of what was given; the mirrors fall
      back on the single default mirror and the seed packages on nothing. */
  lemma NormaliseOptionsFacts(raw: RawOptions)
    ensures var o := NormaliseOptions(raw);
      && Join(o.seeds, ",") == (if raw.seeds.Some? then raw.seeds.value else DefaultSeedSource(raw.vcs))
      && o.seeds != []
      && o.vcs == raw.vcs
      && o.mirrors == (if raw.mirrors.Some? then raw.mirrors.value else [DefaultMirror])
      && Join(o.dist, ",") == raw.dist && o.dist != []
      && Join(o.components, ",") == raw.components && o.components != []
      && (raw.seedPackages.None? <==> o.seedPackages == [])
      && (raw.seedPackages.Some? ==> Join(o.seedPackages, ",") == raw.seedPackages.value)
  {
    var source := if raw.seeds.Some? then raw.seeds.value else DefaultSeedSource(raw.vcs);
    CommasFacts(source);
    CommasFacts(raw.dist);
    CommasFacts(raw.components);
    if raw.seedPackages.Some? {
      CommasFacts(raw.seedPackages.value);
    }
  }

  /** `parent, pkg = seed_package.split('/')`: exactly one slash. */
  function SeedPackageParts(entry: string): Result<(string, string)> {
    var parts := SplitOn(entry, '/');
    if |parts| == 2 then Ok((parts[0], parts[1]))
    else if |parts| < 2 then Err("not enough values to unpack (expected 2, got 1)")
    else Err("too many values to unpack (expected 2)")
  }

  /** The text after the last slash: the custom seed's name. */
  function PkgName(entry: string): string {
    var parts := SplitOn(entry, '/');
    parts[|parts| - 1]
  }

  /** An entry that splits is `PARENT/PKG` read back: the two parts joined
      by a slash give the entry, and neither holds a slash. */
  lemma SeedPackagePartsFacts(entry: string)
    ensures SeedPackageParts(entry).Ok? <==> |SplitOn(entry, '/')| == 2
    ensures SeedPackageParts(entry).Ok? ==>
      var (parent, pkg) := SeedPackageParts(entry).value;
      && parent + "/" + pkg == entry && '/' !in parent && '/' !in pkg && pkg == PkgName(entry)
  {
    SplitOnJoin(entry, '/');
    var parts := SplitOn(entry, '/');
    if |parts| == 2 {
      assert Join(parts, "/") == parts[0] + "/" + Join(parts[1..], "/");
      assert parts[1..] == [parts[1]];
    }
  }

  /** The inheritance after adding one seed package: `PARENT/PKG` makes
      PKG inherit from PARENT and what PARENT inherits; a malformed entry
      or an unknown parent is an error. */
  function SeedAddOne(inherit: map<string, seq<string>>, entry: string): Result<map<string, seq<string>>> {
    match SeedPackageParts(entry)
    case Err(m) => Err(m)
    case Ok((parent, pkg)) =>
      if parent !in inherit then Err("KeyError: " + parent)
      else Ok(inherit[pkg := inherit[parent] + [parent]])
  }

  /** The same for every entry in turn, stopping at the first error. */
  function SeedAdds(inherit: map<string, seq<string>>, entries: seq<string>): Result<map<string, seq<string>>>
    decreases |entries|
  {
    if entries == [] then Ok(inherit)
    else
      match SeedAddOne(inherit, entries[0])
      case Err(m) => Err(m)
      case Ok(inherit') => SeedAdds(inherit', entries[1..])
  }

  /** The names the seed packages add, in order. */
  function PkgNames(entries: seq<string>): (r: seq<string>)
    ensures |r| == |entries|
    ensures forall k :: 0 <= k < |entries| ==> r[k] == PkgName(entries[k])
  {
    if entries == [] then [] else PkgNames(entries[..|entries| - 1]) + [PkgName(entries[|entries| - 1])]
  }

  lemma PkgNamesStep(entries: seq<string>, i: nat)
    requires i < |entries|
    ensures PkgNames(entries[..i + 1]) == PkgNames(entries[..i]) + [PkgName(entries[i])]
  {
    TakeOneMore(entries, i);
  }

  /** On success every entry parses, names a parent that was a seed
      already or was added by an earlier entry, and leaves its own seed in
      the inheritance map. */
  lemma {:induction false} SeedAddsParents(inherit: map<string, seq<string>>, entries: seq<string>, k: nat)
    requires SeedAdds(inherit, entries).Ok?
    requires k < |entries|
    ensures SeedPackageParts(entries[k]).Ok?
    ensures SeedPackageParts(entries[k]).value.0 in inherit || exists j :: 0 <= j < k && PkgName(entries[j]) == SeedPackageParts(entries[k]).value.0
    ensures PkgName(entries[k]) in SeedAdds(inherit, entries).value
    decreases |entries|
  {
    SeedPackagePartsFacts(entries[0]);
    var (parent, pkg) := SeedPackageParts(entries[0]).value;
    var inherit' := inherit[pkg := inherit[parent] + [parent]];
    var rest := entries[1..];
    if k == 0 {
      SeedAddsKeeps(inherit', rest, pkg);
    } else {
      SeedAddsParents(inherit', rest, k - 1);
      assert rest[k - 1] == entries[k];
      var p := SeedPackageParts(entries[k]).value.0;
      if p !in inherit {
        if p == pkg {
          assert PkgName(entries[0]) == p;
        } else {
          var j :| 0 <= j < k - 1 && PkgName(rest[j]) == p;
          assert rest[j] == entries[j + 1];
        }
      }
    }
  }

  /** Adding seed packages never forgets a seed. */
  lemma {:induction false} SeedAddsKeeps(inherit: map<string, seq<string>>, entries: seq<string>, n: string)
    requires SeedAdds(inherit, entries).Ok?
    requires n in inherit
    ensures n in SeedAdds(inherit, entries).value
    decreases |entries|
  {
    if entries != [] {
      SeedAddsKeeps(SeedAddOne(inherit, entries[0]).value, entries[1..], n);
    }
  }

  /** One pass of the `--seed-packages` loop of `main`: `PARENT/PKG`
      adds a custom seed PKG whose only entry is ` * PKG`, inheriting from
      PARENT. */
  method AddSeedPackage(st: SeedStructure, entry: string) returns (r: Result<()>)
    requires st.Valid()
    modifies st`names, st`inherit, st`seeds
    ensures r.Ok? <==> SeedAddOne(old(st.inherit), entry).Ok?
    ensures r.Ok? ==> st.Valid() && st.inherit == SeedAddOne(old(st.inherit), entry).value
    ensures r.Ok? ==> st.names == old(st.names) + [PkgName(entry)]
    ensures r.Ok? ==> st.seeds == old(st.seeds)[PkgName(entry) := CustomSeed(PkgName(entry), [" * " + PkgName(entry)])]
    ensures r.Ok? ==> st.seeds.Keys == old(st.seeds.Keys) + {PkgName(entry)}
  {
    var parts := SplitOn(entry, '/');
    if |parts| != 2 {
      return Err(SeedPackageParts(entry).msg);
    }
    var parent, pkg := parts[0], parts[1];
    if parent !in st.inherit {
      return Err("KeyError: " + parent);
    }
    st.Add(pkg, [" * " + pkg], Some(parent));
    r := Ok(());
  }

  /** The `--seed-packages` loop of `main`. On an error the program stops,
      so the structure left behind is not described. */
  method AddSeedPackages(st: SeedStructure, entries: seq<string>) returns (r: Result<()>)
    requires st.Valid()
    modifies st`names, st`inherit, st`seeds
    ensures r.Ok? <==> SeedAdds(old(st.inherit), entries).Ok?
    ensures r.Ok? ==> st.Valid() && st.inherit == SeedAdds(old(st.inherit), entries).value
    ensures r.Ok? ==> st.names == old(st.names) + PkgNames(entries)
    ensures r.Ok? ==> st.seeds.Keys == old(st.seeds.Keys) + Elements(PkgNames(entries))
  {
    var i := 0;
    while i < |entries|
      invariant 0 <= i <= |entries| && st.Valid()
      invariant SeedAdds(st.inherit, entries[i..]) == SeedAdds(old(st.inherit), entries)
      invariant st.names == old(st.names) + PkgNames(entries[..i])
      invariant st.seeds.Keys == old(st.seeds.Keys) + Elements(PkgNames(entries[..i]))
    {
      DropOne(entries, i);
      ghost var before := PkgNames(entries[..i]);
      PkgNamesStep(entries, i);
      r := AddSeedPackage(st, entries[i]);
      if r.Err? {
        return;
      }
      SnocAssoc(old(st.names), before, PkgName(entries[i]));
      ElementsSnoc(before, PkgName(entries[i]));
      UnionSnoc(old(st.seeds.Keys), Elements(before), PkgName(entries[i]));
      i := i + 1;
    }
    TakeAll(entries);
    r := Ok(());
  }

  /** One output file: `seed + kind` for a seed, a whole-run list, the
      reverse-dependency list `rdepends/SOURCE/PKG` of a package, or the
      link `rdepends/ALL/PKG` to it. */
  datatype OutFile =
    | PerSeed(seed: string, kind: string)
    | Whole(name: string)
    | Rdepends(source: string, pkg: string)
    | RdependsLink(pkg: string, source: string)

  /** A package of the run with its source package, as the germinator
      reports them. */
  datatype PackageSource = PackageSource(pkg: string, source: string)

  /** The files written for one seed: the `.seedtext` and `.sources`
      lists only for a seed of the structure other than `extra`. */
  function SeedFiles(seedname: string, inStructure: bool): seq<OutFile> {
    [PerSeed(seedname, ""), PerSeed(seedname, ".seed"), PerSeed(seedname, ".seed-recommends"),
     PerSeed(seedname, ".depends"), PerSeed(seedname, ".build-depends")]
    + (if seedname != "extra" && inStructure then [PerSeed(seedname, ".seedtext"), PerSeed(seedname, ".sources")] else [])
    + [PerSeed(seedname, ".build-sources")]
  }

  /** The per-seed files for the seeds `order`, in order. */
  function FilesFor(order: seq<string>, seeds: set<string>): seq<OutFile> {
    if order == [] then []
    else FilesFor(order[..|order| - 1], seeds) + SeedFiles(order[|order| - 1], order[|order| - 1] in seeds)
  }

  /** The whole-run lists written after the loop, in order: `all`, the
      supported seed's build-depends list and its sources, `all+extra`,
      `provides`, and the structure with its graph. */
  function WholeFiles(supported: Option<string>): seq<OutFile> {
    var bd := PkgDiff.BuildDependsSeed(supported);
    [Whole("all"), Whole("all.sources"), Whole(bd), Whole(bd + ".sources"),
     Whole("all+extra"), Whole("all+extra.sources"), Whole("provides"),
     Whole("structure"), Whole("structure.dot")]
  }

  /** The reverse-dependency list of each package, in order, each
      followed by its link under `rdepends/ALL`. */
  function RdependsFiles(all: seq<PackageSource>): seq<OutFile> {
    if all == [] then []
    else
      var last := all[|all| - 1];
      RdependsFiles(all[..|all| - 1]) + [Rdepends(last.source, last.pkg), RdependsLink(last.pkg, last.source)]
  }

  /** Everything `main` writes: the per-seed files of the names and
      `extra`, the whole-run lists, the reverse-dependency files when
      they are wanted (`rdepends` holds the packages of the run), and
      the blacklist last. */
  function OutputFiles(names: seq<string>, seeds: set<string>, supported: Option<string>,
                       rdepends: Option<seq<PackageSource>>): seq<OutFile> {
    FilesFor(names + ["extra"], seeds) + WholeFiles(supported)
    + (if rdepends.Some? then RdependsFiles(rdepends.value) else [])
    + [Whole("blacklisted")]
  }

  /** The kinds every seed of the loop gets. */
  predicate CommonKind(kind: string) {
    kind == "" || kind == ".seed" || kind == ".seed-recommends" || kind == ".depends"
    || kind == ".build-depends" || kind == ".build-sources"
  }

  /** The files of one seed are all for that seed: the common kinds, and
      `.seedtext` and `.sources` only for a seed of the structure other
      than `extra`. */
  lemma SeedFilesMembers(seedname: string, inStructure: bool, s: string, kind: string)
    ensures PerSeed(s, kind) in SeedFiles(seedname, inStructure) <==>
      s == seedname && (CommonKind(kind) || ((kind == ".seedtext" || kind == ".sources") && s != "extra" && inStructure))
  {
  }

  /** A per-seed file is written exactly for a seed of the loop, with a
      common kind for every one of them and `.seedtext` or `.sources` only
      when the seed is in the structure and is not `extra`. */
  lemma {:induction false} FilesForMembers(order: seq<string>, seeds: set<string>, s: string, kind: string)
    ensures PerSeed(s, kind) in FilesFor(order, seeds) <==>
      s in order && (CommonKind(kind) || ((kind == ".seedtext" || kind == ".sources") && s != "extra" && s in seeds))
  {
    if order != [] {
      var init := order[..|order| - 1];
      var last := order[|order| - 1];
      FilesForMembers(init, seeds, s, kind);
      SeedFilesMembers(last, last in seeds, s, kind);
      InitLast(order);
      assert s in order <==> s in init || s == last;
    }
  }

  /** The seed loop writes only per-seed files. */
  lemma {:induction false} FilesForPerSeed(order: seq<string>, seeds: set<string>)
    ensures forall f :: f in FilesFor(order, seeds) ==> f.PerSeed?
  {
    if order != [] {
      FilesForPerSeed(order[..|order| - 1], seeds);
    }
  }

  /** The reverse-dependency files come in pairs, one pair per package
      in the order given: the list `rdepends/SOURCE/PKG`, then its link. */
  lemma {:induction false} RdependsFilesLayout(all: seq<PackageSource>)
    ensures |RdependsFiles(all)| == 2 * |all|
    ensures forall k :: 0 <= k < |all| ==>
      RdependsFiles(all)[2 * k] == Rdepends(all[k].source, all[k].pkg)
      && RdependsFiles(all)[2 * k + 1] == RdependsLink(all[k].pkg, all[k].source)
  {
    if all != [] {
      var init := all[..|all| - 1];
      RdependsFilesLayout(init);
      forall k | 0 <= k < |all|
        ensures RdependsFiles(all)[2 * k] == Rdepends(all[k].source, all[k].pkg)
        ensures RdependsFiles(all)[2 * k + 1] == RdependsLink(all[k].pkg, all[k].source)
      {
        if k < |init| {
          assert all[k] == init[k];
        }
      }
    }
  }

  /** A package gets a reverse-dependency list and a link exactly when
      it is one of the packages given, under its own source; nothing
      else is written there. */
  lemma {:induction false} RdependsFilesMembers(all: seq<PackageSource>, pkg: string, source: string)
    ensures Rdepends(source, pkg) in RdependsFiles(all) <==> PackageSource(pkg, source) in all
    ensures RdependsLink(pkg, source) in RdependsFiles(all) <==> PackageSource(pkg, source) in all
    ensures forall f :: f in RdependsFiles(all) ==> f.Rdepends? || f.RdependsLink?
  {
    if all != [] {
      var init := all[..|all| - 1];
      RdependsFilesMembers(init, pkg, source);
      InitLast(all);
      assert PackageSource(pkg, source) in all <==> PackageSource(pkg, source) in init || PackageSource(pkg, source) == all[|all| - 1];
    }
  }

  /** The files `main` writes: the per-seed files of the loop, the
      whole-run lists with the blacklist, and the reverse-dependency
      files of exactly the packages given when they are wanted. */
  lemma OutputFilesMembers(names: seq<string>, seeds: set<string>, supported: Option<string>,
                           rdepends: Option<seq<PackageSource>>, s: string, kind: string, n: string)
    ensures PerSeed(s, kind) in OutputFiles(names, seeds, supported, rdepends) <==>
      (s in names || s == "extra")
      && (CommonKind(kind) || ((kind == ".seedtext" || kind == ".sources") && s != "extra" && s in seeds))
    ensures Whole(n) in OutputFiles(names, seeds, supported, rdepends) <==>
      n in WholeNames(supported) || n == "blacklisted"
    ensures Rdepends(s, n) in OutputFiles(names, seeds, supported, rdepends) <==>
      rdepends.Some? && PackageSource(n, s) in rdepends.value
    ensures RdependsLink(n, s) in OutputFiles(names, seeds, supported, rdepends) <==>
      rdepends.Some? && PackageSource(n, s) in rdepends.value
  {
    FilesForPerSeed(names + ["extra"], seeds);
    WholeFilesMembers(supported);
    if rdepends.Some? {
      RdependsFilesMembers(rdepends.value, n, s);
    }
    OutputPerSeed(names, seeds, supported, rdepends, s, kind);
    OutputFilesIn(names, seeds, supported, rdepends, Whole(n));
    OutputFilesIn(names, seeds, supported, rdepends, Rdepends(s, n));
    OutputFilesIn(names, seeds, supported, rdepends, RdependsLink(n, s));
  }

  /** The names of the whole-run lists before the blacklist. */
  function WholeNames(supported: Option<string>): set<string> {
    var bd := PkgDiff.BuildDependsSeed(supported);
    {"all", "all.sources", bd, bd + ".sources", "all+extra", "all+extra.sources", "provides", "structure", "structure.dot"}
  }

  lemma WholeFilesMembers(supported: Option<string>)
    ensures forall f :: f in WholeFiles(supported) <==> f.Whole? && f.name in WholeNames(supported)
  {
  }

  lemma OutputPerSeed(names: seq<string>, seeds: set<string>, supported: Option<string>,
                      rdepends: Option<seq<PackageSource>>, s: string, kind: string)
    ensures PerSeed(s, kind) in OutputFiles(names, seeds, supported, rdepends) <==>
      (s in names || s == "extra")
      && (CommonKind(kind) || ((kind == ".seedtext" || kind == ".sources") && s != "extra" && s in seeds))
  {
    FilesForMembers(names + ["extra"], seeds, s, kind);
    assert s in names + ["extra"] <==> s in names || s == "extra";
    WholeFilesMembers(supported);
    if rdepends.Some? {
      RdependsFilesMembers(rdepends.value, "", "");
    }
    OutputFilesIn(names, seeds, supported, rdepends, PerSeed(s, kind));
  }

  /** A file is written by one of the four parts of `OutputFiles`. */
  lemma OutputFilesIn(names: seq<string>, seeds: set<string>, supported: Option<string>,
                      rdepends: Option<seq<PackageSource>>, f: OutFile)
    ensures f in OutputFiles(names, seeds, supported, rdepends) <==>
      f in FilesFor(names + ["extra"], seeds) || f in WholeFiles(supported)
      || (rdepends.Some? && f in RdependsFiles(rdepends.value)) || f == Whole("blacklisted")
  {
  }

  /** The output loop at the end of `main`, listing what it writes. */
  method WriteOutputs(names: seq<string>, seeds: set<string>, supported: Option<string>,
                      rdepends: Option<seq<PackageSource>>) returns (files: seq<OutFile>)
    ensures files == OutputFiles(names, seeds, supported, rdepends)
  {
    var order := names + ["extra"];
    files := [];
    var i := 0;
    while i < |order|
      invariant 0 <= i <= |order|
      invariant files == FilesFor(order[..i], seeds)
    {
      var seedname := order[i];
      ghost var before := files;
      files := files + [PerSeed(seedname, ""), PerSeed(seedname, ".seed"), PerSeed(seedname, ".seed-recommends"),
                        PerSeed(seedname, ".depends"), PerSeed(seedname, ".build-depends")];
      if seedname != "extra" && seedname in seeds {
        files := files + [PerSeed(seedname, ".seedtext"), PerSeed(seedname, ".sources")];
      }
      files := files + [PerSeed(seedname, ".build-sources")];
      SeedFilesWritten(before, seedname, seedname in seeds);
      FilesForStep(order, i, seeds);
      i := i + 1;
    }
    TakeAll(order);
    ghost var loopFiles := files;
    var bd := PkgDiff.BuildDependsSeed(supported);
    files := files + [Whole("all"), Whole("all.sources")];
    files := files + [Whole(bd), Whole(bd + ".sources")];
    files := files + [Whole("all+extra"), Whole("all+extra.sources")];
    files := files + [Whole("provides")];
    files := files + [Whole("structure"), Whole("structure.dot")];
    WholeFilesWritten(loopFiles, supported);
    if rdepends.Some? {
      var all := rdepends.value;
      ghost var wholeFiles := files;
      var j := 0;
      while j < |all|
        invariant 0 <= j <= |all|
        invariant files == wholeFiles + RdependsFiles(all[..j])
      {
        var ps := all[j];
        files := files + [Rdepends(ps.source, ps.pkg)];
        files := files + [RdependsLink(ps.pkg, ps.source)];
        RdependsWritten(wholeFiles, all, j);
        j := j + 1;
      }
      TakeAll(all);
    }
    files := files + [Whole("blacklisted")];
  }

  /** One pass of the reverse-dependency loop adds the next package's
      pair of files. */
  lemma RdependsWritten(before: seq<OutFile>, all: seq<PackageSource>, j: nat)
    requires j < |all|
    ensures ((before + RdependsFiles(all[..j])) + [Rdepends(all[j].source, all[j].pkg)]) + [RdependsLink(all[j].pkg, all[j].source)]
      == before + RdependsFiles(all[..j + 1])
  {
    TakeOneMore(all, j);
  }

  /** The appends of one pass of the seed loop add `SeedFiles`. */
  lemma SeedFilesWritten(before: seq<OutFile>, s: string, inStructure: bool)
    ensures var common := [PerSeed(s, ""), PerSeed(s, ".seed"), PerSeed(s, ".seed-recommends"),
                           PerSeed(s, ".depends"), PerSeed(s, ".build-depends")];
      var last := [PerSeed(s, ".build-sources")];
      && (s != "extra" && inStructure ==>
            ((before + common) + [PerSeed(s, ".seedtext"), PerSeed(s, ".sources")]) + last == before + SeedFiles(s, inStructure))
      && (!(s != "extra" && inStructure) ==> (before + common) + last == before + SeedFiles(s, inStructure))
  {
  }

  lemma FilesForStep(order: seq<string>, i: nat, seeds: set<string>)
    requires i < |order|
    ensures FilesFor(order[..i + 1], seeds) == FilesFor(order[..i], seeds) + SeedFiles(order[i], order[i] in seeds)
  {
    TakeOneMore(order, i);
  }

  /** The appends after the seed loop add `WholeFiles`. */
  lemma WholeFilesWritten(loopFiles: seq<OutFile>, supported: Option<string>)
    ensures var bd := PkgDiff.BuildDependsSeed(supported);
      ((((loopFiles + [Whole("all"), Whole("all.sources")]) + [Whole(bd), Whole(bd + ".sources")])
        + [Whole("all+extra"), Whole("all+extra.sources")]) + [Whole("provides")])
        + [Whole("structure"), Whole("structure.dot")]
      == loopFiles + WholeFiles(supported)
  {
  }
}
