/** The package-list rules of germinate/scripts/germinate_update_metapackage.py:
    the metapackage source name, the archive each architecture is read
    from, which seeds and which metapackage name a seed maps to, and which
    packages go into the depends and recommends lists. */
module Metapackage {
  import opened Wrappers
  import opened Text
  import opened Lists

  /** The `Source:` field of `debian/control`, read line by line: the
      first line starting `Source:` gives it, stripped; an empty line
      ends the search. */
  function SourceField(lines: seq<string>): Option<string> {
    if lines == [] then None
    else if StartsWith(lines[0], "Source:") then Some(Strip(lines[0][7..]))
    else if lines[0] == "" then None
    else SourceField(lines[1..])
  }

  /** Line `i` is the first line starting `Source:`, and no empty line
      comes before it. */
  predicate SourceAt(lines: seq<string>, i: int) {
    0 <= i < |lines| && StartsWith(lines[i], "Source:")
    && forall k :: 0 <= k < i ==> !StartsWith(lines[k], "Source:") && lines[k] != ""
  }

  /** The field is found exactly when some line is `SourceAt`, and then
      it is that line's value. */
  lemma {:induction false} SourceFieldFirst(lines: seq<string>)
    ensures SourceField(lines).Some? <==> exists i :: SourceAt(lines, i)
    ensures forall i :: SourceAt(lines, i) ==> SourceField(lines) == Some(Strip(lines[i][7..]))
  {
    if lines != [] {
      var tail := lines[1..];
      SourceFieldFirst(tail);
      forall i | 0 < i < |lines| && !StartsWith(lines[0], "Source:") && lines[0] != ""
        ensures SourceAt(lines, i) <==> SourceAt(tail, i - 1)
      {
        assert lines[i] == tail[i - 1];
        assert forall k :: 0 < k < i ==> lines[k] == tail[k - 1];
      }
      if !StartsWith(lines[0], "Source:") && lines[0] != "" {
        if SourceField(lines).Some? {
          var j :| SourceAt(tail, j);
          assert SourceAt(lines, j + 1);
        }
      } else {
        assert forall i :: SourceAt(lines, i) ==> i == 0;
        if StartsWith(lines[0], "Source:") {
          assert SourceAt(lines, 0);
        }
      }
    }
  }

  /** The lines a file yields are never empty, since each keeps its
      newline (`LinesOf` ensures as much), so the empty-line stop never
      fires on them: the field is found exactly when some line starts
      `Source:`, and it is the first such line's value, however many
      blank lines come before it. */
  lemma {:induction false} SourceFieldOfFileLines(lines: seq<string>)
    requires forall i :: 0 <= i < |lines| ==> lines[i] != []
    ensures SourceField(lines).Some? <==> exists i :: 0 <= i < |lines| && StartsWith(lines[i], "Source:")
    ensures forall i ::
      (0 <= i < |lines| && StartsWith(lines[i], "Source:") && forall k :: 0 <= k < i ==> !StartsWith(lines[k], "Source:"))
      ==> SourceField(lines) == Some(Strip(lines[i][7..]))
  {
    SourceFieldFirst(lines);
    if lines != [] && !StartsWith(lines[0], "Source:") {
      var tail := lines[1..];
      SourceFieldOfFileLines(tail);
      if exists i :: 0 <= i < |lines| && StartsWith(lines[i], "Source:") {
        var i :| 0 <= i < |lines| && StartsWith(lines[i], "Source:");
        assert StartsWith(tail[i - 1], "Source:");
      }
    }
  }

  /** The loop of `main` over `debian/control`. */
  method FindSource(lines: seq<string>) returns (r: Option<string>)
    ensures r == SourceField(lines)
  {
    r := None;
    var i := 0;
    while i < |lines|
      invariant 0 <= i <= |lines|
      invariant SourceField(lines) == SourceField(lines[i..])
    {
      DropOne(lines, i);
      var line := lines[i];
      if StartsWith(line, "Source:") {
        r := Some(Strip(line[7..]));
        break;
      } else if line == "" {
        break;
      }
      i := i + 1;
    }
    if i == |lines| {
      assert lines[i..] == [];
    }
  }

  /** The metapackage prefix: the source name without its `-meta`
      suffix; the script stops when there is no source name or it does
      not end in `-meta`. */
  function MetapackagePrefix(lines: seq<string>): (r: Result<string>)
    ensures r.Ok? <==> SourceField(lines).Some? && EndsWith(SourceField(lines).value, "-meta")
    ensures r.Ok? ==> SourceField(lines) == Some(r.value + "-meta")
    ensures SourceField(lines).None? ==> r == Err("cannot find Source: in debian/control")
    ensures SourceField(lines).Some? && !EndsWith(SourceField(lines).value, "-meta") ==>
      r == Err("source package name must be *-meta")
  {
    match SourceField(lines)
    case None => Err("cannot find Source: in debian/control")
    case Some(name) =>
      if !EndsWith(name, "-meta") then Err("source package name must be *-meta")
      else
        assert name == name[..|name| - 5] + "-meta";
        Ok(name[..|name| - 5])
  }

  /** The archive bases of architecture `arch`, from the options of the
      distribution's section: `archive_base/<arch>` if set, else
      `archive_base/default`, split at runs of commas and spaces. */
  function ArchiveBaseFor(section: map<string, string>, arch: string): Option<seq<string>> {
    if "archive_base/" + arch in section then Some(SplitRuns(section["archive_base/" + arch]))
    else if "archive_base/default" in section then Some(SplitRuns(section["archive_base/default"]))
    else None
  }

  /** The loop of `main` that fills `archive_base`: every architecture gets
      its bases, or the script stops at the first one that has none. */
  method ArchiveBases(section: map<string, string>, architectures: seq<string>)
    returns (r: Result<map<string, seq<string>>>)
    ensures r.Ok? <==> forall a :: a in architectures ==> ArchiveBaseFor(section, a).Some?
    ensures r.Ok? ==> r.value.Keys == Elements(architectures)
    ensures r.Ok? ==> forall a :: a in r.value ==> ArchiveBaseFor(section, a) == Some(r.value[a])
    ensures r.Err? ==>
      exists i :: (0 <= i < |architectures| && ArchiveBaseFor(section, architectures[i]).None?
        && r.msg == "no archive_base configured for " + architectures[i]
        && forall k :: 0 <= k < i ==> ArchiveBaseFor(section, architectures[k]).Some?)
  {
    var default: Option<seq<string>> := None;
    if "archive_base/default" in section {
      default := Some(SplitRuns(section["archive_base/default"]));
    }
    var bases: map<string, seq<string>> := map[];
    var i := 0;
    while i < |architectures|
      invariant 0 <= i <= |architectures|
      invariant bases.Keys == Elements(architectures[..i])
      invariant forall a :: a in bases ==> ArchiveBaseFor(section, a) == Some(bases[a])
      invariant forall k :: 0 <= k < i ==> ArchiveBaseFor(section, architectures[k]).Some?
    {
      var arch := architectures[i];
      assert architectures[..i + 1] == architectures[..i] + [arch];
      if "archive_base/" + arch in section {
        bases := bases[arch := SplitRuns(section["archive_base/" + arch])];
      } else if default.Some? {
        bases := bases[arch := default.value];
      } else {
        assert ArchiveBaseFor(section, arch).None? && arch in architectures;
        return Err("no archive_base configured for " + arch);
      }
      i := i + 1;
    }
    assert architectures[..i] == architectures;
    r := Ok(bases);
  }

  /** The text after a `header` that starts `line` (in any ASCII case):
      the regular expression `^<header>\s*(.*)`, whose group is what
      follows the leading white space up to the end of the line. */
  function HeaderValue(line: string, header: string): Option<string> {
    if StartsWithNoCase(line, header) then
      var rest := LStrip(line[|header|..]);
      Some(rest[..LineEnd(rest)])
    else None
  }

  /** Index of the first newline of `s`, or `|s|`. */
  function LineEnd(s: string): (n: nat)
    ensures n <= |s|
    ensures n < |s| ==> s[n] == '\n'
    ensures forall k :: 0 <= k < n ==> s[k] != '\n'
  {
    if s == [] || s[0] == '\n' then 0 else 1 + LineEnd(s[1..])
  }

  /** The value of the first line of a seed that carries `header`. */
  function FirstHeader(lines: seq<string>, header: string): Option<string> {
    if lines == [] then None
    else if HeaderValue(lines[0], header).Some? then HeaderValue(lines[0], header)
    else FirstHeader(lines[1..], header)
  }

  lemma {:induction false} FirstHeaderIsFirst(lines: seq<string>, header: string)
    ensures FirstHeader(lines, header).None? ==> forall i :: 0 <= i < |lines| ==> HeaderValue(lines[i], header).None?
    ensures FirstHeader(lines, header).Some? ==>
      exists i :: (0 <= i < |lines| && FirstHeader(lines, header) == HeaderValue(lines[i], header)
        && forall k :: 0 <= k < i ==> HeaderValue(lines[k], header).None?)
  {
    if lines != [] {
      var tail := lines[1..];
      FirstHeaderIsFirst(tail, header);
      assert forall i :: 0 < i < |lines| ==> lines[i] == tail[i - 1];
      if HeaderValue(lines[0], header).None? && FirstHeader(lines, header).Some? {
        var j :| 0 <= j < |tail| && FirstHeader(tail, header) == HeaderValue(tail[j], header)
          && forall k :: 0 <= k < j ==> HeaderValue(tail[k], header).None?;
        assert forall k :: 0 < k < j + 1 ==> lines[k] == tail[k - 1];
        assert FirstHeader(lines, header) == HeaderValue(lines[j + 1], header);
      }
    }
  }

  /** The seeds whose packages make up `seed`'s list: the `seed_map/<seed>`
      option split into words if configured, else the words of the seed's
      first `Task-Seeds:` line (none if it has none) with the seed itself
      appended when missing. */
  function MappedSeeds(seedMap: Option<string>, seedText: string, seed: string): seq<string> {
    if seedMap.Some? then Words(seedMap.value)
    else
      var task := FirstHeader(LinesOf(seedText), "Task-Seeds:");
      AppendNew(if task.Some? then Words(task.value) else [], seed)
  }

  /** Without a configured map the seed's own packages are always taken. */
  lemma OwnSeedMapped(seedText: string, seed: string)
    ensures seed in MappedSeeds(None, seedText, seed)
  {
  }

  /** The packages of `seeds` in order, as `entries` gives them. */
  function PackagesOf(seeds: seq<string>, entries: string -> seq<string>): seq<string> {
    if seeds == [] then [] else PackagesOf(seeds[..|seeds| - 1], entries) + entries(seeds[|seeds| - 1])
  }

  lemma {:induction false} PackagesOfMembers(seeds: seq<string>, entries: string -> seq<string>)
    ensures forall p :: p in PackagesOf(seeds, entries) <==> exists s :: s in seeds && p in entries(s)
  {
    if seeds != [] {
      var init := seeds[..|seeds| - 1];
      PackagesOfMembers(init, entries);
      InitLast(seeds);
      assert forall s :: s in seeds <==> s in init || s == seeds[|seeds| - 1];
    }
  }

  /** `seed_packages`: the packages `entries` (the germinator's list for a
      seed) gives for each mapped seed, concatenated in order. */
  method SeedPackages(seedMap: Option<string>, seedText: string, seed: string, entries: string -> seq<string>)
    returns (packages: seq<string>)
    ensures packages == PackagesOf(MappedSeeds(seedMap, seedText, seed), entries)
  {
    var mapped := MappedSeeds(seedMap, seedText, seed);
    packages := [];
    var i := 0;
    while i < |mapped|
      invariant 0 <= i <= |mapped|
      invariant packages == PackagesOf(mapped[..i], entries)
    {
      TakeOneMore(mapped, i);
      packages := packages + entries(mapped[i]);
      i := i + 1;
    }
    assert mapped[..i] == mapped;
  }

  /** `metapackage_name`: the configured `metapackage_map/<seed>`, else
      the value of the seed's first `Task-Metapackage:` line, else
      `<metapackage>-<seed>`. */
  function MetapackageName(metaMap: Option<string>, seedText: string, metapackage: string, seed: string): (r: string)
    ensures metaMap.Some? ==> r == metaMap.value
    ensures metaMap.None? && FirstHeader(LinesOf(seedText), "Task-Metapackage:").Some? ==>
      r == FirstHeader(LinesOf(seedText), "Task-Metapackage:").value
    ensures metaMap.None? && FirstHeader(LinesOf(seedText), "Task-Metapackage:").None? ==>
      |r| == |metapackage| + 1 + |seed| && r[..|metapackage|] == metapackage && r[|metapackage|] == '-'
      && r[|metapackage| + 1..] == seed
  {
    if metaMap.Some? then metaMap.value
    else
      var task := FirstHeader(LinesOf(seedText), "Task-Metapackage:");
      if task.Some? then task.value else metapackage + "-" + seed
  }

  /** Whether the depends list keeps `package`: not the metapackage
      itself, in the debootstrap base when the seed is `minimal`, and not
      essential. */
  predicate KeepDepend(package: string, metaName: string, seed: string, debootstrap: set<string>, essential: string -> bool) {
    package != metaName && !(seed == "minimal" && package !in debootstrap) && !essential(package)
  }

  /** Whether the recommends list keeps `package`: the depends rule
      without the essential test. */
  predicate KeepRecommend(package: string, metaName: string, seed: string, debootstrap: set<string>) {
    package != metaName && !(seed == "minimal" && package !in debootstrap)
  }

  function Depends(packages: seq<string>, metaName: string, seed: string, debootstrap: set<string>, essential: string -> bool): seq<string> {
    if packages == [] then []
    else
      var p := packages[|packages| - 1];
      Depends(packages[..|packages| - 1], metaName, seed, debootstrap, essential)
        + (if KeepDepend(p, metaName, seed, debootstrap, essential) then [p] else [])
  }

  function Recommends(packages: seq<string>, metaName: string, seed: string, debootstrap: set<string>): seq<string> {
    if packages == [] then []
    else
      var p := packages[|packages| - 1];
      Recommends(packages[..|packages| - 1], metaName, seed, debootstrap)
        + (if KeepRecommend(p, metaName, seed, debootstrap) then [p] else [])
  }

  lemma {:induction false} DependsMembers(packages: seq<string>, metaName: string, seed: string, debootstrap: set<string>, essential: string -> bool)
    ensures forall p :: p in Depends(packages, metaName, seed, debootstrap, essential) <==>
      p in packages && KeepDepend(p, metaName, seed, debootstrap, essential)
  {
    if packages != [] {
      DependsMembers(packages[..|packages| - 1], metaName, seed, debootstrap, essential);
      InitLast(packages);
      assert forall p :: p in packages <==> p in packages[..|packages| - 1] || p == packages[|packages| - 1];
    }
  }

  lemma {:induction false} RecommendsMembers(packages: seq<string>, metaName: string, seed: string, debootstrap: set<string>)
    ensures forall p :: p in Recommends(packages, metaName, seed, debootstrap) <==>
      p in packages && KeepRecommend(p, metaName, seed, debootstrap)
  {
    if packages != [] {
      RecommendsMembers(packages[..|packages| - 1], metaName, seed, debootstrap);
      InitLast(packages);
      assert forall p :: p in packages <==> p in packages[..|packages| - 1] || p == packages[|packages| - 1];
    }
  }

  /** The depends rule is the recommends rule plus the essential test:
      on the same packages, the depends list is the recommends list
      without the essential packages. */
  lemma {:induction false} DependsAreNonEssentialRecommends(packages: seq<string>, metaName: string, seed: string, debootstrap: set<string>, essential: string -> bool)
    ensures Depends(packages, metaName, seed, debootstrap, essential)
      == Filter(Recommends(packages, metaName, seed, debootstrap), p => !essential(p))
  {
    if packages != [] {
      var init := packages[..|packages| - 1];
      DependsAreNonEssentialRecommends(init, metaName, seed, debootstrap, essential);
      var rec := Recommends(init, metaName, seed, debootstrap);
      var p := packages[|packages| - 1];
      if KeepRecommend(p, metaName, seed, debootstrap) {
        assert (rec + [p])[..|rec + [p]| - 1] == rec;
      } else {
        assert Recommends(packages, metaName, seed, debootstrap) == rec;
      }
    }
  }

  /** The depends loop of `main`: keep the packages the rule keeps, in
      order, then sort them. */
  method NewDepends(packages: seq<string>, metaName: string, seed: string, debootstrap: set<string>, essential: string -> bool)
    returns (r: seq<string>)
    ensures r == Sort(Depends(packages, metaName, seed, debootstrap, essential))
  {
    var list := [];
    var i := 0;
    while i < |packages|
      invariant 0 <= i <= |packages|
      invariant list == Depends(packages[..i], metaName, seed, debootstrap, essential)
    {
      var package := packages[i];
      TakeOneMore(packages, i);
      if package == metaName {
      } else if seed == "minimal" && package !in debootstrap {
      } else if essential(package) {
      } else {
        list := list + [package];
      }
      i := i + 1;
    }
    assert packages[..i] == packages;
    r := Sort(list);
  }

  /** The recommends loop of `main`. */
  method NewRecommends(packages: seq<string>, metaName: string, seed: string, debootstrap: set<string>)
    returns (r: seq<string>)
    ensures r == Sort(Recommends(packages, metaName, seed, debootstrap))
  {
    var list := [];
    var i := 0;
    while i < |packages|
      invariant 0 <= i <= |packages|
      invariant list == Recommends(packages[..i], metaName, seed, debootstrap)
    {
      var package := packages[i];
      TakeOneMore(packages, i);
      if package == metaName {
        i := i + 1;
        continue;
      }
      if seed == "minimal" && package !in debootstrap {
      } else {
        list := list + [package];
      }
      i := i + 1;
    }
    assert packages[..i] == packages;
    r := Sort(list);
  }

  /** The depends list is sorted and holds exactly the packages of
      `packages` that the rule keeps. */
  lemma NewDependsMeaning(packages: seq<string>, metaName: string, seed: string, debootstrap: set<string>, essential: string -> bool)
    ensures var r := Sort(Depends(packages, metaName, seed, debootstrap, essential));
      Sorted(r) && forall p :: p in r <==> p in packages && KeepDepend(p, metaName, seed, debootstrap, essential)
  {
    var d := Depends(packages, metaName, seed, debootstrap, essential);
    DependsMembers(packages, metaName, seed, debootstrap, essential);
    assert forall p :: p in Sort(d) <==> p in multiset(Sort(d));
    assert forall p :: p in d <==> p in multiset(d);
  }
}
