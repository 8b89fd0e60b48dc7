/** Single seeds of a collection (germinate/seeds.py, classes `SeedVcs`,
    `Seed` and `CustomSeed`): how a seed is located among the seed bases
    and branches, which version control system fetches it, and how seeds
    compare. Fetching itself (bzr/git checkouts, HTTP, files) is an oracle. */
module Seeds {
  import opened Wrappers
  import opened Text
  import opened Lists

  /** `SeedVcs.AUTO`, `SeedVcs.BZR`, `SeedVcs.GIT`; "no VCS" is `None`. */
  datatype Vcs = Auto | Bzr | Git

  /** The three ways `_open_seed` can fetch a seed file. */
  datatype Transport = ByUrl | ByGit | ByBzr

  /** What one fetch attempt gives: the file's text, a `SeedError` (a failed
      checkout), or an `OSError`/`IOError`/`URLError` (a missing file). */
  datatype Fetched = Fetched(text: string) | SeedFailure | IoFailure

  /** The outside world: fetching file `name` of `branch` under `base`. */
  type Fetcher = (Transport, string, string, string) -> Fetched

  /** A seed read from a collection; `base` and `branch` are `None` for a
      custom seed. */
  datatype Seed = Seed(name: string, base: Option<string>, branch: Option<string>, text: string)

  /** Default seed locations (germinate/defaults.py). */
  const DefaultSeeds := "http://people.canonical.com/~ubuntu-archive/seeds/"
  const DefaultSeedsBzr := "http://bazaar.launchpad.net/~ubuntu-core-dev/ubuntu-seeds/"
  const DefaultSeedsGit := "git://git.launchpad.net/~ubuntu-core-dev/ubuntu-seeds/+git/"

  /** The default seed source for a VCS choice: plain URLs without a VCS,
      the git location for git, the bzr location otherwise. */
  function DefaultSeedSource(vcs: Option<Vcs>): (r: string)
    ensures vcs.None? ==> r == DefaultSeeds
    ensures vcs == Some(Git) ==> r == DefaultSeedsGit
    ensures vcs.Some? && vcs.value != Git ==> r == DefaultSeedsBzr
  {
    match vcs
    case None => DefaultSeeds
    case Some(Git) => DefaultSeedsGit
    case Some(_) => DefaultSeedsBzr
  }

  /** The auto-sensing of `_open_seed`: a base starting with "git" means
      git, one starting with "bzr" means bzr, anything else stays `Auto`. */
  function ResolveVcs(base: string, vcs: Vcs): (r: Vcs)
    ensures vcs != Auto ==> r == vcs
    ensures vcs == Auto ==> (r == Git <==> StartsWith(base, "git"))
    ensures vcs == Auto ==> (r == Bzr <==> !StartsWith(base, "git") && StartsWith(base, "bzr"))
  {
    if vcs == Auto && StartsWith(base, "git") then Git
    else if vcs == Auto && StartsWith(base, "bzr") then Bzr
    else vcs
  }

  /** `Seed._open_seed`: no VCS fetches by URL; an undetermined `Auto`
      tries git and falls back to bzr only when git fails with a
      `SeedError`; otherwise the resolved VCS is used. */
  function OpenSeed(fetch: Fetcher, base: string, branch: string, name: string, vcs: Option<Vcs>): Fetched
  {
    match vcs
    case None => fetch(ByUrl, base, branch, name)
    case Some(v) =>
      var resolved := ResolveVcs(base, v);
      if resolved == Auto then
        var viaGit := fetch(ByGit, base, branch, name);
        if viaGit.SeedFailure? then fetch(ByBzr, base, branch, name) else viaGit
      else if resolved == Git then fetch(ByGit, base, branch, name)
      else fetch(ByBzr, base, branch, name)
  }

  /** No VCS fetches by URL; an explicit or sensed git fetches by git, and
      an explicit or sensed bzr by bzr; an undetermined `Auto` fetches by
      git and falls back to bzr exactly when git fails with a `SeedError`.
      The only way `OpenSeed` reaches bzr is one of those. */
  lemma OpenSeedTransports(fetch: Fetcher, base: string, branch: string, name: string, vcs: Option<Vcs>)
    ensures vcs.None? ==> OpenSeed(fetch, base, branch, name, vcs) == fetch(ByUrl, base, branch, name)
    ensures vcs.Some? && OpenSeed(fetch, base, branch, name, vcs) != fetch(ByGit, base, branch, name)
            ==> OpenSeed(fetch, base, branch, name, vcs) == fetch(ByBzr, base, branch, name)
    ensures vcs == Some(Bzr) || (vcs == Some(Auto) && StartsWith(base, "bzr") && !StartsWith(base, "git"))
            ==> OpenSeed(fetch, base, branch, name, vcs) == fetch(ByBzr, base, branch, name)
    ensures vcs == Some(Git) || (vcs == Some(Auto) && StartsWith(base, "git"))
            ==> OpenSeed(fetch, base, branch, name, vcs) == fetch(ByGit, base, branch, name)
    ensures vcs == Some(Auto) && !StartsWith(base, "git") && !StartsWith(base, "bzr")
            && !fetch(ByGit, base, branch, name).SeedFailure?
            ==> OpenSeed(fetch, base, branch, name, vcs) == fetch(ByGit, base, branch, name)
    ensures vcs == Some(Auto) && !StartsWith(base, "git") && !StartsWith(base, "bzr")
            && fetch(ByGit, base, branch, name).SeedFailure?
            ==> OpenSeed(fetch, base, branch, name, vcs) == fetch(ByBzr, base, branch, name)
  {
  }

  /** `branch.rsplit('.', 1)` as `_open_seed_git` reads a branch: the part
      after the last dot names the git branch, the rest the repository. */
  function GitBranchSplit(branch: string): (r: (string, Option<string>))
    ensures r.1.None? ==> '.' !in branch && r.0 == branch
    ensures r.1.Some? ==> r.0 + "." + r.1.value == branch && '.' !in r.1.value
  {
    if branch == [] then (branch, None)
    else if branch[|branch| - 1] == '.' then (branch[..|branch| - 1], Some(""))
    else
      var (repository, gitBranch) := GitBranchSplit(branch[..|branch| - 1]);
      var last := branch[|branch| - 1];
      assert branch == branch[..|branch| - 1] + [last];
      match gitBranch
      case None => (branch, None)
      case Some(b) => (repository, Some(b + [last]))
  }

  /** The first (base, branch) pair, bases outermost, whose seed `name`
      can be fetched, searching `branches` under one base. */
  function FirstInBranches(fetch: Fetcher, base: string, branches: seq<string>, name: string, vcs: Option<Vcs>): Option<Seed>
  {
    if branches == [] then None
    else match OpenSeed(fetch, base, branches[0], name, vcs)
      case Fetched(text) => Some(Seed(name, Some(base), Some(branches[0]), text))
      case _ => FirstInBranches(fetch, base, branches[1..], name, vcs)
  }

  /** What `Seed(bases, branches, name, vcs)` finds, or its `SeedError`. */
  function FirstFetched(fetch: Fetcher, bases: seq<string>, branches: seq<string>, name: string, vcs: Option<Vcs>): Result<Seed>
  {
    if bases == [] then Err("Could not open " + name)
    else match FirstInBranches(fetch, bases[0], branches, name, vcs)
      case Some(seed) => Ok(seed)
      case None => FirstFetched(fetch, bases[1..], branches, name, vcs)
  }

  /** The search in one base succeeds exactly when some branch fetches, and
      then gives that branch's text with no earlier branch fetching. */
  lemma {:induction false} FirstInBranchesIsFirst(fetch: Fetcher, base: string, branches: seq<string>, name: string, vcs: Option<Vcs>)
    ensures var r := FirstInBranches(fetch, base, branches, name, vcs);
      (r.Some? <==> exists j :: 0 <= j < |branches| && OpenSeed(fetch, base, branches[j], name, vcs).Fetched?)
      && (r.Some? ==>
            exists j :: (0 <= j < |branches|
              && OpenSeed(fetch, base, branches[j], name, vcs).Fetched?
              && r.value == Seed(name, Some(base), Some(branches[j]), OpenSeed(fetch, base, branches[j], name, vcs).text)
              && forall k :: 0 <= k < j ==> !OpenSeed(fetch, base, branches[k], name, vcs).Fetched?))
  {
    if branches != [] {
      FirstInBranchesIsFirst(fetch, base, branches[1..], name, vcs);
      var r := FirstInBranches(fetch, base, branches, name, vcs);
      if !OpenSeed(fetch, base, branches[0], name, vcs).Fetched? {
        if r.Some? {
          var j :| 0 <= j < |branches[1..]|
            && OpenSeed(fetch, base, branches[1..][j], name, vcs).Fetched?
            && r.value == Seed(name, Some(base), Some(branches[1..][j]), OpenSeed(fetch, base, branches[1..][j], name, vcs).text)
            && forall k :: 0 <= k < j ==> !OpenSeed(fetch, base, branches[1..][k], name, vcs).Fetched?;
          assert forall k :: 0 < k <= j ==> branches[k] == branches[1..][k - 1];
        } else {
          forall j | 0 <= j < |branches| ensures !OpenSeed(fetch, base, branches[j], name, vcs).Fetched? {
            if j > 0 { assert branches[j] == branches[1..][j - 1]; }
          }
        }
      }
    }
  }

  /** `Seed.__init__` fails exactly when no (base, branch) pair fetches; a
      seed it returns comes from one of the given bases and branches and
      carries the text fetched there. */
  lemma {:induction false} FirstFetchedSound(fetch: Fetcher, bases: seq<string>, branches: seq<string>, name: string, vcs: Option<Vcs>)
    ensures var r := FirstFetched(fetch, bases, branches, name, vcs);
      (r.Ok? <==> exists i, j :: 0 <= i < |bases| && 0 <= j < |branches| && OpenSeed(fetch, bases[i], branches[j], name, vcs).Fetched?)
      && (r.Ok? ==>
            (r.value.name == name && r.value.base.Some? && r.value.base.value in bases
            && r.value.branch.Some? && r.value.branch.value in branches
            && OpenSeed(fetch, r.value.base.value, r.value.branch.value, name, vcs) == Fetched(r.value.text)))
      && (r.Err? ==> r.msg == "Could not open " + name)
  {
    if bases != [] {
      FirstFetchedSound(fetch, bases[1..], branches, name, vcs);
      FirstInBranchesIsFirst(fetch, bases[0], branches, name, vcs);
      var r := FirstFetched(fetch, bases, branches, name, vcs);
      if FirstInBranches(fetch, bases[0], branches, name, vcs).None? {
        if r.Ok? {
          var i, j :| 0 <= i < |bases[1..]| && 0 <= j < |branches| && OpenSeed(fetch, bases[1..][i], branches[j], name, vcs).Fetched?;
          assert bases[1..][i] == bases[i + 1];
        } else {
          forall i, j | 0 <= i < |bases| && 0 <= j < |branches|
            ensures !OpenSeed(fetch, bases[i], branches[j], name, vcs).Fetched?
          {
            if i > 0 { assert bases[i] == bases[1..][i - 1]; }
          }
        }
      }
    }
  }

  /** `seed` is what the pair (`bases[i]`, `branches[j]`) fetches, and it is
      the first pair that fetches with bases outermost: no branch fetches
      under an earlier base, and no earlier branch under the same base. */
  ghost predicate FirstPairFetches(fetch: Fetcher, bases: seq<string>, branches: seq<string>, name: string, vcs: Option<Vcs>,
                                   i: int, j: int, seed: Seed)
  {
    && 0 <= i < |bases| && 0 <= j < |branches|
    && OpenSeed(fetch, bases[i], branches[j], name, vcs).Fetched?
    && seed == Seed(name, Some(bases[i]), Some(branches[j]), OpenSeed(fetch, bases[i], branches[j], name, vcs).text)
    && (forall k, l :: 0 <= k < i && 0 <= l < |branches| ==> !OpenSeed(fetch, bases[k], branches[l], name, vcs).Fetched?)
    && (forall l :: 0 <= l < j ==> !OpenSeed(fetch, bases[i], branches[l], name, vcs).Fetched?)
  }

  /** The seed `Seed.__init__` returns comes from the first pair that
      fetches. */
  lemma {:induction false} FirstFetchedIsFirst(fetch: Fetcher, bases: seq<string>, branches: seq<string>, name: string, vcs: Option<Vcs>)
    ensures var r := FirstFetched(fetch, bases, branches, name, vcs);
      r.Ok? ==> exists i, j :: FirstPairFetches(fetch, bases, branches, name, vcs, i, j, r.value)
  {
    if bases != [] {
      FirstInBranchesIsFirst(fetch, bases[0], branches, name, vcs);
      var r := FirstFetched(fetch, bases, branches, name, vcs);
      var first := FirstInBranches(fetch, bases[0], branches, name, vcs);
      if first.Some? {
        var j :| 0 <= j < |branches|
          && OpenSeed(fetch, bases[0], branches[j], name, vcs).Fetched?
          && first.value == Seed(name, Some(bases[0]), Some(branches[j]), OpenSeed(fetch, bases[0], branches[j], name, vcs).text)
          && forall k :: 0 <= k < j ==> !OpenSeed(fetch, bases[0], branches[k], name, vcs).Fetched?;
        assert FirstPairFetches(fetch, bases, branches, name, vcs, 0, j, r.value);
      } else if r.Ok? {
        FirstFetchedIsFirst(fetch, bases[1..], branches, name, vcs);
        var i, j :| FirstPairFetches(fetch, bases[1..], branches, name, vcs, i, j, r.value);
        FirstPairLaterBase(fetch, bases, branches, name, vcs, i, j, r.value);
      }
    }
  }

  /** A first pair among the later bases is a first pair of all of them when
      nothing fetches under the first base. */
  lemma FirstPairLaterBase(fetch: Fetcher, bases: seq<string>, branches: seq<string>, name: string, vcs: Option<Vcs>,
                           i: int, j: int, seed: Seed)
    requires bases != []
    requires forall l :: 0 <= l < |branches| ==> !OpenSeed(fetch, bases[0], branches[l], name, vcs).Fetched?
    requires FirstPairFetches(fetch, bases[1..], branches, name, vcs, i, j, seed)
    ensures FirstPairFetches(fetch, bases, branches, name, vcs, i + 1, j, seed)
  {
    assert bases[1..][i] == bases[i + 1];
    forall k, l | 0 <= k < i + 1 && 0 <= l < |branches|
      ensures !OpenSeed(fetch, bases[k], branches[l], name, vcs).Fetched?
    {
      if k > 0 { assert bases[k] == bases[1..][k - 1]; }
    }
  }

  /** The search loop of `Seed.__init__`: bases outermost, branches inner,
      stopping at the first fetch that succeeds. */
  method LoadSeed(fetch: Fetcher, bases: seq<string>, branches: seq<string>, name: string, vcs: Option<Vcs>)
    returns (r: Result<Seed>)
    ensures r == FirstFetched(fetch, bases, branches, name, vcs)
  {
    var i := 0;
    while i < |bases|
      invariant 0 <= i <= |bases|
      invariant FirstFetched(fetch, bases[i..], branches, name, vcs) == FirstFetched(fetch, bases, branches, name, vcs)
    {
      var j := 0;
      while j < |branches|
        invariant 0 <= j <= |branches|
        invariant FirstInBranches(fetch, bases[i], branches[j..], name, vcs) == FirstInBranches(fetch, bases[i], branches, name, vcs)
      {
        var got := OpenSeed(fetch, bases[i], branches[j], name, vcs);
        if got.Fetched? {
          return Ok(Seed(name, Some(bases[i]), Some(branches[j]), got.text));
        }
        DropOne(branches, j);
        j := j + 1;
      }
      DropOne(bases, i);
      i := i + 1;
    }
    return Err("Could not open " + name);
  }

  /** `CustomSeed(name, entries)`: the entries, one per line. */
  function CustomSeed(name: string, entries: seq<string>): (s: Seed)
    ensures s.name == name && s.base.None? && s.branch.None?
    ensures EndsWith(s.text, "\n")
  {
    Seed(name, None, None, Join(entries, "\n") + "\n")
  }

  /** The entries of a custom seed are its lines: splitting the text at
      newlines gives them back, followed by the empty text after the final
      newline. */
  lemma CustomSeedEntries(name: string, entries: seq<string>)
    requires entries != []
    requires forall i :: 0 <= i < |entries| ==> '\n' !in entries[i]
    ensures SplitOn(CustomSeed(name, entries).text, '\n') == entries + [""]
  {
    JoinSnoc(entries, "", "\n");
    assert Join(entries, "\n") + "\n" + "" == Join(entries, "\n") + "\n";
    JoinSplitOn(entries + [""], '\n');
  }

  /** `Seed.__lt__` and the other comparisons look at the text only. */
  predicate SeedLess(a: Seed, b: Seed) { StrLess(a.text, b.text) }
  predicate SeedEqual(a: Seed, b: Seed) { a.text == b.text }
  predicate SeedLessEqual(a: Seed, b: Seed) { StrLe(a.text, b.text) }

  /** Exactly one of `a < b`, `a == b`, `a > b` holds, whatever the seeds'
      names and origins. */
  lemma SeedTrichotomy(a: Seed, b: Seed)
    ensures SeedLess(a, b) || SeedEqual(a, b) || SeedLess(b, a)
    ensures !(SeedLess(a, b) && SeedEqual(a, b))
    ensures !(SeedLess(a, b) && SeedLess(b, a))
    ensures SeedLessEqual(a, b) <==> !SeedLess(b, a)
  {
    StrLessTotal(a.text, b.text);
    StrLessIrreflexive(a.text);
    if SeedLess(a, b) { StrLessAsymmetric(a.text, b.text); }
    if SeedLess(b, a) { StrLessAsymmetric(b.text, a.text); }
  }

  lemma SeedLessTransitive(a: Seed, b: Seed, c: Seed)
    requires SeedLess(a, b) && SeedLess(b, c)
    ensures SeedLess(a, c)
  {
    StrLessTransitive(a.text, b.text, c.text);
  }
}
