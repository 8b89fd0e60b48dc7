/** germinate/archive.py: the `TagFile` archive description, the URL of
    one index file, and the order in which compressed variants and
    mirrors are tried. Downloading and opening a URL is the oracle
    `canOpen`. */
module Archive {
  import opened Wrappers
  import opened Text
  import opened Lists

  /** A constructor argument given as one string or as a list. */
  datatype StrOrList = Str(s: string) | List(items: seq<string>)

  /** `if isinstance(x, _string_types): x = [x]`. */
  function AsList(v: StrOrList): seq<string> {
    match v
    case Str(s) => [s]
    case List(items) => items
  }

  /** A string becomes the one-element list holding it, so a string and
      the list of that string describe the same thing; lists pass through. */
  lemma AsListFacts(v: StrOrList)
    ensures v.Str? ==> |AsList(v)| == 1 && AsList(v)[0] == v.s
    ensures v.List? ==> AsList(v) == v.items
    ensures AsList(v) == [] ==> v.List?
  {
  }

  /** The three kinds of index file. */
  datatype IndexType = Packages | Sources | InstallerPackages

  /** One index file that was opened, by kind and URL. */
  datatype Index = Index(kind: IndexType, url: string)

  /** The suffixes `_open_tag_files` tries, in order. */
  const Suffixes: seq<string> := [".xz", ".bz2", ".gz", ""]

  /** A mirror with a trailing slash. */
  function WithSlash(mirror: string): string {
    if EndsWith(mirror, "/") then mirror else mirror + "/"
  }

  lemma WithSlashFacts(mirror: string)
    ensures EndsWith(WithSlash(mirror), "/")
    ensures WithSlash(WithSlash(mirror)) == WithSlash(mirror)
    ensures StartsWith(WithSlash(mirror), mirror)
    ensures |WithSlash(mirror)| <= |mirror| + 1
  {
    var w := WithSlash(mirror);
    assert w[..|mirror|] == mirror;
  }

  /** The URL `_open_tag_file` builds. */
  function TagFileUrl(mirror: string, dist: string, component: string, ftppath: string, suffix: string): string {
    WithSlash(mirror) + "dists/" + dist + "/" + component + "/" + ftppath + suffix
  }

  /** The URL starts at the mirror directory and ends with the index path
      and the suffix, with the dist and then the component between them,
      each followed by a slash; a mirror given with or without its slash
      gives the same URL. */
  lemma TagFileUrlFacts(mirror: string, dist: string, component: string, ftppath: string, suffix: string)
    ensures var u := TagFileUrl(mirror, dist, component, ftppath, suffix);
      && StartsWith(u, WithSlash(mirror) + "dists/")
      && EndsWith(u, "/" + ftppath + suffix)
      && TagFileUrl(WithSlash(mirror), dist, component, ftppath, suffix) == u
    ensures var u := TagFileUrl(mirror, dist, component, ftppath, suffix);
      var h := |WithSlash(mirror) + "dists/"|;
      var c := h + |dist| + 1;
      && |u| == c + |component| + 1 + |ftppath| + |suffix|
      && u[h..h + |dist|] == dist && u[h + |dist|] == '/'
      && u[c..c + |component|] == component && u[c + |component|] == '/'
  {
    WithSlashFacts(mirror);
    UrlLayout(WithSlash(mirror) + "dists/", dist, component, ftppath, suffix);
  }

  /** Where the parts of a URL built from `head` lie. */
  lemma UrlLayout(head: string, dist: string, component: string, ftppath: string, suffix: string)
    ensures var u := head + dist + "/" + component + "/" + ftppath + suffix;
      var c := |head| + |dist| + 1;
      && StartsWith(u, head) && EndsWith(u, "/" + ftppath + suffix)
      && |u| == c + |component| + 1 + |ftppath| + |suffix|
      && u[|head|..|head| + |dist|] == dist && u[|head| + |dist|] == '/'
      && u[c..c + |component|] == component && u[c + |component|] == '/'
  {
    var u := head + dist + "/" + component + "/" + ftppath + suffix;
    var tail := "/" + ftppath + suffix;
    var c := |head| + |dist| + 1;
    assert forall k :: 0 <= k < |tail| ==> u[|u| - |tail| + k] == tail[k];
    assert u[|u| - |tail|..] == tail;
    assert u[..|head|] == head;
    assert u[|head|..|head| + |dist|] == dist;
    assert u[c..c + |component|] == component;
  }

  /** The first of `suffixes` whose URL opens. */
  function FirstOpen(canOpen: string -> bool, mirror: string, dist: string, component: string,
                     ftppath: string, suffixes: seq<string>): Option<string>
  {
    if suffixes == [] then None
    else
      var url := TagFileUrl(mirror, dist, component, ftppath, suffixes[0]);
      if canOpen(url) then Some(url) else FirstOpen(canOpen, mirror, dist, component, ftppath, suffixes[1..])
  }

  /** `FirstOpen` gives the URL of the earliest suffix that opens, and
      nothing exactly when no suffix opens. */
  lemma {:induction false} FirstOpenIsFirst(canOpen: string -> bool, mirror: string, dist: string, component: string,
                                            ftppath: string, suffixes: seq<string>)
    ensures var r := FirstOpen(canOpen, mirror, dist, component, ftppath, suffixes);
      && (r.None? <==> forall k :: 0 <= k < |suffixes| ==> !canOpen(TagFileUrl(mirror, dist, component, ftppath, suffixes[k])))
      && (r.Some? ==>
            exists k :: 0 <= k < |suffixes| && r.value == TagFileUrl(mirror, dist, component, ftppath, suffixes[k])
              && canOpen(r.value)
              && forall j :: 0 <= j < k ==> !canOpen(TagFileUrl(mirror, dist, component, ftppath, suffixes[j])))
  {
    if suffixes != [] {
      var rest := suffixes[1..];
      FirstOpenIsFirst(canOpen, mirror, dist, component, ftppath, rest);
      var r := FirstOpen(canOpen, mirror, dist, component, ftppath, suffixes);
      if !canOpen(TagFileUrl(mirror, dist, component, ftppath, suffixes[0])) {
        assert forall k :: 0 < k < |suffixes| ==> suffixes[k] == rest[k - 1];
        if r.Some? {
          var k :| 0 <= k < |rest| && r.value == TagFileUrl(mirror, dist, component, ftppath, rest[k])
            && forall j :: 0 <= j < k ==> !canOpen(TagFileUrl(mirror, dist, component, ftppath, rest[j]));
          assert rest[k] == suffixes[k + 1];
          forall j | 0 <= j < k + 1 ensures !canOpen(TagFileUrl(mirror, dist, component, ftppath, suffixes[j])) {
            if j > 0 {
              assert suffixes[j] == rest[j - 1];
            }
          }
        }
      } else {
        assert r.value == TagFileUrl(mirror, dist, component, ftppath, suffixes[0]);
      }
    }
  }

  /** The files opened for the mirrors: one per mirror where some suffix
      opens, in mirror order. */
  function OpenedFiles(canOpen: string -> bool, mirrors: seq<string>, dist: string, component: string,
                       ftppath: string): seq<string>
  {
    if mirrors == [] then []
    else
      var last := mirrors[|mirrors| - 1];
      OpenedFiles(canOpen, mirrors[..|mirrors| - 1], dist, component, ftppath)
      + match FirstOpen(canOpen, last, dist, component, ftppath, Suffixes)
        case None => []
        case Some(url) => [url]
  }

  /** `_open_tag_files` as a value: the opened files, or the error when no
      mirror has any of them. */
  function TagFiles(canOpen: string -> bool, mirrors: seq<string>, tagfileType: string, dist: string,
                    component: string, ftppath: string): Result<seq<string>>
  {
    var files := OpenedFiles(canOpen, mirrors, dist, component, ftppath);
    if files == [] then Err("no " + tagfileType + " files found") else Ok(files)
  }

  /** At most one file per mirror; no file at all exactly when no mirror
      opens under any suffix. */
  lemma {:induction false} OpenedFilesFacts(canOpen: string -> bool, mirrors: seq<string>, dist: string,
                                            component: string, ftppath: string)
    ensures |OpenedFiles(canOpen, mirrors, dist, component, ftppath)| <= |mirrors|
    ensures OpenedFiles(canOpen, mirrors, dist, component, ftppath) == [] <==>
      forall m, k :: m in mirrors && 0 <= k < |Suffixes| ==> !canOpen(TagFileUrl(m, dist, component, ftppath, Suffixes[k]))
  {
    if mirrors != [] {
      var init := mirrors[..|mirrors| - 1];
      var last := mirrors[|mirrors| - 1];
      OpenedFilesFacts(canOpen, init, dist, component, ftppath);
      FirstOpenIsFirst(canOpen, last, dist, component, ftppath, Suffixes);
      assert mirrors == init + [last];
      var files := OpenedFiles(canOpen, mirrors, dist, component, ftppath);
      var none := OpenedFiles(canOpen, init, dist, component, ftppath) == [] &&
        FirstOpen(canOpen, last, dist, component, ftppath, Suffixes).None?;
      assert files == [] <==> none;
      if none {
        forall m, k | m in mirrors && 0 <= k < |Suffixes|
          ensures !canOpen(TagFileUrl(m, dist, component, ftppath, Suffixes[k]))
        {
          if m != last {
            assert m in init;
          }
        }
      } else if OpenedFiles(canOpen, init, dist, component, ftppath) != [] {
        var m, k :| m in init && 0 <= k < |Suffixes| && canOpen(TagFileUrl(m, dist, component, ftppath, Suffixes[k]));
        assert m in mirrors;
      } else {
        var k :| 0 <= k < |Suffixes| && canOpen(TagFileUrl(last, dist, component, ftppath, Suffixes[k]));
        assert last in mirrors;
      }
    }
  }

  /** The one-mirror body of `_open_tag_files`: the suffixes are tried in
      order and the first that opens ends the search. */
  method OpenFirst(canOpen: string -> bool, mirror: string, dist: string, component: string, ftppath: string)
    returns (tagFile: Option<string>)
    ensures tagFile == FirstOpen(canOpen, mirror, dist, component, ftppath, Suffixes)
  {
    tagFile := None;
    var i := 0;
    while i < |Suffixes|
      invariant 0 <= i <= |Suffixes|
      invariant FirstOpen(canOpen, mirror, dist, component, ftppath, Suffixes)
        == FirstOpen(canOpen, mirror, dist, component, ftppath, Suffixes[i..])
    {
      var url := TagFileUrl(mirror, dist, component, ftppath, Suffixes[i]);
      if canOpen(url) {
        tagFile := Some(url);
        return;
      }
      DropOne(Suffixes, i);
      i := i + 1;
    }
  }

  /** `_open_tag_files`. */
  method OpenTagFiles(canOpen: string -> bool, mirrors: seq<string>, tagfileType: string, dist: string,
                      component: string, ftppath: string) returns (r: Result<seq<string>>)
    ensures r == TagFiles(canOpen, mirrors, tagfileType, dist, component, ftppath)
  {
    var tagFiles := [];
    var i := 0;
    while i < |mirrors|
      invariant 0 <= i <= |mirrors|
      invariant tagFiles == OpenedFiles(canOpen, mirrors[..i], dist, component, ftppath)
    {
      var tagFile := OpenFirst(canOpen, mirrors[i], dist, component, ftppath);
      if tagFile.Some? {
        tagFiles := tagFiles + [tagFile.value];
      }
      TakeOneMore(mirrors, i);
      i := i + 1;
    }
    TakeAll(mirrors);
    if |tagFiles| == 0 {
      return Err("no " + tagfileType + " files found");
    }
    r := Ok(tagFiles);
  }

  /** `TagFile`: where the index files of an archive come from. */
  class TagFile {
    var dists: seq<string>
    var components: seq<string>
    var arch: string
    var mirrors: seq<string>
    var sourceMirrors: seq<string>
    var installerPackages: bool
    var cleanup: bool

    /** `TagFile.__init__`: strings become one-element lists, and without
        (or with empty) source mirrors the mirrors serve sources too. */
    constructor(dists: StrOrList, components: StrOrList, arch: string, mirrors: StrOrList,
                sourceMirrors: Option<StrOrList>, installerPackages: bool, cleanup: bool)
      ensures this.dists == AsList(dists) && this.components == AsList(components)
      ensures this.arch == arch && this.mirrors == AsList(mirrors)
      ensures this.sourceMirrors ==
        if sourceMirrors.Some? && AsList(sourceMirrors.value) != [] then AsList(sourceMirrors.value) else AsList(mirrors)
      ensures this.installerPackages == installerPackages && this.cleanup == cleanup
    {
      this.dists := AsList(dists);
      this.components := AsList(components);
      this.arch := arch;
      this.mirrors := AsList(mirrors);
      this.installerPackages := installerPackages;
      if sourceMirrors.Some? && AsList(sourceMirrors.value) != [] {
        this.sourceMirrors := AsList(sourceMirrors.value);
      } else {
        this.sourceMirrors := AsList(mirrors);
      }
      this.cleanup := cleanup;
    }

    /** The files `sections` reads for one dist and component: the
        Packages files (required), then the Sources files from the source
        mirrors (required), then the installer Packages files when wanted,
        which may be missing. */
    function ComponentYield(canOpen: string -> bool, dist: string, component: string): Yield
      reads this
    {
      var packages := TagFiles(canOpen, mirrors, "Packages", dist, component, "binary-" + arch + "/Packages");
      var sources := TagFiles(canOpen, sourceMirrors, "Sources", dist, component, "source/Sources");
      var installer :=
        if installerPackages
        then TagFiles(canOpen, mirrors, "InstallerPackages", dist, component,
                      "debian-installer/binary-" + arch + "/Packages")
        else Ok([]);
      if packages.Err? then Yield([], Some(packages.msg))
      else if sources.Err? then Yield(Tagged(Packages, packages.value), Some(sources.msg))
      else
        Yield(Tagged(Packages, packages.value) + Tagged(Sources, sources.value)
              + Tagged(InstallerPackages, if installer.Ok? then installer.value else []), None)
    }

    /** The components of one dist in order, stopping at the first error. */
    function DistYield(canOpen: string -> bool, dist: string, comps: seq<string>): Yield
      reads this
    {
      if comps == [] then Yield([], None)
      else
        var y := ComponentYield(canOpen, dist, comps[0]);
        if y.error.Some? then y else Then(y.indexes, DistYield(canOpen, dist, comps[1..]))
    }

    /** Every dist in order, stopping at the first error. */
    function SectionsSpec(canOpen: string -> bool, ds: seq<string>): Yield
      reads this
    {
      if ds == [] then Yield([], None)
      else
        var y := DistYield(canOpen, ds[0], components);
        if y.error.Some? then y else Then(y.indexes, SectionsSpec(canOpen, ds[1..]))
    }

    /** `sections`: the index files in the order they are read, dist by
        dist and component by component, and the error that ends the
        generator early if one does. */
    method Sections(canOpen: string -> bool) returns (y: Yield)
      ensures y == SectionsSpec(canOpen, dists)
    {
      var yielded: seq<Index> := [];
      var i := 0;
      while i < |dists|
        invariant 0 <= i <= |dists|
        invariant SectionsSpec(canOpen, dists) == Then(yielded, SectionsSpec(canOpen, dists[i..]))
      {
        var d := DistSections(canOpen, dists[i]);
        DropOne(dists, i);
        if d.error.Some? {
          return Then(yielded, d);
        }
        ThenAssoc(yielded, d.indexes, SectionsSpec(canOpen, dists[i + 1..]));
        yielded := yielded + d.indexes;
        i := i + 1;
      }
      y := Yield(yielded, None);
    }

    /** The component loop of `sections` for one dist, returning early at
        the first error. */
    method DistSections(canOpen: string -> bool, dist: string) returns (y: Yield)
      ensures y == DistYield(canOpen, dist, components)
    {
      var inner: seq<Index> := [];
      var j := 0;
      while j < |components|
        invariant 0 <= j <= |components|
        invariant DistYield(canOpen, dist, components) == Then(inner, DistYield(canOpen, dist, components[j..]))
      {
        var c := ComponentYield(canOpen, dist, components[j]);
        DropOne(components, j);
        if c.error.Some? {
          return Then(inner, c);
        }
        ThenAssoc(inner, c.indexes, DistYield(canOpen, dist, components[j + 1..]));
        inner := inner + c.indexes;
        j := j + 1;
      }
      y := Yield(inner, None);
    }
  }

  /** What a run of the `sections` generator produces: the index files it
      read, and the error that stopped it, if any. */
  datatype Yield = Yield(indexes: seq<Index>, error: Option<string>)

  /** Files read before a later part of the run. */
  function Then(before: seq<Index>, y: Yield): Yield {
    Yield(before + y.indexes, y.error)
  }

  lemma ThenAssoc(a: seq<Index>, b: seq<Index>, y: Yield)
    ensures Then(a, Then(b, y)) == Then(a + b, y)
  {
    assert a + (b + y.indexes) == (a + b) + y.indexes;
  }

  function Tagged(kind: IndexType, urls: seq<string>): (r: seq<Index>)
    ensures |r| == |urls|
    ensures forall k :: 0 <= k < |urls| ==> r[k] == Index(kind, urls[k])
  {
    if urls == [] then [] else [Index(kind, urls[0])] + Tagged(kind, urls[1..])
  }

  /** A component fails only when its Packages or Sources files are
      missing from every mirror, and a missing Packages file is the error
      reported first; a missing installer index is passed over. */
  lemma ComponentYieldError(tf: TagFile, canOpen: string -> bool, dist: string, component: string)
    ensures var y := tf.ComponentYield(canOpen, dist, component);
      var pk := OpenedFiles(canOpen, tf.mirrors, dist, component, "binary-" + tf.arch + "/Packages");
      && (y.error.Some? <==> pk == [] || OpenedFiles(canOpen, tf.sourceMirrors, dist, component, "source/Sources") == [])
      && (pk == [] ==> y == Yield([], Some("no Packages files found")))
  {
    assert "no " + "Packages" + " files found" == "no Packages files found";
  }

  /** The Packages files come first, and are yielded even when the
      Sources files then turn out to be missing; with both present the
      component succeeds whatever becomes of the installer index, the
      Sources files follow the Packages files and only installer indexes
      come after them; no installer index is read when installer packages
      are not wanted. */
  lemma ComponentYieldOrder(tf: TagFile, canOpen: string -> bool, dist: string, component: string)
    ensures var y := tf.ComponentYield(canOpen, dist, component);
      var pk := OpenedFiles(canOpen, tf.mirrors, dist, component, "binary-" + tf.arch + "/Packages");
      && (pk != [] ==> |y.indexes| >= |pk| && forall k :: 0 <= k < |pk| ==> y.indexes[k] == Index(Packages, pk[k]))
      && (!tf.installerPackages ==> forall k :: 0 <= k < |y.indexes| ==> y.indexes[k].kind != InstallerPackages)
    ensures var y := tf.ComponentYield(canOpen, dist, component);
      var pk := OpenedFiles(canOpen, tf.mirrors, dist, component, "binary-" + tf.arch + "/Packages");
      var src := OpenedFiles(canOpen, tf.sourceMirrors, dist, component, "source/Sources");
      pk != [] && src != [] ==>
        && y.error.None?
        && |y.indexes| >= |pk| + |src|
        && (forall k :: 0 <= k < |src| ==> y.indexes[|pk| + k] == Index(Sources, src[k]))
        && (forall k :: |pk| + |src| <= k < |y.indexes| ==> y.indexes[k].kind == InstallerPackages)
  {
    PackagesFirst(tf, canOpen, dist, component);
    SourcesNext(tf, canOpen, dist, component);
  }

  lemma PackagesFirst(tf: TagFile, canOpen: string -> bool, dist: string, component: string)
    ensures var y := tf.ComponentYield(canOpen, dist, component);
      var pk := OpenedFiles(canOpen, tf.mirrors, dist, component, "binary-" + tf.arch + "/Packages");
      && (pk != [] ==> |y.indexes| >= |pk| && forall k :: 0 <= k < |pk| ==> y.indexes[k] == Index(Packages, pk[k]))
      && (!tf.installerPackages ==> forall k :: 0 <= k < |y.indexes| ==> y.indexes[k].kind != InstallerPackages)
  {
  }

  lemma SourcesNext(tf: TagFile, canOpen: string -> bool, dist: string, component: string)
    ensures var y := tf.ComponentYield(canOpen, dist, component);
      var pk := OpenedFiles(canOpen, tf.mirrors, dist, component, "binary-" + tf.arch + "/Packages");
      var src := OpenedFiles(canOpen, tf.sourceMirrors, dist, component, "source/Sources");
      pk != [] && src != [] ==>
        && y.error.None?
        && |y.indexes| >= |pk| + |src|
        && (forall k :: 0 <= k < |src| ==> y.indexes[|pk| + k] == Index(Sources, src[k]))
        && (forall k :: |pk| + |src| <= k < |y.indexes| ==> y.indexes[k].kind == InstallerPackages)
  {
  }

  /** A dist's run ends without error exactly when every component has
      its Packages and Sources files; otherwise its error is that of the
      first component that fails, every earlier one having succeeded. */
  lemma DistYieldError(tf: TagFile, canOpen: string -> bool, dist: string, comps: seq<string>)
    ensures tf.DistYield(canOpen, dist, comps).error.None? <==>
      forall k :: 0 <= k < |comps| ==> tf.ComponentYield(canOpen, dist, comps[k]).error.None?
    ensures tf.DistYield(canOpen, dist, comps).error.Some? ==>
      exists k :: 0 <= k < |comps| && tf.DistYield(canOpen, dist, comps).error == tf.ComponentYield(canOpen, dist, comps[k]).error
        && forall j :: 0 <= j < k ==> tf.ComponentYield(canOpen, dist, comps[j]).error.None?
  {
    DistYieldNoError(tf, canOpen, dist, comps);
    if tf.DistYield(canOpen, dist, comps).error.Some? {
      DistYieldFirstError(tf, canOpen, dist, comps);
    }
  }

  lemma {:induction false} DistYieldNoError(tf: TagFile, canOpen: string -> bool, dist: string, comps: seq<string>)
    ensures tf.DistYield(canOpen, dist, comps).error.None? <==>
      forall k :: 0 <= k < |comps| ==> tf.ComponentYield(canOpen, dist, comps[k]).error.None?
  {
    if comps != [] {
      var rest := comps[1..];
      var y := tf.ComponentYield(canOpen, dist, comps[0]);
      if y.error.Some? {
        assert tf.DistYield(canOpen, dist, comps).error == y.error;
      } else {
        DistYieldNoError(tf, canOpen, dist, rest);
        assert tf.DistYield(canOpen, dist, comps).error == tf.DistYield(canOpen, dist, rest).error;
        assert forall k :: 0 < k < |comps| ==> comps[k] == rest[k - 1];
      }
    }
  }

  lemma {:induction false} DistYieldFirstError(tf: TagFile, canOpen: string -> bool, dist: string, comps: seq<string>)
    requires tf.DistYield(canOpen, dist, comps).error.Some?
    ensures exists k :: (0 <= k < |comps| && tf.DistYield(canOpen, dist, comps).error == tf.ComponentYield(canOpen, dist, comps[k]).error
      && forall j :: 0 <= j < k ==> tf.ComponentYield(canOpen, dist, comps[j]).error.None?)
  {
    if tf.ComponentYield(canOpen, dist, comps[0]).error.Some? {
      assert 0 < |comps|;
    } else {
      var rest := comps[1..];
      DistYieldFirstError(tf, canOpen, dist, rest);
      var k :| 0 <= k < |rest| && tf.DistYield(canOpen, dist, rest).error == tf.ComponentYield(canOpen, dist, rest[k]).error
          && forall j :: 0 <= j < k ==> tf.ComponentYield(canOpen, dist, rest[j]).error.None?;
      assert rest[k] == comps[k + 1];
      forall j | 0 <= j < k + 1
        ensures tf.ComponentYield(canOpen, dist, comps[j]).error.None?
      {
        if j > 0 {
          assert comps[j] == rest[j - 1];
        }
      }
    }
  }

  /** The whole run ends without error exactly when every dist's does. */
  lemma {:induction false} SectionsError(tf: TagFile, canOpen: string -> bool, ds: seq<string>)
    ensures tf.SectionsSpec(canOpen, ds).error.None? <==>
      forall k :: 0 <= k < |ds| ==> tf.DistYield(canOpen, ds[k], tf.components).error.None?
  {
    if ds != [] {
      var rest := ds[1..];
      var y := tf.DistYield(canOpen, ds[0], tf.components);
      if y.error.Some? {
        assert tf.SectionsSpec(canOpen, ds).error == y.error;
      } else {
        SectionsError(tf, canOpen, rest);
        assert tf.SectionsSpec(canOpen, ds).error == tf.SectionsSpec(canOpen, rest).error;
        assert forall k :: 0 < k < |ds| ==> ds[k] == rest[k - 1];
      }
    }
  }

  /** When every dist before the `i`-th succeeds, the run is the files of
      those dists followed by the run over the rest. */
  lemma {:induction false} SectionsSplit(tf: TagFile, canOpen: string -> bool, ds: seq<string>, i: nat)
    requires i <= |ds|
    requires forall k :: 0 <= k < i ==> tf.DistYield(canOpen, ds[k], tf.components).error.None?
    ensures tf.SectionsSpec(canOpen, ds[..i]).error.None?
    ensures tf.SectionsSpec(canOpen, ds) ==
      Then(tf.SectionsSpec(canOpen, ds[..i]).indexes, tf.SectionsSpec(canOpen, ds[i..]))
  {
    if i > 0 {
      assert ds[1..][..i - 1] == ds[..i][1..];
      assert ds[1..][i - 1..] == ds[i..];
      assert ds[..i][0] == ds[0];
      assert forall k :: 0 <= k < i - 1 ==> ds[1..][k] == ds[k + 1];
      SectionsSplit(tf, canOpen, ds[1..], i - 1);
      var first := tf.DistYield(canOpen, ds[0], tf.components);
      ThenAssoc(first.indexes, tf.SectionsSpec(canOpen, ds[..i][1..]).indexes, tf.SectionsSpec(canOpen, ds[i..]));
    } else {
      assert ds[..0] == [] && ds[0..] == ds;
      assert [] + tf.SectionsSpec(canOpen, ds).indexes == tf.SectionsSpec(canOpen, ds).indexes;
    }
  }

  /** The files of the `i`-th dist, as a block, come after those of every
      earlier dist and before those of every later one; if the `i`-th dist
      is the first to fail, the run ends with its files and its error. */
  lemma SectionsOrder(tf: TagFile, canOpen: string -> bool, ds: seq<string>, i: nat)
    requires i < |ds|
    requires forall k :: 0 <= k < i ==> tf.DistYield(canOpen, ds[k], tf.components).error.None?
    ensures var before := tf.SectionsSpec(canOpen, ds[..i]);
      var d := tf.DistYield(canOpen, ds[i], tf.components);
      var y := tf.SectionsSpec(canOpen, ds);
      && before.error.None?
      && (d.error.Some? ==> y == Then(before.indexes, d))
      && (d.error.None? ==> y == Then(before.indexes + d.indexes, tf.SectionsSpec(canOpen, ds[i + 1..])))
  {
    SectionsSplit(tf, canOpen, ds, i);
    assert ds[i..][0] == ds[i];
    DropOne(ds, i);
    var d := tf.DistYield(canOpen, ds[i], tf.components);
    ThenAssoc(tf.SectionsSpec(canOpen, ds[..i]).indexes, d.indexes, tf.SectionsSpec(canOpen, ds[i + 1..]));
  }
}
