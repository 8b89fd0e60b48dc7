/** setup.py: reading Germinate's version from the first changelog line,
    the clean command's pruning of the directory walk, and the choice of
    scripts for which manual pages are built. Spawned commands are
    returned as argument lists; the file system is the oracle `pageExists`. */
module Setup {
  import opened Wrappers
  import opened Text
  import opened Lists

  // ---------------------------------------------------------------------
  // The changelog heading, `\w[-+0-9a-z.]* \(([^\(\) \t]+)\)` matched at
  // the start of the line.

  /** `\w`, for ASCII text. */
  predicate IsWordChar(c: char) {
    ('a' <= c <= 'z') || ('A' <= c <= 'Z') || ('0' <= c <= '9') || c == '_'
  }

  /** `[-+0-9a-z.]`, the rest of the source package name. */
  predicate IsNameChar(c: char) {
    c == '-' || c == '+' || ('0' <= c <= '9') || ('a' <= c <= 'z') || c == '.'
  }

  /** `[^\(\) \t]`, a character of the version. */
  predicate IsVersionChar(c: char) {
    c != '(' && c != ')' && c != ' ' && c != '\t'
  }

  /** End of the longest run from `i` of characters satisfying `p`. */
  function Span(s: string, i: nat, p: char -> bool): (j: nat)
    requires i <= |s|
    ensures i <= j <= |s|
    ensures forall k :: i <= k < j ==> p(s[k])
    ensures j < |s| ==> !p(s[j])
    decreases |s| - i
  {
    if i < |s| && p(s[i]) then Span(s, i + 1, p) else i
  }

  /** A run that satisfies `p` and is followed by the end of the text or
      a character that does not is exactly what `Span` finds. */
  lemma {:induction false} SpanExact(s: string, i: nat, j: nat, p: char -> bool)
    requires i <= j <= |s|
    requires forall k :: i <= k < j ==> p(s[k])
    requires j < |s| ==> !p(s[j])
    ensures Span(s, i, p) == j
    decreases j - i
  {
    if i < j {
      SpanExact(s, i + 1, j, p);
    }
  }

  /** The error raised for a first line that is not a heading. */
  function ParseError(line: string): string {
    "Failed to parse first line of debian/changelog: '" + line + "'"
  }

  /** The version of a changelog's first line, as the module-level code
      of setup.py computes it. */
  function ChangelogVersion(line: string): Result<string> {
    if line == [] || !IsWordChar(line[0]) then Err(ParseError(line))
    else
      var i := Span(line, 1, IsNameChar);
      if i + 2 <= |line| && line[i] == ' ' && line[i + 1] == '(' then
        var j := Span(line, i + 2, IsVersionChar);
        if i + 2 < j < |line| && line[j] == ')' then Ok(line[i + 2..j]) else Err(ParseError(line))
      else Err(ParseError(line))
  }

  /** `line` starts with a heading whose name ends at `i` and whose
      version is `v`. */
  predicate HeadingAt(line: string, i: nat, v: string) {
    && 1 <= i
    && i + 3 + |v| <= |line|
    && IsWordChar(line[0])
    && (forall k :: 1 <= k < i ==> IsNameChar(line[k]))
    && line[i] == ' ' && line[i + 1] == '('
    && v != [] && (forall k :: 0 <= k < |v| ==> IsVersionChar(v[k]))
    && line[i + 2..i + 2 + |v|] == v
    && line[i + 2 + |v|] == ')'
  }

  /** A version is only ever read from a heading at the start of the line. */
  lemma ChangelogVersionSound(line: string)
    ensures ChangelogVersion(line).Ok? ==>
      exists i :: HeadingAt(line, i, ChangelogVersion(line).value)
    ensures ChangelogVersion(line).Err? ==> ChangelogVersion(line).msg == ParseError(line)
  {
    if ChangelogVersion(line).Ok? {
      var i := Span(line, 1, IsNameChar);
      assert HeadingAt(line, i, ChangelogVersion(line).value);
    }
  }

  /** Any heading gives its version, whatever follows it on the line:
      the match is unique. */
  lemma {:induction false} ChangelogVersionComplete(line: string, i: nat, v: string)
    requires HeadingAt(line, i, v)
    ensures ChangelogVersion(line) == Ok(v)
  {
    SpanExact(line, 1, i, IsNameChar);
    var j := i + 2 + |v|;
    assert forall k :: i + 2 <= k < j ==> line[k] == v[k - (i + 2)];
    SpanExact(line, i + 2, j, IsVersionChar);
  }

  /** The version of `source (version) rest` is `version`. */
  lemma HeadingRoundTrip(source: string, version: string, rest: string)
    requires source != [] && IsWordChar(source[0])
    requires forall k :: 1 <= k < |source| ==> IsNameChar(source[k])
    requires version != [] && forall k :: 0 <= k < |version| ==> IsVersionChar(version[k])
    ensures ChangelogVersion(source + " (" + version + ")" + rest) == Ok(version)
  {
    var line := source + " (" + version + ")" + rest;
    var i := |source|;
    assert line[i + 2..i + 2 + |version|] == version;
    assert HeadingAt(line, i, version);
    ChangelogVersionComplete(line, i, version);
  }

  /** A line that does not start with a word character has no version. */
  lemma NoHeadingNoVersion(line: string)
    requires line == [] || !IsWordChar(line[0])
    ensures ChangelogVersion(line) == Err(ParseError(line))
  {
  }

  // ---------------------------------------------------------------------
  // `clean_extra.run`: one step of the walk from `.`.

  /** `os.path.join(a, b)` for two components. */
  function PathJoin(a: string, b: string): string {
    if StartsWith(b, "/") then b
    else if a == [] || EndsWith(a, "/") then a + b
    else a + "/" + b
  }

  /** What the clean walk does with a subdirectory. */
  datatype DirAction = Keep | Prune | RemoveTree

  function ActionFor(d: string): DirAction {
    if StartsWith(d, ".") || d == "debian" then Prune
    else if d == "__pycache__" || EndsWith(d, ".egg-info") then RemoveTree
    else Keep
  }

  /** The subdirectories the walk still descends into, in order. */
  function KeptDirs(dirs: seq<string>): seq<string> {
    if dirs == [] then [] else (if ActionFor(dirs[0]) == Keep then [dirs[0]] else []) + KeptDirs(dirs[1..])
  }

  /** The subdirectories removed with `rm -r`, last first, since the
      walk over the list runs backwards. */
  function RemovedDirs(dirs: seq<string>): seq<string> {
    if dirs == [] then [] else RemovedDirs(dirs[1..]) + (if ActionFor(dirs[0]) == RemoveTree then [dirs[0]] else [])
  }

  function RmTree(path: string, d: string): seq<string> {
    ["rm", "-r", PathJoin(path, d)]
  }

  function RmTrees(path: string, ds: seq<string>): (r: seq<seq<string>>)
    ensures |r| == |ds|
    ensures forall k :: 0 <= k < |ds| ==> r[k] == RmTree(path, ds[k])
  {
    seq(|ds|, k requires 0 <= k < |ds| => RmTree(path, ds[k]))
  }

  /** The loop over `reversed(range(len(dirs)))`, deleting in place: the
      list left for the walk and the commands spawned. */
  method PruneDirs(path: string, dirs: seq<string>) returns (kept: seq<string>, spawned: seq<seq<string>>)
    ensures kept == KeptDirs(dirs)
    ensures spawned == RmTrees(path, RemovedDirs(dirs))
  {
    kept := dirs;
    spawned := [];
    var i := |dirs|;
    while i > 0
      invariant 0 <= i <= |dirs|
      invariant kept == dirs[..i] + KeptDirs(dirs[i..])
      invariant spawned == RmTrees(path, RemovedDirs(dirs[i..]))
    {
      i := i - 1;
      PruneStep(dirs, i, KeptDirs(dirs[i + 1..]));
      var d := kept[i];
      ghost var before, spawnedBefore := kept, spawned;
      if StartsWith(d, ".") || d == "debian" {
        kept := kept[..i] + kept[i + 1..];
      } else if d == "__pycache__" || EndsWith(d, ".egg-info") {
        spawned := spawned + [RmTree(path, d)];
        kept := kept[..i] + kept[i + 1..];
      }
      PruneDone(path, dirs, i, before, spawnedBefore, kept, spawned);
    }
  }

  /** After one step of the backward walk, the list and the commands
      account for `dirs[i..]`. */
  lemma PruneDone(path: string, dirs: seq<string>, i: nat, kept: seq<string>, spawned: seq<seq<string>>,
                  kept': seq<string>, spawned': seq<seq<string>>)
    requires i < |dirs|
    requires kept == dirs[..i + 1] + KeptDirs(dirs[i + 1..])
    requires spawned == RmTrees(path, RemovedDirs(dirs[i + 1..]))
    requires ActionFor(dirs[i]) == Keep ==> kept' == kept && spawned' == spawned
    requires ActionFor(dirs[i]) == Prune ==> kept' == kept[..i] + kept[i + 1..] && spawned' == spawned
    requires ActionFor(dirs[i]) == RemoveTree ==>
      kept' == kept[..i] + kept[i + 1..] && spawned' == spawned + [RmTree(path, dirs[i])]
    ensures kept' == dirs[..i] + KeptDirs(dirs[i..])
    ensures spawned' == RmTrees(path, RemovedDirs(dirs[i..]))
  {
    PruneStep(dirs, i, KeptDirs(dirs[i + 1..]));
    RmTreesSnoc(path, RemovedDirs(dirs[i + 1..]), dirs[i]);
  }

  lemma RmTreesSnoc(path: string, ds: seq<string>, d: string)
    ensures RmTrees(path, ds + [d]) == RmTrees(path, ds) + [RmTree(path, d)]
  {
    assert forall k :: 0 <= k < |ds| ==> (ds + [d])[k] == ds[k];
  }

  /** One step of the backward walk: deleting index `i` of a list whose
      first `i + 1` entries are those of `dirs`. */
  lemma PruneStep(dirs: seq<string>, i: nat, rest: seq<string>)
    requires i < |dirs|
    ensures var cur := dirs[..i + 1] + rest;
      && cur[i] == dirs[i]
      && cur[..i] + cur[i + 1..] == dirs[..i] + rest
      && cur == dirs[..i] + [dirs[i]] + rest
      && KeptDirs(dirs[i..]) == (if ActionFor(dirs[i]) == Keep then [dirs[i]] else []) + KeptDirs(dirs[i + 1..])
      && RemovedDirs(dirs[i..]) == RemovedDirs(dirs[i + 1..]) + (if ActionFor(dirs[i]) == RemoveTree then [dirs[i]] else [])
  {
    var cur := dirs[..i + 1] + rest;
    assert cur[..i] == dirs[..i];
    assert cur[i + 1..] == rest;
    assert dirs[..i + 1] == dirs[..i] + [dirs[i]];
    DropOne(dirs, i);
  }

  /** The walk descends exactly into the subdirectories that are neither
      hidden, `debian`, `__pycache__` nor `*.egg-info`, keeping their order. */
  lemma {:induction false} KeptDirsFacts(dirs: seq<string>)
    ensures forall d :: d in KeptDirs(dirs) <==> d in dirs && ActionFor(d) == Keep
    ensures forall d :: d in KeptDirs(dirs) ==> !StartsWith(d, ".") && d != "debian" && d != "__pycache__" && !EndsWith(d, ".egg-info")
  {
    if dirs != [] {
      KeptDirsFacts(dirs[1..]);
      assert forall d :: d in dirs <==> d == dirs[0] || d in dirs[1..];
    }
  }

  /** Pruning distributes over a split of the list: the kept ones keep
      their relative order. */
  lemma {:induction false} KeptDirsAppend(a: seq<string>, b: seq<string>)
    ensures KeptDirs(a + b) == KeptDirs(a) + KeptDirs(b)
  {
    if a != [] {
      assert (a + b)[0] == a[0];
      assert (a + b)[1..] == a[1..] + b;
      KeptDirsAppend(a[1..], b);
    } else {
      assert a + b == b;
    }
  }

  /** Exactly the `__pycache__` and `*.egg-info` subdirectories that are
      not hidden are removed. */
  lemma {:induction false} RemovedDirsFacts(dirs: seq<string>)
    ensures forall d :: d in RemovedDirs(dirs) <==> d in dirs && ActionFor(d) == RemoveTree
  {
    if dirs != [] {
      RemovedDirsFacts(dirs[1..]);
      assert forall d :: d in dirs <==> d == dirs[0] || d in dirs[1..];
    }
  }

  /** A file the clean command deletes. */
  predicate FileRemoved(f: string) {
    EndsWith(f, ".pyc") || (StartsWith(f, "./debhelper") && EndsWith(f, ".1"))
  }

  /** The `rm` commands for the files of one directory, in order. */
  function FileRemovals(path: string, files: seq<string>): seq<seq<string>> {
    if files == [] then []
    else
      var f := PathJoin(path, files[|files| - 1]);
      FileRemovals(path, files[..|files| - 1]) + (if FileRemoved(f) then [["rm", f]] else [])
  }

  /** The loop over the files of one directory. */
  method CleanFiles(path: string, files: seq<string>) returns (spawned: seq<seq<string>>)
    ensures spawned == FileRemovals(path, files)
  {
    spawned := [];
    for i := 0 to |files|
      invariant spawned == FileRemovals(path, files[..i])
    {
      var f := PathJoin(path, files[i]);
      if EndsWith(f, ".pyc") {
        spawned := spawned + [["rm", f]];
      } else if StartsWith(f, "./debhelper") && EndsWith(f, ".1") {
        spawned := spawned + [["rm", f]];
      }
      TakeOneMore(files, i);
    }
    TakeAll(files);
  }

  /** Every command removes one file of the directory that is compiled
      Python or a manual page under `./debhelper`. */
  lemma {:induction false} FileRemovalsSound(path: string, files: seq<string>)
    ensures forall c :: c in FileRemovals(path, files) ==>
      |c| == 2 && c[0] == "rm" && FileRemoved(c[1]) && exists f :: f in files && c[1] == PathJoin(path, f)
  {
    if files != [] {
      var init, last := files[..|files| - 1], files[|files| - 1];
      FileRemovalsSound(path, init);
      forall c | c in FileRemovals(path, files)
        ensures |c| == 2 && c[0] == "rm" && FileRemoved(c[1]) && exists f :: f in files && c[1] == PathJoin(path, f)
      {
        if c in FileRemovals(path, init) {
          var f :| f in init && c[1] == PathJoin(path, f);
          assert f in files;
        } else {
          assert c == ["rm", PathJoin(path, last)];
          assert last in files;
        }
      }
    }
  }

  /** Every such file of the directory is removed. */
  lemma {:induction false} FileRemovalsComplete(path: string, files: seq<string>)
    ensures forall f :: f in files && FileRemoved(PathJoin(path, f)) ==>
      ["rm", PathJoin(path, f)] in FileRemovals(path, files)
  {
    if files != [] {
      var init := files[..|files| - 1];
      FileRemovalsComplete(path, init);
      assert files == init + [files[|files| - 1]];
    }
  }

  // ---------------------------------------------------------------------
  // `build_pod2man.run`.

  function Pod2man(version: string, script: string): seq<string> {
    ["pod2man", "-c", "Debhelper", "-r", version, script, script + ".1"]
  }

  /** A script whose manual page is built. */
  predicate NeedsPage(pageExists: string -> bool, script: string) {
    StartsWith(script, "debhelper/") && !pageExists(script + ".1")
  }

  function Pod2manCommands(pageExists: string -> bool, version: string, scripts: seq<string>): seq<seq<string>> {
    if scripts == [] then []
    else
      var s := scripts[|scripts| - 1];
      Pod2manCommands(pageExists, version, scripts[..|scripts| - 1])
      + (if NeedsPage(pageExists, s) then [Pod2man(version, s)] else [])
  }

  /** The loop over the distribution's scripts. */
  method BuildPod2man(pageExists: string -> bool, version: string, scripts: seq<string>) returns (spawned: seq<seq<string>>)
    ensures spawned == Pod2manCommands(pageExists, version, scripts)
  {
    spawned := [];
    for i := 0 to |scripts|
      invariant spawned == Pod2manCommands(pageExists, version, scripts[..i])
    {
      TakeOneMore(scripts, i);
      var podFile := scripts[i];
      if !StartsWith(podFile, "debhelper/") {
        continue;
      }
      if pageExists(podFile + ".1") {
        continue;
      }
      spawned := spawned + [Pod2man(version, podFile)];
    }
    assert scripts[..|scripts|] == scripts;
  }

  /** A page is built for a script exactly when it lives under
      `debhelper/` and its page does not exist yet, and every command
      turns one such script into its `.1` page. */
  lemma {:induction false} Pod2manCommandsFacts(pageExists: string -> bool, version: string, scripts: seq<string>)
    ensures forall s :: s in scripts ==> (Pod2man(version, s) in Pod2manCommands(pageExists, version, scripts) <==> NeedsPage(pageExists, s))
    ensures forall c :: c in Pod2manCommands(pageExists, version, scripts) ==>
      exists s :: s in scripts && NeedsPage(pageExists, s) && c == Pod2man(version, s)
  {
    if scripts != [] {
      var init := scripts[..|scripts| - 1];
      var last := scripts[|scripts| - 1];
      Pod2manCommandsFacts(pageExists, version, init);
      assert scripts == init + [last];
      assert forall s :: s in scripts <==> s in init || s == last;
      forall s | s in scripts && Pod2man(version, s) in Pod2manCommands(pageExists, version, scripts)
        ensures NeedsPage(pageExists, s)
      {
        if Pod2man(version, s) in Pod2manCommands(pageExists, version, init) {
          var t :| t in init && NeedsPage(pageExists, t) && Pod2man(version, s) == Pod2man(version, t);
          assert Pod2man(version, s)[5] == s;
        } else {
          assert Pod2man(version, s)[5] == s;
        }
      }
    }
  }
}
