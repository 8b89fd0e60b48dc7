# Germinate seed expansion, modelled in Dafny

Germinate expands Ubuntu seed collections into package lists. This
project models the parts of Germinate that decide what gets read and
what gets written. It covers:

- how single seeds are located and fetched (`Seed`, `CustomSeed`);
- how a `STRUCTURE` file is parsed (`SingleSeedStructure`);
- how the structures of included branches are merged, and how the
  inheritance lists are expanded and queried (`SeedStructure`);
- the archive index files that `TagFile` opens, and the order in which
  it reads them;
- Germinate's log format and logger set-up;
- the option handling and output list of the `germinate` command;
- the dpkg comparison of `germinate-pkg-diff`;
- the package-list and changelog rules of `germinate-update-metapackage`;
- the version parsing, clean walk and manual-page rules of `setup.py`.

Each Python module is one Dafny module:

| Dafny file | module | models |
|---|---|---|
| seeds.dfy | `Seeds` | `SeedVcs`, `Seed._open_seed`, `Seed.__init__`, `CustomSeed`, seed comparisons |
| structure_file.dfy | `StructureFile` | `SingleSeedStructure.__init__` |
| merge.dfy | `StructureMerge` | `SeedStructure._parse` |
| inheritance.dfy | `Inheritance` | `SeedStructure._expand_inheritance` (one seed at a time) |
| collection.dfy | `Collection` | class `SeedStructure` and its queries |
| archive.dfy | `Archive` | class `TagFile`, `_open_tag_files`, `sections` |
| log.dfy | `Log` | `GerminateFormatter`, `germinate_logging` |
| main_options.dfy | `MainOptions` | `germinate_main.py`: `check_seed_vcs`, `parse_options`, the `--seed-packages` loop, the output loop |
| pkg_diff.dfy | `PkgDiff` | `germinate_pkg_diff.py`: classes `Package` and `Globals` |
| metapackage.dfy | `Metapackage` | `germinate_update_metapackage.py`: `Source:` lookup, archive bases, `seed_packages`, `metapackage_name`, the list filters |
| delta.dfy | `MetapackageDelta` | `germinate_update_metapackage.py`: the delta counts, the addition/removal/move classification, `format_changes` |
| setup.dfy | `Setup` | `setup.py`: changelog version, `build_pod2man`, `clean_extra` |
| text.dfy, lists.dfy, wrappers.dfy | `Text`, `Lists`, `Wrappers` | the Python string and list operations the modules use: strip, split, join, sorting, dedup, `Option`/`Result` |

The model keeps the form of the source:

- Objects whose methods update fields are classes. These are
  `SeedStructure`, `TagFile`, the `germinate` logger, and `Package` and
  `Globals` of `germinate-pkg-diff`.
- Loops are methods with `while` loops. Each is proved equal to a
  specification function, or to the state that function describes.
- The properties the code promises are proved as lemmas about those
  functions.

Some inputs come from outside the program: fetching a seed file,
opening an index URL, `topo_sort`, the existence of a manual page, and
the germinator's package lists. These become parameters of the
operations, so the results are stated for every possible answer.

## Model

| member | source | states |
|---|---|---|
| Seeds.DefaultSeedSource | germinate/seeds.py:458-464 | No VCS gives the plain seed URL, git gives the git URL, and any other VCS gives the bzr URL. |
| Seeds.ResolveVcs | germinate/seeds.py:205-211 | An explicit VCS is kept. Auto becomes git exactly when the base starts with "git", and bzr exactly when it starts with "bzr" and not "git". |
| Seeds.OpenSeedTransports | germinate/seeds.py:203-222 | Without a VCS the seed is fetched by URL. An explicit or sensed git fetches by git, and an explicit or sensed bzr by bzr. An undetermined Auto fetches by git, and falls back to bzr exactly when git fails with a `SeedError`. Bzr is reached in no other way. |
| Seeds.GitBranchSplit | germinate/seeds.py:167-171 | A branch with a dot splits at its last dot: repository + "." + branch gives the input back, and the branch part has no dot. A branch without a dot is all repository. |
| Seeds.FirstInBranchesIsFirst | germinate/seeds.py:237-242 | The search in one base fails exactly when no branch fetches. Otherwise it returns the seed of the earliest branch that fetches, with that base and branch recorded. |
| Seeds.FirstFetchedSound | germinate/seeds.py:234-277 | Reading a seed fails with "Could not open NAME" exactly when no (base, branch) pair fetches. Otherwise the seed is named NAME, comes from one of the given bases and one of the given branches, and carries the text fetched from that pair. |
| Seeds.FirstFetchedIsFirst | germinate/seeds.py:234-277 | A successful read names a base and a branch that fetch, and records them with the fetched text. No branch fetches on any earlier base, and no earlier branch fetches on that base. |
| Seeds.LoadSeed | germinate/seeds.py:234-277 | The nested search loop with its early exit returns exactly the seed or error of that first-fetch rule. |
| Seeds.CustomSeed | germinate/seeds.py:382-386 | A custom seed has no base and no branch, keeps its name, and its text ends with a newline. |
| Seeds.CustomSeedEntries | germinate/seeds.py:386 | Splitting the text of a custom seed at newlines gives back its entries, followed by one empty piece. |
| Seeds.SeedTrichotomy | germinate/seeds.py:346-374 | Seeds compare by text: exactly one of less, equal and greater holds, and less-or-equal is not-greater. |
| Seeds.SeedLessTransitive | germinate/seeds.py:346-349 | Seed order is transitive. |
| StructureFile.Classify | germinate/seeds.py:425-445 | A line is skipped exactly when it is blank or a comment once stripped. A seed line keeps the stripped text and names the seed before the colon. |
| StructureFile.ParseStructure | germinate/seeds.py:417-445 | The line loop returns exactly the structure the lines describe, or the first slash error. |
| StructureFile.ReadLine | germinate/seeds.py:426-445 | One pass of the loop body applies exactly the meaning of that line to the structure. |
| StructureFile.ErrorStops | germinate/seeds.py:434-436 | Once a prefix of the lines fails, the whole file fails with the same error. |
| StructureFile.ParseErrors | germinate/seeds.py:432-436 | Parsing fails exactly when some line declares a seed whose name contains "/", and the error names the first such seed. |
| StructureFile.ParseKeepsDeclarations | germinate/seeds.py:432-439 | A successful parse keeps every seed declaration in order, in both the seed order and the kept lines. |
| StructureFile.ParseLastParents | germinate/seeds.py:438 | Each seed's parent list is the one given by its last declaration. |
| StructureFile.ParseBranchesAndFlags | germinate/seeds.py:421-443 | The branch list is the branch itself followed by every included branch in order. The features are exactly the flags of the `feature` lines. |
| StructureMerge.ReplaceLine | germinate/seeds.py:517-523 | The scan for an earlier line of the same seed deletes the first such line and then appends the new one. |
| StructureMerge.MergeLines | germinate/seeds.py:502-509 | Merging a structure's lines one by one equals the replace rule applied in order. |
| StructureMerge.AppendAll | germinate/seeds.py:499-501 | Appending unseen branches keeps the existing list as a prefix and adds no duplicates. A branch is in the result exactly when it was in either list. |
| StructureMerge.MergeBranches | germinate/seeds.py:514-516 | The branch-appending loop computes exactly that append. |
| StructureMerge.AbsorbCoherent | germinate/seeds.py:497-523 | Merging a consistent structure keeps the merged one coherent: each branch appears once, and each seed has exactly one line and one parent list. |
| StructureMerge.MergeStructure | germinate/seeds.py:512-524 | One merge round computes exactly the absorb rule. |
| StructureMerge.ParseBranch | germinate/seeds.py:479-530 | The recursion returns exactly the result and the branches read of the specification `ParseSpec`. A missing STRUCTURE file gives "Could not open STRUCTURE". A success is coherent, ends its seed order with the branch's own seeds, and keeps the branch's own parent lists, branches and features. The branches read are added to those already read, each once, starting with the branch itself. |
| StructureMerge.ParseIncluded | germinate/seeds.py:492-509 | The loop over included branches returns exactly what the specification `IncludedSpec` gives: each branch not yet read is parsed and absorbed in turn, and the first error stops the loop. |
| StructureMerge.ParseSpecMerge | germinate/seeds.py:479-530 | A successful parse is the branch's own file absorbed into its included branches: the included seeds come first and the own seeds last, the own parent lists override the included ones and the rest come from them, the lines follow the replace rule, the features are united, and the branch list is reversed from the order of appending. |
| StructureMerge.IncludingBranchFirst | germinate/seeds.py:479-530 | A branch that includes one branch with no includes of its own is searched first, before the included branch. Its seeds follow the included branch's, its parent lists and features are merged over the included branch's. |
| Inheritance.AppendUnseen | germinate/seeds.py:549-552 | Appending the unseen seeds of an expansion keeps `seen` equal to the list and the list free of duplicates. The list becomes the first occurrences of what was met followed by the expansion, and ancestors stay before the seeds that inherit from them. |
| Inheritance.ExpandOne | germinate/seeds.py:546-556 | A seed's expanded list is the first occurrences of its direct parents, each preceded by its own expanded list, in order. It has no duplicates, puts ancestors first, and holds exactly its direct parents and everything they inherit. |
| Inheritance.ExpansionElements | germinate/seeds.py:546-552 | A seed is met in the expansion exactly when it is a direct parent or some direct parent inherits from it. |
| Inheritance.ExpandStep | germinate/seeds.py:545-556 | Expanding the next seed in topological order keeps every earlier expansion and leaves the later seeds untouched. |
| Inheritance.ExpandAll | germinate/seeds.py:540-556 | Expanding every seed along a topological order keeps the keys, and leaves every seed with its full expanded list, ancestors first. |
| Inheritance.ExpandAt | germinate/seeds.py:545-556 | One pass of the loop expands the next seed of the order: afterwards every seed up to it is expanded, and the later seeds still hold their original lists. |
| Inheritance.DedupAncestorsFirst | germinate/seeds.py:550-555 | Keeping only first occurrences preserves the ancestors-first order. |
| Collection.SeedBases | germinate/seeds.py:458-465 | Given bases are kept. Otherwise the default source of the VCS is split at commas into a non-empty list that joins back to it. |
| Collection.ChainMembers | germinate/seeds.py:561-566 | The chain of requested seeds holds exactly the requested seeds and the seeds they inherit from. |
| Collection.LimitedMembers | germinate/seeds.py:558-566 | `limit` keeps each requested seed and each of its ancestors exactly once. |
| Collection.InheritorsMembers | germinate/seeds.py:583-589 | The strictly outer seeds are exactly the names whose list holds the seed. They have no duplicates when the names have none. |
| Collection.NotOwnAncestor | germinate/seeds.py:540-556 | After expansion, no seed inherits from itself. |
| Collection.LimitedAncestorsFirst | germinate/seeds.py:558-566 | After expansion, the names `limit` keeps put every seed after the seeds it inherits from. |
| Collection.AddKeepsExpanded | germinate/seeds.py:568-575 | Adding a new seed under a parent keeps every seed's list equal to the expansion of its original list. |
| Collection.LoadSeeds | germinate/seeds.py:474-476 | Either every seed of the order is read by the first-fetch rule, or the error is the one of the first seed of the order that fails, every earlier seed having been read. |
| Collection.SeedStructure.Open | germinate/seeds.py:456-477 | A missing STRUCTURE file gives its error, and so does any failure of `ParseSpec`. A success has the seed order, original lists, search branches, lines and features of `ParseSpec`. It yields a valid structure: the default seed bases, duplicate-free search branches that include the branch, names in topological order of the original lists, and exactly one line per seed. Every list is expanded in the order of `_expand_inheritance`, and every seed is the one the first-fetch rule reads. Once the structure parses, opening succeeds exactly when every seed of the order can be read and the order sorts. Otherwise the error is that of the first seed of the order that cannot be read. |
| Collection.SeedStructure.Load | germinate/seeds.py:473-477 | After parsing, the structure is built exactly when every seed of the order can be read and the inheritance sorts. A failure carries the error of the first unreadable seed. A success holds the parsed fields, the seeds the first-fetch rule reads, the names in topological order and every list expanded. |
| Collection.SeedStructure.Assemble | germinate/seeds.py:467-477 | The fields hold what was read, features included, the original lists are kept, the names are the topological order, and every list is expanded. |
| Collection.SeedStructure.ExpandInheritance | germinate/seeds.py:540-556 | The original lists are saved, the names become the topological order, the set of seeds does not change, and every list becomes the first occurrences of its expansion in the order the loop meets them. |
| Collection.SeedStructure.Limit | germinate/seeds.py:558-566 | The names become exactly the limited list of the requested seeds, and the structure stays valid. |
| Collection.SeedStructure.Add | germinate/seeds.py:568-575 | The name is appended, it inherits from its parent and its parent's ancestors, and it holds a custom seed of the entries. The structure stays valid. |
| Collection.SeedStructure.InnerSeeds | germinate/seeds.py:577-581 | The inner seeds end with the seed itself and hold exactly it and its ancestors. |
| Collection.SeedStructure.StrictlyOuterSeeds | germinate/seeds.py:583-589 | The loop returns exactly the names, in order, whose list holds the seed. |
| Collection.SeedStructure.OuterSeeds | germinate/seeds.py:591-595 | The outer seeds are the seed followed by the strictly outer ones. |
| Collection.SeedStructure.Supported | germinate/seeds.py:620-623 | The supported seed exists exactly when the seed order is non-empty, and it is one of the read seeds. |
| Collection.OuterInnerConverse | germinate/seeds.py:577-589 | A name is strictly outer to a seed exactly when that seed is one of the name's inner seeds other than the name itself. |
| Archive.AsListFacts | germinate/archive.py:102-109 | A string argument becomes the one-element list holding it, and a list is kept. |
| Archive.WithSlashFacts | germinate/archive.py:126-127 | The mirror gets exactly one trailing slash. Adding it is idempotent and keeps the mirror as a prefix. |
| Archive.TagFileUrlFacts | germinate/archive.py:126-129 | The index URL starts with the mirror directory and ends with "dists/DIST/COMPONENT/PATH" plus the suffix. The dist and the component sit right after "dists/", each followed by a slash, and the length is that of the parts. |
| Archive.FirstOpenIsFirst | germinate/archive.py:206-212 | Nothing opens exactly when no suffix opens. Otherwise the URL of the earliest suffix that opens is returned. |
| Archive.OpenedFilesFacts | germinate/archive.py:203-212 | At most one file is opened per mirror, and none at all exactly when no suffix opens on any mirror. |
| Archive.OpenFirst | germinate/archive.py:205-212 | The suffix loop with its early exit returns exactly the first URL that opens. |
| Archive.OpenTagFiles | germinate/archive.py:203-215 | The mirror loop returns the opened files, or "no TYPE files found" when there are none. |
| Archive.TagFile.constructor | germinate/archive.py:99-120 | Strings become one-element lists. Without source mirrors, or with an empty list of them, the source mirrors are the mirrors. |
| Archive.TagFile.Sections | germinate/archive.py:216-277 | The nested dist and component loops produce exactly the index files of the specification, in order, and stop at the first error. |
| Archive.TagFile.DistSections | germinate/archive.py:234-275 | The component loop for one dist produces exactly that dist's index files in order, and ends with the error of the first component that fails. |
| Archive.ComponentYieldError | germinate/archive.py:235-254 | A component fails exactly when no Packages file or no Sources file opens. With no Packages file nothing is read and the error is "no Packages files found". |
| Archive.ComponentYieldOrder | germinate/archive.py:235-273 | The Packages files come first, in mirror order. When Packages and Sources files open, the component has no error, the Sources files follow in source-mirror order, and only installer indexes come after them. No installer index is read when installer packages are off. |
| Archive.DistYieldError | germinate/archive.py:234-273 | A dist's run ends without error exactly when every component's does. Otherwise the error is that of the least failing component, every earlier one having succeeded. |
| Archive.SectionsError | germinate/archive.py:233-273 | The whole run ends without error exactly when every dist's run does. |
| Archive.SectionsSplit | germinate/archive.py:233-234 | When the dists before the i-th succeed, their run has no error and the whole run is their files followed by the run over the remaining dists. |
| Archive.SectionsOrder | germinate/archive.py:233-273 | When the dists before the i-th succeed, the run is their files followed by the i-th dist's: its error ends the run, and otherwise the run over the later dists follows. |
| Log.FormatFacts | germinate/log.py:30-47 | Progress records are shown bare. DEBUG, INFO, WARNING and ERROR get their two-character prefixes, and the message is always the tail of the line. A prefix appears exactly for a non-progress record at one of those four levels. |
| Log.UnlistedLevelsBare | germinate/log.py:44-47 | A record at any other level, CRITICAL included, is shown bare. |
| Log.ConfiguredIdempotent | germinate/log.py:50-59 | Setting up twice equals setting up once. A fresh logger gets the requested level, one handler and no propagation. |
| Log.Logger.GerminateLogging | germinate/log.py:50-59 | A logger without handlers gets the level, one standard-output handler with the Germinate formatter, and no propagation. A logger that has handlers is left unchanged. |
| MainOptions.CheckSeedVcsSpellings | germinate/scripts/germinate_main.py:37-48 | Exactly "none", "auto", "bzr" and "git" are accepted, each as the choice it names. Any other value is an error that quotes it. |
| MainOptions.CommasFacts | germinate/scripts/germinate_main.py:125-135 | A comma split gives at least one piece, none of the pieces has a comma, and joining them with commas gives the text back. |
| MainOptions.NormaliseOptionsFacts | germinate/scripts/germinate_main.py:118-135 | The seed source falls back on the default for the VCS choice. The mirrors default to the default mirror. Every comma list is split, and absent seed packages become the empty list. |
| MainOptions.SeedPackagePartsFacts | germinate/scripts/germinate_main.py:164 | An entry splits exactly when it has one slash, and then PARENT + "/" + PKG gives it back. |
| MainOptions.SeedAddsParents | germinate/scripts/germinate_main.py:163-165 | When every seed package is added, each entry parses, its parent is a seed or an earlier package, and its package becomes a seed. |
| MainOptions.SeedAddsKeeps | germinate/scripts/germinate_main.py:163-165 | Adding seed packages never removes a seed. |
| MainOptions.AddSeedPackage | germinate/scripts/germinate_main.py:164-165 | One entry succeeds exactly when it parses and its parent is known. Then the package is appended to the names, inherits through its parent, and becomes a custom seed of one line. |
| MainOptions.AddSeedPackages | germinate/scripts/germinate_main.py:163-165 | The loop succeeds exactly when every entry is added in turn. The names and seeds then grow by exactly the packages, in order. |
| MainOptions.FilesForMembers | germinate/scripts/germinate_main.py:182-195 | A per-seed file is written exactly for a seed of the loop. `.seedtext` and `.sources` files are written only for seeds of the structure. |
| MainOptions.OutputFilesMembers | germinate/scripts/germinate_main.py:182-226 | The per-seed files cover the names followed by "extra". The whole-run files are exactly `all`, `all.sources`, SUPPORTED+build-depends and its `.sources`, `all+extra` and its `.sources`, `provides`, `structure`, `structure.dot` and `blacklisted`. A package gets a reverse-dependency list under its source, and a link under `rdepends/ALL`, exactly when reverse dependencies are wanted and it is a package of the run. |
| MainOptions.RdependsFilesLayout | germinate/scripts/germinate_main.py:215-224 | The reverse-dependency files come in one pair per package, in the order of the packages: first `rdepends/SOURCE/PKG`, then the link `rdepends/ALL/PKG` to it. |
| MainOptions.RdependsFilesMembers | germinate/scripts/germinate_main.py:215-224 | A reverse-dependency list or link is written for a package under a source exactly when that package of the run has that source. Nothing else is written in that part. |
| MainOptions.WriteOutputs | germinate/scripts/germinate_main.py:182-226 | The output loop, the whole-run writes, the reverse-dependency loop and the blacklist write list exactly the files of that specification, in order. |
| PkgDiff.InstallRemoveModes | germinate/scripts/germinate_pkg_diff.py:53-67 | Modes i and r show the same packages: those whose installed state disagrees with their seeds. What one shows as install the other shows as deinstall. |
| PkgDiff.DefaultMode | germinate/scripts/germinate_pkg_diff.py:68-75 | The default mode shows every package. Its mark is "+ ", "- " or "  " exactly when mode i would say install, deinstall or nothing. |
| PkgDiff.Package.constructor | germinate/scripts/germinate_pkg_diff.py:41-44 | A new package has no seeds and is not installed. |
| PkgDiff.Package.SetSeed | germinate/scripts/germinate_pkg_diff.py:46-47 | The seed becomes a key of the package's seeds, so naming it again changes nothing. |
| PkgDiff.Package.SetInstalled | germinate/scripts/germinate_pkg_diff.py:49-50 | The package becomes installed. |
| PkgDiff.SelectionsFacts | germinate/scripts/germinate_pkg_diff.py:152-153 | The selections are the leading lines that split into two words, each read from its own line. All lines are read exactly when all of them split. |
| PkgDiff.DpkgKeys | germinate/scripts/germinate_pkg_diff.py:152-154 | After the selections, the packages are those known before plus every selected package. |
| PkgDiff.DpkgSeeds | germinate/scripts/germinate_pkg_diff.py:152-156 | Selections never change the seeds of any package. |
| PkgDiff.DpkgInstalled | germinate/scripts/germinate_pkg_diff.py:155-156 | A package is installed afterwards exactly when it was installed before, or some selection installs or holds it. |
| PkgDiff.TagAllMeaning | germinate/scripts/germinate_pkg_diff.py:115-124 | Tagging adds exactly the listed packages and adds the tag to their seeds. Every other package is unchanged. |
| PkgDiff.BuildTreeOnly | germinate/scripts/germinate_pkg_diff.py:126-132 | The loop keeps exactly the build-depends that no inner seed lists. |
| PkgDiff.NeededSeeds | germinate/scripts/germinate_pkg_diff.py:101-109 | A request for SUPPORTED+build-depends becomes the supported seed, and other requests are kept. The build tree is on exactly when such a request is present. |
| PkgDiff.ShownFacts | germinate/scripts/germinate_pkg_diff.py:164-165 | No printed line is empty, and when no line is empty every line is printed. |
| PkgDiff.OutputFacts | germinate/scripts/germinate_pkg_diff.py:161-165 | The printed lines are never empty. In the default mode there is one line per package, in sorted name order. |
| PkgDiff.AllShown | germinate/scripts/germinate_pkg_diff.py:68-75 | In the default mode no known package's line is empty. |
| PkgDiff.Globals.constructor | germinate/scripts/germinate_pkg_diff.py:80-84 | A new comparison has no packages, no seeds and an empty mode. |
| PkgDiff.Globals.SetOutput | germinate/scripts/germinate_pkg_diff.py:158-159 | The output mode is set. |
| PkgDiff.Globals.Select | germinate/scripts/germinate_pkg_diff.py:153-156 | One selection line adds the package when it is new, and marks it installed on `install` or `hold`. Existing package objects are kept. |
| PkgDiff.Globals.Tag | germinate/scripts/germinate_pkg_diff.py:117-118 | `setdefault` then `set_seed`: the package exists afterwards and its seeds hold the tag. |
| PkgDiff.Globals.SetDefault | germinate/scripts/germinate_pkg_diff.py:154 | `setdefault` adds a package with no seeds that is not installed when the name is new; an existing package and every other package are left as they were. |
| PkgDiff.Globals.MarkInstalled | germinate/scripts/germinate_pkg_diff.py:49-50 | `set_installed` marks the named package installed and changes no other package. |
| PkgDiff.Globals.MarkSeed | germinate/scripts/germinate_pkg_diff.py:46-47 | `set_seed` adds the tag to the named package's seeds and changes no other package. |
| PkgDiff.Globals.TagAll | germinate/scripts/germinate_pkg_diff.py:116-124 | Tagging every package of a list equals the tagging specification. |
| PkgDiff.Globals.ParseDpkg | germinate/scripts/germinate_pkg_diff.py:152-156 | Reading a listing succeeds exactly when every line splits into two words. The state becomes the effect of the selections read. |
| PkgDiff.Globals.Output | germinate/scripts/germinate_pkg_diff.py:161-165 | The printed lines are exactly the non-empty package lines, in sorted name order. |
| Metapackage.SourceFieldFirst | germinate/scripts/germinate_update_metapackage.py:96-102 | The source is found exactly when some line starts with "Source:" and no line before it is exactly the empty string. Its value is the first such line after the field name, stripped. |
| Metapackage.SourceFieldOfFileLines | germinate/scripts/germinate_update_metapackage.py:96-102 | On the lines of a file, none of which is empty, the empty-line stop never fires: the source is found exactly when some line starts with "Source:", and it comes from the first such line. |
| Metapackage.FindSource | germinate/scripts/germinate_update_metapackage.py:96-102 | The control-file loop returns exactly that field. |
| Metapackage.MetapackagePrefix | germinate/scripts/germinate_update_metapackage.py:103-107 | A missing field and a name without "-meta" give their two errors. Otherwise the prefix plus "-meta" is the source name. |
| Metapackage.ArchiveBases | germinate/scripts/germinate_update_metapackage.py:137-146 | Every architecture gets its own archive bases or the default ones. The loop fails exactly when some architecture has neither, and names the first such architecture. |
| Metapackage.FirstHeaderIsFirst | germinate/scripts/germinate_update_metapackage.py:181-187 | A header's value comes from the first seed line that starts with it in any case. There is no value when no line does. |
| Metapackage.OwnSeedMapped | germinate/scripts/germinate_update_metapackage.py:188-189 | Without a configured map, a seed's own packages are always taken. |
| Metapackage.PackagesOfMembers | germinate/scripts/germinate_update_metapackage.py:190-193 | A package is listed exactly when one of the mapped seeds has it. |
| Metapackage.SeedPackages | germinate/scripts/germinate_update_metapackage.py:176-193 | `seed_packages` returns the packages of the mapped seeds, in order. |
| Metapackage.MetapackageName | germinate/scripts/germinate_update_metapackage.py:195-205 | The name is the configured one, else the first Task-Metapackage header, else PREFIX-SEED. |
| Metapackage.DependsMembers | germinate/scripts/germinate_update_metapackage.py:318-330 | A package is kept for depends exactly when it is not the metapackage, is in debootstrap for the minimal seed, and is not essential. |
| Metapackage.RecommendsMembers | germinate/scripts/germinate_update_metapackage.py:343-352 | A package is kept for recommends by the same rule without the essential test. |
| Metapackage.DependsAreNonEssentialRecommends | germinate/scripts/germinate_update_metapackage.py:318-352 | The depends are exactly the recommends rule's packages that are not essential. |
| Metapackage.NewDepends | germinate/scripts/germinate_update_metapackage.py:315-332 | The depends loop and sort give exactly the sorted filtered list. |
| Metapackage.NewRecommends | germinate/scripts/germinate_update_metapackage.py:340-354 | The recommends loop and sort give exactly the sorted filtered list. |
| Metapackage.NewDependsMeaning | germinate/scripts/germinate_update_metapackage.py:315-332 | The written depends list is sorted and holds exactly the packages the rule keeps. |
| MetapackageDelta.TallyMeaning | germinate/scripts/germinate_update_metapackage.py:372-383 | Without duplicates, a package counts +1 exactly when it is new, -1 exactly when it was dropped, and 0 when it is in both lists or in neither. |
| MetapackageDelta.CountIsMultiplicity | germinate/scripts/germinate_update_metapackage.py:375-376 | The count of a package is its multiplicity in the new list. |
| MetapackageDelta.PackageDeltaCases | germinate/scripts/germinate_update_metapackage.py:385-410 | A package moves exactly when its depends and recommends counts are opposite, and a move records nothing else. A package is never both added and removed. A depends count of +1 or -1 that is not a move records an addition or removal for the seed, and two zero counts record nothing. |
| MetapackageDelta.NoOldListsNoDelta | germinate/scripts/germinate_update_metapackage.py:374-383 | Without old lists nothing is recorded. |
| MetapackageDelta.Counts | germinate/scripts/germinate_update_metapackage.py:372-383 | The counting loops give every package its count, and the keys list each counted package once. |
| MetapackageDelta.CountNew | germinate/scripts/germinate_update_metapackage.py:375-376 | The first counting loop counts each occurrence in the new list. |
| MetapackageDelta.CountOld | germinate/scripts/germinate_update_metapackage.py:377-378 | The second counting loop takes one off each package of the old list. |
| MetapackageDelta.DependsPackage | germinate/scripts/germinate_update_metapackage.py:386-400 | One package of the first loop records its depends change or move. A move cancels its recommends count. |
| MetapackageDelta.ClassifyDepends | germinate/scripts/germinate_update_metapackage.py:385-400 | The first loop records each counted package's depends delta and updates its recommends count, package by package. |
| MetapackageDelta.RecommendsPackage | germinate/scripts/germinate_update_metapackage.py:403-410 | One package of the second loop records its recommends addition or removal. |
| MetapackageDelta.ClassifyRecommends | germinate/scripts/germinate_update_metapackage.py:402-410 | The second loop records each remaining recommends change. |
| MetapackageDelta.DeltaStep | germinate/scripts/germinate_update_metapackage.py:371-410 | For every package, the additions, removals and moves of one seed and architecture are extended by exactly that package's delta. |
| MetapackageDelta.BothLoops | germinate/scripts/germinate_update_metapackage.py:385-410 | The two loops together record each package's delta from its two counts. |
| MetapackageDelta.DeltaOfPackage | germinate/scripts/germinate_update_metapackage.py:385-410 | A package missing from either count map gets the delta of a zero count. |
| MetapackageDelta.SortedKeys | germinate/scripts/germinate_update_metapackage.py:263 | The sorted keys are sorted, free of duplicates, and the same set of keys. |
| MetapackageDelta.SeedsOfMembers | germinate/scripts/germinate_update_metapackage.py:260-262 | The seeds of the items are exactly the seeds some item names. |
| MetapackageDelta.ArchesOfMembers | germinate/scripts/germinate_update_metapackage.py:260-262 | The architectures of a seed are exactly those some item pairs with it. |
| MetapackageDelta.ChunkBare | germinate/scripts/germinate_update_metapackage.py:266-272 | A chunk is the bare seed name exactly when every configured architecture is recorded for it, and it always starts with the seed name. |
| MetapackageDelta.FormatChunks | germinate/scripts/germinate_update_metapackage.py:259-273 | The formatted text has one chunk per seed of the items, in sorted order. Each chunk names its seed and is bare exactly when every architecture is recorded. |
| MetapackageDelta.CollectArches | germinate/scripts/germinate_update_metapackage.py:260-262 | The `by_arch` loop maps each seed of the items to exactly its architectures. |
| MetapackageDelta.CollectOne | germinate/scripts/germinate_update_metapackage.py:261-262 | One item of the `by_arch` loop keeps the seeds and each seed's architectures equal to those of the items read so far. |
| MetapackageDelta.FormatChanges | germinate/scripts/germinate_update_metapackage.py:259-273 | `format_changes` returns exactly the formatting specification. |
| Setup.ChangelogVersionSound | setup.py:17-25 | A version is read only from a heading at the start of the line. Otherwise the error quotes the line. |
| Setup.ChangelogVersionComplete | setup.py:17-25 | Any heading at the start of the line gives its version, whatever follows it. |
| Setup.HeadingRoundTrip | setup.py:17-25 | The version of "SOURCE (VERSION) REST" is VERSION. |
| Setup.NoHeadingNoVersion | setup.py:21-24 | A line that does not start with a word character gives the parse error. |
| Setup.PruneDirs | setup.py:89-94 | The backward loop with in-place deletion leaves exactly the kept subdirectories, in order. It spawns one `rm -r` per removed subdirectory, last first. |
| Setup.KeptDirsFacts | setup.py:88-94 | The walk descends exactly into the subdirectories that are not hidden, not `debian`, not `__pycache__` and not `*.egg-info`. |
| Setup.KeptDirsAppend | setup.py:89-94 | Pruning two parts of the list separately equals pruning their concatenation. |
| Setup.RemovedDirsFacts | setup.py:92-94 | Exactly the `__pycache__` and `*.egg-info` subdirectories that are not pruned first are removed. |
| Setup.CleanFiles | setup.py:96-101 | The file loop spawns exactly the removal commands of the specification, in order. |
| Setup.FileRemovalsSound | setup.py:96-101 | Every command removes one file of the directory that is a `.pyc` file or a `.1` page under `./debhelper`. |
| Setup.FileRemovalsComplete | setup.py:96-101 | Every such file of the directory is removed. |
| Setup.BuildPod2man | setup.py:57-64 | The script loop spawns exactly the pod2man commands of the specification, in order. |
| Setup.Pod2manCommandsFacts | setup.py:57-64 | A page is built for a script exactly when it lives under `debhelper/` and its page does not exist. Every command builds SCRIPT.1 with the changelog version. |

## Left out

- Fetching seeds (bzr, git, HTTP) is not modelled. A `Fetcher` parameter stands for it, and the search is proved for every answer it gives. The logging of failed searches is also left out.
- `topo_sort` is not part of this model. `SeedStructure.Open` takes it as a parameter and checks that its result is a topological order. A result that is not one gives an error the source does not have.
- Opening an index URL, including the download and the decompression, is a `canOpen` parameter. `sections` is modelled as the sequence of index files it reads, not the apt tag sections inside them. The temporary directory and the progress message for a missing installer file are left out.
- The Germinator (`plant_seeds`, `grow`, its package lists, `is_essential`) is not part of this model. Its lists and the essential test are parameters.
- `SeedStructure` as a `Mapping` (`__iter__`, `__getitem__`), `write`, `write_dot`, `write_seed_text`, `AtomicFile` and `Seed`'s file-object methods only do I/O and are not modelled.
- The subprocesses of `germinate-update-metapackage` (`dch`, `dpkg-query`, `debootstrap`), its configuration-file reading and its file writes are not modelled. Their results are parameters.
- `logging.basicConfig` and the root logger are left out of `germinate_logging`. Only the `germinate` logger is modelled.
- Printing in `germinate-pkg-diff` and `germinate` becomes a returned list of lines or files. The option parsers are not modelled beyond the post-processing at the end of `parse_options`.
- Collection.SeedStructure.Add: `add(name, entries)` without a parent stores the list `[None]` in the source. The model stores the empty list, because `None` is not a seed name.
- Collection.SeedStructure.Supported: the source raises `IndexError` on an empty seed order. The model returns `None`.
- Collection.SeedStructure.Limit: requires every requested seed to be a known name. The source raises `KeyError` on an unknown one, after emptying the names and refilling them up to that seed. The model does not reproduce this error.
- Collection.SeedStructure.Add: requires the parent to be a known name. The source raises `KeyError` on an unknown parent, which the model does not reproduce.
- Collection.SeedStructure.InnerSeeds: requires the seed to be a known name. The source raises `KeyError` on an unknown seed, which the model does not reproduce.
- PkgDiff.NeededSeeds: with an empty seed order the source raises `IndexError` while reading the supported seed. The model compares with the literal `None+build-depends` instead. `MainOptions.OutputFiles` names the file the same way.
- MainOptions.AddSeedPackages: the contract does not describe the structure after an error, because the program exits on `SeedError` at that point.
- PkgDiff: `installed` is modelled as a boolean rather than the integers 0 and 1. `ParseDpkg` stops at the first line that does not split into two words, where the source raises `ValueError`.
- MetapackageDelta.CollectArches: the `by_arch` sets of `format_changes` are kept as duplicate-free lists in order of first appearance. Only their members and their sorted form are used.
- MainOptions.NormaliseOptionsFacts: the source mutates the options object in place. The model is a pure function from the parsed options to the rewritten ones.
- Whitespace in `strip`, `split` and `\s` is the ASCII characters Python counts as whitespace, the separators `\x1c`-`\x1f` included. Non-ASCII whitespace such as U+00A0 is not. `\w` is ASCII letters, digits and `_`. Case-insensitive matching folds ASCII letters only.
- Setup.PruneDirs: `os.walk` itself is not modelled. One directory step of the walk is, and the in-place deletion from `dirs` is modelled on a sequence.
- `build_extra`'s `has_pod2man` switch, `install_extra`'s `sed` call, `test_extra` and the Perl vendor-lib lookup of `setup.py` only configure or run external tools and are not modelled.
- MainOptions.WriteOutputs: the removal of an old `rdepends` directory and the creation of `rdepends`, `rdepends/ALL` and each source directory are not listed as outputs. The packages of the run and their source packages come from the germinator, which is not part of this model, so they are a parameter.
