/** One seed `STRUCTURE` file (germinate/seeds.py, `SingleSeedStructure`):
    lines `NAME: PARENT...` declare seeds in order, `include BRANCH...`
    pulls in further branches and `feature FLAG...` sets feature flags. */
module StructureFile {
  import opened Wrappers
  import opened Text
  import opened Lists

  /** What one `STRUCTURE` file holds once parsed. */
  datatype Structure = Structure(
    seedOrder: seq<string>,
    inherit: map<string, seq<string>>,
    branches: seq<string>,
    lines: seq<string>,
    features: set<string>)

  /** `w[:-1]`. */
  function DropLast(w: string): string {
    if w == [] then [] else w[..|w| - 1]
  }

  /** `line.split()[0][:-1]`: the seed a structure line declares. A line
      without words has no name; it stands for the empty one. */
  function LineName(line: string): string {
    var words := Words(line);
    if words == [] then "" else DropLast(words[0])
  }

  /** The meaning of one raw line of the file. */
  datatype Entry =
    | Skipped
    | SeedLine(name: string, parents: seq<string>, line: string)
    | Include(included: seq<string>)
    | Feature(flags: seq<string>)
    | Unparseable(text: string)

  /** A non-empty stripped line has a first word. */
  lemma StrippedHasWords(line: string)
    requires line != [] && !IsSpace(line[0])
    ensures Words(line) != []
  {
    assert LStrip(line) == line;
  }

  /** How the loop of `SingleSeedStructure.__init__` reads one line: it is
      stripped; blank and `#` lines are skipped; a first word ending in `:`
      declares a seed; `include` and `feature` are directives; anything
      else is reported as unparseable. */
  function Classify(raw: string): (e: Entry)
    ensures e.SeedLine? ==> LineName(e.line) == e.name && e.line == Strip(raw)
    ensures e.Skipped? <==> Strip(raw) == [] || StartsWith(Strip(raw), "#")
  {
    var line := Strip(raw);
    if line == [] || StartsWith(line, "#") then Skipped
    else
      StripFacts(raw);
      StrippedHasWords(line);
      ClassifyWords(line, Words(line))
  }

  /** `Classify` unfolded once, for the parsing loop. */
  lemma ClassifyCases(raw: string)
    ensures var line := Strip(raw);
      if line == [] || StartsWith(line, "#") then Classify(raw) == Skipped
      else Words(line) != [] && Classify(raw) == ClassifyWords(line, Words(line))
  {
    StripFacts(raw);
    if Strip(raw) != [] && !StartsWith(Strip(raw), "#") {
      StrippedHasWords(Strip(raw));
    }
  }

  /** The meaning of a non-blank, non-comment line split into `words`. */
  function ClassifyWords(line: string, words: seq<string>): (e: Entry)
    requires words != []
    ensures e.SeedLine? ==> e.name == DropLast(words[0]) && e.line == line
    ensures !e.Skipped?
  {
    if EndsWith(words[0], ":") then SeedLine(DropLast(words[0]), words[1..], line)
    else if words[0] == "include" then Include(words[1..])
    else if words[0] == "feature" then Feature(words[1..])
    else Unparseable(line)
  }

  /** The `SeedError` for a seed name containing `/`. */
  function SlashError(name: string): string {
    "seed name '" + name + "' may not contain '/'"
  }

  function Empty(branch: string): Structure {
    Structure([], map[], [branch], [], {})
  }

  /** The effect of one entry on the structure read so far. */
  function Step(st: Structure, e: Entry): Result<Structure> {
    match e
    case SeedLine(name, parents, line) =>
      if '/' in name then Err(SlashError(name))
      else Ok(st.(seedOrder := st.seedOrder + [name],
                  inherit := st.inherit[name := parents],
                  lines := st.lines + [line]))
    case Include(included) => Ok(st.(branches := st.branches + included))
    case Feature(flags) => Ok(st.(features := st.features + Elements(flags)))
    case _ => Ok(st)
  }

  /** The meaning of every line. */
  function Entries(lines: seq<string>): (es: seq<Entry>)
    ensures |es| == |lines|
    ensures forall i :: 0 <= i < |lines| ==> es[i] == Classify(lines[i])
  {
    seq(|lines|, i requires 0 <= i < |lines| => Classify(lines[i]))
  }

  /** The structure the entries `es` of branch `branch` describe, or the
      first error they raise. */
  function ParseEntries(branch: string, es: seq<Entry>): (r: Result<Structure>)
    ensures r.Ok? ==> |r.value.lines| == |r.value.seedOrder|
    ensures r.Ok? ==> forall n :: n in r.value.inherit <==> n in r.value.seedOrder
    ensures r.Ok? ==> forall n :: n in r.value.seedOrder ==> '/' !in n
    ensures r.Ok? ==> r.value.branches != [] && r.value.branches[0] == branch
  {
    if es == [] then Ok(Empty(branch))
    else match ParseEntries(branch, es[..|es| - 1])
      case Err(msg) => Err(msg)
      case Ok(st) => Step(st, es[|es| - 1])
  }

  /** The structure the lines of a `STRUCTURE` file describe. */
  function ParseLines(branch: string, lines: seq<string>): Result<Structure> {
    ParseEntries(branch, Entries(lines))
  }

  /** Once a prefix of the entries fails, the whole parse fails with the
      same error: nothing after the failing line is read. */
  lemma {:induction false} ErrorStops(branch: string, es: seq<Entry>, k: nat)
    requires k <= |es|
    requires ParseEntries(branch, es[..k]).Err?
    ensures ParseEntries(branch, es) == ParseEntries(branch, es[..k])
    decreases |es| - k
  {
    if k < |es| {
      assert es[..|es| - 1][..k] == es[..k];
      ErrorStops(branch, es[..|es| - 1], k);
    } else {
      assert es[..k] == es;
    }
  }

  /** `SingleSeedStructure(branch, f)`: reads the lines of the file one by
      one, appending to the seed order, the kept lines and the branches,
      and updating the inheritance map and the feature set. */
  method ParseStructure(branch: string, text: string) returns (r: Result<Structure>)
    ensures r == ParseLines(branch, LinesOf(text))
  {
    var lines := LinesOf(text);
    ghost var es := Entries(lines);
    var st := Empty(branch);
    var i := 0;
    while i < |lines|
      invariant 0 <= i <= |lines|
      invariant ParseEntries(branch, es[..i]) == Ok(st)
    {
      TakeOneMore(es, i);
      var next := ReadLine(st, lines[i]);
      if next.Err? {
        ErrorStops(branch, es, i + 1);
        return next;
      }
      st := next.value;
      i := i + 1;
    }
    TakeAll(es);
    return Ok(st);
  }

  /** The body of the parsing loop for one raw line. */
  method ReadLine(st: Structure, raw: string) returns (r: Result<Structure>)
    ensures r == Step(st, Classify(raw))
  {
    ClassifyCases(raw);
    var line := Strip(raw);
    if line == [] || StartsWith(line, "#") {
      return Ok(st);
    }
    var words := Words(line);
    if EndsWith(words[0], ":") {
      var seed := DropLast(words[0]);
      if '/' in seed {
        return Err(SlashError(seed));
      }
      r := Ok(st.(seedOrder := st.seedOrder + [seed], inherit := st.inherit[seed := words[1..]],
                  lines := st.lines + [line]));
    } else if words[0] == "include" {
      r := Ok(st.(branches := st.branches + words[1..]));
    } else if words[0] == "feature" {
      r := Ok(st.(features := st.features + Elements(words[1..])));
    } else {
      r := Ok(st);
    }
  }

  /** Whether entry `e` declares a seed whose name contains `/`. */
  predicate BadDeclaration(e: Entry) {
    e.SeedLine? && '/' in e.name
  }

  /** Parsing fails exactly when some line declares a seed name with a
      `/`, and then with the message naming the first such seed. */
  lemma {:induction false} ParseErrors(branch: string, es: seq<Entry>)
    ensures ParseEntries(branch, es).Err? <==> exists i :: 0 <= i < |es| && BadDeclaration(es[i])
    ensures ParseEntries(branch, es).Err? ==>
      exists i :: 0 <= i < |es| && BadDeclaration(es[i])
        && (forall k :: 0 <= k < i ==> !BadDeclaration(es[k]))
        && ParseEntries(branch, es).msg == SlashError(es[i].name)
  {
    if es != [] {
      var init := es[..|es| - 1];
      assert forall k :: 0 <= k < |init| ==> init[k] == es[k];
      ParseErrors(branch, init);
      if ParseEntries(branch, init).Err? {
        var i :| 0 <= i < |init| && BadDeclaration(init[i])
          && (forall k :: 0 <= k < i ==> !BadDeclaration(init[k]))
          && ParseEntries(branch, init).msg == SlashError(init[i].name);
        assert BadDeclaration(es[i]);
      }
    }
  }

  /** The seed lines among the entries, in order: a reference definition
      independent of the parser. */
  function Declarations(es: seq<Entry>): (r: seq<Entry>)
    ensures forall i :: 0 <= i < |r| ==> r[i].SeedLine? && r[i] in es
  {
    if es == [] then []
    else Declarations(es[..|es| - 1]) + (if es[|es| - 1].SeedLine? then [es[|es| - 1]] else [])
  }

  /** The branches the `include` lines name, in order. */
  function Included(es: seq<Entry>): seq<string> {
    if es == [] then []
    else Included(es[..|es| - 1]) + (if es[|es| - 1].Include? then es[|es| - 1].included else [])
  }

  /** The flags the `feature` lines name. */
  function Flags(es: seq<Entry>): set<string> {
    if es == [] then {}
    else Flags(es[..|es| - 1]) + (if es[|es| - 1].Feature? then Elements(es[|es| - 1].flags) else {})
  }

  /** The parents the last declaration of `name` gives. */
  function LastParents(decls: seq<Entry>, name: string): Option<seq<string>>
    requires forall i :: 0 <= i < |decls| ==> decls[i].SeedLine?
  {
    if decls == [] then None
    else if decls[|decls| - 1].name == name then Some(decls[|decls| - 1].parents)
    else LastParents(decls[..|decls| - 1], name)
  }

  /** Each kept line of a parsed file declares the seed at the same
      position of the seed order. */
  lemma KeptLinesNamed(branch: string, lines: seq<string>)
    requires ParseLines(branch, lines).Ok?
    ensures var st := ParseLines(branch, lines).value;
      forall i :: 0 <= i < |st.lines| ==> LineName(st.lines[i]) == st.seedOrder[i]
  {
    var es := Entries(lines);
    ParseKeepsDeclarations(branch, es);
    var decls := Declarations(es);
    forall i | 0 <= i < |decls| ensures LineName(decls[i].line) == decls[i].name {
      var j :| 0 <= j < |es| && es[j] == decls[i];
      assert decls[i] == Classify(lines[j]);
    }
  }

  /** A successful parse keeps every declaration in order, in the seed
      order and in the kept lines. */
  lemma {:induction false} ParseKeepsDeclarations(branch: string, es: seq<Entry>)
    requires ParseEntries(branch, es).Ok?
    ensures var st := ParseEntries(branch, es).value;
      var decls := Declarations(es);
      |st.seedOrder| == |decls|
      && forall i :: 0 <= i < |decls| ==> st.seedOrder[i] == decls[i].name && st.lines[i] == decls[i].line
  {
    if es != [] {
      ParseKeepsDeclarations(branch, es[..|es| - 1]);
    }
  }

  /** A later declaration of a name overrides the parents an earlier one
      gave. */
  lemma {:induction false} ParseLastParents(branch: string, es: seq<Entry>)
    requires ParseEntries(branch, es).Ok?
    ensures var st := ParseEntries(branch, es).value;
      forall n :: n in st.inherit ==> LastParents(Declarations(es), n) == Some(st.inherit[n])
  {
    if es != [] {
      var init := es[..|es| - 1];
      ParseLastParents(branch, init);
      var e := es[|es| - 1];
      var st0 := ParseEntries(branch, init).value;
      var st := ParseEntries(branch, es).value;
      var decls := Declarations(es);
      if e.SeedLine? {
        assert decls == Declarations(init) + [e];
        assert Declarations(init) == decls[..|decls| - 1];
        assert st.inherit == st0.inherit[e.name := e.parents];
        forall n | n in st.inherit ensures LastParents(decls, n) == Some(st.inherit[n]) {
          if n != e.name {
            assert n in st0.inherit;
          }
        }
      } else {
        assert decls == Declarations(init);
        assert st.inherit == st0.inherit;
      }
    }
  }

  /** The branch list is the branch itself and then every included branch,
      and the feature set holds every flag. */
  lemma {:induction false} ParseBranchesAndFlags(branch: string, es: seq<Entry>)
    requires ParseEntries(branch, es).Ok?
    ensures ParseEntries(branch, es).value.branches == [branch] + Included(es)
    ensures ParseEntries(branch, es).value.features == Flags(es)
  {
    if es != [] {
      ParseBranchesAndFlags(branch, es[..|es| - 1]);
    }
  }
}
