/**
 * The entry point: a parsed file's syntax tree is walked once, and every
 * ANSI module declaration and every package declaration entered is
 * extracted, in traversal order, into the file's `SvData`.
 */
module Library {
  import opened Wrappers
  import opened Syntax
  import opened Structures
  import opened Panics
  import opened Folds
  import ModuleExtraction
  import PackageExtraction

  /** One event of the file: an entered ANSI module or package is extracted and appended. */
  function DataEventStep(tree: Node, filepath: string, d: SvData, e: Event): (r: Result<SvData, Panic>)
    ensures e.Leave? ==> r == Ok(d)
  {
    if e.Enter? then
      var node := e.node;
      if node.tag.ModuleDeclarationAnsi? then
        var m :- ModuleExtraction.ModuleDeclarationAnsiOf(node, tree, filepath);
        Ok(d.(modules := d.modules + [m]))
      else if node.tag.PackageDeclaration? then
        var p :- PackageExtraction.PackageDeclarationOf(node, filepath);
        Ok(d.(packages := d.packages + [p]))
      else Ok(d)
    else Ok(d)
  }

  function DataSteps(tree: Node, filepath: string): (SvData, Event) -> Result<SvData, Panic> {
    (d: SvData, e: Event) => DataEventStep(tree, filepath, d, e)
  }

  /** What `sv_to_structure` leaves in `svdata` for the syntax tree `tree`. */
  function SvToStructureOf(tree: Node, filepath: string, svdata: SvData): Result<SvData, Panic> {
    Scan(svdata, Stream(tree), DataSteps(tree, filepath))
  }

  /** The body of the loop of `sv_to_structure`: one event of the file. */
  method DataEvent(tree: Node, filepath: string, d: SvData, e: Event) returns (r: Result<SvData, Panic>)
    ensures r == DataEventStep(tree, filepath, d, e)
  {
    var enterNotLeave := e.Enter?;
    var node := e.node;
    if enterNotLeave {
      if node.tag.ModuleDeclarationAnsi? {
        var m := ModuleExtraction.ModuleDeclarationAnsi(node, tree, filepath);
        if m.Err? {
          return Err(m.error);
        }
        return Ok(d.(modules := d.modules + [m.value]));
      } else if node.tag.PackageDeclaration? {
        var p := PackageExtraction.PackageDeclaration(node, filepath);
        if p.Err? {
          return Err(p.error);
        }
        return Ok(d.(packages := d.packages + [p.value]));
      }
    }
    return Ok(d);
  }

  /** `sv_to_structure`: the loop over the tree's events. */
  method SvToStructure(tree: Node, filepath: string, svdata: SvData) returns (r: Result<SvData, Panic>)
    ensures r == SvToStructureOf(tree, filepath, svdata)
  {
    var d := svdata;
    var evs := Stream(tree);
    var i := 0;
    while i < |evs|
      invariant 0 <= i <= |evs|
      invariant Scan(svdata, evs[..i], DataSteps(tree, filepath)) == Ok(d)
    {
      ScanNext(svdata, evs, i, DataSteps(tree, filepath));
      var next := DataEvent(tree, filepath, d, evs[i]);
      if next.Err? {
        ScanStopPersists(svdata, evs, i + 1, DataSteps(tree, filepath));
        return Err(next.error);
      }
      d := next.value;
      i := i + 1;
    }
    assert evs[..i] == evs;
    return Ok(d);
  }

  /** Why reading a file gives no data: it does not parse, or extraction stopped. */
  datatype ReadError = CouldNotParse(filePath: string) | Stopped(panic: Panic)

  /**
   * `read_sv_file`. Parsing the file is not modelled: `parsed` is the
   * parser's result, a syntax tree or nothing when the file does not parse.
   */
  function ReadSvFile(filePath: string, parsed: Option<Node>): (r: Result<SvData, ReadError>)
    ensures parsed.None? ==> r == Err(CouldNotParse(filePath))
    ensures parsed.Some? ==>
      match SvToStructureOf(parsed.value, filePath, NewSvData())
      case Ok(d) => r == Ok(d)
      case Err(p) => r == Err(Stopped(p))
  {
    match parsed
    case None => Err(CouldNotParse(filePath))
    case Some(tree) =>
      match SvToStructureOf(tree, filePath, SvData([], []))
      case Ok(d) => Ok(d)
      case Err(p) => Err(Stopped(p))
  }

  // ---------------------------------------------------------------------
  // What the file loop collects.
  // ---------------------------------------------------------------------

  /** The module an entered node contributes: its extraction when it is an ANSI module declaration. */
  function ModuleStep(tree: Node, filepath: string, n: Node): Result<seq<SvModuleDeclaration>, Panic> {
    if n.tag.ModuleDeclarationAnsi? then
      var m :- ModuleExtraction.ModuleDeclarationAnsiOf(n, tree, filepath);
      Ok([m])
    else Ok([])
  }

  function ModuleSteps(tree: Node, filepath: string): Node -> Result<seq<SvModuleDeclaration>, Panic> {
    (n: Node) => ModuleStep(tree, filepath, n)
  }

  /** The package an entered node contributes: its extraction when it is a package declaration. */
  function PackageStep(filepath: string, n: Node): Result<seq<SvPackageDeclaration>, Panic> {
    if n.tag.PackageDeclaration? then
      var p :- PackageExtraction.PackageDeclarationOf(n, filepath);
      Ok([p])
    else Ok([])
  }

  function PackageSteps(filepath: string): Node -> Result<seq<SvPackageDeclaration>, Panic> {
    (n: Node) => PackageStep(filepath, n)
  }

  /** One event appends the module and the package its node gives when entered, and nothing when left. */
  lemma DataEventEffect(tree: Node, filepath: string, d: SvData, e: Event)
    requires DataEventStep(tree, filepath, d, e).Ok?
    ensures e.Enter? ==> ModuleSteps(tree, filepath)(e.node).Ok? && PackageSteps(filepath)(e.node).Ok?
    ensures e.Enter? ==>
      var r := DataEventStep(tree, filepath, d, e).value;
      r.modules == d.modules + ModuleSteps(tree, filepath)(e.node).value
      && r.packages == d.packages + PackageSteps(filepath)(e.node).value
  {
    assert ModuleSteps(tree, filepath)(e.node) == ModuleStep(tree, filepath, e.node);
    assert PackageSteps(filepath)(e.node) == PackageStep(filepath, e.node);
    assert d.modules + [] == d.modules && d.packages + [] == d.packages;
  }

  function ModulesField(): SvData -> seq<SvModuleDeclaration> { (d: SvData) => d.modules }

  function PackagesField(): SvData -> seq<SvPackageDeclaration> { (d: SvData) => d.packages }

  /** The file loop's step appends what a module extraction and a package extraction give. */
  lemma DataStepsAppend(tree: Node, filepath: string)
    ensures Appends(DataSteps(tree, filepath), ModulesField(), ModuleSteps(tree, filepath))
    ensures Appends(DataSteps(tree, filepath), PackagesField(), PackageSteps(filepath))
  {
    forall d: SvData, e: Event | DataSteps(tree, filepath)(d, e).Ok?
      ensures e.Leave? ==> DataSteps(tree, filepath)(d, e).value == d
      ensures e.Enter? ==> ModuleSteps(tree, filepath)(e.node).Ok? && PackageSteps(filepath)(e.node).Ok?
                           && DataSteps(tree, filepath)(d, e).value.modules == d.modules + ModuleSteps(tree, filepath)(e.node).value
                           && DataSteps(tree, filepath)(d, e).value.packages == d.packages + PackageSteps(filepath)(e.node).value
    {
      DataEventEffect(tree, filepath, d, e);
    }
  }

  /**
   * After a run of events, the modules and packages appended are those of
   * the nodes entered, in Enter order; left nodes add nothing.
   */
  lemma CollectedInOrder(tree: Node, filepath: string, d0: SvData, evs: seq<Event>)
    requires Scan(d0, evs, DataSteps(tree, filepath)).Ok?
    ensures FoldSteps(Nodes(evs), ModuleSteps(tree, filepath)).Ok?
    ensures FoldSteps(Nodes(evs), PackageSteps(filepath)).Ok?
    ensures var d := Scan(d0, evs, DataSteps(tree, filepath)).value;
            d.modules == d0.modules + FoldSteps(Nodes(evs), ModuleSteps(tree, filepath)).value
            && d.packages == d0.packages + FoldSteps(Nodes(evs), PackageSteps(filepath)).value
  {
    DataStepsAppend(tree, filepath);
    ScanCollects(DataSteps(tree, filepath), ModulesField(), ModuleSteps(tree, filepath), d0, evs);
    ScanCollects(DataSteps(tree, filepath), PackagesField(), PackageSteps(filepath), d0, evs);
  }

  /** 1 for an ANSI module declaration, 0 for every other node (a non-ANSI declaration included). */
  function AnsiModuleWeight(n: Node): nat { if n.tag.ModuleDeclarationAnsi? then 1 else 0 }

  /** 1 for a package declaration, 0 for every other node. */
  function PackageWeight(n: Node): nat { if n.tag.PackageDeclaration? then 1 else 0 }

  /** Every module read from a file carries its path. */
  ghost predicate ModuleFrom(filepath: string, m: SvModuleDeclaration) { m.filepath == filepath }

  /** Every package read from a file carries its path. */
  ghost predicate PackageFrom(filepath: string, p: SvPackageDeclaration) { p.filepath == filepath }

  /**
   * A file that parses gives one module per ANSI module declaration and one
   * package per package declaration, in traversal order, each carrying the
   * file's path. Non-ANSI module declarations are not collected.
   */
  lemma ReadSvFileCollects(filePath: string, tree: Node)
    requires ReadSvFile(filePath, Some(tree)).Ok?
    ensures var d := ReadSvFile(filePath, Some(tree)).value;
            && Ok(d.modules) == FoldSteps(Nodes(Stream(tree)), ModuleSteps(tree, filePath))
            && Ok(d.packages) == FoldSteps(Nodes(Stream(tree)), PackageSteps(filePath))
            && |d.modules| == SumOver(Nodes(Stream(tree)), AnsiModuleWeight)
            && |d.packages| == SumOver(Nodes(Stream(tree)), PackageWeight)
            && (forall m :: m in d.modules ==> ModuleFrom(filePath, m))
            && (forall p :: p in d.packages ==> PackageFrom(filePath, p))
  {
    var d0 := SvData([], []);
    CollectedInOrder(tree, filePath, d0, Stream(tree));
    var ns := Nodes(Stream(tree));
    var ms := FoldSteps(ns, ModuleSteps(tree, filePath)).value;
    var ps := FoldSteps(ns, PackageSteps(filePath)).value;
    assert [] + ms == ms && [] + ps == ps;
    ModuleStepsShape(tree, filePath);
    PackageStepsShape(filePath);
    FoldStepsLength(ns, ModuleSteps(tree, filePath), AnsiModuleWeight);
    FoldStepsLength(ns, PackageSteps(filePath), PackageWeight);
    FoldStepsEvery(ns, ModuleSteps(tree, filePath), (m: SvModuleDeclaration) => ModuleFrom(filePath, m));
    FoldStepsEvery(ns, PackageSteps(filePath), (p: SvPackageDeclaration) => PackageFrom(filePath, p));
  }

  /** An ANSI module declaration gives one module carrying the file path; any other node gives none. */
  lemma ModuleStepsShape(tree: Node, filePath: string)
    ensures forall n: Node :: ModuleSteps(tree, filePath)(n).Ok? ==> |ModuleSteps(tree, filePath)(n).value| == AnsiModuleWeight(n)
    ensures forall n: Node :: ModuleSteps(tree, filePath)(n).Ok? ==>
      forall m :: m in ModuleSteps(tree, filePath)(n).value ==> ModuleFrom(filePath, m)
  {
    forall n: Node | ModuleSteps(tree, filePath)(n).Ok?
      ensures |ModuleSteps(tree, filePath)(n).value| == AnsiModuleWeight(n)
      ensures forall m :: m in ModuleSteps(tree, filePath)(n).value ==> ModuleFrom(filePath, m)
    {
      assert ModuleSteps(tree, filePath)(n) == ModuleStep(tree, filePath, n);
      if n.tag.ModuleDeclarationAnsi? {
        ModuleExtraction.ModuleAnsiIdentity(n, tree, filePath);
      }
    }
  }

  /** A package declaration gives one package carrying the file path; any other node gives none. */
  lemma PackageStepsShape(filePath: string)
    ensures forall n: Node :: PackageSteps(filePath)(n).Ok? ==> |PackageSteps(filePath)(n).value| == PackageWeight(n)
    ensures forall n: Node :: PackageSteps(filePath)(n).Ok? ==>
      forall p :: p in PackageSteps(filePath)(n).value ==> PackageFrom(filePath, p)
  {
    forall n: Node | PackageSteps(filePath)(n).Ok?
      ensures |PackageSteps(filePath)(n).value| == PackageWeight(n)
      ensures forall p :: p in PackageSteps(filePath)(n).value ==> PackageFrom(filePath, p)
    {
      assert PackageSteps(filePath)(n) == PackageStep(filePath, n);
    }
  }

  /** A file that parses and declares neither modules nor packages gives two empty lists. */
  lemma ReadSvFileEmpty(filePath: string, tree: Node)
    requires forall n :: Enter(n) in Stream(tree) ==> !n.tag.ModuleDeclarationAnsi? && !n.tag.PackageDeclaration?
    ensures ReadSvFile(filePath, Some(tree)) == Ok(SvData([], []))
  {
    var ns := Nodes(Stream(tree));
    forall k | 0 <= k < |ns|
      ensures ModuleSteps(tree, filePath)(ns[k]) == Ok([]) && PackageSteps(filePath)(ns[k]) == Ok([])
    {
      assert ns[k] in ns;
      assert ModuleSteps(tree, filePath)(ns[k]) == ModuleStep(tree, filePath, ns[k]);
      assert PackageSteps(filePath)(ns[k]) == PackageStep(filePath, ns[k]);
    }
    FoldStepsNothing(ns, ModuleSteps(tree, filePath));
    FoldStepsNothing(ns, PackageSteps(filePath));
    ScanNothing(tree, filePath, SvData([], []), Stream(tree));
  }

  /** Events that enter no module or package declaration leave the data as it was. */
  lemma {:induction false} ScanNothing(tree: Node, filepath: string, d: SvData, evs: seq<Event>)
    requires forall n :: Enter(n) in evs ==> !n.tag.ModuleDeclarationAnsi? && !n.tag.PackageDeclaration?
    ensures Scan(d, evs, DataSteps(tree, filepath)) == Ok(d)
    decreases |evs|
  {
    if evs != [] {
      var pre := evs[..|evs| - 1];
      forall n | Enter(n) in pre ensures Enter(n) in evs { }
      ScanNothing(tree, filepath, d, pre);
      assert evs[|evs| - 1] in evs;
    }
  }
}
