/**
 * Package declarations. Every parameter declared anywhere in the package,
 * with `parameter` or `localparam`, is extracted as a LocalParam with the
 * declaration's data type, one per assignment and in traversal order.
 */
module PackageExtraction {
  import opened Wrappers
  import opened Syntax
  import opened Structures
  import opened Panics
  import opened Folds
  import SvMisc
  import PortExtraction
  import ModuleExtraction

  predicate IsPackageIdentifier(t: Tag) { t.PackageIdentifier? }

  /** The declarations whose assignments a package records. */
  predicate IsPackageParamDeclaration(t: Tag) { t.ParameterDeclarationParam? || t.LocalParameterDeclarationParam? }

  predicate IsAssignmentList(t: Tag) { t.ListOfParamAssignments? }

  /** `package_identifier`, unwrapped: the identifier below the first PackageIdentifier. */
  function PackageIdentifierOf(m: Node): (r: Result<string, Panic>)
    ensures r.Ok? <==> Contains(m, IsPackageIdentifier) && SvMisc.Identifier(Find(m, IsPackageIdentifier).value).Some?
    ensures r.Ok? ==> Some(r.value) == SvMisc.Identifier(Find(m, IsPackageIdentifier).value)
  {
    var id :- Unwrap(Find(m, IsPackageIdentifier));
    Unwrap(SvMisc.Identifier(id))
  }

  /** The assignment list of a declaration, which its grammar always has. */
  function AssignmentListOf(decl: Node): (r: Result<Node, Panic>)
    ensures r.Ok? <==> Contains(decl, IsAssignmentList)
    ensures r.Ok? ==> r.value == Find(decl, IsAssignmentList).value
  {
    Unwrap(Find(decl, IsAssignmentList))
  }

  /** One visited node: a parameter declaration adds its assignments as LocalParams. */
  function DeclarationStep(n: Node): Result<seq<SvParameter>, Panic> {
    if IsPackageParamDeclaration(n.tag) then
      var a :- AssignmentListOf(n);
      ModuleExtraction.AssignmentsOf(a, Find(n, IsCommonData), LocalParam)
    else Ok([])
  }

  function DeclarationSteps(): Node -> Result<seq<SvParameter>, Panic> {
    (n: Node) => DeclarationStep(n)
  }

  predicate IsCommonData(t: Tag) { t.DataType? || t.DataTypeOrImplicit? }

  /** What `package_declaration` returns for the package `m`. */
  function PackageDeclarationOf(m: Node, filepath: string): (r: Result<SvPackageDeclaration, Panic>)
    ensures r.Ok? ==> Ok(r.value.identifier) == PackageIdentifierOf(m) && r.value.filepath == filepath
    ensures r.Ok? ==> Ok(r.value.parameters) == FoldSteps(Nodes(Stream(m)), DeclarationSteps())
    ensures r.Ok? <==> PackageIdentifierOf(m).Ok? && FoldSteps(Nodes(Stream(m)), DeclarationSteps()).Ok?
  {
    var identifier :- PackageIdentifierOf(m);
    var parameters :- FoldSteps(Nodes(Stream(m)), DeclarationSteps());
    Ok(SvPackageDeclaration(identifier, parameters, filepath))
  }

  /** One visited node of `package_declaration`: a parameter declaration's assignments, as LocalParams. */
  method DeclarationOf(node: Node) returns (r: Result<seq<SvParameter>, Panic>)
    ensures r == DeclarationSteps()(node)
  {
    assert DeclarationSteps()(node) == DeclarationStep(node);
    if IsPackageParamDeclaration(node.tag) {
      var commonData := Find(node, IsCommonData);
      var a :- AssignmentListOf(node);
      r := ModuleExtraction.AssignmentsAnsi(a, commonData, LocalParam);
    } else {
      r := Ok([]);
    }
  }

  /** The loop of `package_declaration` over the package's nodes. */
  method DeclarationsOf(ns: seq<Node>) returns (r: Result<seq<SvParameter>, Panic>)
    ensures r == FoldSteps(ns, DeclarationSteps())
  {
    var parameters: seq<SvParameter> := [];
    var i := 0;
    while i < |ns|
      invariant 0 <= i <= |ns|
      invariant FoldSteps(ns[..i], DeclarationSteps()) == Ok(parameters)
    {
      FoldStepsNext(ns, i, DeclarationSteps());
      var added := DeclarationOf(ns[i]);
      if added.Err? {
        FoldStepsStopPersists(ns, i + 1, DeclarationSteps());
        return Err(added.error);
      }
      parameters := parameters + added.value;
      i := i + 1;
    }
    assert ns[..i] == ns;
    return Ok(parameters);
  }

  /** `package_declaration`: the package's identifier and the parameters of its declarations. */
  method PackageDeclaration(m: Node, filepath: string) returns (r: Result<SvPackageDeclaration, Panic>)
    ensures r == PackageDeclarationOf(m, filepath)
  {
    var identifier :- PackageIdentifierOf(m);
    var parameters :- DeclarationsOf(Nodes(Stream(m)));
    return Ok(SvPackageDeclaration(identifier, parameters, filepath));
  }

  /** A package parameter is a LocalParam that can override neither its data type nor its signedness. */
  ghost predicate IsPackageParameter(q: SvParameter) {
    q.paramType == LocalParam && !q.dataTypeOverridable && !q.signednessOverridable
  }

  /** Every parameter an assignment step adds with type LocalParam is a package parameter. */
  lemma AssignmentStepsLocal(common: Option<Node>)
    ensures forall x: Node :: ModuleExtraction.AssignmentSteps(common, LocalParam)(x).Ok? ==>
              forall q :: q in ModuleExtraction.AssignmentSteps(common, LocalParam)(x).value ==> IsPackageParameter(q)
  {
    forall x: Node | ModuleExtraction.AssignmentSteps(common, LocalParam)(x).Ok?
      ensures forall q :: q in ModuleExtraction.AssignmentSteps(common, LocalParam)(x).value ==> IsPackageParameter(q)
    {
      assert ModuleExtraction.AssignmentSteps(common, LocalParam)(x) == ModuleExtraction.AssignmentStep(common, LocalParam, x);
      AssignmentStepLocal(common, x);
    }
  }

  /** The parameter one assignment adds with type LocalParam is a package parameter. */
  lemma AssignmentStepLocal(common: Option<Node>, x: Node)
    requires ModuleExtraction.AssignmentStep(common, LocalParam, x).Ok?
    ensures forall q :: q in ModuleExtraction.AssignmentStep(common, LocalParam, x).value ==> IsPackageParameter(q)
  {
    if x.tag.ParamAssignment? {
      var q := PortExtraction.PortParameterDeclarationAnsi(x, common, LocalParam).value;
      assert ModuleExtraction.AssignmentStep(common, LocalParam, x).value == [q];
      assert IsPackageParameter(q);
    }
  }

  /** Every assignment one declaration step adds is a package parameter. */
  lemma DeclarationStepLocal(n: Node)
    requires DeclarationStep(n).Ok?
    ensures forall q :: q in DeclarationStep(n).value ==> IsPackageParameter(q)
  {
    if IsPackageParamDeclaration(n.tag) {
      var a := AssignmentListOf(n).value;
      var common := Find(n, IsCommonData);
      AssignmentStepsLocal(common);
      FoldStepsEvery(Nodes(Stream(a)), ModuleExtraction.AssignmentSteps(common, LocalParam), IsPackageParameter);
    }
  }

  /** Every assignment a declaration step adds is a package parameter. */
  lemma DeclarationStepsLocal()
    ensures forall n: Node :: DeclarationSteps()(n).Ok? ==>
              forall q :: q in DeclarationSteps()(n).value ==> IsPackageParameter(q)
  {
    forall n: Node | DeclarationSteps()(n).Ok?
      ensures forall q :: q in DeclarationSteps()(n).value ==> IsPackageParameter(q)
    {
      assert DeclarationSteps()(n) == DeclarationStep(n);
      DeclarationStepLocal(n);
    }
  }

  /** Every parameter of a package is a LocalParam, and none is overridable,
      whether it was declared with `parameter` or with `localparam`. */
  lemma PackageParametersLocal(m: Node, filepath: string)
    requires PackageDeclarationOf(m, filepath).Ok?
    ensures forall q :: q in PackageDeclarationOf(m, filepath).value.parameters ==> IsPackageParameter(q)
  {
    DeclarationStepsLocal();
    FoldStepsEvery(Nodes(Stream(m)), DeclarationSteps(), IsPackageParameter);
  }

  /** The number of assignments a node contributes: those of its list when it is a parameter declaration. */
  function DeclarationWeight(n: Node): nat {
    if IsPackageParamDeclaration(n.tag) && Contains(n, IsAssignmentList) then
      SumOver(Nodes(Stream(Find(n, IsAssignmentList).value)), ModuleExtraction.AssignmentWeight)
    else 0
  }

  /** A package has one parameter per assignment of each of its parameter declarations. */
  lemma PackageParametersCounted(m: Node, filepath: string)
    requires PackageDeclarationOf(m, filepath).Ok?
    ensures |PackageDeclarationOf(m, filepath).value.parameters| == SumOver(Nodes(Stream(m)), DeclarationWeight)
  {
    forall n: Node | DeclarationSteps()(n).Ok?
      ensures |DeclarationSteps()(n).value| == DeclarationWeight(n)
    {
      assert DeclarationSteps()(n) == DeclarationStep(n);
      if IsPackageParamDeclaration(n.tag) {
        ModuleExtraction.AssignmentsCounted(AssignmentListOf(n).value, Find(n, IsCommonData), LocalParam);
      }
    }
    FoldStepsLength(Nodes(Stream(m)), DeclarationSteps(), DeclarationWeight);
  }

  /** An assignment without a default anywhere in a parameter declaration of the package stops the extraction. */
  lemma PackageParameterWithoutDefault(m: Node, filepath: string, decl: Node, x: Node)
    requires Enter(decl) in Stream(m) && IsPackageParamDeclaration(decl.tag) && Contains(decl, IsAssignmentList)
    requires Enter(x) in Stream(Find(decl, IsAssignmentList).value) && x.tag.ParamAssignment?
    requires !PortExtraction.PortParameterCheckDefaultAnsi(x)
    ensures PackageDeclarationOf(m, filepath).Err?
  {
    var a := Find(decl, IsAssignmentList).value;
    var common := Find(decl, IsCommonData);
    var xs := Nodes(Stream(a));
    var k :| 0 <= k < |xs| && xs[k] == x;
    assert ModuleExtraction.AssignmentSteps(common, LocalParam)(x) == ModuleExtraction.AssignmentStep(common, LocalParam, x);
    FoldStepsErrs(xs, k, ModuleExtraction.AssignmentSteps(common, LocalParam));
    var ns := Nodes(Stream(m));
    var j :| 0 <= j < |ns| && ns[j] == decl;
    assert DeclarationSteps()(decl) == DeclarationStep(decl);
    FoldStepsErrs(ns, j, DeclarationSteps());
  }
}
