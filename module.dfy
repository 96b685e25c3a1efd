/**
 * ANSI module declarations. The events of the module's syntax tree are
 * visited in order: a stack of the textual renderings of the open nodes is
 * kept, the parameter port list yields the parameters, every ANSI port and
 * every instantiation is extracted when entered (each port seeing the one
 * before it), and comments directly inside the module header are collected.
 */
module ModuleExtraction {
  import opened Wrappers
  import opened Syntax
  import opened Structures
  import opened Panics
  import opened Folds
  import SvMisc
  import Text
  import PortExtraction
  import InstanceExtraction

  predicate IsModuleIdentifier(t: Tag) { t.ModuleIdentifier? }

  /** The kinds that open a parameter declaration with a common type. */
  predicate IsParamDeclaration(t: Tag) {
    t.ParameterDeclarationParam? || t.LocalParameterDeclarationParam? || t.ParameterPortDeclarationParamList?
  }

  /** The node holding a declaration's data type. */
  predicate IsCommonData(t: Tag) { t.DataType? || t.DataTypeOrImplicit? }

  // ---------------------------------------------------------------------
  // if_module_comment
  // ---------------------------------------------------------------------

  predicate IsHeader(state: string) { Text.Contains(state, "ModuleAnsiHeader") }

  predicate IsQuiet(state: string) { Text.Contains(state, "WhiteSpace") || Text.Contains(state, "Symbol") }

  /** Walking the stack from the top until a module header, every entry met is whitespace or a symbol. */
  function IfModuleComment(parents: seq<string>): bool {
    if parents == [] then true
    else
      var top := parents[|parents| - 1];
      if IsHeader(top) then true
      else IsQuiet(top) && IfModuleComment(parents[..|parents| - 1])
  }

  /** No entry from `i` to the top is a module header. */
  ghost predicate NoHeaderFrom(parents: seq<string>, i: int) {
    forall j :: 0 <= i <= j < |parents| ==> !IsHeader(parents[j])
  }

  /** Every entry above the nearest module header (the whole stack when there is none) is quiet. */
  ghost predicate QuietAboveHeader(parents: seq<string>) {
    forall i :: 0 <= i < |parents| && NoHeaderFrom(parents, i) ==> IsQuiet(parents[i])
  }

  /** A module header on top of the stack leaves nothing above it. */
  lemma HeaderOnTop(parents: seq<string>)
    requires parents != [] && IsHeader(parents[|parents| - 1])
    ensures QuietAboveHeader(parents)
  {
    forall i | 0 <= i < |parents|
      ensures !NoHeaderFrom(parents, i)
    {
    }
  }

  /** Below a top entry that is no header, "no header from `i`" is the same with or without the top. */
  lemma NoHeaderBelowTop(parents: seq<string>, i: int)
    requires parents != [] && !IsHeader(parents[|parents| - 1]) && 0 <= i < |parents| - 1
    ensures NoHeaderFrom(parents, i) <==> NoHeaderFrom(parents[..|parents| - 1], i)
  {
    var pre := parents[..|parents| - 1];
    if NoHeaderFrom(pre, i) {
      forall j | i <= j < |parents|
        ensures !IsHeader(parents[j])
      {
        if j < |pre| {
          assert parents[j] == pre[j];
        }
      }
    }
    if NoHeaderFrom(parents, i) {
      forall j | i <= j < |pre|
        ensures !IsHeader(pre[j])
      {
        assert parents[j] == pre[j];
      }
    }
  }

  /** Below a top entry that is no header: all quiet above the header means the top and the rest are. */
  lemma QuietBelowTop(parents: seq<string>)
    requires parents != [] && !IsHeader(parents[|parents| - 1])
    ensures QuietAboveHeader(parents) <==>
      IsQuiet(parents[|parents| - 1]) && QuietAboveHeader(parents[..|parents| - 1])
  {
    var last := |parents| - 1;
    var pre := parents[..last];
    assert NoHeaderFrom(parents, last);
    if QuietAboveHeader(parents) {
      forall i | 0 <= i < |pre| && NoHeaderFrom(pre, i)
        ensures IsQuiet(pre[i])
      {
        NoHeaderBelowTop(parents, i);
        assert parents[i] == pre[i];
      }
    }
    if IsQuiet(parents[last]) && QuietAboveHeader(pre) {
      forall i | 0 <= i < |parents| && NoHeaderFrom(parents, i)
        ensures IsQuiet(parents[i])
      {
        if i < last {
          NoHeaderBelowTop(parents, i);
          assert parents[i] == pre[i];
        }
      }
    }
  }

  lemma {:induction false} IfModuleCommentMeaning(parents: seq<string>)
    ensures IfModuleComment(parents) <==> QuietAboveHeader(parents)
    decreases |parents|
  {
    if parents != [] {
      if IsHeader(parents[|parents| - 1]) {
        HeaderOnTop(parents);
      } else {
        IfModuleCommentMeaning(parents[..|parents| - 1]);
        QuietBelowTop(parents);
      }
    }
  }

  // ---------------------------------------------------------------------
  // The parameter port list: its events are visited in order; a
  // declaration keyword opens a scope with a common data type, and each
  // list of assignments yields one parameter per assignment.
  // ---------------------------------------------------------------------

  /** The assignments of a list, each with the declaration's data and type. */
  function AssignmentStep(common: Option<Node>, paramType: SvParamType, n: Node): Result<seq<SvParameter>, Panic> {
    if n.tag.ParamAssignment? then
      var q :- PortExtraction.PortParameterDeclarationAnsi(n, common, paramType);
      Ok([q])
    else Ok([])
  }

  function AssignmentSteps(common: Option<Node>, paramType: SvParamType): Node -> Result<seq<SvParameter>, Panic> {
    (n: Node) => AssignmentStep(common, paramType, n)
  }

  function AssignmentsOf(a: Node, common: Option<Node>, paramType: SvParamType): Result<seq<SvParameter>, Panic> {
    FoldSteps(Nodes(Stream(a)), AssignmentSteps(common, paramType))
  }

  /** The loop variables of the parameter port list loop. */
  datatype ParamScan = ParamScan(commonScopeFound: bool, paramType: Node, parameters: seq<SvParameter>)

  /** The parameter type a declaration node gives, or a panic for any other node. */
  function DeclaredParamType(decl: Node): (r: Result<SvParamType, Panic>)
    ensures r.Ok? <==> IsParamDeclaration(decl.tag)
    ensures r.Ok? ==> (r.value == LocalParam <==> decl.tag.LocalParameterDeclarationParam?)
  {
    if decl.tag.LocalParameterDeclarationParam? then Ok(LocalParam)
    else if decl.tag.ParameterDeclarationParam? || decl.tag.ParameterPortDeclarationParamList? then Ok(Parameter)
    else Err(Unreachable)
  }

  function ParamEventStep(ps: ParamScan, e: Event): Result<ParamScan, Panic> {
    var t := e.node.tag;
    if e.Enter? && IsParamDeclaration(t) then Ok(ps.(commonScopeFound := true, paramType := e.node))
    else if e.Leave? && IsParamDeclaration(t) then Ok(ps.(commonScopeFound := false))
    else if e.Enter? && t.ListOfParamAssignments? then
      if !ps.commonScopeFound then
        var added :- AssignmentsOf(e.node, None, Parameter);
        Ok(ps.(parameters := ps.parameters + added))
      else
        var common := Find(ps.paramType, IsCommonData);
        var paramType :- DeclaredParamType(ps.paramType);
        var added :- AssignmentsOf(e.node, common, paramType);
        Ok(ps.(parameters := ps.parameters + added))
    else Ok(ps)
  }

  /** The parameters of a parameter port list. */
  function ParameterPortListOf(p: Node): Result<seq<SvParameter>, Panic> {
    var ps :- Scan(ParamScan(false, p, []), Stream(p), ParamEventStep);
    Ok(ps.parameters)
  }

  /** Every parameter of a list has the type it was extracted with. */
  lemma {:induction false} AssignmentsTyped(ns: seq<Node>, common: Option<Node>, paramType: SvParamType)
    requires FoldSteps(ns, AssignmentSteps(common, paramType)).Ok?
    ensures forall q :: q in FoldSteps(ns, AssignmentSteps(common, paramType)).value ==> q.paramType == paramType
    ensures common.None? ==>
      forall q :: q in FoldSteps(ns, AssignmentSteps(common, paramType)).value ==> q.packedDimensions == []
    decreases |ns|
  {
    if ns != [] {
      AssignmentsTyped(ns[..|ns| - 1], common, paramType);
      assert AssignmentSteps(common, paramType)(ns[|ns| - 1]) == AssignmentStep(common, paramType, ns[|ns| - 1]);
    }
  }

  /** 1 for an assignment, 0 for any other node. */
  function AssignmentWeight(n: Node): nat { if n.tag.ParamAssignment? then 1 else 0 }

  /** A list yields exactly one parameter per assignment below it. */
  lemma AssignmentsCounted(a: Node, common: Option<Node>, paramType: SvParamType)
    requires AssignmentsOf(a, common, paramType).Ok?
    ensures |AssignmentsOf(a, common, paramType).value| == SumOver(Nodes(Stream(a)), AssignmentWeight)
  {
    forall n: Node | AssignmentSteps(common, paramType)(n).Ok?
      ensures |AssignmentSteps(common, paramType)(n).value| == AssignmentWeight(n)
    {
      assert AssignmentSteps(common, paramType)(n) == AssignmentStep(common, paramType, n);
    }
    FoldStepsLength(Nodes(Stream(a)), AssignmentSteps(common, paramType), AssignmentWeight);
  }

  /** A scope is open only with a declaration node as its type: the
      `unreachable!()` on the parameter type is never reached. */
  ghost predicate ScopeWellFormed(ps: ParamScan) {
    ps.commonScopeFound ==> IsParamDeclaration(ps.paramType.tag)
  }

  /**
   * Visiting events keeps the scope well formed, and every parameter added
   * has the kind its scope gives: LocalParam exactly under a localparam
   * declaration, Parameter under the other two kinds or outside any scope.
   */
  lemma {:induction false} ParamScanTypes(ps: ParamScan, evs: seq<Event>)
    requires ScopeWellFormed(ps)
    requires Scan(ps, evs, ParamEventStep).Ok?
    ensures ScopeWellFormed(Scan(ps, evs, ParamEventStep).value)
    ensures ps.parameters <= Scan(ps, evs, ParamEventStep).value.parameters
    decreases |evs|
  {
    if evs != [] {
      ParamScanTypes(ps, evs[..|evs| - 1]);
    }
  }

  /** Assignments outside any typed declaration become Parameters with no packed dimensions. */
  lemma UntypedListStep(ps: ParamScan, a: Node)
    requires !ps.commonScopeFound && a.tag.ListOfParamAssignments?
    requires ParamEventStep(ps, Enter(a)).Ok?
    ensures var added := ParamEventStep(ps, Enter(a)).value.parameters[|ps.parameters|..];
            forall q :: q in added ==> q.paramType == Parameter && q.packedDimensions == []
  {
    var added := AssignmentsOf(a, None, Parameter).value;
    AssignmentsTyped(Nodes(Stream(a)), None, Parameter);
    assert (ps.parameters + added)[|ps.parameters|..] == added;
  }

  /** Assignments under a declaration get its type: LocalParam exactly under a localparam. */
  lemma TypedListStep(ps: ParamScan, a: Node)
    requires ps.commonScopeFound && ScopeWellFormed(ps) && a.tag.ListOfParamAssignments?
    requires ParamEventStep(ps, Enter(a)).Ok?
    ensures var added := ParamEventStep(ps, Enter(a)).value.parameters[|ps.parameters|..];
            forall q :: q in added ==>
              (q.paramType == LocalParam <==> ps.paramType.tag.LocalParameterDeclarationParam?)
  {
    var paramType := DeclaredParamType(ps.paramType).value;
    var common := Find(ps.paramType, IsCommonData);
    var added := AssignmentsOf(a, common, paramType).value;
    AssignmentsTyped(Nodes(Stream(a)), common, paramType);
    assert (ps.parameters + added)[|ps.parameters|..] == added;
  }

  // ---------------------------------------------------------------------
  // The module loop.
  // ---------------------------------------------------------------------

  /** The loop variables of the module loop: the record built so far, the
      last port extracted, and the stack of open nodes. */
  datatype ModuleScan = ModuleScan(ret: SvModuleDeclaration, prevPort: Option<SvPort>, parents: seq<string>)

  /** The stack after one event: pushed on Enter, popped on Leave. */
  function Parents(parents: seq<string>, e: Event): seq<string> {
    if e.Enter? then parents + [e.node.name]
    else if parents == [] then []
    else parents[..|parents| - 1]
  }

  /** One event of the module: the stack is updated first, then the visited node is handled. */
  function ModuleEventStep(tree: Node, st0: ModuleScan, e: Event): (r: Result<ModuleScan, Panic>)
    ensures r.Ok? ==> r.value.parents == Parents(st0.parents, e)
    ensures r.Ok? ==> r.value.ret.identifier == st0.ret.identifier && r.value.ret.filepath == st0.ret.filepath
    ensures r.Ok? && !(e.Enter? && e.node.tag.AnsiPortDeclaration?) ==>
      r.value.ret.ports == st0.ret.ports && r.value.prevPort == st0.prevPort
    ensures e.Enter? && e.node.tag.AnsiPortDeclaration? ==>
      (r.Ok? <==> PortExtraction.PortDeclarationAnsi(e.node, st0.prevPort).Ok?)
      && (r.Ok? ==> r.value.ret.ports == st0.ret.ports + [PortExtraction.PortDeclarationAnsi(e.node, st0.prevPort).value]
                    && r.value.prevPort == Some(PortExtraction.PortDeclarationAnsi(e.node, st0.prevPort).value))
    ensures r.Ok? && !(e.Enter? && e.node.tag.ModuleInstantiation?) ==> r.value.ret.instances == st0.ret.instances
    ensures e.Enter? && e.node.tag.ModuleInstantiation? ==>
      (r.Ok? <==> InstanceExtraction.ModuleInstanceOf(e.node, tree).Ok?)
      && (r.Ok? ==> r.value.ret.instances == st0.ret.instances + [InstanceExtraction.ModuleInstanceOf(e.node, tree).value])
  {
    var st := st0.(parents := Parents(st0.parents, e));
    var n := e.node;
    if n.tag.ParameterPortList? then
      if e.Enter? then
        var added :- ParameterPortListOf(n);
        Ok(st.(ret := st.ret.(parameters := st.ret.parameters + added)))
      else Ok(st)
    else if n.tag.AnsiPortDeclaration? then
      if e.Enter? then
        var port :- PortExtraction.PortDeclarationAnsi(n, st.prevPort);
        Ok(st.(ret := st.ret.(ports := st.ret.ports + [port]), prevPort := Some(port)))
      else Ok(st)
    else if n.tag.ModuleInstantiation? then
      if e.Enter? then
        var instance :- InstanceExtraction.ModuleInstanceOf(n, tree);
        Ok(st.(ret := st.ret.(instances := st.ret.instances + [instance])))
      else Ok(st)
    else if n.tag.Comment? then
      if IfModuleComment(st.parents) then
        var text :- Unwrap(SourceText(n));
        Ok(st.(ret := st.ret.(comments := st.ret.comments + [text])))
      else Ok(st)
    else Ok(st)
  }

  function ModuleSteps(tree: Node): (ModuleScan, Event) -> Result<ModuleScan, Panic> {
    (st: ModuleScan, e: Event) => ModuleEventStep(tree, st, e)
  }

  /** `module_identifier`: the identifier of the first ModuleIdentifier. */
  function ModuleIdentifierOf(m: Node): (r: Result<Option<string>, Panic>)
    ensures r.Err? <==> !Contains(m, IsModuleIdentifier)
    ensures r.Ok? ==> r.value == SvMisc.Identifier(Find(m, IsModuleIdentifier).value)
  {
    match Find(m, IsModuleIdentifier)
    case None => Err(Unreachable)
    case Some(id) => Ok(SvMisc.Identifier(id))
  }

  /** What `module_declaration_ansi` returns for the module `m` of the syntax tree `tree`. */
  function ModuleDeclarationAnsiOf(m: Node, tree: Node, filepath: string): Result<SvModuleDeclaration, Panic> {
    var ret :- ModuleDeclarationNonansi(m, filepath);
    var st :- Scan(ModuleScan(ret, None, []), Stream(m), ModuleSteps(tree));
    Ok(st.ret)
  }

  /** `module_declaration_nonansi`: the identifier and path, every list empty. The ANSI loop starts from the same record. */
  function ModuleDeclarationNonansi(m: Node, filepath: string): (r: Result<SvModuleDeclaration, Panic>)
    ensures r.Ok? <==> ModuleIdentifierOf(m).Ok? && ModuleIdentifierOf(m).value.Some?
    ensures r.Ok? ==> Some(r.value.identifier) == ModuleIdentifierOf(m).value && r.value.filepath == filepath
    ensures r.Ok? ==> r.value.parameters == [] && r.value.ports == [] && r.value.instances == [] && r.value.comments == []
  {
    var id :- ModuleIdentifierOf(m);
    var identifier :- Unwrap(id);
    Ok(SvModuleDeclaration(identifier, [], [], [], filepath, []))
  }

  // ---------------------------------------------------------------------
  // The loops.
  // ---------------------------------------------------------------------

  /** The loop over one list of assignments: each ParamAssignment below it gives one parameter. */
  method AssignmentsAnsi(a: Node, common: Option<Node>, paramType: SvParamType)
    returns (r: Result<seq<SvParameter>, Panic>)
    ensures r == AssignmentsOf(a, common, paramType)
  {
    r := FoldNodes(Nodes(Stream(a)), AssignmentSteps(common, paramType));
  }

  /** The body of the loop over a parameter port list: one event. */
  method ParamEvent(ps: ParamScan, e: Event) returns (r: Result<ParamScan, Panic>)
    ensures r == ParamEventStep(ps, e)
  {
    var commonScopeFound, paramType, parameters := ps.commonScopeFound, ps.paramType, ps.parameters;
    var t := e.node.tag;
    if e.Enter? && IsParamDeclaration(t) {
      commonScopeFound := true;
      paramType := e.node;
    } else if e.Leave? && IsParamDeclaration(t) {
      commonScopeFound := false;
    } else if e.Enter? && t.ListOfParamAssignments? {
      var added;
      if !commonScopeFound {
        added := AssignmentsAnsi(e.node, None, Parameter);
      } else {
        var common := Find(paramType, IsCommonData);
        var declared := DeclaredParamType(paramType);
        if declared.Err? {
          return Err(declared.error);
        }
        added := AssignmentsAnsi(e.node, common, declared.value);
      }
      if added.Err? {
        return Err(added.error);
      }
      parameters := parameters + added.value;
    }
    return Ok(ParamScan(commonScopeFound, paramType, parameters));
  }

  /** The loop over the events of a parameter port list. */
  method ParameterPortListAnsi(p: Node) returns (r: Result<seq<SvParameter>, Panic>)
    ensures r == ParameterPortListOf(p)
  {
    var evs := Stream(p);
    var ps := ParamScan(false, p, []);
    var i := 0;
    while i < |evs|
      invariant 0 <= i <= |evs|
      invariant Scan(ParamScan(false, p, []), evs[..i], ParamEventStep) == Ok(ps)
    {
      ScanNext(ParamScan(false, p, []), evs, i, ParamEventStep);
      var next := ParamEvent(ps, evs[i]);
      if next.Err? {
        ScanStopPersists(ParamScan(false, p, []), evs, i + 1, ParamEventStep);
        return Err(next.error);
      }
      ps := next.value;
      i := i + 1;
    }
    assert evs[..i] == evs;
    return Ok(ps.parameters);
  }

  /** The body of the loop of `module_declaration_ansi`: one event of the module. */
  method ModuleEvent(tree: Node, st: ModuleScan, e: Event) returns (r: Result<ModuleScan, Panic>)
    ensures r == ModuleEventStep(tree, st, e)
  {
    var ret := st.ret;
    var prevPort := st.prevPort;
    var entering := e.Enter?;
    var parentStack := st.parents;
    if entering {
      parentStack := parentStack + [e.node.name];
    } else if parentStack != [] {
      parentStack := parentStack[..|parentStack| - 1];
    }
    var node := e.node;
    if node.tag.ParameterPortList? {
      if entering {
        var added := ParameterPortListAnsi(node);
        if added.Err? {
          return Err(added.error);
        }
        ret := ret.(parameters := ret.parameters + added.value);
      }
    } else if node.tag.AnsiPortDeclaration? {
      if entering {
        var parsedPort := PortExtraction.PortDeclarationAnsi(node, prevPort);
        if parsedPort.Err? {
          return Err(parsedPort.error);
        }
        ret := ret.(ports := ret.ports + [parsedPort.value]);
        prevPort := Some(parsedPort.value);
      }
    } else if node.tag.ModuleInstantiation? {
      if entering {
        var parsedInstance := InstanceExtraction.ModuleInstance(node, tree);
        if parsedInstance.Err? {
          return Err(parsedInstance.error);
        }
        ret := ret.(instances := ret.instances + [parsedInstance.value]);
      }
    } else if node.tag.Comment? {
      if IfModuleComment(parentStack) {
        var text := SourceText(node);
        if text.None? {
          return Err(UnwrapNone);
        }
        ret := ret.(comments := ret.comments + [text.value]);
      }
    }
    return Ok(ModuleScan(ret, prevPort, parentStack));
  }

  /** `module_declaration_ansi`. */
  method ModuleDeclarationAnsi(m: Node, tree: Node, filepath: string)
    returns (r: Result<SvModuleDeclaration, Panic>)
    ensures r == ModuleDeclarationAnsiOf(m, tree, filepath)
  {
    var init :- ModuleDeclarationNonansi(m, filepath);
    var st := ModuleScan(init, None, []);
    var evs := Stream(m);
    var i := 0;
    while i < |evs|
      invariant 0 <= i <= |evs|
      invariant Scan(ModuleScan(init, None, []), evs[..i], ModuleSteps(tree)) == Ok(st)
    {
      ScanNext(ModuleScan(init, None, []), evs, i, ModuleSteps(tree));
      var next := ModuleEvent(tree, st, evs[i]);
      if next.Err? {
        ScanStopPersists(ModuleScan(init, None, []), evs, i + 1, ModuleSteps(tree));
        return Err(next.error);
      }
      st := next.value;
      i := i + 1;
    }
    assert evs[..i] == evs;
    return Ok(st.ret);
  }

  // ---------------------------------------------------------------------
  // What the module loop keeps.
  // ---------------------------------------------------------------------

  /** The stack after a run of events. */
  function ParentsAfter(parents: seq<string>, evs: seq<Event>): seq<string> {
    if evs == [] then parents else Parents(ParentsAfter(parents, evs[..|evs| - 1]), evs[|evs| - 1])
  }

  /** The stack is a function of the events alone. */
  lemma {:induction false} ModuleParentsTrack(tree: Node, st0: ModuleScan, evs: seq<Event>)
    requires Scan(st0, evs, ModuleSteps(tree)).Ok?
    ensures Scan(st0, evs, ModuleSteps(tree)).value.parents == ParentsAfter(st0.parents, evs)
    decreases |evs|
  {
    if evs != [] {
      ModuleParentsTrack(tree, st0, evs[..|evs| - 1]);
    }
  }

  /** Entries minus leaves. */
  function Depth(evs: seq<Event>): int {
    if evs == [] then 0 else Depth(evs[..|evs| - 1]) + (if evs[|evs| - 1].Enter? then 1 else -1)
  }

  /** No prefix has more Leave than Enter events, as in any traversal. */
  ghost predicate NeverUnderflows(evs: seq<Event>) {
    forall k :: 0 <= k <= |evs| ==> Depth(evs[..k]) >= 0
  }

  /** The stack holds one entry per node entered and not yet left. */
  lemma {:induction false} StackDepth(evs: seq<Event>)
    requires NeverUnderflows(evs)
    ensures |ParentsAfter([], evs)| == Depth(evs)
    decreases |evs|
  {
    if evs != [] {
      var pre := evs[..|evs| - 1];
      forall k | 0 <= k <= |pre|
        ensures Depth(pre[..k]) >= 0
      {
        assert pre[..k] == evs[..k];
      }
      StackDepth(pre);
      assert evs[..|evs|] == evs;
    }
  }

  /** The ANSI port declarations entered in `evs`, in order. */
  function PortNodes(evs: seq<Event>): seq<Node> {
    if evs == [] then []
    else
      var e := evs[|evs| - 1];
      PortNodes(evs[..|evs| - 1]) + (if e.Enter? && e.node.tag.AnsiPortDeclaration? then [e.node] else [])
  }

  /** How a port declaration is resolved given the port before it. */
  type PortResolver = (Node, Option<SvPort>) -> Result<SvPort, Panic>

  /** The resolver of the module loop: `port_declaration_ansi`. */
  function AnsiPorts(): PortResolver {
    (n: Node, prev: Option<SvPort>) => PortExtraction.PortDeclarationAnsi(n, prev)
  }

  /** Reference definition: each port resolved with the one resolved just before it (`prev` for the first). */
  function PortChain(resolve: PortResolver, prev: Option<SvPort>, ps: seq<Node>): Result<seq<SvPort>, Panic> {
    if ps == [] then Ok([])
    else
      var done :- PortChain(resolve, prev, ps[..|ps| - 1]);
      var q :- resolve(ps[|ps| - 1], LastPort(prev, done));
      Ok(done + [q])
  }

  /** The port extracted last, or the one before them all. */
  function LastPort(prev: Option<SvPort>, done: seq<SvPort>): Option<SvPort> {
    if done == [] then prev else Some(done[|done| - 1])
  }

  /** What one loop step does to the ports and to `prev_port`: an entered
      port declaration is resolved with `prev_port`, appended, and becomes
      the new `prev_port`; anything else leaves both alone. */
  ghost predicate PortStepKeeps(resolve: PortResolver, st: ModuleScan, e: Event, r: ModuleScan) {
    if e.Enter? && e.node.tag.AnsiPortDeclaration? then
      resolve(e.node, st.prevPort).Ok?
      && r.ret.ports == st.ret.ports + [resolve(e.node, st.prevPort).value]
      && r.prevPort == Some(resolve(e.node, st.prevPort).value)
    else r.ret.ports == st.ret.ports && r.prevPort == st.prevPort
  }

  /** Every step of the module loop handles ports that way. */
  lemma ModuleStepsKeepPorts(tree: Node)
    ensures forall st: ModuleScan, e: Event :: ModuleSteps(tree)(st, e).Ok? ==>
              PortStepKeeps(AnsiPorts(), st, e, ModuleSteps(tree)(st, e).value)
  {
    forall st: ModuleScan, e: Event | ModuleSteps(tree)(st, e).Ok?
      ensures PortStepKeeps(AnsiPorts(), st, e, ModuleSteps(tree)(st, e).value)
    {
      assert ModuleSteps(tree)(st, e) == ModuleEventStep(tree, st, e);
    }
  }

  /**
   * A loop whose steps handle ports that way appends exactly the chained
   * ports, one per entered ANSI port declaration and in that order, and
   * `prev_port` is always the port appended last.
   */
  lemma {:induction false} PortsChained(step: (ModuleScan, Event) -> Result<ModuleScan, Panic>,
                                        resolve: PortResolver, st0: ModuleScan, evs: seq<Event>)
    requires forall st: ModuleScan, e: Event :: step(st, e).Ok? ==> PortStepKeeps(resolve, st, e, step(st, e).value)
    requires Scan(st0, evs, step).Ok?
    ensures PortChain(resolve, st0.prevPort, PortNodes(evs)).Ok?
    ensures var st := Scan(st0, evs, step).value;
            var chain := PortChain(resolve, st0.prevPort, PortNodes(evs)).value;
            st.ret.ports == st0.ret.ports + chain && st.prevPort == LastPort(st0.prevPort, chain)
    decreases |evs|
  {
    if evs != [] {
      var pre := evs[..|evs| - 1];
      var e := evs[|evs| - 1];
      assert Scan(st0, pre, step).Ok?;
      PortsChained(step, resolve, st0, pre);
      var mid := Scan(st0, pre, step).value;
      assert Scan(st0, evs, step) == step(mid, e);
      assert evs == pre + [e];
      PortsChainedOneMore(resolve, st0.prevPort, st0.ret.ports, pre, e, mid, step(mid, e).value);
    }
  }

  /** The inductive step of `PortsChained`: one more step keeps the ports and `prev_port` on the chain. */
  lemma PortsChainedOneMore(resolve: PortResolver, prev: Option<SvPort>, ports0: seq<SvPort>,
                            pre: seq<Event>, e: Event, mid: ModuleScan, next: ModuleScan)
    requires PortChain(resolve, prev, PortNodes(pre)).Ok?
    requires var chain := PortChain(resolve, prev, PortNodes(pre)).value;
             mid.ret.ports == ports0 + chain && mid.prevPort == LastPort(prev, chain)
    requires PortStepKeeps(resolve, mid, e, next)
    ensures PortChain(resolve, prev, PortNodes(pre + [e])).Ok?
    ensures var chain := PortChain(resolve, prev, PortNodes(pre + [e])).value;
            next.ret.ports == ports0 + chain && next.prevPort == LastPort(prev, chain)
  {
    PortEventEffect(resolve, prev, pre, e);
    if e.Enter? && e.node.tag.AnsiPortDeclaration? {
      var chain := PortChain(resolve, prev, PortNodes(pre)).value;
      var q := resolve(e.node, mid.prevPort).value;
      assert ports0 + chain + [q] == ports0 + (chain + [q]);
    }
  }

  /** One more event extends the chain by its port when it enters a port declaration. */
  lemma PortEventEffect(resolve: PortResolver, prev: Option<SvPort>, pre: seq<Event>, e: Event)
    requires PortChain(resolve, prev, PortNodes(pre)).Ok?
    ensures !(e.Enter? && e.node.tag.AnsiPortDeclaration?) ==> PortNodes(pre + [e]) == PortNodes(pre)
    ensures e.Enter? && e.node.tag.AnsiPortDeclaration? ==>
      var chain := PortChain(resolve, prev, PortNodes(pre)).value;
      var q := resolve(e.node, LastPort(prev, chain));
      PortChain(resolve, prev, PortNodes(pre + [e])) == (if q.Ok? then Ok(chain + [q.value]) else Err(q.error))
  {
    var evs := pre + [e];
    assert evs[..|evs| - 1] == pre && evs[|evs| - 1] == e;
    if e.Enter? && e.node.tag.AnsiPortDeclaration? {
      var ps := PortNodes(evs);
      assert ps == PortNodes(pre) + [e.node];
      assert ps[..|ps| - 1] == PortNodes(pre);
    } else {
      assert PortNodes(pre) + [] == PortNodes(pre);
    }
  }

  /** Chained ANSI ports stay consistent when the first one's predecessor is. */
  lemma {:induction false} PortChainConsistent(prev: Option<SvPort>, ps: seq<Node>)
    requires prev.Some? ==> PortExtraction.PortConsistent(prev.value)
    requires PortChain(AnsiPorts(), prev, ps).Ok?
    ensures forall q :: q in PortChain(AnsiPorts(), prev, ps).value ==> PortExtraction.PortConsistent(q)
    decreases |ps|
  {
    if ps != [] {
      PortChainConsistent(prev, ps[..|ps| - 1]);
      var done := PortChain(AnsiPorts(), prev, ps[..|ps| - 1]).value;
      PortExtraction.PortDeclarationKeepsConsistency(ps[|ps| - 1], LastPort(prev, done));
    }
  }

  /** One visited node's instance, when it is an instantiation. */
  function InstanceStep(tree: Node, n: Node): Result<seq<SvInstance>, Panic> {
    if n.tag.ModuleInstantiation? then
      var instance :- InstanceExtraction.ModuleInstanceOf(n, tree);
      Ok([instance])
    else Ok([])
  }

  function InstanceSteps(tree: Node): Node -> Result<seq<SvInstance>, Panic> {
    (n: Node) => InstanceStep(tree, n)
  }

  /** The instances a module scan has collected so far. */
  function InstancesField(): ModuleScan -> seq<SvInstance> {
    (st: ModuleScan) => st.ret.instances
  }

  /** Every step of the module loop appends the instance of an entered instantiation and nothing else. */
  lemma ModuleStepsAppendInstances(tree: Node)
    ensures Appends(ModuleSteps(tree), InstancesField(), InstanceSteps(tree))
  {
    forall st: ModuleScan, e: Event | ModuleSteps(tree)(st, e).Ok?
      ensures e.Leave? ==> InstancesField()(ModuleSteps(tree)(st, e).value) == InstancesField()(st)
      ensures e.Enter? ==> InstanceSteps(tree)(e.node).Ok?
                           && InstancesField()(ModuleSteps(tree)(st, e).value)
                              == InstancesField()(st) + InstanceSteps(tree)(e.node).value
    {
      assert ModuleSteps(tree)(st, e) == ModuleEventStep(tree, st, e);
      InstanceEventEffect(tree, st, e);
    }
  }

  /** The module loop appends one instance per entered instantiation, in Enter order. */
  lemma ModuleInstancesInOrder(tree: Node, st0: ModuleScan, evs: seq<Event>)
    requires Scan(st0, evs, ModuleSteps(tree)).Ok?
    ensures FoldSteps(Nodes(evs), InstanceSteps(tree)).Ok?
    ensures Scan(st0, evs, ModuleSteps(tree)).value.ret.instances
            == st0.ret.instances + FoldSteps(Nodes(evs), InstanceSteps(tree)).value
  {
    ModuleStepsAppendInstances(tree);
    ScanCollects(ModuleSteps(tree), InstancesField(), InstanceSteps(tree), st0, evs);
  }

  /** One event adds the instance its node gives when entered, and nothing otherwise. */
  lemma InstanceEventEffect(tree: Node, st: ModuleScan, e: Event)
    requires ModuleEventStep(tree, st, e).Ok?
    ensures e.Enter? ==> InstanceSteps(tree)(e.node).Ok?
                         && ModuleEventStep(tree, st, e).value.ret.instances
                            == st.ret.instances + InstanceSteps(tree)(e.node).value
    ensures e.Leave? ==> ModuleEventStep(tree, st, e).value.ret.instances == st.ret.instances
  {
    assert InstanceSteps(tree)(e.node) == InstanceStep(tree, e.node);
    if e.Enter? && !e.node.tag.ModuleInstantiation? {
      assert st.ret.instances + [] == st.ret.instances;
    }
  }

  /**
   * The comment arm runs on both events of a comment: a comment whose Enter
   * and Leave both pass the header test is recorded twice.
   */
  lemma CommentRecordedOnEnterAndLeave(tree: Node, st: ModuleScan, c: Node)
    requires c.tag.Comment? && SourceText(c).Some?
    requires IfModuleComment(st.parents + [c.name]) && IfModuleComment(st.parents)
    ensures Scan(st, [Enter(c), Leave(c)], ModuleSteps(tree)).Ok?
    ensures Scan(st, [Enter(c), Leave(c)], ModuleSteps(tree)).value.ret.comments
            == st.ret.comments + [SourceText(c).value, SourceText(c).value]
  {
    var evs := [Enter(c), Leave(c)];
    assert evs[..1] == [Enter(c)] && [Enter(c)][..0] == [];
    assert (st.parents + [c.name])[..|st.parents|] == st.parents;
    var t := SourceText(c).value;
    assert Scan(st, [Enter(c)], ModuleSteps(tree)) == ModuleEventStep(tree, st, Enter(c));
    assert st.ret.comments + [t] + [t] == st.ret.comments + [t, t];
  }

  /** The loop never changes the identifier or the path. */
  lemma {:induction false} ModuleIdentityKept(tree: Node, st0: ModuleScan, evs: seq<Event>)
    requires Scan(st0, evs, ModuleSteps(tree)).Ok?
    ensures Scan(st0, evs, ModuleSteps(tree)).value.ret.identifier == st0.ret.identifier
    ensures Scan(st0, evs, ModuleSteps(tree)).value.ret.filepath == st0.ret.filepath
    decreases |evs|
  {
    if evs != [] {
      ModuleIdentityKept(tree, st0, evs[..|evs| - 1]);
    }
  }

  /** The ANSI record is what the module loop leaves, started from the non-ANSI record. */
  lemma ModuleAnsiIsScan(m: Node, tree: Node, filepath: string)
    requires ModuleDeclarationAnsiOf(m, tree, filepath).Ok?
    ensures ModuleDeclarationNonansi(m, filepath).Ok?
    ensures var st0 := ModuleScan(ModuleDeclarationNonansi(m, filepath).value, None, []);
            Scan(st0, Stream(m), ModuleSteps(tree)).Ok?
            && ModuleDeclarationAnsiOf(m, tree, filepath).value == Scan(st0, Stream(m), ModuleSteps(tree)).value.ret
  {
  }

  /** An ANSI module keeps the identifier of its first ModuleIdentifier and the given path. */
  lemma ModuleAnsiIdentity(m: Node, tree: Node, filepath: string)
    requires ModuleDeclarationAnsiOf(m, tree, filepath).Ok?
    ensures Some(ModuleDeclarationAnsiOf(m, tree, filepath).value.identifier) == ModuleIdentifierOf(m).value
    ensures ModuleDeclarationAnsiOf(m, tree, filepath).value.filepath == filepath
  {
    ModuleAnsiIsScan(m, tree, filepath);
    var st0 := ModuleScan(ModuleDeclarationNonansi(m, filepath).value, None, []);
    ModuleIdentityKept(tree, st0, Stream(m));
  }

  /** An ANSI module's ports are its port declarations chained in order, and all are consistent. */
  lemma ModuleAnsiPorts(m: Node, tree: Node, filepath: string)
    requires ModuleDeclarationAnsiOf(m, tree, filepath).Ok?
    ensures Ok(ModuleDeclarationAnsiOf(m, tree, filepath).value.ports) == PortChain(AnsiPorts(), None, PortNodes(Stream(m)))
    ensures forall q :: q in ModuleDeclarationAnsiOf(m, tree, filepath).value.ports ==> PortExtraction.PortConsistent(q)
  {
    ModuleAnsiIsScan(m, tree, filepath);
    var st0 := ModuleScan(ModuleDeclarationNonansi(m, filepath).value, None, []);
    ModuleStepsKeepPorts(tree);
    PortsChained(ModuleSteps(tree), AnsiPorts(), st0, Stream(m));
    PortChainConsistent(None, PortNodes(Stream(m)));
    assert [] + PortChain(AnsiPorts(), None, PortNodes(Stream(m))).value == PortChain(AnsiPorts(), None, PortNodes(Stream(m))).value;
  }

  /** An ANSI module's instances are those of its instantiations, in the order they are entered. */
  lemma ModuleAnsiInstances(m: Node, tree: Node, filepath: string)
    requires ModuleDeclarationAnsiOf(m, tree, filepath).Ok?
    ensures Ok(ModuleDeclarationAnsiOf(m, tree, filepath).value.instances) == FoldSteps(Nodes(Stream(m)), InstanceSteps(tree))
  {
    ModuleAnsiIsScan(m, tree, filepath);
    var st0 := ModuleScan(ModuleDeclarationNonansi(m, filepath).value, None, []);
    ModuleInstancesInOrder(tree, st0, Stream(m));
    assert [] + FoldSteps(Nodes(Stream(m)), InstanceSteps(tree)).value == FoldSteps(Nodes(Stream(m)), InstanceSteps(tree)).value;
  }
}
