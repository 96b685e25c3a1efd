/**
 * Module instantiations: the name of the instantiated module, the instance
 * name, the labels of the generate blocks around the instantiation, and the
 * port connections as written.
 */
module InstanceExtraction {
  import opened Wrappers
  import opened Syntax
  import opened Structures
  import opened Panics
  import opened Folds
  import SvMisc

  predicate IsModuleIdentifier(t: Tag) { t.ModuleIdentifier? }
  predicate IsInstanceIdentifier(t: Tag) { t.InstanceIdentifier? }
  predicate IsGenerateBlockIdentifier(t: Tag) { t.GenerateBlockIdentifier? }
  predicate IsPortIdentifier(t: Tag) { t.PortIdentifier? }
  predicate IsHierarchicalIdentifier(t: Tag) { t.HierarchicalIdentifier? }
  predicate IsIdentifierNode(t: Tag) { t.Identifier? }
  predicate IsDecimalNumber(t: Tag) { t.DecimalNumber? }

  /**
   * The identifier of the first node below `n` whose kind satisfies `p`.
   * The grammar always has one; its absence is the source's
   * `unreachable!()`.
   */
  function IdentifierBelow(n: Node, p: Tag -> bool): (r: Result<string, Panic>)
    ensures Find(n, p).None? ==> r == Err(Unreachable)
    ensures Find(n, p).Some? ==> r == Unwrap(SvMisc.Identifier(Find(n, p).value))
    ensures r.Ok? ==> Contains(n, p)
  {
    match Find(n, p)
    case None => Err(Unreachable)
    case Some(m) => Unwrap(SvMisc.Identifier(m))
  }

  /** The name of the instantiated module: its first ModuleIdentifier. */
  function InstModuleIdentifier(p: Node): (r: Result<string, Panic>)
    ensures r.Ok? <==> Contains(p, IsModuleIdentifier) && SvMisc.Identifier(Find(p, IsModuleIdentifier).value).Some?
    ensures r.Ok? ==> Some(r.value) == SvMisc.Identifier(Find(p, IsModuleIdentifier).value)
  {
    IdentifierBelow(p, IsModuleIdentifier)
  }

  /** The instance name: the first InstanceIdentifier. */
  function InstHierarchicalInstance(p: Node): (r: Result<string, Panic>)
    ensures r.Ok? <==> Contains(p, IsInstanceIdentifier) && SvMisc.Identifier(Find(p, IsInstanceIdentifier).value).Some?
    ensures r.Ok? ==> Some(r.value) == SvMisc.Identifier(Find(p, IsInstanceIdentifier).value)
  {
    IdentifierBelow(p, IsInstanceIdentifier)
  }

  // ---------------------------------------------------------------------
  // Hierarchy: every generate block of the tree is searched for the
  // instantiation, and each place it is found adds the block's label.
  // ---------------------------------------------------------------------

  /** The label of a generate block. */
  function BlockLabel(g: Node): Result<string, Panic> {
    IdentifierBelow(g, IsGenerateBlockIdentifier)
  }

  /** One node visited inside generate block `g`: the label when it is `p`. */
  function LabelStep(g: Node, p: Node, inst: Node): Result<seq<string>, Panic> {
    if inst.tag.ModuleInstantiation? && inst == p then
      var blockLabel :- BlockLabel(g);
      Ok([blockLabel])
    else Ok([])
  }

  function LabelSteps(g: Node, p: Node): Node -> Result<seq<string>, Panic> {
    (inst: Node) => LabelStep(g, p, inst)
  }

  /** One node visited in the whole tree: the labels it adds when it is a generate block. */
  function HierarchyStep(p: Node, n: Node): Result<seq<string>, Panic> {
    if n.tag.GenerateBlock? then FoldSteps(Nodes(Stream(n)), LabelSteps(n, p)) else Ok([])
  }

  function HierarchySteps(p: Node): Node -> Result<seq<string>, Panic> {
    (n: Node) => HierarchyStep(p, n)
  }

  /** The hierarchy of `p` within the syntax tree `tree`. */
  function HierarchyOf(tree: Node, p: Node): Result<seq<string>, Panic> {
    FoldSteps(Nodes(Stream(tree)), HierarchySteps(p))
  }

  /** The body of the hierarchy loop for one visited node: a generate block runs the label loop over its nodes. */
  method HierarchyStepAnsi(p: Node, node: Node) returns (r: Result<seq<string>, Panic>)
    ensures r == HierarchySteps(p)(node)
  {
    assert HierarchySteps(p)(node) == HierarchyStep(p, node);
    if node.tag.GenerateBlock? {
      r := FoldNodes(Nodes(Stream(node)), LabelSteps(node, p));
    } else {
      r := Ok([]);
    }
  }

  /** `inst_hierarchy`. */
  method InstHierarchy(p: Node, tree: Node) returns (r: Result<seq<string>, Panic>)
    ensures r == HierarchyOf(tree, p)
  {
    var ns := Nodes(Stream(tree));
    var ret: seq<string> := [];
    var i := 0;
    while i < |ns|
      invariant 0 <= i <= |ns|
      invariant FoldSteps(ns[..i], HierarchySteps(p)) == Ok(ret)
    {
      FoldStepsNext(ns, i, HierarchySteps(p));
      var added := HierarchyStepAnsi(p, ns[i]);
      if added.Err? {
        FoldStepsStopPersists(ns, i + 1, HierarchySteps(p));
        return Err(added.error);
      }
      ret := ret + added.value;
      i := i + 1;
    }
    assert ns[..i] == ns;
    return Ok(ret);
  }

  /** How often `p` is visited among `ms`. */
  function Occurrences(ms: seq<Node>, p: Node): (c: nat)
    ensures c == 0 <==> p !in ms
  {
    if ms == [] then 0
    else
      var rest := ms[..|ms| - 1];
      assert ms == rest + [ms[|ms| - 1]];
      Occurrences(rest, p) + (if ms[|ms| - 1] == p then 1 else 0)
  }

  /** Inside one generate block, each visit of `p` adds the block's label, once. */
  lemma {:induction false} BlockLabelsRepeat(g: Node, p: Node, ms: seq<Node>)
    requires p.tag.ModuleInstantiation?
    requires FoldSteps(ms, LabelSteps(g, p)).Ok?
    ensures |FoldSteps(ms, LabelSteps(g, p)).value| == Occurrences(ms, p)
    ensures forall k :: 0 <= k < |FoldSteps(ms, LabelSteps(g, p)).value| ==>
              Ok(FoldSteps(ms, LabelSteps(g, p)).value[k]) == BlockLabel(g)
    decreases |ms|
  {
    if ms != [] {
      var rest := ms[..|ms| - 1];
      BlockLabelsRepeat(g, p, rest);
      assert LabelSteps(g, p)(ms[|ms| - 1]) == LabelStep(g, p, ms[|ms| - 1]);
    }
  }

  /** Generate blocks visited before the instantiation contribute nothing
      when they do not contain it. */
  lemma BlockWithoutInstance(g: Node, p: Node)
    requires g.tag.GenerateBlock? && Enter(p) !in Stream(g)
    ensures HierarchyStep(p, g) == Ok([])
  {
    var ms := Nodes(Stream(g));
    forall k | 0 <= k < |ms|
      ensures LabelSteps(g, p)(ms[k]) == Ok([])
    {
      assert ms[k] in ms;
    }
    FoldStepsNothing(ms, LabelSteps(g, p));
  }

  /** An instantiation outside every generate block has an empty hierarchy. */
  lemma OutsideGenerateBlocks(tree: Node, p: Node)
    requires forall k :: 0 <= k < |Nodes(Stream(tree))| && Nodes(Stream(tree))[k].tag.GenerateBlock? ==>
               Enter(p) !in Stream(Nodes(Stream(tree))[k])
    ensures HierarchyOf(tree, p) == Ok([])
  {
    var ns := Nodes(Stream(tree));
    forall k | 0 <= k < |ns|
      ensures HierarchySteps(p)(ns[k]) == Ok([])
    {
      if ns[k].tag.GenerateBlock? {
        BlockWithoutInstance(ns[k], p);
      }
    }
    FoldStepsNothing(ns, HierarchySteps(p));
  }

  // ---------------------------------------------------------------------
  // Connections.
  // ---------------------------------------------------------------------

  /** The nodes of a select that overwrite the index: a variable or a number. */
  predicate IsIndexNode(e: Node) {
    e.tag.HierarchicalIdentifier? || e.tag.IntegralNumber?
  }

  /** The index an index node gives: the variable's identifier or the number's text. */
  function IndexValue(e: Node): (r: Result<string, Panic>)
    requires IsIndexNode(e)
    ensures e.tag.HierarchicalIdentifier? ==> r == IdentifierBelow(e, IsIdentifierNode)
    ensures e.tag.IntegralNumber? && !Contains(e, IsDecimalNumber) ==> r == Err(Unreachable)
  {
    if e.tag.HierarchicalIdentifier? then IdentifierBelow(e, IsIdentifierNode)
    else
      match Find(e, IsDecimalNumber)
      case None => Err(Unreachable)
      case Some(d) => Unwrap(SvMisc.StringOf(d))
  }

  /** One node visited inside a select: an index node overwrites the index. */
  function IndexStep(index: string, e: Node): Result<string, Panic> {
    if IsIndexNode(e) then IndexValue(e) else Ok(index)
  }

  /** One node visited inside a connection: a select runs the index loop over its nodes. */
  function SelectStep(index: string, y: Node): Result<string, Panic> {
    if y.tag.Select? then Scan(index, Nodes(Stream(y)), IndexStep) else Ok(index)
  }

  /** The index a connection's selects leave, starting from "". */
  function RightIndex(x: Node): Result<string, Panic> {
    Scan("", Nodes(Stream(x)), SelectStep)
  }

  /** The last index node visited decides the index. */
  lemma {:induction false} LastIndexWins(index: string, es: seq<Node>, k: nat)
    requires k < |es| && IsIndexNode(es[k])
    requires forall j :: k < j < |es| ==> !IsIndexNode(es[j])
    requires Scan(index, es, IndexStep).Ok?
    ensures Scan(index, es, IndexStep) == IndexValue(es[k])
    decreases |es|
  {
    var pre := es[..|es| - 1];
    if k < |es| - 1 {
      assert pre[k] == es[k];
      assert Scan(index, pre, IndexStep).Ok?;
      LastIndexWins(index, pre, k);
    }
  }

  /** Without index nodes, the index is left as it was. */
  lemma {:induction false} NoIndexKeeps(index: string, es: seq<Node>)
    requires forall j :: 0 <= j < |es| ==> !IsIndexNode(es[j])
    ensures Scan(index, es, IndexStep) == Ok(index)
    decreases |es|
  {
    if es != [] {
      NoIndexKeeps(index, es[..|es| - 1]);
    }
  }

  /** The connection's target, with the index in brackets when there is one. */
  function Indexed(name: string, index: string): (s: string)
    ensures index == "" ==> s == name
    ensures index != "" ==> s == name + "[" + index + "]"
  {
    if index == "" then name else name + "[" + index + "]"
  }

  /** A named connection: [port, target], the target empty when nothing is connected. */
  function NamedConnection(n: Node): (r: Result<seq<string>, Panic>)
    ensures r.Ok? ==> |r.value| == 2 && Contains(n, IsPortIdentifier)
                      && Some(r.value[0]) == SvMisc.Identifier(Find(n, IsPortIdentifier).value)
    ensures r.Ok? && !Contains(n, IsHierarchicalIdentifier) ==> r.value[1] == ""
    ensures r.Ok? && Contains(n, IsHierarchicalIdentifier) ==>
      exists name, index :: Some(name) == SvMisc.Identifier(Find(n, IsHierarchicalIdentifier).value)
        && RightIndex(n) == Ok(index) && r.value[1] == Indexed(name, index)
  {
    var leftNode :- Unwrap(Find(n, IsPortIdentifier));
    var left :- Unwrap(SvMisc.Identifier(leftNode));
    match Find(n, IsHierarchicalIdentifier)
    case None => Ok([left, ""])
    case Some(rightNode) =>
      var name :- Unwrap(SvMisc.Identifier(rightNode));
      var index :- RightIndex(n);
      Ok([left, Indexed(name, index)])
  }

  /** An ordered connection: [target], or nothing when it names no signal. */
  function OrderedConnection(n: Node): (r: Result<seq<seq<string>>, Panic>)
    ensures !Contains(n, IsHierarchicalIdentifier) ==> r == Ok([])
    ensures r.Ok? && Contains(n, IsHierarchicalIdentifier) ==>
      exists name, index :: Some(name) == SvMisc.Identifier(Find(n, IsHierarchicalIdentifier).value)
        && RightIndex(n) == Ok(index) && r.value == [[Indexed(name, index)]]
  {
    match Find(n, IsHierarchicalIdentifier)
    case None => Ok([])
    case Some(rightNode) =>
      var name :- Unwrap(SvMisc.Identifier(rightNode));
      var index :- RightIndex(n);
      Ok([[Indexed(name, index)]])
  }

  /** What one visited node adds to the connections: one entry per connection node. */
  function ConnectionStep(n: Node): (r: Result<seq<seq<string>>, Panic>)
    ensures n.tag.NamedPortConnection? ==>
      (r.Ok? <==> NamedConnection(n).Ok?) && (r.Ok? ==> r.value == [NamedConnection(n).value])
    ensures !n.tag.NamedPortConnection? && n.tag.OrderedPortConnection? ==> r == OrderedConnection(n)
    ensures !n.tag.NamedPortConnection? && !n.tag.OrderedPortConnection? ==> r == Ok([])
  {
    if n.tag.NamedPortConnection? then
      var c :- NamedConnection(n);
      Ok([c])
    else if n.tag.OrderedPortConnection? then OrderedConnection(n)
    else Ok([])
  }

  /** The connections of an instantiation, in visit order. */
  function ConnectionsOf(p: Node): Result<seq<seq<string>>, Panic> {
    FoldSteps(Nodes(Stream(p)), ConnectionStep)
  }

  /** The nodes that add a connection: named ones, and ordered ones naming a signal. */
  function ConnectionCount(ns: seq<Node>): nat {
    if ns == [] then 0
    else
      var n := ns[|ns| - 1];
      ConnectionCount(ns[..|ns| - 1])
        + (if n.tag.NamedPortConnection? || (n.tag.OrderedPortConnection? && Contains(n, IsHierarchicalIdentifier))
           then 1 else 0)
  }

  /** One entry per connection node, in visit order. */
  lemma {:induction false} ConnectionsCounted(ns: seq<Node>)
    requires FoldSteps(ns, ConnectionStep).Ok?
    ensures |FoldSteps(ns, ConnectionStep).value| == ConnectionCount(ns)
    decreases |ns|
  {
    if ns != [] {
      ConnectionsCounted(ns[..|ns| - 1]);
    }
  }

  /** The body of the index loop for one visited node: a select runs the loop over its own nodes. */
  method SelectStepAnsi(before: string, y: Node) returns (r: Result<string, Panic>)
    ensures r == SelectStep(before, y)
  {
    if y.tag.Select? {
      r := ScanAll(before, Nodes(Stream(y)), IndexStep);
    } else {
      r := Ok(before);
    }
  }

  /** The index loop of one connection (`right_index`). */
  method RightIndexAnsi(x: Node) returns (r: Result<string, Panic>)
    ensures r == RightIndex(x)
  {
    var ys := Nodes(Stream(x));
    var index := "";
    var i := 0;
    while i < |ys|
      invariant 0 <= i <= |ys|
      invariant Scan("", ys[..i], SelectStep) == Ok(index)
    {
      ScanNext("", ys, i, SelectStep);
      var next := SelectStepAnsi(index, ys[i]);
      if next.Err? {
        ScanStopPersists("", ys, i + 1, SelectStep);
        return Err(next.error);
      }
      index := next.value;
      i := i + 1;
    }
    assert ys[..i] == ys;
    return Ok(index);
  }

  /** `inst_connections`. */
  method InstConnections(p: Node) returns (r: Result<seq<seq<string>>, Panic>)
    ensures r == ConnectionsOf(p)
  {
    var ns := Nodes(Stream(p));
    var ret: seq<seq<string>> := [];
    var i := 0;
    while i < |ns|
      invariant 0 <= i <= |ns|
      invariant FoldSteps(ns[..i], ConnectionStep) == Ok(ret)
    {
      var node := ns[i];
      FoldStepsNext(ns, i, ConnectionStep);
      var step := ConnectionStepAnsi(node);
      if step.Err? {
        FoldStepsStopPersists(ns, i + 1, ConnectionStep);
        return Err(step.error);
      }
      ret := ret + step.value;
      i := i + 1;
    }
    assert ns[..i] == ns;
    return Ok(ret);
  }

  /** The body of the connection loop for one visited node. */
  method ConnectionStepAnsi(node: Node) returns (r: Result<seq<seq<string>>, Panic>)
    ensures r == ConnectionStep(node)
  {
    if node.tag.NamedPortConnection? {
      var leftNode := Find(node, IsPortIdentifier);
      if leftNode.None? {
        return Err(UnwrapNone);
      }
      var left := SvMisc.Identifier(leftNode.value);
      if left.None? {
        return Err(UnwrapNone);
      }
      var rightNode := Find(node, IsHierarchicalIdentifier);
      if rightNode.None? {
        return Ok([[left.value, ""]]);
      }
      var name := SvMisc.Identifier(rightNode.value);
      if name.None? {
        return Err(UnwrapNone);
      }
      var index := RightIndexAnsi(node);
      if index.Err? {
        return Err(index.error);
      }
      if index.value == "" {
        return Ok([[left.value, name.value]]);
      }
      return Ok([[left.value, name.value + "[" + index.value + "]"]]);
    } else if node.tag.OrderedPortConnection? {
      var rightNode := Find(node, IsHierarchicalIdentifier);
      if rightNode.None? {
        return Ok([]);
      }
      var name := SvMisc.Identifier(rightNode.value);
      if name.None? {
        return Err(UnwrapNone);
      }
      var index := RightIndexAnsi(node);
      if index.Err? {
        return Err(index.error);
      }
      if index.value == "" {
        return Ok([[name.value]]);
      }
      return Ok([[name.value + "[" + index.value + "]"]]);
    }
    return Ok([]);
  }

  // ---------------------------------------------------------------------
  // The whole instance.
  // ---------------------------------------------------------------------

  /** The instance record, its parts worked out in field order; the first panic stops it. */
  function ModuleInstanceOf(p: Node, tree: Node): (r: Result<SvInstance, Panic>)
    ensures r.Ok? <==> InstModuleIdentifier(p).Ok? && InstHierarchicalInstance(p).Ok?
                       && HierarchyOf(tree, p).Ok? && ConnectionsOf(p).Ok?
    ensures r.Ok? ==> Ok(r.value.moduleIdentifier) == InstModuleIdentifier(p)
                      && Ok(r.value.hierarchicalInstance) == InstHierarchicalInstance(p)
                      && Ok(r.value.hierarchy) == HierarchyOf(tree, p)
                      && Ok(r.value.connections) == ConnectionsOf(p)
  {
    var moduleIdentifier :- InstModuleIdentifier(p);
    var hierarchicalInstance :- InstHierarchicalInstance(p);
    var hierarchy :- HierarchyOf(tree, p);
    var connections :- ConnectionsOf(p);
    Ok(SvInstance(moduleIdentifier, hierarchicalInstance, hierarchy, connections))
  }

  /** `module_instance`. */
  method ModuleInstance(p: Node, tree: Node) returns (r: Result<SvInstance, Panic>)
    ensures r == ModuleInstanceOf(p, tree)
  {
    var moduleIdentifier :- InstModuleIdentifier(p);
    var hierarchicalInstance :- InstHierarchicalInstance(p);
    var hierarchy :- InstHierarchy(p, tree);
    var connections :- InstConnections(p);
    return Ok(SvInstance(moduleIdentifier, hierarchicalInstance, hierarchy, connections));
  }
}
