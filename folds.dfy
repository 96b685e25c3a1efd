/**
 * The shape shared by the extraction loops: every node of a traversal is
 * visited in order, each visit adds zero or more entries to the result, and
 * the first panic stops the loop.
 */
module Folds {
  import opened Wrappers
  import opened Syntax
  import opened Panics

  /** The entries visited nodes add, in order, or the first stop. */
  function FoldSteps<T>(ns: seq<Node>, step: Node -> Result<seq<T>, Panic>): Result<seq<T>, Panic> {
    if ns == [] then Ok([])
    else
      var done :- FoldSteps(ns[..|ns| - 1], step);
      var more :- step(ns[|ns| - 1]);
      Ok(done + more)
  }

  /** Once a prefix stops, the whole fold stops the same way. */
  lemma {:induction false} FoldStepsStopPersists<T>(ns: seq<Node>, i: nat, step: Node -> Result<seq<T>, Panic>)
    requires i <= |ns| && FoldSteps(ns[..i], step).Err?
    ensures FoldSteps(ns, step) == FoldSteps(ns[..i], step)
    decreases |ns|
  {
    if i < |ns| {
      var pre := ns[..|ns| - 1];
      assert pre[..i] == ns[..i];
      FoldStepsStopPersists(pre, i, step);
    } else {
      assert ns[..i] == ns;
    }
  }

  /** The entries of the nodes visited first come first. */
  lemma {:induction false} FoldStepsAppend<T>(a: seq<Node>, b: seq<Node>, step: Node -> Result<seq<T>, Panic>)
    requires FoldSteps(a, step).Ok? && FoldSteps(b, step).Ok?
    ensures FoldSteps(a + b, step) == Ok(FoldSteps(a, step).value + FoldSteps(b, step).value)
    decreases |b|
  {
    if b == [] {
      assert a + b == a;
      assert FoldSteps(a, step).value + FoldSteps(b, step).value == FoldSteps(a, step).value;
    } else {
      var b' := b[..|b| - 1];
      assert (a + b)[..|a + b| - 1] == a + b';
      assert (a + b)[|a + b| - 1] == b[|b| - 1];
      FoldStepsAppend(a, b', step);
      var x, y, z := FoldSteps(a, step).value, FoldSteps(b', step).value, step(b[|b| - 1]).value;
      assert FoldSteps(b, step).value == y + z;
      assert FoldSteps(a + b, step) == Ok((x + y) + z);
      assert (x + y) + z == x + (y + z);
    }
  }

  /** Visiting one more node adds its entries, or stops with its stop. */
  lemma FoldStepsNext<T>(ns: seq<Node>, i: nat, step: Node -> Result<seq<T>, Panic>)
    requires i < |ns| && FoldSteps(ns[..i], step).Ok?
    ensures step(ns[i]).Ok? ==> FoldSteps(ns[..i + 1], step) == Ok(FoldSteps(ns[..i], step).value + step(ns[i]).value)
    ensures step(ns[i]).Err? ==> FoldSteps(ns[..i + 1], step) == Err(step(ns[i]).error)
  {
    assert ns[..i + 1][..i] == ns[..i];
    assert ns[..i + 1][i] == ns[i];
  }

  /**
   * The loop of the extractions that visit the nodes below a declaration:
   * each visited node adds its entries in order, and the first panic stops it.
   */
  method FoldNodes<T>(ns: seq<Node>, step: Node -> Result<seq<T>, Panic>) returns (r: Result<seq<T>, Panic>)
    ensures r == FoldSteps(ns, step)
  {
    var ret: seq<T> := [];
    var i := 0;
    while i < |ns|
      invariant 0 <= i <= |ns|
      invariant FoldSteps(ns[..i], step) == Ok(ret)
    {
      FoldStepsNext(ns, i, step);
      var piece := step(ns[i]);
      if piece.Err? {
        FoldStepsStopPersists(ns, i + 1, step);
        return Err(piece.error);
      }
      ret := ret + piece.value;
      i := i + 1;
    }
    assert ns[..i] == ns;
    return Ok(ret);
  }

  /** Nodes that add nothing leave the fold empty. */
  lemma {:induction false} FoldStepsNothing<T>(ns: seq<Node>, step: Node -> Result<seq<T>, Panic>)
    requires forall k :: 0 <= k < |ns| ==> step(ns[k]) == Ok([])
    ensures FoldSteps(ns, step) == Ok([])
    decreases |ns|
  {
    if ns != [] {
      FoldStepsNothing(ns[..|ns| - 1], step);
      assert step(ns[|ns| - 1]) == Ok([]);
      assert FoldSteps(ns[..|ns| - 1], step).value + [] == [];
    }
  }

  /** Folding over the nodes entered in events: one more event adds the
      entries of its node when it is an Enter, and nothing when it is a Leave. */
  lemma FoldStepsOneMoreEvent<T>(pre: seq<Event>, e: Event, step: Node -> Result<seq<T>, Panic>)
    requires FoldSteps(Nodes(pre), step).Ok?
    ensures e.Leave? ==> FoldSteps(Nodes(pre + [e]), step) == FoldSteps(Nodes(pre), step)
    ensures e.Enter? && step(e.node).Ok? ==>
      FoldSteps(Nodes(pre + [e]), step) == Ok(FoldSteps(Nodes(pre), step).value + step(e.node).value)
    ensures e.Enter? && step(e.node).Err? ==> FoldSteps(Nodes(pre + [e]), step) == Err(step(e.node).error)
  {
    NodesAppend(pre, [e]);
    assert [e][1..] == [];
    var ns := Nodes(pre);
    if e.Enter? {
      assert Nodes([e]) == [e.node];
      var all := ns + [e.node];
      assert all[..|all| - 1] == ns;
      assert all[|all| - 1] == e.node;
    } else {
      assert Nodes([e]) == [];
      assert ns + [] == ns;
    }
  }

  /** When every entry any step adds has a property, every entry of the fold has it. */
  lemma {:induction false} FoldStepsEvery<T>(ns: seq<Node>, step: Node -> Result<seq<T>, Panic>, P: T -> bool)
    requires forall n: Node :: step(n).Ok? ==> forall x :: x in step(n).value ==> P(x)
    requires FoldSteps(ns, step).Ok?
    ensures forall x :: x in FoldSteps(ns, step).value ==> P(x)
    decreases |ns|
  {
    if ns != [] {
      FoldStepsEvery(ns[..|ns| - 1], step, P);
    }
  }

  /** The sum of `size` over the nodes. */
  function SumOver(ns: seq<Node>, size: Node -> nat): nat {
    if ns == [] then 0 else SumOver(ns[..|ns| - 1], size) + size(ns[|ns| - 1])
  }

  /** When every step adds `size` of its node entries, the fold has their sum. */
  lemma {:induction false} FoldStepsLength<T>(ns: seq<Node>, step: Node -> Result<seq<T>, Panic>, size: Node -> nat)
    requires forall n: Node :: step(n).Ok? ==> |step(n).value| == size(n)
    requires FoldSteps(ns, step).Ok?
    ensures |FoldSteps(ns, step).value| == SumOver(ns, size)
    decreases |ns|
  {
    if ns != [] {
      FoldStepsLength(ns[..|ns| - 1], step, size);
    }
  }

  /** One node whose step stops makes the whole fold stop. */
  lemma {:induction false} FoldStepsErrs<T>(ns: seq<Node>, k: nat, step: Node -> Result<seq<T>, Panic>)
    requires k < |ns| && step(ns[k]).Err?
    ensures FoldSteps(ns, step).Err?
    decreases |ns|
  {
    if k < |ns| - 1 {
      var pre := ns[..|ns| - 1];
      assert pre[k] == ns[k];
      FoldStepsErrs(pre, k, step);
    }
  }

  /** Loop variables that each visited node or event may update, or the first stop. */
  function Scan<A, E>(a: A, ns: seq<E>, step: (A, E) -> Result<A, Panic>): Result<A, Panic> {
    if ns == [] then Ok(a)
    else
      var b :- Scan(a, ns[..|ns| - 1], step);
      step(b, ns[|ns| - 1])
  }

  /** Once a prefix stops, the whole scan stops the same way. */
  lemma {:induction false} ScanStopPersists<A, E>(a: A, ns: seq<E>, i: nat, step: (A, E) -> Result<A, Panic>)
    requires i <= |ns| && Scan(a, ns[..i], step).Err?
    ensures Scan(a, ns, step) == Scan(a, ns[..i], step)
    decreases |ns|
  {
    if i < |ns| {
      var pre := ns[..|ns| - 1];
      assert pre[..i] == ns[..i];
      ScanStopPersists(a, pre, i, step);
    } else {
      assert ns[..i] == ns;
    }
  }

  /** Visiting one more node applies its step to the value so far. */
  lemma ScanNext<A, E>(a: A, ns: seq<E>, i: nat, step: (A, E) -> Result<A, Panic>)
    requires i < |ns| && Scan(a, ns[..i], step).Ok?
    ensures Scan(a, ns[..i + 1], step) == step(Scan(a, ns[..i], step).value, ns[i])
  {
    assert ns[..i + 1][..i] == ns[..i];
    assert ns[..i + 1][i] == ns[i];
  }

  /** The loop of a scan: each element updates the state, and the first panic stops it. */
  method ScanAll<A, E>(a: A, ns: seq<E>, step: (A, E) -> Result<A, Panic>) returns (r: Result<A, Panic>)
    ensures r == Scan(a, ns, step)
  {
    var state := a;
    var i := 0;
    while i < |ns|
      invariant 0 <= i <= |ns|
      invariant Scan(a, ns[..i], step) == Ok(state)
    {
      ScanNext(a, ns, i, step);
      var next := step(state, ns[i]);
      if next.Err? {
        ScanStopPersists(a, ns, i + 1, step);
        return Err(next.error);
      }
      state := next.value;
      i := i + 1;
    }
    assert ns[..i] == ns;
    return Ok(state);
  }

  /**
   * A scan step that appends, to the field `field` of its value, the entries
   * `f` gives for an entered node, and leaves the field alone on a Leave.
   */
  ghost predicate Appends<A(!new), T>(step: (A, Event) -> Result<A, Panic>, field: A -> seq<T>, f: Node -> Result<seq<T>, Panic>) {
    forall a: A, e: Event :: step(a, e).Ok? ==>
      && (e.Leave? ==> field(step(a, e).value) == field(a))
      && (e.Enter? ==> f(e.node).Ok? && field(step(a, e).value) == field(a) + f(e.node).value)
  }

  /** A scan whose step appends collects the entries of the entered nodes, in Enter order. */
  lemma {:induction false} ScanCollects<A(!new), T>(step: (A, Event) -> Result<A, Panic>, field: A -> seq<T>,
                                              f: Node -> Result<seq<T>, Panic>, a0: A, evs: seq<Event>)
    requires Appends(step, field, f) && Scan(a0, evs, step).Ok?
    ensures FoldSteps(Nodes(evs), f).Ok?
    ensures field(Scan(a0, evs, step).value) == field(a0) + FoldSteps(Nodes(evs), f).value
    decreases |evs|
  {
    if evs == [] {
      assert field(a0) + [] == field(a0);
    } else {
      var pre := evs[..|evs| - 1];
      var e := evs[|evs| - 1];
      assert evs == pre + [e];
      ScanCollects(step, field, f, a0, pre);
      ScanCollectsStep(step, field, f, a0, pre, e);
    }
  }

  /** One more event keeps what `ScanCollects` states. */
  lemma ScanCollectsStep<A(!new), T>(step: (A, Event) -> Result<A, Panic>, field: A -> seq<T>,
                               f: Node -> Result<seq<T>, Panic>, a0: A, pre: seq<Event>, e: Event)
    requires Appends(step, field, f) && Scan(a0, pre + [e], step).Ok?
    requires Scan(a0, pre, step).Ok? && FoldSteps(Nodes(pre), f).Ok?
    requires field(Scan(a0, pre, step).value) == field(a0) + FoldSteps(Nodes(pre), f).value
    ensures FoldSteps(Nodes(pre + [e]), f).Ok?
    ensures field(Scan(a0, pre + [e], step).value) == field(a0) + FoldSteps(Nodes(pre + [e]), f).value
  {
    var evs := pre + [e];
    assert evs[..|evs| - 1] == pre && evs[|evs| - 1] == e;
    var mid := Scan(a0, pre, step).value;
    assert Scan(a0, evs, step) == step(mid, e);
    FoldStepsOneMoreEvent(pre, e, f);
    if e.Enter? {
      var x0 := FoldSteps(Nodes(pre), f).value;
      var x1 := f(e.node).value;
      assert field(a0) + x0 + x1 == field(a0) + (x0 + x1);
    }
  }

  /** A boolean flag that `step` updates at each event, starting from `f0`. */
  function Flag<E>(f0: bool, evs: seq<E>, step: (bool, E) -> bool): bool {
    if evs == [] then f0 else step(Flag(f0, evs[..|evs| - 1], step), evs[|evs| - 1])
  }

  /** What each event adds, chosen by `piece` from the flag before it, in order. */
  function FlagOut<E, T>(f0: bool, evs: seq<E>, step: (bool, E) -> bool, piece: (bool, E) -> seq<T>): seq<T> {
    if evs == [] then []
    else FlagOut(f0, evs[..|evs| - 1], step, piece) + piece(Flag(f0, evs[..|evs| - 1], step), evs[|evs| - 1])
  }

  /** Splitting the events anywhere: the second part continues from the flag the first part left. */
  lemma {:induction false} FlagOutAppend<E, T>(f0: bool, a: seq<E>, b: seq<E>, step: (bool, E) -> bool, piece: (bool, E) -> seq<T>)
    ensures Flag(f0, a + b, step) == Flag(Flag(f0, a, step), b, step)
    ensures FlagOut(f0, a + b, step, piece) == FlagOut(f0, a, step, piece) + FlagOut(Flag(f0, a, step), b, step, piece)
    decreases |b|
  {
    if b == [] {
      assert a + b == a;
    } else {
      var b' := b[..|b| - 1];
      FlagOutAppend(f0, a, b', step, piece);
      assert (a + b)[..|a + b| - 1] == a + b';
      assert (a + b)[|a + b| - 1] == b[|b| - 1];
    }
  }

  /** Two events: each adds the piece its flag chooses. */
  lemma FlagOutTwo<E, T>(f0: bool, e1: E, e2: E, step: (bool, E) -> bool, piece: (bool, E) -> seq<T>)
    ensures Flag(f0, [e1, e2], step) == step(step(f0, e1), e2)
    ensures FlagOut(f0, [e1, e2], step, piece) == piece(f0, e1) + piece(step(f0, e1), e2)
  {
    assert [e1, e2][..1] == [e1];
    assert [e1][..0] == [];
    assert Flag(f0, [e1], step) == step(f0, e1);
    assert FlagOut(f0, [e1], step, piece) == [] + piece(f0, e1) == piece(f0, e1);
  }

  /** One more event of a prefix updates the flag and adds its piece. */
  lemma FlagOutNext<E, T>(f0: bool, evs: seq<E>, i: nat, step: (bool, E) -> bool, piece: (bool, E) -> seq<T>)
    requires i < |evs|
    ensures Flag(f0, evs[..i + 1], step) == step(Flag(f0, evs[..i], step), evs[i])
    ensures FlagOut(f0, evs[..i + 1], step, piece) == FlagOut(f0, evs[..i], step, piece) + piece(Flag(f0, evs[..i], step), evs[i])
  {
    assert evs[..i + 1][..i] == evs[..i];
    assert evs[..i + 1][i] == evs[i];
  }
}
