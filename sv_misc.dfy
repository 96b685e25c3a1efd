/**
 * Text helpers over the parser's traversal: the first identifier, keyword or
 * symbol below a node, the node's text with whitespace skipped, and the
 * comment tokens below it.
 */
module SvMisc {
  import opened Wrappers
  import opened Syntax
  import opened Folds

  predicate IsIdentifierTag(t: Tag) { t.SimpleIdentifier? || t.EscapedIdentifier? }
  predicate IsKeywordTag(t: Tag) { t.Keyword? }
  predicate IsSymbolTag(t: Tag) { t.Symbol? }

  /** `identifier`: the text of the first SimpleIdentifier or EscapedIdentifier
      in the subtree of `parent`, or None when there is none. */
  function Identifier(parent: Node): (r: Option<string>)
    ensures r.Some? ==> exists i :: IsFirst(Stream(parent), i, IsIdentifierTag)
                                    && r.value == Stream(parent)[i].node.tag.text
    ensures r.None? ==> forall i :: 0 <= i < |Stream(parent)| ==>
                          !(Stream(parent)[i].Enter? && IsIdentifierTag(Stream(parent)[i].node.tag))
  {
    match Find(parent, IsIdentifierTag)
    case Some(x) => Some(x.tag.text)
    case None => None
  }

  /** `keyword`: the text of the first Keyword in the subtree of `parent`. */
  function Keyword(parent: Node): (r: Option<string>)
    ensures r.Some? ==> exists i :: IsFirst(Stream(parent), i, IsKeywordTag)
                                    && r.value == Stream(parent)[i].node.tag.text
    ensures r.None? ==> forall i :: 0 <= i < |Stream(parent)| ==>
                          !(Stream(parent)[i].Enter? && Stream(parent)[i].node.tag.Keyword?)
  {
    match Find(parent, IsKeywordTag)
    case Some(x) => Some(x.tag.text)
    case None => None
  }

  /** `symbol`: the text of the first Symbol in the subtree of `parent`. */
  function Symbol(parent: Node): (r: Option<string>)
    ensures r.Some? ==> exists i :: IsFirst(Stream(parent), i, IsSymbolTag)
                                    && r.value == Stream(parent)[i].node.tag.text
    ensures r.None? ==> forall i :: 0 <= i < |Stream(parent)| ==>
                          !(Stream(parent)[i].Enter? && Stream(parent)[i].node.tag.Symbol?)
  {
    match Find(parent, IsSymbolTag)
    case Some(x) => Some(x.tag.text)
    case None => None
  }

  // ---------------------------------------------------------------------
  // get_string: a flag that Enter(WhiteSpace) sets and Leave(WhiteSpace)
  // clears; Locate texts entered while it is clear are concatenated.

  function SkipStep(skip: bool, e: Event): bool {
    if e.node.tag.WhiteSpace? then e.Enter? else skip
  }

  /** The whitespace flag after the events `evs`, starting from `skip`. */
  function Skip(skip: bool, evs: seq<Event>): bool {
    Flag(skip, evs, SkipSteps())
  }

  function SkipSteps(): (bool, Event) -> bool { (skip: bool, e: Event) => SkipStep(skip, e) }

  function TextPieces(): (bool, Event) -> string { (skip: bool, e: Event) => TextPiece(skip, e) }

  function TextPiece(skip: bool, e: Event): string {
    if e.Enter? && e.node.tag.Locate? && !skip then e.node.tag.text else ""
  }

  /** The texts `get_string` collects from `evs`, starting with the flag `skip`. */
  function Collected(skip: bool, evs: seq<Event>): string {
    FlagOut(skip, evs, SkipSteps(), TextPieces())
  }

  /** What `get_string` returns for `parent`. */
  function StringOf(parent: Node): Option<string> {
    var s := Collected(false, Stream(parent));
    if s == "" then None else Some(s)
  }

  /** `get_string`. */
  method GetString(parent: Node) returns (r: Option<string>)
    ensures r == StringOf(parent)
    ensures r.None? <==> Collected(false, Stream(parent)) == ""
  {
    var evs := Stream(parent);
    var ret: string := "";
    var skipWhitespace := false;
    var i := 0;
    while i < |evs|
      invariant 0 <= i <= |evs|
      invariant skipWhitespace == Skip(false, evs[..i])
      invariant ret == Collected(false, evs[..i])
    {
      FlagOutNext(false, evs, i, SkipSteps(), TextPieces());
      var e := evs[i];
      if e.Enter? && e.node.tag.WhiteSpace? {
        skipWhitespace := true;
      } else if e.Leave? && e.node.tag.WhiteSpace? {
        skipWhitespace := false;
      } else if e.Enter? && e.node.tag.Locate? {
        if !skipWhitespace {
          ret := ret + e.node.tag.text;
        }
      }
      i := i + 1;
    }
    assert evs[..i] == evs;
    if ret == "" {
      r := None;
    } else {
      r := Some(ret);
    }
  }

  /** Splitting the events anywhere: the texts collected from the second part
      are those collected when starting from the flag the first part left. */
  lemma CollectedAppend(skip: bool, a: seq<Event>, b: seq<Event>)
    ensures Skip(skip, a + b) == Skip(Skip(skip, a), b)
    ensures Collected(skip, a + b) == Collected(skip, a) + Collected(Skip(skip, a), b)
  {
    FlagOutAppend(skip, a, b, SkipSteps(), TextPieces());
  }

  /** The flag is a boolean, not a depth counter: whatever came before, a
      Leave of any WhiteSpace node re-enables collection, so a Locate entered
      next is collected even inside an enclosing WhiteSpace node. */
  lemma LeaveWhitespaceReenables(skip: bool, a: seq<Event>, w: Node, loc: Node)
    requires w.tag.WhiteSpace? && loc.tag.Locate?
    ensures Collected(skip, a + [Leave(w), Enter(loc)]) == Collected(skip, a) + loc.tag.text
  {
    var s := Skip(skip, a);
    CollectedAppend(skip, a, [Leave(w), Enter(loc)]);
    FlagOutTwo(s, Leave(w), Enter(loc), SkipSteps(), TextPieces());
    assert SkipStep(s, Leave(w)) == false;
    assert TextPiece(s, Leave(w)) + TextPiece(false, Enter(loc)) == loc.tag.text;
  }

  /** A Locate entered while the flag is set contributes nothing. */
  lemma EnterWhitespaceSkips(skip: bool, a: seq<Event>, w: Node, loc: Node)
    requires w.tag.WhiteSpace? && loc.tag.Locate?
    ensures Collected(skip, a + [Enter(w), Enter(loc)]) == Collected(skip, a)
  {
    var s := Skip(skip, a);
    CollectedAppend(skip, a, [Enter(w), Enter(loc)]);
    FlagOutTwo(s, Enter(w), Enter(loc), SkipSteps(), TextPieces());
    assert SkipStep(s, Enter(w)) == true;
    assert TextPiece(s, Enter(w)) + TextPiece(true, Enter(loc)) == "";
    assert Collected(skip, a) + "" == Collected(skip, a);
  }

  /** Without Locate events nothing is collected, so `get_string` gives None. */
  lemma {:induction false} NoLocateNoText(skip: bool, evs: seq<Event>)
    requires forall i :: 0 <= i < |evs| ==> !evs[i].node.tag.Locate?
    ensures Collected(skip, evs) == ""
    decreases |evs|
  {
    if evs != [] {
      NoLocateNoText(skip, evs[..|evs| - 1]);
    }
  }

  /** The texts of the entered Locate nodes that `keep` marks, in order. */
  function Selected(evs: seq<Event>, keep: seq<bool>): string
    requires |keep| == |evs|
  {
    if evs == [] then ""
    else
      var e := evs[|evs| - 1];
      Selected(evs[..|evs| - 1], keep[..|keep| - 1])
        + (if e.Enter? && e.node.tag.Locate? && keep[|keep| - 1] then e.node.tag.text else "")
  }

  /** Only Locate texts are collected: the result is a concatenation of the
      texts of some of the entered Locate nodes, taken in order. */
  lemma {:induction false} CollectedIsLocateTexts(skip: bool, evs: seq<Event>)
    ensures exists keep: seq<bool> :: |keep| == |evs| && Collected(skip, evs) == Selected(evs, keep)
    ensures |Collected(skip, evs)| <= LocateLength(evs)
    decreases |evs|
  {
    if evs == [] {
      assert Collected(skip, evs) == Selected(evs, []);
    } else {
      var pre := evs[..|evs| - 1];
      CollectedIsLocateTexts(skip, pre);
      var keep' :| |keep'| == |pre| && Collected(skip, pre) == Selected(pre, keep');
      var keep := keep' + [!Skip(skip, pre)];
      assert keep[..|keep| - 1] == keep';
      assert Collected(skip, evs) == Selected(evs, keep);
    }
  }

  /** One more event extends the Locate texts by its own. */
  lemma {:induction false} LocateTextsSnoc(evs: seq<Event>, e: Event)
    ensures LocateTexts(evs + [e]) == LocateTexts(evs) + (if e.Enter? && e.node.tag.Locate? then e.node.tag.text else "")
    decreases |evs|
  {
    if evs == [] {
      assert [e][1..] == [];
    } else {
      LocateTextsSnoc(evs[1..], e);
      assert (evs + [e])[1..] == evs[1..] + [e];
    }
  }

  /** Without WhiteSpace nodes `get_string` collects every Locate text, as the
      node's source text does. */
  lemma {:induction false} CollectedWithoutWhitespace(evs: seq<Event>)
    requires forall i :: 0 <= i < |evs| ==> !evs[i].node.tag.WhiteSpace?
    ensures !Skip(false, evs)
    ensures Collected(false, evs) == LocateTexts(evs)
    decreases |evs|
  {
    if evs != [] {
      var pre := evs[..|evs| - 1];
      CollectedWithoutWhitespace(pre);
      LocateTextsSnoc(pre, evs[|evs| - 1]);
      assert pre + [evs[|evs| - 1]] == evs;
    }
  }

  /** The total length of the texts of entered Locate nodes. */
  function LocateLength(evs: seq<Event>): nat {
    if evs == [] then 0
    else
      var e := evs[|evs| - 1];
      LocateLength(evs[..|evs| - 1]) + (if e.Enter? && e.node.tag.Locate? then |e.node.tag.text| else 0)
  }

  // ---------------------------------------------------------------------
  // get_comment: a flag that Enter(Comment) sets and Leave(Comment) clears;
  // each Locate text entered while it is set is one entry.

  function InCommentStep(inside: bool, e: Event): bool {
    if e.node.tag.Comment? then e.Enter? else inside
  }

  /** The comment flag after `evs`, starting from `inside`. */
  function InComment(inside: bool, evs: seq<Event>): bool {
    Flag(inside, evs, InCommentSteps())
  }

  function InCommentSteps(): (bool, Event) -> bool { (inside: bool, e: Event) => InCommentStep(inside, e) }

  function CommentPieces(): (bool, Event) -> seq<string> { (inside: bool, e: Event) => CommentPiece(inside, e) }

  function CommentPiece(inside: bool, e: Event): seq<string> {
    if e.Enter? && e.node.tag.Locate? && inside then [e.node.tag.text] else []
  }

  /** The entries `get_comment` collects from `evs`, starting with the flag `inside`. */
  function CommentTexts(inside: bool, evs: seq<Event>): seq<string> {
    FlagOut(inside, evs, InCommentSteps(), CommentPieces())
  }

  /** What `get_comment` returns for `parent`. */
  function CommentOf(parent: Node): Option<seq<string>> {
    var s := CommentTexts(false, Stream(parent));
    if s == [] then None else Some(s)
  }

  /** `get_comment`. */
  method GetComment(parent: Node) returns (r: Option<seq<string>>)
    ensures r == CommentOf(parent)
    ensures r.None? <==> CommentTexts(false, Stream(parent)) == []
  {
    var evs := Stream(parent);
    var ret: seq<string> := [];
    var extractComment := false;
    var i := 0;
    while i < |evs|
      invariant 0 <= i <= |evs|
      invariant extractComment == InComment(false, evs[..i])
      invariant ret == CommentTexts(false, evs[..i])
    {
      FlagOutNext(false, evs, i, InCommentSteps(), CommentPieces());
      var e := evs[i];
      if e.Enter? && e.node.tag.Comment? {
        extractComment := true;
      } else if e.Leave? && e.node.tag.Comment? {
        extractComment := false;
      } else if e.Enter? && e.node.tag.Locate? {
        if extractComment {
          ret := ret + [e.node.tag.text];
        }
      }
      i := i + 1;
    }
    assert evs[..i] == evs;
    if ret == [] {
      r := None;
    } else {
      r := Some(ret);
    }
  }

  lemma CommentTextsAppend(inside: bool, a: seq<Event>, b: seq<Event>)
    ensures InComment(inside, a + b) == InComment(InComment(inside, a), b)
    ensures CommentTexts(inside, a + b) == CommentTexts(inside, a) + CommentTexts(InComment(inside, a), b)
  {
    FlagOutAppend(inside, a, b, InCommentSteps(), CommentPieces());
  }

  /** Outside any comment the flag stays clear, so no entry is collected:
      `get_comment` is None for a node without Comment nodes below it. */
  lemma {:induction false} NoCommentNoEntries(evs: seq<Event>)
    requires forall i :: 0 <= i < |evs| ==> !evs[i].node.tag.Comment?
    ensures !InComment(false, evs)
    ensures CommentTexts(false, evs) == []
    decreases |evs|
  {
    if evs != [] {
      NoCommentNoEntries(evs[..|evs| - 1]);
    }
  }

  /** Each Locate inside a comment is one entry of its own. */
  lemma CommentTokenIsOneEntry(a: seq<Event>, c: Node, loc: Node)
    requires c.tag.Comment? && loc.tag.Locate?
    ensures CommentTexts(false, a + [Enter(c), Enter(loc)]) == CommentTexts(false, a) + [loc.tag.text]
  {
    var s := InComment(false, a);
    CommentTextsAppend(false, a, [Enter(c), Enter(loc)]);
    FlagOutTwo(s, Enter(c), Enter(loc), InCommentSteps(), CommentPieces());
    assert InCommentStep(s, Enter(c)) == true;
    assert CommentPiece(s, Enter(c)) + CommentPiece(true, Enter(loc)) == [loc.tag.text];
  }
}
