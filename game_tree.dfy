/**
 * `GameTree` of `python/game_tree.py`: a node holding a placement, whose move it is, a score and
 * an ordered list of subtrees it appends to in place, with a depth-1 lookup by placement and an
 * indented pre-order rendering. A ghost footprint `Repr` keeps the nodes below a node apart from
 * it, which is what lets the rendering terminate.
 */
module GameTrees {
  import opened Wrappers
  import opened Numerals

  /** `'    ' * depth`: four spaces per level, nothing for a depth of zero or less. */
  function Indent(depth: int): (s: string)
    ensures |s| == if depth <= 0 then 0 else 4 * depth
    ensures forall k :: 0 <= k < |s| ==> s[k] == ' '
    decreases depth
  {
    if depth <= 0 then "" else "    " + Indent(depth - 1)
  }

  /** How an f-string writes `self.placement`: the text itself, or "None". */
  function PlacementText(placement: Option<string>): string {
    match placement
    case None => "None"
    case Some(s) => s
  }

  /** The number of newline characters in `s`. */
  function Newlines(s: string): nat
    decreases |s|
  {
    if s == [] then 0 else (if s[0] == '\n' then 1 else 0) + Newlines(s[1..])
  }

  lemma {:induction false} NewlinesAppend(a: string, b: string)
    ensures Newlines(a + b) == Newlines(a) + Newlines(b)
    decreases |a|
  {
    if a == [] {
      assert a + b == b;
    } else {
      assert (a + b)[1..] == a[1..] + b;
      NewlinesAppend(a[1..], b);
    }
  }

  lemma {:induction false} NoNewlines(s: string)
    requires '\n' !in s
    ensures Newlines(s) == 0
    decreases |s|
  {
    if s != [] {
      assert forall k :: 0 <= k < |s| - 1 ==> s[1..][k] == s[k + 1];
      NoNewlines(s[1..]);
    }
  }

  /** The union of the footprints of `ts`. */
  ghost function Union(ts: seq<GameTree>): set<object>
    reads ts
  {
    if ts == [] then {} else Union(ts[..|ts| - 1]) + ts[|ts| - 1].Repr
  }

  lemma {:induction false} UnionCovers(ts: seq<GameTree>)
    ensures forall t :: t in ts ==> t.Repr <= Union(ts)
  {
    if ts != [] {
      UnionCovers(ts[..|ts| - 1]);
      assert forall t :: t in ts ==> t in ts[..|ts| - 1] || t == ts[|ts| - 1];
    }
  }

  lemma {:induction false} UnionBounded(ts: seq<GameTree>)
    ensures forall o :: o in Union(ts) ==> exists t :: t in ts && o in t.Repr
  {
    if ts != [] {
      UnionBounded(ts[..|ts| - 1]);
      assert forall t :: t in ts[..|ts| - 1] ==> t in ts;
      assert ts[|ts| - 1] in ts;
    }
  }

  class GameTree {
    var placement: Option<string>
    var isXMove: bool
    var xWinScore: int
    var subtrees: seq<GameTree>
    ghost var Repr: set<object>

    /** Every subtree is valid and lies inside this node's footprint, which it does not reach back into. */
    ghost predicate Valid()
      reads this, Repr
      decreases Repr
    {
      this in Repr &&
      forall t :: t in subtrees ==>
        t in Repr && t.Repr <= Repr && this !in t.Repr && t.Valid()
    }

    /** `GameTree(placement=None, is_x_move=True, x_win_score=0)`: a node without subtrees. */
    constructor (placement: Option<string> := None, isXMove: bool := true, xWinScore: int := 0)
      ensures Valid() && fresh(Repr) && Repr == {this}
      ensures this.placement == placement && this.isXMove == isXMove && this.xWinScore == xWinScore
      ensures subtrees == []
    {
      this.placement := placement;
      this.isXMove := isXMove;
      this.xWinScore := xWinScore;
      subtrees := [];
      Repr := {this};
    }

    /** `get_subtrees()`: the subtrees in order; of a valid node, each valid and strictly below it. */
    function GetSubtrees(): (r: seq<GameTree>)
      reads this, Repr
      ensures r == subtrees
      ensures Valid() ==> forall t :: t in r ==> t.Valid() && t.Repr < Repr
    {
      subtrees
    }

    /**
     * `find_subtree_by_spot(spot)`: the first direct subtree, in list order, whose placement is
     * `spot`, or None when no direct subtree has it. Deeper nodes are not looked at.
     */
    method FindSubtreeBySpot(spot: string) returns (r: Option<GameTree>)
      ensures r.None? <==> forall i :: 0 <= i < |subtrees| ==> subtrees[i].placement != Some(spot)
      ensures r.Some? ==>
        exists i :: 0 <= i < |subtrees| && subtrees[i] == r.value && r.value.placement == Some(spot)
          && forall j :: 0 <= j < i ==> subtrees[j].placement != Some(spot)
    {
      var i := 0;
      while i < |subtrees|
        invariant 0 <= i <= |subtrees|
        invariant forall j :: 0 <= j < i ==> subtrees[j].placement != Some(spot)
      {
        if subtrees[i].placement == Some(spot) {
          return Some(subtrees[i]);
        }
        i := i + 1;
      }
      return None;
    }

    /**
     * `add_subtree(subtree)`: appends `t` after the existing subtrees, with no check for a
     * placement already present. Appending a valid tree that does not contain this node keeps
     * this node valid.
     */
    method AddSubtree(t: GameTree)
      modifies this
      ensures subtrees == old(subtrees) + [t]
      ensures placement == old(placement) && isXMove == old(isXMove) && xWinScore == old(xWinScore)
      ensures Repr == old(Repr) + t.Repr
      ensures old(Valid()) && t.Valid() && this !in t.Repr ==> Valid()
    {
      subtrees := subtrees + [t];
      Repr := Repr + t.Repr;
    }

    /**
     * Recomputes this node's footprint from its subtrees' current footprints. A node that gains
     * a subtree after it was attached grows its own footprint but not its ancestors'; refreshing
     * each ancestor, nearest first, makes the tree valid again. The new footprint holds nothing
     * but this node and its subtrees' footprints, so the next ancestor up can be refreshed too.
     */
    ghost method Refresh()
      requires forall t :: t in subtrees ==> t.Valid() && this !in t.Repr
      modifies this
      ensures Valid()
      ensures placement == old(placement) && isXMove == old(isXMove) && xWinScore == old(xWinScore)
      ensures subtrees == old(subtrees)
      ensures forall t :: t in subtrees ==> t.Repr <= Repr
      ensures forall o :: o in Repr ==> o == this || exists t :: t in subtrees && o in t.Repr
    {
      assert forall t :: t in subtrees ==> t in t.Repr && t != this;
      UnionCovers(subtrees);
      UnionBounded(subtrees);
      Repr := {this} + Union(subtrees);
    }

    /** The node's own line: indent, then "  `---[" piece " -> (" placement ")]: " score " \n". */
    function Line(depth: int): string
      reads this
    {
      Indent(depth) + "  `---[" + (if isXMove then "x" else "o") + " -> (" + PlacementText(placement)
        + ")]: " + IntToString(xWinScore) + " \n"
    }

    /** `__str__(depth)`: this node's line, then each subtree rendered one level deeper, in order. */
    function Render(depth: int): string
      reads this, Repr
      requires Valid()
      decreases Repr, 1
    {
      Line(depth) + RenderFrom(0, depth + 1)
    }

    /** The renderings of subtrees `i..` at `depth`, concatenated in order. */
    function RenderFrom(i: nat, depth: int): string
      reads this, Repr
      requires Valid() && i <= |subtrees|
      decreases Repr, 0, |subtrees| - i
    {
      if i == |subtrees| then "" else subtrees[i].Render(depth) + RenderFrom(i + 1, depth)
    }

    /** The rendering as `__str__` builds it: the node's line, grown by one subtree's rendering at a time. */
    method ToString(depth: int := 0) returns (s: string)
      requires Valid()
      ensures s == Render(depth)
      decreases Repr
    {
      s := Line(depth);
      var i := 0;
      while i < |subtrees|
        invariant 0 <= i <= |subtrees|
        invariant s + old(RenderFrom(i, depth + 1)) == old(Render(depth))
      {
        var child := subtrees[i];
        assert old(child in subtrees);
        var part := child.ToString(depth + 1);
        assert (s + part) + old(RenderFrom(i + 1, depth + 1)) == s + (part + old(RenderFrom(i + 1, depth + 1)));
        s := s + part;
        i := i + 1;
      }
      assert old(RenderFrom(i, depth + 1)) == "" && s + "" == s;
    }

    /** The number of nodes in the tree. */
    ghost function Size(): nat
      reads this, Repr
      requires Valid()
      decreases Repr, 1
    {
      1 + SizeFrom(0)
    }

    ghost function SizeFrom(i: nat): nat
      reads this, Repr
      requires Valid() && i <= |subtrees|
      decreases Repr, 0, |subtrees| - i
    {
      if i == |subtrees| then 0 else subtrees[i].Size() + SizeFrom(i + 1)
    }

    /** No placement anywhere in the tree contains a line break. */
    ghost predicate PlacementsOnOneLine()
      reads this, Repr
      requires Valid()
      decreases Repr
    {
      '\n' !in PlacementText(placement) &&
      forall t :: t in subtrees ==> t.PlacementsOnOneLine()
    }
  }

  /** A node's line ends in its only line break. */
  lemma LineHasOneNewline(t: GameTree, depth: int)
    requires '\n' !in PlacementText(t.placement)
    ensures Newlines(t.Line(depth)) == 1
    ensures t.Line(depth)[|t.Line(depth)| - 1] == '\n'
  {
    var piece := if t.isXMove then "x" else "o";
    var head := Indent(depth) + "  `---[" + piece + " -> (" + PlacementText(t.placement) + ")]: " + IntToString(t.xWinScore) + " ";
    assert t.Line(depth) == head + "\n";
    assert '\n' !in head;
    NoNewlines(head);
    NewlinesAppend(head, "\n");
  }

  /** The line shows the indent, then "  `---[", then 'x' exactly when it is x's move. */
  lemma LineShowsMove(t: GameTree, depth: int)
    ensures var n := if depth <= 0 then 0 else 4 * depth;
      |t.Line(depth)| > n + 7 &&
      (forall k :: 0 <= k < n ==> t.Line(depth)[k] == ' ') &&
      t.Line(depth)[n..n + 7] == "  `---[" &&
      t.Line(depth)[n + 7] == if t.isXMove then 'x' else 'o'
  {
  }

  /** The rendering starts with the node's own line: pre-order. */
  lemma RenderStartsWithLine(t: GameTree, depth: int)
    requires t.Valid()
    ensures t.Render(depth)[..|t.Line(depth)|] == t.Line(depth)
  {
  }

  /** A node without subtrees renders as exactly its own line. */
  lemma LeafRendersOneLine(t: GameTree, depth: int)
    requires t.Valid() && t.subtrees == []
    ensures t.Render(depth) == t.Line(depth)
  {
  }

  /** With placements free of line breaks, `__str__` emits exactly one line per node. */
  lemma {:induction false} OneLinePerNode(t: GameTree, depth: int)
    requires t.Valid() && t.PlacementsOnOneLine()
    ensures Newlines(t.Render(depth)) == t.Size()
    decreases t.Repr, 1
  {
    LineHasOneNewline(t, depth);
    NewlinesAppend(t.Line(depth), t.RenderFrom(0, depth + 1));
    OneLinePerSubtree(t, 0, depth + 1);
  }

  lemma {:induction false} OneLinePerSubtree(t: GameTree, i: nat, depth: int)
    requires t.Valid() && t.PlacementsOnOneLine() && i <= |t.subtrees|
    ensures Newlines(t.RenderFrom(i, depth)) == t.SizeFrom(i)
    decreases t.Repr, 0, |t.subtrees| - i
  {
    if i < |t.subtrees| {
      var c := t.subtrees[i];
      assert c in t.subtrees;
      NewlinesAppend(c.Render(depth), t.RenderFrom(i + 1, depth));
      OneLinePerNode(c, depth);
      OneLinePerSubtree(t, i + 1, depth);
    }
  }

  /** A node with one subtree counts one more node than it, and keeps placements on one line when it does. */
  lemma OnlyChild(t: GameTree, u: GameTree)
    requires t.Valid() && t.subtrees == [u]
    ensures t.Size() == u.Size() + 1
    ensures t.PlacementsOnOneLine() <==> '\n' !in PlacementText(t.placement) && u.PlacementsOnOneLine()
  {
    assert t.SizeFrom(1) == 0;
  }

  /** A node found below the root is not found by a lookup at the root: the search is depth 1. */
  method DeeperPlacementNotFound() returns (r: Option<GameTree>)
    ensures r.None?
  {
    var root := new GameTree();
    var child := new GameTree(Some("00"), false, 0);
    var grandchild := new GameTree(Some("11"), true, 0);
    child.AddSubtree(grandchild);
    root.AddSubtree(child);
    r := root.FindSubtreeBySpot("11");
  }

  /**
   * The chain root -> "00" -> "11" -> "22" grown top-down, as a search grows a tree: each node is
   * attached before it gets its own subtree, and the stale ancestors are then refreshed, nearest
   * first.
   */
  method GrowChain() returns (root: GameTree, a: GameTree, b: GameTree, c: GameTree)
    ensures root.Valid()
    ensures root.subtrees == [a] && a.subtrees == [b] && b.subtrees == [c] && c.subtrees == []
    ensures root.placement == None && a.placement == Some("00") && b.placement == Some("11")
      && c.placement == Some("22")
  {
    root := new GameTree();
    a := new GameTree(Some("00"), false, 0);
    b := new GameTree(Some("11"), true, 0);
    c := new GameTree(Some("22"), false, 0);
    root.AddSubtree(a);
    a.AddSubtree(b);
    b.AddSubtree(c);
    assert b.Valid() && b.Repr == {b, c} && b.subtrees == [c];
    a.Refresh();
    assert a.Repr <= {a, b, c} && a.subtrees == [b];
    root.Refresh();
  }

  /** `__str__` renders the top-down grown four-node chain as four lines. */
  method ExpandAfterAttach() returns (s: string)
    ensures Newlines(s) == 4
  {
    var root, a, b, c := GrowChain();
    assert a.Valid() && b.Valid() && c.Valid();
    assert c.Size() == 1 && c.PlacementsOnOneLine();
    OnlyChild(b, c);
    OnlyChild(a, b);
    OnlyChild(root, a);
    OneLinePerNode(root, 0);
    s := root.ToString(0);
  }
}
