/** The parent/child edges between components, and rewriting a component's id on either end of them
    (metadata.rs, replace_parent_child_component_id). */
module ComponentMoves {
  import opened Wrappers
  import opened Metadata
  import opened CatalogStore

  /** A directed edge; the type labels are denormalised from the components. */
  datatype Edge = Edge(parent: int, parentType: Text, child: int, childType: Text)

  function Ends(e: Edge): (int, int) { (e.parent, e.child) }

  predicate EdgesUnique(rows: map<int, Edge>) {
    forall i, j :: i in rows && j in rows && Ends(rows[i]) == Ends(rows[j]) ==> i == j
  }

  /** `e` labels component `c` as a `kind`. */
  predicate Says(e: Edge, c: int, kind: Text) {
    (e.parent == c && e.parentType == kind) || (e.child == c && e.childType == kind)
  }

  predicate Mentions(e: Edge, c: int) { e.parent == c || e.child == c }

  /** No component is labelled two ways. */
  ghost predicate LabelsAgree(rows: map<int, Edge>) {
    forall i, j, c, t, u :: i in rows && j in rows && Says(rows[i], c, t) && Says(rows[j], c, u) ==> t == u
  }

  function Rename(c: int, giver: int, taker: int): int { if c == giver then taker else c }

  function Moved(e: Edge, giver: int, taker: int, kind: Option<Text>): Edge {
    Edge(Rename(e.parent, giver, taker),
         if e.parent == giver && kind.Some? then kind.value else e.parentType,
         Rename(e.child, giver, taker),
         if e.child == giver && kind.Some? then kind.value else e.childType)
  }

  function MovedRows(rows: map<int, Edge>, giver: int, taker: int, kind: Option<Text>): map<int, Edge> {
    map i | i in rows :: if Mentions(rows[i], giver) then Moved(rows[i], giver, taker, kind) else rows[i]
  }

  /** What the destination's own rows call it, if it has any. */
  predicate LabelOf(rows: map<int, Edge>, c: int, kind: Option<Text>) {
    match kind
    case Some(t) => exists i :: i in rows && Says(rows[i], c, t)
    case None => forall i :: i in rows ==> !Mentions(rows[i], c)
  }

  lemma SaysIt(rows: map<int, Edge>, i: int, c: int, kind: Text)
    requires i in rows && Says(rows[i], c, kind)
    ensures LabelOf(rows, c, Some(kind))
  {}

  /** What a rewrite did: everything under the destination's label, or nothing. */
  predicate Rewrites(before: map<int, Edge>, after: map<int, Edge>, ok: bool, giver: int, taker: int, kind: Option<Text>) {
    && (if giver == taker then kind == None else LabelOf(before, taker, kind))
    && (ok <==> EdgesUnique(MovedRows(before, giver, taker, kind)))
    && after == if ok then MovedRows(before, giver, taker, kind) else before
  }

  /** A rewrite to itself changes nothing. */
  lemma SelfMove(rows: map<int, Edge>, c: int)
    ensures MovedRows(rows, c, c, None) == rows
  {
    assert forall i :: i in rows ==> Moved(rows[i], c, c, None) == rows[i];
  }

  /** A real move leaves every edge in place, renamed at whichever ends named the old component. */
  lemma MoveRenamesTheGraph(rows: map<int, Edge>, giver: int, taker: int, kind: Option<Text>)
    ensures var after := MovedRows(rows, giver, taker, kind);
      && after.Keys == rows.Keys
      && (forall i :: i in rows ==> Ends(after[i]) == (Rename(rows[i].parent, giver, taker), Rename(rows[i].child, giver, taker)))
      && (giver != taker ==> forall i :: i in after ==> !Mentions(after[i], giver))
  {}

  /** Labels that agreed still agree: the moved ends take the destination's label, and nothing else does. */
  lemma MoveKeepsLabels(rows: map<int, Edge>, giver: int, taker: int, kind: Option<Text>)
    requires LabelsAgree(rows) && giver != taker && LabelOf(rows, taker, kind)
    ensures LabelsAgree(MovedRows(rows, giver, taker, kind))
  {
    var after := MovedRows(rows, giver, taker, kind);
    forall i, j, c, t, u | i in after && j in after && Says(after[i], c, t) && Says(after[j], c, u)
      ensures t == u
    {
      LabelAfter(rows, giver, taker, kind, i, c, t);
      LabelAfter(rows, giver, taker, kind, j, c, u);
    }
  }

  /** Where a label of the moved graph comes from. */
  lemma LabelAfter(rows: map<int, Edge>, giver: int, taker: int, kind: Option<Text>, i: int, c: int, t: Text)
    requires LabelsAgree(rows) && giver != taker && LabelOf(rows, taker, kind)
    requires i in rows && Says(MovedRows(rows, giver, taker, kind)[i], c, t)
    ensures c == taker && kind.Some? ==> t == kind.value
    ensures c == taker && kind.None? ==> exists k :: k in rows && Says(rows[k], giver, t)
    ensures c != taker ==> Says(rows[i], c, t)
  {
    if c == taker && kind.Some? {
      var k :| k in rows && Says(rows[k], taker, kind.value);
      if Says(rows[i], taker, t) {
        assert t == kind.value;
      }
    } else if c == taker {
      assert !Mentions(rows[i], taker);
      assert Says(rows[i], giver, t);
    }
  }

  /** The unique index is checked edge by edge; an edge still to be rewritten names the old component, so
      part-way it refuses only what it would refuse at the end. */
  lemma RewriteOrderDoesNotMatter(rows: map<int, Edge>, done: set<int>, giver: int, taker: int, kind: Option<Text>)
    requires giver != taker && EdgesUnique(rows) && EdgesUnique(MovedRows(rows, giver, taker, kind))
    ensures EdgesUnique(map i | i in rows :: if i in done then MovedRows(rows, giver, taker, kind)[i] else rows[i])
  {
    var final := MovedRows(rows, giver, taker, kind);
    var part := map i | i in rows :: if i in done then final[i] else rows[i];
    forall i, j | i in part && j in part && Ends(part[i]) == Ends(part[j])
      ensures i == j
    {
      if part[i] == rows[i] && part[j] == rows[j] {
        assert Ends(rows[i]) == Ends(rows[j]);
      } else {
        assert Ends(final[i]) == Ends(final[j]);
      }
    }
  }

  class EdgeTable {
    var rows: map<int, Edge>

    constructor ()
      ensures rows == map[]
    {
      rows := map[];
    }

    /** One row of the destination, as a parent before as a child. */
    method DestinationType(taker: int, scan: seq<int>) returns (kind: Option<Text>)
      requires Lists(scan, rows.Keys)
      ensures LabelOf(rows, taker, kind)
    {
      for k := 0 to |scan|
        invariant forall j :: 0 <= j < k ==> rows[scan[j]].parent != taker
      {
        var e := rows[scan[k]];
        if e.parent == taker {
          SaysIt(rows, scan[k], taker, e.parentType);
          return Some(e.parentType);
        }
      }
      for k := 0 to |scan|
        invariant forall j :: 0 <= j < k ==> rows[scan[j]].child != taker
      {
        var e := rows[scan[k]];
        if e.child == taker {
          SaysIt(rows, scan[k], taker, e.childType);
          return Some(e.childType);
        }
      }
      assert forall i :: i in rows ==> i in scan;
      return None;
    }

    /** Rewrite `giver` to `taker` on every edge, or refuse and change nothing when two edges would coincide. */
    method ReplaceComponent(giver: int, taker: int, scan: seq<int>) returns (r: Result<nat>)
      requires Lists(scan, rows.Keys)
      modifies this
      ensures giver == taker ==> rows == old(rows)
      ensures r.Err? ==> rows == old(rows) && r.error == DuplicateAssociation
      ensures r.Ok? ==> r.value == |set i | i in old(rows) && Mentions(old(rows)[i], giver)|
      ensures r.Ok? ==> EdgesUnique(rows)
      ensures exists kind: Option<Text> :: Rewrites(old(rows), rows, r.Ok?, giver, taker, kind)
    {
      var kind: Option<Text> := None;
      if giver != taker {
        kind := DestinationType(taker, scan);
      }
      var moved := MovedRows(rows, giver, taker, kind);
      SelfMove(rows, giver);
      ghost var before := rows;
      if !EdgesUnique(moved) {
        assert Rewrites(before, rows, false, giver, taker, kind);
        return Err(DuplicateAssociation);
      }
      var n := |set i | i in rows && Mentions(rows[i], giver)|;
      rows := moved;
      assert Rewrites(before, rows, true, giver, taker, kind);
      return Ok(n);
    }
  }
}
