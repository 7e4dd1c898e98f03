/** The matrix screen's assignment rules (src/screens/CluelessCorner.jsx):
    where a dragged card lands, when a move is written back, tap-to-select
    and tap-to-assign, the split of the assumption list into the sidebar and
    the four quadrants, and the order in which collision candidates are
    preferred. The drag-and-drop library's geometric detectors are not part
    of this model: their results are inputs. */
module CluelessCorner {
  import opened Domain
  import opened StateReducer

  /** `QUADRANT_ORDER`. */
  const QuadrantOrder: seq<string> := ["clueless", "validated", "nice-to-know", "known"]

  const Sidebar: string := "unmapped-sidebar"

  // ---------------------------------------------------------------------
  // Collision ranking

  /** One candidate from a detector: the droppable's id and the `type` in
      its data, if any. */
  datatype Collision = Collision(id: string, containerType: Option<string>)

  predicate IsQuadrantHit(c: Collision)
  {
    c.containerType == Some("quadrant")
  }

  /** `pointerCollisions.find(isQuadrant)`, as an index. */
  function FirstQuadrantHit(l: seq<Collision>): (r: Option<nat>)
    ensures r.Some? ==> r.value < |l| && IsQuadrantHit(l[r.value])
    ensures r.Some? ==> forall j :: 0 <= j < r.value ==> !IsQuadrantHit(l[j])
    ensures r.None? ==> forall j :: 0 <= j < |l| ==> !IsQuadrantHit(l[j])
  {
    if |l| == 0 then None
    else if IsQuadrantHit(l[0]) then Some(0)
    else
      var rest := FirstQuadrantHit(l[1..]);
      if rest.Some? then Some(rest.value + 1) else None
  }

  /** `customCollisionDetection`, given what the three detectors return. */
  function CustomCollision(pointer: seq<Collision>, rect: seq<Collision>, closest: seq<Collision>): seq<Collision>
  {
    if |pointer| > 0 then
      var hit := FirstQuadrantHit(pointer);
      if hit.Some? then [pointer[hit.value]] else pointer
    else if |rect| > 0 then rect
    else closest
  }

  /** The ranking: the first quadrant under the pointer alone, else every
      hit under the pointer, else the rectangle hits, else the closest
      centres. */
  lemma CollisionRanking(pointer: seq<Collision>, rect: seq<Collision>, closest: seq<Collision>)
    ensures var r := CustomCollision(pointer, rect, closest);
      (exists i :: 0 <= i < |pointer| && IsQuadrantHit(pointer[i])) ==>
        exists i :: 0 <= i < |pointer| && IsQuadrantHit(pointer[i])
          && (forall j :: 0 <= j < i ==> !IsQuadrantHit(pointer[j])) && r == [pointer[i]]
    ensures var r := CustomCollision(pointer, rect, closest);
      |pointer| > 0 && (forall i :: 0 <= i < |pointer| ==> !IsQuadrantHit(pointer[i])) ==> r == pointer
    ensures |pointer| == 0 && |rect| > 0 ==> CustomCollision(pointer, rect, closest) == rect
    ensures |pointer| == 0 && |rect| == 0 ==> CustomCollision(pointer, rect, closest) == closest
  {
    var hit := FirstQuadrantHit(pointer);
    if hit.Some? {
      assert IsQuadrantHit(pointer[hit.value]);
    }
  }

  // ---------------------------------------------------------------------
  // Drag and drop

  /** `over.data.current`: a quadrant zone, a card, or anything else. */
  datatype DropData = QuadrantZone(quadrantKey: string) | CardData(card: Assumption) | OtherData

  datatype Over = Over(id: string, data: DropData)

  /** The dragged item: its id and the assumption in its data, if any. */
  datatype Active = Active(id: string, assumption: Option<Assumption>)

  /** The quadrant a drop aims at: the zone's key, or the quadrant of the
      card dropped onto (possibly none); the sidebar always means none. */
  function DropTarget(over: Over): (t: Option<string>)
    ensures over.id == Sidebar ==> t == None
    ensures over.id != Sidebar && over.data.QuadrantZone? ==> t == Some(over.data.quadrantKey)
    ensures over.id != Sidebar && over.data.CardData? ==> t == over.data.card.quadrant
    ensures over.id != Sidebar && over.data.OtherData? ==> t == None
  {
    var target :=
      match over.data
      case QuadrantZone(key) => Some(key)
      case CardData(card) => card.quadrant
      case OtherData => None;
    if over.id == Sidebar then None else target
  }

  /** What `handleDragEnd` dispatches. */
  function DragEndActions(active: Active, over: Option<Over>): (out: seq<Action>)
    ensures over.None? || active.assumption.None? ==> out == []
    ensures |out| <= 1
    ensures |out| == 1 <==>
      over.Some? && active.assumption.Some? && DropTarget(over.value) != active.assumption.value.quadrant
    ensures |out| == 1 ==> out[0] == UpdateAssumption(active.id, QuadrantPatch(DropTarget(over.value)))
  {
    if over.None? || active.assumption.None? then []
    else
      var target := DropTarget(over.value);
      if target != active.assumption.value.quadrant then [UpdateAssumption(active.id, QuadrantPatch(target))]
      else []
  }

  /** Once a move has been written back, dropping the moved card in the same
      place again writes nothing. */
  lemma DropIsStable(active: Active, over: Option<Over>)
    requires |DragEndActions(active, over)| == 1
    ensures var moved := Merge(active.assumption.value, DragEndActions(active, over)[0].updates);
      moved.quadrant == DropTarget(over.value)
      && DragEndActions(active.(assumption := Some(moved)), over) == []
  {
    MergeIdempotent(active.assumption.value, NoChange, DropTarget(over.value), "");
  }

  // ---------------------------------------------------------------------
  // Tap to select, tap to assign

  /** `setSelectedCardId(prev => prev === id ? null : id)` */
  function Toggled(selected: Option<string>, id: string): (r: Option<string>)
    ensures selected == Some(id) ==> r == None
    ensures selected != Some(id) ==> r == Some(id)
  {
    if selected == Some(id) then None else Some(id)
  }

  /** Selecting a card twice from no selection ends with no selection;
      selecting another card replaces the selection. */
  lemma ToggleTwice(selected: Option<string>, id: string, other: string)
    requires selected == None || selected == Some(id)
    ensures Toggled(Toggled(selected, id), id) == selected
    ensures other != id ==> Toggled(Some(other), id) == Some(id)
  {
  }

  /** What `handleQuadrantTap` dispatches: nothing without a selection, and
      otherwise a move of the selected card, even into its own quadrant. */
  function TapActions(selected: Option<string>, quadrantKey: string): (out: seq<Action>)
    ensures !TruthyOpt(selected) ==> out == []
    ensures TruthyOpt(selected) ==> out == [UpdateAssumption(selected.value, QuadrantPatch(Some(quadrantKey)))]
  {
    if !TruthyOpt(selected) then [] else [UpdateAssumption(selected.value, QuadrantPatch(Some(quadrantKey)))]
  }

  // ---------------------------------------------------------------------
  // Partition and counts

  /** `assumptions.filter(a => a.quadrant == null)` */
  function Unmapped(l: seq<Assumption>): (r: seq<Assumption>)
    ensures |r| <= |l|
    ensures forall a :: a in r <==> a in l && a.quadrant.None?
  {
    if |l| == 0 then []
    else if l[0].quadrant.None? then [l[0]] + Unmapped(l[1..])
    else Unmapped(l[1..])
  }

  /** `assumptions.filter(a => a.quadrant === key)` */
  function InQuadrant(l: seq<Assumption>, key: string): (r: seq<Assumption>)
    ensures |r| <= |l|
    ensures forall a :: a in r <==> a in l && a.quadrant == Some(key)
  {
    if |l| == 0 then []
    else if l[0].quadrant == Some(key) then [l[0]] + InQuadrant(l[1..], key)
    else InQuadrant(l[1..], key)
  }

  /** `assumptions.filter(a => a.quadrant != null).length` */
  function MappedCount(l: seq<Assumption>): nat
  {
    if |l| == 0 then 0
    else (if l[0].quadrant.Some? then 1 else 0) + MappedCount(l[1..])
  }

  /** Every assumption is either in the sidebar or counted as mapped. */
  lemma {:induction false} MappedPlusUnmapped(l: seq<Assumption>)
    ensures MappedCount(l) + |Unmapped(l)| == |l|
  {
    if |l| > 0 {
      MappedPlusUnmapped(l[1..]);
    }
  }

  predicate KnownQuadrants(l: seq<Assumption>)
  {
    forall i :: 0 <= i < |l| ==> l[i].quadrant.None? || l[i].quadrant.value in QuadrantOrder
  }

  /** When every quadrant is one of the four keys, the sidebar and the four
      quadrants together hold every assumption exactly once. */
  lemma {:induction false} PartitionCounts(l: seq<Assumption>)
    requires KnownQuadrants(l)
    ensures |Unmapped(l)| + |InQuadrant(l, "clueless")| + |InQuadrant(l, "validated")|
      + |InQuadrant(l, "nice-to-know")| + |InQuadrant(l, "known")| == |l|
  {
    if |l| > 0 {
      assert KnownQuadrants(l[1..]) by {
        forall i | 0 <= i < |l[1..]|
          ensures l[1..][i].quadrant.None? || l[1..][i].quadrant.value in QuadrantOrder
        {
          assert l[1..][i] == l[i + 1];
        }
      }
      PartitionCounts(l[1..]);
      assert l[0].quadrant.None? || l[0].quadrant.value in QuadrantOrder;
    }
  }

  /** `mappedByQuadrant`: one list per key of QUADRANT_ORDER, built by a loop
      over the keys. */
  method MappedByQuadrant(l: seq<Assumption>) returns (m: map<string, seq<Assumption>>)
    ensures forall k :: k in m <==> k in QuadrantOrder
    ensures forall k :: k in m ==> m[k] == InQuadrant(l, k)
  {
    m := map[];
    for i := 0 to |QuadrantOrder|
      invariant forall k :: k in m <==> k in QuadrantOrder[..i]
      invariant forall k :: k in m ==> m[k] == InQuadrant(l, k)
    {
      m := m[QuadrantOrder[i] := InQuadrant(l, QuadrantOrder[i])];
    }
  }

  /** `canProceed`: at least one assumption in the clueless quadrant. */
  function CanProceed(l: seq<Assumption>): bool
  {
    |InQuadrant(l, "clueless")| >= 1
  }

  lemma CanProceedIff(l: seq<Assumption>)
    ensures CanProceed(l) <==> exists i :: 0 <= i < |l| && l[i].quadrant == Some("clueless")
  {
    var c := InQuadrant(l, "clueless");
    if |c| >= 1 {
      assert c[0] in c;
      var i :| 0 <= i < |l| && l[i] == c[0];
    } else {
      forall i | 0 <= i < |l| ensures l[i].quadrant != Some("clueless") {
        assert l[i] in l;
        assert l[i] !in c;
      }
    }
  }

  // ---------------------------------------------------------------------
  // The screen's handlers

  /** The screen's own state: the card being dragged and the card selected
      by a tap. */
  class MatrixBoard {
    var activeId: Option<string>
    var selectedCardId: Option<string>

    constructor ()
      ensures activeId == None && selectedCardId == None
    {
      activeId := None;
      selectedCardId := None;
    }

    /** A drag starts: remember the card and drop any tap selection. */
    method HandleDragStart(id: string)
      modifies this
      ensures activeId == Some(id) && selectedCardId == None
    {
      activeId := Some(id);
      selectedCardId := None;
    }

    method HandleDragEnd(active: Active, over: Option<Over>) returns (out: seq<Action>)
      modifies this
      ensures activeId == None && selectedCardId == old(selectedCardId)
      ensures out == DragEndActions(active, over)
    {
      activeId := None;
      out := [];
      if over.None? {
        return;
      }
      if active.assumption.None? {
        return;
      }
      var target: Option<string> := None;
      match over.value.data {
        case QuadrantZone(key) => target := Some(key);
        case CardData(card) => target := card.quadrant;
        case OtherData =>
      }
      if over.value.id == Sidebar {
        target := None;
      }
      if target != active.assumption.value.quadrant {
        out := [UpdateAssumption(active.id, QuadrantPatch(target))];
      }
    }

    method HandleDragCancel()
      modifies this
      ensures activeId == None && selectedCardId == old(selectedCardId)
    {
      activeId := None;
    }

    /** The unmap button: move the card back to the sidebar. */
    method HandleUnmap(id: string) returns (out: seq<Action>)
      modifies this
      ensures out == [UpdateAssumption(id, QuadrantPatch(None))]
      ensures selectedCardId == None && activeId == old(activeId)
    {
      out := [UpdateAssumption(id, QuadrantPatch(None))];
      selectedCardId := None;
    }

    method HandleSelectCard(id: string)
      modifies this
      ensures selectedCardId == Toggled(old(selectedCardId), id) && activeId == old(activeId)
    {
      if selectedCardId == Some(id) {
        selectedCardId := None;
      } else {
        selectedCardId := Some(id);
      }
    }

    /** A tap on a quadrant moves the selected card there and clears the
        selection; without a selection it does nothing. */
    method HandleQuadrantTap(quadrantKey: string) returns (out: seq<Action>)
      modifies this
      ensures out == TapActions(old(selectedCardId), quadrantKey)
      ensures selectedCardId == (if TruthyOpt(old(selectedCardId)) then None else old(selectedCardId))
      ensures activeId == old(activeId)
    {
      if !TruthyOpt(selectedCardId) {
        out := [];
        return;
      }
      out := [UpdateAssumption(selectedCardId.value, QuadrantPatch(Some(quadrantKey)))];
      selectedCardId := None;
    }
  }
}
