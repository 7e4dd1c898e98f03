/** The application state and its reducer (src/state/reducer.js). Every arm
    of the reducer is a pure function of the old state and the action, except
    that `ADD_ASSUMPTION` reads and increments the module-level id counter and
    reads the clock: `Transition` takes the counter value and the time as
    arguments, and the class `Reducer` owns the counter. */
module StateReducer {
  import opened Domain
  import opened Strings

  /** The aggregate root. `currentScreen` is an unbounded integer because
      `SET_SCREEN` stores its argument as it is. */
  datatype AppState = AppState(
    currentScreen: int,
    venture: Venture,
    assumptions: seq<Assumption>,
    activeRing: Ring,
    helpPanelOpen: bool)

  /** The venture attributes the framing screen writes. */
  datatype VentureField = Name | Description | Stage

  datatype Action =
    | SetScreen(screen: int)
    | NextScreen
    | PrevScreen
    | SetVentureField(field: VentureField, value: string)
    | SetActiveRing(ring: Ring)
    | AddAssumption(text: string, ring: Ring)
    | UpdateAssumption(id: string, updates: Patch)
    | DeleteAssumption(id: string)
    | ToggleHelpPanel
    | CloseHelpPanel
    | Unknown(kind: string)

  const LastScreen: int := 4

  const InitialState: AppState :=
    AppState(0, Venture("", "", None), [], Opportunity, false)

  /** The counter's value when the module is loaded. */
  const FirstId: nat := 1

  function SetField(v: Venture, field: VentureField, value: string): (r: Venture)
    ensures field == Name ==> r == v.(name := value)
    ensures field == Description ==> r == v.(description := value)
    ensures field == Stage ==> r == v.(stage := Some(value))
  {
    match field
    case Name => v.(name := value)
    case Description => v.(description := value)
    case Stage => v.(stage := Some(value))
  }

  /** The record `ADD_ASSUMPTION` appends, for counter value `n`. */
  function NewAssumption(n: nat, text: string, ring: Ring, now: int): Assumption
  {
    Assumption(Decimal(n), text, ring, None, None, None, "focused", now)
  }

  /** `assumptions.map(a => a.id === id ? { ...a, ...updates } : a)` */
  function UpdateWhere(l: seq<Assumption>, id: string, p: Patch): (r: seq<Assumption>)
    ensures |r| == |l|
    ensures forall i :: 0 <= i < |l| ==> r[i] == if l[i].id == id then Merge(l[i], p) else l[i]
  {
    if |l| == 0 then []
    else [if l[0].id == id then Merge(l[0], p) else l[0]] + UpdateWhere(l[1..], id, p)
  }

  /** `assumptions.filter(a => a.id !== id)` */
  function Without(l: seq<Assumption>, id: string): (r: seq<Assumption>)
    ensures forall a :: a in r <==> a in l && a.id != id
    ensures |r| <= |l|
  {
    if |l| == 0 then []
    else if l[0].id == id then Without(l[1..], id)
    else [l[0]] + Without(l[1..], id)
  }

  /** The counter after the action. */
  function NextIdAfter(action: Action, nextId: nat): nat
  {
    if action.AddAssumption? then nextId + 1 else nextId
  }

  /** `reducer(state, action)` with the counter at `nextId` and `Date.now()`
      returning `now`. */
  function Transition(s: AppState, action: Action, nextId: nat, now: int): AppState
  {
    match action
    case SetScreen(screen) => s.(currentScreen := screen)
    case NextScreen =>
      s.(currentScreen := if s.currentScreen + 1 < LastScreen then s.currentScreen + 1 else LastScreen)
    case PrevScreen =>
      s.(currentScreen := if s.currentScreen - 1 > 0 then s.currentScreen - 1 else 0)
    case SetVentureField(field, value) => s.(venture := SetField(s.venture, field, value))
    case SetActiveRing(ring) => s.(activeRing := ring)
    case AddAssumption(text, ring) =>
      s.(assumptions := s.assumptions + [NewAssumption(nextId, text, ring, now)])
    case UpdateAssumption(id, updates) => s.(assumptions := UpdateWhere(s.assumptions, id, updates))
    case DeleteAssumption(id) => s.(assumptions := Without(s.assumptions, id))
    case ToggleHelpPanel => s.(helpPanelOpen := !s.helpPanelOpen)
    case CloseHelpPanel => s.(helpPanelOpen := false)
    case Unknown(_) => s
  }

  // ---------------------------------------------------------------------
  // Screen moves

  /** `NEXT_SCREEN` yields `min(screen + 1, 4)`, and changes nothing else. */
  lemma NextScreenClamps(s: AppState, n: nat, now: int)
    ensures var r := Transition(s, NextScreen, n, now);
      && r.currentScreen <= LastScreen
      && (s.currentScreen < LastScreen ==> r.currentScreen == s.currentScreen + 1)
      && (s.currentScreen >= LastScreen ==> r.currentScreen == LastScreen)
      && r.(currentScreen := s.currentScreen) == s
  {
  }

  /** `PREV_SCREEN` yields `max(screen - 1, 0)`, and changes nothing else. */
  lemma PrevScreenClamps(s: AppState, n: nat, now: int)
    ensures var r := Transition(s, PrevScreen, n, now);
      && r.currentScreen >= 0
      && (s.currentScreen > 0 ==> r.currentScreen == s.currentScreen - 1)
      && (s.currentScreen <= 0 ==> r.currentScreen == 0)
      && r.(currentScreen := s.currentScreen) == s
  {
  }

  predicate ScreenInRange(s: AppState)
  {
    0 <= s.currentScreen <= LastScreen
  }

  /** The screen stays in [0, 4] under every action except a `SET_SCREEN`
      whose argument is outside it, which is stored unclamped. */
  lemma ScreenStaysInRange(s: AppState, action: Action, n: nat, now: int)
    ensures var r := Transition(s, action, n, now);
      && (ScreenInRange(s) && !(action.SetScreen? && !(0 <= action.screen <= LastScreen)) ==> ScreenInRange(r))
      && (action.SetScreen? ==> r.currentScreen == action.screen)
  {
  }

  // ---------------------------------------------------------------------
  // Venture, ring and help flag

  /** `SET_VENTURE_FIELD` overwrites one venture attribute and nothing else. */
  lemma SetVentureFieldOverwritesOne(s: AppState, field: VentureField, value: string, n: nat, now: int)
    ensures var r := Transition(s, SetVentureField(field, value), n, now);
      && r.(venture := s.venture) == s
      && (field == Name ==> r.venture.name == value && r.venture.(name := s.venture.name) == s.venture)
      && (field == Description ==> r.venture.description == value && r.venture.(description := s.venture.description) == s.venture)
      && (field == Stage ==> r.venture.stage == Some(value) && r.venture.(stage := s.venture.stage) == s.venture)
  {
  }

  /** `SET_ACTIVE_RING` selects the ring and changes nothing else. */
  lemma SetActiveRingOverwritesOne(s: AppState, ring: Ring, n: nat, now: int)
    ensures var r := Transition(s, SetActiveRing(ring), n, now);
      r.activeRing == ring && r.(activeRing := s.activeRing) == s
  {
  }

  /** Toggling the help panel twice restores it, closing it is idempotent, and
      an unknown action leaves the state as it was. */
  lemma HelpPanelAndUnknown(s: AppState, n: nat, now: int, kind: string)
    ensures Transition(Transition(s, ToggleHelpPanel, n, now), ToggleHelpPanel, n, now) == s
    ensures Transition(s, ToggleHelpPanel, n, now).helpPanelOpen == !s.helpPanelOpen
    ensures var c := Transition(s, CloseHelpPanel, n, now);
      !c.helpPanelOpen && Transition(c, CloseHelpPanel, n, now) == c && c.(helpPanelOpen := s.helpPanelOpen) == s
    ensures Transition(s, Unknown(kind), n, now) == s
  {
  }

  // ---------------------------------------------------------------------
  // The assumption list

  /** `ADD_ASSUMPTION` appends exactly one record at the end, with the id
      `String(n)`, the text and ring of the action, no quadrant, position or
      approach, the `'focused'` style and the time of the call. */
  lemma AddAppendsOne(s: AppState, text: string, ring: Ring, n: nat, now: int)
    ensures var r := Transition(s, AddAssumption(text, ring), n, now);
      && |r.assumptions| == |s.assumptions| + 1
      && r.assumptions[..|s.assumptions|] == s.assumptions
      && r.assumptions[|s.assumptions|] ==
         Assumption(Decimal(n), text, ring, None, None, None, "focused", now)
      && r.(assumptions := s.assumptions) == s
  {
    var r := Transition(s, AddAssumption(text, ring), n, now);
    assert r.assumptions[..|s.assumptions|] == s.assumptions;
  }

  /** `UPDATE_ASSUMPTION` keeps the length and order, merges the updates into
      the records with that id only, and with an unknown id leaves the state
      as it was. */
  lemma UpdateMergesMatching(s: AppState, id: string, p: Patch, n: nat, now: int)
    ensures var r := Transition(s, UpdateAssumption(id, p), n, now);
      && |r.assumptions| == |s.assumptions|
      && (forall i :: 0 <= i < |s.assumptions| && s.assumptions[i].id != id ==> r.assumptions[i] == s.assumptions[i])
      && (forall i :: 0 <= i < |s.assumptions| && s.assumptions[i].id == id ==> r.assumptions[i] == Merge(s.assumptions[i], p))
      && r.(assumptions := s.assumptions) == s
  {
  }

  /** An update addressed to an id that is not in the list is a no-op. */
  lemma {:induction false} UpdateUnknownIdIsNoOp(l: seq<Assumption>, id: string, p: Patch)
    requires forall i :: 0 <= i < |l| ==> l[i].id != id
    ensures UpdateWhere(l, id, p) == l
  {
    if |l| > 0 {
      UpdateUnknownIdIsNoOp(l[1..], id, p);
      assert l == [l[0]] + l[1..];
    }
  }

  /** Filtering distributes over concatenation, so `DELETE_ASSUMPTION` keeps
      the survivors in their original order. */
  lemma {:induction false} WithoutConcat(a: seq<Assumption>, b: seq<Assumption>, id: string)
    ensures Without(a + b, id) == Without(a, id) + Without(b, id)
  {
    if |a| == 0 {
      assert a + b == b;
    } else {
      assert (a + b)[0] == a[0];
      assert (a + b)[1..] == a[1..] + b;
      WithoutConcat(a[1..], b, id);
    }
  }

  /** Deleting an absent id returns the list as it was. */
  lemma {:induction false} WithoutAbsent(l: seq<Assumption>, id: string)
    requires forall i :: 0 <= i < |l| ==> l[i].id != id
    ensures Without(l, id) == l
  {
    if |l| > 0 {
      WithoutAbsent(l[1..], id);
      assert l == [l[0]] + l[1..];
    }
  }

  /** `DELETE_ASSUMPTION` leaves no record with that id, keeps every other
      record, and changes nothing else in the state. */
  lemma DeleteRemovesId(s: AppState, id: string, n: nat, now: int)
    ensures var r := Transition(s, DeleteAssumption(id), n, now);
      && (forall a :: a in r.assumptions <==> a in s.assumptions && a.id != id)
      && ((forall i :: 0 <= i < |s.assumptions| ==> s.assumptions[i].id != id) ==> r == s)
      && r.(assumptions := s.assumptions) == s
  {
    if forall i :: 0 <= i < |s.assumptions| ==> s.assumptions[i].id != id {
      WithoutAbsent(s.assumptions, id);
    }
  }

  // ---------------------------------------------------------------------
  // Ids

  /** `id` is the numeral of a counter value below `n`. */
  predicate IssuedBelow(id: string, n: nat)
  {
    id == Decimal(ParseDecimal(id)) && ParseDecimal(id) < n
  }

  /** All ids are issued by the counter before it reached `n`, and distinct. */
  predicate IdsWf(l: seq<Assumption>, n: nat)
  {
    && (forall i :: 0 <= i < |l| ==> IssuedBelow(l[i].id, n))
    && (forall i, j :: 0 <= i < j < |l| ==> l[i].id != l[j].id)
  }

  /** The id an `ADD_ASSUMPTION` issues differs from every id issued before. */
  lemma FreshIdIsNew(l: seq<Assumption>, n: nat)
    requires forall i :: 0 <= i < |l| ==> IssuedBelow(l[i].id, n)
    ensures forall i :: 0 <= i < |l| ==> l[i].id != Decimal(n)
  {
    ParseDecimalOfDecimal(n);
  }

  lemma {:induction false} WithoutKeepsIdsWf(l: seq<Assumption>, id: string, n: nat)
    requires IdsWf(l, n)
    ensures IdsWf(Without(l, id), n)
  {
    if |l| > 0 {
      assert IdsWf(l[1..], n);
      WithoutKeepsIdsWf(l[1..], id, n);
      if l[0].id != id {
        var w := Without(l[1..], id);
        var r := [l[0]] + w;
        forall j | 0 < j < |r| ensures l[0].id != r[j].id {
          assert r[j] in l[1..];
        }
      }
    }
  }

  /** A patch that writes `id` is the one way to break id uniqueness. */
  predicate RewritesId(action: Action)
  {
    action.UpdateAssumption? && action.updates.id.Some?
  }

  /** Appending the record with the counter's id keeps the ids distinct and
      issued, now below the next counter value. */
  lemma AddKeepsIdsWf(l: seq<Assumption>, a: Assumption, n: nat)
    requires IdsWf(l, n)
    requires a.id == Decimal(n)
    ensures IdsWf(l + [a], n + 1)
  {
    FreshIdIsNew(l, n);
    ParseDecimalOfDecimal(n);
    var r := l + [a];
    forall i | 0 <= i < |r| ensures IssuedBelow(r[i].id, n + 1) {
      if i < |l| {
        assert r[i] == l[i];
      }
    }
    forall i, j | 0 <= i < j < |r| ensures r[i].id != r[j].id {
      assert r[i] == l[i];
      if j < |l| {
        assert r[j] == l[j];
      }
    }
  }

  /** An update that does not write an id keeps every record's id. */
  lemma UpdateKeepsIdsWf(l: seq<Assumption>, id: string, p: Patch, n: nat)
    requires IdsWf(l, n)
    requires p.id.None?
    ensures IdsWf(UpdateWhere(l, id, p), n)
  {
    var r := UpdateWhere(l, id, p);
    assert forall i :: 0 <= i < |l| ==> r[i].id == l[i].id;
  }

  /** Every transition keeps the ids issued below the counter and distinct,
      deletes included, unless an update rewrites an id. */
  lemma TransitionKeepsIdsWf(s: AppState, action: Action, n: nat, now: int)
    requires IdsWf(s.assumptions, n)
    requires !RewritesId(action)
    ensures IdsWf(Transition(s, action, n, now).assumptions, NextIdAfter(action, n))
  {
    match action
    case AddAssumption(text, ring) =>
      AddKeepsIdsWf(s.assumptions, NewAssumption(n, text, ring, now), n);
    case UpdateAssumption(id, updates) =>
      UpdateKeepsIdsWf(s.assumptions, id, updates, n);
    case DeleteAssumption(id) =>
      WithoutKeepsIdsWf(s.assumptions, id, n);
    case _ =>
  }

  /** A session: the actions applied in order, each with its clock reading. */
  datatype Session = Session(state: AppState, nextId: nat)

  function Run(s: Session, actions: seq<Action>, clock: seq<int>): Session
    requires |clock| == |actions|
    decreases |actions|
  {
    if |actions| == 0 then s
    else Run(Session(Transition(s.state, actions[0], s.nextId, clock[0]), NextIdAfter(actions[0], s.nextId)),
             actions[1..], clock[1..])
  }

  /** For every sequence of actions from the initial state, no update of
      which rewrites an id, all ids in the list are distinct and below the
      counter, however adds and deletes interleave; the counter never goes
      down, so no id is issued twice. */
  lemma {:induction false} RunKeepsIdsWf(s: Session, actions: seq<Action>, clock: seq<int>)
    requires |clock| == |actions|
    requires IdsWf(s.state.assumptions, s.nextId)
    requires forall k :: 0 <= k < |actions| ==> !RewritesId(actions[k])
    ensures IdsWf(Run(s, actions, clock).state.assumptions, Run(s, actions, clock).nextId)
    ensures Run(s, actions, clock).nextId >= s.nextId
    decreases |actions|
  {
    if |actions| > 0 {
      TransitionKeepsIdsWf(s.state, actions[0], s.nextId, clock[0]);
      RunKeepsIdsWf(Session(Transition(s.state, actions[0], s.nextId, clock[0]), NextIdAfter(actions[0], s.nextId)),
                    actions[1..], clock[1..]);
    }
  }

  /** A counter further on keeps the invariant. */
  lemma IdsWfGrows(l: seq<Assumption>, n: nat, m: nat)
    requires IdsWf(l, n) && n <= m
    ensures IdsWf(l, m)
  {
  }

  /** One dispatch in which React runs the reducer `calls` times on the same
      state and action (its development `StrictMode` runs it twice) and keeps
      the result of run number `kept`. Every run of an `ADD_ASSUMPTION`
      advances the module-level counter, so ids may skip values. */
  function Dispatch(s: Session, action: Action, now: int, calls: nat, kept: nat): (r: Session)
    requires kept < calls
    ensures calls == 1 ==> r == Session(Transition(s.state, action, s.nextId, now), NextIdAfter(action, s.nextId))
    ensures r.nextId >= s.nextId
  {
    Session(Transition(s.state, action, s.nextId + kept, now),
            if action.AddAssumption? then s.nextId + calls else s.nextId)
  }

  /** However many times the reducer runs per dispatch, and whichever run is
      kept, the ids stay distinct and below the counter. */
  lemma DispatchKeepsIdsWf(s: Session, action: Action, now: int, calls: nat, kept: nat)
    requires kept < calls
    requires IdsWf(s.state.assumptions, s.nextId)
    requires !RewritesId(action)
    ensures var r := Dispatch(s, action, now, calls, kept);
      IdsWf(r.state.assumptions, r.nextId)
  {
    if action.AddAssumption? {
      IdsWfGrows(s.state.assumptions, s.nextId, s.nextId + kept);
      TransitionKeepsIdsWf(s.state, action, s.nextId + kept, now);
      IdsWfGrows(Transition(s.state, action, s.nextId + kept, now).assumptions,
                 s.nextId + kept + 1, s.nextId + calls);
    } else {
      TransitionKeepsIdsWf(s.state, action, s.nextId, now);
    }
  }

  /** A session in which dispatch `k` runs the reducer `calls[k]` times and
      keeps run `kept[k]`. */
  function RunRepeated(s: Session, actions: seq<Action>, clock: seq<int>, calls: seq<nat>, kept: seq<nat>): Session
    requires |clock| == |actions| && |calls| == |actions| && |kept| == |actions|
    requires forall k :: 0 <= k < |actions| ==> kept[k] < calls[k]
    decreases |actions|
  {
    if |actions| == 0 then s
    else RunRepeated(Dispatch(s, actions[0], clock[0], calls[0], kept[0]),
                     actions[1..], clock[1..], calls[1..], kept[1..])
  }

  /** Under repeated reducer runs as well, no id is ever shared. */
  lemma {:induction false} RunRepeatedKeepsIdsWf(s: Session, actions: seq<Action>, clock: seq<int>, calls: seq<nat>, kept: seq<nat>)
    requires |clock| == |actions| && |calls| == |actions| && |kept| == |actions|
    requires forall k :: 0 <= k < |actions| ==> kept[k] < calls[k]
    requires IdsWf(s.state.assumptions, s.nextId)
    requires forall k :: 0 <= k < |actions| ==> !RewritesId(actions[k])
    ensures var r := RunRepeated(s, actions, clock, calls, kept);
      IdsWf(r.state.assumptions, r.nextId) && r.nextId >= s.nextId
    decreases |actions|
  {
    if |actions| > 0 {
      DispatchKeepsIdsWf(s, actions[0], clock[0], calls[0], kept[0]);
      RunRepeatedKeepsIdsWf(Dispatch(s, actions[0], clock[0], calls[0], kept[0]),
                            actions[1..], clock[1..], calls[1..], kept[1..]);
    }
  }

  /** The initial state is on screen 0 with an empty list. */
  lemma InitialStateWf()
    ensures IdsWf(InitialState.assumptions, FirstId) && ScreenInRange(InitialState)
  {
  }

  /** The module-level counter together with the reducer that reads and
      advances it. */
  class Reducer {
    var nextId: nat

    /** The counter starts at 1 when the module loads. */
    constructor ()
      ensures nextId == FirstId
    {
      nextId := FirstId;
    }

    /** `reducer(state, action)`: the new state, with `ADD_ASSUMPTION` taking
        the counter's value as the new id and advancing it by one. */
    method Reduce(state: AppState, action: Action, now: int) returns (r: AppState)
      modifies this
      ensures r == Transition(state, action, old(nextId), now)
      ensures nextId == NextIdAfter(action, old(nextId))
      ensures IdsWf(state.assumptions, old(nextId)) && !RewritesId(action) ==> IdsWf(r.assumptions, nextId)
    {
      if IdsWf(state.assumptions, nextId) && !RewritesId(action) {
        TransitionKeepsIdsWf(state, action, nextId, now);
      }
      match action {
        case AddAssumption(text, ring) =>
          var id := nextId;
          nextId := nextId + 1;
          r := state.(assumptions := state.assumptions + [NewAssumption(id, text, ring, now)]);
        case _ =>
          r := Transition(state, action, nextId, now);
      }
    }
  }
}
