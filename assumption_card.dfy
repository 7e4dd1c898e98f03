/** The edit mode of an assumption card (src/components/AssumptionCard.jsx).
    A card is either displayed or being edited; while editing it holds the
    text typed so far. Escape cancels, and because the input loses focus
    right after, a flag set by the cancel makes the next blur do nothing
    instead of saving. The handlers' effect on the card is stated by the
    functions on `Editor`; the class `CardEditor` holds the same three fields
    and updates them in place. */
module AssumptionCard {
  import opened Domain
  import opened Strings
  import opened StateReducer

  /** `isEditing`, `editText` and `cancellingRef.current`. */
  datatype Editor = Editor(isEditing: bool, editText: string, cancelling: bool)

  /** The card's new fields and the actions it dispatched. */
  datatype Outcome = Outcome(editor: Editor, dispatched: seq<Action>)

  /** The state a card is mounted in. */
  function Mounted(a: Assumption): Editor
  {
    Editor(false, a.text, false)
  }

  /** What `handleSave` dispatches for the text typed so far: one update
      carrying the trimmed text, when that is non-empty and differs from the
      stored text; nothing otherwise. */
  function SaveActions(editText: string, a: Assumption): (out: seq<Action>)
    ensures |out| <= 1
    ensures |out| == 1 <==> Trim(editText) != "" && Trim(editText) != a.text
    ensures |out| == 1 ==> out[0] == UpdateAssumption(a.id, TextPatch(Trim(editText)))
  {
    var trimmed := Trim(editText);
    if Truthy(trimmed) && trimmed != a.text then [UpdateAssumption(a.id, TextPatch(trimmed))] else []
  }

  /** `handleSave`: dispatch as above and leave editing mode. */
  function Save(e: Editor, a: Assumption): Outcome
  {
    Outcome(e.(isEditing := false), SaveActions(e.editText, a))
  }

  /** `handleCancel`: set the flag, restore the stored text, leave editing. */
  function Cancel(e: Editor, a: Assumption): Outcome
  {
    Outcome(Editor(false, a.text, true), [])
  }

  /** `handleBlur`: a pending cancel swallows the blur and clears the flag;
      otherwise the blur saves. */
  function Blur(e: Editor, a: Assumption): Outcome
  {
    if e.cancelling then Outcome(e.(cancelling := false), []) else Save(e, a)
  }

  /** `handleKeyDown`: Enter saves, Escape cancels. */
  function KeyDown(e: Editor, a: Assumption, key: string): Outcome
  {
    if key == "Enter" then Save(e, a)
    else if key == "Escape" then Cancel(e, a)
    else Outcome(e, [])
  }

  /** `handleDelete`. */
  function Delete(e: Editor, a: Assumption): Outcome
  {
    Outcome(e, [DeleteAssumption(a.id)])
  }

  /** The edit button: restore the stored text and enter editing. */
  function StartEdit(e: Editor, a: Assumption): Outcome
  {
    Outcome(e.(editText := a.text, isEditing := true), [])
  }

  /** The input's `onChange`. */
  function Change(e: Editor, value: string): Outcome
  {
    Outcome(e.(editText := value), [])
  }

  /** What the user does to a card. */
  datatype Event = EditClick | Typed(value: string) | FocusLost | Key(key: string) | DeleteClick

  function Handle(e: Editor, a: Assumption, ev: Event): Outcome
  {
    match ev
    case EditClick => StartEdit(e, a)
    case Typed(value) => Change(e, value)
    case FocusLost => Blur(e, a)
    case Key(key) => KeyDown(e, a, key)
    case DeleteClick => Delete(e, a)
  }

  /** A series of events on a card whose stored assumption does not change
      in between; the dispatched actions are collected in order. */
  function Run(e: Editor, a: Assumption, events: seq<Event>): Outcome
    decreases |events|
  {
    if |events| == 0 then Outcome(e, [])
    else
      var first := Handle(e, a, events[0]);
      var rest := Run(first.editor, a, events[1..]);
      Outcome(rest.editor, first.dispatched + rest.dispatched)
  }

  // ---------------------------------------------------------------------
  // Properties

  /** Saving always leaves editing mode and keeps the typed text and the
      flag; the text it dispatches has no white space at either end. */
  lemma SaveLeavesEditing(e: Editor, a: Assumption)
    ensures var o := Save(e, a);
      !o.editor.isEditing && o.editor.editText == e.editText && o.editor.cancelling == e.cancelling
    ensures var o := Save(e, a);
      forall k :: 0 <= k < |o.dispatched| ==>
        var t := o.dispatched[k].updates.text.value;
        t != "" && !IsSpace(t[0]) && !IsSpace(t[|t| - 1])
  {
  }

  /** Once the saved text has been written to the assumption, saving the
      same typed text again dispatches nothing. */
  lemma SaveIsStable(e: Editor, a: Assumption)
    requires |Save(e, a).dispatched| == 1
    ensures var a' := Merge(a, Save(e, a).dispatched[0].updates);
      a'.text == Trim(e.editText) && Save(e, a').dispatched == []
  {
    MergeIdempotent(a, NoChange, None, Trim(e.editText));
  }

  /** Cancel restores the stored text, leaves editing, raises the flag and
      dispatches nothing. */
  lemma CancelRestores(e: Editor, a: Assumption)
    ensures Cancel(e, a) == Outcome(Editor(false, a.text, true), [])
    ensures KeyDown(e, a, "Escape") == Cancel(e, a)
  {
  }

  /** Escape followed by the blur it causes: nothing is saved, the flag is
      cleared again and the card shows the stored text. */
  lemma CancelThenBlur(e: Editor, a: Assumption)
    ensures Run(e, a, [Key("Escape"), FocusLost]) == Outcome(Editor(false, a.text, false), [])
  {
    var cancelled := Editor(false, a.text, true);
    assert Handle(e, a, Key("Escape")) == Outcome(cancelled, []);
    assert Handle(cancelled, a, FocusLost) == Outcome(Editor(false, a.text, false), []);
    assert [Key("Escape"), FocusLost][1..] == [FocusLost];
    assert [FocusLost][1..] == [];
    assert Run(cancelled, a, [FocusLost]) == Outcome(Editor(false, a.text, false), []);
  }

  /** A blur without a pending cancel is a save; with one it never
      dispatches. */
  lemma BlurSavesUnlessCancelling(e: Editor, a: Assumption)
    ensures !e.cancelling ==> Blur(e, a) == Save(e, a)
    ensures e.cancelling ==> Blur(e, a).dispatched == [] && !Blur(e, a).editor.cancelling
  {
  }

  /** Enter saves, any key other than Enter and Escape changes nothing. */
  lemma KeysOtherThanEnterAndEscape(e: Editor, a: Assumption, key: string)
    ensures KeyDown(e, a, "Enter") == Save(e, a)
    ensures key != "Enter" && key != "Escape" ==> KeyDown(e, a, key) == Outcome(e, [])
  {
  }

  /** Delete dispatches the card's own id and nothing else; entering edit
      mode starts from the stored text. */
  lemma DeleteAndStartEdit(e: Editor, a: Assumption)
    ensures Delete(e, a).dispatched == [DeleteAssumption(a.id)] && Delete(e, a).editor == e
    ensures StartEdit(e, a).editor.isEditing && StartEdit(e, a).editor.editText == a.text
  {
  }

  /** An update of the card's own text, or the deletion of the card. */
  predicate OwnAction(act: Action, a: Assumption)
  {
    act == DeleteAssumption(a.id)
    || (act.UpdateAssumption? && act.id == a.id && act.updates.text.Some?
        && act.updates == TextPatch(act.updates.text.value))
  }

  lemma SaveOwnActions(e: Editor, a: Assumption)
    ensures forall k :: 0 <= k < |Save(e, a).dispatched| ==> OwnAction(Save(e, a).dispatched[k], a)
  {
    var out := Save(e, a).dispatched;
    if |out| == 1 {
      var t := Trim(e.editText);
      assert out[0] == UpdateAssumption(a.id, TextPatch(t));
      assert TextPatch(t).text.value == t;
    }
  }

  lemma HandleOwnActions(e: Editor, a: Assumption, ev: Event)
    ensures forall k :: 0 <= k < |Handle(e, a, ev).dispatched| ==> OwnAction(Handle(e, a, ev).dispatched[k], a)
  {
    match ev
    case FocusLost =>
      if !e.cancelling { SaveOwnActions(e, a); }
    case Key(key) =>
      if key == "Enter" { SaveOwnActions(e, a); }
    case _ =>
  }

  /** Whatever the user does, the only actions a card dispatches are an
      update of its own text and a deletion of itself. */
  lemma {:induction false} OnlyOwnActions(e: Editor, a: Assumption, events: seq<Event>)
    ensures forall k :: 0 <= k < |Run(e, a, events).dispatched| ==> OwnAction(Run(e, a, events).dispatched[k], a)
    decreases |events|
  {
    if |events| > 0 {
      var first := Handle(e, a, events[0]);
      HandleOwnActions(e, a, events[0]);
      OnlyOwnActions(first.editor, a, events[1..]);
      var rest := Run(first.editor, a, events[1..]);
      assert Run(e, a, events).dispatched == first.dispatched + rest.dispatched;
    }
  }

  // ---------------------------------------------------------------------
  // The component

  class CardEditor {
    var isEditing: bool
    var editText: string
    var cancelling: bool

    function State(): Editor
      reads this
    {
      Editor(isEditing, editText, cancelling)
    }

    /** `useState(false)`, `useState(assumption.text)`, `useRef(false)`. */
    constructor (a: Assumption)
      ensures State() == Mounted(a)
    {
      isEditing := false;
      editText := a.text;
      cancelling := false;
    }

    method HandleSave(a: Assumption) returns (out: seq<Action>)
      modifies this
      ensures Outcome(State(), out) == Save(old(State()), a)
    {
      var trimmed := Trim(editText);
      out := [];
      if Truthy(trimmed) && trimmed != a.text {
        out := [UpdateAssumption(a.id, TextPatch(trimmed))];
      }
      isEditing := false;
    }

    method HandleBlur(a: Assumption) returns (out: seq<Action>)
      modifies this
      ensures Outcome(State(), out) == Blur(old(State()), a)
    {
      if cancelling {
        cancelling := false;
        out := [];
        return;
      }
      out := HandleSave(a);
    }

    method HandleCancel(a: Assumption)
      modifies this
      ensures Outcome(State(), []) == Cancel(old(State()), a)
    {
      cancelling := true;
      editText := a.text;
      isEditing := false;
    }

    method HandleKeyDown(a: Assumption, key: string) returns (out: seq<Action>)
      modifies this
      ensures Outcome(State(), out) == KeyDown(old(State()), a, key)
    {
      out := [];
      if key == "Enter" {
        out := HandleSave(a);
      } else if key == "Escape" {
        HandleCancel(a);
      }
    }

    method HandleDelete(a: Assumption) returns (out: seq<Action>)
      ensures Outcome(State(), out) == Delete(State(), a)
    {
      out := [DeleteAssumption(a.id)];
    }

    method HandleEditClick(a: Assumption)
      modifies this
      ensures Outcome(State(), []) == StartEdit(old(State()), a)
    {
      editText := a.text;
      isEditing := true;
    }

    method HandleChange(value: string)
      modifies this
      ensures Outcome(State(), []) == Change(old(State()), value)
    {
      editText := value;
    }
  }
}
