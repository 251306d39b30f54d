/** The field inline widget: a component whose only state is the name of the
    chosen field, `'empty'` until one is picked. While nothing is chosen it
    renders a chooser; afterwards it renders the chosen name as a `#name`
    token. The same component is also declared inside the rich-text example
    itself, and that copy is the one the editor renders. Nothing attaches
    `handleChange` to the chooser, so the model calls it directly. */
module Field {
  import opened Commands

  /** The placeholder value meaning "no field chosen yet". */
  const Empty: string := "empty"

  /** One entry of the chooser. */
  datatype FieldOption = FieldOption(value: string, caption: string)

  /** The chooser's entries, placeholder first. */
  const ChooserOptions: seq<FieldOption> := [
    FieldOption("empty", "-- select a field --"),
    FieldOption("field1", "field1"),
    FieldOption("field2", "field2"),
    FieldOption("field3", "field3"),
    FieldOption("field4", "field4")
  ]

  /** What `render` shows. */
  datatype FieldView = Chooser(options: seq<FieldOption>) | Token(text: string)

  /** The selection `handleChange(option)` leaves when it was `s`: a real
      option replaces it, the placeholder is ignored. */
  function AfterChange(s: string, option: string): (s': string)
    ensures s' == s || s' == option
    ensures s' == Empty <==> s == Empty && option == Empty
    ensures option != Empty ==> s' == option
  {
    if option != Empty then option else s
  }

  /** The selection after `handleChange` is called with each option in turn. */
  function AfterChanges(s: string, options: seq<string>): string
    decreases |options|
  {
    if options == [] then s else AfterChanges(AfterChange(s, options[0]), options[1..])
  }

  /** Picking only the placeholder leaves the selection as it was. */
  lemma {:induction false} PlaceholdersKeepSelection(s: string, options: seq<string>)
    requires forall k :: 0 <= k < |options| ==> options[k] == Empty
    ensures AfterChanges(s, options) == s
    decreases |options|
  {
    if options != [] {
      PlaceholdersKeepSelection(s, options[1..]);
    }
  }

  /** The last real option picked is the selection, whatever came before. */
  lemma {:induction false} LastPickWins(s: string, options: seq<string>, i: nat)
    requires i < |options| && options[i] != Empty
    requires forall k :: i < k < |options| ==> options[k] == Empty
    ensures AfterChanges(s, options) == options[i]
    decreases |options|
  {
    if i == 0 {
      PlaceholdersKeepSelection(options[0], options[1..]);
    } else {
      LastPickWins(AfterChange(s, options[0]), options[1..], i - 1);
    }
  }

  /** Once a field is chosen, no sequence of changes brings back the chooser:
      the only state write stores a real option. */
  lemma {:induction false} ChoiceIsPermanent(s: string, options: seq<string>)
    requires s != Empty
    ensures AfterChanges(s, options) != Empty
    decreases |options|
  {
    if options != [] {
      ChoiceIsPermanent(AfterChange(s, options[0]), options[1..]);
    }
  }

  /** The field component and its `selection` state. */
  class FieldComponent {
    var selection: string

    /** A new field has chosen nothing yet. */
    constructor ()
      ensures selection == Empty
    {
      selection := Empty;
    }

    /** `handleChange(selectedOption)`: store a real option; ignore the placeholder. */
    method HandleChange(selectedOption: string)
      modifies this
      ensures selection == AfterChange(old(selection), selectedOption)
      ensures selectedOption == Empty ==> selection == old(selection)
      ensures selectedOption != Empty ==> selection == selectedOption
    {
      if selectedOption != Empty {
        selection := selectedOption;
      }
    }

    /** `handleChange` called with each option in turn: the selection ends as
        the fold of the single-change transition over the options. */
    method HandleChanges(options: seq<string>)
      modifies this
      ensures selection == AfterChanges(old(selection), options)
    {
      ghost var s0 := selection;
      var i := 0;
      while i < |options|
        invariant 0 <= i <= |options|
        invariant AfterChanges(s0, options) == AfterChanges(selection, options[i..])
      {
        assert options[i..][1..] == options[i + 1..];
        HandleChange(options[i]);
        i := i + 1;
      }
    }

    /** `render`: the chooser while nothing is chosen, else the `#name` token.
        The token never shows the placeholder. */
    function Render(): (view: FieldView)
      reads this
      ensures view.Chooser? <==> selection == Empty
      ensures view.Chooser? ==> view.options == ChooserOptions
      ensures view.Token? ==> view.text == "#" + selection && view.text != "#" + Empty
    {
      if selection == Empty then Chooser(ChooserOptions)
      else
        assert ("#" + selection)[1..] == selection;
        Token("#" + selection)
    }
  }

  /** The chooser offers five options: the placeholder first, then `field1`
      to `field4` in order, each captioned with its own name. */
  lemma ChooserOffersFourFields()
    ensures |ChooserOptions| == 5
    ensures ChooserOptions[0].value == Empty
    ensures forall k :: 1 <= k < 5 ==>
      ChooserOptions[k].value == "field" + [(k as char) + '0'] && ChooserOptions[k].caption == ChooserOptions[k].value
  {
  }

  /** A fresh field, given the placeholder, still shows the chooser; given
      `field2`, it shows `#field2`; a later placeholder does not undo that. */
  method PickField2() returns (initial: FieldView, afterPlaceholder: FieldView, afterPick: FieldView, afterAgain: FieldView)
    ensures initial == afterPlaceholder == Chooser(ChooserOptions)
    ensures afterPick == afterAgain == Token("#field2")
  {
    var f := new FieldComponent();
    initial := f.Render();
    f.HandleChange(Empty);
    afterPlaceholder := f.Render();
    f.HandleChange("field2");
    afterPick := f.Render();
    f.HandleChange(Empty);
    afterAgain := f.Render();
  }

  /** The static `onInsertField` of the component: insert a field inline with
      no data, move past it, focus. */
  function OnInsertFieldStatic(): (plan: seq<Command>)
    ensures plan == [InsertInline("field", map[]), MoveToStartOfNextText, Focus]
  {
    InsertVoidPlan("field", map[])
  }
}
