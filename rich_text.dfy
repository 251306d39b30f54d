/** The decision logic of the rich-text example's editor component: which
    toolbar buttons show as active, and which Slate commands a button click or
    a hotkey issues. The editor value is reduced to the facts the handlers
    read from it. */
module RichText {
  import opened Commands

  /** One block of `value.blocks`: its type and the types of its ancestors,
      nearest first. The document root has no type and is not listed, so a
      top-level block has no ancestors. */
  datatype SelectedBlock = SelectedBlock(blockType: TypeName, ancestors: seq<TypeName>)

  /** What the handlers read of the editor value: the blocks the selection
      touches, in document order, and the types of the active marks. */
  datatype EditorValue = EditorValue(blocks: seq<SelectedBlock>, activeMarks: seq<TypeName>)

  /** The failure of a render-time query. */
  datatype RenderError =
    /** `value.blocks.first()` is undefined, so reading its key throws. */
    | NoSelectedBlock

  datatype Result<T> = Ok(value: T) | Err(error: RenderError)

  // ---------------------------------------------------------------------
  // Selection facts, stated declaratively

  /** Some selected block has type `t`. */
  ghost predicate Selects(value: EditorValue, t: TypeName) {
    exists i :: 0 <= i < |value.blocks| && value.blocks[i].blockType == t
  }

  /** Some selected block has an ancestor of type `t`, at any depth. */
  ghost predicate Under(value: EditorValue, t: TypeName) {
    exists i, j :: 0 <= i < |value.blocks| && 0 <= j < |value.blocks[i].ancestors|
      && value.blocks[i].ancestors[j] == t
  }

  /** The block's parent exists and has type `t`. */
  predicate ParentIs(b: SelectedBlock, t: TypeName) {
    |b.ancestors| > 0 && b.ancestors[0] == t
  }

  // ---------------------------------------------------------------------
  // Queries (each `.some(...)` scans its list from the front)

  /** `hasMark(type)`: some active mark has type `t`. */
  function HasMark(marks: seq<TypeName>, t: TypeName): (r: bool)
    ensures r <==> exists i :: 0 <= i < |marks| && marks[i] == t
  {
    if marks == [] then false
    else marks[0] == t || HasMark(marks[1..], t)
  }

  /** `hasBlock(type)`: some selected block has type `t`. */
  function HasBlock(blocks: seq<SelectedBlock>, t: TypeName): (r: bool)
    ensures r <==> exists i :: 0 <= i < |blocks| && blocks[i].blockType == t
  {
    if blocks == [] then false
    else blocks[0].blockType == t || HasBlock(blocks[1..], t)
  }

  /** `!!document.getClosest(block.key, parent => parent.type == type)`:
      the block has an ancestor of type `t`. */
  predicate HasClosest(b: SelectedBlock, t: TypeName) {
    t in b.ancestors
  }

  /** `value.blocks.some(block => !!document.getClosest(...))`: some selected
      block lies, at any depth, inside a node of type `t`. */
  function AnyHasClosest(blocks: seq<SelectedBlock>, t: TypeName): (r: bool)
    ensures r <==> exists i, j ::
      0 <= i < |blocks| && 0 <= j < |blocks[i].ancestors| && blocks[i].ancestors[j] == t
  {
    if blocks == [] then false
    else HasClosest(blocks[0], t) || AnyHasClosest(blocks[1..], t)
  }

  // ---------------------------------------------------------------------
  // Toolbar buttons

  predicate IsListType(t: TypeName) {
    t == BulletedList || t == NumberedList
  }

  /** The list container a list button switches away from. */
  function OtherList(t: TypeName): (o: TypeName)
    ensures IsListType(o)
    ensures IsListType(t) ==> o != t
  {
    if t == BulletedList then NumberedList else BulletedList
  }

  /** The `isActive` flag of `renderBlockButton(type)`. A list button is
      active when a list item is selected and the first selected block's
      parent is a list of that type; reading the first block fails when no
      block is selected. Any other button is active when some selected block
      has its type. */
  function BlockButtonActive(value: EditorValue, t: TypeName): (r: Result<bool>)
    ensures IsListType(t) && value.blocks == [] ==> r == Err(NoSelectedBlock)
    ensures IsListType(t) && value.blocks != [] ==>
      r.Ok? && (r.value <==> Selects(value, ListItem) && ParentIs(value.blocks[0], t))
    ensures !IsListType(t) ==> r.Ok? && (r.value <==> Selects(value, t))
  {
    var isActive := HasBlock(value.blocks, t);
    if IsListType(t) then
      if value.blocks == [] then Err(NoSelectedBlock)
      else Ok(HasBlock(value.blocks, ListItem) && ParentIs(value.blocks[0], t))
    else Ok(isActive)
  }

  /** `onClickMark(type)`: toggle the mark over the selection. */
  function OnClickMark(t: TypeName): (plan: seq<Command>)
    ensures plan == [ToggleMark(t)]
  {
    [ToggleMark(t)]
  }

  /** `onClickBlock(type)`: the commands a block button issues. A non-list
      button sets the blocks to its type, or back to the default when a block
      of that type is selected, and leaves any list first. A list button
      exits the list when a list item is selected inside a list of its type,
      switches lists when a list item is selected elsewhere, and otherwise
      turns the blocks into list items and wraps them. */
  function OnClickBlock(value: EditorValue, t: TypeName): (plan: seq<Command>)
    ensures !IsListType(t) && Selects(value, ListItem) ==>
      plan == [SetBlocks(if Selects(value, t) then DefaultNode else t),
               UnwrapBlock(BulletedList), UnwrapBlock(NumberedList)]
    ensures !IsListType(t) && !Selects(value, ListItem) ==>
      plan == [SetBlocks(if Selects(value, t) then DefaultNode else t)]
    ensures IsListType(t) && Selects(value, ListItem) && Under(value, t) ==>
      plan == [SetBlocks(DefaultNode), UnwrapBlock(BulletedList), UnwrapBlock(NumberedList)]
    ensures IsListType(t) && Selects(value, ListItem) && !Under(value, t) ==>
      plan == [UnwrapBlock(OtherList(t)), WrapBlock(t)]
    ensures IsListType(t) && !Selects(value, ListItem) ==>
      plan == [SetBlocks(ListItem), WrapBlock(t)]
  {
    if t != BulletedList && t != NumberedList then
      var isActive := HasBlock(value.blocks, t);
      var isList := HasBlock(value.blocks, ListItem);
      var setTo := if isActive then DefaultNode else t;
      if isList then [SetBlocks(setTo), UnwrapBlock(BulletedList), UnwrapBlock(NumberedList)]
      else [SetBlocks(setTo)]
    else
      var isList := HasBlock(value.blocks, ListItem);
      var isType := AnyHasClosest(value.blocks, t);
      if isList && isType then
        [SetBlocks(DefaultNode), UnwrapBlock(BulletedList), UnwrapBlock(NumberedList)]
      else if isList then
        [UnwrapBlock(if t == BulletedList then NumberedList else BulletedList), WrapBlock(t)]
      else
        [SetBlocks(ListItem), WrapBlock(t)]
  }

  // ---------------------------------------------------------------------
  // Inline insertion

  /** `onInsertField`: insert an empty field inline, with no data. */
  function OnInsertField(): (plan: seq<Command>)
    ensures plan == [InsertInline("field", map[]), MoveToStartOfNextText, Focus]
  {
    InsertVoidPlan("field", map[])
  }

  /** `onClickEmoji(code)`: insert an emoji inline whose `code` datum is the glyph. */
  function OnClickEmoji(code: string): (plan: seq<Command>)
    ensures plan == [InsertInline("emoji", map["code" := code]), MoveToStartOfNextText, Focus]
  {
    InsertVoidPlan("emoji", map["code" := code])
  }

  /** `EMOJIS`: the glyph list; the toolbar's emoji button uses the first. */
  const Emojis: seq<string> := [
    "\U{1F603}", "\U{1F62C}", "\U{1F602}", "\U{1F605}", "\U{1F606}", "\U{1F60D}",
    "\U{1F631}", "\U{1F44B}", "\U{1F44F}", "\U{1F44D}", "\U{1F64C}", "\U{1F44C}",
    "\U{1F64F}", "\U{1F47B}", "\U{1F354}", "\U{1F351}", "\U{1F511}"
  ]

  /** The toolbar's emoji button: `onClickEmoji(e, EMOJIS[0])`, the smiling face. */
  function EmojiButton(): (plan: seq<Command>)
    ensures plan == [InsertInline("emoji", map["code" := "\U{1F603}"]), MoveToStartOfNextText, Focus]
  {
    OnClickEmoji(Emojis[0])
  }

  // ---------------------------------------------------------------------
  // Hotkeys

  /** The hotkeys the example matches; `is-hotkey` decides which of them a
      key event satisfies. */
  datatype Hotkey = ModB | ModI | ModU | ModBacktick | Mod3

  /** The mark hotkeys in the order `onKeyDown` tests them, and their marks. */
  const MarkHotkeys: seq<Hotkey> := [ModB, ModI, ModU, ModBacktick]
  const HotkeyMarks: seq<TypeName> := ["bold", "italic", "underlined", "code"]

  /** What `onKeyDown` does: the commands it chains, whether it calls
      `event.preventDefault()`, and whether it returns `true` (otherwise it
      returns `undefined` and Slate's own key handling continues). */
  datatype KeyOutcome = KeyOutcome(commands: seq<Command>, defaultPrevented: bool, returnsTrue: bool)

  /** `onKeyDown(event, change)`, where `matched` is the set of hotkeys the
      event satisfies. The first matching mark hotkey toggles its mark and the
      handler returns true; otherwise the field hotkey inserts a field, and
      any other key does nothing. */
  function OnKeyDown(matched: set<Hotkey>): (out: KeyOutcome)
    ensures forall i ::
              (0 <= i < |MarkHotkeys| && MarkHotkeys[i] in matched
               && forall j :: 0 <= j < i ==> MarkHotkeys[j] !in matched)
              ==> out == KeyOutcome([ToggleMark(HotkeyMarks[i])], true, true)
    ensures (forall i :: 0 <= i < |MarkHotkeys| ==> MarkHotkeys[i] !in matched) ==>
      out == if Mod3 in matched then KeyOutcome(OnInsertField(), true, false)
             else KeyOutcome([], false, false)
  {
    assert MarkHotkeys[0] == ModB && MarkHotkeys[1] == ModI && MarkHotkeys[2] == ModU && MarkHotkeys[3] == ModBacktick;
    assert HotkeyMarks[0] == "bold" && HotkeyMarks[1] == "italic" && HotkeyMarks[2] == "underlined" && HotkeyMarks[3] == "code";
    if ModB in matched then MarkToggled("bold")
    else if ModI in matched then MarkToggled("italic")
    else if ModU in matched then MarkToggled("underlined")
    else if ModBacktick in matched then MarkToggled("code")
    else if Mod3 in matched then KeyOutcome(OnInsertField(), true, false)
    else KeyOutcome([], false, false)
  }

  /** The tail of `onKeyDown` once a mark is chosen: prevent the default,
      toggle the mark, return true. */
  function MarkToggled(mark: TypeName): KeyOutcome {
    KeyOutcome([ToggleMark(mark)], true, true)
  }

  // ---------------------------------------------------------------------
  // Properties of the planners

  /** The exit plan of a list button; the switch and enter plans follow. */
  function ExitListPlan(): seq<Command> {
    [SetBlocks(DefaultNode), UnwrapBlock(BulletedList), UnwrapBlock(NumberedList)]
  }

  /** A non-list button toggles: it sets the blocks to the default type when
      its own type is already selected and to its type otherwise, never wraps,
      and unwraps both list types exactly when a list item is selected. */
  lemma NonListButtonToggles(value: EditorValue, t: TypeName)
    requires !IsListType(t)
    ensures OnClickBlock(value, t)[0] == SetBlocks(if Selects(value, t) then DefaultNode else t)
    ensures forall c :: c in OnClickBlock(value, t) ==> !c.WrapBlock?
    ensures (UnwrapBlock(BulletedList) in OnClickBlock(value, t)) <==> Selects(value, ListItem)
    ensures (UnwrapBlock(NumberedList) in OnClickBlock(value, t)) <==> Selects(value, ListItem)
  {
  }

  /** Every list-button click takes exactly one of the three branches: exit,
      switch or enter. The exit branch always attempts both unwraps; only the
      enter and switch branches wrap, and only in the button's own type. */
  lemma ListButtonTakesOneBranch(value: EditorValue, t: TypeName)
    requires IsListType(t)
    ensures var plan := OnClickBlock(value, t);
      var exit := plan == ExitListPlan();
      var switch := plan == [UnwrapBlock(OtherList(t)), WrapBlock(t)];
      var enter := plan == [SetBlocks(ListItem), WrapBlock(t)];
      (exit || switch || enter) && !(exit && switch) && !(exit && enter) && !(switch && enter)
    ensures forall x :: WrapBlock(x) in OnClickBlock(value, t) ==> x == t
  {
  }

  /** Clicking an active block button undoes it: an active non-list button
      reverts the blocks to the default type, and an active list button takes
      the exit branch, because the first block's parent is an ancestor. */
  lemma ActiveBlockButtonReverts(value: EditorValue, t: TypeName)
    requires BlockButtonActive(value, t) == Ok(true)
    ensures !IsListType(t) ==> OnClickBlock(value, t)[0] == SetBlocks(DefaultNode)
    ensures IsListType(t) ==> OnClickBlock(value, t) == ExitListPlan()
  {
    if IsListType(t) {
      assert value.blocks[0].ancestors[0] == t;
      assert Under(value, t);
    }
  }

  /** The active flag of a list button looks only at the first block's
      parent, while the click looks at every ancestor of every selected block:
      in a numbered list nested inside a bulleted list, the bulleted-list
      button shows inactive yet its click exits the list. */
  lemma NestedListButtonInactiveButExits()
    ensures var value := EditorValue([SelectedBlock(ListItem, [NumberedList, ListItem, BulletedList])], []);
      BlockButtonActive(value, BulletedList) == Ok(false)
      && OnClickBlock(value, BulletedList) == ExitListPlan()
  {
    var value := EditorValue([SelectedBlock(ListItem, [NumberedList, ListItem, BulletedList])], []);
    assert value.blocks[0].blockType == ListItem;
    assert value.blocks[0].ancestors[2] == BulletedList;
  }

  /** A mark hotkey issues the same single command as the toolbar button of
      its mark, prevents the default and returns true. */
  lemma MarkHotkeyMatchesButton(i: nat)
    requires i < |MarkHotkeys|
    ensures OnKeyDown({MarkHotkeys[i]}) == KeyOutcome(OnClickMark(HotkeyMarks[i]), true, true)
  {
  }

  /** A single hotkey decides the handler's outcome: two different hotkeys
      never have the same effect, and the handler returns true exactly for
      the four mark hotkeys. */
  lemma HotkeysDispatchApart(h1: Hotkey, h2: Hotkey)
    ensures h1 != h2 ==> OnKeyDown({h1}) != OnKeyDown({h2})
    ensures OnKeyDown({h1}).returnsTrue <==> h1 in MarkHotkeys
  {
  }

  /** The field hotkey inserts a field like `onInsertField`, prevents the
      default and returns undefined; an event matching no hotkey does nothing. */
  lemma FieldAndOtherKeys()
    ensures OnKeyDown({Mod3}) == KeyOutcome(OnInsertField(), true, false)
    ensures OnKeyDown({}) == KeyOutcome([], false, false)
  {
  }
}
