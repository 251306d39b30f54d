# Rich-text editor example: command planning and the field widget

The repository is a demonstration of a rich-text editor built on Slate and
React. A toolbar toggles marks (bold, italic, underlined, code) and block
types (headings, block quote, bulleted and numbered lists), hotkeys do the
same for marks, and two void inlines can be inserted: an emoji glyph and a
field reference whose widget shows a chooser of four field names. Nothing
calls the widget's `handleChange`, so in the program as written the chooser
never becomes the `#name` token; the model still states what `handleChange`
would do if called.

The editing transforms themselves (`setBlocks`, `wrapBlock`, `unwrapBlock`,
`toggleMark`, `insertInline`, `moveToStartOfNextText`, `focus`) belong to the
Slate library, not to this repository. What the repository decides is which of
them to issue and in what order, and which toolbar buttons show as active. The
model covers that decision logic and the field widget's state machine.

- `commands.dfy`, module `Commands`: the Slate commands as a datatype
  (`SetBlocks`, `UnwrapBlock`, `WrapBlock`, `ToggleMark`, `InsertInline` with
  its data map, `MoveToStartOfNextText`, `Focus`), the block type constants
  (`DEFAULT_NODE` is `paragraph`), and the insert-inline chain both inline
  insertions share.
- `rich_text.dfy`, module `RichText`: the example component in
  `examples/rich-text/index.js`. The editor value is reduced to what the
  handlers read from it. That is the selected blocks, each with its type and
  its ancestors' types (nearest first), plus the active marks' types.
  `hasMark`, `hasBlock` and the `getClosest` scan are recursive functions, one
  step per element as `.some` takes them. Their contracts state the
  existential they decide. The button active states and the click and hotkey
  handlers are functions that return the ordered command plan.
  A key event is the set of hotkeys it satisfies (`is-hotkey` itself is not
  modelled), so the order in which `onKeyDown` tests them stays visible.
- `field.dfy`, module `Field`: the field widget, as a class with its single
  mutable field `selection`, a `HandleChange` method and a `Render` function.
  `AfterChange` is the transition `handleChange` performs. `AfterChanges`
  folds it over a sequence of calls, and lemmas about it state what any
  sequence of changes does.

The widget is declared twice with the same `handleChange` and `render`: in
`examples/rich-text/components/field.js` and again in
`examples/rich-text/index.js:76-125`. The editor renders the second copy
(`index.js:297`), and `index.js` never imports `field.js`. One class models
both copies. Only the `field.js` copy has the static `onInsertField`; only the
`index.js` copy has an (empty) `componentDidMount`.

Three behaviours of the code the model keeps:
- The widget has no transition from the `#name` token back to the chooser.
  Choosing a field issues no cursor movement.
- A list button's exit branch runs when some selected block has an ancestor
  of the button's list type at any depth, not only when its direct container
  has that type. `RichText.NestedListButtonInactiveButExits` shows that this
  can disagree with the button's active indicator. The active indicator looks
  only at the first selected block's parent.
- A list button's active state reads the key of the first selected block.
  With no block selected that read throws a type error. The model returns
  `Err(NoSelectedBlock)` in that case.

## Model

| member | source | states |
|---|---|---|
| `Commands.InsertVoidPlan` | examples/rich-text/index.js:389-394 | the void-inline chain inserts exactly one inline, first, with the given type and data, then moves to the start of the next text, then focuses |
| `RichText.HasMark` | examples/rich-text/index.js:169-172 | `hasMark(t)` (and so a mark button's active flag, line 233) is true iff some active mark has type `t` |
| `RichText.HasBlock` | examples/rich-text/index.js:181-184 | `hasBlock(t)` is true iff some selected block has type `t` |
| `RichText.AnyHasClosest` | examples/rich-text/index.js:464-466 | the `isType` scan is true iff some selected block has an ancestor, at any depth, of type `t` |
| `RichText.OtherList` | examples/rich-text/index.js:475-477 | the list a switch unwraps is a list type and, for a list button, differs from the button's own type |
| `RichText.BlockButtonActive` | examples/rich-text/index.js:253-260 | a list button is active iff a list item is selected and the first selected block's parent exists with the button's type; with no selected block the query fails; any other button is active iff some selected block has its type |
| `RichText.OnClickBlock` | examples/rich-text/index.js:442-485 | the exact plan in each of the five cases: non-list button with or without a selected list item; list button exiting, switching or entering a list |
| `RichText.NonListButtonToggles` | examples/rich-text/index.js:449-460 | a non-list button sets the blocks to `paragraph` when its type is already selected and to its type otherwise; it never wraps; it unwraps both list types iff a list item is selected |
| `RichText.ListButtonTakesOneBranch` | examples/rich-text/index.js:462-481 | every list-button click yields exactly one of the exit, switch and enter plans, and wraps only in the button's own type |
| `RichText.ActiveBlockButtonReverts` | examples/rich-text/index.js:253-260 | clicking an active non-list button sets `paragraph`; clicking an active list button takes the exit plan |
| `RichText.NestedListButtonInactiveButExits` | examples/rich-text/index.js:464-472 | in a numbered list nested in a bulleted list, the bulleted-list button is inactive, yet its click exits the list |
| `RichText.OnInsertField` | examples/rich-text/index.js:386-397 | the field hotkey's plan is exactly insert a `field` inline with no data, move to the start of the next text, focus |
| `RichText.OnClickEmoji` | examples/rich-text/index.js:405-419 | the emoji plan is exactly insert an `emoji` inline with data `code` set to the glyph, move to the start of the next text, focus |
| `RichText.EmojiButton` | examples/rich-text/index.js:205 | the toolbar's emoji button inserts the first glyph of `EMOJIS`, U+1F603 |
| `RichText.OnKeyDown` | examples/rich-text/index.js:356-377 | the first matched of `mod+b`, `mod+i`, `mod+u`, `` mod+` `` toggles `bold`, `italic`, `underlined` or `code`, prevents the default and returns true; otherwise `mod+3` issues the field plan, prevents the default and returns undefined; any other key issues nothing |
| `RichText.OnClickMark` | examples/rich-text/index.js:428-433 | a mark button's click issues exactly one command, toggling its own mark |
| `RichText.MarkHotkeyMatchesButton` | examples/rich-text/index.js:359-376 | each mark hotkey issues the same plan as the toolbar button of its mark, a single `ToggleMark` |
| `RichText.HotkeysDispatchApart` | examples/rich-text/index.js:359-376 | an event matching one hotkey gives an outcome no other single hotkey gives, and the handler returns true exactly for the four mark hotkeys |
| `RichText.FieldAndOtherKeys` | examples/rich-text/index.js:367-371 | the field hotkey alone yields the `onInsertField` plan without returning true; no matching hotkey yields nothing |
| `Field.AfterChange` | examples/rich-text/index.js:89-93 | a change leaves the old selection or takes the option; it takes any option other than `empty`; the result is `empty` only if both were |
| `Field.PlaceholdersKeepSelection` | examples/rich-text/components/field.js:43-47 | any number of `handleChange('empty')` calls leave the selection unchanged |
| `Field.LastPickWins` | examples/rich-text/components/field.js:44-45 | after any sequence of changes, the selection is the last option other than `empty` |
| `Field.ChoiceIsPermanent` | examples/rich-text/components/field.js:43-47 | once the selection is not `empty`, no sequence of changes makes it `empty` again |
| `Field.FieldComponent.constructor` | examples/rich-text/components/field.js:12-14 | a new field starts with selection `empty` |
| `Field.FieldComponent.HandleChange` | examples/rich-text/components/field.js:43-47 | `empty` leaves the selection unchanged; any other option becomes the selection; nothing else changes |
| `Field.FieldComponent.HandleChanges` | examples/rich-text/components/field.js:43-47 | calling `handleChange` with each option in turn leaves the selection that the fold of single changes gives, so `Field.LastPickWins` and `Field.ChoiceIsPermanent` apply to the component |
| `Field.FieldComponent.Render` | examples/rich-text/components/field.js:49-73 | shows the chooser iff the selection is `empty`, with the five options; otherwise the token `#` + selection, which is never `#empty` |
| `Field.ChooserOffersFourFields` | examples/rich-text/components/field.js:52-58 | the chooser has five options, `empty` first, then `field1` to `field4` in order, each captioned with its name |
| `Field.PickField2` | examples/rich-text/index.js:100-124 | a new field shows the chooser and still does after `empty`; after `field2` it shows `#field2`, and a later `empty` does not change that |
| `Field.OnInsertFieldStatic` | examples/rich-text/components/field.js:30-41 | the static `onInsertField` plan is exactly insert a `field` inline with no data, move to the start of the next text, focus |

## Left out

- The Slate transforms and document queries (`setBlocks`, `wrapBlock`, `unwrapBlock`, `toggleMark`, `insertInline`, `moveToStartOfNextText`, `focus`, `getParent`, `getClosest`, `activeMarks`, `blocks`) belong to the Slate library. Their results enter the model as the selection facts, and their effect on the document is not modelled. Properties such as "toggling a mark twice restores the document" are therefore not stated.
- Hotkey parsing by `is-hotkey`: a key event is given as the set of hotkeys it matches.
- `event.preventDefault()` in the click handlers is always called and is not modelled. For `onKeyDown` it is, because there it depends on the key.
- The React plumbing: `onChange`/`setState` publishing the new value, loading the initial value from `value.json`, and the static `onInsertField`'s call to `this.onChange(change)` (`examples/rich-text/components/field.js:40`). Inside that static arrow `this` is the class, which has no `onChange`, so the call throws a TypeError after the command chain has been built.
- The rendering switches `renderNode` and `renderMark`, styled components, icons and CSS. The `Select` element that `render` also caches in `this.mySelect` and its `react-select` wiring are left out too. `handleChange` is never attached to the `Select`, so the model calls it directly.
- The `selectRef` created in the widget's constructor and the empty `componentDidMount`: neither affects behaviour.
