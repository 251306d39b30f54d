/** The Slate editing commands that the rich-text example chains on a change,
    represented as data. What Slate does when it runs them is not modelled:
    a plan is the ordered list of commands a handler issues. */
module Commands {

  /** A node or mark type; the example compares them as plain strings. */
  type TypeName = string

  /** `DEFAULT_NODE`: the block type a toggled-off block reverts to. */
  const DefaultNode: TypeName := "paragraph"
  const ListItem: TypeName := "list-item"
  const BulletedList: TypeName := "bulleted-list"
  const NumberedList: TypeName := "numbered-list"

  /** One call in a Slate change chain. `InsertInline` carries the inline's
      `data` attributes; an inline inserted without data has the empty map. */
  datatype Command =
    | SetBlocks(blockType: TypeName)
    | UnwrapBlock(blockType: TypeName)
    | WrapBlock(blockType: TypeName)
    | ToggleMark(markType: TypeName)
    | InsertInline(inlineType: TypeName, data: map<string, string>)
    | MoveToStartOfNextText
    | Focus

  /** The chain `insertInline(...).moveToStartOfNextText().focus()` used for
      every void inline the example inserts: the inline comes first and is the
      only insertion, then the cursor leaves it, then the editor takes focus. */
  function InsertVoidPlan(inlineType: TypeName, data: map<string, string>): (plan: seq<Command>)
    ensures |plan| == 3
    ensures forall i :: 0 <= i < |plan| ==> (plan[i].InsertInline? <==> i == 0)
    ensures plan[0].InsertInline? && plan[0].inlineType == inlineType && plan[0].data == data
    ensures plan[1] == MoveToStartOfNextText && plan[2] == Focus
  {
    [InsertInline(inlineType, data), MoveToStartOfNextText, Focus]
  }
}
