# Form builder: field model, edits and static-page export

This project models the core of a small browser form builder (`app.js`).
The builder keeps an ordered list of form fields and the id of the
selected field. Users add fields from a library (a click or a drop on the
canvas), reorder, duplicate and delete them, and edit their properties in
an inspector. The form can then be exported as a self-contained HTML page.

The model has five modules:

- `Fields` (fields.dfy):
  - the field record;
  - the per-type defaults of `createField`;
  - the options-text parser of the inspector (split on line feeds, trim, drop empty lines);
  - the one-property edits the inspector closures perform.
- `Text` (text.dfy): the string functions the parser relies on.
  - `String.prototype.trim`, with the exact ECMAScript whitespace and line-terminator set.
  - `split` and `join` on one separator character.
- `FieldList` (field_list.dfy): the sequence operations on which each state change rests, as pure functions of the old sequence.
  - `findIndex`;
  - the clamped splice of `moveField`;
  - the filter of `deleteField`;
  - the append of `duplicateField`;
  - the one-record update of an edit.
- `Session` (session.dfy): the module-level `fields` array and `selectedId` become the fields of a class, `FormSession`. Each event handler is a method that reassigns them.
  - `selectField`, the outside-click handler, adding a field, the drop handler, the library click handler, `moveField`, `deleteField`, `duplicateField` and an inspector edit.
  - Each method's `ensures` gives the new state as a function of the old one.
  - The class invariant says that ids are unique and were all handed out by the session, and that every field has the properties of its type: `checked` only on checkboxes, options only on radio and select fields.
  - An edit goes through one of the editors the inspector shows for the field's type.
- `Escape` (escape.dfy) and `Export` (export.dfy): `escapeHtml` and `generateStandaloneHTML`.
  - The generator is a method that appends to `inner` in loops, as the source does.
  - It is proved equal to `StandalonePage`, a function of the title, the description and the fields.
  - The structural and escaping properties are proved about that function.

Where the code and the design description disagree, the model follows the code:

- `duplicateField` appends the copy at the end of the list. It does not insert it after the original.
- `selectField` stores the id before looking it up, so a selection can name an id that no field has. `Session.FormSession.Select` does the same.
- A library click leaves no field selected; see "## Findings".

## Model

| member | source | states |
|---|---|---|
| Fields.UpperCase | app.js:21 | `toUpperCase` on one character: a lower-case ASCII letter becomes its upper-case letter, every other character is kept |
| Fields.Capitalize | app.js:21 | the label of a new field has the length of the type name, its first character upper-cased and the rest unchanged |
| Fields.CreateField | app.js:19-25 | a new field carries the given id and type, the capitalised type as label, `required` false, an empty placeholder, the options "Option 1" and "Option 2" exactly for radio and select (none otherwise), and `checked` false exactly for a checkbox (absent otherwise), so a new field has the properties of its type |
| Fields.InputLabels | app.js:21 | the default labels of text, email, number and date fields are "Text", "Email", "Number" and "Date" |
| Fields.ChoiceLabels | app.js:21 | the default labels of textarea, checkbox, radio and select fields are "Textarea", "Checkbox", "Radio" and "Select" |
| Text.TrimStart | app.js:103 | removes a whitespace prefix: the result is a suffix of the input, what was removed is all whitespace, and the result does not start with whitespace |
| Text.TrimEnd | app.js:103 | removes a whitespace suffix: the result is a prefix of the input, what was removed is all whitespace, and the result does not end with whitespace |
| Text.Trim | app.js:103 | the result neither starts nor ends with whitespace |
| Text.TrimIsSlice | app.js:103 | the trimmed string is a slice of the input whose two margins are whitespace |
| Text.TrimKeepsOut | app.js:103 | trimming adds no character |
| Text.TrimOfTrimmed | app.js:103 | a string without whitespace at either end trims to itself |
| Text.TrimOfBlank | app.js:103 | a whitespace-only line trims to the empty string |
| Text.TrimIdempotent | app.js:103 | trimming twice is trimming once |
| Text.Split | app.js:103 | `split` always yields at least one piece |
| Text.SplitPiecesClean | app.js:103 | no piece of a split holds the separator |
| Text.SplitNoSeparator | app.js:103 | a string without the separator splits into itself alone |
| Text.SplitAround | app.js:103 | the pieces of `a + sep + b` are the pieces of `a` followed by the pieces of `b` |
| Text.Join | app.js:102 | `join('\n')`: the separator occurs in the result whenever there are two pieces or more and, when no piece holds it, only then; the result has room for its separators |
| Text.SplitJoin | app.js:102-103 | joining pieces without separators and splitting again gives the pieces back |
| Text.JoinSplit | app.js:102-103 | splitting and joining with the same separator gives the string back |
| Fields.TrimAll | app.js:103 | `map(s => s.trim())`: same length, each line trimmed in place |
| Fields.KeepNonEmpty | app.js:103 | `filter(Boolean)`: the result holds exactly the non-empty lines of the input and is no longer than it |
| Fields.KeepNonEmptyAppend | app.js:103 | the filter keeps order: filtering a concatenation filters each part |
| Fields.ParseOptions | app.js:103 | the parser yields only options that are non-empty, trimmed and a single line, and no more options than the text has lines |
| Fields.ParseOptionsAppend | app.js:103 | parsing keeps line order: the options of `a + "\n" + b` are those of `a` followed by those of `b` |
| Fields.ParseOptionsOfLines | app.js:103 | the options parsed from lines joined by line feeds are the trimmed lines that are not empty, in order and with duplicates |
| Fields.ParseOptionsOfJoin | app.js:102-103 | the options text the inspector shows parses back to the same options whenever each option is one the parser can produce (the defaults are) |
| Fields.ParseOptionsExample | app.js:103 | the lines a, b, b, a blank line, c parse to a, b, b, c for any clean a, b, c: the blank line disappears, and the duplicate and the order stay (the "A\nB\nB\n \nC" example) |
| Fields.ParseBlank | app.js:103 | a whitespace-only line gives no option |
| Fields.Offered | app.js:92-111 | the editors the inspector shows for a type: label, placeholder and required always, the options box only for radio and select, the checked box only for checkboxes |
| Fields.ApplyPatch | app.js:92-109 | an inspector edit overwrites exactly the one property it names with its value; the options property gets the parse of the options text; id, type and every other property are kept; an edit the inspector offers for the field's type keeps `checked` on checkboxes only and options on radio and select fields only |
| FieldList.IndexOf | app.js:143 | `findIndex`: -1 exactly when no field has the id, otherwise the first position holding it |
| FieldList.IndexOfUnique | app.js:143 | with unique ids, the index of a field's id is that field's position |
| FieldList.Clamp | app.js:144 | the clamped target lies in the list: an in-range target is kept, one below 0 becomes 0 and one past the end becomes the last position |
| FieldList.Moved | app.js:142-149 | moving keeps the length of the list |
| FieldList.MovedAt | app.js:142-149 | every position of the moved list holds the field of the old list that the splice shifts there |
| FieldList.MovedIsPermutation | app.js:142-149 | moving is a permutation of the fields |
| FieldList.MovedPlacement | app.js:142-149 | a real move puts the field at the clamped target and leaves the other fields in their relative order |
| FieldList.MovedStepIsSwap | app.js:142-149 | moving one step up or down swaps the field with its neighbour in that direction |
| FieldList.MoveAtEdgesIsNoOp | app.js:144-145 | moving the first field up or the last field down changes nothing |
| FieldList.MovedChangesIff | app.js:143-145 | with unique ids, a move changes the list exactly when the id is present and the clamped target differs from its position |
| FieldList.MoveSecondUp | app.js:142-149 | for three fields, moving the second up gives second, first, third |
| FieldList.MovedUnique | app.js:142-149 | moving keeps ids unique |
| FieldList.Without | app.js:152 | the filter keeps exactly the fields whose id differs, and the list does not grow |
| FieldList.WithoutAppend | app.js:152 | the filter keeps order: filtering a concatenation filters each part |
| FieldList.WithoutAbsent | app.js:152 | deleting an absent id changes nothing |
| FieldList.WithoutIdempotent | app.js:152 | a second delete of the same id changes nothing |
| FieldList.WithoutIsRemoveAt | app.js:152 | with unique ids, deleting is removing the one field at the id's position |
| FieldList.WithoutUnique | app.js:152 | deleting keeps ids unique |
| FieldList.Copy | app.js:159 | the copy carries the fresh id and the label plus " (copy)", and has every other property of the source, so it keeps the properties of its type |
| FieldList.Duplicated | app.js:157-161 | an unknown id changes nothing; otherwise the list grows by one, keeps its prefix, and ends with a copy of the first field with the id under the fresh id, whose label has " (copy)" added and whose other properties are the source's |
| FieldList.AppendUnique | app.js:160 | appending a field with a new id keeps ids unique |
| FieldList.Updated | app.js:92-109 | an edit changes only the touched property of the records with the id, to the new value, and keeps every other record unchanged |
| FieldList.UpdatedAbsent | app.js:92-109 | an edit of an absent id changes nothing |
| Session.FormSession.constructor | app.js:12-13 | a session starts with no fields and no selection |
| Session.FormSession.Select | app.js:84-87 | selecting records the id, present or not, and changes no field, so the session invariant still holds |
| Session.FormSession.ClickOutside | app.js:282-286 | a click outside both the canvas and the inspector clears the selection; any other click keeps it; the fields are untouched |
| Session.FormSession.Add | app.js:164-172 | adding appends exactly the new default field at the end, keeps earlier fields, selects the new id and keeps ids unique |
| Session.FormSession.Drop | app.js:179-183 | an empty payload changes nothing; otherwise the drop adds and selects a field of the dropped type |
| Session.FormSession.LibraryClick | app.js:164-172 | a library click as the page dispatches it appends the new field and ends with no selection, because the document handler runs after the item's handler |
| Session.FormSession.Move | app.js:142-149 | the new list is the clamped move of the old one; selection unchanged; ids stay unique |
| Session.FormSession.Delete | app.js:151-155 | the new list is the filter of the old one; the selection is cleared exactly when it held the id |
| Session.FormSession.Duplicate | app.js:157-161 | the new list is the old one with the copy appended (unchanged for an unknown id); selection unchanged; ids stay unique |
| Session.FormSession.Edit | app.js:92-111 | an edit through an editor the inspector shows for the field's type: the new list is the one-record update of the old one; selection unchanged; ids stay unique and every field keeps the properties of its type |
| Session.LibraryClickScenario | app.js:164-172 | on a fresh page, clicking the "text" library item leaves one field and no selection |
| Session.DropScenario | app.js:179-183 | on a fresh page, dropping a "text" field leaves one field, selected |
| Escape.EscapeChar | app.js:78-80 | a character is kept exactly when it is not one of `& < > " '`; each of those becomes a reference that starts with `&` and ends with `;`; no replacement holds `< > " '` |
| Escape.EscapeHtml | app.js:77-81 | the escaped text holds no `<`, `>`, `"` or `'` and is at least as long as the input |
| Escape.EscapeAppend | app.js:77-81 | escaping distributes over concatenation |
| Escape.EscapePlain | app.js:77-81 | text without the five reserved characters is left unchanged |
| Escape.EscapeEmpty | app.js:77-81 | only the empty string escapes to the empty string |
| Escape.UnescapeEscape | app.js:77-81 | decoding the five references gives the original text back: escaping loses nothing |
| Escape.EscapeInjective | app.js:77-81 | different texts never escape to the same text |
| Export.MetaTitle | app.js:254 | the page title text: the escaped title, or "Untitled Form" for an empty one; it is never empty and holds no tag or attribute delimiter (TitleShown proves what it decodes to) |
| Export.Heading | app.js:256 | the `<h2>` heading and, for a non-empty escaped description, the `<p>` paragraph (properties in DescriptionShown and DelimitersOfHeading) |
| Export.LabelTag | app.js:260 | the label element: escaped label and " *" for a required field (properties in LabelShown) |
| Export.RadioItem | app.js:268 | one radio choice: an input named by the field id and the escaped option text (properties in DelimitersOfRadioItem) |
| Export.OptionItem | app.js:271 | one `<option>` element holding the escaped option text (properties in SelectListsOptions) |
| Export.Control | app.js:261-273 | the control of a field chosen by its type, none for a type outside the eight (properties in CheckboxCheckedIff, SelectControl, SelectListsOptions, DelimitersOfControl) |
| Export.Block | app.js:259-274 | one field's `<div>` block: label, then control (properties in BlocksInOrder, DelimitersOfBlock) |
| Export.Page | app.js:278 | the document frame around the page title and the inner markup (properties in SubmitButtonLast, MarkupIndependentOfText) |
| Export.StandalonePage | app.js:253-279 | the whole exported page as a function of title, description and fields; GenerateStandaloneHtml is proved equal to it |
| Export.AppendRadioItems | app.js:268 | the radio loop appends one item per option, in order |
| Export.AppendOptionItems | app.js:271 | the select loop appends one option element per option, in order |
| Export.AppendControl | app.js:261-273 | the type dispatch appends the control of the field's type |
| Export.AppendBlocks | app.js:258-275 | the fields loop appends one block per field, in order |
| Export.GenerateStandaloneHtml | app.js:253-279 | the generated page is `StandalonePage` of the title, description and fields |
| Export.TitleShown | app.js:253-279 | the page title and heading show "Untitled Form" for an empty title, and otherwise text that decodes to the title |
| Export.DescriptionShown | app.js:255-256 | the description paragraph appears exactly when the description is not empty, and decodes back to it |
| Export.BlocksInOrder | app.js:258-275 | the block of field k comes after the blocks of the fields before it and before the blocks of those after it |
| Export.BlocksAppend | app.js:258-275 | a field added at the end adds its block at the end of the form |
| Export.LabelShown | app.js:260 | the label element's text is the escaped label, with " *" after it exactly when the field is required, and decodes back to that |
| Export.SubmitButtonLast | app.js:276-278 | the page ends with the submit button, the end of the form and the end of the document |
| Export.CheckboxCheckedIff | app.js:265-266 | a checkbox is rendered with `checked` exactly when the field is checked, and is one of the two checkbox tags |
| Export.SelectControl | app.js:269-272 | a select is the "-- Select --" entry, the option elements and the closing tag; a select whose options were all removed is the "-- Select --" entry alone |
| Export.SelectListsOptions | app.js:269-272 | a select starts with the "-- Select --" entry, then lists the escaped options in order |
| Export.DelimitersAppend | app.js:253-279 | the markup delimiters of a concatenation are those of the parts in order |
| Export.DelimitersOfEscaped | app.js:77-81 | escaped text contributes no markup delimiter |
| Export.DelimitersOfControl | app.js:261-273 | two fields of the same shape give controls with the same delimiters, whatever their text |
| Export.DelimitersOfBlock | app.js:258-275 | two fields of the same shape give blocks with the same delimiters, whatever their text |
| Export.DelimitersOfHeading | app.js:254-256 | headings give the same delimiters whatever the title and description text, provided both descriptions are empty or both are not |
| Export.MarkupIndependentOfText | app.js:253-279 | user text cannot change the page's tag and attribute structure: two pages whose fields have the same shapes have the same delimiters in the same order, whatever the titles, descriptions, labels, placeholders and option texts, provided both descriptions are empty or both are not |

## Left out

- Rendering is left out: the canvas, the inspector panel, the live preview and `makeProperty` (app.js:28-75, 88-140, 186-224). They build DOM nodes and wire listeners. Each handler is modelled only by the state change it makes.
- Drag-and-drop plumbing (`dataTransfer`, `dragover`, app.js:175-183) is left out. A drop is modelled by its payload string.
- The outside-click handler's DOM tests (`canvas.contains`, `inspector.contains`, app.js:283) are left out. They become two boolean parameters of `Session.FormSession.ClickOutside`.
- The JSON export and both downloads (app.js:227-251) are left out. They are `Blob`, object URLs, anchor clicks and `JSON.stringify`, with nothing to prove beyond the field record.
- `uid` (app.js:16) draws ids from `Math.random`. The model takes the new id as a parameter, which must not have been issued before in the session.
- The `JSON.parse(JSON.stringify(f))` deep copy (app.js:159) becomes a copy of an immutable record value.
- The title and description come from DOM inputs (app.js:254-255). They are parameters of `Export.GenerateStandaloneHtml`.
- Fields.UpperCase: only ASCII `a`-`z` are upper-cased. `toUpperCase` also maps other letters, and a few to more than one character; that is not modelled.
- Text.IsJsWhitespace is fixed to the current Unicode space separators; it does not follow later Unicode versions.
- Strings are sequences of Unicode scalar values, where JavaScript strings are sequences of UTF-16 code units. Every character the model matches (the five reserved characters, the whitespace set, the line feed) is a single code unit, so the results agree; only lengths can differ.
- Session.FormSession.Edit modifies the record with the given id. The source's closures hold the record object itself. With unique ids the two coincide, and after a delete both leave the list unchanged.
- Export.MarkupIndependentOfText counts only `<`, `>`, `"` and `'` as structure. It says nothing about the unescaped field id and type written into attributes, which come from the program, not from the user's text.

## Findings

| source | as written | input that shows it | evidently intended | confidence | as-written member | corrected member |
|---|---|---|---|---|---|---|
| app.js:164-172, 282-286 | the library item's click handler adds the field and selects it; the same click then bubbles to the document's click handler, which finds the target outside the canvas and the inspector and clears the selection | a click on the "text" library item on a fresh page | the new field stays selected, as it does after a drop (app.js:182) | medium: assumes the field library is outside the canvas and the inspector (the page markup is not part of this model); not executed | Session.LibraryClickScenario | Session.FormSession.Add |
