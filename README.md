# Formatting-specification editor: a Dafny model

This project models the editing core of the IMP formatting-specification editor. A formatting
specification holds four things:

- a target language;
- an ordered list of formatting rules, each a box expression, with label-only separators between them;
- a map of named space options;
- an example program.

The editor has three pages:

- **Rule table** (`RuleTable.java`). It edits the rule list through an "active item" cursor. It
  validates every rule through a fail-fast chain:
  - empty rule;
  - box syntax;
  - rendering;
  - re-parse of the rendering in the target language.

  The chain decides the row's status, tooltip and preview, and which of the rule's `patternString`
  and `patternAst` fields change.
- **Option table** (`SpaceOptionTable.java`). It edits the option map. Two keystroke filters control
  what may be typed into the name and value cells.
- **Editor** (`Editor.java`). It builds the specification from the file:
  - an empty file gives a skeleton for a discovered or prompted language;
  - otherwise the file is loaded, and an error gives an empty specification.

  It finds the `<language>…</language>` tag to activate bundles. It keeps the example page and the
  specification's example in step, and reformats the example through the staged preview pipeline.
  It combines the three dirty flags for saving.

Modules:

- `Wrappers`: `Option` and `Result`.
- `ListOps`: `java.util.List` index operations on `seq`, with their permutation and order lemmas.
- `TextOps`: ASCII `Character.isLetter`/`isDigit`, `String.contains`, and `Integer.parseInt`/`toString`
  with their round trip.
- `SpecModel`: the shared `Specification`, `Rule` and `Separator` classes. Their source is not part
  of this model; they are taken to have ordinary list and map semantics. The collaborators the
  editors call are the function-valued fields of the datatype `Collaborators`:
  - the object and box parsers;
  - the file loader;
  - the option binder;
  - the box renderer;
  - the transformer, given the name of the language whose AST adapter it uses;
  - the box interpreter;
  - the language registry.
- `RuleEditing`: `RuleTable.java`. The classifier `Classify` is a function. The class `RuleTable`
  proves each state-changing method against `Classify` and the `ListOps` functions.
- `OptionEditing`: `SpaceOptionTable.java`. The verify listeners are loops proved against predicates.
  `EditableTableItem` and `SpaceOptionTable` are classes over the option map.
- `FormattingEditor`: `Editor.java`. The tag match, the prompt validator and the effect of a
  reformat on the example page (`AfterReformat`) are functions. The class `Editor` proves its
  methods against them.

Java exceptions that the source catches, or that end an operation half-way, are modelled as "no
further change from the throw point on". Examples:

- `indexOf` giving -1 for an item no longer in the list;
- `Integer.parseInt` rejecting text;
- a failing preview stage.

In these points the code behaves differently from what its names and comments suggest, and the model follows the code:

- Validation without recompute still sets `patternAst` when the stored pattern re-parses
  (`RuleTable.java:461`). It is not true that only the recomputing path changes the rule.
- Status "Ok" certifies that the preview text re-parses in the target language
  (`RuleEditing.ClassifyOkIffReparses`). In recompute mode an empty rendering does not replace the
  stored `patternString`. So "Ok" does not certify that the stored `patternString` re-parses, and
  `patternAst` can then come from the empty preview rather than from `patternString`.
- Renaming an option that is absent does not fail. The new name is stored with a null value
  (`None`, see `OptionEditing.Renamed`).

## Model

| member | source | states |
|---|---|---|
| ListOps.IndexOf | src/org/eclipse/imp/formatting/editor/RuleTable.java:499 | `List.indexOf`: -1 exactly when the item is absent, otherwise the index of its first occurrence |
| ListOps.IndexOfDistinct | src/org/eclipse/imp/formatting/editor/RuleTable.java:499-506 | in a list without duplicates the index found for the item at `i` is `i`, so `removeRule(fActiveItem)` removes index `cur` |
| ListOps.InsertAt | src/org/eclipse/imp/formatting/editor/RuleTable.java:535 | `List.add(i, x)`: one longer, `x` at `i`, items before `i` and after it keep their order |
| ListOps.RemoveAt | src/org/eclipse/imp/formatting/editor/RuleTable.java:523 | `List.remove(i)`: one shorter, items before `i` unchanged and items after it shifted down by one in order |
| ListOps.RemoveInserted | src/org/eclipse/imp/formatting/editor/RuleTable.java:535 | removing what was just inserted at `i` restores the list |
| ListOps.InsertAtPermutes | src/org/eclipse/imp/formatting/editor/RuleTable.java:535 | an insertion adds exactly the new item to the multiset of items |
| ListOps.RemoveAtPermutes | src/org/eclipse/imp/formatting/editor/RuleTable.java:523 | a removal takes exactly the item at `i` out of the multiset of items |
| ListOps.DistinctRemoveAt | src/org/eclipse/imp/formatting/editor/RuleTable.java:517-526 | removal keeps the list free of duplicates and the removed item is gone |
| ListOps.DistinctInsertAt | src/org/eclipse/imp/formatting/editor/RuleTable.java:528-548 | inserting a fresh item keeps the list free of duplicates |
| ListOps.Moved | src/org/eclipse/imp/formatting/editor/RuleTable.java:505-507 | defines `removeRule(cur)` followed by `addRule(cur + diff, r)`; its properties are stated by `ListOps.MovedProperties` and `ListOps.MovedBack` |
| ListOps.MovedProperties | src/org/eclipse/imp/formatting/editor/RuleTable.java:505-507 | remove-then-insert keeps the length, puts the item at the target, is a permutation, keeps every other item in relative order and keeps the list free of duplicates |
| ListOps.MovedBack | src/org/eclipse/imp/formatting/editor/Editor.java:490-496 | moving an item from `f` to `t` and then from `t` back to `f` restores the list |
| TextOps.Contains | src/org/eclipse/imp/formatting/editor/RuleTable.java:455 | `String.contains`: true exactly when the pattern occurs at some index |
| TextOps.ParseInt | src/org/eclipse/imp/formatting/editor/SpaceOptionTable.java:190 | `Integer.parseInt`: results lie in the 32-bit range, the empty string is rejected, and a digit string parses to its value when it fits and is rejected otherwise |
| TextOps.ParseIntToString | src/org/eclipse/imp/formatting/editor/SpaceOptionTable.java:179-190 | the text a value cell shows parses back to the same value, for every 32-bit value |
| TextOps.DigitsRoundTrip | src/org/eclipse/imp/formatting/editor/SpaceOptionTable.java:179 | the decimal digits of a natural number have that number as their value |
| SpecModel.Rule.constructor | src/org/eclipse/imp/formatting/editor/RuleTable.java:529 | `new Rule()` has no box string, pattern or tree |
| SpecModel.Rule.FromBox | src/org/eclipse/imp/formatting/editor/Editor.java:287 | a loaded rule carries only its box string |
| SpecModel.Separator.constructor | src/org/eclipse/imp/formatting/editor/RuleTable.java:330 | `new Separator()` is taken to have an empty label; the source of `Separator` is not part of this model |
| SpecModel.Separator.Labelled | src/org/eclipse/imp/formatting/editor/Editor.java:287 | a loaded separator carries its label |
| SpecModel.ValuesOf | src/org/eclipse/imp/formatting/editor/Editor.java:358-359 | the transformer sees one value per list item, in list order: a rule's box string, pattern string and pattern tree, or a separator's label |
| SpecModel.Specification.Default | src/org/eclipse/imp/formatting/editor/Editor.java:301 | `new Specification(parser)`: no language and nothing else |
| SpecModel.Specification.Named | src/org/eclipse/imp/formatting/editor/Editor.java:269-274 | `new Specification(lang, parser)`: the language and nothing else |
| SpecModel.Specification.Load | src/org/eclipse/imp/formatting/editor/Editor.java:287 | a loaded specification has the document's language, options and example, and one fresh distinct item per entry, in order |
| SpecModel.Specification.SetSpaceOption | src/org/eclipse/imp/formatting/editor/SpaceOptionTable.java:337 | inserts or overwrites one entry |
| SpecModel.Specification.RemoveSpaceOption | src/org/eclipse/imp/formatting/editor/SpaceOptionTable.java:331 | removes one entry, and does nothing when it is absent |
| SpecModel.Specification.AddRuleAt | src/org/eclipse/imp/formatting/editor/RuleTable.java:535 | `addRule(i, item)` inserts at `i` |
| SpecModel.Specification.AddRule | src/org/eclipse/imp/formatting/editor/RuleTable.java:542 | `addRule(item)` appends |
| SpecModel.Specification.RemoveRuleAt | src/org/eclipse/imp/formatting/editor/RuleTable.java:523 | `removeRule(i)` removes index `i` |
| RuleEditing.FormattedBox | src/org/eclipse/imp/formatting/editor/RuleTable.java:479-493 | null or empty box text renders to "" without the binder or renderer; otherwise the result is the rendering of the bound text, and it fails exactly when the renderer reports messages, carrying the raw box text, and its message is the renderer's messages concatenated |
| RuleEditing.Classify | src/org/eclipse/imp/formatting/editor/RuleTable.java:421-472 | the edit cell shows the box string, or "\n" when it is null, and validation never changes the box string; the other outcomes are stated by the `Classify…` lemmas below |
| RuleEditing.ClassifyEmpty | src/org/eclipse/imp/formatting/editor/RuleTable.java:422-470 | "Empty box rule" exactly for a null box string; the edit cell shows "\n" and the rule is untouched |
| RuleEditing.ClassifyBoxSyntaxError | src/org/eclipse/imp/formatting/editor/RuleTable.java:429-467 | "Syntax error in box rule" exactly when the box parser fails, with its messages as tooltip, no preview and the rule untouched |
| RuleEditing.ClassifyRenderFailure | src/org/eclipse/imp/formatting/editor/RuleTable.java:431-437 | a render failure occurs only in recompute mode on non-empty box text whose rendering reports messages; its status shows those messages concatenated, its tooltip is the raw box text, and it returns before the preview or the rule changes |
| RuleEditing.ClassifyOkIffReparses | src/org/eclipse/imp/formatting/editor/RuleTable.java:449-463 | "Ok" exactly when the preview text re-parses, in both modes; only then is `patternAst` set, to that tree, and otherwise it is unchanged |
| RuleEditing.ClassifyReparseFailure | src/org/eclipse/imp/formatting/editor/RuleTable.java:451-457 | a failed re-parse reports "no parser" exactly when one message mentions "Unable to parse formatted text:", and a syntax error in the output otherwise |
| RuleEditing.ClassifyPatternString | src/org/eclipse/imp/formatting/editor/RuleTable.java:430-447 | validation never touches the box string; `patternString` changes only in recompute mode, to a non-empty rendering equal to the preview; without recompute the preview is the stored pattern or "" |
| RuleEditing.ClassifyRecomputeStores | src/org/eclipse/imp/formatting/editor/RuleTable.java:430-449 | in recompute mode a successful rendering becomes the preview and, when non-empty, the stored `patternString`; an empty rendering leaves `patternString` as it was |
| RuleEditing.EmptyBoxNotRendered | src/org/eclipse/imp/formatting/editor/RuleTable.java:480-492 | for empty box text the outcome does not depend on the binder or the renderer |
| RuleEditing.ClassifyIdempotent | src/org/eclipse/imp/formatting/editor/RuleTable.java:421-472 | validating twice in recompute mode with no edit in between gives the same row and the same rule |
| RuleEditing.MovedAsWritten | src/org/eclipse/imp/formatting/editor/RuleTable.java:495-515 | defines `move(diff)` as written: no change without an active rule or below index 0, a plain removal past the end, otherwise `ListOps.Moved`; `RuleEditing.MoveDownLosesLastRule` states the consequence |
| RuleEditing.MoveDownLosesLastRule | src/org/eclipse/imp/formatting/editor/RuleTable.java:503-507 | as written, moving the last rule down removes it from the list (see Findings) |
| RuleEditing.RuleTable.constructor | src/org/eclipse/imp/formatting/editor/RuleTable.java:85-87 | a new table has no active item and is clean |
| RuleEditing.RuleTable.SetDirty | src/org/eclipse/imp/formatting/editor/RuleTable.java:409-414 | sets the flag and notifies once when it changes and never otherwise |
| RuleEditing.RuleTable.UpdateRuleTableItem | src/org/eclipse/imp/formatting/editor/RuleTable.java:421-472 | the row and the rule's new fields are those `Classify` gives for the rule's old fields |
| RuleEditing.RuleTable.Refresh | src/org/eclipse/imp/formatting/editor/RuleTable.java:388-407 | every rule of the list is validated once without recompute |
| RuleEditing.RuleTable.SetModel | src/org/eclipse/imp/formatting/editor/RuleTable.java:89-92 | attaches the specification and validates each of its rules without recompute |
| RuleEditing.RuleTable.Select | src/org/eclipse/imp/formatting/editor/RuleTable.java:206-216 | a selected row's item becomes the active item; an empty selection changes nothing |
| RuleEditing.RuleTable.ModifyRule | src/org/eclipse/imp/formatting/editor/RuleTable.java:360-372 | the new box text is stored, the rule is validated with recompute, and the table becomes dirty |
| RuleEditing.RuleTable.ModifySeparator | src/org/eclipse/imp/formatting/editor/RuleTable.java:374-386 | the new label is stored and the table becomes dirty |
| RuleEditing.RuleTable.AddSeparator | src/org/eclipse/imp/formatting/editor/RuleTable.java:329-346 | a fresh separator is inserted before the active item and becomes active, or is appended without an active item; an active item no longer listed changes nothing; the dirty flag is never touched |
| RuleEditing.RuleTable.NewRule | src/org/eclipse/imp/formatting/editor/RuleTable.java:528-548 | a fresh rule is inserted before the active item (at 0 when that item is no longer listed) and becomes active, or is appended without one; the list stays free of duplicates and the table becomes dirty |
| RuleEditing.RuleTable.Move | src/org/eclipse/imp/formatting/editor/RuleTable.java:495-515 | corrected: an active rule moves to `cur + diff` when that index is in the list, as `ListOps.Moved`; it is validated again without recompute and the table becomes dirty; otherwise nothing changes |
| RuleEditing.RuleTable.DeleteRule | src/org/eclipse/imp/formatting/editor/RuleTable.java:517-526 | exactly the element at the active index is removed and the table becomes dirty; the active item is kept; without a listed active item nothing changes |
| OptionEditing.VerifyName | src/org/eclipse/imp/formatting/editor/SpaceOptionTable.java:200-214 | an edit at offset 0 is allowed exactly when it is '$' followed by letters (so not when empty); elsewhere exactly when it is all letters |
| OptionEditing.VerifyValue | src/org/eclipse/imp/formatting/editor/SpaceOptionTable.java:218-225 | an edit is allowed exactly when it is all digits, the empty edit included |
| OptionEditing.AcceptedValueMayNotParse | src/org/eclipse/imp/formatting/editor/SpaceOptionTable.java:190-225 | the value filter lets through "" and the digits of 2^31 ("2147483648"), which `Integer.parseInt` rejects |
| OptionEditing.AcceptedValueParses | src/org/eclipse/imp/formatting/editor/SpaceOptionTable.java:190 | a non-empty digit string within range commits its value |
| OptionEditing.Renamed | src/org/eclipse/imp/formatting/editor/SpaceOptionTable.java:329-334 | after a rename the new name holds the old name's value, or null when the old name was absent |
| OptionEditing.RenamedKeys | src/org/eclipse/imp/formatting/editor/SpaceOptionTable.java:329-334 | a rename drops the old key, adds the new one and keeps every other entry |
| OptionEditing.RenamedBack | src/org/eclipse/imp/formatting/editor/SpaceOptionTable.java:329-334 | renaming onto an unused name and back restores the map |
| OptionEditing.RenamedOverwrites | src/org/eclipse/imp/formatting/editor/SpaceOptionTable.java:329-334 | renaming onto a name in use loses that name's value: the map shrinks by one |
| OptionEditing.EditableTableItem.constructor | src/org/eclipse/imp/formatting/editor/SpaceOptionTable.java:315-319 | a row holds its specification, name and value |
| OptionEditing.EditableTableItem.SetName | src/org/eclipse/imp/formatting/editor/SpaceOptionTable.java:329-334 | the option map is renamed and the row takes the new name |
| OptionEditing.EditableTableItem.SetValue | src/org/eclipse/imp/formatting/editor/SpaceOptionTable.java:336-339 | only the entry under the row's name changes |
| OptionEditing.SpaceOptionTable.constructor | src/org/eclipse/imp/formatting/editor/SpaceOptionTable.java:64-67 | a new table is empty and clean |
| OptionEditing.SpaceOptionTable.SetDirty | src/org/eclipse/imp/formatting/editor/SpaceOptionTable.java:283-288 | sets the flag and notifies once when it changes and never otherwise |
| OptionEditing.NewRows | src/org/eclipse/imp/formatting/editor/SpaceOptionTable.java:272-276 | the loop of `refresh`: one fresh row per option with that option's value, every option covered, each name once |
| OptionEditing.SpaceOptionTable.Refresh | src/org/eclipse/imp/formatting/editor/SpaceOptionTable.java:267-281 | one fresh row per option, each name once, showing that option's value |
| OptionEditing.SpaceOptionTable.SetModel | src/org/eclipse/imp/formatting/editor/SpaceOptionTable.java:69-72 | attaches the specification and shows one row per option |
| OptionEditing.SpaceOptionTable.NewOption | src/org/eclipse/imp/formatting/editor/SpaceOptionTable.java:290-295 | "$exampleKey" is set to 1, overwriting, a row for it is appended, and the table becomes dirty |
| OptionEditing.SpaceOptionTable.DeleteOption | src/org/eclipse/imp/formatting/editor/SpaceOptionTable.java:297-304 | without an active row nothing changes; otherwise exactly its option is removed, its row removed, the active row cleared and the table made dirty |
| OptionEditing.SpaceOptionTable.Modify | src/org/eclipse/imp/formatting/editor/SpaceOptionTable.java:183-196 | a name edit renames the option; a value edit stores the parsed value or, when parsing fails, changes nothing; only a completed edit makes the table dirty |
| FormattingEditor.WordRun | src/org/eclipse/imp/formatting/editor/Editor.java:278 | the longest prefix of `[a-zA-Z0-9_]` characters |
| FormattingEditor.MatchAt | src/org/eclipse/imp/formatting/editor/Editor.java:278-282 | a group reported at a position is a non-empty word that follows `<language>` there; `FormattingEditor.MatchAtIff` states the converse |
| FormattingEditor.MatchAtIff | src/org/eclipse/imp/formatting/editor/Editor.java:278-282 | the group computed at a position is `name` exactly when `<language>name</language>` with a non-empty word `name` occurs there |
| FormattingEditor.MatchAtSound | src/org/eclipse/imp/formatting/editor/Editor.java:278-282 | a group the scanner reports at a position is the word between the tags of a match there |
| FormattingEditor.MatchAtComplete | src/org/eclipse/imp/formatting/editor/Editor.java:278-282 | every `<language>name</language>` occurrence with a word `name` is reported by the scanner with that group |
| FormattingEditor.FindLanguageTag | src/org/eclipse/imp/formatting/editor/Editor.java:279-282 | `Matcher.find`: the leftmost match, or none when no position matches |
| FormattingEditor.TagLanguages | src/org/eclipse/imp/formatting/editor/Editor.java:278-285 | at most one language is activated; none exactly when no position of the text holds a language tag, and otherwise the group of a tag found in the text |
| FormattingEditor.LanguageIdValidator | src/org/eclipse/imp/formatting/editor/Editor.java:306-310 | accepts exactly non-null non-empty text, and otherwise reports "Language ID must be non-empty" |
| FormattingEditor.AskUserForLanguage | src/org/eclipse/imp/formatting/editor/Editor.java:304-316 | the answer is non-empty exactly when the dialog is confirmed on validated text, which it then is; cancel gives "" |
| FormattingEditor.ChosenLanguage | src/org/eclipse/imp/formatting/editor/Editor.java:259-263 | without a discovered language the prompt's answer is used, which is non-empty exactly when the dialog is confirmed on non-empty text |
| FormattingEditor.LoadedContents | src/org/eclipse/imp/formatting/editor/Editor.java:246-302 | defines what the file contributes in each branch of `updateModelFromFile`; `FormattingEditor.UpdateModelFromFile` is proved against it |
| FormattingEditor.ValidatedValues | src/org/eclipse/imp/formatting/editor/RuleTable.java:388-407 | one value per loaded entry, in order: a rule entry gives the fields of its rule after one validation without recompute, a separator entry its label |
| FormattingEditor.ValuesOfValidated | src/org/eclipse/imp/formatting/editor/RuleTable.java:388-407 | items that hold their validated entries give exactly `ValidatedValues` to the transformer |
| FormattingEditor.UpdateModelFromFile | src/org/eclipse/imp/formatting/editor/Editor.java:246-302 | a fresh specification whose language, options, example, activations, dirty mark and one distinct rule-list item per entry are those of `LoadedContents`: an unreadable project or file gives the empty specification; an empty file gives a skeleton for the discovered or prompted language, dirty and activated exactly when that language is non-empty; otherwise the bundles of the leftmost language tag are activated and the loaded specification, or the empty one on a load error, is used |
| FormattingEditor.PreviewText | src/org/eclipse/imp/formatting/editor/Editor.java:358-362 | a formatted text exists only when the transformer, bound to the registry's language, produced a box document and that document parses |
| FormattingEditor.AfterReformat | src/org/eclipse/imp/formatting/editor/Editor.java:342-385 | defines the page after `reformatExample`; its properties are stated by the four `Reformat…` lemmas below |
| FormattingEditor.AfterExampleEdit | src/org/eclipse/imp/formatting/editor/Editor.java:151-162 | defines the state after the modify listener; `FormattingEditor.Editor.ExampleModified` is proved against it |
| FormattingEditor.ReformatFlagsParseErrors | src/org/eclipse/imp/formatting/editor/Editor.java:346-384 | the error colour shows exactly when the example does not parse, with the parser's messages as tooltip and nothing else changed; otherwise the tree is kept |
| FormattingEditor.ReformatRewritesOnlyOnSuccess | src/org/eclipse/imp/formatting/editor/Editor.java:350-378 | the page text changes only when every preview stage succeeds, to the formatted text followed by the tree's printed form; the example follows it and becomes modified; a failing stage leaves text and example as they were |
| FormattingEditor.ReformatKeepsExampleInStep | src/org/eclipse/imp/formatting/editor/Editor.java:364-367 | a reformat keeps the page text and the specification's example equal |
| FormattingEditor.ReformatActivation | src/org/eclipse/imp/formatting/editor/Editor.java:352-354 | a reformat activates at most the registry's language, and only after a successful parse |
| FormattingEditor.Editor.CreatePages | src/org/eclipse/imp/formatting/editor/Editor.java:189-208 | after opening, the specification's language and options are those of `LoadedContents`, its rule values are the loaded entries each validated once without recompute, both tables share it, the option page shows one row per option with its value, the page shows the loaded example after the modify listener and `AfterReformat`, and the editor is valid and clean; no rule or option row is active and neither table has notified |
| FormattingEditor.Editor.FinishPages | src/org/eclipse/imp/formatting/editor/Editor.java:203-207 | both tables take the specification and its rules are validated, so the rule values are `ValidatedValues` of the loaded entries, and the option page shows every option with its value; the specification's language and options are untouched; the empty example page takes the example through the modify listener and is reformatted with those values; with the example-modified flag cleared the editor is valid and not dirty; the active items and notification counters are untouched |
| FormattingEditor.Editor.AttachTables | src/org/eclipse/imp/formatting/editor/Editor.java:203-204 | both tables take the specification, the rule values become `ValidatedValues` of the loaded entries, the option page shows every option, and neither dirty flag changes; the active items and notification counters are untouched |
| FormattingEditor.Editor.AttachRules | src/org/eclipse/imp/formatting/editor/Editor.java:203 | the rule table takes the specification and every rule holds its loaded entry validated once without recompute, so the rule values are `ValidatedValues`; the table's flag, counter and active item are untouched |
| FormattingEditor.Editor.ShowExample | src/org/eclipse/imp/formatting/editor/Editor.java:205-207 | the empty page takes the example through the modify listener, is reformatted, and the example-modified flag ends cleared; rule values are untouched; the tables' flags, counters, active items and rule validity are untouched, and an option page that showed every option still does |
| FormattingEditor.Editor.ExampleModified | src/org/eclipse/imp/formatting/editor/Editor.java:151-162 | the page text becomes the example, the example is modified, and the tree is replaced only by a successful parse |
| FormattingEditor.Editor.EditExample | src/org/eclipse/imp/formatting/editor/Editor.java:151-163 | typing on the page updates the example and makes the editor dirty |
| FormattingEditor.Editor.ReformatExample | src/org/eclipse/imp/formatting/editor/Editor.java:342-385 | the page, the example and the activations change as `AfterReformat` says |
| FormattingEditor.Editor.UpdateExample | src/org/eclipse/imp/formatting/editor/Editor.java:178-187 | an empty page first takes the example through the listener, then the example is reformatted; page and example end equal when they started equal or the page was empty |
| FormattingEditor.IsReformatShortcut | src/org/eclipse/imp/formatting/editor/Editor.java:166 | defines the key test: Enter with the Command or Ctrl bit set; `FormattingEditor.Editor.KeyReleased` is stated with it |
| FormattingEditor.Editor.KeyReleased | src/org/eclipse/imp/formatting/editor/Editor.java:164-172 | Enter with Ctrl or Command reformats, and any other key changes nothing |
| FormattingEditor.Editor.PageChange | src/org/eclipse/imp/formatting/editor/Editor.java:450-464 | the option page refreshes its rows, the example page is updated, and the rule page changes nothing |
| FormattingEditor.Editor.MoveUp | src/org/eclipse/imp/formatting/editor/Editor.java:490-492 | as `move(-1)`: an active rule that is not first moves one place up, is validated again without recompute and the table becomes dirty, notifying once when it was clean; the active item is kept; otherwise the list, the flag, the counter and the active rule are unchanged |
| FormattingEditor.Editor.MoveDown | src/org/eclipse/imp/formatting/editor/Editor.java:494-496 | corrected: as `move(1)`, an active rule that is not last moves one place down, is validated again without recompute and the table becomes dirty, notifying once when it was clean; the active item is kept; otherwise the list, the flag, the counter and the active rule are unchanged |
| FormattingEditor.Editor.IsDirty | src/org/eclipse/imp/formatting/editor/Editor.java:466-468 | defines the editor as dirty when either table or the example is; `FormattingEditor.Editor.DoSave` and `FormattingEditor.Editor.EditExample` are stated with it |
| FormattingEditor.Editor.DoSave | src/org/eclipse/imp/formatting/editor/Editor.java:396-468 | after a successful write no flag is dirty and each table notifies once exactly when its flag was set; a failed write leaves all three flags and both counters unchanged |

## Left out

- Widgets are not modelled. This covers SWT tables, the cell painter, tooltip shells, the `TableEditor`, fonts and column packing. Colours are reduced to `Normal` and `ErrorColor`. Rule rows are returned as values and not stored.
- The listeners of the tables' property changes are a notification counter. The editor's own `firePropertyChange` is not modelled.
- `formatRule` (`RuleTable.java:550-570`) is left out. It runs an external formatting process, which is I/O.
- `addRuleFromExample` (`RuleTable.java:572-604`) is left out. It is an input-dialog flow.
- The editor's pure forwarders to the two tables are not modelled separately: `newRule`, `addSeparator`, `deleteRule`, `formatRule`, `addRuleFromExample`, `addOption` and `deleteOption`. `moveUp` and `moveDown` are modelled because they fix `diff`.
- `dispose`, `init`, `gotoMarker` and `resourceChanged` are left out. They are workbench plumbing and asynchronous UI dispatch.
- Bundle activation is recorded as the list of language names it was asked for. Whether a bundle exists, and deactivation, are not modelled.
- `Parser.setLanguage` (`Editor.java:267`) and any other state inside the parser are not modelled. The parser's message handler is reduced to the messages of the calls in one operation.
- After a failed `ModelFactory.open` the source leaves a null parser behind. The model keeps the same collaborators.
- File reading is the `Workspace` value. A null file text is taken as "". The write in `doSave` is the `writeSucceeds` parameter, and the `Unparser` output is not modelled.
- `BoxFactory.box2Text` returning null (`RuleTable.java:439`) is not modelled: a rendering is always a string.
- Character classes are ASCII only. `Character.isLetter`, `Character.isDigit` and `Integer.parseInt` also accept other Unicode letters and digits.
- The SWT `Text` is taken to send a modify event on every `setText` and `append` while the listener is attached.
- The value cell's `getValue` (`SpaceOptionTable.java:174-181`) throws on a null value. This is not modelled.
- OptionEditing.SpaceOptionTable.Refresh: the row order is left unspecified. It follows the map's iteration order, which the model does not fix.
- OptionEditing.SpaceOptionTable.DeleteOption: this is modelled as written. Nothing in `SpaceOptionTable.java` ever sets `activeOption` to a row, so in the program the operation always takes its no-op branch.
- RuleEditing.RuleTable.Move: this member states the corrected behaviour, with the upper bound checked. The code as written is `RuleEditing.MovedAsWritten` (see Findings).
- FormattingEditor.Editor.MoveDown: states the corrected guard it inherits from `RuleEditing.RuleTable.Move`. As written, moving the last rule down removes it (see Findings).

## Findings

| source | as written | input that shows it | evidently intended | confidence | as-written member | corrected member |
|---|---|---|---|---|---|---|
| src/org/eclipse/imp/formatting/editor/RuleTable.java:495-515 | `move(diff)` checks only `cur + diff >= 0`. It removes the rule and then calls `addRule(cur + diff, r)`, which throws when `cur + diff` is past the end of the shortened list. | the last of `n` rules is active and the user moves it down: `cur = n - 1`, `diff = 1`; the rule is removed and never re-inserted | move only when `0 <= cur + diff < n`, so that the rule list stays a permutation | not executed; assumes `Specification.addRule(int, Item)` has `List.add` bounds | RuleEditing.MovedAsWritten, RuleEditing.MoveDownLosesLastRule | RuleEditing.RuleTable.Move, ListOps.MovedProperties |
