# AutoCompleteComboBox suggestion logic and visual-tree navigation

A Dafny model of the two pieces of DotNetKit.Wpf.AutoCompleteComboBox that hold logic
of their own rather than toolkit glue.

**The combo box** (`auto_complete_combo_box.dfy`, module `Controls`). The user types
into an editable combo box. The control computes the query: the text without the part
it completed automatically, which is the selected range. It counts the items whose text
matches the query, up to a cap, and gives the items view a filter that keeps only
those items. It opens the drop-down when there are between two and the maximum number
of suggestions.

The model has two parts:
- Pure helpers: `TextWithoutAutocomplete`, `CountWithMax` and `GetFilter`.
- A class `AutoCompleteComboBox`. Its fields are the control's state: the text box
  text and selection, `previousText`, `revisionId`, the event depth, the default
  items filter, the items source, the view filter, `IsDropDownOpen`, `SelectedItem`,
  and the revision captured by the pending timer.

Each event handler is a method. Its postcondition gives the whole new state. That
state is stated through two relations: `SuggestionListUpdated` says what a
suggestion update does, and `SuggestionsReset` says what a reset does. Lemmas about
these relations give the idempotence of the update and the bounds on an opened list.

The WPF toolkit is reduced to what the control observes:
- Inside an event scope, assigning `Items.Filter`, opening the popup or changing the
  selection may rewrite the text box with any text and selection
  (`ToolkitRewritesTextBox`). Outside an event scope the toolkit leaves the text box
  alone.
- Assigning `Items.Filter` refreshes the view. A selected item that the view no
  longer shows is deselected (`ControlState.WithFilter`).
- The text-box state preserver's snapshot and restore then provably put the text and
  selection back.
- The debounce timer and the dispatcher hop become an explicit step,
  `TimerElapsed(id)`.

**The visual tree** (`visual_tree.dfy`, module `VisualTreeModule`). A finite tree of
nodes. Each node is a plain visual, a framework element or a panel, and carries a
name, a data-context identity and its ordered children. A node is designated by the
child indices leading to it from the root.

- `FindChild` is the queue-driven breadth-first search. It is proved to return the
  first named element in level order, and to return nothing exactly when no proper
  descendant has the name.
- `TryMoveToRow` climbs while the parent shares the child's data context, pushing
  indices. At the first parent whose context differs it shifts the index by `delta`,
  then descends by popping. It is split into its climb (`Climb`) and descent
  (`Descend`) loops. Focusing an element is modelled as returning the path of the
  element that receives focus.
- `TryMoveToColumn` moves to the sibling `delta` places away inside the parent panel.

`wrappers.dfy` holds the `Option` type that stands for a nullable reference.

## Model

| member | source | states |
|---|---|---|
| Controls.NextRevision | DotNetKit.Wpf.AutoCompleteComboBox/Windows/Controls/AutoCompleteComboBox.xaml.cs:271 | the unchecked `++revisionId` always yields a different stamp, one more than the old stamp modulo 2^64 (wrapping from the largest long to the smallest) |
| Controls.TextWithoutAutocomplete | DotNetKit.Wpf.AutoCompleteComboBox/Windows/Controls/AutoCompleteComboBox.xaml.cs:326-336 | with no selection the query is the text; otherwise it is `|text| - length` characters long, agrees with the text before the selection, and continues with the text after it |
| Controls.AutocompleteReinserted | DotNetKit.Wpf.AutoCompleteComboBox/Windows/Controls/AutoCompleteComboBox.xaml.cs:326-336 | inserting the selected range back into the query at the selection start gives the full text back |
| Controls.CountWithMax | DotNetKit.Wpf.AutoCompleteComboBox/Windows/Controls/AutoCompleteComboBox.xaml.cs:142-154 | the early-exit count is never more than the true number of matches; it equals it when that is at most `maxCount`; it is `maxCount + 1` when there are more and `maxCount >= 0`; for a negative cap it is 0 or 1; it exceeds the cap iff the true count does |
| Controls.CountIsFilteredLength | DotNetKit.Wpf.AutoCompleteComboBox/Windows/Controls/AutoCompleteComboBox.xaml.cs:232-233 | the number of matching items is the number of items the view shows under that filter |
| Controls.FilteredMembers | DotNetKit.Wpf.AutoCompleteComboBox/Windows/Controls/AutoCompleteComboBox.xaml.cs:168 | a filtered view shows an item iff the item is in the source and passes the filter |
| Controls.GetFilter | DotNetKit.Wpf.AutoCompleteComboBox/Windows/Controls/AutoCompleteComboBox.xaml.cs:338-345 | the composed filter accepts an item iff the setting's matcher accepts the query and the item's text, and also the default filter accepts the item when there is one |
| Controls.SuggestionsWithinDefaultView | DotNetKit.Wpf.AutoCompleteComboBox/Windows/Controls/AutoCompleteComboBox.xaml.cs:338-345 | the suggestions are exactly the items of the default view (in its order) whose text matches the query |
| Controls.UpdateIsIdempotent | DotNetKit.Wpf.AutoCompleteComboBox/Windows/Controls/AutoCompleteComboBox.xaml.cs:198-201 | after one update, a second update for the same query changes nothing |
| Controls.UpdatePreservesQuery | DotNetKit.Wpf.AutoCompleteComboBox/Windows/Controls/AutoCompleteComboBox.xaml.cs:219-243 | on the non-empty path the text box keeps a valid selection and the same query, `previousText` becomes that query, and the event depth is unchanged; the selected item stays selected iff the new suggestions show it, and is otherwise cleared |
| Controls.OpenedListSize | DotNetKit.Wpf.AutoCompleteComboBox/Windows/Controls/AutoCompleteComboBox.xaml.cs:230-241 | with a plain source, when an update opens a closed drop-down, the drop-down shows more than one and at most `MaxSuggestionCount` items, each a source item that passes the new filter |
| Controls.AutoCompleteComboBox.constructor | DotNetKit.Wpf.AutoCompleteComboBox/Windows/Controls/AutoCompleteComboBox.xaml.cs:114-115 | a new control has empty text, no previous query, revision 0, depth 0, no source or filter, a closed drop-down and no selection |
| Controls.AutoCompleteComboBox.TextBox | DotNetKit.Wpf.AutoCompleteComboBox/Windows/Controls/AutoCompleteComboBox.xaml.cs:132-139 | the preserver's snapshot of text and selection; it is a valid snapshot iff the control's selection lies in its text |
| Controls.AutoCompleteComboBox.Restore | DotNetKit.Wpf.AutoCompleteComboBox/Windows/Controls/AutoCompleteComboBox.xaml.cs:125-130 | disposing the preserver puts back exactly the recorded text and selection and touches no other field |
| Controls.AutoCompleteComboBox.ToolkitRewritesTextBox | DotNetKit.Wpf.AutoCompleteComboBox/Windows/Controls/AutoCompleteComboBox.xaml.cs:167-168 | inside an event scope the toolkit may leave any text with a selection inside it; outside one it changes nothing; it never changes another field |
| Controls.AutoCompleteComboBox.AssignItemsFilter | DotNetKit.Wpf.AutoCompleteComboBox/Windows/Controls/AutoCompleteComboBox.xaml.cs:165-168 | `Items.Filter` gets the new filter and a selected item the filtered view hides is deselected; apart from a possible rewrite of the text box, nothing else changes; outside an event scope the text box changes only through the deselection |
| Controls.AutoCompleteComboBox.OpenPopup | DotNetKit.Wpf.AutoCompleteComboBox/Windows/Controls/AutoCompleteComboBox.xaml.cs:177 | the drop-down is open; apart from a possible rewrite of the text box inside an event scope, nothing else changes |
| Controls.AutoCompleteComboBox.OnSelectionChanged | DotNetKit.Wpf.AutoCompleteComboBox/Windows/Controls/AutoCompleteComboBox.xaml.cs:188-194 | the base handler runs inside an event-depth scope, so the depth is back to its old value afterwards and only the text box may differ |
| Controls.AutoCompleteComboBox.SetSelectedItem | DotNetKit.Wpf.AutoCompleteComboBox/Windows/Controls/AutoCompleteComboBox.xaml.cs:207 | the selected item becomes the given one; re-assigning the current item leaves the text box as it was |
| Controls.AutoCompleteComboBox.BeginEventScope | DotNetKit.Wpf.AutoCompleteComboBox/Windows/Controls/AutoCompleteComboBox.xaml.cs:252-256 | the event-depth tracker's constructor raises the depth by one and changes nothing else |
| Controls.AutoCompleteComboBox.EndEventScope | DotNetKit.Wpf.AutoCompleteComboBox/Windows/Controls/AutoCompleteComboBox.xaml.cs:258-261 | disposing the tracker lowers the depth by one and changes nothing else |
| Controls.AutoCompleteComboBox.UpdateFilter | DotNetKit.Wpf.AutoCompleteComboBox/Windows/Controls/AutoCompleteComboBox.xaml.cs:162-170 | the view gets the filter (deselecting an item it hides) and, thanks to the preserver, text and selection are what they were; nothing else changes |
| Controls.AutoCompleteComboBox.OpenDropDownWith | DotNetKit.Wpf.AutoCompleteComboBox/Windows/Controls/AutoCompleteComboBox.xaml.cs:172-180 | the view gets the filter (deselecting an item it hides) and the drop-down is open, with text and selection preserved and nothing else changed |
| Controls.AutoCompleteComboBox.OpenDropDown | DotNetKit.Wpf.AutoCompleteComboBox/Windows/Controls/AutoCompleteComboBox.xaml.cs:182-186 | the view gets the suggestion filter of the query as it was before the call (deselecting an item it hides), and the drop-down is open; nothing else changes |
| Controls.AutoCompleteComboBox.ResetSuggestions | DotNetKit.Wpf.AutoCompleteComboBox/Windows/Controls/AutoCompleteComboBox.xaml.cs:203-212 | the drop-down is closed, no item is selected and the view has the default filter back; only the text box may also differ |
| Controls.AutoCompleteComboBox.UpdateSuggestionList | DotNetKit.Wpf.AutoCompleteComboBox/Windows/Controls/AutoCompleteComboBox.xaml.cs:196-244 | an unchanged query changes nothing; otherwise it is recorded; empty text resets the suggestions; other text gives the view the suggestion filter (deselecting an item it hides) and sets the drop-down open when the capped count of matches among the enumerated source is in (1, max], leaving it as it was otherwise; text, selection and depth are kept |
| Controls.AutoCompleteComboBox.ShowSuggestions | DotNetKit.Wpf.AutoCompleteComboBox/Windows/Controls/AutoCompleteComboBox.xaml.cs:219-243 | inside an event scope: the view gets the suggestion filter of the query, the drop-down is set open when the number of matches among the enumerated source is more than one and at most the maximum, and is left as it was otherwise; text, selection and depth come out as they went in |
| Controls.AutoCompleteComboBox.OnTextChanged | DotNetKit.Wpf.AutoCompleteComboBox/Windows/Controls/AutoCompleteComboBox.xaml.cs:266-294 | inside an event scope nothing changes; otherwise the revision advances; with no delay the suggestion update runs at once; with a delay only the revision and the pending timer's revision change |
| Controls.AutoCompleteComboBox.TimerElapsed | DotNetKit.Wpf.AutoCompleteComboBox/Windows/Controls/AutoCompleteComboBox.xaml.cs:282-289 | a timer whose revision is no longer current changes nothing; the current one runs the suggestion update |
| Controls.AutoCompleteComboBox.StaleTimerIsIgnored | DotNetKit.Wpf.AutoCompleteComboBox/Windows/Controls/AutoCompleteComboBox.xaml.cs:271-289 | after two text changes, the timer of the first fires without effect: only the revision (advanced twice) and the pending revision differ |
| Controls.AutoCompleteComboBox.PreviewKeyDown | DotNetKit.Wpf.AutoCompleteComboBox/Windows/Controls/AutoCompleteComboBox.xaml.cs:306-324 | the key is handled iff Control is held and the key is Space, and then the drop-down opens on the suggestions (an item they hide is deselected); otherwise a pressed key D0..Z, with at most Shift held and an empty query, resets the suggestions; any other key changes nothing |
| Controls.AutoCompleteComboBox.ItemsSourcePropertyChanged | DotNetKit.Wpf.AutoCompleteComboBox/Windows/Controls/AutoCompleteComboBox.xaml.cs:62-90 | a collection view's own filter becomes the default filter and the view filter, a plain enumerable or null gets none; the selection is kept iff the new view shows the item; the text box is untouched when the selection is kept; nothing else changes |
| VisualTreeModule.FindChild | DotNetKit.Wpf.AutoCompleteComboBox/Windows/Media/VisualTreeModule.cs:15-42 | null gives null; otherwise the result is the first element named `childName` in breadth-first order below the root, it is a proper descendant with that name, and it is null iff no proper descendant has the name |
| VisualTreeModule.FirstNamed | DotNetKit.Wpf.AutoCompleteComboBox/Windows/Media/VisualTreeModule.cs:29-35 | a node found by the name test is one of the visited nodes and is a framework element with that name |
| VisualTreeModule.FirstNamedIsFirst | DotNetKit.Wpf.AutoCompleteComboBox/Windows/Media/VisualTreeModule.cs:22-38 | nothing is found iff no visited node passes the test, and a found node is preceded only by nodes that fail it |
| VisualTreeModule.FirstNamedInForest | DotNetKit.Wpf.AutoCompleteComboBox/Windows/Media/VisualTreeModule.cs:19-41 | the first named node in level order is a named descendant, and there is none iff no descendant is named |
| VisualTreeModule.LevelOrderMembers | DotNetKit.Wpf.AutoCompleteComboBox/Windows/Media/VisualTreeModule.cs:22-38 | the breadth-first order lists exactly the nodes of the forest below the root |
| VisualTreeModule.LevelOrderShift | DotNetKit.Wpf.AutoCompleteComboBox/Windows/Media/VisualTreeModule.cs:22-38 | dequeuing a prefix of a level and enqueuing its children behind the rest of the queue keeps the breadth-first order |
| VisualTreeModule.BreadthFirstStep | DotNetKit.Wpf.AutoCompleteComboBox/Windows/Media/VisualTreeModule.cs:24-38 | dequeuing the front node and enqueuing its children: the nodes still to test are its children followed by the order of the new queue's next levels |
| VisualTreeModule.NextChild | DotNetKit.Wpf.AutoCompleteComboBox/Windows/Media/VisualTreeModule.cs:27-37 | each child is tested in index order before everything behind it, and is enqueued when it fails |
| VisualTreeModule.Chain | DotNetKit.Wpf.AutoCompleteComboBox/Windows/Media/VisualTreeModule.cs:52 | the ancestors reached by repeated GetParent, root first, ending in the source node |
| VisualTreeModule.ChainStep | DotNetKit.Wpf.AutoCompleteComboBox/Windows/Media/VisualTreeModule.cs:52-59 | each ancestor is the parent of the next, which sits at the path's index among its children |
| VisualTreeModule.TryMoveToColumn | DotNetKit.Wpf.AutoCompleteComboBox/Windows/Media/VisualTreeModule.cs:90-99 | never throws; a non-element or parentless source is refused; the move succeeds iff the source is an element, its parent is a panel and `idx + delta` is a valid child index, and the target is the sibling at `idx + delta` |
| VisualTreeModule.ColumnTargetInTree | DotNetKit.Wpf.AutoCompleteComboBox/Windows/Media/VisualTreeModule.cs:94-97 | the focused node is the parent's child at `idx + delta` |
| VisualTreeModule.ColumnMoveReturns | DotNetKit.Wpf.AutoCompleteComboBox/Windows/Media/VisualTreeModule.cs:90-99 | from an element sibling reached by `delta`, moving by `-delta` focuses the source again |
| VisualTreeModule.ContextBoundary | DotNetKit.Wpf.AutoCompleteComboBox/Windows/Media/VisualTreeModule.cs:66-71 | where the climb stops: a level below the root whose node has another data context than its parent |
| VisualTreeModule.BoundaryIsDeepest | DotNetKit.Wpf.AutoCompleteComboBox/Windows/Media/VisualTreeModule.cs:66-71 | every node below the boundary shares its parent's data context, and so does every node when there is no boundary |
| VisualTreeModule.Shifted | DotNetKit.Wpf.AutoCompleteComboBox/Windows/Media/VisualTreeModule.cs:73-75 | the source path with only the index at the boundary moved by `delta` |
| VisualTreeModule.TryMoveToRow | DotNetKit.Wpf.AutoCompleteComboBox/Windows/Media/VisualTreeModule.cs:44-88 | refuses a non-element source, a climb reaching the root, a blocking parent (not an element, or several children and not a panel) and a shifted index outside the boundary parent; a success focuses the shifted path, which is in the tree and reaches an element through elements only; a fault means the popped indices leave the tree; when every popped step reaches an element the move succeeds |
| VisualTreeModule.MoveInChain | DotNetKit.Wpf.AutoCompleteComboBox/Windows/Media/VisualTreeModule.cs:46-87 | the same outcome stated over the ancestor chain of the source |
| VisualTreeModule.Climb | DotNetKit.Wpf.AutoCompleteComboBox/Windows/Media/VisualTreeModule.cs:50-77 | it succeeds iff there is a context boundary, every parent up to it lets the climb pass and the shifted index fits; then the stack holds the shifted index on top of the source indices below it |
| VisualTreeModule.ClimbBlocked | DotNetKit.Wpf.AutoCompleteComboBox/Windows/Media/VisualTreeModule.cs:52-58 | a parent the climb cannot pass, met at or below the boundary, makes the move fail |
| VisualTreeModule.Descend | DotNetKit.Wpf.AutoCompleteComboBox/Windows/Media/VisualTreeModule.cs:79-84 | popping succeeds iff every node reached is a framework element, and then it reaches the end of the popped path; it faults only when an index has no child |
| VisualTreeModule.FirstStepOutside | DotNetKit.Wpf.AutoCompleteComboBox/Windows/Media/VisualTreeModule.cs:73-74 | a shifted index outside the parent's children reaches no node |
| VisualTreeModule.ElementsBelowEnd | DotNetKit.Wpf.AutoCompleteComboBox/Windows/Media/VisualTreeModule.cs:82-86 | when every popped step reaches an element, the node focused at the end is an element |
| VisualTreeModule.RowTargetFromRoot | DotNetKit.Wpf.AutoCompleteComboBox/Windows/Media/VisualTreeModule.cs:79-86 | the node the descent reaches from the boundary parent is the node the shifted path reaches from the root |

## Left out

- The dependency-property and binding machinery is not modelled: property registration, the `TextFromItem` binding evaluation, `CollectionViewSource` and `Items.DeferRefresh`. Item text is the given function `textOf`, and the resulting field values are assigned directly.
- The `Timer`, `Dispatcher.InvokeAsync` and `SerialDisposable` are not modelled. The timer of the latest text change is the field `pendingRevision`, and its callback on the dispatcher is the explicit step `TimerElapsed(id)`. Real time, cancellation of the previous timer and thread interleaving are not modelled.
- The setting (`SettingOrDefault`) is a constant of the control: the matcher, `MaxSuggestionCount` and `Delay` (in ticks). The setting's own matcher is not part of this model, and reassigning `Setting` at run time is not modelled.
- The text box is always taken to exist: the lookup of the editable text box and its failure are not modelled.
- ToolkitRewritesTextBox: the effect of the toolkit on the text box is not modelled precisely. Inside an event scope, assigning `Items.Filter`, opening the popup or changing the selection may leave any text with any selection inside it.
- ToolkitRewritesTextBox: outside an event scope (event depth 0) the toolkit is assumed to leave the text box alone. In the control, assigning `Items.Filter` can empty the text box at depth 0 as well. That rewrite raises TextChanged, which reaches OnTextChanged, advances the revision and can run a nested suggestion update. Such a nested update takes the empty-text path and clears the selected item. The model does not capture this re-entry.
- PreviewKeyDown, OpenDropDown, OpenDropDownWith, UpdateFilter: on the Ctrl+Space path the filter assignment and the preserver's restore run at depth 0. The TextChanged they can raise, and the nested OnTextChanged with its revision advance, are dropped. The contracts state that the revision, `previousText` and the pending revision are unchanged, which holds only under the toolkit assumption above.
- ResetSuggestions, UpdateSuggestionList: the key reset and the empty-text reset assign `Items.Filter` at depth 0. The TextChanged a rewrite there would raise is dropped in the same way.
- Restore: reassigning the text at depth 0 raises TextChanged when the text differs. That happens when a deselection (through OnSelectionChanged) changed the text before a depth-0 restore, and the nested OnTextChanged is not modelled. Inside an event scope the notification is ignored, as modelled.
- TextChanged notifications are modelled as ignored only where the event depth is positive: inside `OnSelectionChanged` and inside the non-empty branch of the suggestion update (`ShowSuggestions`).
- ItemsSourcePropertyChanged: a selection change raised by the toolkit when the source is replaced is not modelled. The text box is rewritten only when the selected item actually changes.
- ItemsSourcePropertyChanged: null items, and item equality other than Dafny equality, are not modelled.
- The suggestion count enumerates the `ItemsSource` value the user assigned. For a collection view, that enumeration honours the view's filter at that moment, which is the previous suggestion filter. The model keeps this: `ControlState.Enumerated` filters a view source by the current `itemsFilter`.
- Not modelled, because they have no effect: the empty `Unselect`, the `Debug.WriteLine` calls, the branch guarded by `false &&`, and the commented-out code.
- Real focus, layout and rendering are not modelled. A successful move returns the path of the node that `Focus()` is called on.
- TryMoveToColumn: `child.Parent` (the logical parent) is taken to be the parent in the tree, and `Panel.Children` to be the node's children in order.
- TryMoveToRow: `Panel.Children.IndexOf(child)` is taken to be the child's position in the path.
- Data-context identity is an integer; reference equality of arbitrary objects is not modelled.
- CountWithMax: the count is an unbounded integer. The C# `int` counter could wrap only when there are more than 2^31 - 1 matches and `maxCount` is `int.MaxValue`, which is not modelled.
- PreviewKeyDown: `Keyboard.Modifiers` and the key are parameters; only the keys and modifier values the handler compares against are defined.
- One `text` field stands for both `ComboBox.Text` (read by the empty-text test and by TextWithoutAutocomplete) and the editable text box's `Text` (whose selection TextWithoutAutocomplete uses and which the preserver saves and restores). The model takes the two as always equal; their synchronisation by the toolkit is not modelled.
- GetFilter: the composed filter captures the default filter's value when it is built, whereas the C# lambda reads `_defaultItemsFilter` each time it runs. In the model every change of the default filter also replaces the view filter, so no filter built for an older default stays in use.
- ItemsSourcePropertyChanged: a collection view's filter is modelled as an independent value. The view object shared with the caller is not modelled, and `Items.Filter` writes into that object. Re-assigning a view the control already filtered is therefore not captured: the control then stores its own composed filter as the new default, which may call itself without end or keep a stale query filter as the default.
