/** The suggestion logic of AutoCompleteComboBox: the pure helpers that compute the
    query, count the matches and compose the item filter, and the control itself as
    a class whose fields are the state its event handlers update. The WPF toolkit
    around it is reduced to the values it holds: the text box is a string with a
    selection, the items view is a sequence with an optional filter, the timer and
    the dispatcher become an explicit fire step. */
module Controls {
  import opened Wrappers

  // ---------------------------------------------------------------------------
  // Revision stamps: a C# long incremented in an unchecked context

  const MinLong: int := -0x8000_0000_0000_0000
  const MaxLong: int := 0x7FFF_FFFF_FFFF_FFFF

  type Long = x: int | MinLong <= x <= MaxLong

  /** `unchecked(++revisionId)`: the next stamp, wrapping from the largest long to the
      smallest. */
  function NextRevision(id: Long): (r: Long)
    ensures r != id
    ensures (r - id) % 0x1_0000_0000_0000_0000 == 1
  {
    if id == MaxLong then MinLong else id + 1
  }

  // ---------------------------------------------------------------------------
  // Keys (System.Windows.Input.Key and ModifierKeys values)

  const KeySpace: int := 18
  const KeyD0: int := 34
  const KeyZ: int := 69

  const ModifierNone: bv32 := 0
  const ModifierControl: bv32 := 2
  const ModifierShift: bv32 := 4

  // ---------------------------------------------------------------------------
  // The query: the text without the autocompleted selection

  /** The selection lies inside the text, as a text box keeps it. */
  predicate SelectionFits(text: string, start: int, length: int) {
    0 <= start && 0 <= length && start + length <= |text|
  }

  /** The text the user typed: the text box's text with the selected range (the part
      the combo box completed automatically) removed. */
  function TextWithoutAutocomplete(text: string, start: int, length: int): (r: string)
    requires SelectionFits(text, start, length)
    ensures length == 0 ==> r == text
    ensures |r| == |text| - length
    ensures r[..start] == text[..start] && r[start..] == text[start + length..]
  {
    if length == 0 then text else text[..start] + text[start + length..]
  }

  /** Putting the selected range back into the query gives the text again. */
  lemma AutocompleteReinserted(text: string, start: int, length: int)
    requires SelectionFits(text, start, length)
    ensures var query := TextWithoutAutocomplete(text, start, length);
            query[..start] + text[start..start + length] + query[start..] == text
  {
    var query := TextWithoutAutocomplete(text, start, length);
    assert text == text[..start] + text[start..start + length] + text[start + length..];
  }

  // ---------------------------------------------------------------------------
  // Counting and filtering items

  /** The number of elements of `xs` that pass `p`. */
  function Count<T>(xs: seq<T>, p: T -> bool): (n: nat)
    ensures n <= |xs|
  {
    if xs == [] then 0
    else Count(xs[..|xs| - 1], p) + (if p(xs[|xs| - 1]) then 1 else 0)
  }

  /** The elements of `xs` that pass `p`, in order: what a collection view with filter
      `p` shows. */
  function Filtered<T>(xs: seq<T>, p: T -> bool): (r: seq<T>)
    ensures |r| <= |xs|
  {
    if xs == [] then []
    else Filtered(xs[..|xs| - 1], p) + (if p(xs[|xs| - 1]) then [xs[|xs| - 1]] else [])
  }

  /** What a view shows under an optional filter (a null filter shows everything). */
  function ViewItems<T>(xs: seq<T>, filter: Option<T -> bool>): seq<T> {
    if filter.None? then xs else Filtered(xs, filter.value)
  }

  /** The view shows exactly the source elements that pass the filter. */
  lemma {:induction false} FilteredMembers<T>(xs: seq<T>, p: T -> bool, x: T)
    ensures x in Filtered(xs, p) <==> x in xs && p(x)
  {
    if xs != [] {
      var init := xs[..|xs| - 1];
      FilteredMembers(init, p, x);
      assert xs == init + [xs[|xs| - 1]];
    }
  }

  /** Counting the matches is measuring the filtered view. */
  lemma {:induction false} CountIsFilteredLength<T>(xs: seq<T>, p: T -> bool)
    ensures Count(xs, p) == |Filtered(xs, p)|
  {
    if xs != [] {
      CountIsFilteredLength(xs[..|xs| - 1], p);
    }
  }

  /** Counting over a prefix never gives more. */
  lemma {:induction false} CountPrefix<T>(xs: seq<T>, p: T -> bool, i: int)
    requires 0 <= i <= |xs|
    ensures Count(xs[..i], p) <= Count(xs, p)
    decreases |xs|
  {
    if i < |xs| {
      assert xs[..|xs| - 1][..i] == xs[..i];
      CountPrefix(xs[..|xs| - 1], p, i);
    } else {
      assert xs[..i] == xs;
    }
  }

  /** Filtering twice is filtering by the conjunction. */
  lemma {:induction false} FilteredTwice<T>(xs: seq<T>, p: T -> bool, q: T -> bool, both: T -> bool)
    requires forall x :: both(x) <==> p(x) && q(x)
    ensures Filtered(xs, both) == Filtered(Filtered(xs, p), q)
  {
    if xs != [] {
      var init := xs[..|xs| - 1];
      var last := xs[|xs| - 1];
      FilteredTwice(init, p, q, both);
      var inner := Filtered(xs, p);
      if p(last) {
        assert inner == Filtered(init, p) + [last];
        assert inner[..|inner| - 1] == Filtered(init, p) && inner[|inner| - 1] == last;
        assert Filtered(inner, q) == Filtered(Filtered(init, p), q) + (if q(last) then [last] else []);
      } else {
        assert !both(last);
        assert inner == Filtered(init, p) + [] == Filtered(init, p);
        assert Filtered(xs, both) == Filtered(init, both) + [] == Filtered(init, both);
      }
    }
  }

  /** Count the elements that pass `predicate`, giving up as soon as the count exceeds
      `maxCount`: the result is the true count while that is at most `maxCount`, and
      `maxCount + 1` (or 1 when `maxCount` is negative) once it is more. */
  method CountWithMax<T>(xs: seq<T>, p: T -> bool, maxCount: int) returns (count: int)
    ensures 0 <= count <= Count(xs, p)
    ensures Count(xs, p) <= maxCount ==> count == Count(xs, p)
    ensures maxCount >= 0 && Count(xs, p) > maxCount ==> count == maxCount + 1
    ensures maxCount < 0 ==> count == if Count(xs, p) == 0 then 0 else 1
    ensures count > maxCount <==> Count(xs, p) > maxCount
  {
    count := 0;
    var i := 0;
    while i < |xs|
      invariant 0 <= i <= |xs|
      invariant count == Count(xs[..i], p)
      invariant count <= maxCount || count == 0
    {
      assert xs[..i + 1][..i] == xs[..i];
      if p(xs[i]) {
        count := count + 1;
        if count > maxCount {
          CountPrefix(xs, p, i + 1);
          return count;
        }
      }
      i := i + 1;
    }
    assert xs[..i] == xs;
  }

  // ---------------------------------------------------------------------------
  // The suggestion filter

  /** What the setting provides: the cap on suggestions, the debounce delay (in
      ticks; zero or less updates at once) and the matcher between a query and an
      item's text. */
  datatype Setting = Setting(maxSuggestionCount: int, delay: int, matches: (string, string) -> bool)

  /** The filter of the suggestions for `query`: the setting's matcher on the item's
      text, and also the default filter of the source when it has one. */
  function GetFilter<Item(!new)>(query: string, defaultFilter: Option<Item -> bool>, setting: Setting,
                           textOf: Item -> string): (f: Item -> bool)
    ensures forall i :: f(i) <==> (defaultFilter.Some? ==> defaultFilter.value(i)) && setting.matches(query, textOf(i))
  {
    var filter := (i: Item) => setting.matches(query, textOf(i));
    if defaultFilter.Some? then
      var d := defaultFilter.value;
      (i: Item) => d(i) && filter(i)
    else filter
  }

  /** The suggestions for `query` are the items the default view shows whose text
      matches the query. */
  lemma SuggestionsWithinDefaultView<Item(!new)>(xs: seq<Item>, query: string, defaultFilter: Option<Item -> bool>,
                                           setting: Setting, textOf: Item -> string)
    ensures ViewItems(xs, Some(GetFilter(query, defaultFilter, setting, textOf))) ==
            Filtered(ViewItems(xs, defaultFilter), (i: Item) => setting.matches(query, textOf(i)))
  {
    var f := GetFilter(query, defaultFilter, setting, textOf);
    var m := (i: Item) => setting.matches(query, textOf(i));
    if defaultFilter.Some? {
      FilteredTwice(xs, defaultFilter.value, m, f);
    } else {
      FilteredTwice(xs, (i: Item) => true, m, f);
      TrueFilterKeepsAll(xs);
    }
  }

  lemma {:induction false} TrueFilterKeepsAll<T>(xs: seq<T>)
    ensures Filtered(xs, (x: T) => true) == xs
  {
    if xs != [] {
      TrueFilterKeepsAll(xs[..|xs| - 1]);
    }
  }

  // ---------------------------------------------------------------------------
  // The control's state

  /** The text box as the state preserver records it. */
  datatype TextBoxState = TextBoxState(text: string, selectionStart: int, selectionLength: int)
  {
    predicate Fits() { SelectionFits(text, selectionStart, selectionLength) }
  }

  /** What the AutoCompleteComboBox.ItemsSource property holds: nothing, a plain
      enumerable, or a collection view (whose enumeration honours the view's filter,
      which is the Items.Filter of the control). */
  datatype Source<Item> = NoSource | Plain(items: seq<Item>) | View(items: seq<Item>)

  /** A value assigned to ItemsSource: null, a plain enumerable, or a collection view
      with the filter it carries. */
  datatype SourceValue<!Item> = Null | Enumerable(items: seq<Item>) | CollectionView(items: seq<Item>, filter: Option<Item -> bool>)

  /** A snapshot of every field of the control. */
  datatype ControlState<!Item> = ControlState(
    text: string,
    selectionStart: int,
    selectionLength: int,
    previousText: Option<string>,
    revisionId: Long,
    eventDepth: int,
    defaultItemsFilter: Option<Item -> bool>,
    source: Source<Item>,
    itemsFilter: Option<Item -> bool>,
    isDropDownOpen: bool,
    selectedItem: Option<Item>,
    pendingRevision: Option<Long>)
  {
    predicate Valid() {
      SelectionFits(text, selectionStart, selectionLength)
    }

    function Query(): string
      requires Valid()
    {
      TextWithoutAutocomplete(text, selectionStart, selectionLength)
    }

    /** The items the suggestion count enumerates: `ItemsSource?.Cast<object>() ?? []`. */
    function Enumerated(): seq<Item> {
      match source
      case NoSource => []
      case Plain(xs) => xs
      case View(xs) => ViewItems(xs, itemsFilter)
    }

    /** The items the drop-down shows. */
    function Shown(): seq<Item> {
      match source
      case NoSource => []
      case Plain(xs) => ViewItems(xs, itemsFilter)
      case View(xs) => ViewItems(xs, itemsFilter)
    }

    /** The view refreshed with `filter`: a selected item the view no longer shows
        is deselected. */
    ghost function WithFilter(filter: Option<Item -> bool>): ControlState<Item> {
      var t := this.(itemsFilter := filter);
      t.(selectedItem := if selectedItem.Some? && selectedItem.value in t.Shown() then selectedItem else None)
    }
  }

  /** The reset of the empty-text path and of the key handler: the drop-down closes,
      the selection is cleared and the view gets the default filter back. The text box
      may be rewritten by the toolkit meanwhile; nothing else changes. */
  ghost predicate SuggestionsReset<Item>(s: ControlState<Item>, t: ControlState<Item>) {
    t.Valid() &&
    t == s.(isDropDownOpen := false, selectedItem := None, itemsFilter := s.defaultItemsFilter,
            text := t.text, selectionStart := t.selectionStart, selectionLength := t.selectionLength)
  }

  /** The effect of UpdateSuggestionList from state `s` to state `t`. */
  ghost predicate SuggestionListUpdated<Item(!new)>(setting: Setting, textOf: Item -> string,
                                              s: ControlState<Item>, t: ControlState<Item>)
    requires s.Valid()
  {
    var query := s.Query();
    if s.previousText == Some(query) then t == s
    else
      var s' := s.(previousText := Some(query));
      if s.text == [] then SuggestionsReset(s', t)
      else
        var filter := GetFilter(query, s.defaultItemsFilter, setting, textOf);
        var count := Count(s.Enumerated(), filter);
        t == s'.WithFilter(Some(filter)).(isDropDownOpen := s.isDropDownOpen ||
                                                          (1 < count && count <= setting.maxSuggestionCount))
  }

  /** Once the list is updated for a query, updating again for the same query changes
      nothing. */
  lemma UpdateIsIdempotent<Item(!new)>(setting: Setting, textOf: Item -> string,
                                 s: ControlState<Item>, t: ControlState<Item>, u: ControlState<Item>)
    requires s.Valid() && SuggestionListUpdated(setting, textOf, s, t)
    requires t.Valid() && t.Query() == s.Query()
    requires SuggestionListUpdated(setting, textOf, t, u)
    ensures u == t
  {
  }

  /** On the non-empty path the text box is left as it was, so the query is the same
      afterwards and a second update is a no-op; the selected item stays selected
      exactly when the suggestions still show it. */
  lemma UpdatePreservesQuery<Item(!new)>(setting: Setting, textOf: Item -> string,
                                   s: ControlState<Item>, t: ControlState<Item>)
    requires s.Valid() && SuggestionListUpdated(setting, textOf, s, t) && s.text != []
    ensures t.Valid() && t.Query() == s.Query() && t.previousText == Some(s.Query())
    ensures t.eventDepth == s.eventDepth
    ensures t.selectedItem.Some? ==> t.selectedItem == s.selectedItem
    ensures s.previousText != Some(s.Query()) && t.selectedItem.Some? ==> t.selectedItem.value in t.Shown()
    ensures s.selectedItem.Some? && s.selectedItem.value in t.Shown() ==> t.selectedItem == s.selectedItem
  {
    if s.previousText == Some(s.Query()) {
      return;
    }
    var filter := GetFilter(s.Query(), s.defaultItemsFilter, setting, textOf);
    var refreshed := s.(previousText := Some(s.Query()), itemsFilter := Some(filter));
    assert t.source == refreshed.source && t.itemsFilter == refreshed.itemsFilter;
    assert t.Shown() == refreshed.Shown();
  }

  /** With a plain source the drop-down, when the update opens it, shows between two
      and the maximum number of suggestions, all of them items matching the query. */
  lemma OpenedListSize<Item(!new)>(setting: Setting, textOf: Item -> string,
                             s: ControlState<Item>, t: ControlState<Item>)
    requires s.Valid() && SuggestionListUpdated(setting, textOf, s, t)
    requires s.source.Plain? && s.previousText != Some(s.Query()) && s.text != [] && !s.isDropDownOpen
    requires t.isDropDownOpen
    ensures 1 < |t.Shown()| <= setting.maxSuggestionCount
    ensures forall i :: i in t.Shown() ==> i in s.source.items && t.itemsFilter.value(i)
  {
    var filter := t.itemsFilter.value;
    CountIsFilteredLength(s.source.items, filter);
    forall i | i in t.Shown() ensures i in s.source.items && filter(i) {
      FilteredMembers(s.source.items, filter, i);
    }
  }

  // ---------------------------------------------------------------------------
  // The control

  class AutoCompleteComboBox<Item(==, !new)> {
    /** SettingOrDefault. */
    const setting: Setting
    /** TextFromItem. */
    const textOf: Item -> string

    var text: string
    var selectionStart: int
    var selectionLength: int
    var previousText: Option<string>
    var revisionId: Long
    var eventDepth: int
    var defaultItemsFilter: Option<Item -> bool>
    var source: Source<Item>
    var itemsFilter: Option<Item -> bool>
    var isDropDownOpen: bool
    var selectedItem: Option<Item>
    /** The id captured by the timer last scheduled (the SerialDisposable's content). */
    var pendingRevision: Option<Long>

    function State(): ControlState<Item>
      reads this
    {
      ControlState(text, selectionStart, selectionLength, previousText, revisionId, eventDepth,
                   defaultItemsFilter, source, itemsFilter, isDropDownOpen, selectedItem, pendingRevision)
    }

    ghost predicate Valid()
      reads this
    {
      State().Valid()
    }

    function TextBox(): (r: TextBoxState)
      reads this
      ensures r.Fits() <==> Valid()
    {
      TextBoxState(text, selectionStart, selectionLength)
    }

    function Query(): string
      reads this
      requires Valid()
    {
      State().Query()
    }

    constructor(setting: Setting, textOf: Item -> string)
      ensures Valid()
      ensures this.setting == setting && this.textOf == textOf
      ensures State() == ControlState("", 0, 0, None, 0, 0, None, NoSource, None, false, None, None)
    {
      this.setting := setting;
      this.textOf := textOf;
      text, selectionStart, selectionLength := "", 0, 0;
      previousText := None;
      revisionId := 0;
      eventDepth := 0;
      defaultItemsFilter := None;
      source := NoSource;
      itemsFilter := None;
      isDropDownOpen := false;
      selectedItem := None;
      pendingRevision := None;
    }

    // -- The toolkit -----------------------------------------------------------

    /** The text box as the toolkit may leave it after a change to the items view, to
        the popup or to the selection: any text with a selection inside it. The toolkit
        rewrites it only inside an event scope, where the TextChanged it raises is
        ignored; outside one it leaves the text box alone. */
    method ToolkitRewritesTextBox()
      modifies this
      requires Valid()
      ensures Valid()
      ensures State() == old(State()).(text := text, selectionStart := selectionStart, selectionLength := selectionLength)
      ensures old(eventDepth) <= 0 ==> State() == old(State())
    {
      if eventDepth > 0 {
        var t: string, start: int, length: int :| SelectionFits(t, start, length);
        text, selectionStart, selectionLength := t, start, length;
      }
    }

    /** `Items.Filter = filter`: the view refreshes, and a selected item it no longer
        shows is deselected (through OnSelectionChanged). */
    method AssignItemsFilter(filter: Option<Item -> bool>)
      modifies this
      requires Valid()
      ensures Valid()
      ensures State() == old(State()).WithFilter(filter).(text := text, selectionStart := selectionStart,
                                                          selectionLength := selectionLength)
      ensures old(eventDepth) <= 0 && selectedItem == old(selectedItem) ==> TextBox() == old(TextBox())
    {
      itemsFilter := filter;
      ToolkitRewritesTextBox();
      if selectedItem.Some? && selectedItem.value !in State().Shown() {
        SetSelectedItem(None);
      }
    }

    /** `IsDropDownOpen = true`. */
    method OpenPopup()
      modifies this
      requires Valid()
      ensures Valid()
      ensures State() == old(State()).(isDropDownOpen := true, text := text, selectionStart := selectionStart,
                                       selectionLength := selectionLength)
      ensures old(eventDepth) <= 0 ==> TextBox() == old(TextBox())
    {
      isDropDownOpen := true;
      ToolkitRewritesTextBox();
    }

    /** The base OnSelectionChanged as far as this control sees it: the toolkit
        rewrites the text box, and the TextChanged that follows reaches
        OnTextChanged while the event depth is positive. */
    method OnSelectionChanged()
      modifies this
      requires Valid()
      ensures Valid()
      ensures State() == old(State()).(text := text, selectionStart := selectionStart, selectionLength := selectionLength)
    {
      BeginEventScope();
      ToolkitRewritesTextBox();
      EndEventScope();
    }

    /** `SelectedItem = item`, raising SelectionChanged when it changes. */
    method SetSelectedItem(item: Option<Item>)
      modifies this
      requires Valid()
      ensures Valid()
      ensures State() == old(State()).(selectedItem := item, text := text, selectionStart := selectionStart,
                                       selectionLength := selectionLength)
      ensures item == old(selectedItem) ==> TextBox() == old(TextBox())
    {
      if item != selectedItem {
        selectedItem := item;
        OnSelectionChanged();
      }
    }

    // -- Scope guards ----------------------------------------------------------

    /** `new EventDepthTracker(this)`: entering a scope in which text changes are
        ignored. */
    method BeginEventScope()
      modifies this
      ensures State() == old(State()).(eventDepth := old(eventDepth) + 1)
    {
      eventDepth := eventDepth + 1;
    }

    /** EventDepthTracker.Dispose. */
    method EndEventScope()
      modifies this
      ensures State() == old(State()).(eventDepth := old(eventDepth) - 1)
    {
      eventDepth := eventDepth - 1;
    }

    /** TextBoxStatePreserver.Dispose: put back the recorded text and selection. */
    method Restore(saved: TextBoxState)
      modifies this
      requires saved.Fits()
      ensures Valid() && TextBox() == saved
      ensures State() == old(State()).(text := saved.text, selectionStart := saved.selectionStart,
                                       selectionLength := saved.selectionLength)
    {
      text := saved.text;
      selectionStart, selectionLength := saved.selectionStart, saved.selectionLength;
    }

    // -- Filter helpers --------------------------------------------------------

    /** GetFilter for the current query and default filter. */
    function CurrentFilter(): Item -> bool
      reads this
      requires Valid()
    {
      GetFilter(Query(), defaultItemsFilter, setting, textOf)
    }

    /** Give the view `filter`, keeping the text box as it was. */
    method UpdateFilter(filter: Item -> bool)
      modifies this
      requires Valid()
      ensures Valid()
      ensures State() == old(State()).WithFilter(Some(filter))
    {
      var saved := TextBox();
      AssignItemsFilter(Some(filter));
      Restore(saved);
    }

    /** OpenDropDown(filter): filter the view and open the drop-down, keeping the text
        box as it was. */
    method OpenDropDownWith(filter: Item -> bool)
      modifies this
      requires Valid()
      ensures Valid()
      ensures State() == old(State()).WithFilter(Some(filter)).(isDropDownOpen := true)
    {
      var saved := TextBox();
      UpdateFilter(filter);
      OpenPopup();
      Restore(saved);
    }

    /** OpenDropDown(): open the drop-down on the suggestions for the current query. */
    method OpenDropDown()
      modifies this
      requires Valid()
      ensures Valid()
      ensures State() == old(State()).WithFilter(Some(old(CurrentFilter()))).(isDropDownOpen := true)
    {
      var filter := CurrentFilter();
      OpenDropDownWith(filter);
    }

    /** Close the drop-down, clear the selection and give the view its default filter. */
    method ResetSuggestions()
      modifies this
      requires Valid()
      ensures SuggestionsReset(old(State()), State())
    {
      isDropDownOpen := false;
      SetSelectedItem(None);
      AssignItemsFilter(defaultItemsFilter);
    }

    // -- Events ----------------------------------------------------------------

    /** Recompute the suggestions for the query unless it is the one last handled. */
    method UpdateSuggestionList()
      modifies this
      requires Valid()
      ensures Valid()
      ensures SuggestionListUpdated(setting, textOf, old(State()), State())
    {
      ghost var s := State();
      var query := Query();
      if previousText == Some(query) {
        return;
      }
      previousText := Some(query);
      ghost var recorded := State();
      assert recorded == s.(previousText := Some(query));
      if |text| == 0 {
        ResetSuggestions();
      } else {
        assert CurrentFilter() == GetFilter(s.Query(), s.defaultItemsFilter, setting, textOf);
        assert recorded.Enumerated() == s.Enumerated();
        ShowSuggestions();
      }
    }

    /** The suggestions for a non-empty text, inside an event scope: the view gets the
        suggestion filter, and the drop-down opens when the capped count of matches is
        more than one and at most the maximum; the text box is kept. */
    method ShowSuggestions()
      modifies this
      requires Valid()
      ensures Valid()
      ensures var filter := old(CurrentFilter());
              var count := Count(old(State()).Enumerated(), filter);
              State() == old(State()).WithFilter(Some(filter)).(isDropDownOpen := old(isDropDownOpen) ||
                                                                (1 < count && count <= setting.maxSuggestionCount))
    {
      BeginEventScope();
      var filter := CurrentFilter();
      var maxCount := setting.maxSuggestionCount;
      var count := CountWithMax(State().Enumerated(), filter, maxCount);
      UpdateFilter(filter);
      if 1 < count && count <= maxCount {
        var saved := TextBox();
        OpenPopup();
        Restore(saved);
      }
      EndEventScope();
    }

    /** TextChanged of the text box: ignored inside an event scope; otherwise a new
        revision, and the suggestion update now or when the timer for this revision
        fires. */
    method OnTextChanged()
      modifies this
      requires Valid()
      ensures Valid()
      ensures old(eventDepth) > 0 ==> State() == old(State())
      ensures old(eventDepth) <= 0 ==> revisionId == NextRevision(old(revisionId))
      ensures old(eventDepth) <= 0 && setting.delay <= 0 ==>
                SuggestionListUpdated(setting, textOf, old(State()).(revisionId := NextRevision(old(revisionId))), State())
      ensures old(eventDepth) <= 0 && setting.delay > 0 ==>
                State() == old(State()).(revisionId := NextRevision(old(revisionId)),
                                         pendingRevision := Some(NextRevision(old(revisionId))))
    {
      if eventDepth > 0 {
        return;
      }
      revisionId := NextRevision(revisionId);
      var id := revisionId;
      if setting.delay <= 0 {
        UpdateSuggestionList();
        return;
      }
      pendingRevision := Some(id);
    }

    /** The timer for revision `id` elapsed and the dispatcher ran its callback. */
    method TimerElapsed(id: Long)
      modifies this
      requires Valid()
      ensures Valid()
      ensures old(revisionId) != id ==> State() == old(State())
      ensures old(revisionId) == id ==> SuggestionListUpdated(setting, textOf, old(State()), State())
    {
      if revisionId != id {
        return;
      }
      UpdateSuggestionList();
    }

    /** PreviewKeyDown: Ctrl+Space opens the suggestions; a character key typed
        while the query is empty resets them. */
    method PreviewKeyDown(key: int, modifiers: bv32, isDown: bool) returns (handled: bool)
      modifies this
      requires Valid()
      ensures Valid()
      ensures handled <==> (modifiers & ModifierControl) == ModifierControl && key == KeySpace
      ensures handled ==>
                State() == old(State()).WithFilter(Some(old(CurrentFilter()))).(isDropDownOpen := true)
      ensures !handled && old(Query()) == [] && (modifiers & !ModifierShift) == ModifierNone && isDown &&
              KeyD0 <= key <= KeyZ ==>
                SuggestionsReset(old(State()), State())
      ensures !handled && !(old(Query()) == [] && (modifiers & !ModifierShift) == ModifierNone && isDown &&
                            KeyD0 <= key <= KeyZ) ==>
                State() == old(State())
    {
      handled := false;
      if (modifiers & ModifierControl) == ModifierControl && key == KeySpace {
        OpenDropDown();
        handled := true;
      } else if Query() == [] && (modifiers & !ModifierShift) == ModifierNone && isDown && KeyD0 <= key <= KeyZ {
        ResetSuggestions();
      }
    }

    /** A new ItemsSource: capture the view's filter as the default (none for a plain
        enumerable, which gets a fresh view), and keep the selected item only if the
        new view shows it. */
    method ItemsSourcePropertyChanged(newValue: SourceValue<Item>)
      modifies this
      requires Valid()
      ensures Valid()
      ensures defaultItemsFilter == (if newValue.CollectionView? then newValue.filter else None)
      ensures itemsFilter == defaultItemsFilter
      ensures source == match newValue
                        case Null => NoSource
                        case Enumerable(xs) => Plain(xs)
                        case CollectionView(xs, _) => View(xs)
      ensures selectedItem == if old(selectedItem).Some? && old(selectedItem).value in State().Shown()
                              then old(selectedItem) else None
      ensures State() == old(State()).(defaultItemsFilter := defaultItemsFilter, source := source,
                                       itemsFilter := itemsFilter, selectedItem := selectedItem,
                                       text := text, selectionStart := selectionStart,
                                       selectionLength := selectionLength)
      ensures selectedItem == old(selectedItem) ==> TextBox() == old(TextBox())
    {
      var previousSelectedItem := selectedItem;
      match newValue {
        case CollectionView(xs, filter) =>
          defaultItemsFilter := filter;
          source, itemsFilter := View(xs), filter;
        case Enumerable(xs) =>
          defaultItemsFilter := None;
          source, itemsFilter := Plain(xs), None;
        case Null =>
          defaultItemsFilter := None;
          source, itemsFilter := NoSource, None;
      }
      var shown := State().Shown();
      if previousSelectedItem.Some? && previousSelectedItem.value in shown {
        SetSelectedItem(previousSelectedItem);
      } else {
        SetSelectedItem(None);
      }
    }

    // -- Properties across several events --------------------------------------

    /** Two text changes before the timer fires: the timer of the first is stale and
        does nothing, so only the second revision updates the suggestions. */
    method StaleTimerIsIgnored()
      modifies this
      requires Valid() && eventDepth <= 0 && setting.delay > 0
      ensures Valid()
      ensures revisionId == NextRevision(NextRevision(old(revisionId)))
      ensures State() == old(State()).(revisionId := revisionId, pendingRevision := Some(revisionId))
    {
      OnTextChanged();
      var first := revisionId;
      OnTextChanged();
      TimerElapsed(first);
    }
  }
}
