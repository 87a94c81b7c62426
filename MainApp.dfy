/**
  The launcher's main window: a searchable list of snippets with click and
  shift-click selection, deletion of the selected snippets, and an editor sheet
  whose save adds a new snippet or updates an existing one.
*/
module MainApp {
  import opened Swift
  import opened Strings
  import opened Snippets
  import opened SnippetLists
  import SortedSnippetStore
  import Seqs

  // ---------------------------------------------------------------------------
  // Search

  /** A snippet shows under `searchText`: everything shows for an empty search. */
  predicate Matches(searchText: string, s: Snippet) {
    searchText == [] || ContainsIgnoringCase(s.title, searchText)
  }

  /** `filteredSnippets`. */
  function FilteredSnippets(snippets: seq<Snippet>, searchText: string): (r: seq<Snippet>)
    ensures Seqs.IsSubsequence(r, snippets)
    ensures searchText == [] ==> r == snippets
    ensures forall k :: 0 <= k < |r| ==> r[k] in snippets && (searchText == [] || ContainsIgnoringCase(r[k].title, searchText))
    ensures forall k :: 0 <= k < |snippets| && ContainsIgnoringCase(snippets[k].title, searchText) ==> snippets[k] in r
    ensures forall k :: 0 <= k < |snippets| ==> multiset(r)[snippets[k]] == if Matches(searchText, snippets[k]) then multiset(snippets)[snippets[k]] else 0
  {
    var p := (s: Snippet) => Matches(searchText, s);
    if searchText == [] then
      Seqs.FilterKeepsAll(p, snippets);
      Seqs.Filter(p, snippets)
    else
      Seqs.Filter(p, snippets)
  }

  /** `selectedSnippet`: the first snippet with the selected id, if there is one. */
  function SelectedSnippet(snippets: seq<Snippet>, selectedId: Option<Uuid>): (r: Option<Snippet>)
    ensures r.None? <==> selectedId.None? || !HasId(snippets, selectedId.value)
    ensures r.Some? ==> selectedId == Some(r.value.id) && r.value == snippets[IndexOfId(snippets, r.value.id).value]
  {
    match selectedId
    case None => None
    case Some(id) =>
      match IndexOfId(snippets, id)
      case None => None
      case Some(k) => Some(snippets[k])
  }

  // ---------------------------------------------------------------------------
  // Selection

  /** The selection state: `selectedSnippetIDs`, `shiftSelectionAnchor` and `selectedSnippetID`. */
  datatype Selection = Selection(ids: set<Uuid>, anchor: Option<Uuid>, current: Option<Uuid>)

  /** The ids shown from position `i` through position `j` of the list, in either order. */
  function RangeIds(filtered: seq<Snippet>, i: nat, j: nat): (r: set<Uuid>)
    requires i < |filtered| && j < |filtered|
    ensures filtered[i].id in r && filtered[j].id in r
    ensures forall id :: id in r <==> exists k :: (i <= k <= j || j <= k <= i) && filtered[k].id == id
  {
    var lo, hi := if i <= j then i else j, if i <= j then j else i;
    assert filtered[i].id in set k | lo <= k <= hi :: filtered[k].id;
    assert filtered[j].id in set k | lo <= k <= hi :: filtered[k].id;
    set k | lo <= k <= hi :: filtered[k].id
  }

  /** The id a shift-click extends from: the anchor, else some selected id. */
  function ShiftAnchor(sel: Selection, firstSelected: Option<Uuid>): Option<Uuid> {
    if sel.anchor.Some? then sel.anchor else firstSelected
  }

  /** What `Set.first` can answer: some member, and nothing only for the empty set. */
  predicate FirstOf(ids: set<Uuid>, first: Option<Uuid>) {
    (first.None? <==> ids == {}) && (first.Some? ==> first.value in ids)
  }

  /** A click that selects just the clicked snippet and anchors there. */
  function PlainClick(clicked: Uuid): Selection {
    Selection({clicked}, Some(clicked), Some(clicked))
  }

  /**
    `handleSnippetSelection(_:)`. A shift-click whose anchor and clicked snippet are both
    listed selects the listed run between them and keeps the anchor; any other click
    selects just the clicked snippet and anchors there. Either way the clicked snippet
    becomes the current one.
  */
  function AfterClick(filtered: seq<Snippet>, sel: Selection, clicked: Uuid, shift: bool, firstSelected: Option<Uuid>): (r: Selection)
    requires FirstOf(sel.ids, firstSelected)
    ensures r.current == Some(clicked) && clicked in r.ids
  {
    if !shift then PlainClick(clicked)
    else
      match ShiftAnchor(sel, firstSelected)
      case None => PlainClick(clicked)
      case Some(anchor) =>
        match IndexOfId(filtered, anchor)
        case None => PlainClick(clicked)
        case Some(startIndex) =>
          match IndexOfId(filtered, clicked)
          case None => PlainClick(clicked)
          case Some(endIndex) =>
            var ids := RangeIds(filtered, startIndex, endIndex);
            Selection(ids, sel.anchor, Some(clicked))
  }

  /** The three outcomes of a click. */
  lemma AfterClickCases(filtered: seq<Snippet>, sel: Selection, clicked: Uuid, shift: bool, firstSelected: Option<Uuid>)
    requires FirstOf(sel.ids, firstSelected)
    ensures var r := AfterClick(filtered, sel, clicked, shift, firstSelected);
      var anchor := ShiftAnchor(sel, firstSelected);
      && (!shift ==> r == PlainClick(clicked))
      && (shift && anchor.Some? && HasId(filtered, anchor.value) && HasId(filtered, clicked) ==>
            r.anchor == sel.anchor &&
            r.ids == RangeIds(filtered, IndexOfId(filtered, anchor.value).value, IndexOfId(filtered, clicked).value))
      && (shift && (anchor.None? || !HasId(filtered, anchor.value) || !HasId(filtered, clicked)) ==>
            r == PlainClick(clicked))
  {
  }

  /**
    A shift-click range holds exactly the listed snippets between the anchor and the
    clicked one, both included.
  */
  lemma ShiftClickSelectsRun(filtered: seq<Snippet>, sel: Selection, clicked: Uuid, firstSelected: Option<Uuid>, anchor: Uuid)
    requires FirstOf(sel.ids, firstSelected) && ShiftAnchor(sel, firstSelected) == Some(anchor)
    requires HasId(filtered, anchor) && HasId(filtered, clicked)
    ensures var r := AfterClick(filtered, sel, clicked, true, firstSelected);
      var i, j := IndexOfId(filtered, anchor).value, IndexOfId(filtered, clicked).value;
      anchor in r.ids && clicked in r.ids &&
      (forall k :: (i <= k <= j || j <= k <= i) ==> filtered[k].id in r.ids) &&
      (forall id :: id in r.ids ==> exists k :: 0 <= k < |filtered| && filtered[k].id == id)
  {
    var i, j := IndexOfId(filtered, anchor).value, IndexOfId(filtered, clicked).value;
    var ids := AfterClick(filtered, sel, clicked, true, firstSelected).ids;
    assert ids == RangeIds(filtered, i, j);
    forall k | i <= k <= j || j <= k <= i
      ensures filtered[k].id in ids
    {
    }
  }

  /** Clicking the anchor itself with shift held selects just that snippet and keeps the anchor. */
  lemma ShiftClickOnAnchor(filtered: seq<Snippet>, sel: Selection, anchor: Uuid, firstSelected: Option<Uuid>)
    requires FirstOf(sel.ids, firstSelected)
    requires sel.anchor == Some(anchor) && HasId(filtered, anchor)
    ensures AfterClick(filtered, sel, anchor, true, firstSelected) == Selection({anchor}, Some(anchor), Some(anchor))
  {
    var i := IndexOfId(filtered, anchor).value;
    var r := AfterClick(filtered, sel, anchor, true, firstSelected);
    assert r.ids == RangeIds(filtered, i, i);
    forall id | id in r.ids ensures id == anchor {
      var k :| (i <= k <= i || i <= k <= i) && filtered[k].id == id;
    }
  }

  // ---------------------------------------------------------------------------
  // The editor sheet

  /** `EditingContext`: the snippet being edited and whether it is new. */
  datatype EditingContext = EditingContext(snippet: Snippet, isNew: bool)

  /**
    The editor's "Save": the bound snippet's id and title, the edited content, and the
    tags re-read from the `tagsString` field.
  */
  function EditorSave(bound: Snippet, editedContent: string): (r: Snippet)
    ensures r.id == bound.id && r.title == bound.title && r.content == editedContent
    ensures r.tags == ParseTags(TagsString(bound.tags))
    ensures CleanTags(r.tags)
    ensures CleanTags(bound.tags) && (bound.tags == [] || bound.tags[0] != "") ==> r.tags == bound.tags
  {
    ParsedTagsAreClean(TagsString(bound.tags));
    assert CleanTags(bound.tags) && (bound.tags == [] || bound.tags[0] != "") ==>
      ParseTags(TagsString(bound.tags)) == bound.tags
    by {
      if CleanTags(bound.tags) && (bound.tags == [] || bound.tags[0] != "") {
        TagsRoundTrip(bound.tags);
      }
    }
    Snippet(bound.id, bound.title, editedContent, ParseTags(TagsString(bound.tags)))
  }

  /** The main window's state. */
  class MainAppView {
    const viewModel: SortedSnippetStore.SnippetViewModel
    var editingContext: Option<EditingContext>
    var selectedSnippetID: Option<Uuid>
    var selectedSnippetIDs: set<Uuid>
    var shiftSelectionAnchor: Option<Uuid>
    var searchText: string

    constructor(viewModel: SortedSnippetStore.SnippetViewModel)
      ensures this.viewModel == viewModel
      ensures editingContext == None && selectedSnippetID == None && selectedSnippetIDs == {}
      ensures shiftSelectionAnchor == None && searchText == []
    {
      this.viewModel := viewModel;
      editingContext := None;
      selectedSnippetID := None;
      selectedSnippetIDs := {};
      shiftSelectionAnchor := None;
      searchText := [];
    }

    function Filtered(): seq<Snippet>
      reads this`searchText, viewModel`snippets
    {
      FilteredSnippets(viewModel.snippets, searchText)
    }

    function CurrentSelection(): Selection
      reads this`selectedSnippetIDs, this`shiftSelectionAnchor, this`selectedSnippetID
    {
      Selection(selectedSnippetIDs, shiftSelectionAnchor, selectedSnippetID)
    }

    /**
      `handleSnippetSelection(_:)`. `shift` is whether the shift key is down, and
      `firstSelected` is what `selectedSnippetIDs.first` answers.
    */
    method HandleSnippetSelection(snippet: Snippet, shift: bool, firstSelected: Option<Uuid>)
      requires FirstOf(selectedSnippetIDs, firstSelected)
      modifies this`selectedSnippetIDs, this`shiftSelectionAnchor, this`selectedSnippetID
      ensures CurrentSelection() == AfterClick(Filtered(), old(CurrentSelection()), snippet.id, shift, firstSelected)
    {
      var filtered := Filtered();
      ghost var expected := AfterClick(filtered, CurrentSelection(), snippet.id, shift, firstSelected);
      if shift {
        var anchor := if shiftSelectionAnchor.Some? then shiftSelectionAnchor else firstSelected;
        var startIndex := if anchor.Some? then IndexOfId(filtered, anchor.value) else None;
        var endIndex := IndexOfId(filtered, snippet.id);
        if anchor.None? || startIndex.None? || endIndex.None? {
          assert expected == PlainClick(snippet.id);
          selectedSnippetIDs := {snippet.id};
          shiftSelectionAnchor := Some(snippet.id);
          selectedSnippetID := Some(snippet.id);
          assert Filtered() == filtered;
          return;
        }
        assert expected == Selection(RangeIds(filtered, startIndex.value, endIndex.value), shiftSelectionAnchor, Some(snippet.id));
        selectedSnippetIDs := RangeIds(filtered, startIndex.value, endIndex.value);
      } else {
        assert expected == PlainClick(snippet.id);
        selectedSnippetIDs := {snippet.id};
        shiftSelectionAnchor := Some(snippet.id);
      }
      selectedSnippetID := Some(snippet.id);
      assert CurrentSelection() == expected;
      assert Filtered() == filtered;
    }

    /** A tap on the blank strip above the list clears the selection. */
    method ClearSelection()
      modifies this`selectedSnippetIDs, this`selectedSnippetID
      ensures selectedSnippetIDs == {} && selectedSnippetID == None
    {
      selectedSnippetIDs := {};
      selectedSnippetID := None;
    }

    /**
      `deleteSelectedSnippet()`: with something selected, the selected snippets leave the
      store's list directly, and the window's selection is cleared. The store's own
      `selectedSnippets` is not touched.
    */
    method DeleteSelectedSnippet()
      modifies this`selectedSnippetIDs, this`selectedSnippetID, viewModel`snippets
      ensures old(selectedSnippetIDs) == {} ==>
        viewModel.snippets == old(viewModel.snippets) && selectedSnippetID == old(selectedSnippetID) && selectedSnippetIDs == {}
      ensures old(selectedSnippetIDs) != {} ==>
        viewModel.snippets == WithoutIds(old(viewModel.snippets), old(selectedSnippetIDs)) &&
        selectedSnippetIDs == {} && selectedSnippetID == None
    ensures old(viewModel.Valid()) ==> viewModel.Valid()
    {
      if selectedSnippetIDs != {} {
        SortedSnippetStore.DeletionsKeepValid(viewModel.snippets, 0, selectedSnippetIDs);
        viewModel.snippets := WithoutIds(viewModel.snippets, selectedSnippetIDs);
        selectedSnippetIDs := {};
        selectedSnippetID := None;
      }
    }

    /** A row's "Delete" menu item: the store's `deleteSnippet(_:)`. */
    method DeleteRow(snippet: Snippet)
      modifies viewModel
      ensures viewModel.snippets == WithoutId(old(viewModel.snippets), snippet.id)
      ensures viewModel.selectedSnippets == old(viewModel.selectedSnippets) - {snippet.id}
    {
      viewModel.DeleteSnippet(snippet);
    }

    /** `onAppear`: with nothing current, the first listed snippet becomes current and selected. */
    method OnAppear()
      modifies this`selectedSnippetIDs, this`selectedSnippetID
      ensures old(selectedSnippetID).None? && Filtered() != [] ==>
        selectedSnippetID == Some(Filtered()[0].id) && selectedSnippetIDs == {Filtered()[0].id}
      ensures old(selectedSnippetID).Some? || Filtered() == [] ==>
        selectedSnippetID == old(selectedSnippetID) && selectedSnippetIDs == old(selectedSnippetIDs)
    {
      var filtered := Filtered();
      if selectedSnippetID.None? && filtered != [] {
        selectedSnippetID := Some(filtered[0].id);
        selectedSnippetIDs := {filtered[0].id};
      }
    }

    /** `createNewSnippet()`: the editor opens on a blank snippet with the fresh id `newId`. */
    method CreateNewSnippet(newId: Uuid)
      modifies this`editingContext
      ensures editingContext == Some(EditingContext(Snippet(newId, "", "", []), true))
    {
      editingContext := Some(EditingContext(Snippet(newId, "", "", []), true));
    }

    /** `editSelectedSnippet()`: the editor opens on the current snippet, if there is one. */
    method EditSelectedSnippet()
      modifies this`editingContext
      ensures SelectedSnippet(viewModel.snippets, selectedSnippetID).None? ==> editingContext == old(editingContext)
      ensures SelectedSnippet(viewModel.snippets, selectedSnippetID).Some? ==>
        editingContext == Some(EditingContext(SelectedSnippet(viewModel.snippets, selectedSnippetID).value, false))
    {
      var selected := SelectedSnippet(viewModel.snippets, selectedSnippetID);
      if selected.None? {
        return;
      }
      editingContext := Some(EditingContext(selected.value, false));
    }

    /** A double click or the "Edit" menu item on a row. */
    method EditRow(snippet: Snippet)
      modifies this`editingContext
      ensures editingContext == Some(EditingContext(snippet, false))
    {
      editingContext := Some(EditingContext(snippet, false));
    }

    /** Typing into the editor's tags field writes through the `tagsString` setter. */
    method EditTags(text: string)
      requires editingContext.Some?
      modifies this`editingContext
      ensures editingContext == Some(old(editingContext).value.(snippet := SetTagsString(old(editingContext).value.snippet, text)))
    {
      var context := editingContext.value;
      editingContext := Some(context.(snippet := SetTagsString(context.snippet, text)));
    }

    /**
      The sheet's `onSave`: "Cancel" passes `None` and only closes the sheet; a saved
      snippet is added when new and updated otherwise, and becomes current.
    */
    method OnSave(updated: Option<Snippet>)
      requires editingContext.Some?
      modifies this`editingContext, this`selectedSnippetID, viewModel`snippets
      ensures editingContext == None
      ensures updated.None? ==> viewModel.snippets == old(viewModel.snippets) && selectedSnippetID == old(selectedSnippetID)
      ensures updated.Some? && old(editingContext).value.isNew ==>
        viewModel.snippets == SortedSnippetStore.Added(old(viewModel.snippets), updated.value)
      ensures updated.Some? && !old(editingContext).value.isNew ==>
        viewModel.snippets == Updated(old(viewModel.snippets), updated.value)
      ensures updated.Some? ==> selectedSnippetID == Some(updated.value.id)
    {
      var context := editingContext.value;
      if updated.Some? {
        if context.isNew {
          viewModel.AddSnippet(updated.value);
        } else {
          viewModel.UpdateSnippet(updated.value);
        }
        selectedSnippetID := Some(updated.value.id);
      }
      editingContext := None;
    }
  }

  /** A saved new snippet whose id is not in the store is in it afterwards. */
  lemma SavedNewSnippetIsStored(snippets: seq<Snippet>, x: Snippet)
    requires !HasId(snippets, x.id)
    ensures HasId(SortedSnippetStore.Added(snippets, x), x.id)
  {
    var p := SortedSnippetStore.InsertionPoint(snippets, x);
    assert SortedSnippetStore.Added(snippets, x)[p] == x;
  }

  /** After deleting the selection, no snippet with a selected id remains. */
  lemma DeletedSelectionIsGone(snippets: seq<Snippet>, ids: set<Uuid>)
    ensures forall id :: id in ids ==> !HasId(WithoutIds(snippets, ids), id)
  {
  }
}
