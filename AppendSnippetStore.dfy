/**
  The minimal inserter's snippet store: new snippets are appended with no check of
  their id, so ids may repeat; updates and deletions go by id as in the launcher.
*/
module AppendSnippetStore {
  import opened Swift
  import opened Snippets
  import opened SnippetLists
  import Seqs

  /** An update changes the targeted snippet only: any snippet of another id is where it was. */
  lemma UpdatedTouchesOnlyTarget(snippets: seq<Snippet>, updated: Snippet, j: int)
    requires 0 <= j < |snippets| && snippets[j].id != updated.id
    ensures Updated(snippets, updated)[j] == snippets[j]
  {
  }

  /** Deleting one id keeps every snippet of another id, in order. */
  lemma WithoutIdKeepsOthers(snippets: seq<Snippet>, id: Uuid)
    ensures Seqs.IsSubsequence(WithoutId(snippets, id), snippets)
    ensures forall x :: x in snippets && x.id != id ==> x in WithoutId(snippets, id)
    ensures forall x :: x in WithoutId(snippets, id) ==> x.id != id
  {
  }

  /** Appending two snippets with one id keeps both: the store does not refuse duplicates. */
  lemma DuplicatesKept(snippets: seq<Snippet>, x: Snippet, y: Snippet)
    requires x.id == y.id
    ensures |snippets + [x] + [y]| == |snippets| + 2
    ensures !UniqueIds(snippets + [x] + [y])
  {
    var r := snippets + [x] + [y];
    assert r[|r| - 2] == x && r[|r| - 1] == y;
  }

  /** `SnippetViewModel` of the minimal inserter. */
  class SnippetViewModel {
    var snippets: seq<Snippet>
    var selectedSnippets: set<Uuid>
    var editingSnippet: Option<Snippet>
    var isEditWindowPresented: bool

    /** `init()` runs `load()`: `stored` is the decoded file, `None` when it is missing or unreadable. */
    constructor(stored: Option<seq<Snippet>>)
      ensures snippets == (if stored.Some? then stored.value else [])
      ensures selectedSnippets == {} && editingSnippet == None && !isEditWindowPresented
    {
      snippets := [];
      selectedSnippets := {};
      editingSnippet := None;
      isEditWindowPresented := false;
      if stored.Some? {
        snippets := stored.value;
      }
    }

    /** `addSnippet(_:)`. */
    method AddSnippet(snippet: Snippet)
      modifies this`snippets
      ensures snippets == old(snippets) + [snippet]
    {
      snippets := snippets + [snippet];
    }

    /** `updateSnippet(_:)`. */
    method UpdateSnippet(updated: Snippet)
      modifies this`snippets
      ensures snippets == Updated(old(snippets), updated)
    {
      var index := IndexOfId(snippets, updated.id);
      if index.Some? {
        snippets := snippets[index.value := updated];
      }
    }

    /** `deleteSnippet(_:)`. */
    method DeleteSnippet(snippet: Snippet)
      modifies this`snippets, this`selectedSnippets
      ensures snippets == WithoutId(old(snippets), snippet.id)
      ensures selectedSnippets == old(selectedSnippets) - {snippet.id}
    {
      snippets := WithoutId(snippets, snippet.id);
      selectedSnippets := selectedSnippets - {snippet.id};
    }

    /** `deleteSelectedSnippets()`. */
    method DeleteSelectedSnippets()
      modifies this`snippets, this`selectedSnippets
      ensures snippets == WithoutIds(old(snippets), old(selectedSnippets))
      ensures selectedSnippets == {}
    {
      snippets := WithoutIds(snippets, selectedSnippets);
      selectedSnippets := {};
    }
  }
}
