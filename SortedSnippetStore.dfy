/**
  The launcher's snippet store: snippets are kept in order of their lower-cased
  titles, a new snippet goes in before the first one whose title sorts after its
  own, and a snippet whose id is already present is refused.
*/
module SortedSnippetStore {
  import opened Swift
  import opened Strings
  import opened Snippets
  import opened SnippetLists
  import Seqs

  /** What the store orders by: `title.lowercased()`. */
  function Key(s: Snippet): string {
    Lower(s.title)
  }

  /** Every snippet's key is at most the key of every later one. */
  predicate Sorted(snippets: seq<Snippet>) {
    forall i, j :: 0 <= i < j < |snippets| ==> LessOrEqual(Key(snippets[i]), Key(snippets[j]))
  }

  /**
    Where `addSnippet(_:)` puts `x`: the first index whose key sorts strictly after `x`'s,
    or the end when there is none.
  */
  function InsertionPoint(snippets: seq<Snippet>, x: Snippet): (p: nat)
    ensures p <= |snippets|
    ensures forall j :: 0 <= j < p ==> LessOrEqual(Key(snippets[j]), Key(x))
    ensures p < |snippets| ==> Less(Key(x), Key(snippets[p]))
  {
    match Seqs.FirstIndex((y: Snippet) => Less(Key(x), Key(y)), snippets)
    case None => |snippets|
    case Some(k) => k
  }

  /** `x` put in at its insertion point. */
  function Inserted(snippets: seq<Snippet>, x: Snippet): (r: seq<Snippet>)
    ensures |r| == |snippets| + 1
    ensures multiset(r) == multiset(snippets) + multiset{x}
    ensures r[InsertionPoint(snippets, x)] == x
    ensures r[..InsertionPoint(snippets, x)] == snippets[..InsertionPoint(snippets, x)]
    ensures r[InsertionPoint(snippets, x) + 1..] == snippets[InsertionPoint(snippets, x)..]
  {
    var p := InsertionPoint(snippets, x);
    assert snippets == snippets[..p] + snippets[p..];
    snippets[..p] + [x] + snippets[p..]
  }

  /** `addSnippet(_:)`: nothing when the id is present, otherwise the sorted insert. */
  function Added(snippets: seq<Snippet>, x: Snippet): (r: seq<Snippet>)
    ensures HasId(snippets, x.id) ==> r == snippets
    ensures !HasId(snippets, x.id) ==> |r| == |snippets| + 1 && multiset(r) == multiset(snippets) + multiset{x}
    ensures !HasId(snippets, x.id) ==>
      var p := InsertionPoint(snippets, x);
      r[..p] == snippets[..p] && r[p] == x && r[p + 1..] == snippets[p..]
  {
    if HasId(snippets, x.id) then snippets else Inserted(snippets, x)
  }

  /** Position by position: the snippets before the insertion point, `x`, then the rest one place later. */
  lemma InsertedAt(snippets: seq<Snippet>, x: Snippet, k: int)
    requires 0 <= k <= |snippets|
    ensures var p := InsertionPoint(snippets, x);
      Inserted(snippets, x)[k] == if k < p then snippets[k] else if k == p then x else snippets[k - 1]
  {
    var p := InsertionPoint(snippets, x);
    var r := Inserted(snippets, x);
    if k < p {
      assert r[..p][k] == snippets[..p][k];
    } else if k > p {
      assert r[p + 1..][k - p - 1] == snippets[p..][k - p - 1];
    }
  }

  /** The sorted insert keeps the list sorted. */
  lemma InsertedKeepsSorted(snippets: seq<Snippet>, x: Snippet)
    requires Sorted(snippets)
    ensures Sorted(Inserted(snippets, x))
  {
    var p := InsertionPoint(snippets, x);
    var r := Inserted(snippets, x);
    forall i, j | 0 <= i < j < |r|
      ensures LessOrEqual(Key(r[i]), Key(r[j]))
    {
      InsertedAt(snippets, x, i);
      InsertedAt(snippets, x, j);
      var a := if i < p then i else i - 1;
      var b := if j <= p then j else j - 1;
      if i != p && j != p {
        assert r[i] == snippets[a] && r[j] == snippets[b];
      } else if j == p {
        assert r[i] == snippets[i];
      } else {
        assert r[j] == snippets[j - 1];
        if j - 1 == p {
          LessIrreflexive(Key(snippets[p]));
        }
        LessThenLessOrEqual(Key(x), Key(snippets[p]), Key(snippets[j - 1]));
        LessAsymmetric(Key(x), Key(snippets[j - 1]));
      }
    }
  }

  /**
    On a sorted list, every snippet whose key equals the new one's stays in front of it:
    the new snippet lands after the titles equal to its own.
  */
  lemma InsertedAfterEqualKeys(snippets: seq<Snippet>, x: Snippet, j: int)
    requires Sorted(snippets) && 0 <= j < |snippets| && Key(snippets[j]) == Key(x)
    ensures j < InsertionPoint(snippets, x)
    ensures Inserted(snippets, x)[j] == snippets[j]
  {
    var p := InsertionPoint(snippets, x);
    if p == j {
      LessIrreflexive(Key(x));
    }
  }

  /** A refused snippet leaves the list as it was; an accepted one grows it by one and keeps ids distinct. */
  lemma AddedKeepsUniqueIds(snippets: seq<Snippet>, x: Snippet)
    requires UniqueIds(snippets)
    ensures UniqueIds(Added(snippets, x))
  {
    if !HasId(snippets, x.id) {
      var p := InsertionPoint(snippets, x);
      var r := Inserted(snippets, x);
      forall i, j | 0 <= i < j < |r|
        ensures r[i].id != r[j].id
      {
        InsertedAt(snippets, x, i);
        InsertedAt(snippets, x, j);
        var a := if i < p then i else i - 1;
        var b := if j <= p then j else j - 1;
        if i != p && j != p {
          assert r[i] == snippets[a] && r[j] == snippets[b];
        } else if i == p {
          assert r[j] == snippets[b];
        } else {
          assert r[i] == snippets[a];
        }
      }
    }
  }

  /** Every subsequence of a sorted list is sorted, so deleting keeps the order. */
  lemma {:induction false} SubsequenceKeepsSorted(a: seq<Snippet>, b: seq<Snippet>)
    requires Seqs.IsSubsequence(a, b) && Sorted(b)
    ensures Sorted(a)
    decreases |b|
  {
    if a != [] {
      var tail := b[1..];
      assert Sorted(tail) by {
        forall i, j | 0 <= i < j < |tail| ensures LessOrEqual(Key(tail[i]), Key(tail[j])) {
          assert tail[i] == b[i + 1] && tail[j] == b[j + 1];
        }
      }
      if a[0] == b[0] {
        var rest := a[1..];
        SubsequenceKeepsSorted(rest, tail);
        Seqs.SubsequenceMembers(rest, tail);
        forall k | 0 <= k < |rest| ensures LessOrEqual(Key(a[0]), Key(rest[k])) {
          var m :| 0 <= m < |tail| && tail[m] == rest[k];
          assert tail[m] == b[m + 1];
        }
        forall i, j | 0 <= i < j < |a| ensures LessOrEqual(Key(a[i]), Key(a[j])) {
          assert a[j] == rest[j - 1];
          if i > 0 {
            assert a[i] == rest[i - 1];
          }
        }
      } else {
        SubsequenceKeepsSorted(a, tail);
      }
    }
  }

  /** Both deletions keep a sorted list sorted. */
  lemma DeletionsKeepSorted(snippets: seq<Snippet>, id: Uuid, ids: set<Uuid>)
    requires Sorted(snippets)
    ensures Sorted(WithoutId(snippets, id)) && Sorted(WithoutIds(snippets, ids))
  {
    SubsequenceKeepsSorted(WithoutId(snippets, id), snippets);
    SubsequenceKeepsSorted(WithoutIds(snippets, ids), snippets);
  }

  /** Adding to an empty store gives just that snippet. */
  lemma AddToEmpty(x: Snippet)
    ensures Added([], x) == [x]
  {
  }

  /** `SnippetViewModel` of the launcher. */
  class SnippetViewModel {
    var snippets: seq<Snippet>
    var selectedSnippets: set<Uuid>

    /**
      `init()` runs `load()`. `stored` is the decoded file, `None` when there is no file or
      it does not read or decode; then the list stays empty.
    */
    constructor(stored: Option<seq<Snippet>>)
      ensures snippets == (if stored.Some? then stored.value else [])
      ensures selectedSnippets == {}
    {
      snippets := [];
      selectedSnippets := {};
      if stored.Some? {
        snippets := stored.value;
      }
    }

    /** The list is sorted and its ids are distinct. */
    predicate Valid()
      reads this
    {
      Sorted(snippets) && UniqueIds(snippets)
    }

    /** `addSnippet(_:)`. */
    method AddSnippet(snippet: Snippet)
      modifies this`snippets
      ensures snippets == Added(old(snippets), snippet)
      ensures old(Valid()) ==> Valid()
    {
      if HasId(snippets, snippet.id) {
        return;
      }
      var lowerTitle := Lower(snippet.title);
      var idx := Seqs.FirstIndex((y: Snippet) => Less(lowerTitle, Lower(y.title)), snippets);
      if idx.Some? {
        snippets := snippets[..idx.value] + [snippet] + snippets[idx.value..];
      } else {
        snippets := snippets + [snippet];
      }
      assert snippets == Inserted(old(snippets), snippet);
      if Sorted(old(snippets)) {
        InsertedKeepsSorted(old(snippets), snippet);
      }
      if UniqueIds(old(snippets)) {
        AddedKeepsUniqueIds(old(snippets), snippet);
      }
    }

    /** `updateSnippet(_:)`: the list is not re-sorted, so only the ids stay distinct. */
    method UpdateSnippet(updated: Snippet)
      modifies this`snippets
      ensures snippets == Updated(old(snippets), updated)
      ensures old(UniqueIds(snippets)) ==> UniqueIds(snippets)
    {
      var index := IndexOfId(snippets, updated.id);
      if index.Some? {
        snippets := snippets[index.value := updated];
      }
      if UniqueIds(old(snippets)) {
        UpdatedKeepsUniqueIds(old(snippets), updated);
      }
    }

    /** `deleteSnippet(_:)`: every snippet with the id goes, and the id leaves the selection. */
    method DeleteSnippet(snippet: Snippet)
      modifies this
      ensures snippets == WithoutId(old(snippets), snippet.id)
      ensures selectedSnippets == old(selectedSnippets) - {snippet.id}
      ensures old(Valid()) ==> Valid()
    {
      snippets := WithoutId(snippets, snippet.id);
      selectedSnippets := selectedSnippets - {snippet.id};
      DeletionsKeepValid(old(snippets), snippet.id, {});
    }

    /** `deleteSelectedSnippets()`: the selected snippets go, and the selection is emptied. */
    method DeleteSelectedSnippets()
      modifies this
      ensures snippets == WithoutIds(old(snippets), old(selectedSnippets))
      ensures selectedSnippets == {}
      ensures old(Valid()) ==> Valid()
    {
      snippets := WithoutIds(snippets, selectedSnippets);
      DeletionsKeepValid(old(snippets), 0, old(selectedSnippets));
      selectedSnippets := {};
    }
  }

  /** Deleting keeps the list sorted and its ids distinct. */
  lemma DeletionsKeepValid(snippets: seq<Snippet>, id: Uuid, ids: set<Uuid>)
    ensures Sorted(snippets) && UniqueIds(snippets) ==>
      Sorted(WithoutId(snippets, id)) && UniqueIds(WithoutId(snippets, id)) &&
      Sorted(WithoutIds(snippets, ids)) && UniqueIds(WithoutIds(snippets, ids))
  {
    if Sorted(snippets) && UniqueIds(snippets) {
      DeletionsKeepSorted(snippets, id, ids);
      DeletionsKeepUniqueIds(snippets, id, ids);
    }
  }
}
