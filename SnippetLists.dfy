/**
  The list operations both snippet view models share: find by id, replace the first
  match, and remove by id or by a set of ids.
*/
module SnippetLists {
  import opened Swift
  import opened Snippets
  import Seqs

  /** `snippets.firstIndex(where: { $0.id == id })`. */
  function IndexOfId(snippets: seq<Snippet>, id: Uuid): (r: Option<nat>)
    ensures r.Some? ==> r.value < |snippets| && snippets[r.value].id == id
    ensures r.Some? ==> forall j :: 0 <= j < r.value ==> snippets[j].id != id
    ensures r.None? <==> forall j :: 0 <= j < |snippets| ==> snippets[j].id != id
  {
    Seqs.FirstIndex((s: Snippet) => s.id == id, snippets)
  }

  /** `snippets.contains(where: { $0.id == id })`. */
  predicate HasId(snippets: seq<Snippet>, id: Uuid) {
    exists j :: 0 <= j < |snippets| && snippets[j].id == id
  }

  /** No two snippets share an id. */
  predicate UniqueIds(snippets: seq<Snippet>) {
    forall i, j :: 0 <= i < j < |snippets| ==> snippets[i].id != snippets[j].id
  }

  /**
    `updateSnippet(_:)`: the first snippet with the updated one's id is replaced by it;
    nothing else changes, and an unknown id changes nothing at all.
  */
  function Updated(snippets: seq<Snippet>, updated: Snippet): (r: seq<Snippet>)
    ensures |r| == |snippets|
    ensures !HasId(snippets, updated.id) ==> r == snippets
    ensures HasId(snippets, updated.id) ==>
      var k := IndexOfId(snippets, updated.id).value;
      r[k] == updated && forall j :: 0 <= j < |r| && j != k ==> r[j] == snippets[j]
  {
    match IndexOfId(snippets, updated.id)
    case None => snippets
    case Some(k) => snippets[k := updated]
  }

  /** `removeAll { $0.id == id }`. */
  function WithoutId(snippets: seq<Snippet>, id: Uuid): (r: seq<Snippet>)
    ensures forall k :: 0 <= k < |r| ==> r[k] in snippets && r[k].id != id
    ensures forall k :: 0 <= k < |snippets| && snippets[k].id != id ==> snippets[k] in r
    ensures forall x :: multiset(r)[x] == if x.id == id then 0 else multiset(snippets)[x]
    ensures Seqs.IsSubsequence(r, snippets)
  {
    Seqs.RemoveWhere((s: Snippet) => s.id == id, snippets)
  }

  /** `removeAll { ids.contains($0.id) }`. */
  function WithoutIds(snippets: seq<Snippet>, ids: set<Uuid>): (r: seq<Snippet>)
    ensures forall k :: 0 <= k < |r| ==> r[k] in snippets && r[k].id !in ids
    ensures forall k :: 0 <= k < |snippets| && snippets[k].id !in ids ==> snippets[k] in r
    ensures forall x :: multiset(r)[x] == if x.id in ids then 0 else multiset(snippets)[x]
    ensures Seqs.IsSubsequence(r, snippets)
  {
    Seqs.RemoveWhere((s: Snippet) => s.id in ids, snippets)
  }

  /** An update puts a snippet with the same id in place, so every position keeps its id. */
  lemma UpdatedKeepsIds(snippets: seq<Snippet>, updated: Snippet)
    ensures forall j :: 0 <= j < |snippets| ==> Updated(snippets, updated)[j].id == snippets[j].id
  {
  }

  /** The ids of a distinct-id list stay distinct in every subsequence of it. */
  lemma {:induction false} SubsequenceKeepsUniqueIds(a: seq<Snippet>, b: seq<Snippet>)
    requires Seqs.IsSubsequence(a, b) && UniqueIds(b)
    ensures UniqueIds(a)
    decreases |b|
  {
    if a != [] {
      var tail := b[1..];
      assert UniqueIds(tail) by {
        forall i, j | 0 <= i < j < |tail| ensures tail[i].id != tail[j].id {
          assert tail[i] == b[i + 1] && tail[j] == b[j + 1];
        }
      }
      if a[0] == b[0] {
        var rest := a[1..];
        SubsequenceKeepsUniqueIds(rest, tail);
        Seqs.SubsequenceMembers(rest, tail);
        forall k | 0 <= k < |rest| ensures rest[k].id != a[0].id {
          var m :| 0 <= m < |tail| && tail[m] == rest[k];
          assert tail[m] == b[m + 1];
        }
        forall i, j | 0 <= i < j < |a| ensures a[i].id != a[j].id {
          assert a[j] == rest[j - 1];
          if i > 0 {
            assert a[i] == rest[i - 1];
          }
        }
      } else {
        SubsequenceKeepsUniqueIds(a, tail);
      }
    }
  }

  /** Both deletions keep the ids distinct. */
  lemma DeletionsKeepUniqueIds(snippets: seq<Snippet>, id: Uuid, ids: set<Uuid>)
    requires UniqueIds(snippets)
    ensures UniqueIds(WithoutId(snippets, id)) && UniqueIds(WithoutIds(snippets, ids))
  {
    SubsequenceKeepsUniqueIds(WithoutId(snippets, id), snippets);
    SubsequenceKeepsUniqueIds(WithoutIds(snippets, ids), snippets);
  }

  /** An update with a snippet of the same id keeps the ids distinct. */
  lemma UpdatedKeepsUniqueIds(snippets: seq<Snippet>, updated: Snippet)
    requires UniqueIds(snippets)
    ensures UniqueIds(Updated(snippets, updated))
  {
    UpdatedKeepsIds(snippets, updated);
  }
}
