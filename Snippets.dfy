/**
  A text snippet and its `tagsString` view: the tags joined with `", "` for editing,
  and split on `","` and trimmed when the edited text is written back.
*/
module Snippets {
  import opened Swift
  import opened Strings
  import Seqs

  datatype Snippet = Snippet(id: Uuid, title: string, content: string, tags: seq<string>)

  /** The `tagsString` getter. */
  function TagsString(tags: seq<string>): (r: string)
    ensures tags == [] ==> r == []
    ensures |tags| == 1 ==> r == tags[0]
  {
    Joined(tags, ", ")
  }

  /**
    What the `tagsString` setter stores: the non-empty pieces between commas, each
    trimmed. A piece of blanks only trims to an empty tag.
  */
  function ParseTags(text: string): (r: seq<string>)
    ensures |r| == |Split(text, ',')|
    ensures forall k :: 0 <= k < |r| ==> r[k] == Trim(Split(text, ',')[k])
    ensures forall k :: 0 <= k < |r| ==> ',' !in r[k] && IsTrimmed(r[k])
  {
    var pieces := Split(text, ',');
    var r := seq(|pieces|, k requires 0 <= k < |pieces| => Trim(pieces[k]));
    assert forall k :: 0 <= k < |r| ==> ',' !in r[k] by {
      forall k | 0 <= k < |r| ensures ',' !in r[k] {
        TrimFree(pieces[k], ',');
      }
    }
    r
  }

  /** The `tagsString` setter. */
  function SetTagsString(s: Snippet, text: string): (r: Snippet)
    ensures r.id == s.id && r.title == s.title && r.content == s.content
    ensures r.tags == ParseTags(text)
  {
    s.(tags := ParseTags(text))
  }

  /** Tags that the setter can give back unchanged: no commas, nothing to trim. */
  predicate CleanTags(tags: seq<string>) {
    forall k :: 0 <= k < |tags| ==> ',' !in tags[k] && IsTrimmed(tags[k])
  }

  /** An empty text sets no tags. */
  lemma ParseEmpty()
    ensures ParseTags("") == []
  {
    assert Pieces("", ',') == [""];
  }

  /** A text of one blank sets one empty tag. */
  lemma ParseBlank()
    ensures ParseTags(" ") == [""]
  {
    var blank := " ";
    assert blank[0] == ' ' && blank[1..] == [];
    var rest := Pieces(blank[1..], ',');
    assert rest == [[]] && rest[1..] == [];
    assert [blank[0]] + rest[0] == blank;
    assert Pieces(blank, ',') == [blank];
    assert Split(blank, ',') == [blank];
    assert TrimStart(blank) == [];
  }

  /** The getter's text splits into the first tag and the others with their leading space. */
  lemma SplitTagsString(tags: seq<string>)
    requires CleanTags(tags) && tags != [] && tags[0] != ""
    ensures Split(TagsString(tags), ',') == [tags[0]] + Spaced(tags[1..])
  {
    var parts := [tags[0]] + Spaced(tags[1..]);
    JoinedWithSpace(tags);
    assert forall k :: 0 <= k < |parts| ==> ',' !in parts[k] && parts[k] != [] by {
      forall k | 0 <= k < |parts| ensures ',' !in parts[k] && parts[k] != [] {
        if k > 0 {
          assert parts[k] == [' '] + tags[k];
        }
      }
    }
    PiecesOfJoined(parts, ',');
    Seqs.FilterKeepsAll(NonEmpty, parts);
  }

  /**
    Setting `tagsString` to its own value restores the tags, whenever they are clean and
    the first one is not empty (an empty first tag leaves nothing in front of the first
    comma, and that empty piece is dropped).
  */
  lemma TagsRoundTrip(tags: seq<string>)
    requires CleanTags(tags)
    requires tags == [] || tags[0] != ""
    ensures ParseTags(TagsString(tags)) == tags
  {
    if tags == [] {
      ParseEmpty();
    } else {
      var text := TagsString(tags);
      SplitTagsString(tags);
      TrimEach(Split(text, ','), tags);
    }
  }

  /** Trimming the first tag and the others with their leading space gives the clean tags back. */
  lemma TrimEach(pieces: seq<string>, tags: seq<string>)
    requires CleanTags(tags) && tags != [] && pieces == [tags[0]] + Spaced(tags[1..])
    ensures |pieces| == |tags| && forall k :: 0 <= k < |tags| ==> Trim(pieces[k]) == tags[k]
  {
    forall k | 0 <= k < |tags|
      ensures Trim(pieces[k]) == tags[k]
    {
      if k > 0 {
        assert pieces[k] == [' '] + tags[k];
        TrimSpaced(tags[k]);
      }
    }
  }

  /** A lone empty tag does not survive the round trip. */
  lemma LoneEmptyTagLost()
    ensures ParseTags(TagsString([""])) == []
  {
    ParseEmpty();
  }

  /** Every list of tags the setter produces has no commas and nothing to trim. */
  lemma ParsedTagsAreClean(text: string)
    ensures CleanTags(ParseTags(text))
  {
  }
}
