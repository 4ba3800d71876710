/** Strings taken apart and put together when a track is added: the name of an
    uploaded file and the tags of a SoundCloud track. */
module Naming {
  import opened Prelude
  import opened Text

  datatype FileName = FileName(base: string, extension: string)

  lemma {:induction false} JoinLast(ps: seq<string>, sep: string)
    requires |ps| >= 2
    ensures Join(ps, sep) == Join(ps[..|ps| - 1], sep) + sep + ps[|ps| - 1]
    decreases |ps|
  {
    var front := ps[..|ps| - 1];
    if |ps| > 2 {
      JoinLast(ps[1..], sep);
      assert ps[1..][..|ps| - 2] == front[1..];
    }
  }

  /** All pieces but the last, and the last; a stock extension when there is no dot. */
  function SplitName(name: string): FileName {
    var parts := Split(name, '.');
    var n := |parts|;
    if n >= 2 then FileName(Join(parts[..n - 1], "."), parts[n - 1]) else FileName(name, "blob")
  }

  /** A name with a dot splits at its last dot and is rebuilt from the two parts; a
      name without one is kept whole. */
  lemma {:induction false} SplitNameRebuilds(name: string)
    ensures Free(SplitName(name).extension, '.')
    ensures Free(name, '.') ==> SplitName(name) == FileName(name, "blob")
    ensures !Free(name, '.') ==> SplitName(name).base + "." + SplitName(name).extension == name
  {
    var parts := Split(name, '.');
    SplitFree(name, '.');
    JoinSplit(name, '.');
    if |parts| >= 2 {
      JoinLast(parts, ".");
      assert name[|SplitName(name).base|] == '.';
    } else {
      assert parts == [name];
    }
  }

  // ---- tags ----------------------------------------------------------------------

  function TrimAll(ps: seq<string>): (ts: seq<string>)
    ensures |ts| == |ps| && forall k :: 0 <= k < |ps| ==> ts[k] == TrimSpace(ps[k])
  {
    if ps == [] then [] else [TrimSpace(ps[0])] + TrimAll(ps[1..])
  }

  /** The tags of a post: nothing for a blank string, else the trimmed pieces. */
  function TagsOf(tags: string): Option<seq<string>> {
    if TrimSpace(tags) == "" then None else Some(TrimAll(Split(tags, ',')))
  }

  /** The slice of pieces is overwritten in place, one piece after the other. */
  method TagList(tags: string) returns (list: Option<seq<string>>)
    ensures list == TagsOf(tags)
  {
    if TrimSpace(tags) == "" { return None; }
    var pieces := Split(tags, ',');
    var a := new string[|pieces|](i requires 0 <= i < |pieces| => pieces[i]);
    for k := 0 to a.Length
      invariant forall j :: 0 <= j < k ==> a[j] == TrimSpace(pieces[j])
      invariant forall j :: k <= j < a.Length ==> a[j] == pieces[j]
    {
      a[k] := TrimSpace(a[k]);
    }
    assert a[..] == TrimAll(pieces);
    list := Some(a[..]);
  }

  /** The stored tags of a SoundCloud track: its genre and its blank-separated tags. */
  function SoundCloudTags(genre: string, tagList: string): string {
    Join([genre] + Split(tagList, ' '), ", ")
  }

  /** The comma-split, trimmed parts of every piece, one piece after the other. */
  function PartsOf(pieces: seq<string>): seq<string> {
    if pieces == [] then [] else TrimAll(Split(pieces[0], ',')) + PartsOf(pieces[1..])
  }

  lemma {:induction false} TrimAllConcat(a: seq<string>, b: seq<string>)
    ensures TrimAll(a + b) == TrimAll(a) + TrimAll(b)
  {
  }

  /** A blank in front of a piece is trimmed away. */
  lemma {:induction false} LeadingBlank(s: string)
    ensures TrimAll(Split(" " + s, ',')) == TrimAll(Split(s, ','))
  {
    var ps := Split(s, ',');
    assert (" " + s)[1..] == s;
    assert Split(" " + s, ',') == Push(' ', ps);
    assert ([' '] + ps[0])[1..] == ps[0];
  }

  lemma {:induction false} JoinedParts(pieces: seq<string>)
    requires pieces != []
    ensures TrimAll(Split(Join(pieces, ", "), ',')) == PartsOf(pieces)
    decreases |pieces|
  {
    if |pieces| > 1 {
      var rest := Join(pieces[1..], ", ");
      assert Join(pieces, ", ") == pieces[0] + [','] + (" " + rest);
      SplitConcat(pieces[0], " " + rest, ',');
      TrimAllConcat(Split(pieces[0], ','), Split(" " + rest, ','));
      LeadingBlank(rest);
      JoinedParts(pieces[1..]);
    } else {
      assert PartsOf(pieces[1..]) == [];
    }
  }

  lemma {:induction false} CommaStays(a: string, b: string)
    ensures TrimSpace(a + "," + b) != ""
  {
    TrimsToNothing(a + "," + b);
    assert (a + "," + b)[|a|] == ',';
  }

  /** The tags read back from two or more joined pieces are never nil and are the
      parts of the pieces in order; clean pieces come back exactly. */
  lemma {:induction false} TagsRoundTrip(pieces: seq<string>)
    requires |pieces| >= 2
    ensures TagsOf(Join(pieces, ", ")) == Some(PartsOf(pieces))
    ensures (forall k :: 0 <= k < |pieces| ==> Trimmed(pieces[k]) && Free(pieces[k], ',')) ==> PartsOf(pieces) == pieces
  {
    JoinedParts(pieces);
    assert Join(pieces, ", ") == pieces[0] + "," + (" " + Join(pieces[1..], ", "));
    CommaStays(pieces[0], " " + Join(pieces[1..], ", "));
    if forall k :: 0 <= k < |pieces| ==> Trimmed(pieces[k]) && Free(pieces[k], ',') {
      CleanPieces(pieces);
    }
  }

  lemma {:induction false} CleanPieces(pieces: seq<string>)
    requires forall k :: 0 <= k < |pieces| ==> Trimmed(pieces[k]) && Free(pieces[k], ',')
    ensures PartsOf(pieces) == pieces
    decreases |pieces|
  {
    if pieces != [] {
      CleanPieces(pieces[1..]);
      SplitOfFree(pieces[0], ',');
      TrimmedStays(pieces[0]);
      assert TrimAll([pieces[0]]) == [pieces[0]];
    }
  }

  /** A SoundCloud track always has a tag list. */
  lemma {:induction false} SoundCloudTagsListed(genre: string, tagList: string)
    ensures TagsOf(SoundCloudTags(genre, tagList)) == Some(PartsOf([genre] + Split(tagList, ' ')))
  {
    TagsRoundTrip([genre] + Split(tagList, ' '));
  }
}
