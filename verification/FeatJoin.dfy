/** The body that is searched is the title, a blank line and the description.
    A match may reach over the blank line; this file says exactly when. */
module FeatJoin {
  import opened Prelude
  import opened Regex
  import opened FeatPattern
  import opened FeatExtract
  import opened FeatTexts

  function Body(t: string, d: string): string {
    t + "\n\n" + d
  }

  /** A keyword whose gap is still open where the title ends. */
  predicate OpenGap(t: string, i: nat) {
    FoldsAt(t, i, "feat") && RunEnd(GAP, t, GapStart(t, i)) == |t|
  }

  /** The description completes the open gap with an '@' and a name. */
  predicate Completes(t: string, i: nat, d: string)
    requires OpenGap(t, i)
  {
    var e := RunEnd(GAP, d, 0);
    && e + 1 < |d| && d[e] == '@' && Has(NAME, d[e + 1])
    && GapAccepted(Body(t, d), i, GapStart(t, i), |t| + 2 + e)
  }

  /** The search of the title from `pos` comes to a keyword that the description
      completes. */
  predicate Carries(t: string, d: string, pos: nat)
    requires pos <= |t|
    decreases |t| - pos
  {
    match Scan(t, pos)
    case Some(h) => HitSpan(t, pos); Carries(t, d, h.end)
    case None => (OpenGap(t, pos) && Completes(t, pos, d)) || (pos < |t| && Carries(t, d, pos + 1))
  }

  lemma {:induction false} FoldsInTitle(t: string, d: string, i: nat, w: string)
    requires i <= |t| && w in {"feat", "featuring", "features"}
    ensures FoldsAt(Body(t, d), i, w) == FoldsAt(t, i, w)
  {
    var b := Body(t, d);
    assert forall j :: 0 <= j < |t| ==> b[j] == t[j];
    if |t| < i + |w| {
      var x := |t| - i;
      assert b[i + x] == '\n' && !Folds(w[x], '\n');
    }
  }

  lemma {:induction false} GapStartInTitle(t: string, d: string, i: nat)
    requires FoldsAt(t, i, "feat") && FoldsAt(Body(t, d), i, "feat")
    ensures GapStart(Body(t, d), i) == GapStart(t, i)
  {
    FoldsInTitle(t, d, i, "featuring");
    FoldsInTitle(t, d, i, "features");
    assert i + 4 < |t| ==> Body(t, d)[i + 4] == t[i + 4];
    assert Body(t, d)[|t|] == '\n';
  }

  /** An open gap runs on over the blank line into the description. */
  lemma {:induction false} GapRunsOn(t: string, d: string, k: nat)
    requires k <= |t| && RunEnd(GAP, t, k) == |t|
    ensures RunEnd(GAP, Body(t, d), k) == |t| + 2 + RunEnd(GAP, d, 0)
  {
    var b := Body(t, d);
    var e := RunEnd(GAP, d, 0);
    forall j | k <= j < |t| + 2 + e ensures Has(GAP, b[j]) {
      assert b[j] == if j < |t| then t[j] else if j < |t| + 2 then '\n' else d[j - |t| - 2];
    }
    assert e < |d| ==> b[|t| + 2 + e] == d[e];
    RunEndIs(GAP, b, k, |t| + 2 + e);
  }

  lemma {:induction false} ScanOpen(t: string, d: string, i: nat)
    requires OpenGap(t, i)
    ensures Scan(t, i).None?
    ensures Scan(Body(t, d), i).Some? <==> Completes(t, i, d)
  {
    var b := Body(t, d);
    var e := RunEnd(GAP, d, 0);
    FoldsInTitle(t, d, i, "feat");
    GapStartInTitle(t, d, i);
    GapRunsOn(t, d, GapStart(t, i));
    assert e < |d| ==> b[|t| + 2 + e] == d[e];
    assert e + 1 < |d| ==> b[|t| + 2 + e + 1] == d[e + 1];
  }

  /** A run that ends inside the title ends there in the body too. */
  lemma {:induction false} RunInTitle(c: Class, t: string, d: string, i: nat)
    requires i <= |t| && (RunEnd(c, t, i) < |t| || !Has(c, '\n'))
    ensures RunEnd(c, Body(t, d), i) == RunEnd(c, t, i)
  {
    var b := Body(t, d);
    assert forall j :: 0 <= j < |t| ==> b[j] == t[j];
    assert b[|t|] == '\n';
    RunEndIs(c, b, i, RunEnd(c, t, i));
  }

  /** Up to where the search resumes, a closed keyword sees only the title. */
  lemma {:induction false} ScanClosed(t: string, d: string, i: nat)
    requires i <= |t| && !OpenGap(t, i)
    ensures Scan(t, i).None? ==> Scan(Body(t, d), i).None?
    ensures Scan(t, i).Some? ==>
      var h := Scan(t, i).value;
      Scan(Body(t, d), i) == Some(h.(end := RunEnd(SPACE, Body(t, d), h.nameEnd)))
  {
    hide FoldsAt, GapStart, RunEnd, Marks, HasBlank, NameAt;
    var b := Body(t, d);
    FoldsInTitle(t, d, i, "feat");
    if FoldsAt(t, i, "feat") {
      GapStartInTitle(t, d, i);
      var k := GapStart(t, i);
      var a := RunEnd(GAP, t, k);
      RunInTitle(GAP, t, d, k);
      assert forall j :: 0 <= j < |t| ==> b[j] == t[j];
      SameMarks(t, b, k, a);
      NameInTitle(t, d, i, a);
    }
  }

  lemma {:induction false} NameInTitle(t: string, d: string, i: nat, a: nat)
    requires a < |t|
    ensures NameAt(t, i, a).None? ==> NameAt(Body(t, d), i, a).None?
    ensures NameAt(t, i, a).Some? ==>
      var h := NameAt(t, i, a).value;
      h.nameEnd <= |t| && NameAt(Body(t, d), i, a) == Some(h.(end := RunEnd(SPACE, Body(t, d), h.nameEnd)))
  {
    var b := Body(t, d);
    assert forall j :: 0 <= j < |t| ==> b[j] == t[j];
    assert b[|t|] == '\n';
    RunInTitle(NAME, t, d, a + 1);
  }

  function Starts(hs: seq<Hit>): (ns: seq<nat>)
    ensures |ns| == |hs| && forall a :: 0 <= a < |hs| ==> ns[a] == hs[a].start
  {
    if hs == [] then [] else [hs[0].start] + Starts(hs[1..])
  }

  lemma {:induction false} StartsCons(h: Hit, hs: seq<Hit>)
    ensures Starts([h] + hs) == [h.start] + Starts(hs)
  {
    assert ([h] + hs)[1..] == hs;
  }

  /** No match starts on the blank line or in whitespace. */
  lemma {:induction false} SkipSpaces(s: string, pos: nat, q: nat)
    requires pos <= q <= |s| && forall i :: pos <= i < q ==> Has(SPACE, s[i])
    ensures ScanAll(s, pos) == ScanAll(s, q)
  {
    forall i | pos <= i < q ensures Scan(s, i).None? {
      NoKeywordAt(s, i);
    }
    SkipDead(s, pos, q);
  }

  /** The hits of the description as the body sees them. */
  function DescriptionHits(t: string, d: string): seq<Hit> {
    MoveAll(ScanAll(d, 0), |t| + 2)
  }

  lemma {:induction false} AfterTitle(t: string, d: string, q: nat)
    requires |t| <= q <= |Body(t, d)|
    requires q <= |t| + 2 || q == RunEnd(SPACE, Body(t, d), |t|)
    ensures ScanAll(Body(t, d), q) == DescriptionHits(t, d)
    ensures Names(Body(t, d), DescriptionHits(t, d)) == Names(d, ScanAll(d, 0))
  {
    hide Scan, ScanAll, Names, MoveAll;
    var b := Body(t, d);
    var p := t + "\n\n";
    assert b == p + d;
    assert b[|t|] == '\n' && b[|t| + 1] == '\n';
    assert RunEnd(SPACE, b, |t|) >= |t| + 2;
    if q <= |t| + 2 {
      SkipSpaces(b, q, |t| + 2);
    } else {
      SkipSpaces(b, |t| + 2, q);
    }
    ScanAllMoved(p, d, 0);
    MentionsMoved(p, d, 0);
  }

  /** While nothing is carried over the blank line, the body's hits are the title's
      hits followed by the description's. */
  lemma {:induction false} JoinFrom(t: string, d: string, pos: nat)
    requires pos <= |t| && !Carries(t, d, pos)
    ensures Joins(t, d, pos)
    decreases |t| - pos
  {
    hide Scan, OpenGap, Completes, DescriptionHits;
    var b := Body(t, d);
    if Scan(t, pos).Some? {
      TitleHit(t, d, pos);
      JoinFrom(t, d, Scan(t, pos).value.end);
      JoinHit(t, d, pos);
    } else if OpenGap(t, pos) {
      ScanOpen(t, d, pos);
      JoinStep(t, d, pos);
    } else {
      ScanClosed(t, d, pos);
      JoinStep(t, d, pos);
    }
  }

  /** A hit of the title is a hit of the body, up to the whitespace it swallows. */
  lemma {:induction false} TitleHit(t: string, d: string, pos: nat)
    requires pos <= |t| && Scan(t, pos).Some?
    ensures Scan(Body(t, d), pos).Some?
    ensures var h, h' := Scan(t, pos).value, Scan(Body(t, d), pos).value;
      && h.start == h'.start && NameOf(t, h) == NameOf(Body(t, d), h')
      && pos < h.end <= |t| && h.end <= h'.end <= |Body(t, d)|
      && ScanAll(Body(t, d), h'.end) == ScanAll(Body(t, d), h.end)
  {
    hide Scan, ScanAll;
    var b := Body(t, d);
    OpenIsNone(t, d, pos);
    ScanClosed(t, d, pos);
    HitBounds(t, pos);
    HitBounds(b, pos);
    var h, h' := Scan(t, pos).value, Scan(b, pos).value;
    SameSpan(t, d, h, h');
    SkipSpaces(b, h.end, h'.end);
  }

  lemma {:induction false} OpenIsNone(t: string, d: string, i: nat)
    requires i <= |t| && Scan(t, i).Some?
    ensures !OpenGap(t, i)
  {
    if OpenGap(t, i) { ScanOpen(t, d, i); }
  }

  lemma {:induction false} SameSpan(t: string, d: string, h: Hit, h': Hit)
    requires h.nameStart <= h.nameEnd <= h.end <= |t| && h' == h.(end := RunEnd(SPACE, Body(t, d), h.nameEnd))
    requires forall j :: h.nameEnd <= j < h.end ==> Has(SPACE, t[j])
    ensures h.end <= h'.end && NameOf(t, h) == NameOf(Body(t, d), h')
  {
    var b := Body(t, d);
    assert forall j :: 0 <= j < |t| ==> b[j] == t[j];
    assert b[h.nameStart..h.nameEnd] == t[h.nameStart..h.nameEnd];
    assert forall j :: h.nameEnd <= j < h.end ==> b[j] == t[j] && Has(SPACE, b[j]);
  }

  ghost predicate Joins(t: string, d: string, pos: nat)
    requires pos <= |t|
  {
    var b := Body(t, d);
    && Starts(ScanAll(b, pos)) == Starts(ScanAll(t, pos)) + Starts(DescriptionHits(t, d))
    && Names(b, ScanAll(b, pos)) == Names(t, ScanAll(t, pos)) + Names(d, ScanAll(d, 0))
  }

  lemma {:induction false} JoinHit(t: string, d: string, pos: nat)
    requires pos <= |t| && Scan(t, pos).Some? && Scan(t, pos).value.end <= |t|
    requires Joins(t, d, Scan(t, pos).value.end)
    ensures Joins(t, d, pos)
  {
    hide Scan, DescriptionHits, Starts, Names, NameOf;
    TitleHit(t, d, pos);
    HitSpan(t, pos);
    HitSpan(Body(t, d), pos);
    var b := Body(t, d);
    var h, h' := Scan(t, pos).value, Scan(b, pos).value;
    NamesCons(t, h, ScanAll(t, h.end));
    NamesCons(b, h', ScanAll(b, h'.end));
    StartsCons(h, ScanAll(t, h.end));
    StartsCons(h', ScanAll(b, h'.end));
  }

  lemma {:induction false} JoinStep(t: string, d: string, pos: nat)
    requires pos <= |t| && !Carries(t, d, pos) && Scan(t, pos).None? && Scan(Body(t, d), pos).None?
    ensures Joins(t, d, pos)
    decreases |t| - pos, 0
  {
    hide Scan, OpenGap, Completes, DescriptionHits;
    if pos < |t| {
      JoinFrom(t, d, pos + 1);
    } else {
      AfterTitle(t, d, pos);
    }
  }

  /** Carrying shows up as a hit that starts where the title alone has none. */
  lemma {:induction false} CarriedHit(t: string, d: string, pos: nat) returns (i: nat)
    requires pos <= |t| && Carries(t, d, pos)
    ensures i <= |t| && Scan(t, i).None? && i in Starts(ScanAll(Body(t, d), pos))
    decreases |t| - pos
  {
    hide Scan, Completes;
    var b := Body(t, d);
    if Scan(t, pos).Some? {
      TitleHit(t, d, pos);
      i := CarriedHit(t, d, Scan(t, pos).value.end);
      StartsCons(Scan(b, pos).value, ScanAll(b, Scan(b, pos).value.end));
    } else if OpenGap(t, pos) && Completes(t, pos, d) {
      i := pos;
      ScanOpen(t, d, pos);
      HitSpan(b, pos);
      StartsCons(Scan(b, pos).value, ScanAll(b, Scan(b, pos).value.end));
    } else {
      i := CarriedHit(t, d, pos + 1);
      ScanNone(t, d, pos);
    }
  }

  lemma {:induction false} ScanNone(t: string, d: string, pos: nat)
    requires pos <= |t| && Scan(t, pos).None? && (OpenGap(t, pos) ==> !Completes(t, pos, d))
    ensures Scan(Body(t, d), pos).None?
  {
    if OpenGap(t, pos) { ScanOpen(t, d, pos); } else { ScanClosed(t, d, pos); }
  }

  /** Searching title and description together finds, place by place, what searching
      them apart finds, exactly when no open keyword is carried over. */
  lemma {:induction false} JoinExact(t: string, d: string)
    ensures Starts(FindAll(Body(t, d), 0)) == Starts(FindAll(t, 0)) + Starts(MoveAll(FindAll(d, 0), |t| + 2))
      <==> !Carries(t, d, 0)
    ensures !Carries(t, d, 0) ==> Mentions(Body(t, d)) == Mentions(t) + Mentions(d)
  {
    hide Scan, ScanAll, FindAll, Carries;
    FindAllIsScanAll(Body(t, d), 0);
    FindAllIsScanAll(t, 0);
    FindAllIsScanAll(d, 0);
    if !Carries(t, d, 0) {
      JoinFrom(t, d, 0);
    } else {
      var i := CarriedHit(t, d, 0);
      ScanAllOrdered(t, 0);
      assert forall a :: 0 <= a < |ScanAll(t, 0)| ==> IsHit(t, ScanAll(t, 0)[a]);
      assert i !in Starts(ScanAll(t, 0));
      assert i !in Starts(MoveAll(ScanAll(d, 0), |t| + 2));
    }
  }

  /** A description whose first character outside whitespace, ':' and '=' is not
      '@' never completes a title. */
  lemma {:induction false} PlainDescription(t: string, d: string, pos: nat)
    requires pos <= |t|
    requires RunEnd(GAP, d, 0) < |d| ==> d[RunEnd(GAP, d, 0)] != '@'
    ensures !Carries(t, d, pos)
    decreases |t| - pos
  {
    hide Scan;
    if Scan(t, pos).Some? {
      HitSpan(t, pos);
      PlainDescription(t, d, Scan(t, pos).value.end);
    } else if pos < |t| {
      PlainDescription(t, d, pos + 1);
    }
  }

  /** Carrying happens: whenever the title is a keyword and an accepted gap, any
      mention at the head of the description is drawn into it. */
  lemma {:induction false} KeywordTitleCarries(w: string, g: string, d: string)
    requires IsKeyword(w) && IsGap(g)
    requires |d| > 1 && d[0] == '@' && Has(NAME, d[1])
    ensures Carries(w + g, d, 0)
  {
    GapNotEmpty(g);
    AtStops(d);
    GapBehind(w, g);
    hide Has, Scan, RunEnd, FoldsAt, GapStart, Marks, HasBlank, GapOk, GapAccepted, IsKeyword, KeyEnd, Body;
    var t := w + g;
    GapStartAfter(w, g);
    RunEndIs(GAP, t, KeyEnd(w), |t|);
    GapOverBlankLine(t, d, KeyEnd(w));
    assert OpenGap(t, 0) && Completes(t, 0, d);
    ScanOpen(t, d, 0);
  }

  lemma {:induction false} AtStops(d: string)
    requires d != "" && d[0] == '@'
    ensures RunEnd(GAP, d, 0) == 0
  {
    RunEndIs(GAP, d, 0, 0);
  }

  lemma {:induction false} GapOverBlankLine(t: string, d: string, k: nat)
    requires k <= |t| && GapAccepted(t, 0, k, |t|)
    ensures |Body(t, d)| >= |t| + 2 && GapAccepted(Body(t, d), 0, k, |t| + 2)
  {
    var b := Body(t, d);
    assert forall j :: 0 <= j < |t| ==> b[j] == t[j];
    SameMarks(t, b, k, |t|);
    MarksSplit(b, k, |t|, |t| + 2);
    assert b[|t|] == '\n' && b[|t| + 1] == '\n';
    NoMarks(b, |t|, |t| + 2);
    assert HasBlank(b, k, |t|) ==> HasBlank(b, k, |t| + 2);
  }
}
