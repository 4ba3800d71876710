/** All mentions of a text: the successive leftmost matches of the pattern, what
    they are, and how they behave under printing and concatenation. */
module FeatExtract {
  import opened Prelude
  import opened Regex
  import opened FeatPattern

  lemma {:induction false} HitBounds(s: string, i: nat)
    requires i <= |s| && Scan(s, i).Some?
    ensures var h := Scan(s, i).value;
      && h.start == i && i + 4 < h.nameStart < h.nameEnd <= h.end <= |s|
      && s[h.nameStart - 1] == '@'
      && (forall j :: h.nameStart <= j < h.nameEnd ==> Has(NAME, s[j]))
      && (h.nameEnd < |s| ==> !Has(NAME, s[h.nameEnd]))
      && (forall j :: h.nameEnd <= j < h.end ==> Has(SPACE, s[j]))
      && (h.end < |s| ==> !Has(SPACE, s[h.end]))
  {
    var k := GapStart(s, i);
    var a := RunEnd(GAP, s, k);
    assert a > k by {
      assert Marks(s, k, a) > 0 || HasBlank(s, k, a);
    }
    assert RunEnd(NAME, s, a + 1) > a + 1;
  }

  lemma {:induction false} HitSpan(s: string, i: nat)
    requires i <= |s| && Scan(s, i).Some?
    ensures Scan(s, i).value.start == i && i < Scan(s, i).value.end <= |s|
  {
    HitBounds(s, i);
  }

  /** The non-overlapping matches from `pos` on, leftmost first. */
  function FindAll(s: string, pos: nat): seq<Hit>
    requires pos <= |s|
    decreases |s| - pos
  {
    ScanIsMatch(s, pos);
    match MatchAt(s, pos)
    case Some(h) => HitBounds(s, pos); [h] + FindAll(s, h.end)
    case None => if pos < |s| then FindAll(s, pos + 1) else []
  }

  /** The same search with the scan in place of the backtracking machine. */
  function ScanAll(s: string, pos: nat): seq<Hit>
    requires pos <= |s|
    decreases |s| - pos
  {
    match Scan(s, pos)
    case Some(h) => HitSpan(s, pos); [h] + ScanAll(s, h.end)
    case None => if pos < |s| then ScanAll(s, pos + 1) else []
  }

  lemma {:induction false} FindAllIsScanAll(s: string, pos: nat)
    requires pos <= |s|
    ensures FindAll(s, pos) == ScanAll(s, pos)
    decreases |s| - pos
  {
    hide Scan, MatchAt;
    ScanIsMatch(s, pos);
    if Scan(s, pos).Some? {
      HitSpan(s, pos);
      FindAllIsScanAll(s, Scan(s, pos).value.end);
    } else if pos < |s| {
      FindAllIsScanAll(s, pos + 1);
    }
  }

  predicate IsHit(s: string, h: Hit) {
    h.start <= |s| && Scan(s, h.start) == Some(h)
  }

  /** Every entry is a match, and they are ordered and disjoint. */
  ghost predicate Ordered(s: string, pos: nat, hs: seq<Hit>) {
    && (forall a :: 0 <= a < |hs| ==> IsHit(s, hs[a]) && pos <= hs[a].start < hs[a].end <= |s|)
    && (forall a, b :: 0 <= a < b < |hs| ==> hs[a].end <= hs[b].start)
  }

  ghost predicate Inside(i: nat, hs: seq<Hit>) {
    exists a :: 0 <= a < |hs| && hs[a].start <= i < hs[a].end
  }

  /** No position where the pattern matches lies outside all entries. */
  ghost predicate Complete(s: string, pos: nat, hs: seq<Hit>) {
    forall i :: pos <= i <= |s| && Scan(s, i).Some? ==> Inside(i, hs)
  }

  lemma {:induction false} ScanAllOrdered(s: string, pos: nat)
    requires pos <= |s|
    ensures Ordered(s, pos, ScanAll(s, pos))
    decreases |s| - pos
  {
    hide Scan;
    if Scan(s, pos).Some? {
      HitSpan(s, pos);
      ScanAllOrdered(s, Scan(s, pos).value.end);
    } else if pos < |s| {
      ScanAllOrdered(s, pos + 1);
    }
  }

  lemma {:induction false} ScanAllCovers(s: string, pos: nat, i: nat)
    requires pos <= i <= |s| && Scan(s, i).Some?
    ensures Inside(i, ScanAll(s, pos))
    decreases |s| - pos
  {
    hide Scan;
    var hs := ScanAll(s, pos);
    if Scan(s, pos).Some? {
      var h := Scan(s, pos).value;
      HitSpan(s, pos);
      assert hs[0] == h;
      if h.end <= i {
        ScanAllCovers(s, h.end, i);
        var t := ScanAll(s, h.end);
        var a :| 0 <= a < |t| && t[a].start <= i < t[a].end;
        assert hs[a + 1] == t[a];
      }
    } else {
      ScanAllCovers(s, pos + 1, i);
    }
  }

  /** What FindAll returns on any text: ordered disjoint matches, none missed. */
  lemma {:induction false} FindAllExact(s: string)
    ensures Ordered(s, 0, FindAll(s, 0)) && Complete(s, 0, FindAll(s, 0))
  {
    hide Scan;
    FindAllIsScanAll(s, 0);
    ScanAllOrdered(s, 0);
    forall i: nat | i <= |s| && Scan(s, i).Some? ensures Inside(i, FindAll(s, 0)) {
      ScanAllCovers(s, 0, i);
    }
  }

  lemma {:induction false} FirstHitHere(s: string, pos: nat, hs: seq<Hit>)
    requires pos <= |s| && Ordered(s, pos, hs) && Complete(s, pos, hs) && Scan(s, pos).Some?
    ensures hs != [] && hs[0] == Scan(s, pos).value
  {
    hide Scan;
    assert Inside(pos, hs);
    var a :| 0 <= a < |hs| && hs[a].start <= pos < hs[a].end;
    assert forall b :: 0 < b < |hs| ==> hs[0].end <= hs[b].start;
    assert IsHit(s, hs[0]);
  }

  lemma {:induction false} ExactTail(s: string, pos: nat, hs: seq<Hit>)
    requires pos <= |s| && Ordered(s, pos, hs) && Complete(s, pos, hs)
    requires hs != [] && Scan(s, pos) == Some(hs[0])
    ensures Ordered(s, hs[0].end, hs[1..]) && Complete(s, hs[0].end, hs[1..])
  {
    hide Scan;
    HitSpan(s, pos);
    var t := hs[1..];
    assert forall b :: 0 <= b < |t| ==> t[b] == hs[b + 1];
    forall i | hs[0].end <= i <= |s| && Scan(s, i).Some? ensures Inside(i, t) {
      assert Inside(i, hs);
      var b :| 0 <= b < |hs| && hs[b].start <= i < hs[b].end;
      assert t[b - 1] == hs[b];
    }
  }

  /** Order and completeness pin the matches down: any such list is FindAll's. */
  lemma {:induction false} ExactUnique(s: string, pos: nat, hs: seq<Hit>)
    requires pos <= |s| && Ordered(s, pos, hs) && Complete(s, pos, hs)
    ensures hs == ScanAll(s, pos)
    decreases |s| - pos
  {
    hide Scan;
    assert |hs| > 0 ==> IsHit(s, hs[0]);
    if Scan(s, pos).Some? {
      var h := Scan(s, pos).value;
      HitSpan(s, pos);
      FirstHitHere(s, pos, hs);
      ExactTail(s, pos, hs);
      ExactUnique(s, h.end, hs[1..]);
    } else {
      forall a | 0 <= a < |hs| ensures hs[a].start > pos {
        assert IsHit(s, hs[a]);
      }
      if pos < |s| {
        ExactUnique(s, pos + 1, hs);
      }
    }
  }

  // ---- the captured names -------------------------------------------------

  function NameOf(s: string, h: Hit): string {
    if h.nameStart <= h.nameEnd <= |s| then s[h.nameStart..h.nameEnd] else ""
  }

  function Names(s: string, hs: seq<Hit>): (ns: seq<string>)
    ensures |ns| == |hs|
    ensures forall a :: 0 <= a < |hs| ==> ns[a] == NameOf(s, hs[a])
  {
    if hs == [] then [] else [NameOf(s, hs[0])] + Names(s, hs[1..])
  }

  lemma {:induction false} NamesCons(s: string, h: Hit, hs: seq<Hit>)
    ensures Names(s, [h] + hs) == [NameOf(s, h)] + Names(s, hs)
  {
    assert ([h] + hs)[1..] == hs;
  }

  /** The captures of a text in order. */
  function Mentions(s: string): seq<string> {
    Names(s, FindAll(s, 0))
  }

  lemma {:induction false} SkipDead(s: string, pos: nat, q: nat)
    requires pos <= q <= |s|
    requires forall i :: pos <= i < q ==> Scan(s, i).None?
    ensures ScanAll(s, pos) == ScanAll(s, q)
    decreases q - pos
  {
    if pos < q { SkipDead(s, pos + 1, q); }
  }

  lemma {:induction false} NoKeywordAt(s: string, i: nat)
    requires i < |s| && s[i] !in {'f', 'F'}
    ensures Scan(s, i).None?
  {
    assert FoldsAt(s, i, "feat") ==> Folds("feat"[0], s[i + 0]);
  }

  // ---- a text in front does not matter ------------------------------------

  function Moved(h: Hit, n: nat): Hit {
    Hit(h.start + n, h.nameStart + n, h.nameEnd + n, h.end + n)
  }

  lemma {:induction false} RunEndMoved(c: Class, p: string, s: string, i: nat)
    requires i <= |s|
    ensures RunEnd(c, p + s, |p| + i) == |p| + RunEnd(c, s, i)
    decreases |s| - i
  {
    var e := RunEnd(c, s, i);
    forall j | |p| + i <= j < |p| + e ensures Has(c, (p + s)[j]) {
      assert (p + s)[j] == s[j - |p|];
    }
    RunEndIs(c, p + s, |p| + i, |p| + e);
  }

  lemma {:induction false} FoldsMoved(p: string, s: string, i: nat, w: string)
    requires i <= |s|
    ensures FoldsAt(p + s, |p| + i, w) == FoldsAt(s, i, w)
  {
    if i + |w| <= |s| {
      assert forall j :: i <= j < |s| ==> (p + s)[|p| + j] == s[j];
    }
  }

  lemma {:induction false} MarksMoved(p: string, s: string, k: nat, e: nat)
    requires k <= e <= |s|
    ensures Marks(p + s, |p| + k, |p| + e) == Marks(s, k, e)
    ensures HasBlank(p + s, |p| + k, |p| + e) == HasBlank(s, k, e)
    decreases e - k
  {
    if k < e { MarksMoved(p, s, k + 1, e); }
    forall j | k <= j < e && s[j] == ' ' ensures HasBlank(p + s, |p| + k, |p| + e) {
      assert (p + s)[|p| + j] == ' ';
    }
  }

  lemma {:induction false} ScanMoved(p: string, s: string, i: nat)
    requires i <= |s|
    ensures Scan(s, i).None? ==> Scan(p + s, |p| + i).None?
    ensures Scan(s, i).Some? ==> Scan(p + s, |p| + i) == Some(Moved(Scan(s, i).value, |p|))
  {
    hide FoldsAt, GapStart, RunEnd, Marks, HasBlank, NameAt;
    FoldsMoved(p, s, i, "feat");
    if FoldsAt(s, i, "feat") {
      GapStartMoved(p, s, i);
      var k := GapStart(s, i);
      var a := RunEnd(GAP, s, k);
      RunEndMoved(GAP, p, s, k);
      MarksMoved(p, s, k, a);
      assert k < a ==> (p + s)[|p| + k] == s[k];
      NameMoved(p, s, i, a);
    }
  }

  lemma {:induction false} GapStartMoved(p: string, s: string, i: nat)
    requires FoldsAt(s, i, "feat") && FoldsAt(p + s, |p| + i, "feat")
    ensures GapStart(p + s, |p| + i) == |p| + GapStart(s, i)
  {
    FoldsMoved(p, s, i, "featuring");
    FoldsMoved(p, s, i, "features");
  }

  lemma {:induction false} NameMoved(p: string, s: string, i: nat, a: nat)
    requires a <= |s|
    ensures NameAt(p + s, |p| + i, |p| + a) ==
      if NameAt(s, i, a).Some? then Some(Moved(NameAt(s, i, a).value, |p|)) else None
  {
    assert a < |s| ==> (p + s)[|p| + a] == s[a];
    if a + 1 < |s| {
      assert (p + s)[|p| + a + 1] == s[a + 1];
      RunEndMoved(NAME, p, s, a + 1);
      RunEndMoved(SPACE, p, s, RunEnd(NAME, s, a + 1));
    }
  }

  function MoveAll(hs: seq<Hit>, n: nat): (ms: seq<Hit>)
    ensures |ms| == |hs| && forall a :: 0 <= a < |hs| ==> ms[a] == Moved(hs[a], n)
  {
    if hs == [] then [] else [Moved(hs[0], n)] + MoveAll(hs[1..], n)
  }

  lemma {:induction false} MoveCons(h: Hit, hs: seq<Hit>, n: nat)
    ensures MoveAll([h] + hs, n) == [Moved(h, n)] + MoveAll(hs, n)
  {
    assert ([h] + hs)[1..] == hs;
  }

  /** Searching behind a prefix finds the same hits, moved. */
  lemma {:induction false} ScanAllMoved(p: string, s: string, pos: nat)
    requires pos <= |s|
    ensures ScanAll(p + s, |p| + pos) == MoveAll(ScanAll(s, pos), |p|)
    decreases |s| - pos
  {
    hide Scan, MoveAll;
    ScanMoved(p, s, pos);
    if Scan(s, pos).Some? {
      var h := Scan(s, pos).value;
      HitSpan(s, pos);
      ScanAllMoved(p, s, h.end);
      MoveCons(h, ScanAll(s, h.end), |p|);
    } else if pos < |s| {
      ScanAllMoved(p, s, pos + 1);
    } else {
      NoMoves(|p|);
    }
  }

  lemma {:induction false} NoMoves(n: nat)
    ensures MoveAll([], n) == []
  {
  }

  lemma {:induction false} MentionsMoved(p: string, s: string, pos: nat)
    requires pos <= |s|
    ensures Names(p + s, ScanAll(p + s, |p| + pos)) == Names(s, ScanAll(s, pos))
  {
    hide Scan, ScanAll;
    ScanAllMoved(p, s, pos);
    var hs := ScanAll(s, pos);
    forall a | 0 <= a < |hs| ensures NameOf(p + s, Moved(hs[a], |p|)) == NameOf(s, hs[a]) {
      var h := hs[a];
      if h.nameStart <= h.nameEnd <= |s| {
        assert (p + s)[|p| + h.nameStart..|p| + h.nameEnd] == s[h.nameStart..h.nameEnd];
      } else {
        assert !(h.nameStart + |p| <= h.nameEnd + |p| <= |p + s|);
      }
    }
    assert Names(p + s, MoveAll(hs, |p|)) == Names(s, hs);
  }
}
