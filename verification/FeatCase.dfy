/** The mention pattern in plain characters: what it matches, spelled out, and that the
    case of letters never matters to where it matches. */
module FeatCase {
  import opened Prelude
  import opened Regex
  import opened FeatPattern
  import opened FeatExtract
  import Text

  /** `(?i)` brings ASCII letters to lower case, and the long s to s. */
  function FoldChar(c: char): char {
    if 'A' <= c <= 'Z' then (c as int + 32) as char else if c == '\U{017F}' then 's' else c
  }

  function Folded(s: string): (f: string)
    ensures |f| == |s| && forall i :: 0 <= i < |s| ==> f[i] == FoldChar(s[i])
  {
    if s == "" then "" else [FoldChar(s[0])] + Folded(s[1..])
  }

  predicate IsBlank(c: char) {
    c == '\t' || c == '\n' || c == '\U{0C}' || c == '\r' || c == ' '
  }

  predicate LowerWord(w: string) {
    forall j :: 0 <= j < |w| ==> 'a' <= w[j] <= 'z'
  }

  lemma {:induction false} FoldsIsFoldChar(p: char, x: char)
    requires 'a' <= p <= 'z'
    ensures Folds(p, x) <==> FoldChar(x) == p
  {
  }

  lemma {:induction false} FoldsSpelled(s: string, i: nat, w: string)
    requires LowerWord(w)
    ensures FoldsAt(s, i, w) <==> i + |w| <= |s| && Folded(s)[i..i + |w|] == w
  {
    hide Folds, FoldChar;
    if i + |w| <= |s| {
      var f := Folded(s)[i..i + |w|];
      forall j | 0 <= j < |w| ensures Folds(w[j], s[i + j]) <==> f[j] == w[j] {
        FoldsIsFoldChar(w[j], s[i + j]);
      }
      if FoldsAt(s, i, w) {
        assert forall j :: 0 <= j < |w| ==> Folds(w[j], s[i + j]);
      }
    }
  }

  // ---- what is matched -----------------------------------------------------------

  /** One of the keywords stands from `i` to `k`, letter case aside. */
  predicate KeywordSpelled(s: string, i: nat, k: nat) {
    i <= k <= |s| &&
    var word := Folded(s)[i..k];
    word == "feat" || word == "featuring" || word == "features"
    || (|word| == 5 && word[..4] == "feat" && word[4] != '\n')
  }

  /** Blanks, one of ':', '=' and ' ' at `j`, blanks, and '@' at `a` with a name behind. */
  predicate GapSpelled(s: string, k: nat, j: nat, a: nat) {
    && k <= j < a && a + 1 < |s|
    && (s[j] == ':' || s[j] == '=' || s[j] == ' ')
    && (forall x :: k <= x < a && x != j ==> IsBlank(s[x]))
    && s[a] == '@' && !IsBlank(s[a + 1]) && s[a + 1] != ','
  }

  lemma {:induction false} KeywordsAreSpelled(s: string, i: nat, k: nat)
    ensures KeywordEnd(s, i, k) <==> KeywordSpelled(s, i, k)
  {
    hide FoldsAt;
    FoldsSpelled(s, i, "feat");
    FoldsSpelled(s, i, "featuring");
    FoldsSpelled(s, i, "features");
    if i <= k <= |s| {
      var word := Folded(s)[i..k];
      assert k >= i + 4 ==> word[..4] == Folded(s)[i..i + 4];
      assert k == i + 5 ==> word[4] == FoldChar(s[i + 4]);
    }
  }

  lemma {:induction false} GapsAreSpelled(s: string, k: nat, j: nat, a: nat)
    ensures AtName(s, a) && k <= a && SplitsAt(s, k, j, a) <==> GapSpelled(s, k, j, a)
  {
    assert forall c :: Has(SPACE, c) <==> IsBlank(c);
    assert forall c :: Has(SEP, c) <==> c == ':' || c == '=' || c == ' ';
    assert forall c :: Has(NAME, c) <==> !IsBlank(c) && c != ',';
  }

  /** The pattern matches at a position exactly when a keyword in any letter case, a gap
      and a name stand there, character by character. */
  lemma {:induction false} MatchSpelled(s: string, i: nat)
    requires i <= |s|
    ensures MatchAt(s, i).Some? <==> exists k: nat, j: nat, a: nat :: KeywordSpelled(s, i, k) && GapSpelled(s, k, j, a)
  {
    hide MatchAt, KeywordEnd, KeywordSpelled, GapSpelled, SplitsAt;
    MatchLanguage(s, i);
    forall k: nat ensures KeywordEnd(s, i, k) <==> KeywordSpelled(s, i, k) { KeywordsAreSpelled(s, i, k); }
    forall k: nat, j: nat, a: nat
      ensures AtName(s, a) && k <= a && SplitsAt(s, k, j, a) <==> GapSpelled(s, k, j, a)
    {
      GapsAreSpelled(s, k, j, a);
    }
    if MatchAt(s, i).Some? {
      var k: nat :| KeywordEnd(s, i, k) && GapThenName(s, k);
      var j: nat, a: nat :| AtName(s, a) && k <= a && SplitsAt(s, k, j, a);
      assert KeywordSpelled(s, i, k) && GapSpelled(s, k, j, a);
    }
    if k: nat, j: nat, a: nat :| KeywordSpelled(s, i, k) && GapSpelled(s, k, j, a) {
      assert AtName(s, a) && k <= a && SplitsAt(s, k, j, a);
      assert KeywordEnd(s, i, k) && GapThenName(s, k);
    }
  }

  /** A match starts where it is found; its name stands behind an '@', is the longest run
      of characters other than blanks and commas, and is followed by all blanks up to
      where the search goes on. */
  lemma {:induction false} HitSpelled(s: string, i: nat)
    requires i <= |s| && MatchAt(s, i).Some?
    ensures var h := MatchAt(s, i).value;
      && h.start == i && i + 4 < h.nameStart < h.nameEnd <= h.end <= |s| && s[h.nameStart - 1] == '@'
      && (forall j :: h.nameStart <= j < h.nameEnd ==> !IsBlank(s[j]) && s[j] != ',')
      && (h.nameEnd < |s| ==> IsBlank(s[h.nameEnd]) || s[h.nameEnd] == ',')
      && (forall j :: h.nameEnd <= j < h.end ==> IsBlank(s[j]))
      && (h.end < |s| ==> !IsBlank(s[h.end]))
  {
    hide MatchAt, Scan;
    ScanIsMatch(s, i);
    HitBounds(s, i);
    assert forall c :: Has(SPACE, c) <==> IsBlank(c);
    assert forall c :: Has(NAME, c) <==> !IsBlank(c) && c != ',';
  }

  // ---- letter case ------------------------------------------------------------------

  /** Two texts that differ in the case of letters only. */
  predicate SameFold(s: string, t: string) {
    |s| == |t| && forall i :: 0 <= i < |s| ==> FoldChar(s[i]) == FoldChar(t[i])
  }

  predicate CaseBlind(c: Class) {
    c == SPACE || c == GAP || c == NAME
  }

  lemma {:induction false} ClassBlind(c: Class, x: char, y: char)
    requires CaseBlind(c) && FoldChar(x) == FoldChar(y)
    ensures Has(c, x) == Has(c, y)
    ensures x in {':', '=', '@', ' '} || y in {':', '=', '@', ' '} ==> x == y
  {
  }

  lemma {:induction false} RunBlind(c: Class, s: string, t: string, i: nat)
    requires CaseBlind(c) && SameFold(s, t) && i <= |s|
    ensures RunEnd(c, t, i) == RunEnd(c, s, i)
  {
    hide Has, FoldChar;
    var e := RunEnd(c, s, i);
    forall j | 0 <= j < |s| ensures Has(c, s[j]) == Has(c, t[j]) { ClassBlind(c, s[j], t[j]); }
    RunEndIs(c, t, i, e);
  }

  lemma {:induction false} MarksBlind(s: string, t: string, k: nat, e: nat)
    requires SameFold(s, t) && k <= e <= |s|
    ensures Marks(t, k, e) == Marks(s, k, e) && HasBlank(t, k, e) == HasBlank(s, k, e)
    decreases e - k
  {
    hide FoldChar;
    if k < e {
      MarksBlind(s, t, k + 1, e);
      ClassBlind(SPACE, s[k], t[k]);
    }
    forall j | k <= j < e ensures s[j] == ' ' <==> t[j] == ' ' { ClassBlind(SPACE, s[j], t[j]); }
  }

  lemma {:induction false} WordBlind(s: string, t: string, i: nat, w: string)
    requires SameFold(s, t) && LowerWord(w)
    ensures FoldsAt(t, i, w) == FoldsAt(s, i, w)
  {
    hide FoldChar, FoldsAt;
    FoldsSpelled(s, i, w);
    FoldsSpelled(t, i, w);
    assert Folded(s) == Folded(t);
  }

  lemma {:induction false} GapStartBlind(s: string, t: string, i: nat)
    requires SameFold(s, t) && FoldsAt(s, i, "feat") && FoldsAt(t, i, "feat")
    ensures GapStart(t, i) == GapStart(s, i)
  {
    hide FoldsAt, Has, FoldChar;
    WordBlind(s, t, i, "featuring");
    WordBlind(s, t, i, "features");
    if i + 4 < |s| { ClassBlind(GAP, s[i + 4], t[i + 4]); }
  }

  lemma {:induction false} NameBlind(s: string, t: string, i: nat, a: nat)
    requires SameFold(s, t) && a <= |s|
    ensures NameAt(t, i, a) == NameAt(s, i, a)
  {
    hide Has, FoldChar;
    if a < |s| { ClassBlind(NAME, s[a], t[a]); }
    if a + 1 < |s| {
      ClassBlind(NAME, s[a + 1], t[a + 1]);
      RunBlind(NAME, s, t, a + 1);
      RunBlind(SPACE, s, t, RunEnd(NAME, s, a + 1));
    }
  }

  lemma {:induction false} ScanBlind(s: string, t: string, i: nat)
    requires SameFold(s, t) && i <= |s|
    ensures Scan(t, i) == Scan(s, i)
  {
    hide FoldsAt, GapStart, RunEnd, Marks, HasBlank, NameAt, Has, FoldChar;
    WordBlind(s, t, i, "feat");
    if FoldsAt(s, i, "feat") {
      GapStartBlind(s, t, i);
      var k := GapStart(s, i);
      var a := RunEnd(GAP, s, k);
      RunBlind(GAP, s, t, k);
      MarksBlind(s, t, k, a);
      if k < a { ClassBlind(SPACE, s[k], t[k]); }
      NameBlind(s, t, i, a);
    }
  }

  lemma {:induction false} ScanAllBlind(s: string, t: string, pos: nat)
    requires SameFold(s, t) && pos <= |s|
    ensures ScanAll(t, pos) == ScanAll(s, pos)
    decreases |s| - pos
  {
    hide Scan, SameFold;
    assert |t| == |s| by { SameLength(s, t); }
    ScanBlind(s, t, pos);
    if Scan(s, pos).Some? {
      HitSpan(s, pos);
      ScanAllBlind(s, t, Scan(s, pos).value.end);
    } else if pos < |s| {
      ScanAllBlind(s, t, pos + 1);
    }
  }

  lemma {:induction false} SameLength(s: string, t: string)
    requires SameFold(s, t)
    ensures |s| == |t|
  {
  }

  /** Lower case and the pattern's folding differ in the long s only. */
  lemma {:induction false} FoldIsLower(c: char)
    ensures FoldChar(c) == if c == '\U{017F}' then 's' else Text.LowerChar(c)
  {
  }

  /** What ends a name in the pattern is white space for trimming too. */
  lemma {:induction false} BlanksAreSpaces(c: char)
    ensures IsBlank(c) ==> Text.IsSpace(c)
    ensures Text.IsSpace(c) && !IsBlank(c) <==>
      || c as int in {0x0B, 0x85, 0xA0, 0x1680, 0x2028, 0x2029, 0x202F, 0x205F, 0x3000}
      || 0x2000 <= c as int <= 0x200A
  {
  }

  lemma {:induction false} LowerIsFold(s: string, t: string)
    requires Text.ToLower(s) == Text.ToLower(t)
    ensures SameFold(s, t)
  {
    var a, b := Text.ToLower(s), Text.ToLower(t);
    forall i | 0 <= i < |s| ensures FoldChar(s[i]) == FoldChar(t[i]) {
      assert a[i] == b[i] && a[i] == Text.LowerChar(s[i]) && b[i] == Text.LowerChar(t[i]);
    }
  }

  /** Letter case does not matter: texts that differ in it only have the same matches. */
  lemma {:induction false} CaseDoesNotMatter(s: string, t: string)
    requires SameFold(s, t) || Text.ToLower(s) == Text.ToLower(t)
    ensures FindAll(s, 0) == FindAll(t, 0)
  {
    hide ScanAll, FindAll, SameFold;
    if Text.ToLower(s) == Text.ToLower(t) { LowerIsFold(s, t); }
    FindAllIsScanAll(s, 0);
    FindAllIsScanAll(t, 0);
    ScanAllBlind(s, t, 0);
  }
}
