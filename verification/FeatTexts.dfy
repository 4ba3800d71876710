/** Mentions of composed texts: printing a list of credits and reading it back,
    and joining a title and a description. */
module FeatTexts {
  import opened Prelude
  import opened Regex
  import opened FeatPattern
  import opened FeatExtract

  // ---- printing credits and reading them back ------------------------------

  datatype Credit = Credit(intro: string, name: string, sep: string)

  /** A text up to its '@' that the pattern accepts in front of a name. */
  predicate IsIntro(p: string) {
    && FoldsAt(p, 0, "feat") && p[|p| - 1] == '@'
    && var k := GapStart(p, 0);
       k < |p| && RunEnd(GAP, p, k) == |p| - 1 && GapAccepted(p, 0, k, |p| - 1)
  }

  predicate IsName(n: string) {
    n != "" && forall j :: 0 <= j < |n| ==> Has(NAME, n[j])
  }

  /** Commas and whitespace that separate a credit from what follows; before the end of
      the text there need not be any. */
  predicate IsSep(p: string, last: bool) {
    (p != "" || last) && forall j :: 0 <= j < |p| ==> !Has(NAME, p[j])
  }

  predicate Wellformed(cs: seq<Credit>) {
    forall a :: 0 <= a < |cs| ==> IsIntro(cs[a].intro) && IsName(cs[a].name) && IsSep(cs[a].sep, a == |cs| - 1)
  }

  function Print(cs: seq<Credit>): string {
    if cs == [] then "" else cs[0].intro + cs[0].name + cs[0].sep + Print(cs[1..])
  }

  function CreditNames(cs: seq<Credit>): (ns: seq<string>)
    ensures |ns| == |cs| && forall a :: 0 <= a < |cs| ==> ns[a] == cs[a].name
  {
    if cs == [] then [] else [cs[0].name] + CreditNames(cs[1..])
  }

  lemma {:induction false} IntroGap(p: string, u: string, w: string)
    requires FoldsAt(p, 0, "feat") && p[|p| - 1] == '@' && w in {"feat", "featuring", "features"}
    ensures FoldsAt(p + u, 0, w) == FoldsAt(p, 0, w)
  {
    assert forall j :: 0 <= j < |p| ==> (p + u)[j] == p[j];
    if |p| <= |w| && FoldsAt(p + u, 0, w) {
      assert Folds(w[|p| - 1], (p + u)[0 + (|p| - 1)]);
    }
    assert w == "feat" ==> |p| >= |w|;
  }

  lemma {:induction false} SamePart(c: Class, s: string, t: string, i: nat, e: nat)
    requires i <= e && e < |s| && e < |t| && s[..e + 1] == t[..e + 1] && RunEnd(c, s, i) == e
    ensures RunEnd(c, t, i) == e
  {
    assert forall j :: 0 <= j <= e ==> s[j] == s[..e + 1][j] && t[j] == t[..e + 1][j];
    RunEndIs(c, t, i, e);
  }

  lemma {:induction false} SameMarks(s: string, t: string, k: nat, e: nat)
    requires k <= e <= |s| && e <= |t| && (forall j :: k <= j < e ==> s[j] == t[j])
    ensures Marks(s, k, e) == Marks(t, k, e)
    ensures HasBlank(s, k, e) == HasBlank(t, k, e)
    decreases e - k
  {
    if k < e { SameMarks(s, t, k + 1, e); }
  }

  /** An introduction is accepted in front of every name. */
  lemma {:induction false} IntroAccepted(p: string, u: string)
    requires IsIntro(p)
    ensures Scan(p + u, 0) == NameAt(p + u, 0, |p| - 1)
  {
    hide RunEnd, Marks, HasBlank, NameAt;
    var s := p + u;
    var k := GapStart(p, 0);
    IntroGap(p, u, "feat");
    IntroGap(p, u, "featuring");
    IntroGap(p, u, "features");
    assert forall j :: 0 <= j < |p| ==> s[j] == p[j];
    assert GapStart(s, 0) == k;
    assert s[..|p|] == p[..|p|];
    SamePart(GAP, p, s, k, |p| - 1);
    SameMarks(p, s, k, |p| - 1);
  }

  lemma {:induction false} NameAtIs(s: string, i: nat, a: nat, n: string)
    requires a + 1 + |n| <= |s| && s[a] == '@' && IsName(n) && s[a + 1..a + 1 + |n|] == n
    requires a + 1 + |n| < |s| ==> !Has(NAME, s[a + 1 + |n|])
    ensures NameAt(s, i, a) == Some(Hit(i, a + 1, a + 1 + |n|, RunEnd(SPACE, s, a + 1 + |n|)))
  {
    assert forall j :: a + 1 <= j < a + 1 + |n| ==> s[j] == n[j - a - 1];
    RunEndIs(NAME, s, a + 1, a + 1 + |n|);
  }

  /** The run of whitespace after a name stops before the next credit. */
  lemma {:induction false} SpaceStops(s: string, i: nat, e: nat)
    requires i <= e <= |s| && (e < |s| ==> Has(NAME, s[e]))
    ensures RunEnd(SPACE, s, i) <= e
    decreases e - i
  {
    if i < e { SpaceStops(s, i + 1, e); }
  }

  lemma {:induction false} IntroEnds(p: string)
    requires IsIntro(p)
    ensures |p| > 1 && p[|p| - 1] == '@'
  {
  }

  lemma {:induction false} CreditLayout(p: string, n: string, q: string, t: string)
    requires |p| > 1 && p[|p| - 1] == '@' && IsName(n) && IsSep(q, t == "") && (t == "" || Has(NAME, t[0]))
    ensures var s := p + n + q + t;
      && s == p + (n + q + t) && s[|p| - 1] == '@' && s[|p|..|p| + |n|] == n
      && (|p| + |n| < |s| ==> !Has(NAME, s[|p| + |n|])) && (t != "" ==> Has(NAME, s[|p| + |n| + |q|]))
  {
    var s := p + n + q + t;
    assert q != "" ==> s[|p| + |n|] == q[0];
    assert t != "" ==> s[|p| + |n| + |q|] == t[0];
  }

  lemma {:induction false} FirstCredit(c: Credit, t: string)
    requires IsIntro(c.intro) && IsName(c.name) && IsSep(c.sep, t == "")
    requires t == "" || Has(NAME, t[0])
    ensures var s := c.intro + c.name + c.sep + t;
      && Scan(s, 0).Some? && NameOf(s, Scan(s, 0).value) == c.name
      && |c.intro| + |c.name| <= Scan(s, 0).value.end <= |c.intro + c.name + c.sep|
  {
    hide Scan, IsIntro, NameAt;
    var s := c.intro + c.name + c.sep + t;
    var n := |c.intro|;
    IntroAccepted(c.intro, c.name + c.sep + t);
    IntroEnds(c.intro);
    CreditLayout(c.intro, c.name, c.sep, t);
    NameAtIs(s, 0, n - 1, c.name);
    SpaceStops(s, n + |c.name|, n + |c.name| + |c.sep|);
  }

  lemma {:induction false} PrintStart(cs: seq<Credit>)
    requires Wellformed(cs)
    ensures Print(cs) == "" || Has(NAME, Print(cs)[0])
  {
    if cs != [] {
      assert Folds("feat"[0], cs[0].intro[0 + 0]);
      assert Print(cs)[0] == cs[0].intro[0];
    }
  }

  lemma {:induction false} ReadCredit(c: Credit, t: string)
    requires IsIntro(c.intro) && IsName(c.name) && IsSep(c.sep, t == "")
    requires t == "" || Has(NAME, t[0])
    ensures var s := c.intro + c.name + c.sep + t;
      Names(s, ScanAll(s, 0)) == [c.name] + Names(t, ScanAll(t, 0))
  {
    hide Scan, IsIntro, ScanAll, Names, RunEnd;
    FirstCredit(c, t);
    var p := c.intro + c.name + c.sep;
    var s := p + t;
    var h := Scan(s, 0).value;
    forall i | h.end <= i < |p| ensures Scan(s, i).None? {
      var x := i - |c.intro| - |c.name|;
      assert s[i] == c.sep[x] && !Has(NAME, c.sep[x]);
      NoKeywordAt(s, i);
    }
    SkipDead(s, h.end, |p|);
    MentionsMoved(p, t, 0);
    NamesCons(s, h, ScanAll(s, h.end));
    ScanAllHit(s, 0);
  }

  lemma {:induction false} ScanAllHit(s: string, i: nat)
    requires i <= |s| && Scan(s, i).Some?
    ensures Scan(s, i).value.end <= |s| && ScanAll(s, i) == [Scan(s, i).value] + ScanAll(s, Scan(s, i).value.end)
  {
    hide Scan;
    HitSpan(s, i);
  }

  lemma {:induction false} NoMentions()
    ensures ScanAll("", 0) == []
  {
    assert !FoldsAt("", 0, "feat");
  }

  /** Reading a printed list of credits gives the names back, in order. */
  lemma {:induction false} PrintThenRead(cs: seq<Credit>)
    requires Wellformed(cs)
    ensures Mentions(Print(cs)) == CreditNames(cs)
    decreases |cs|
  {
    hide Scan, IsIntro, ScanAll, FindAll, Names;
    FindAllIsScanAll(Print(cs), 0);
    if cs == [] {
      NoMentions();
    } else {
      PrintStart(cs[1..]);
      ReadCredit(cs[0], Print(cs[1..]));
      PrintThenRead(cs[1..]);
      FindAllIsScanAll(Print(cs[1..]), 0);
    }
  }

  // ---- keywords and gaps -------------------------------------------------------

  /** A spelling of one of the four alternatives; that of `feat.` ends in any character. */
  predicate IsKeyword(w: string) {
    || (|w| == 5 && FoldsAt(w, 0, "feat") && w[4] != '\n')
    || (|w| == 4 && FoldsAt(w, 0, "feat"))
    || (|w| == 9 && FoldsAt(w, 0, "featuring"))
    || (|w| == 8 && FoldsAt(w, 0, "features"))
  }

  /** Only gap characters, and accepted. */
  predicate IsGap(g: string) {
    (forall j :: 0 <= j < |g| ==> Has(GAP, g[j])) && GapOk(g, 0, |g|)
  }

  lemma {:induction false} GapNotEmpty(g: string)
    requires GapOk(g, 0, |g|)
    ensures g != ""
  {
    assert Marks(g, 0, |g|) > 0 || HasBlank(g, 0, |g|);
  }

  /** Where the gap starts behind a keyword: one character early when `.` took one of
      the gap's characters. */
  function KeyEnd(w: string): nat {
    if |w| == 5 && Has(GAP, w[4]) then 4 else |w|
  }

  lemma {:induction false} GapStartAfter(w: string, r: string)
    requires IsKeyword(w) && r != "" && Has(GAP, r[0])
    ensures FoldsAt(w + r, 0, "feat") && GapStart(w + r, 0) == KeyEnd(w)
  {
    var p := w + r;
    assert forall j :: 0 <= j < |w| ==> p[j] == w[j];
    assert p[|w|] == r[0];
    if |w| <= 5 {
      assert forall j :: 0 <= j < 4 ==> Folds("feat"[j], w[0 + j]);
      var x := |w|;
      assert FoldsAt(p, 0, "featuring") ==> Folds("featuring"[x], p[0 + x]);
      assert FoldsAt(p, 0, "features") ==> Folds("features"[x], p[0 + x]);
    } else {
      LongGapStart(w, r);
    }
  }

  lemma {:induction false} LongGapStart(w: string, r: string)
    requires IsKeyword(w) && |w| > 5
    ensures FoldsAt(w + r, 0, "feat") && GapStart(w + r, 0) == |w|
  {
    var p := w + r;
    var kw := if |w| == 9 then "featuring" else "features";
    assert forall j :: 0 <= j < |w| ==> p[j] == w[j] && Folds(kw[j], w[0 + j]);
    assert FoldsAt(p, 0, kw);
    FoldsPrefix(p, 0, "feat", kw);
    if |w| == 8 {
      assert Folds(kw[6], p[6]);
      assert FoldsAt(p, 0, "featuring") ==> Folds("featuring"[6], p[0 + 6]);
    }
  }

  /** A keyword and an accepted gap are accepted, whichever alternative took what. */
  lemma {:induction false} GapBehind(w: string, g: string)
    requires IsKeyword(w) && IsGap(g)
    ensures var t := w + g;
      && GapAccepted(t, 0, KeyEnd(w), |t|) && (forall j :: KeyEnd(w) <= j < |t| ==> Has(GAP, t[j]))
  {
    hide FoldsAt;
    var t := w + g;
    assert forall j :: 0 <= j < |g| ==> t[|w| + j] == g[j];
    MarksMoved(w, g, 0, |g|);
    if KeyEnd(w) < |w| {
      assert t[4] == w[4];
      assert Marks(t, 4, |t|) == (if w[4] in {':', '='} then 1 else 0) + Marks(t, 5, |t|);
      assert HasBlank(t, 5, |t|) ==> HasBlank(t, 4, |t|);
    }
  }

  /** Any spelling of a keyword with any accepted gap is an introduction. */
  lemma {:induction false} KeywordAndGap(w: string, g: string)
    requires IsKeyword(w) && IsGap(g)
    ensures IsIntro(w + g + "@")
  {
    GapNotEmpty(g);
    GapBehind(w, g);
    hide RunEnd, Marks, FoldsAt, GapStart, IsKeyword;
    var t := w + g;
    var p := t + "@";
    assert p == w + (g + "@");
    GapStartAfter(w, g + "@");
    assert forall j :: 0 <= j < |t| ==> p[j] == t[j];
    RunEndIs(GAP, p, KeyEnd(w), |p| - 1);
    SameMarks(t, p, KeyEnd(w), |t|);
  }

  lemma {:induction false} PlainIntro()
    ensures IsIntro("feat @")
  {
    assert Has(GAP, ' ') && Marks(" ", 0, 1) == 0 && " "[0] == ' ';
    assert HasBlank(" ", 0, 1);
    KeywordAndGap("feat", " ");
    assert "feat" + " " + "@" == "feat @";
  }

  /** A list as people write it. */
  lemma {:induction false} TwoCredits()
    ensures Mentions("feat @alice, feat @bob") == ["alice", "bob"]
  {
    hide IsIntro, Mentions, IsName, IsSep, Print, CreditNames;
    var a, b := Credit("feat @", "alice", ", "), Credit("feat @", "bob", "");
    PlainIntro();
    PlainNames();
    assert Wellformed([a, b]);
    PrintThenRead([a, b]);
    PrintTwo(a, b);
    assert CreditNames([a, b]) == [a.name, b.name];
    Spelled();
  }

  /** A capital, as at the start of a sentence, makes no difference. */
  lemma {:induction false} CapitalCredit()
    ensures Mentions("Feat @alice") == ["alice"]
  {
    hide IsIntro, Mentions, IsName, IsSep, Print, CreditNames;
    var a := Credit("Feat @", "alice", "");
    CapitalIntro();
    PlainNames();
    PrintThenRead([a]);
    PrintOne(a);
    assert CreditNames([a]) == [a.name];
    assert "Feat @" + "alice" + "" == "Feat @alice";
  }

  lemma {:induction false} CapitalIntro()
    ensures IsIntro("Feat @")
  {
    assert Has(GAP, ' ') && Marks(" ", 0, 1) == 0 && " "[0] == ' ';
    assert HasBlank(" ", 0, 1);
    KeywordAndGap("Feat", " ");
    assert "Feat" + " " + "@" == "Feat @";
  }

  lemma {:induction false} PrintOne(a: Credit)
    ensures Print([a]) == a.intro + a.name + a.sep
  {
    assert [a][1..] == [] && Print([]) == "";
  }

  lemma {:induction false} Spelled()
    ensures "feat @" + "alice" + ", " + ("feat @" + "bob" + "") == "feat @alice, feat @bob"
  {
  }

  lemma {:induction false} PlainNames()
    ensures IsName("alice") && IsName("bob") && IsSep(", ", false) && IsSep("", true)
  {
  }

  lemma {:induction false} PrintTwo(a: Credit, b: Credit)
    ensures Print([a, b]) == a.intro + a.name + a.sep + (b.intro + b.name + b.sep)
  {
    assert [a, b][1..] == [b] && [b][1..] == [];
    assert Print([b]) == b.intro + b.name + b.sep + "";
  }
}
