/** The mention pattern of the store,
    `(?im)(feat.|feat|featuring|features)\s*[:= ]\s*@([^\s,]+)\s*`,
    and a scan without backtracking that finds the same matches. */
module FeatPattern {
  import opened Prelude
  import opened Regex

  const SPACES: set<char> := {'\t', '\n', '\U{0C}', '\r', ' '}
  const SPACE := In(SPACES)
  const SEP := In({':', '=', ' '})
  const GAP := In(SPACES + {':', '='})
  const AT := In({'@'})
  const NAME := NotIn(SPACES + {','})

  const NOT_NEWLINE := NotIn({'\n'})
  const KEYWORD := Or(Cat(Word("feat"), One(NOT_NEWLINE)), Or(Word("feat"), Or(Word("featuring"), Word("features"))))
  const TAIL := Cat(One(AT), Cat(Group(Cat(One(NAME), Many(NAME))), Many(SPACE)))
  const GAP_TAIL := Cat(Many(SPACE), Cat(One(SEP), Cat(Many(SPACE), TAIL)))
  const FEAT := Cat(Group(KEYWORD), GAP_TAIL)

  /** One match: where it starts, the captured name, and where the search resumes. */
  datatype Hit = Hit(start: nat, nameStart: nat, nameEnd: nat, end: nat)

  /** The hit that a run from `i` stands for; the name is the last capture. */
  function HitOf(i: nat, f: Option<Found>): Option<Hit> {
    if f.Some? && |f.value.marks| >= 2 then
      var n := |f.value.marks|;
      Some(Hit(i, f.value.marks[n - 2], f.value.marks[n - 1], f.value.end))
    else None
  }

  /** The match of `FEAT` that starts at `i`. */
  function MatchAt(s: string, i: nat): Option<Hit>
    requires i <= |s|
  {
    HitOf(i, Run(Compile(FEAT, Done), s, i, []))
  }

  // ---- the scan ---------------------------------------------------------

  /** How many ':' and '=' stand in `s[k..e]`. */
  function Marks(s: string, k: nat, e: nat): nat
    requires k <= e <= |s|
    decreases e - k
  {
    if k == e then 0 else (if s[k] in {':', '='} then 1 else 0) + Marks(s, k + 1, e)
  }

  predicate HasBlank(s: string, k: nat, e: nat)
    requires k <= e <= |s|
  {
    exists j :: k <= j < e && s[j] == ' '
  }

  /** A gap is accepted when it has exactly one ':' or '=', or none and a blank. */
  predicate GapOk(s: string, k: nat, e: nat)
    requires k <= e <= |s|
  {
    Marks(s, k, e) == 1 || (Marks(s, k, e) == 0 && HasBlank(s, k, e))
  }

  /** The '@' at `a`, a maximal name and the trailing whitespace. */
  function NameAt(s: string, i: nat, a: nat): (h: Option<Hit>)
    requires a <= |s|
  {
    if a < |s| && s[a] == '@' && a + 1 < |s| && Has(NAME, s[a + 1]) then
      var e := RunEnd(NAME, s, a + 1);
      Some(Hit(i, a + 1, e, RunEnd(SPACE, s, e)))
    else
      None
  }

  /** Where the gap starts, deciding the keyword without trying alternatives. */
  function GapStart(s: string, i: nat): (k: nat)
    requires FoldsAt(s, i, "feat")
    ensures i + 4 <= k <= |s|
  {
    if FoldsAt(s, i, "featuring") then i + 9
    else if FoldsAt(s, i, "features") then i + 8
    else if i + 4 < |s| && !Has(GAP, s[i + 4]) then i + 5
    else i + 4
  }

  /** After a bare "feat" the any-character of `feat.` may swallow one ':' or '='
      in front of a gap that is complete without it. */
  predicate GapAccepted(s: string, i: nat, k: nat, e: nat)
    requires i <= k <= e <= |s|
  {
    GapOk(s, k, e) || (k == i + 4 && k < e && s[k] in {':', '='} && Marks(s, k, e) == 2)
  }

  function Scan(s: string, i: nat): Option<Hit>
    requires i <= |s|
  {
    if !FoldsAt(s, i, "feat") then None
    else
      var k := GapStart(s, i);
      var a := RunEnd(GAP, s, k);
      if GapAccepted(s, i, k, a) then NameAt(s, i, a) else None
  }

  // ---- the machine on the pattern's tail --------------------------------

  function Recorded(m: seq<nat>, h: Option<Hit>): Option<Found> {
    match h
    case None => None
    case Some(x) => Some(Found(x.end, m + [x.nameStart] + [x.nameEnd]))
  }

  lemma {:induction false} CompileTail()
    ensures Compile(TAIL, Done) == Char(AT, Mark(Char(NAME, Star(NAME, Mark(Star(SPACE, Done))))))
  {
    var k := Star(SPACE, Done);
    assert Compile(Cat(One(NAME), Many(NAME)), Mark(k)) == Char(NAME, Star(NAME, Mark(k)));
    assert Compile(Group(Cat(One(NAME), Many(NAME))), k) == Mark(Char(NAME, Star(NAME, Mark(k))));
    assert Compile(Cat(Group(Cat(One(NAME), Many(NAME))), Many(SPACE)), Done) == Mark(Char(NAME, Star(NAME, Mark(k))));
  }

  lemma {:induction false} CompileGapTail()
    ensures Compile(GAP_TAIL, Done) == Star(SPACE, Char(SEP, Compile(Cat(Many(SPACE), TAIL), Done)))
  {
    var k := Compile(Cat(Many(SPACE), TAIL), Done);
    assert Compile(Cat(One(SEP), Cat(Many(SPACE), TAIL)), Done) == Char(SEP, k);
  }

  lemma {:induction false} RunTail(s: string, i: nat, a: nat, m: seq<nat>)
    requires a <= |s|
    ensures Run(Compile(TAIL, Done), s, a, m) == Recorded(m, NameAt(s, i, a))
  {
    CompileTail();
    if a < |s| && s[a] == '@' {
      var m' := m + [a + 1];
      var k := Mark(Star(SPACE, Done));
      var q := Char(NAME, Star(NAME, k));
      assert Run(Mark(q), s, a + 1, m) == Run(q, s, a + 1, m');
      if a + 1 < |s| && Has(NAME, s[a + 1]) {
        var e := RunEnd(NAME, s, a + 2);
        GreedyStar(SPACE, Done, s, e, m' + [e]);
        assert Run(k, s, e, m') == Recorded(m, NameAt(s, i, a));
        GreedyStar(NAME, k, s, a + 2, m');
      }
    }
  }

  /** `\s*` in front of the tail: only the end of the whitespace run can be '@'. */
  lemma {:induction false} RunSpacesTail(s: string, i: nat, k: nat, m: seq<nat>)
    requires k <= |s|
    ensures Run(Compile(Cat(Many(SPACE), TAIL), Done), s, k, m) == Recorded(m, NameAt(s, i, RunEnd(SPACE, s, k)))
  {
    var e := RunEnd(SPACE, s, k);
    var x := Recorded(m, NameAt(s, i, e));
    var p := Compile(TAIL, Done);
    forall j | k <= j <= e
      ensures Run(p, s, j, m) == if j == e then x else None
    {
      RunTail(s, i, j, m);
    }
    assert e == e && Run(p, s, e, m) == x;
    AgreeingStar(SPACE, p, s, k, m, x);
  }

  lemma {:induction false} MarksSplit(s: string, k: nat, j: nat, e: nat)
    requires k <= j <= e <= |s|
    ensures Marks(s, k, e) == Marks(s, k, j) + Marks(s, j, e)
    decreases j - k
  {
    if k < j { MarksSplit(s, k + 1, j, e); }
  }

  lemma {:induction false} NoMarks(s: string, k: nat, e: nat)
    requires k <= e <= |s|
    ensures Marks(s, k, e) == 0 <==> forall j :: k <= j < e ==> s[j] !in {':', '='}
    decreases e - k
  {
    if k < e {
      NoMarks(s, k + 1, e);
      if forall j :: k <= j < e ==> s[j] !in {':', '='} { assert s[k] !in {':', '='}; }
    }
  }

  /** The position of some ':' or '=' when there is one. */
  lemma {:induction false} FirstMark(s: string, k: nat, e: nat) returns (j: nat)
    requires k <= e <= |s| && Marks(s, k, e) > 0
    ensures k <= j < e && s[j] in {':', '='} && Marks(s, k, j) == 0
    ensures Marks(s, j + 1, e) == Marks(s, k, e) - 1
    decreases e - k
  {
    if s[k] in {':', '='} {
      j := k;
    } else {
      j := FirstMark(s, k + 1, e);
    }
  }

  /** A separator at `j`, with whitespace around it, between `k` and '@' at `a`. */
  predicate SplitsAt(s: string, k: nat, j: nat, a: nat)
    requires k <= a <= |s|
  {
    k <= j < a && Has(SEP, s[j]) && (forall x :: k <= x < a && x != j ==> Has(SPACE, s[x]))
  }

  /** The stretch between keyword and '@' is in ws* sep ws* exactly when it has
      only gap characters and `GapOk` holds of it. */
  lemma {:induction false} GapLanguage(s: string, k: nat, a: nat)
    requires k <= a <= |s|
    ensures (exists j :: SplitsAt(s, k, j, a)) <==> (forall x :: k <= x < a ==> Has(GAP, s[x])) && GapOk(s, k, a)
  {
    if j: nat :| SplitsAt(s, k, j, a) {
      MarksSplit(s, k, j, a);
      NoMarks(s, k, j);
      NoMarks(s, j + 1, a);
      assert Marks(s, j, a) == (if s[j] in {':', '='} then 1 else 0) + Marks(s, j + 1, a);
      assert Marks(s, k, a) == if s[j] == ' ' then 0 else 1;
    }
    if (forall x :: k <= x < a ==> Has(GAP, s[x])) && GapOk(s, k, a) {
      var j: nat;
      if Marks(s, k, a) == 1 {
        j := FirstMark(s, k, a);
        NoMarks(s, k, j);
        NoMarks(s, j + 1, a);
      } else {
        j :| k <= j < a && s[j] == ' ';
        NoMarks(s, k, a);
      }
      assert SplitsAt(s, k, j, a);
    }
  }

  /** `[:= ]\s*@...` at `j`, inside the whitespace after `k`. */
  lemma {:induction false} RunSepTail(s: string, i: nat, k: nat, j: nat, m: seq<nat>)
    requires k <= |s| && k <= j <= RunEnd(SPACE, s, k)
    ensures var a := RunEnd(GAP, s, k);
      Run(Char(SEP, Compile(Cat(Many(SPACE), TAIL), Done)), s, j, m) ==
      if SplitsAt(s, k, j, a) then Recorded(m, NameAt(s, i, a)) else None
  {
    hide Compile, RunEnd;
    var a := RunEnd(GAP, s, k);
    if j < |s| && Has(SEP, s[j]) {
      var e := RunEnd(SPACE, s, j + 1);
      RunSpacesTail(s, i, j + 1, m);
      if e < |s| && s[e] == '@' {
        RunEndIs(GAP, s, k, e);
      } else if SplitsAt(s, k, j, a) && a < |s| && s[a] == '@' {
        RunEndIs(SPACE, s, j + 1, a);
      }
    }
  }

  /** `\s*[:= ]\s*@...` from `k`: one possible '@', accepted when the gap is. */
  lemma {:induction false} RunGapTail(s: string, i: nat, k: nat, m: seq<nat>)
    requires k <= |s|
    ensures var a := RunEnd(GAP, s, k);
      Run(Compile(GAP_TAIL, Done), s, k, m) == if GapOk(s, k, a) then Recorded(m, NameAt(s, i, a)) else None
  {
    hide Marks, GapOk, NameAt;
    CompileGapTail();
    var a := RunEnd(GAP, s, k);
    var x := Recorded(m, NameAt(s, i, a));
    var inner := Compile(Cat(Many(SPACE), TAIL), Done);
    var p := Char(SEP, inner);
    forall j | k <= j <= RunEnd(SPACE, s, k)
      ensures Run(p, s, j, m) == if SplitsAt(s, k, j, a) then x else None
    {
      RunSepTail(s, i, k, j, m);
    }
    AgreeingStar(SPACE, p, s, k, m, x);
    GapLanguage(s, k, a);
    if j: nat :| SplitsAt(s, k, j, a) {
      assert RunEnd(SPACE, s, k) >= j;
    }
  }

  // ---- the four keyword alternatives -------------------------------------

  /** What is left of a match once the keyword ended at `k`. */
  function Rest(s: string, i: nat, k: nat): Option<Hit>
    requires k <= |s|
  {
    var a := RunEnd(GAP, s, k);
    if GapOk(s, k, a) then NameAt(s, i, a) else None
  }

  lemma {:induction false} ViaWord(w: string, s: string, i: nat)
    requires w != "" && i <= |s|
    ensures Via(Word(w), GAP_TAIL, s, i) ==
      if FoldsAt(s, i, w) then Recorded([i, i + |w|], Rest(s, i, i + |w|)) else None
  {
    RunWord(w, Mark(Compile(GAP_TAIL, Done)), s, i, [i]);
    if FoldsAt(s, i, w) {
      RunGapTail(s, i, i + |w|, [i] + [i + |w|]);
      assert [i] + [i + |w|] == [i, i + |w|];
    }
  }

  lemma {:induction false} ViaWordThen(w: string, c: Class, s: string, i: nat)
    requires w != "" && i <= |s|
    ensures Via(Cat(Word(w), One(c)), GAP_TAIL, s, i) ==
      if FoldsAt(s, i, w) && i + |w| < |s| && Has(c, s[i + |w|])
      then Recorded([i, i + |w| + 1], Rest(s, i, i + |w| + 1)) else None
  {
    RunWordThen(w, c, Mark(Compile(GAP_TAIL, Done)), s, i, [i]);
    if FoldsAt(s, i, w) && i + |w| < |s| && Has(c, s[i + |w|]) {
      RunGapTail(s, i, i + |w| + 1, [i] + [i + |w| + 1]);
      assert [i] + [i + |w| + 1] == [i, i + |w| + 1];
    }
  }

  lemma {:induction false} FoldsPrefix(s: string, i: nat, w: string, v: string)
    requires |w| <= |v| && v[..|w|] == w && FoldsAt(s, i, v)
    ensures FoldsAt(s, i, w)
  {
    forall j | 0 <= j < |w| ensures Folds(w[j], s[i + j]) {
      assert w[j] == v[j];
    }
  }

  /** A gap that starts on neither a gap character nor '@' leads nowhere. */
  lemma {:induction false} DeadGap(s: string, i: nat, k: nat)
    requires k < |s| && !Has(GAP, s[k])
    ensures Rest(s, i, k) == None
  {
    assert RunEnd(GAP, s, k) == k;
  }

  /** After a bare "feat" the two alternatives `feat.` and `feat` see the same '@'. */
  lemma {:induction false} DotOrBare(s: string, i: nat)
    requires FoldsAt(s, i, "feat") && i + 4 < |s| && Has(GAP, s[i + 4])
    ensures RunEnd(GAP, s, i + 4) == RunEnd(GAP, s, i + 5)
    ensures var a := RunEnd(GAP, s, i + 4);
      GapAccepted(s, i, i + 4, a) <==> GapOk(s, i + 4, a) || (s[i + 4] != '\n' && GapOk(s, i + 5, a))
  {
    var a := RunEnd(GAP, s, i + 4);
    assert Marks(s, i + 4, a) == (if s[i + 4] in {':', '='} then 1 else 0) + Marks(s, i + 5, a);
    assert HasBlank(s, i + 5, a) ==> HasBlank(s, i + 4, a);
  }

  /** Inside "featuring" and "features" the short alternatives fail. */
  lemma {:induction false} LongKeyword(s: string, i: nat, w: string)
    requires w in {"featuring", "features"} && FoldsAt(s, i, w)
    ensures FoldsAt(s, i, "feat") && Rest(s, i, i + 4) == None && Rest(s, i, i + 5) == None
    ensures w == "featuring" ==> !FoldsAt(s, i, "features")
  {
    FoldsPrefix(s, i, "feat", w);
    assert w[4] == 'u' && w[5] == 'r';
    assert Folds('u', s[i + 4]) && Folds('r', s[i + 5]);
    DeadGap(s, i, i + 4);
    DeadGap(s, i, i + 5);
    if w == "featuring" {
      assert Folds(w[6], s[i + 6]);
      assert !Folds("features"[6], s[i + 6]);
    }
  }

  /** The keyword alternative that ends at `k` leads to nothing or to the scan's match. */
  predicate Agrees(possible: bool, s: string, i: nat, k: nat)
    requires i <= |s| && (possible ==> k <= |s|)
  {
    possible ==> Rest(s, i, k) in {None, Scan(s, i)}
  }

  predicate DotApplies(s: string, i: nat) {
    FoldsAt(s, i, "feat") && i + 4 < |s| && s[i + 4] != '\n'
  }

  lemma {:induction false} KeywordEnds(s: string, i: nat)
    requires i <= |s|
    ensures Agrees(DotApplies(s, i), s, i, i + 5) && Agrees(FoldsAt(s, i, "feat"), s, i, i + 4)
    ensures Agrees(FoldsAt(s, i, "featuring"), s, i, i + 9) && Agrees(FoldsAt(s, i, "features"), s, i, i + 8)
    ensures Scan(s, i).Some? ==>
      || (DotApplies(s, i) && Rest(s, i, i + 5).Some?) || (FoldsAt(s, i, "feat") && Rest(s, i, i + 4).Some?)
      || (FoldsAt(s, i, "featuring") && Rest(s, i, i + 9).Some?)
      || (FoldsAt(s, i, "features") && Rest(s, i, i + 8).Some?)
  {
    if FoldsAt(s, i, "featuring") {
      LongKeyword(s, i, "featuring");
    } else if FoldsAt(s, i, "features") {
      LongKeyword(s, i, "features");
    } else if FoldsAt(s, i, "feat") && i + 4 < |s| {
      if Has(GAP, s[i + 4]) {
        DotOrBare(s, i);
      } else {
        DeadGap(s, i, i + 4);
      }
    }
  }

  ghost predicate YieldsOrFails(v: Option<Found>, i: nat, h: Option<Hit>) {
    v == None || exists k :: v == Recorded([i, k], h)
  }

  lemma {:induction false} WordAgrees(w: string, s: string, i: nat)
    requires w in {"feat", "featuring", "features"} && i <= |s|
    ensures YieldsOrFails(Via(Word(w), GAP_TAIL, s, i), i, Scan(s, i))
    ensures FoldsAt(s, i, w) && Rest(s, i, i + |w|).Some? ==> Via(Word(w), GAP_TAIL, s, i).Some?
  {
    hide Scan, Rest, FoldsAt, Via;
    WordEnds(w, s, i);
    ViaWord(w, s, i);
  }

  lemma {:induction false} WordEnds(w: string, s: string, i: nat)
    requires w in {"feat", "featuring", "features"} && i <= |s|
    ensures FoldsAt(s, i, w) ==> Rest(s, i, i + |w|) in {None, Scan(s, i)}
  {
    hide Scan, Rest;
    KeywordEnds(s, i);
  }

  lemma {:induction false} DotAgrees(s: string, i: nat)
    requires i <= |s|
    ensures YieldsOrFails(Via(Cat(Word("feat"), One(NOT_NEWLINE)), GAP_TAIL, s, i), i, Scan(s, i))
    ensures DotApplies(s, i) && Rest(s, i, i + 5).Some? ==>
      Via(Cat(Word("feat"), One(NOT_NEWLINE)), GAP_TAIL, s, i).Some?
  {
    hide Scan, Rest, Via;
    KeywordEnds(s, i);
    ViaWordThen("feat", NOT_NEWLINE, s, i);
  }

  /** The ambiguity is harmless: every alternative of the keyword fails or yields
      the same '@', the same capture and the same end as the scan. */
  lemma {:induction false} AlternativesAgree(s: string, i: nat)
    requires i <= |s|
    ensures YieldsOrFails(Via(Cat(Word("feat"), One(NOT_NEWLINE)), GAP_TAIL, s, i), i, Scan(s, i))
    ensures forall w :: w in {"feat", "featuring", "features"} ==>
      YieldsOrFails(Via(Word(w), GAP_TAIL, s, i), i, Scan(s, i))
  {
    DotAgrees(s, i);
    forall w | w in {"feat", "featuring", "features"}
      ensures YieldsOrFails(Via(Word(w), GAP_TAIL, s, i), i, Scan(s, i))
    {
      WordAgrees(w, s, i);
    }
  }

  lemma {:induction false} MatchFromAlternatives(a: Re, b: Re, c: Re, d: Re, s: string, i: nat)
    requires i <= |s|
    requires forall r :: r in {a, b, c, d} ==> YieldsOrFails(Via(r, GAP_TAIL, s, i), i, Scan(s, i))
    requires Scan(s, i).Some? ==> exists r :: r in {a, b, c, d} && Via(r, GAP_TAIL, s, i).Some?
    ensures HitOf(i, Run(Compile(Cat(Group(Or(a, Or(b, Or(c, d)))), GAP_TAIL), Done), s, i, [])) == Scan(s, i)
  {
    FirstOfFour(a, b, c, d, GAP_TAIL, s, i);
    var f := Run(Compile(Cat(Group(Or(a, Or(b, Or(c, d)))), GAP_TAIL), Done), s, i, []);
    assert YieldsOrFails(f, i, Scan(s, i));
    assert Scan(s, i).Some? ==> Scan(s, i).value.start == i;
  }

  /** The scan and the backtracking machine agree at every position of every text. */
  lemma {:induction false} ScanIsMatch(s: string, i: nat)
    requires i <= |s|
    ensures MatchAt(s, i) == Scan(s, i)
  {
    KeywordEnds(s, i);
    DotAgrees(s, i);
    WordAgrees("feat", s, i);
    WordAgrees("featuring", s, i);
    WordAgrees("features", s, i);
    MatchFromAlternatives(Cat(Word("feat"), One(NOT_NEWLINE)), Word("feat"), Word("featuring"), Word("features"), s, i);
  }

  // ---- the language of the pattern ------------------------------------------

  /** One of the keyword alternatives matches from `i` to `k`. */
  predicate KeywordEnd(s: string, i: nat, k: nat) {
    || (k == i + 5 && DotApplies(s, i))
    || (k == i + 4 && FoldsAt(s, i, "feat"))
    || (k == i + 9 && FoldsAt(s, i, "featuring"))
    || (k == i + 8 && FoldsAt(s, i, "features"))
  }

  /** An '@' at `a` with at least one character of a name. */
  predicate AtName(s: string, a: nat) {
    a + 1 < |s| && s[a] == '@' && Has(NAME, s[a + 1])
  }

  ghost predicate GapThenName(s: string, k: nat) {
    exists j: nat, a: nat :: AtName(s, a) && k <= a && SplitsAt(s, k, j, a)
  }

  lemma {:induction false} RestLanguage(s: string, i: nat, k: nat)
    requires k <= |s|
    ensures Rest(s, i, k).Some? <==> GapThenName(s, k)
  {
    var e := RunEnd(GAP, s, k);
    if Rest(s, i, k).Some? {
      GapLanguage(s, k, e);
      var j :| SplitsAt(s, k, j, e);
      assert AtName(s, e) && SplitsAt(s, k, j, e);
    }
    if GapThenName(s, k) {
      var j: nat, a: nat :| AtName(s, a) && k <= a && SplitsAt(s, k, j, a);
      GapLanguage(s, k, a);
      RunEndIs(GAP, s, k, a);
    }
  }

  /** The machine matches at a position exactly when some keyword, some split of the gap
      around a separator and some name can be laid out from there. */
  lemma {:induction false} MatchLanguage(s: string, i: nat)
    requires i <= |s|
    ensures MatchAt(s, i).Some? <==> exists k: nat :: KeywordEnd(s, i, k) && GapThenName(s, k)
  {
    hide MatchAt, Scan, GapThenName, Rest;
    ScanIsMatch(s, i);
    KeywordEnds(s, i);
    forall k: nat | KeywordEnd(s, i, k) ensures k <= |s| && (GapThenName(s, k) <==> Rest(s, i, k).Some?) {
      RestLanguage(s, i, k);
    }
  }
}
