/** Leftmost-first ("Perl") matching for the fragment of RE2 syntax used by the
    site: character classes, greedy stars over a class, ordered alternation and
    capture groups. */
module Regex {
  import opened Prelude

  datatype Class = In(cs: set<char>) | NotIn(cs: set<char>) | Fold(c: char)

  /** `Fold` is the `(?i)` comparison with a lower-case ASCII letter; `s` also
      folds with the long s. */
  predicate Has(c: Class, x: char) {
    match c
    case In(cs) => x in cs
    case NotIn(cs) => x !in cs
    case Fold(p) => Folds(p, x)
  }

  predicate Folds(p: char, x: char) {
    x == p || ('a' <= p <= 'z' && x as int == p as int - 32) || (p == 's' && x == '\U{017F}')
  }

  datatype Re = One(c: Class) | Many(c: Class) | Cat(a: Re, b: Re) | Or(a: Re, b: Re) | Group(r: Re)

  /** A pattern followed by a continuation, as the backtracking machine runs it. */
  datatype Prog = Done | Char(c: Class, next: Prog) | Star(c: Class, next: Prog)
                | Split(a: Prog, b: Prog) | Mark(next: Prog)

  function Compile(r: Re, k: Prog): Prog {
    match r
    case One(c) => Char(c, k)
    case Many(c) => Star(c, k)
    case Cat(a, b) => Compile(a, Compile(b, k))
    case Or(a, b) => Split(Compile(a, k), Compile(b, k))
    case Group(a) => Mark(Compile(a, Mark(k)))
  }

  datatype Found = Found(end: nat, marks: seq<nat>)

  /** The first success in priority order: a star prefers one more character, a
      split prefers its left branch. `marks` collects the group boundaries. */
  function Run(p: Prog, s: string, i: nat, marks: seq<nat>): Option<Found>
    requires i <= |s|
    decreases |s| - i, p
  {
    match p
    case Done => Some(Found(i, marks))
    case Mark(k) => Run(k, s, i, marks + [i])
    case Char(c, k) => if i < |s| && Has(c, s[i]) then Run(k, s, i + 1, marks) else None
    case Star(c, k) =>
      var more := if i < |s| && Has(c, s[i]) then Run(p, s, i + 1, marks) else None;
      if more.Some? then more else Run(k, s, i, marks)
    case Split(a, b) =>
      var left := Run(a, s, i, marks);
      if left.Some? then left else Run(b, s, i, marks)
  }

  /** The end of the maximal run of `c` that starts at `i`. */
  function RunEnd(c: Class, s: string, i: nat): (e: nat)
    requires i <= |s|
    ensures i <= e <= |s|
    ensures forall j :: i <= j < e ==> Has(c, s[j])
    ensures e < |s| ==> !Has(c, s[e])
    decreases |s| - i
  {
    if i < |s| && Has(c, s[i]) then RunEnd(c, s, i + 1) else i
  }

  lemma {:induction false} RunEndIs(c: Class, s: string, i: nat, e: nat)
    requires i <= e <= |s|
    requires forall j :: i <= j < e ==> Has(c, s[j])
    requires e < |s| ==> !Has(c, s[e])
    ensures RunEnd(c, s, i) == e
    decreases e - i
  {
    if i < e { RunEndIs(c, s, i + 1, e); }
  }

  /** A greedy star stops at the end of the run when the rest accepts there. */
  lemma {:induction false} GreedyStar(c: Class, k: Prog, s: string, i: nat, m: seq<nat>)
    requires i <= |s|
    requires Run(k, s, RunEnd(c, s, i), m).Some?
    ensures Run(Star(c, k), s, i, m) == Run(k, s, RunEnd(c, s, i), m)
    decreases |s| - i
  {
    if i < |s| && Has(c, s[i]) {
      GreedyStar(c, k, s, i + 1, m);
    }
  }

  /** When every continuation of a star that succeeds gives the same answer, the
      star gives that answer exactly when some continuation succeeds. */
  lemma {:induction false} AgreeingStar(c: Class, k: Prog, s: string, i: nat, m: seq<nat>, x: Option<Found>)
    requires i <= |s|
    requires forall j :: i <= j <= RunEnd(c, s, i) ==> Run(k, s, j, m) in {None, x}
    ensures (exists j :: i <= j <= RunEnd(c, s, i) && Run(k, s, j, m).Some?) ==> Run(Star(c, k), s, i, m) == x
    ensures (forall j :: i <= j <= RunEnd(c, s, i) ==> Run(k, s, j, m).None?) ==> Run(Star(c, k), s, i, m) == None
    decreases |s| - i
  {
    if i < |s| && Has(c, s[i]) {
      AgreeingStar(c, k, s, i + 1, m, x);
    }
  }

  /** A literal word under `(?i)`. */
  function Word(w: string): Re
    requires w != ""
  {
    if |w| == 1 then One(Fold(w[0])) else Cat(One(Fold(w[0])), Word(w[1..]))
  }

  predicate FoldsAt(s: string, i: nat, w: string) {
    i + |w| <= |s| && forall j :: 0 <= j < |w| ==> Folds(w[j], s[i + j])
  }

  lemma {:induction false} RunWord(w: string, k: Prog, s: string, i: nat, m: seq<nat>)
    requires w != "" && i <= |s|
    ensures Run(Compile(Word(w), k), s, i, m) == if FoldsAt(s, i, w) then Run(k, s, i + |w|, m) else None
    decreases |w|
  {
    if FoldsAt(s, i, w) {
      assert Folds(w[0], s[i + 0]);
      assert forall j :: 0 <= j < |w| - 1 ==> w[1..][j] == w[j + 1] && s[i + 1 + j] == s[i + (j + 1)];
    }
    if |w| > 1 && i < |s| && Folds(w[0], s[i]) {
      RunWord(w[1..], k, s, i + 1, m);
      if FoldsAt(s, i + 1, w[1..]) {
        assert forall j :: 1 <= j < |w| ==> w[j] == w[1..][j - 1] && s[i + j] == s[i + 1 + (j - 1)];
      }
    }
  }

  /** A word followed by one more character. */
  lemma {:induction false} RunWordThen(w: string, c: Class, k: Prog, s: string, i: nat, m: seq<nat>)
    requires w != "" && i <= |s|
    ensures Run(Compile(Cat(Word(w), One(c)), k), s, i, m) ==
      if FoldsAt(s, i, w) && i + |w| < |s| && Has(c, s[i + |w|]) then Run(k, s, i + |w| + 1, m) else None
  {
    RunWord(w, Char(c, k), s, i, m);
  }

  /** What one alternative of a leading group leads to, in front of `rest`. */
  function Via(alternative: Re, rest: Re, s: string, i: nat): Option<Found>
    requires i <= |s|
  {
    Run(Compile(alternative, Mark(Compile(rest, Done))), s, i, [i])
  }

  function FirstSome<T>(a: Option<T>, b: Option<T>): Option<T> {
    if a.Some? then a else b
  }

  /** A leading group of four alternatives is tried from left to right. */
  lemma {:induction false} FirstOfFour(a: Re, b: Re, c: Re, d: Re, rest: Re, s: string, i: nat)
    requires i <= |s|
    ensures Run(Compile(Cat(Group(Or(a, Or(b, Or(c, d)))), rest), Done), s, i, []) ==
      FirstSome(Via(a, rest, s, i), FirstSome(Via(b, rest, s, i), FirstSome(Via(c, rest, s, i), Via(d, rest, s, i))))
  {
    var k := Mark(Compile(rest, Done));
    var p3 := Split(Compile(c, k), Compile(d, k));
    var p2 := Split(Compile(b, k), p3);
    var p1 := Split(Compile(a, k), p2);
    assert Compile(Or(b, Or(c, d)), k) == p2;
    assert Compile(Or(a, Or(b, Or(c, d))), k) == p1;
    assert Compile(Group(Or(a, Or(b, Or(c, d)))), Compile(rest, Done)) == Mark(p1);
    assert [] + [i] == [i];
    assert Run(Mark(p1), s, i, []) == Run(p1, s, i, [i]);
    assert Run(p2, s, i, [i]) == FirstSome(Via(b, rest, s, i), Run(p3, s, i, [i]));
  }
}
