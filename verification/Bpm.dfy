/** Averaging the tempo records of the analyser. */
module Bpm {
  import opened Prelude
  import Text

  type Record = seq<string>

  /** A mean, the division of zero by zero, or an error. */
  datatype Tempo = Bpm(value: real) | NotANumber | Error

  /** math.Round: half away from zero. */
  function Round(x: real): int {
    if x >= 0.0 then (x + 0.5).Floor else -((-x + 0.5).Floor)
  }

  function TwoDigits(x: real): real {
    Round(x * 100.0) as real / 100.0
  }

  function Sum(xs: seq<real>): real {
    if xs == [] then 0.0 else Sum(xs[..|xs| - 1]) + xs[|xs| - 1]
  }

  /** A record that could be read, has a third field and a number in it. */
  predicate Good(r: Option<Record>, parse: string -> Option<real>) {
    r.Some? && |r.value| >= 3 && parse(r.value[2]).Some?
  }

  function TempoOf(r: Option<Record>, parse: string -> Option<real>): real
    requires Good(r, parse)
  {
    parse(r.value[2]).value
  }

  function Tempi(rs: seq<Option<Record>>, parse: string -> Option<real>): (xs: seq<real>)
    requires forall i :: 0 <= i < |rs| ==> Good(rs[i], parse)
    ensures |xs| == |rs| && forall i :: 0 <= i < |rs| ==> xs[i] == TempoOf(rs[i], parse)
  {
    if rs == [] then []
    else Tempi(rs[..|rs| - 1], parse) + [TempoOf(rs[|rs| - 1], parse)]
  }

  /** The analyser's output, or None when it failed. Blank output is an error; of any other
      the records come one by one, None being a read error, and the first bad record ends
      the loop with an error and no value. */
  method ExtractBPM(
    output: Option<string>, readAll: string -> seq<Option<Record>>, parse: string -> Option<real>) returns (t: Tempo)
    ensures t == Error <==>
      output.None? || Text.AllSpace(output.value) ||
      var rs := readAll(Text.TrimSpace(output.value)); exists i :: 0 <= i < |rs| && !Good(rs[i], parse)
    ensures t == NotANumber <==>
      output.Some? && !Text.AllSpace(output.value) && readAll(Text.TrimSpace(output.value)) == []
    ensures t.Bpm? ==>
      var rs := readAll(Text.TrimSpace(output.value)); t.value == TwoDigits(Sum(Tempi(rs, parse)) / |rs| as real)
    ensures t.Bpm? ==>
      exists xs :: Read(readAll(Text.TrimSpace(output.value)), parse, xs) && xs != [] && Averages(xs, t.value)
  {
    hide Sum, Tempi, TwoDigits, Text.TrimSpace, Text.AllSpace;
    if output.None? { return Error; }
    var content := Text.TrimSpace(output.value);
    Text.TrimsToNothing(output.value);
    if content == "" { return Error; }
    var rs := readAll(content);
    NoTempi(rs, parse);
    var total, count := 0.0, 0.0;
    for i := 0 to |rs|
      invariant forall j :: 0 <= j < i ==> Good(rs[j], parse)
      invariant total == Sum(Tempi(rs[..i], parse)) && count == i as real
    {
      if rs[i].None? || |rs[i].value| < 3 {
        assert !Good(rs[i], parse);
        return Error;
      }
      var f := parse(rs[i].value[2]);
      if f.None? {
        assert !Good(rs[i], parse);
        return Error;
      }
      assert Good(rs[i], parse);
      OneMore(rs, i, parse);
      total := total + f.value;
      count := count + 1.0;
    }
    assert rs[..|rs|] == rs;
    if count == 0.0 { return NotANumber; }
    ReadAndAveraged(rs, parse);
    t := Bpm(TwoDigits(total / count));
  }

  /** The third fields of the records are these numbers. */
  predicate Read(rs: seq<Option<Record>>, parse: string -> Option<real>, xs: seq<real>) {
    && |xs| == |rs|
    && forall i :: 0 <= i < |rs| ==> rs[i].Some? && |rs[i].value| >= 3 && parse(rs[i].value[2]) == Some(xs[i])
  }

  /** A number within 0.005 of the mean. */
  predicate Averages(xs: seq<real>, t: real)
    requires xs != []
  {
    -0.005 <= t - Sum(xs) / |xs| as real <= 0.005
  }

  lemma {:induction false} ReadAndAveraged(rs: seq<Option<Record>>, parse: string -> Option<real>)
    requires rs != [] && forall i :: 0 <= i < |rs| ==> Good(rs[i], parse)
    ensures var xs := Tempi(rs, parse);
      Read(rs, parse, xs) && Averages(xs, TwoDigits(Sum(xs) / |xs| as real))
  {
    hide Sum;
    var xs := Tempi(rs, parse);
    RoundNear(Sum(xs) / |xs| as real * 100.0);
  }

  /** The sum does not depend on where a list is cut, and of one number is that number. */
  lemma {:induction false} SumConcat(xs: seq<real>, ys: seq<real>)
    ensures Sum(xs + ys) == Sum(xs) + Sum(ys)
    ensures forall x :: Sum([x]) == x
    decreases |ys|
  {
    if ys == [] {
      assert xs + ys == xs;
    } else {
      var n := |ys| - 1;
      assert (xs + ys)[..|xs + ys| - 1] == xs + ys[..n];
      SumConcat(xs, ys[..n]);
    }
    forall x ensures Sum([x]) == x { assert [x][..0] == []; }
  }

  lemma {:induction false} NoTempi(rs: seq<Option<Record>>, parse: string -> Option<real>)
    ensures Sum(Tempi(rs[..0], parse)) == 0.0
  {
  }

  lemma {:induction false} OneMore(rs: seq<Option<Record>>, i: nat, parse: string -> Option<real>)
    requires i < |rs| && forall j :: 0 <= j <= i ==> Good(rs[j], parse)
    ensures Sum(Tempi(rs[..i + 1], parse)) == Sum(Tempi(rs[..i], parse)) + TempoOf(rs[i], parse)
  {
    assert rs[..i + 1][..i] == rs[..i];
    var xs := Tempi(rs[..i + 1], parse);
    assert xs == Tempi(rs[..i], parse) + [TempoOf(rs[i], parse)];
    assert xs[..i] == Tempi(rs[..i], parse);
  }

  lemma {:induction false} RoundMonotone(x: real, y: real)
    requires x <= y
    ensures Round(x) <= Round(y)
  {
  }

  lemma {:induction false} RoundNear(x: real)
    ensures -0.5 <= Round(x) as real - x <= 0.5
  {
  }

  lemma {:induction false} SumBounds(xs: seq<real>, lo: real, hi: real)
    requires forall i :: 0 <= i < |xs| ==> lo <= xs[i] <= hi
    ensures lo * |xs| as real <= Sum(xs) <= hi * |xs| as real
    decreases |xs|
  {
    if xs != [] {
      SumBounds(xs[..|xs| - 1], lo, hi);
      var n := (|xs| - 1) as real;
      assert lo * |xs| as real == lo * n + lo;
      assert hi * |xs| as real == hi * n + hi;
    }
  }

  lemma {:induction false} MeanBounds(total: real, n: real, lo: real, hi: real)
    requires n > 0.0 && lo * n <= total <= hi * n
    ensures lo <= total / n <= hi
  {
    assert lo == lo * n / n && hi == hi * n / n;
  }

  /** The reported tempo is within half a hundredth of the exact mean, and between the
      rounded bounds of the records. */
  lemma {:induction false} TempoIsTheMean(xs: seq<real>, lo: real, hi: real)
    requires xs != [] && forall i :: 0 <= i < |xs| ==> lo <= xs[i] <= hi
    ensures var mean := Sum(xs) / |xs| as real;
      && -0.005 <= TwoDigits(mean) - mean <= 0.005
      && TwoDigits(lo) <= TwoDigits(mean) <= TwoDigits(hi)
  {
    var mean := Sum(xs) / |xs| as real;
    SumBounds(xs, lo, hi);
    MeanBounds(Sum(xs), |xs| as real, lo, hi);
    RoundNear(mean * 100.0);
    RoundMonotone(lo * 100.0, mean * 100.0);
    RoundMonotone(mean * 100.0, hi * 100.0);
  }
}
