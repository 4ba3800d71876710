/** The statistics page: counts by kind and uploads by weekday, filled from the rows of
    two group-by queries. */
module OpenPage {
  import opened Prelude
  import opened Schema

  /** How many posts fall under key `k`; a post may fall under none. */
  function Count<K(==)>(ps: seq<Post>, key: Post -> Option<K>, k: K): nat {
    if ps == [] then 0 else (if key(ps[0]) == Some(k) then 1 else 0) + Count(ps[1..], key, k)
  }

  function CountAny<K(==)>(ps: seq<Post>, key: Post -> Option<K>): nat {
    if ps == [] then 0 else (if key(ps[0]).Some? then 1 else 0) + CountAny(ps[1..], key)
  }

  datatype Group<K> = Group(key: K, quantity: nat)

  /** The rows of a group-by query, in whatever order: one for each key that occurs. */
  ghost predicate Grouping<K(!new)>(rows: seq<Group<K>>, ps: seq<Post>, key: Post -> Option<K>) {
    && (forall i :: 0 <= i < |rows| ==> rows[i].quantity == Count(ps, key, rows[i].key) > 0)
    && (forall i, j :: 0 <= i < j < |rows| ==> rows[i].key != rows[j].key)
    && (forall k :: Count(ps, key, k) > 0 ==> exists i :: 0 <= i < |rows| && rows[i].key == k)
  }

  function SumCounts<K(==)>(ks: seq<K>, ps: seq<Post>, key: Post -> Option<K>): nat {
    if ks == [] then 0 else Count(ps, key, ks[0]) + SumCounts(ks[1..], ps, key)
  }

  predicate Distinct<K(==)>(ks: seq<K>) {
    forall i, j :: 0 <= i < j < |ks| ==> ks[i] != ks[j]
  }

  lemma {:induction false} SumCountsStep<K>(ks: seq<K>, ps: seq<Post>, key: Post -> Option<K>)
    requires ps != [] && Distinct(ks)
    ensures SumCounts(ks, ps, key) == SumCounts(ks, ps[1..], key) +
      (if key(ps[0]).Some? && key(ps[0]).value in ks then 1 else 0)
    decreases |ks|
  {
    if ks != [] {
      SumCountsStep(ks[1..], ps, key);
      if key(ps[0]) == Some(ks[0]) {
        assert ks[0] !in ks[1..];
      }
    }
  }

  lemma {:induction false} SumCountsNone<K>(ks: seq<K>, key: Post -> Option<K>)
    ensures SumCounts(ks, [], key) == 0
    decreases |ks|
  {
    if ks != [] { SumCountsNone(ks[1..], key); }
  }

  /** Counting by distinct keys that cover every key in use counts every keyed post. */
  lemma {:induction false} GroupsCoverAll<K>(ks: seq<K>, ps: seq<Post>, key: Post -> Option<K>)
    requires Distinct(ks)
    requires forall i :: 0 <= i < |ps| && key(ps[i]).Some? ==> key(ps[i]).value in ks
    ensures SumCounts(ks, ps, key) == CountAny(ps, key)
    decreases |ps|
  {
    if ps == [] {
      SumCountsNone(ks, key);
    } else {
      SumCountsStep(ks, ps, key);
      GroupsCoverAll(ks, ps[1..], key);
    }
  }

  // ---- the two queries -------------------------------------------------------------

  function KindOf(p: Post): Option<Kind> {
    Some(p.kind)
  }

  /** Division of SQLite on integers: toward zero. */
  function Truncated(a: int, b: int): int
    requires b > 0
  {
    if a >= 0 then a / b else -((-a) / b)
  }

  const SECOND := 1_000_000_000
  const DAY := 86400 * SECOND

  /** strftime("%w") of the whole seconds: day 0 of the epoch was a Thursday. */
  function Weekday(sortDate: int): (w: int)
    ensures 0 <= w < 7
  {
    (Truncated(sortDate, SECOND) / 86400 + 4) % 7
  }

  /** The calendar day of a moment, counted from 1970-01-01. */
  function CalendarDay(sortDate: int): int {
    sortDate / DAY
  }

  lemma {:induction false} DayOfSecond(a: int)
    ensures a / SECOND / 86400 == CalendarDay(a)
  {
  }

  lemma {:induction false} TruncatedIsFloor(a: int)
    ensures Truncated(a, SECOND) == if a >= 0 || a % SECOND == 0 then a / SECOND else a / SECOND + 1
  {
  }

  /** The weekday is that of the calendar day, counted on from a Thursday, except within
      the last second of a day before the epoch: there the division toward zero gives the
      next day. */
  lemma {:induction false} WeekdayIsCalendar(a: int)
    ensures Weekday(a) == (CalendarDay(a) + 4) % 7 <==> !(a < 0 && a % DAY > DAY - SECOND)
  {
    DayOfSecond(a);
    TruncatedIsFloor(a);
    LastSecond(a);
    var q := a / SECOND;
    assert (q + 1) / 86400 == if q % 86400 == 86399 then q / 86400 + 1 else q / 86400;
  }

  lemma {:induction false} LastSecond(a: int)
    ensures a % DAY > DAY - SECOND <==> a / SECOND % 86400 == 86399 && a % SECOND != 0
  {
  }

  function WeekdayOf(p: Post): Option<int> {
    if p.kind == Track then Some(Weekday(p.sortDate)) else None
  }

  const WEEK: seq<int> := [0, 1, 2, 3, 4, 5, 6]

  /** The places in the table of the posts of a kind, and of the tracks of a weekday. */
  ghost function PostsOf(ps: seq<Post>, kind: Kind): set<int> {
    set i | 0 <= i < |ps| && ps[i].kind == kind
  }

  ghost function TracksOn(ps: seq<Post>, weekday: int): set<int> {
    set i | 0 <= i < |ps| && ps[i].kind == Track && Weekday(ps[i].sortDate) == weekday
  }

  ghost function Places<K>(ps: seq<Post>, key: Post -> Option<K>, k: K): set<int> {
    set i | 0 <= i < |ps| && key(ps[i]) == Some(k)
  }

  lemma {:induction false} CountLast<K>(ps: seq<Post>, p: Post, key: Post -> Option<K>, k: K)
    ensures Count(ps + [p], key, k) == Count(ps, key, k) + (if key(p) == Some(k) then 1 else 0)
    decreases |ps|
  {
    if ps == [] {
      assert ps + [p] == [p] && [p][1..] == [];
    } else {
      assert (ps + [p])[1..] == ps[1..] + [p];
      CountLast(ps[1..], p, key, k);
    }
  }

  /** Counting gives the number of places. */
  lemma {:induction false} CountIsSize<K>(ps: seq<Post>, key: Post -> Option<K>, k: K)
    ensures Count(ps, key, k) == |Places(ps, key, k)|
    decreases |ps|
  {
    if ps == [] {
      assert Places(ps, key, k) == {};
    } else {
      var n := |ps| - 1;
      CountIsSize(ps[..n], key, k);
      CountLast(ps[..n], ps[n], key, k);
      assert ps == ps[..n] + [ps[n]];
      var front := Places(ps[..n], key, k);
      assert Places(ps, key, k) == front + (if key(ps[n]) == Some(k) then {n} else {});
      assert n !in front;
    }
  }

  datatype Counts = Counts(
    tracks: nat, comments: nat, homeViews: nat, postViews: nat, profileViews: nat, openViews: nat)

  /** The loop over the rows writes the kinds it knows; a kind without a row stays zero. */
  method FillCounts(rows: seq<Group<Kind>>, ghost ps: seq<Post>) returns (c: Counts)
    requires Grouping(rows, ps, KindOf)
    ensures c == Counts(Count(ps, KindOf, Track), Count(ps, KindOf, Comment), Count(ps, KindOf, ViewHome),
                        Count(ps, KindOf, ViewPost), Count(ps, KindOf, ViewProfile), Count(ps, KindOf, ViewOpen))
    ensures c == Counts(|PostsOf(ps, Track)|, |PostsOf(ps, Comment)|, |PostsOf(ps, ViewHome)|,
                        |PostsOf(ps, ViewPost)|, |PostsOf(ps, ViewProfile)|, |PostsOf(ps, ViewOpen)|)
  {
    c := Counts(0, 0, 0, 0, 0, 0);
    for i := 0 to |rows|
      invariant c == Counts(Seen(rows[..i], Track), Seen(rows[..i], Comment), Seen(rows[..i], ViewHome),
                            Seen(rows[..i], ViewPost), Seen(rows[..i], ViewProfile), Seen(rows[..i], ViewOpen))
    {
      var n := rows[i].quantity;
      assert rows[..i + 1][..i] == rows[..i];
      match rows[i].key {
        case Track => c := c.(tracks := n);
        case Comment => c := c.(comments := n);
        case ViewHome => c := c.(homeViews := n);
        case ViewPost => c := c.(postViews := n);
        case ViewProfile => c := c.(profileViews := n);
        case ViewOpen => c := c.(openViews := n);
        case _ =>
      }
    }
    assert rows[..|rows|] == rows;
    forall k ensures Seen(rows, k) == Count(ps, KindOf, k) == |PostsOf(ps, k)| {
      SeenIsCount(rows, ps, KindOf, k);
      CountIsSize(ps, KindOf, k);
      assert PostsOf(ps, k) == Places(ps, KindOf, k);
    }
  }

  /** The quantity that the rows so far give for a key, the last one winning. */
  function Seen<K(==)>(rows: seq<Group<K>>, k: K): nat {
    if rows == [] then 0
    else if rows[|rows| - 1].key == k then rows[|rows| - 1].quantity
    else Seen(rows[..|rows| - 1], k)
  }

  lemma {:induction false} SeenRow<K>(rows: seq<Group<K>>, k: K)
    ensures (forall i :: 0 <= i < |rows| ==> rows[i].key != k) ==> Seen(rows, k) == 0
    ensures (exists i :: 0 <= i < |rows| && rows[i].key == k) ==>
      exists i :: 0 <= i < |rows| && rows[i].key == k && Seen(rows, k) == rows[i].quantity
    decreases |rows|
  {
    if rows != [] {
      SeenRow(rows[..|rows| - 1], k);
      if rows[|rows| - 1].key != k && exists i :: 0 <= i < |rows| && rows[i].key == k {
        var front := rows[..|rows| - 1];
        var i :| 0 <= i < |rows| && rows[i].key == k;
        assert front[i].key == k;
        var j :| 0 <= j < |front| && front[j].key == k && Seen(front, k) == front[j].quantity;
        assert rows[j].key == k && Seen(rows, k) == rows[j].quantity;
      }
    }
  }

  lemma {:induction false} SeenIsCount<K(!new)>(rows: seq<Group<K>>, ps: seq<Post>, key: Post -> Option<K>, k: K)
    requires Grouping(rows, ps, key)
    ensures Seen(rows, k) == Count(ps, key, k)
  {
    SeenRow(rows, k);
  }

  /** Seven slots, indexed by the weekday of each row; the index is always in range. */
  method FillWeekdays(rows: seq<Group<int>>, ghost ps: seq<Post>) returns (slots: array<nat>)
    requires Grouping(rows, ps, WeekdayOf)
    ensures fresh(slots) && slots.Length == 7
    ensures forall w :: 0 <= w < 7 ==> slots[w] == Count(ps, WeekdayOf, w)
    ensures forall w :: 0 <= w < 7 ==> slots[w] == |TracksOn(ps, w)|
  {
    slots := new nat[7](_ => 0);
    for i := 0 to |rows|
      invariant forall w :: 0 <= w < 7 ==> slots[w] == Seen(rows[..i], w)
    {
      CountedInWeek(ps, rows[i].key);
      slots[rows[i].key] := rows[i].quantity;
      assert rows[..i + 1][..i] == rows[..i];
    }
    assert rows[..|rows|] == rows;
    forall w ensures Seen(rows, w) == Count(ps, WeekdayOf, w) == |TracksOn(ps, w)| {
      SeenIsCount(rows, ps, WeekdayOf, w);
      CountIsSize(ps, WeekdayOf, w);
      assert TracksOn(ps, w) == Places(ps, WeekdayOf, w);
    }
  }

  lemma {:induction false} CountedInWeek(ps: seq<Post>, w: int)
    ensures Count(ps, WeekdayOf, w) > 0 ==> 0 <= w < 7
    decreases |ps|
  {
    if ps != [] { CountedInWeek(ps[1..], w); }
  }

  lemma {:induction false} TracksAreDated(ps: seq<Post>)
    ensures CountAny(ps, WeekdayOf) == Count(ps, KindOf, Track)
    ensures CountAny(ps, KindOf) == |ps|
    decreases |ps|
  {
    if ps != [] { TracksAreDated(ps[1..]); }
  }

  /** The seven slots add up to the number of tracks that the other query reports. */
  lemma {:induction false} SlotsSumToTracks(ps: seq<Post>)
    ensures SumCounts(WEEK, ps, WeekdayOf) == Count(ps, KindOf, Track)
  {
    GroupsCoverAll(WEEK, ps, WeekdayOf);
    TracksAreDated(ps);
  }

  function Keys<K>(rows: seq<Group<K>>): (ks: seq<K>)
    ensures |ks| == |rows| && forall i :: 0 <= i < |rows| ==> ks[i] == rows[i].key
  {
    if rows == [] then [] else [rows[0].key] + Keys(rows[1..])
  }

  function Total<K>(rows: seq<Group<K>>): nat {
    if rows == [] then 0 else rows[0].quantity + Total(rows[1..])
  }

  lemma {:induction false} TotalIsSum<K>(rows: seq<Group<K>>, ps: seq<Post>, key: Post -> Option<K>)
    requires forall i :: 0 <= i < |rows| ==> rows[i].quantity == Count(ps, key, rows[i].key)
    ensures Total(rows) == SumCounts(Keys(rows), ps, key)
    decreases |rows|
  {
    if rows != [] {
      TotalIsSum(rows[1..], ps, key);
      assert Keys(rows)[1..] == Keys(rows[1..]);
    }
  }

  lemma {:induction false} Occurs<K>(ps: seq<Post>, key: Post -> Option<K>, i: nat)
    requires i < |ps| && key(ps[i]).Some?
    ensures Count(ps, key, key(ps[i]).value) > 0
    decreases |ps|
  {
    if i > 0 { Occurs(ps[1..], key, i - 1); }
  }

  /** The quantities of the group-by-kind query add up to the number of posts. */
  lemma {:induction false} KindsSumToPosts(rows: seq<Group<Kind>>, ps: seq<Post>)
    requires Grouping(rows, ps, KindOf)
    ensures Total(rows) == |ps|
  {
    TotalIsSum(rows, ps, KindOf);
    var ks := Keys(rows);
    forall i | 0 <= i < |ps| && KindOf(ps[i]).Some? ensures KindOf(ps[i]).value in ks {
      Occurs(ps, KindOf, i);
      var j :| 0 <= j < |rows| && rows[j].key == ps[i].kind;
      assert ks[j] == ps[i].kind;
    }
    GroupsCoverAll(ks, ps, KindOf);
    TracksAreDated(ps);
  }

  /** The chart shows the slots from Monday on: the same seven numbers. */
  function MondayFirst(slots: seq<nat>): seq<nat>
    requires |slots| == 7
  {
    slots[1..] + [slots[0]]
  }

  lemma {:induction false} MondayFirstPermutes(slots: seq<nat>)
    requires |slots| == 7
    ensures multiset(MondayFirst(slots)) == multiset(slots)
    ensures forall d :: 0 <= d < 7 ==> MondayFirst(slots)[d] == slots[(d + 1) % 7]
  {
    assert slots == [slots[0]] + slots[1..];
  }
}
