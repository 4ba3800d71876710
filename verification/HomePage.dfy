/** The track list of the home page: one streaming pass that opens and closes one card
    per day. */
module HomePage {
  import opened Prelude

  datatype Track = Track(id: int, sortDate: int)
  datatype Markup = OpenCard(day: int) | Item(id: int) | CloseCard
  datatype Card = Card(day: int, items: seq<int>)

  /** A track goes on the last card if that is of its day, else on a new one. */
  function Place(cards: seq<Card>, d: int, id: int): seq<Card> {
    var n := |cards| - 1;
    if cards != [] && cards[n].day == d then cards[..n] + [Card(d, cards[n].items + [id])]
    else cards + [Card(d, [id])]
  }

  function Cards(tracks: seq<Track>, day: int -> int): seq<Card>
    decreases |tracks|
  {
    if tracks == [] then []
    else
      var n := |tracks| - 1;
      Place(Cards(tracks[..n], day), day(tracks[n].sortDate), tracks[n].id)
  }

  function Items(ids: seq<int>): seq<Markup> {
    if ids == [] then [] else Items(ids[..|ids| - 1]) + [Item(ids[|ids| - 1])]
  }

  function Flatten(cards: seq<Card>): seq<Markup>
    decreases |cards|
  {
    if cards == [] then []
    else
      var n := |cards| - 1;
      Flatten(cards[..n]) + ([OpenCard(cards[n].day)] + Items(cards[n].items)) + [CloseCard]
  }

  lemma {:induction false} FlattenSnoc(cards: seq<Card>, c: Card)
    ensures Flatten(cards + [c]) == Flatten(cards) + ([OpenCard(c.day)] + Items(c.items)) + [CloseCard]
  {
    assert (cards + [c])[..|cards|] == cards;
  }

  lemma {:induction false} ItemsSnoc(ids: seq<int>, id: int)
    ensures Items(ids + [id]) == Items(ids) + [Item(id)]
  {
    assert (ids + [id])[..|ids|] == ids;
  }

  /** A track of a new day closes the card before it and opens its own; the last track
      closes the last card. */
  method RenderTracks(tracks: seq<Track>, day: int -> int) returns (out: seq<Markup>)
    ensures out == Flatten(Cards(tracks, day))
  {
    hide Place, Flatten;
    EmptyPage();
    out := [];
    var previous: Option<int> := None;
    for i := 0 to |tracks|
      invariant i == 0 ==> out == [] && previous == None
      invariant i > 0 ==> previous == Some(day(tracks[i - 1].sortDate))
      invariant out + (if 0 < i < |tracks| then [CloseCard] else []) == Flatten(Cards(tracks[..i], day))
    {
      assert tracks[..i + 1][..i] == tracks[..i];
      ghost var cards := Cards(tracks[..i], day);
      LastCard(tracks[..i], day);
      var d := day(tracks[i].sortDate);
      if previous != Some(d) {
        if i != 0 {
          out := out + [CloseCard];
        }
        assert out == Flatten(cards);
        NewCard(cards, d, tracks[i].id);
        out := out + [OpenCard(d)];
      } else {
        GrowCard(cards, out, d, tracks[i].id);
      }
      out := out + [Item(tracks[i].id)];
      if i + 1 == |tracks| {
        out := out + [CloseCard];
      }
      previous := Some(d);
    }
    assert tracks[..|tracks|] == tracks;
  }

  lemma {:induction false} EmptyPage()
    ensures Flatten([]) == []
  {
  }

  lemma {:induction false} LastCard(tracks: seq<Track>, day: int -> int)
    ensures tracks == [] <==> Cards(tracks, day) == []
    ensures tracks != [] ==>
      var cards := Cards(tracks, day); cards[|cards| - 1].day == day(tracks[|tracks| - 1].sortDate)
  {
  }

  lemma {:induction false} NewCard(cards: seq<Card>, d: int, id: int)
    requires cards != [] ==> cards[|cards| - 1].day != d
    ensures Flatten(Place(cards, d, id)) == Flatten(cards) + [OpenCard(d)] + [Item(id)] + [CloseCard]
  {
    FlattenSnoc(cards, Card(d, [id]));
    assert [id] == [] + [id];
    ItemsSnoc([], id);
  }

  lemma {:induction false} GrowCard(cards: seq<Card>, out: seq<Markup>, d: int, id: int)
    requires cards != [] && cards[|cards| - 1].day == d && out + [CloseCard] == Flatten(cards)
    ensures Flatten(Place(cards, d, id)) == out + [Item(id)] + [CloseCard]
  {
    hide Flatten, Items;
    var n := |cards| - 1;
    var c := cards[n];
    assert cards == cards[..n] + [c];
    FlattenSnoc(cards[..n], c);
    FlattenSnoc(cards[..n], Card(d, c.items + [id]));
    ItemsSnoc(c.items, id);
    var front := Flatten(cards[..n]) + ([OpenCard(d)] + Items(c.items));
    assert (out + [CloseCard])[..|out|] == out && (front + [CloseCard])[..|front|] == front;
  }

  // ---- what the cards are -----------------------------------------------------------

  function AllItems(cards: seq<Card>): seq<int>
    decreases |cards|
  {
    if cards == [] then [] else AllItems(cards[..|cards| - 1]) + cards[|cards| - 1].items
  }

  function Ids(tracks: seq<Track>): (ids: seq<int>)
    ensures |ids| == |tracks| && forall i :: 0 <= i < |ids| ==> ids[i] == tracks[i].id
  {
    if tracks == [] then [] else [tracks[0].id] + Ids(tracks[1..])
  }

  lemma {:induction false} PlaceItems(cards: seq<Card>, d: int, id: int)
    ensures AllItems(Place(cards, d, id)) == AllItems(cards) + [id]
    ensures (forall k :: 0 <= k < |cards| ==> cards[k].items != []) ==>
      forall k :: 0 <= k < |Place(cards, d, id)| ==> Place(cards, d, id)[k].items != []
  {
    var n := |cards| - 1;
    var placed := Place(cards, d, id);
    if cards != [] && cards[n].day == d {
      assert placed[..n] == cards[..n];
      assert AllItems(placed) == AllItems(cards[..n]) + (cards[n].items + [id]);
    } else {
      assert placed[..n + 1] == cards;
    }
  }

  /** Every track is in exactly one card, in the order of the list; no card is empty. */
  lemma {:induction false} CardsPartition(tracks: seq<Track>, day: int -> int)
    ensures AllItems(Cards(tracks, day)) == Ids(tracks)
    ensures forall k :: 0 <= k < |Cards(tracks, day)| ==> Cards(tracks, day)[k].items != []
    decreases |tracks|
  {
    if tracks != [] {
      hide AllItems, Place, Ids;
      var n := |tracks| - 1;
      CardsPartition(tracks[..n], day);
      PlaceItems(Cards(tracks[..n], day), day(tracks[n].sortDate), tracks[n].id);
      IdsSnoc(tracks);
    }
  }

  lemma {:induction false} IdsSnoc(tracks: seq<Track>)
    requires tracks != []
    ensures Ids(tracks) == Ids(tracks[..|tracks| - 1]) + [tracks[|tracks| - 1].id]
  {
  }

  predicate Newest(tracks: seq<Track>) {
    forall i, j :: 0 <= i < j < |tracks| ==> tracks[i].sortDate >= tracks[j].sortDate
  }

  ghost predicate Monotone(day: int -> int) {
    forall a, b :: a <= b ==> day(a) <= day(b)
  }

  predicate DaysDecrease(cards: seq<Card>) {
    forall k, l :: 0 <= k < l < |cards| ==> cards[k].day > cards[l].day
  }

  lemma {:induction false} PlaceDecreases(cards: seq<Card>, d: int, id: int)
    requires DaysDecrease(cards) && (cards != [] ==> d <= cards[|cards| - 1].day)
    ensures DaysDecrease(Place(cards, d, id))
  {
  }

  /** Cards of a list sorted newest first have strictly decreasing days, so each day
      has one card. */
  lemma {:induction false} OneCardPerDay(tracks: seq<Track>, day: int -> int)
    requires Newest(tracks) && Monotone(day)
    ensures DaysDecrease(Cards(tracks, day))
    decreases |tracks|
  {
    hide DaysDecrease, Place;
    var n := |tracks| - 1;
    if tracks == [] {
      PlainPage();
    } else {
      OneCardPerDay(tracks[..n], day);
      LastCard(tracks[..n], day);
      if n > 0 {
        assert day(tracks[n].sortDate) <= day(tracks[n - 1].sortDate);
        assert tracks[..n][n - 1] == tracks[n - 1];
      }
      PlaceDecreases(Cards(tracks[..n], day), day(tracks[n].sortDate), tracks[n].id);
    }
  }

  lemma {:induction false} PlainPage()
    ensures DaysDecrease([])
  {
  }

  /** Item `o` of card `k` is the track at the place it has in the list, and the card's
      day is that track's day. */
  predicate RightPlace(tracks: seq<Track>, day: int -> int, cards: seq<Card>, k: nat, o: nat)
    requires k < |cards| && o < |cards[k].items|
  {
    var i := |AllItems(cards[..k])| + o;
    i < |tracks| && cards[k].items[o] == tracks[i].id && cards[k].day == day(tracks[i].sortDate)
  }

  predicate InPlace(tracks: seq<Track>, day: int -> int, cards: seq<Card>) {
    forall k, o :: 0 <= k < |cards| && 0 <= o < |cards[k].items| ==> RightPlace(tracks, day, cards, k, o)
  }

  lemma {:induction false} PlaceInPlace(tracks: seq<Track>, day: int -> int, cards: seq<Card>, t: Track)
    requires InPlace(tracks, day, cards) && |AllItems(cards)| == |tracks|
    ensures InPlace(tracks + [t], day, Place(cards, day(t.sortDate), t.id))
  {
    hide AllItems, InPlace;
    var placed := Place(cards, day(t.sortDate), t.id);
    forall k, o | 0 <= k < |placed| && 0 <= o < |placed[k].items|
      ensures RightPlace(tracks + [t], day, placed, k, o)
    {
      if k < |cards| {
        assert placed[..k] == cards[..k];
        if o < |cards[k].items| {
          OneInPlace(tracks, day, cards, k, o);
        } else {
          ItemsBefore(cards);
        }
      } else {
        assert placed[..k] == cards;
      }
    }
    AllInPlace(tracks + [t], day, placed);
  }

  lemma {:induction false} OneInPlace(tracks: seq<Track>, day: int -> int, cards: seq<Card>, k: nat, o: nat)
    requires InPlace(tracks, day, cards) && k < |cards| && o < |cards[k].items|
    ensures RightPlace(tracks, day, cards, k, o)
  {
  }

  lemma {:induction false} AllInPlace(tracks: seq<Track>, day: int -> int, cards: seq<Card>)
    requires forall k, o :: 0 <= k < |cards| && 0 <= o < |cards[k].items| ==> RightPlace(tracks, day, cards, k, o)
    ensures InPlace(tracks, day, cards)
  {
  }

  lemma {:induction false} ItemsBefore(cards: seq<Card>)
    requires cards != []
    ensures |AllItems(cards)| == |AllItems(cards[..|cards| - 1])| + |cards[|cards| - 1].items|
  {
  }

  /** The card that holds the track at some place of the list has that track's day, for
      every place; so all tracks of a card share a day, repeated identifiers or not. */
  lemma {:induction false} CardsInPlace(tracks: seq<Track>, day: int -> int)
    ensures InPlace(tracks, day, Cards(tracks, day))
    decreases |tracks|
  {
    if tracks != [] {
      hide Place, InPlace, AllItems, Ids;
      var n := |tracks| - 1;
      CardsInPlace(tracks[..n], day);
      CardsPartition(tracks[..n], day);
      PlaceInPlace(tracks[..n], day, Cards(tracks[..n], day), tracks[n]);
      assert tracks[..n] + [tracks[n]] == tracks;
    }
  }

  /** Nesting depth after some markup; None once a card is opened inside another, an
      item stands outside, or a card is closed that is not open. */
  function Depth(out: seq<Markup>): Option<nat>
    decreases |out|
  {
    if out == [] then Some(0)
    else
      match (Depth(out[..|out| - 1]), out[|out| - 1])
      case (Some(0), OpenCard(_)) => Some(1)
      case (Some(1), Item(_)) => Some(1)
      case (Some(1), CloseCard) => Some(0)
      case _ => None
  }

  lemma {:induction false} ItemsInside(out: seq<Markup>, ids: seq<int>)
    requires Depth(out) == Some(1)
    ensures Depth(out + Items(ids)) == Some(1)
    decreases |ids|
  {
    if ids == [] {
      assert out + [] == out;
    } else {
      ItemsInside(out, ids[..|ids| - 1]);
      var s := out + Items(ids);
      assert s[..|s| - 1] == out + Items(ids[..|ids| - 1]);
    }
  }

  /** The markup is balanced: cards are never nested and every one is closed. */
  lemma {:induction false} Balanced(cards: seq<Card>)
    ensures Depth(Flatten(cards)) == Some(0)
    decreases |cards|
  {
    if cards != [] {
      var n := |cards| - 1;
      Balanced(cards[..n]);
      var open := Flatten(cards[..n]) + [OpenCard(cards[n].day)];
      assert open[..|open| - 1] == Flatten(cards[..n]);
      ItemsInside(open, cards[n].items);
      var s := Flatten(cards);
      assert s[..|s| - 1] == open + Items(cards[n].items);
    }
  }
}
