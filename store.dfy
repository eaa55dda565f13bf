/** The in-memory card store of the flashcard service: one list of cards
    that creation appends to, review updates in place, and deletion rebuilds
    without the deleted id, plus the two read-only listings. */
module Store {
  import opened Scheduling

  datatype Option<T> = None | Some(value: T)

  /** What the listing endpoints answer: a count and a list of cards. */
  datatype Listing = Listing(total: nat, cards: seq<Card>)

  /** The answer to a review request: the reviewed card, or not-found. */
  datatype ReviewResult = NotFound | Reviewed(card: Card)

  predicate HasId(cards: seq<Card>, id: string) {
    exists k :: 0 <= k < |cards| && cards[k].id == id
  }

  /** No two cards of the store share an id. */
  predicate DistinctIds(cards: seq<Card>) {
    forall i, j :: 0 <= i < j < |cards| ==> cards[i].id != cards[j].id
  }

  /** Every card of the store is on an interval the scheduler can reach. */
  predicate ReachableIntervals(cards: seq<Card>) {
    forall k :: 0 <= k < |cards| ==> ReachableInterval(cards[k].intervalDays)
  }

  /** The position of the first card with the given id, if there is one. */
  function FindFirst(cards: seq<Card>, id: string): (r: Option<nat>)
    ensures r.None? <==> !HasId(cards, id)
    ensures r.Some? ==> r.value < |cards| && cards[r.value].id == id
    ensures r.Some? ==> forall j :: 0 <= j < r.value ==> cards[j].id != id
  {
    if cards == [] then None
    else if cards[0].id == id then Some(0)
    else
      match FindFirst(cards[1..], id)
      case None =>
        assert forall k :: 0 < k < |cards| ==> cards[k] == cards[1..][k - 1];
        None
      case Some(k) => Some(k + 1)
  }

  /** The cards whose id differs from `id`, in their original order. */
  function Without(cards: seq<Card>, id: string): (r: seq<Card>)
    ensures |r| <= |cards|
    ensures forall c :: c in r <==> c in cards && c.id != id
  {
    if cards == [] then []
    else
      var rest := Without(cards[1..], id);
      assert forall c :: c in cards <==> c == cards[0] || c in cards[1..];
      if cards[0].id == id then rest else [cards[0]] + rest
  }

  /** Deleting an id no card has leaves the cards as they are. */
  lemma {:induction false} WithoutAbsent(cards: seq<Card>, id: string)
    requires !HasId(cards, id)
    ensures Without(cards, id) == cards
  {
    if cards != [] {
      assert cards[0].id != id;
      assert !HasId(cards[1..], id) by {
        forall k | 0 <= k < |cards[1..]| ensures cards[1..][k].id != id {
          assert cards[1..][k] == cards[k + 1];
        }
      }
      WithoutAbsent(cards[1..], id);
    }
  }

  /** After a deletion no card has the deleted id. */
  lemma WithoutRemovesId(cards: seq<Card>, id: string)
    ensures !HasId(Without(cards, id), id)
  {
  }

  /** Deleting twice is the same as deleting once. */
  lemma WithoutIdempotent(cards: seq<Card>, id: string)
    ensures Without(Without(cards, id), id) == Without(cards, id)
  {
  }

  /** Deletion keeps the order of what remains: deleting from a
      concatenation is concatenating the deletions. */
  lemma {:induction false} WithoutAppend(a: seq<Card>, b: seq<Card>, id: string)
    ensures Without(a + b, id) == Without(a, id) + Without(b, id)
  {
    if a == [] {
      assert a + b == b;
    } else {
      assert (a + b)[1..] == a[1..] + b;
      WithoutAppend(a[1..], b, id);
    }
  }

  /** Deleting a card that is present, from a store with distinct ids,
      shortens the store by exactly one. */
  lemma {:induction false} WithoutPresent(cards: seq<Card>, id: string)
    requires DistinctIds(cards) && HasId(cards, id)
    ensures |Without(cards, id)| == |cards| - 1
  {
    assert DistinctIds(cards[1..]) by {
      forall i, j | 0 <= i < j < |cards[1..]| ensures cards[1..][i].id != cards[1..][j].id {
        assert cards[1..][i] == cards[i + 1] && cards[1..][j] == cards[j + 1];
      }
    }
    if cards[0].id == id {
      assert !HasId(cards[1..], id) by {
        forall k | 0 <= k < |cards[1..]| ensures cards[1..][k].id != id {
          assert cards[1..][k] == cards[k + 1];
        }
      }
      WithoutAbsent(cards[1..], id);
    } else {
      var k :| 0 <= k < |cards| && cards[k].id == id;
      assert cards[1..][k - 1].id == id;
      WithoutPresent(cards[1..], id);
    }
  }

  /** Deletion keeps the store's invariant: the remaining cards still have
      distinct ids and reachable intervals. */
  lemma {:induction false} WithoutKeepsInvariant(cards: seq<Card>, id: string)
    requires DistinctIds(cards) && ReachableIntervals(cards)
    ensures DistinctIds(Without(cards, id)) && ReachableIntervals(Without(cards, id))
  {
    if cards != [] {
      var tail := cards[1..];
      assert DistinctIds(tail) && ReachableIntervals(tail) by {
        forall i | 0 <= i < |tail| ensures tail[i] == cards[i + 1] { }
      }
      WithoutKeepsInvariant(tail, id);
      var rest := Without(tail, id);
      if cards[0].id != id {
        assert Without(cards, id) == [cards[0]] + rest;
        forall c | c in rest ensures c.id != cards[0].id {
          var k :| 0 <= k < |tail| && tail[k] == c;
          assert tail[k] == cards[k + 1];
        }
      }
    }
  }

  /** The store: the one list of cards the service keeps in memory. */
  class CardStore {
    var cards: seq<Card>

    /** The store's invariant: ids are distinct, and every interval is one
        of 1, 2, 4, 8, 16, 30 days. */
    ghost predicate Valid()
      reads this
    {
      DistinctIds(cards) && ReachableIntervals(cards)
    }

    /** The service starts with no cards. */
    constructor ()
      ensures Valid() && cards == []
    {
      cards := [];
    }

    /** Creation: a new card with the given (fresh) id and faces, interval
        one day, no answers and due now, appended after every existing
        card. */
    method Create(id: string, front: string, back: string, now: int) returns (card: Card)
      requires Valid()
      requires !HasId(cards, id)
      modifies this
      ensures Valid()
      ensures card.id == id && card.front == front && card.back == back
      ensures card.intervalDays == 1 && card.nextDue == now
      ensures card.correct == 0 && card.incorrect == 0
      ensures cards == old(cards) + [card]
    {
      card := NewCard(id, front, back, now);
      cards := cards + [card];
    }

    /** The full listing: every card in store order, with their number. */
    function List(): (r: Listing)
      reads this
      ensures r.cards == cards && r.total == |r.cards|
    {
      Listing(|cards|, cards)
    }

    /** The due listing: the cards due at `now` in store order; its total is
        the size of the whole store, not the number of due cards. */
    function Due(now: int): (r: Listing)
      reads this
      ensures r.total == |cards|
      ensures r.cards == DueCards(cards, now)
      ensures |r.cards| <= r.total
      ensures forall c :: c in r.cards <==> c in cards && IsDue(c, now)
    {
      Listing(|cards|, DueCards(cards, now))
    }

    /** A review of the first card with the given id: not-found and no
        change when there is none; otherwise that one card is replaced by
        its reviewed version and every other card stays where it was. */
    method Review(id: string, correct: bool, now: int) returns (result: ReviewResult)
      requires Valid()
      modifies this
      ensures Valid()
      ensures result.NotFound? <==> !HasId(old(cards), id)
      ensures result.NotFound? ==> cards == old(cards)
      ensures result.Reviewed? ==>
        exists i :: 0 <= i < |old(cards)| && old(cards)[i].id == id &&
          (forall j :: 0 <= j < i ==> old(cards)[j].id != id) &&
          result.card == Scheduling.Review(old(cards)[i], correct, now) &&
          cards == old(cards)[i := result.card]
    {
      match FindFirst(cards, id)
      case None =>
        result := NotFound;
      case Some(i) =>
        var updated := Scheduling.Review(cards[i], correct, now);
        cards := cards[i := updated];
        result := Reviewed(updated);
    }

    /** Deletion: the store is rebuilt from the cards whose id differs.
        An absent id is not an error; the store is then unchanged. */
    method Delete(id: string)
      requires Valid()
      modifies this
      ensures Valid()
      ensures cards == Without(old(cards), id)
      ensures !HasId(cards, id)
      ensures !HasId(old(cards), id) ==> cards == old(cards)
      ensures HasId(old(cards), id) ==> |cards| == |old(cards)| - 1
    {
      WithoutKeepsInvariant(cards, id);
      WithoutRemovesId(cards, id);
      if HasId(cards, id) {
        WithoutPresent(cards, id);
      } else {
        WithoutAbsent(cards, id);
      }
      cards := Without(cards, id);
    }
  }
}
