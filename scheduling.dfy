/** The review scheduler of the flashcard service: the card record, the
    doubling/reset interval rule capped at thirty days, the update a single
    review makes to a card, and the selection of the cards that are due.

    Time is an integer count of microseconds on one fixed clock, the
    resolution of the service's timestamps; a day is TicksPerDay of them. */
module Scheduling {

  const TicksPerDay: int := 86_400_000_000

  /** The longest interval, in days, a card is ever scheduled out by. */
  const MaxIntervalDays: nat := 30

  /** One flashcard: its id, the two faces, the current interval in days,
      the instant it is next due, and how often it was answered right and
      wrong. */
  datatype Card = Card(
    id: string,
    front: string,
    back: string,
    intervalDays: nat,
    nextDue: int,
    correct: nat,
    incorrect: nat)

  /** The intervals a card can have: the start value and what doubling
      capped at thirty days and resetting to one day reach from it. */
  predicate ReachableInterval(days: int) {
    days == 1 || days == 2 || days == 4 || days == 8 || days == 16 || days == 30
  }

  /** A card is due once its next review instant is not in the future. */
  predicate IsDue(c: Card, now: int) {
    c.nextDue <= now
  }

  function Min(a: int, b: int): int {
    if a <= b then a else b
  }

  /** The card a creation request makes: interval of one day, no answers
      yet, due at the moment it is created. */
  function NewCard(id: string, front: string, back: string, now: int): (c: Card)
    ensures c.id == id && c.front == front && c.back == back
    ensures c.intervalDays == 1 && c.nextDue == now
    ensures c.correct == 0 && c.incorrect == 0
    ensures ReachableInterval(c.intervalDays)
    ensures IsDue(c, now) && !IsDue(c, now - 1)
  {
    Card(id, front, back, 1, now, 0, 0)
  }

  /** The interval after one review: doubled and capped at thirty days on a
      right answer, back to one day on a wrong one. */
  function NextInterval(days: nat, correct: bool): (r: nat)
    ensures !correct ==> r == 1
    ensures correct && days >= 1 ==> 2 <= r <= MaxIntervalDays
    ensures correct && days <= MaxIntervalDays ==> days <= r
    ensures correct && 2 * days <= MaxIntervalDays ==> r == 2 * days
    ensures correct && 2 * days >= MaxIntervalDays ==> r == MaxIntervalDays
    ensures ReachableInterval(days) ==> ReachableInterval(r)
  {
    if correct then Min(days * 2, MaxIntervalDays) else 1
  }

  /** One review of card c at instant now: the interval moves by
      NextInterval, exactly one of the two counters goes up, and the card is
      next due the new interval's number of days after now. */
  function Review(c: Card, correct: bool, now: int): (r: Card)
    ensures r.id == c.id && r.front == c.front && r.back == c.back
    ensures r.intervalDays == NextInterval(c.intervalDays, correct)
    ensures r.nextDue == now + r.intervalDays * TicksPerDay
    ensures correct ==> r.correct == c.correct + 1 && r.incorrect == c.incorrect
    ensures !correct ==> r.incorrect == c.incorrect + 1 && r.correct == c.correct
    ensures c.intervalDays >= 1 ==> !IsDue(r, now) && IsDue(r, now + r.intervalDays * TicksPerDay)
  {
    var days := NextInterval(c.intervalDays, correct);
    if correct then
      c.(intervalDays := days, nextDue := now + days * TicksPerDay, correct := c.correct + 1)
    else
      c.(intervalDays := days, nextDue := now + days * TicksPerDay, incorrect := c.incorrect + 1)
  }

  /** The cards of `cards` that are due at `now`, in the order given. */
  function DueCards(cards: seq<Card>, now: int): (r: seq<Card>)
    ensures |r| <= |cards|
    ensures forall c :: c in r <==> c in cards && IsDue(c, now)
  {
    if cards == [] then []
    else
      var rest := DueCards(cards[1..], now);
      assert forall c :: c in cards <==> c == cards[0] || c in cards[1..];
      if IsDue(cards[0], now) then [cards[0]] + rest else rest
  }

  /** Selection keeps the order of its input: selecting from a
      concatenation is concatenating the selections. */
  lemma {:induction false} DueCardsAppend(a: seq<Card>, b: seq<Card>, now: int)
    ensures DueCards(a + b, now) == DueCards(a, now) + DueCards(b, now)
  {
    if a == [] {
      assert a + b == b;
    } else {
      assert (a + b)[1..] == a[1..] + b;
      DueCardsAppend(a[1..], b, now);
    }
  }

  /** Selecting twice selects nothing more than selecting once. */
  lemma {:induction false} DueCardsIdempotent(cards: seq<Card>, now: int)
    ensures DueCards(DueCards(cards, now), now) == DueCards(cards, now)
  {
    if cards != [] {
      DueCardsIdempotent(cards[1..], now);
    }
  }

  /** When every card is due, selection returns the input unchanged. */
  lemma {:induction false} DueCardsAllDue(cards: seq<Card>, now: int)
    requires forall k :: 0 <= k < |cards| ==> IsDue(cards[k], now)
    ensures DueCards(cards, now) == cards
  {
    if cards != [] {
      DueCardsAllDue(cards[1..], now);
    }
  }

  /** When no card is due, selection returns the empty sequence. */
  lemma {:induction false} DueCardsNoneDue(cards: seq<Card>, now: int)
    requires forall k :: 0 <= k < |cards| ==> !IsDue(cards[k], now)
    ensures DueCards(cards, now) == []
  {
    if cards != [] {
      DueCardsNoneDue(cards[1..], now);
    }
  }

  /** The interval after a run of reviews with the given outcomes, in order. */
  function IntervalAfter(days: nat, outcomes: seq<bool>): nat
    decreases |outcomes|
  {
    if outcomes == [] then days
    else IntervalAfter(NextInterval(days, outcomes[0]), outcomes[1..])
  }

  /** Whatever the answers, a card that starts on a reachable interval stays
      on one, so its interval is always between one and thirty days. */
  lemma {:induction false} IntervalAfterReachable(days: nat, outcomes: seq<bool>)
    requires ReachableInterval(days)
    ensures ReachableInterval(IntervalAfter(days, outcomes))
    ensures 1 <= IntervalAfter(days, outcomes) <= MaxIntervalDays
    decreases |outcomes|
  {
    if outcomes != [] {
      IntervalAfterReachable(NextInterval(days, outcomes[0]), outcomes[1..]);
    }
  }

  /** Helper: 2^k. */
  function Pow2(k: nat): (r: nat)
    ensures r >= 1
  {
    if k == 0 then 1 else 2 * Pow2(k - 1)
  }

  /** Helper for IntervalAfterAllCorrect: capping after each doubling or
      only once at the end gives the same interval. */
  lemma CapThenScale(days: nat, p: nat)
    requires p >= 1
    ensures Min(Min(2 * days, MaxIntervalDays) * p, MaxIntervalDays)
         == Min(days * (2 * p), MaxIntervalDays)
  {
  }

  /** A run of k right answers multiplies an interval of at most thirty
      days by 2^k, capped at thirty days. */
  lemma {:induction false} IntervalAfterAllCorrect(days: nat, outcomes: seq<bool>)
    requires days <= MaxIntervalDays
    requires forall k :: 0 <= k < |outcomes| ==> outcomes[k]
    ensures IntervalAfter(days, outcomes) == Min(days * Pow2(|outcomes|), MaxIntervalDays)
    decreases |outcomes|
  {
    if outcomes != [] {
      var n := |outcomes| - 1;
      assert outcomes[0] && |outcomes[1..]| == n;
      assert NextInterval(days, true) == Min(2 * days, MaxIntervalDays);
      IntervalAfterAllCorrect(NextInterval(days, true), outcomes[1..]);
      assert Pow2(|outcomes|) == 2 * Pow2(n);
      CapThenScale(days, Pow2(n));
    }
  }

  /** Right answers never shorten the interval of a card on a reachable
      interval. */
  lemma {:induction false} IntervalAfterCorrectMonotone(days: nat, outcomes: seq<bool>)
    requires ReachableInterval(days)
    requires forall k :: 0 <= k < |outcomes| ==> outcomes[k]
    ensures days <= IntervalAfter(days, outcomes)
    decreases |outcomes|
  {
    if outcomes != [] {
      IntervalAfterCorrectMonotone(NextInterval(days, true), outcomes[1..]);
    }
  }

  /** Five right answers in a row from a new card give 2, 4, 8, 16 and then
      30 days, the last doubling being capped. */
  lemma FiveCorrectFromNew()
    ensures IntervalAfter(1, [true]) == 2
    ensures IntervalAfter(1, [true, true]) == 4
    ensures IntervalAfter(1, [true, true, true]) == 8
    ensures IntervalAfter(1, [true, true, true, true]) == 16
    ensures IntervalAfter(1, [true, true, true, true, true]) == 30
  {
  }

  /** A single wrong answer resets any interval to one day, wherever the run
      before it had taken the card. */
  lemma {:induction false} WrongAnswerResets(days: nat, outcomes: seq<bool>)
    ensures IntervalAfter(days, outcomes + [false]) == 1
    decreases |outcomes|
  {
    if outcomes == [] {
      assert outcomes + [false] == [false];
    } else {
      assert (outcomes + [false])[1..] == outcomes[1..] + [false];
      WrongAnswerResets(NextInterval(days, outcomes[0]), outcomes[1..]);
    }
  }
}
