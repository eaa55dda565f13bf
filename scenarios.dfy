/** A client of the store that replays a sample review scenario using
    nothing but the contracts of CardStore and of the scheduler. */
module Scenarios {
  import opened Scheduling
  import opened Store

  /** Card "hola"/"hello" created at t0, answered right at t0 and at t0 + 2
      days, then wrong at t0 + 6 days; a second card created at t0 + 6 days
      is the only one of the two due at that instant. */
  method HolaScenario(t0: int) {
    var day := TicksPerDay;
    var store := new CardStore();
    var c := store.Create("a", "hola", "hello", t0);
    assert c.intervalDays == 1 && c.nextDue == t0;
    assert store.cards == [c] && store.cards[0].id == "a";

    var r := store.Review("a", true, t0);
    assert r.Reviewed? && r.card.intervalDays == 2 && r.card.nextDue == t0 + 2 * day;
    assert store.cards == [r.card] && store.cards[0].id == "a";
    r := store.Review("a", true, t0 + 2 * day);
    assert r.Reviewed? && r.card.intervalDays == 4 && r.card.nextDue == t0 + 6 * day;
    assert store.cards == [r.card] && store.cards[0].id == "a";
    r := store.Review("a", false, t0 + 6 * day);
    assert r.Reviewed? && r.card.intervalDays == 1 && r.card.nextDue == t0 + 7 * day;
    assert r.card.correct == 2 && r.card.incorrect == 1;
    var hola := r.card;

    var d := store.Create("b", "adios", "goodbye", t0 + 6 * day);
    assert store.cards == [hola, d];
    var due := store.Due(t0 + 6 * day);
    assert due.total == 2;
    assert due.cards == [d] by {
      assert !IsDue(hola, t0 + 6 * day) && IsDue(d, t0 + 6 * day);
    }

    var missing := store.Review("zzz", true, t0);
    assert missing == NotFound && store.cards == [hola, d];

    store.Delete("a");
    assert store.cards == [d];
    store.Delete("a");
    assert store.cards == [d];
    missing := store.Review("a", true, t0);
    assert missing == NotFound;
  }
}
