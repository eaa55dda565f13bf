# Flashcard store and review scheduler

A Dafny model of the in-memory core of a spaced-repetition flashcard
service. The service keeps one list of cards in memory. Each card has an id,
a front and a back, an interval in days, the instant it is next due, and a
count of right and wrong answers. The model covers five operations on that
list:

- **create** appends a new card. Its interval is one day, both counters are
  zero, and it is due at once.
- **list** returns the number of cards and all the cards.
- **due** returns the cards whose due instant is not after now, in store
  order. Its `total` is the size of the whole store.
- **review** finds the first card with the given id, or answers not-found.
  A right answer doubles the interval, capped at thirty days, and adds one
  to the right-answer count. A wrong answer resets the interval to one day
  and adds one to the wrong-answer count. Either way the card is next due
  the new interval's number of days after now.
- **delete** rebuilds the list without the cards that have the given id. It
  never reports absence.

Files:

- `scheduling.dfy` (module `Scheduling`) holds the card record, the interval
  rule, the effect of one review on a card, and the due-card filter. It also
  holds lemmas about runs of reviews.
- `store.dfy` (module `Store`) holds the `CardStore` class. Its field `cards`
  is the service's list. Creation, review and deletion are methods that
  reassign it. The two listings are functions that read it. The class
  invariant `Valid()` says that ids are pairwise distinct and that every
  interval is one of 1, 2, 4, 8, 16 or 30 days. Every method keeps it.
- `scenarios.dfy` (module `Scenarios`) holds a client method. It replays a
  sample review scenario for a "hola"/"hello" card against the store, using
  only the contracts.

Time is an integer count of microseconds on one clock, the resolution of
the timestamps the code keeps. A day is 86400000000 of them.
The current time is a parameter `now` of every operation that reads the
clock. A new card's id is a parameter, and its creator must choose one that
is not in the store.

Two behaviours of the code are worth stating plainly:

- Deleting an absent id succeeds and leaves the store unchanged; delete
  never reports absence (`backend/main_mvp.py:96-98`).
- The due listing's `total` is the size of the whole store, not the number
  of due cards (`backend/main_mvp.py:64`).

## Model

| member | source | states |
|---|---|---|
| `Scheduling.NewCard` | backend/main_mvp.py:37-45 | a new card keeps the given id and faces, has interval exactly 1 day, zero right and zero wrong answers, and next due instant equal to its creation instant, so it is due from that instant on and not before |
| `Scheduling.NextInterval` | backend/main_mvp.py:74-79 | a wrong answer gives one day; a right answer gives double the interval up to fifteen days and thirty from there; it never shortens an interval of at most thirty days; a reachable interval stays reachable |
| `Scheduling.Review` | backend/main_mvp.py:74-81 | id and faces are untouched; the interval moves by NextInterval; exactly the counter of the given outcome goes up by one; the card is next due now plus the new interval in days, so it is no longer due at now |
| `Scheduling.DueCards` | backend/main_mvp.py:60-63 | a card is selected if and only if it is in the input and due at now; the selection is no longer than the input |
| `Scheduling.DueCardsAppend` | backend/main_mvp.py:60-63 | selection keeps store order: selecting from a concatenation concatenates the selections |
| `Scheduling.DueCardsIdempotent` | backend/main_mvp.py:60-63 | selecting from a selection changes nothing |
| `Scheduling.DueCardsAllDue` | backend/main_mvp.py:60-63 | when every card is due, the selection is the whole input in its order |
| `Scheduling.DueCardsNoneDue` | backend/main_mvp.py:60-63 | when no card is due, the selection is empty |
| `Scheduling.IntervalAfterReachable` | backend/main_mvp.py:74-79 | after any sequence of right and wrong answers, a card that started on a reachable interval is on one, so between 1 and 30 days |
| `Scheduling.IntervalAfterAllCorrect` | backend/main_mvp.py:75 | k right answers in a row take an interval d of at most thirty days to min(d * 2^k, 30) |
| `Scheduling.IntervalAfterCorrectMonotone` | backend/main_mvp.py:75 | right answers never shorten a reachable interval |
| `Scheduling.FiveCorrectFromNew` | backend/main_mvp.py:75 | five right answers from a new card give 2, 4, 8, 16 and 30 days |
| `Scheduling.WrongAnswerResets` | backend/main_mvp.py:78 | a wrong answer after any run of answers leaves an interval of one day |
| `Store.FindFirst` | backend/main_mvp.py:70-72 | no position if and only if no card has the id; otherwise the position of a card with the id and no earlier one |
| `Store.Without` | backend/main_mvp.py:97 | a card remains if and only if it was there and its id differs; the result is no longer than the input |
| `Store.WithoutAbsent` | backend/main_mvp.py:97-98 | deleting an id no card has leaves the cards unchanged |
| `Store.WithoutRemovesId` | backend/main_mvp.py:97 | after a deletion no card has the deleted id |
| `Store.WithoutIdempotent` | backend/main_mvp.py:97-98 | deleting twice equals deleting once |
| `Store.WithoutAppend` | backend/main_mvp.py:97 | the remaining cards keep their order: deleting from a concatenation concatenates the deletions |
| `Store.WithoutPresent` | backend/main_mvp.py:97 | with distinct ids, deleting an id that is present removes exactly one card |
| `Store.WithoutKeepsInvariant` | backend/main_mvp.py:97 | deletion keeps ids distinct and intervals reachable |
| `Store.CardStore.constructor` | backend/main_mvp.py:20 | the store starts empty and valid |
| `Store.CardStore.Create` | backend/main_mvp.py:37-47 | exactly one card is appended after the old cards, with the given id and faces, interval 1, due now and zero counters; the invariant is kept |
| `Store.CardStore.List` | backend/main_mvp.py:54 | the listing is every card in store order, and its total is their number |
| `Store.CardStore.Due` | backend/main_mvp.py:57-64 | total is the size of the whole store; the listed cards are exactly DueCards of the store, so a card is listed if and only if it is stored and due at now, and the listed cards keep store order |
| `Store.CardStore.Review` | backend/main_mvp.py:70-81 | not-found if and only if no card has the id, and then nothing changes; otherwise the first card with the id is replaced by its reviewed version and nothing else changes; the invariant is kept |
| `Store.CardStore.Delete` | backend/main_mvp.py:96-98 | the store becomes the cards without the id, in order; an absent id leaves it unchanged; a present id removes exactly one card; the invariant is kept |

## Left out

- HTTP routing, CORS, request validation, the health endpoint and the server start-up (`backend/main_mvp.py:1-31`, `100-102`) are plumbing around the core.
- The catch-all handlers that turn any exception into a 500 answer, and the message strings of the answers (`backend/main_mvp.py:36`, `47-49`, `82-91`), are left out. Not-found on review is modelled as the `NotFound` value.
- The clock (`datetime.now()`), the ISO-8601 string form of the due instants and `timedelta` are replaced by integer microseconds and a `now` parameter. The round trip through `isoformat`/`fromisoformat` keeps naive timestamps to the microsecond, so the due comparison is on the same instants. The calendar meaning of a naive local timestamp, and so daylight-saving shifts, are not modelled.
- `uuid.uuid4()` is replaced by a caller-supplied id with the precondition that no stored card has it.
- Concurrent requests on the shared list are not modelled; every operation runs to completion on its own.
- The response of the review request also echoes the outcome and the interval as text (`backend/main_mvp.py:82-87`); the model returns the reviewed card only.
- The due listing is answered inside a one-element list (`backend/main_mvp.py:64`); the model returns the `Listing` itself.
- In the code, the card dictionaries in a listing are the same objects as in the store. The model's cards are values, so that aliasing is not captured.
- `backend/main.py` is not part of this model: it is database session and commit code for users and decks, and it has no scheduling logic.
