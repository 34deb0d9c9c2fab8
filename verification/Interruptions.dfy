/** What a chat callback that keeps raising does to the poller: `poll_market` has no
    handler, and the scheduler just starts the next cycle. */
module Interruptions {
  import opened Wrappers
  import opened Orders
  import opened MarketState
  import Alerting
  import Fairness

  /** The callback raises over the first item of the batch. */
  predicate CutAtFirst(w: World, e: Event) {
    && e.Poll? && e.due != [] && |e.fetches| == |e.due| && e.due[0] in Left(w, e).watch
    && Interrupted(Left(w, e), e.due[0], e.fetches[0])
  }

  /** The tables a poll takes its batch from. */
  function Left(w: World, e: Event): Tables
    requires e.Poll?
  {
    Cleaned(w.db, e.now, e.settings)
  }

  lemma {:induction false} CutItems(w: World, due: seq<int>, now: int, fetches: seq<Fetch>)
    requires |fetches| == |due| && forall i | 0 <= i < |due| :: due[i] in w.db.watch
    requires due != [] && Interrupted(w.db, due[0], fetches[0])
    ensures PollItems(w, due, now, fetches) == Cycle(PollItem(w, due[0], now, fetches[0]), false)
    ensures Fairness.PolledIn(w, due, now, fetches) == {}
  {
    hide PollItem, Interrupted;
    var n := |due| - 1;
    if n == 0 {
      assert due[..n] == [] && fetches[..n] == [];
    } else {
      CutItems(w, due[..n], now, fetches[..n]);
    }
  }

  lemma CutItemKeeps(w: World, aoid: int, now: int, fetch: Fetch)
    requires aoid in w.db.watch && Interrupted(w.db, aoid, fetch)
    ensures
      var v := PollItem(w, aoid, now, fetch);
      v.db.watch == w.db.watch && v.db.subs == w.db.subs && v.db.seen == w.db.seen
  {
    hide Notify, Reported, NewOrders;
    Alerting.SameSeen(w.db, AddSnapshot(w.db, aoid, now), aoid);
    Alerting.InterruptedSame(w.db, AddSnapshot(w.db, aoid, now), aoid, fetch);
    hide Interrupted, SeenOf;
  }

  /** A poll cut at its first item leaves poll times, subscriptions and seen orders as its
      cleaning left them. */
  lemma CutPollKeeps(w: World, e: Event)
    requires Enabled(w, e) && CutAtFirst(w, e)
    ensures
      var t, v := Left(w, e), Apply(w, e);
      && v.db.watch == t.watch && v.db.subs == t.subs && v.db.seen == w.db.seen
      && Fairness.PolledBy(w, e) == {} && !Fairness.Completes(w, e)
      && v == PollItem(w.(db := t), e.due[0], e.now, e.fetches[0])
  {
    hide Apply, Enabled, PollItem, PollItems, Interrupted, Fairness.PolledIn;
    var cleaned := w.(db := Left(w, e));
    ApplyPoll(w, e);
    CutItems(cleaned, e.due, e.now, e.fetches);
    CutItemKeeps(cleaned, e.due[0], e.now, e.fetches[0]);
  }

  /** Every poll of the run is cut at its first item. */
  ghost predicate AllCut(w: World, es: seq<Event>)
    requires IsRun(w, es)
    decreases |es|
  {
    es == [] ||
    (AllCut(w, es[..|es| - 1]) && (es[|es| - 1].Poll? ==> CutAtFirst(After(w, es[..|es| - 1]), es[|es| - 1])))
  }

  /** As long as every poll is cut at its first item, whatever else happens and however the
      clock goes on, no item is polled: one that stays in the table keeps waiting. */
  lemma {:induction false} NoHeadway(w: World, es: seq<Event>)
    requires IsRun(w, es) && AllCut(w, es)
    ensures Fairness.ItemPolls(w, es) == 0 && Fairness.CompletedPolls(w, es) == 0
    decreases |es|
  {
    hide Apply, Enabled, CutAtFirst, Fairness.PolledBy, Fairness.Completes;
    if es != [] {
      var front, e := es[..|es| - 1], es[|es| - 1];
      NoHeadway(w, front);
      if e.Poll? {
        CutPollKeeps(After(w, front), e);
      } else {
        NotAPoll(After(w, front), e);
      }
    }
  }

  lemma NotAPoll(w: World, e: Event)
    requires Enabled(w, e) && !e.Poll?
    ensures Fairness.PolledBy(w, e) == {} && !Fairness.Completes(w, e)
  {}

  // ---- one poll at many times ----

  /** The poll at another time of the clock. */
  function Timed(e: Event, t: int): Event
    requires e.Poll?
  {
    Poll(t, e.settings, e.due, e.fetches)
  }

  function PollsAt(e: Event, times: seq<int>): (es: seq<Event>)
    requires e.Poll?
    ensures |es| == |times|
  {
    if times == [] then [] else PollsAt(e, times[..|times| - 1]) + [Timed(e, times[|times| - 1])]
  }

  /** At this time the poll is cut at its first item, and no watch row has expired. */
  ghost predicate CutsAt(w: World, e: Event, t: int)
    requires e.Poll?
  {
    && Enabled(w, Timed(e, t)) && CutAtFirst(w, Timed(e, t))
    && Left(w, Timed(e, t)).watch == w.db.watch
  }

  /** For polls, the worlds look alike. */
  ghost predicate Alike(w: World, x: World) {
    x.db.watch == w.db.watch && x.db.subs == w.db.subs && x.db.seen == w.db.seen
  }

  lemma NothingExpired(t: Tables, now: int, settings: PollSettings)
    requires Cleaned(t, now, settings).watch == t.watch
    ensures Cleaned(t, now, settings).subs == t.subs && Stale(t, now - settings.expireDays * DAY) == {}
  {
    var gone := Stale(t, now - settings.expireDays * DAY);
    assert (t.watch - gone).Keys == t.watch.Keys - gone;
    assert gone == gone * t.watch.Keys == gone * (t.watch.Keys - gone) == {};
    assert DropWatches(t, {}).subs == t.subs;
  }

  lemma CleanedAlike(t: Tables, u: Tables, now: int, settings: PollSettings)
    requires Cleaned(t, now, settings).watch == t.watch && u.watch == t.watch && u.subs == t.subs
    ensures Cleaned(u, now, settings).watch == t.watch && Cleaned(u, now, settings).subs == t.subs
  {
    NothingExpired(t, now, settings);
    assert Stale(u, now - settings.expireDays * DAY) == {};
    assert DropWatches(u, {}).watch == u.watch && DropWatches(u, {}).subs == u.subs;
  }

  lemma PollEnabled(w: World, e: Event)
    requires e.Poll?
    ensures Enabled(w, e) <==>
      |e.fetches| == |e.due| && IsBatch(Left(w, e), PollCutoff(e.now, e.settings), e.settings.batchSize, e.due)
  {
    hide IsBatch, Cleaned;
  }

  /** Whether a poll is cut depends on what stays alike. */
  lemma CutsAlike(w: World, x: World, e: Event, t: int)
    requires e.Poll? && CutsAt(w, e, t) && Alike(w, x)
    ensures CutsAt(x, e, t)
  {
    CleanedAlike(w.db, x.db, t, e.settings);
    NothingExpired(w.db, t, e.settings);
    PollEnabled(w, Timed(e, t));
    PollEnabled(x, Timed(e, t));
    hide Cleaned, Interrupted, Enabled, IsBatch, PollCutoff;
    var a, b := Left(w, Timed(e, t)), Left(x, Timed(e, t));
    SameCut(a, b, e, PollCutoff(t, e.settings));
  }

  lemma SameCut(t: Tables, u: Tables, e: Event, cutoff: int)
    requires e.Poll? && e.due != [] && |e.fetches| == |e.due|
    requires u.watch == t.watch && u.subs == t.subs && u.seen == t.seen
    ensures IsBatch(t, cutoff, e.settings.batchSize, e.due) ==> IsBatch(u, cutoff, e.settings.batchSize, e.due)
    ensures Interrupted(u, e.due[0], e.fetches[0]) == Interrupted(t, e.due[0], e.fetches[0])
  {
    hide Interrupted, SeenOf;
    Alerting.SameSeen(t, u, e.due[0]);
    Alerting.InterruptedSame(t, u, e.due[0], e.fetches[0]);
    if IsBatch(t, cutoff, e.settings.batchSize, e.due) {
      BatchAlike(t, u, cutoff, e.settings.batchSize, e.due);
    }
    hide IsBatch;
  }

  lemma CutStaysAlike(w: World, e: Event, t: int)
    requires e.Poll? && CutsAt(w, e, t)
    ensures Alike(w, Apply(w, Timed(e, t))) && Fairness.PolledBy(w, Timed(e, t)) == {}
  {
    hide Apply, Cleaned, Enabled, CutAtFirst, Fairness.PolledBy, Fairness.Completes, PollItem;
    CutPollKeeps(w, Timed(e, t));
    NothingExpired(w.db, t, e.settings);
  }

  /** While the callback raises over the first item and no row expires, polls at any number
      of times follow each other, and none gets through any item: everything waits. */
  lemma {:induction false} StuckAtTimes(w: World, e: Event, times: seq<int>, aoid: int)
    requires e.Poll? && aoid in w.db.watch && forall i | 0 <= i < |times| :: CutsAt(w, e, times[i])
    ensures
      var es := PollsAt(e, times);
      IsRun(w, es) && Alike(w, After(w, es)) && Fairness.Waiting(w, es, aoid) && Fairness.ItemPolls(w, es) == 0
    decreases |times|
  {
    hide Apply, Enabled, CutAtFirst, Fairness.PolledBy;
    var es := PollsAt(e, times);
    if times != [] {
      var n := |times| - 1;
      StuckAtTimes(w, e, times[..n], aoid);
      assert es[..n] == PollsAt(e, times[..n]) && es[n] == Timed(e, times[n]);
      var before := After(w, es[..n]);
      CutsAlike(w, before, e, times[n]);
      CutStaysAlike(before, e, times[n]);
    }
  }

  // ---- how long it lasts ----

  /** A row expires at no time when it is auto-tracked. */
  lemma NoneExpires(t: Tables, now: int, settings: PollSettings)
    requires forall a | a in t.watch :: t.watch[a].autoTracked
    ensures Cleaned(t, now, settings).watch == t.watch && Cleaned(t, now, settings).subs == t.subs
  {
    var gone := Stale(t, now - settings.expireDays * DAY);
    assert forall a | a in t.watch :: a !in gone;
    assert gone == {};
    assert DropWatches(t, {}).watch == t.watch && DropWatches(t, {}).subs == t.subs;
  }

  /** A full batch stays a proper batch as the clock goes on. */
  lemma BatchLater(t: Tables, cutoff: int, later: int, batchSize: nat, due: seq<int>)
    requires IsBatch(t, cutoff, batchSize, due) && |due| == batchSize && cutoff <= later
    ensures IsBatch(t, later, batchSize, due)
  {
    forall a, i | IsDue(t, a, later) && a !in due && 0 <= i < |due|
      ensures !Before(t.watch[a].lastPolled, t.watch[due[i]].lastPolled)
    {
      assert IsDue(t, due[i], cutoff);
    }
  }

  /** With every row auto-tracked and a full batch, a cut poll can be cut at every later time. */
  lemma LaterToo(w: World, e: Event, t: int, later: int)
    requires e.Poll? && CutsAt(w, e, t) && t <= later
    requires |e.due| == e.settings.batchSize && forall a | a in w.db.watch :: w.db.watch[a].autoTracked
    ensures CutsAt(w, e, later)
  {
    NoneExpires(w.db, t, e.settings);
    NoneExpires(w.db, later, e.settings);
    PollEnabled(w, Timed(e, t));
    PollEnabled(w, Timed(e, later));
    LaterCutoff(t, later, e.settings);
    hide Cleaned, Interrupted, Enabled, IsBatch, PollCutoff;
    var x, y := Left(w, Timed(e, t)), Left(w, Timed(e, later));
    BatchLater(x, PollCutoff(t, e.settings), PollCutoff(later, e.settings), e.settings.batchSize, e.due);
    SameCut(x, y, e, PollCutoff(later, e.settings));
  }

  lemma LaterCutoff(t: int, later: int, settings: PollSettings)
    requires t <= later
    ensures PollCutoff(t, settings) <= PollCutoff(later, settings)
  {}

  lemma BatchAlike(t: Tables, u: Tables, cutoff: int, batchSize: nat, due: seq<int>)
    requires IsBatch(t, cutoff, batchSize, due) && u.watch == t.watch
    ensures IsBatch(u, cutoff, batchSize, due)
  {
    assert forall a :: IsDue(u, a, cutoff) == IsDue(t, a, cutoff);
  }

  /** Both times of a row lie before the expiry cutoff. */
  predicate Expired(row: Watch, now: int, settings: PollSettings) {
    var cutoff := now - settings.expireDays * DAY;
    Before(row.lastPolled, At(cutoff)) && row.firstSeen < cutoff
  }

  /** A blocking item that is not auto-tracked is gone once it expires, as its poll time
      never advances: the queue moves on. */
  lemma BlockerExpires(w: World, e: Event, later: int)
    requires Enabled(w, e) && CutAtFirst(w, e)
    requires var row := Left(w, e).watch[e.due[0]]; !row.autoTracked && Expired(row, later, e.settings)
    ensures e.due[0] !in Left(Apply(w, e), Timed(e, later)).watch
  {
    hide Apply, Enabled, PollItem, Fairness.PolledBy, Fairness.Completes, Interrupted;
    CutPollKeeps(w, e);
    var v := Apply(w, e);
    assert e.due[0] in Stale(v.db, later - e.settings.expireDays * DAY);
  }

  /** Starvation is unbounded exactly behind an auto-tracked item: with a full batch and the
      other rows auto-tracked, the poll is cut at every later time if and only if its first
      item is auto-tracked. */
  lemma UnboundedExactly(w: World, e: Event)
    requires e.Poll? && CutsAt(w, e, e.now) && |e.due| == e.settings.batchSize
    requires forall a | a in w.db.watch && a != e.due[0] :: w.db.watch[a].autoTracked
    ensures (forall later | later >= e.now :: CutsAt(w, e, later)) <==> w.db.watch[e.due[0]].autoTracked
  {
    assert Timed(e, e.now) == e;
    var row := w.db.watch[e.due[0]];
    if row.autoTracked {
      forall later | later >= e.now
        ensures CutsAt(w, e, later)
      {
        LaterToo(w, e, e.now, later);
      }
    } else {
      var late := ExpiryTime(row, e.now, e.settings);
      ExpiredRow(w.db, e.due[0], late, e.settings);
      hide Enabled, CutAtFirst, Cleaned;
      assert !CutsAt(w, e, late);
    }
  }

  /** A time from which on a row counts as expired. */
  function ExpiryTime(row: Watch, now: int, settings: PollSettings): (t: int)
    ensures t >= now && Expired(row, t, settings)
  {
    var polled := if row.lastPolled.At? then row.lastPolled.micros else row.firstSeen;
    var both := if polled < row.firstSeen then row.firstSeen else polled;
    var t := both + 1 + settings.expireDays * DAY;
    if t < now then now else t
  }

  lemma ExpiredRow(t: Tables, aoid: int, now: int, settings: PollSettings)
    requires aoid in t.watch && !t.watch[aoid].autoTracked && Expired(t.watch[aoid], now, settings)
    ensures aoid !in Cleaned(t, now, settings).watch
  {
    assert aoid in Stale(t, now - settings.expireDays * DAY);
  }

  // ---- repeated alerts ----

  /** And every player reached before the exception is sent the same alert each time, though
      the order never left the book. */
  lemma {:induction false} RepeatedAlerts(w: World, e: Event, times: seq<int>, player: string, alert: Alert)
    requires e.Poll? && forall i | 0 <= i < |times| :: CutsAt(w, e, times[i])
    requires e.due != [] && |e.fetches| == |e.due| && e.due[0] in w.db.watch
    requires Alerting.ItemAlert(w.db, e.due[0], e.fetches[0], player) == Some(alert)
    ensures IsRun(w, PollsAt(e, times))
    ensures Alerting.Held(After(w, PollsAt(e, times)), player)[alert] == Alerting.Held(w, player)[alert] + |times|
    decreases |times|
  {
    hide *;
    StuckAtTimes(w, e, times, e.due[0]);
    if times == [] {
      NoPolls(w, e);
    } else {
      var front, t := times[..|times| - 1], times[|times| - 1];
      assert forall i | 0 <= i < |front| :: front[i] == times[i];
      StuckAtTimes(w, e, front, e.due[0]);
      RepeatedAlerts(w, e, front, player, alert);
      LastPoll(w, e, times);
      OneMoreAlert(w, After(w, PollsAt(e, front)), e, t, player, alert);
    }
  }

  lemma NoPolls(w: World, e: Event)
    requires e.Poll?
    ensures IsRun(w, PollsAt(e, [])) && After(w, PollsAt(e, [])) == w
  {}

  lemma LastPoll(w: World, e: Event, times: seq<int>)
    requires e.Poll? && times != [] && IsRun(w, PollsAt(e, times))
    ensures
      var front, last := PollsAt(e, times[..|times| - 1]), Timed(e, times[|times| - 1]);
      IsRun(w, front) && Enabled(After(w, front), last) && After(w, PollsAt(e, times)) == Apply(After(w, front), last)
  {
    hide Apply, Enabled;
    assert PollsAt(e, times)[..|times| - 1] == PollsAt(e, times[..|times| - 1]);
  }

  lemma OneMoreAlert(w: World, x: World, e: Event, t: int, player: string, alert: Alert)
    requires e.Poll? && CutsAt(w, e, t) && Alike(w, x) && e.due[0] in w.db.watch && Enabled(x, Timed(e, t))
    requires Alerting.ItemAlert(w.db, e.due[0], e.fetches[0], player) == Some(alert)
    ensures Alerting.Held(Apply(x, Timed(e, t)), player)[alert] == Alerting.Held(x, player)[alert] + 1
  {
    CutsAlike(w, x, e, t);
    NothingExpired(x.db, t, e.settings);
    hide Apply, Enabled, CutAtFirst, PollItem, Interrupted, Fairness.PolledBy, Fairness.Completes, Alerting.Held,
      Alerting.ItemAlert, Alerting.Appends, Cleaned;
    var cleaned := x.(db := Left(x, Timed(e, t)));
    CutPollKeeps(x, Timed(e, t));
    ItemAlertSame(w.db, cleaned.db, e.due[0], e.fetches[0], player);
    Alerting.PollItemAppends(cleaned, e.due[0], t, e.fetches[0], player);
    Alerting.AppendsHeld(cleaned, Apply(x, Timed(e, t)), player, Some(alert), t, player in e.fetches[0].online);
    Alerting.SameHeld(x, cleaned, player);
  }

  lemma ItemAlertSame(t: Tables, u: Tables, aoid: int, fetch: Fetch, player: string)
    requires t.watch == u.watch && t.subs == u.subs && t.seen == u.seen && aoid in t.watch
    ensures Alerting.ItemAlert(t, aoid, fetch, player) == Alerting.ItemAlert(u, aoid, fetch, player)
  {
    Alerting.SameSeen(t, u, aoid);
  }

  // ---- an input ----

  /** Two tracked items, the first with two subscribers and an order seen before. */
  function TwoSubscribers(a: string, b: string, item: Item): World {
    var row := Watch(item, 0, NegInfinity, true);
    World(Tables(map[a := false, b := false], map[1 := row, 2 := row], map[(a, 1) := OPEN, (b, 1) := OPEN],
                 {(1, "x")}, map[], map[], map[], map[], 0),
          map[])
  }

  /** A poll that finds one order and reaches only the first subscriber. */
  function OneReached(a: string, o: SellOrder, now: int): Event {
    Poll(now, PollSettings(30, 30, 5, 1), [1], [Fetch(Some(Book([o], [])), {a}, {a})])
  }

  lemma OneOrder(o: SellOrder)
    ensures
      var fp := SellFingerprint(o);
      Fingerprints(Book([o], [])) == {fp} && FingerprintMap(Book([o], [])) == map[fp := OfSell(o)] && fp != "x"
  {
    var book, fp := Book([o], []), SellFingerprint(o);
    assert fp[0] == 's';
    hide SellFingerprint, FingerprintMap;
    FingerprintMapHolds(book);
    assert o in book.sells;
    assert Fingerprints(book) == {fp};
  }

  lemma SeenBefore(t: Tables)
    requires t.seen == {(1, "x")}
    ensures SeenOf(t, 1) == {"x"}
  {
    assert (1, "x") in t.seen && (1, "x").1 == "x";
  }

  lemma OneNewOrder(t: Tables, o: SellOrder)
    requires t.seen == {(1, "x")}
    ensures
      var book := Book([o], []);
      NewOrders(book, Reported(t, 1, book)) == map[SellFingerprint(o) := OfSell(o)]
  {
    hide SellFingerprint, FingerprintMap, Fingerprints, SeenOf, OfSell;
    OneOrder(o);
    SeenBefore(t);
    assert Reported(t, 1, Book([o], [])) == {SellFingerprint(o)};
  }

  lemma PassesOpen(o: SellOrder)
    ensures
      var orders := map[SellFingerprint(o) := OfSell(o)];
      Matching(orders, OPEN) == orders && orders != map[]
  {
    hide SellFingerprint;
    assert SellFingerprint(o) in map[SellFingerprint(o) := OfSell(o)];
  }

  lemma ToBeAlerted(t: Tables, o: SellOrder, player: string)
    requires t.seen == {(1, "x")} && (player, 1) in t.subs && t.subs[(player, 1)] == OPEN
    ensures player in ToNotify(t, 1, Book([o], []))
  {
    OneNewOrder(t, o);
    PassesOpen(o);
    hide NewOrders, Reported, Matching, SellFingerprint, OfSell;
    Alerting.NotifiedExact(t, 1, map[SellFingerprint(o) := OfSell(o)], player);
  }

  /** Such a poll is cut at its first item at every time of the clock, though every
      constraint holds: an alert is sent each time, and another item waits for ever. */
  lemma CutHappens(a: string, b: string, item: Item, o: SellOrder, now: int)
    requires a != b
    ensures
      var w, e := TwoSubscribers(a, b, item), OneReached(a, o, now);
      && Valid(w.db) && 2 in w.db.watch && (forall t :: CutsAt(w, e, t))
      && Alerting.ItemAlert(w.db, 1, e.fetches[0], a) == Some(Alert(item.name, 1, map[SellFingerprint(o) := OfSell(o)]))
  {
    var w, e := TwoSubscribers(a, b, item), OneReached(a, o, now);
    ExampleValid(a, b, item);
    hide NewOrders, Reported, Matching, SellFingerprint, OfSell, Enabled, Valid, ToNotify, Cleaned;
    OneNewOrder(w.db, o);
    PassesOpen(o);
    forall t
      ensures CutsAt(w, e, t)
    {
      assert Timed(e, t) == OneReached(a, o, t);
      ExampleLeft(a, b, item, o, t);
      ExampleEnabled(a, b, item, o, t);
      ToBeAlerted(Left(w, Timed(e, t)), o, b);
    }
  }

  lemma ExampleLeft(a: string, b: string, item: Item, o: SellOrder, now: int)
    ensures
      var t, db := Left(TwoSubscribers(a, b, item), OneReached(a, o, now)), TwoSubscribers(a, b, item).db;
      t.watch == db.watch && t.subs == db.subs && t.seen == db.seen
  {
    var db := TwoSubscribers(a, b, item).db;
    assert Stale(db, now - 30 * DAY) == {};
    var t := DropWatches(db, {});
    assert t.watch == db.watch && t.subs == db.subs;
  }

  lemma ExampleEnabled(a: string, b: string, item: Item, o: SellOrder, now: int)
    ensures Enabled(TwoSubscribers(a, b, item), OneReached(a, o, now))
  {
    ExampleLeft(a, b, item, o, now);
    hide Cleaned;
  }

  lemma ExampleValid(a: string, b: string, item: Item)
    ensures Valid(TwoSubscribers(a, b, item).db)
  {}
}
