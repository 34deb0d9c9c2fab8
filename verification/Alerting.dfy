/** What players are alerted to over whole runs, and where every alert goes. */
module Alerting {
  import opened Collections
  import opened Wrappers
  import opened Orders
  import opened MarketState

  // ---- the seen orders of one item ----

  /** The fetch of an item in a poll, if the poll got to the item. */
  function FetchIn(w: World, due: seq<int>, now: int, fetches: seq<Fetch>, aoid: int): Option<Fetch>
    requires |fetches| == |due| && forall i | 0 <= i < |due| :: due[i] in w.db.watch
  {
    if due == [] then None else
      var n := |due| - 1;
      if due[n] == aoid && PollItems(w, due[..n], now, fetches[..n]).ok then Some(fetches[n])
      else FetchIn(w, due[..n], now, fetches[..n], aoid)
  }

  /** The book that becomes the seen orders: fetched, and no callback raised over it. */
  function Recorded(t: Tables, aoid: int, fetch: Option<Fetch>): Option<Book> {
    if fetch == None || Interrupted(t, aoid, fetch.value) then None else fetch.value.book
  }

  lemma ReplaceSeenExact(t: Tables, aoid: int, fingerprints: set<string>, other: int)
    ensures SeenOf(ReplaceSeen(t, aoid, fingerprints), other) ==
      if other == aoid then fingerprints else SeenOf(t, other)
  {
    var u := ReplaceSeen(t, aoid, fingerprints);
    forall fp
      ensures fp in SeenOf(u, other) <==> (other, fp) in u.seen
    {}
    assert forall fp :: fp in SeenOf(t, other) <==> (other, fp) in t.seen;
    assert forall fp :: (other, fp) in u.seen <==>
      (if other == aoid then fp in fingerprints else (other, fp) in t.seen);
  }

  lemma PollItemSeen(w: World, aoid: int, now: int, fetch: Fetch, other: int)
    requires aoid in w.db.watch
    ensures PollItem(w, aoid, now, fetch).db.subs == w.db.subs
    ensures SeenOf(PollItem(w, aoid, now, fetch).db, other) ==
      if other == aoid && fetch.book.Some? && !Interrupted(w.db, aoid, fetch) then Fingerprints(fetch.book.value)
      else SeenOf(w.db, other)
  {
    hide Notify, Reported, NewOrders, ReplaceSeen, Fingerprints, Interrupted;
    if fetch.book.Some? {
      var book := fetch.book.value;
      var w0 := w.(db := AddSnapshot(w.db, aoid, now));
      SameSeen(w.db, w0.db, aoid);
      InterruptedSame(w.db, w0.db, aoid, fetch);
      SameSeen(w.db, w0.db, other);
      var reported := Reported(w0.db, aoid, book);
      var told := if reported == {} then w0
        else Notify(w0, aoid, w.db.watch[aoid].item.name, NewOrders(book, reported), now, fetch.online, fetch.reached);
      SameSeen(w0.db, told.db, other);
      ReplaceSeenExact(told.db, aoid, Fingerprints(book), other);
    }
  }

  lemma InterruptedSame(t: Tables, u: Tables, aoid: int, fetch: Fetch)
    requires t.subs == u.subs && SeenOf(t, aoid) == SeenOf(u, aoid)
    ensures Interrupted(t, aoid, fetch) == Interrupted(u, aoid, fetch)
  {
    hide SeenOf, NewOrders, Fingerprints;
  }

  lemma {:induction false} PollItemsSeen(w: World, due: seq<int>, now: int, fetches: seq<Fetch>, aoid: int)
    requires |fetches| == |due| && forall i | 0 <= i < |due| :: due[i] in w.db.watch
    requires forall i, j | 0 <= i < j < |due| :: due[i] != due[j]
    ensures PollItems(w, due, now, fetches).w.db.subs == w.db.subs
    ensures SeenOf(PollItems(w, due, now, fetches).w.db, aoid) ==
      match Recorded(w.db, aoid, FetchIn(w, due, now, fetches, aoid))
      case None => SeenOf(w.db, aoid)
      case Some(book) => Fingerprints(book)
  {
    hide PollItem, Fingerprints, SeenOf, Interrupted;
    if due != [] {
      var n := |due| - 1;
      var before := PollItems(w, due[..n], now, fetches[..n]);
      PollItemsSeen(w, due[..n], now, fetches[..n], aoid);
      if before.ok {
        PollItemSeen(before.w, due[n], now, fetches[n], aoid);
        if due[n] == aoid {
          NotInBatch(w, due[..n], now, fetches[..n], aoid);
          InterruptedSame(w.db, before.w.db, aoid, fetches[n]);
        }
      }
    }
  }

  lemma {:induction false} NotInBatch(w: World, due: seq<int>, now: int, fetches: seq<Fetch>, aoid: int)
    requires |fetches| == |due| && (forall i | 0 <= i < |due| :: due[i] in w.db.watch) && aoid !in due
    ensures FetchIn(w, due, now, fetches, aoid) == None
  {
    hide PollItems;
    if due != [] {
      NotInBatch(w, due[..|due| - 1], now, fetches[..|due| - 1], aoid);
    }
  }

  /** A poll completes exactly when no callback raises over any of its items. */
  lemma {:induction false} CompletesExactly(w: World, due: seq<int>, now: int, fetches: seq<Fetch>)
    requires |fetches| == |due| && forall i | 0 <= i < |due| :: due[i] in w.db.watch
    requires forall i, j | 0 <= i < j < |due| :: due[i] != due[j]
    ensures PollItems(w, due, now, fetches).ok <==> forall i | 0 <= i < |due| :: !Interrupted(w.db, due[i], fetches[i])
  {
    hide PollItem, SeenOf, Interrupted;
    if due != [] {
      var n := |due| - 1;
      var before := PollItems(w, due[..n], now, fetches[..n]);
      CompletesExactly(w, due[..n], now, fetches[..n]);
      PollItemsSeen(w, due[..n], now, fetches[..n], due[n]);
      NotInBatch(w, due[..n], now, fetches[..n], due[n]);
      InterruptedSame(w.db, before.w.db, due[n], fetches[n]);
      assert forall i | 0 <= i < n :: due[..n][i] == due[i] && fetches[..n][i] == fetches[i];
    }
  }

  ghost function FetchOf(w: World, e: Event, aoid: int): Option<Fetch>
    requires Enabled(w, e)
  {
    if !e.Poll? then None else
      ApplyPoll(w, e);
      FetchIn(w.(db := Cleaned(w.db, e.now, e.settings)), e.due, e.now, e.fetches, aoid)
  }

  /** The book an operation fetched for an item, whatever became of its alerts. */
  ghost function FetchedBook(w: World, e: Event, aoid: int): Option<Book>
    requires Enabled(w, e)
  {
    match FetchOf(w, e, aoid) case None => None case Some(fetch) => fetch.book
  }

  /** The book an operation recorded as seen. */
  ghost function RecordedBook(w: World, e: Event, aoid: int): (book: Option<Book>)
    requires Enabled(w, e)
    ensures book.Some? ==> book == FetchedBook(w, e, aoid)
  {
    if e.Poll? then Recorded(Cleaned(w.db, e.now, e.settings), aoid, FetchOf(w, e, aoid)) else None
  }

  /** Only a fetch over which no callback raised changes what was seen of an item: failed
      and interrupted fetches, expiry and deletion leave it alone. */
  lemma StepSeen(w: World, e: Event, aoid: int)
    requires Enabled(w, e)
    ensures SeenOf(Apply(w, e).db, aoid) ==
      match RecordedBook(w, e, aoid) case None => SeenOf(w.db, aoid) case Some(book) => Fingerprints(book)
  {
    if e.Poll? {
      PollSeen(w, e, aoid);
    } else {
      OtherStepsKeepSeen(w, e);
      hide Apply, Enabled;
      SameSeen(w.db, Apply(w, e).db, aoid);
    }
  }

  lemma PollSeen(w: World, e: Event, aoid: int)
    requires Enabled(w, e) && e.Poll?
    ensures SeenOf(Apply(w, e).db, aoid) ==
      match RecordedBook(w, e, aoid) case None => SeenOf(w.db, aoid) case Some(book) => Fingerprints(book)
  {
    hide Apply, Enabled, PollItems, FetchIn, SeenOf, Fingerprints, Interrupted;
    var cleaned := w.(db := Cleaned(w.db, e.now, e.settings));
    ApplyPoll(w, e);
    SameSeen(w.db, cleaned.db, aoid);
    PollItemsSeen(cleaned, e.due, e.now, e.fetches, aoid);
  }

  lemma SameSeen(t: Tables, u: Tables, aoid: int)
    requires t.seen == u.seen
    ensures SeenOf(t, aoid) == SeenOf(u, aoid)
  {}

  lemma OtherStepsKeepSeen(w: World, e: Event)
    requires Enabled(w, e) && !e.Poll?
    ensures Apply(w, e).db.seen == w.db.seen
  {
    hide UpsertWatch, DropWatches, DropSubscriptions, RevokeAll, DropUser, Unflag, UpsertAll, SubscribeTo, NewKey,
      LogAction,
      ByTime, Alerts, PendingOf, Tell, First;
  }

  // ---- reports along a run ----

  ghost function FetchedAt(w: World, es: seq<Event>, k: nat, aoid: int): Option<Book>
    requires IsRun(w, es) && k < |es|
  {
    StateNext(w, es, k);
    FetchedBook(StateAt(w, es, k), es[k], aoid)
  }

  ghost function RecordedAt(w: World, es: seq<Event>, k: nat, aoid: int): (book: Option<Book>)
    requires IsRun(w, es) && k < |es|
    ensures book.Some? ==> book == FetchedAt(w, es, k, aoid)
  {
    StateNext(w, es, k);
    RecordedBook(StateAt(w, es, k), es[k], aoid)
  }

  /** The orders that the k-th operation of a run reports for an item. */
  ghost function ReportedAt(w: World, es: seq<Event>, k: nat, aoid: int): set<string>
    requires IsRun(w, es) && k < |es|
  {
    match FetchedAt(w, es, k, aoid)
    case None => {}
    case Some(book) => Reported(StateAt(w, es, k).db, aoid, book)
  }

  /** The fingerprints of the last book recorded before the k-th operation, or what was
      seen at the start. */
  ghost function LastBook(w: World, es: seq<Event>, k: nat, aoid: int): set<string>
    requires IsRun(w, es) && k <= |es|
  {
    if k == 0 then SeenOf(w.db, aoid) else
      match RecordedAt(w, es, k - 1, aoid)
      case None => LastBook(w, es, k - 1, aoid)
      case Some(book) => Fingerprints(book)
  }

  /** At every point of a run the seen set is exactly the last recorded book. */
  lemma {:induction false} SeenIsLastBook(w: World, es: seq<Event>, k: nat, aoid: int)
    requires IsRun(w, es) && k <= |es|
    ensures SeenOf(StateAt(w, es, k).db, aoid) == LastBook(w, es, k, aoid)
    decreases k
  {
    hide SeenOf, Fingerprints, Apply, Enabled, StateAt, RecordedBook, IsRun;
    if k == 0 {
      if es != [] {
        StateNext(w, es, 0);
      } else {
        NoOperations(w, es);
      }
    } else {
      SeenIsLastBook(w, es, k - 1, aoid);
      StateNext(w, es, k - 1);
      StepSeen(StateAt(w, es, k - 1), es[k - 1], aoid);
    }
  }

  lemma NoOperations(w: World, es: seq<Event>)
    requires IsRun(w, es)
    ensures StateAt(w, es, 0) == w
  {}

  /** An order is reported at a fetch exactly when it is on the book, was absent from the
      last recorded book, and that book was not empty. */
  lemma ReportExact(w: World, es: seq<Event>, k: nat, aoid: int, fp: string)
    requires IsRun(w, es) && k < |es|
    ensures fp in ReportedAt(w, es, k, aoid) <==>
      && FetchedAt(w, es, k, aoid).Some?
      && fp in Fingerprints(FetchedAt(w, es, k, aoid).value)
      && fp !in LastBook(w, es, k, aoid)
      && LastBook(w, es, k, aoid) != {}
  {
    hide SeenOf, Fingerprints, FetchedAt, IsRun, StateAt, LastBook;
    SeenIsLastBook(w, es, k, aoid);
  }

  lemma {:induction false} NothingRecorded(w: World, es: seq<Event>, i: nat, j: nat, aoid: int)
    requires IsRun(w, es) && i <= j <= |es|
    requires forall m | i <= m < j :: RecordedAt(w, es, m, aoid) == None
    ensures LastBook(w, es, j, aoid) == LastBook(w, es, i, aoid)
    decreases j
  {
    hide Fingerprints, RecordedAt, IsRun;
    if i < j {
      NothingRecorded(w, es, i, j - 1, aoid);
    }
  }

  /** Once one book with the order has been recorded, and only such books after it, the
      last recorded book has the order. */
  lemma {:induction false} StaysOnTheBook(w: World, es: seq<Event>, i: nat, j: nat, aoid: int, fp: string)
    requires IsRun(w, es) && i < j <= |es| && RecordedAt(w, es, i, aoid).Some?
    requires forall m | i <= m < j && RecordedAt(w, es, m, aoid).Some? ::
               fp in Fingerprints(RecordedAt(w, es, m, aoid).value)
    ensures fp in LastBook(w, es, j, aoid)
    decreases j
  {
    hide Fingerprints, RecordedAt, IsRun;
    if RecordedAt(w, es, j - 1, aoid) == None {
      StaysOnTheBook(w, es, i, j - 1, aoid, fp);
    }
  }

  /** At most one report per unbroken presence, as long as no callback raises over it:
      between two reports of an order, the first of them recorded, lies a recorded book
      without it, whatever failed and interrupted fetches fall in between. */
  lemma OneReportPerPresence(w: World, es: seq<Event>, i: nat, j: nat, aoid: int, fp: string)
    requires IsRun(w, es) && i < j < |es| && RecordedAt(w, es, i, aoid).Some?
    requires fp in ReportedAt(w, es, i, aoid) && fp in ReportedAt(w, es, j, aoid)
    ensures exists m ::
      i < m < j && RecordedAt(w, es, m, aoid).Some? && fp !in Fingerprints(RecordedAt(w, es, m, aoid).value)
  {
    hide Fingerprints, RecordedAt, FetchedAt, ReportedAt, IsRun, LastBook;
    ReportExact(w, es, i, aoid, fp);
    ReportExact(w, es, j, aoid, fp);
    if forall m | i < m < j && RecordedAt(w, es, m, aoid).Some? ::
        fp in Fingerprints(RecordedAt(w, es, m, aoid).value) {
      StaysOnTheBook(w, es, i, j, aoid, fp);
    }
  }

  /** While every fetch shows a reported order, it is reported again exactly as long as a
      callback has raised over every fetch since. */
  lemma RepeatExact(w: World, es: seq<Event>, i: nat, j: nat, aoid: int, fp: string)
    requires IsRun(w, es) && i < j < |es|
    requires fp in ReportedAt(w, es, i, aoid) && FetchedAt(w, es, j, aoid).Some?
    requires forall m | i <= m <= j && FetchedAt(w, es, m, aoid).Some? ::
        fp in Fingerprints(FetchedAt(w, es, m, aoid).value)
    ensures fp in ReportedAt(w, es, j, aoid) <==> forall m | i <= m < j :: RecordedAt(w, es, m, aoid) == None
  {
    hide Fingerprints, RecordedAt, FetchedAt, ReportedAt, IsRun, LastBook;
    ReportExact(w, es, i, aoid, fp);
    ReportExact(w, es, j, aoid, fp);
    if k :| i <= k < j && RecordedAt(w, es, k, aoid).Some? {
      StaysOnTheBook(w, es, k, j, aoid, fp);
    } else {
      NothingRecorded(w, es, i, j, aoid);
    }
  }

  // ---- from reports to alerts ----

  /** The alert that polling an item sends to a player, if any. */
  function ItemAlert(t: Tables, aoid: int, fetch: Fetch, player: string): Option<Alert>
    requires aoid in t.watch
  {
    if fetch.book == None || (player, aoid) !in t.subs || player !in fetch.reached then None else
      var orders := NewOrders(fetch.book.value, Reported(t, aoid, fetch.book.value));
      var matching := Matching(orders, t.subs[(player, aoid)]);
      if matching == map[] then None else Some(Alert(t.watch[aoid].item.name, aoid, matching))
  }

  lemma NotifiedExact(t: Tables, aoid: int, orders: map<string, NewOrder>, player: string)
    ensures player in Notified(t, aoid, orders) <==>
      (player, aoid) in t.subs && Matching(orders, t.subs[(player, aoid)]) != map[]
  {
    hide Matching;
    if (player, aoid) in t.subs && Matching(orders, t.subs[(player, aoid)]) != map[] {
      var k := (player, aoid);
      assert k in t.subs.Keys && k.1 == aoid && k.0 == player;
    }
  }

  /** A player is to be alerted exactly when one of the orders lies within the bounds of the
      player's subscription to the item. */
  lemma NotifiedMeans(t: Tables, aoid: int, orders: map<string, NewOrder>, player: string)
    ensures player in Notified(t, aoid, orders) <==>
      (player, aoid) in t.subs && exists fp :: fp in orders && Matches(orders[fp], t.subs[(player, aoid)])
  {
    hide Matching, Notified;
    NotifiedExact(t, aoid, orders, player);
    if (player, aoid) in t.subs {
      SomethingMatches(orders, t.subs[(player, aoid)]);
    }
  }

  /** An order of a book is new when it was not seen, unless no order of the item was. */
  ghost predicate IsNew(t: Tables, aoid: int, book: Book, fp: string) {
    && fp in Fingerprints(book) && (aoid, fp) !in t.seen
    && exists row :: row in t.seen && row.0 == aoid
  }

  lemma ReportedIsNew(t: Tables, aoid: int, book: Book, fp: string)
    ensures fp in Reported(t, aoid, book) <==> IsNew(t, aoid, book, fp)
  {
    hide Fingerprints;
    var seen := SeenOf(t, aoid);
    assert fp in seen <==> (aoid, fp) in t.seen;
    if row :| row in t.seen && row.0 == aoid {
      assert row.1 in seen;
    } else {
      assert forall f :: f !in seen;
    }
  }

  lemma NewOrdersExact(t: Tables, aoid: int, book: Book, fp: string)
    ensures
      var orders := NewOrders(book, Reported(t, aoid, book));
      && (fp in orders <==> IsNew(t, aoid, book, fp))
      && (fp in orders ==> fp in FingerprintMap(book) && orders[fp] == FingerprintMap(book)[fp])
  {
    hide Fingerprints, FingerprintMap, Reported, IsNew;
    ReportedIsNew(t, aoid, book, fp);
    FingerprintMapHolds(book);
    ReportedOnBook(t, aoid, book);
  }

  lemma ReportedOnBook(t: Tables, aoid: int, book: Book)
    ensures Reported(t, aoid, book) <= Fingerprints(book)
  {}

  /** Whom a fetched book concerns: the subscribers with a new order within their bounds. */
  lemma ToNotifyExact(t: Tables, aoid: int, book: Book, player: string)
    ensures player in ToNotify(t, aoid, book) <==>
      && (player, aoid) in t.subs
      && (exists fp :: fp in FingerprintMap(book) && IsNew(t, aoid, book, fp) &&
            Matches(FingerprintMap(book)[fp], t.subs[(player, aoid)]))
  {
    hide Fingerprints, FingerprintMap, Reported, IsNew, Notified, NewOrders;
    var orders := NewOrders(book, Reported(t, aoid, book));
    NotifiedMeans(t, aoid, orders, player);
    forall fp: string
      ensures fp in orders <==> IsNew(t, aoid, book, fp)
      ensures fp in orders ==> fp in FingerprintMap(book) && orders[fp] == FingerprintMap(book)[fp]
    {
      NewOrdersExact(t, aoid, book, fp);
    }
  }

  /** One alert appended, told or queued depending on who is online. */
  ghost predicate Appends(w: World, v: World, player: string, alert: Option<Alert>, now: int, online: bool) {
    && ToldTo(v, player) == ToldTo(w, player) + (if alert.Some? && online then [alert.value] else [])
    && PendingOf(v.db, player) == PendingOf(w.db, player) +
         (if alert.Some? && !online then [Pending(alert.value, now)] else [])
  }

  lemma NotifyAppends(w: World, aoid: int, itemName: string, orders: map<string, NewOrder>, now: int,
                      online: set<string>, reached: set<string>, player: string)
    ensures
      var matching := if (player, aoid) in w.db.subs then Matching(orders, w.db.subs[(player, aoid)]) else map[];
      var alert := if matching == map[] || player !in reached then None else Some(Alert(itemName, aoid, matching));
      Appends(w, Notify(w, aoid, itemName, orders, now, online, reached), player, alert, now, player in online)
  {
    hide Matching, Notified, Send, Appends;
    NotifiedExact(w.db, aoid, orders, player);
    var alerts := Only(AlertsFor(w.db, aoid, itemName, orders), reached);
    SendAppends(w, alerts, now, online, player);
  }

  lemma SendAppends(w: World, alerts: map<string, Alert>, now: int, online: set<string>, player: string)
    ensures Appends(w, Send(w, alerts, now, online), player, if player in alerts then Some(alerts[player]) else None,
              now, player in online)
  {}

  lemma NoneReportedNoneMatching(orders: map<string, NewOrder>, f: Filter)
    requires orders == map[]
    ensures Matching(orders, f) == map[]
  {}

  lemma NoNewOrders(book: Book)
    ensures NewOrders(book, {}) == map[]
  {}

  /** Polling an item when something is reported: the alerts are those of `Notify`. */
  lemma PollItemLists(w: World, aoid: int, now: int, fetch: Fetch)
    requires aoid in w.db.watch && fetch.book.Some?
    ensures
      var v, reported := PollItem(w, aoid, now, fetch), Reported(w.db, aoid, fetch.book.value);
      var w0 := w.(db := AddSnapshot(w.db, aoid, now));
      var sent := if reported == {} then w0 else
        Notify(w0, aoid, w.db.watch[aoid].item.name, NewOrders(fetch.book.value, reported), now,
          fetch.online, fetch.reached);
      v.told == sent.told && v.db.pending == sent.db.pending
  {
    hide Notify, NewOrders, Interrupted, Reported, SeenOf;
    var w0 := w.(db := AddSnapshot(w.db, aoid, now));
    SameSeen(w.db, w0.db, aoid);
    ReportedSame(w.db, w0.db, aoid, fetch.book.value);
  }

  lemma ReportedSame(t: Tables, u: Tables, aoid: int, book: Book)
    requires SeenOf(t, aoid) == SeenOf(u, aoid)
    ensures Reported(t, aoid, book) == Reported(u, aoid, book)
  {
    hide SeenOf, Fingerprints;
  }

  /** Only the told and the pending alerts matter. */
  lemma SameLists(w0: World, v0: World, w: World, v: World, player: string, alert: Option<Alert>, now: int,
        online: bool)
    requires Appends(w0, v0, player, alert, now, online)
    requires w.told == w0.told && w.db.pending == w0.db.pending && v.told == v0.told && v.db.pending == v0.db.pending
    ensures Appends(w, v, player, alert, now, online)
  {}

  lemma NothingAppended(w: World, player: string, now: int, online: bool)
    ensures Appends(w, w, player, None, now, online)
  {}

  lemma NoAlertWithoutReport(t: Tables, aoid: int, fetch: Fetch, player: string)
    requires aoid in t.watch && (fetch.book == None || Reported(t, aoid, fetch.book.value) == {})
    ensures ItemAlert(t, aoid, fetch, player) == None
  {
    hide Reported, Matching, NewOrders;
    if fetch.book.Some? {
      NoNewOrders(fetch.book.value);
      if (player, aoid) in t.subs {
        NoneReportedNoneMatching(NewOrders(fetch.book.value, {}), t.subs[(player, aoid)]);
      }
    }
  }

  lemma AlertOfReport(t: Tables, aoid: int, fetch: Fetch, player: string)
    requires aoid in t.watch && fetch.book.Some?
    ensures
      var orders := NewOrders(fetch.book.value, Reported(t, aoid, fetch.book.value));
      var matching := if (player, aoid) in t.subs then Matching(orders, t.subs[(player, aoid)]) else map[];
      ItemAlert(t, aoid, fetch, player) ==
        if matching == map[] || player !in fetch.reached then None
        else Some(Alert(t.watch[aoid].item.name, aoid, matching))
  {
    hide Reported, Matching, NewOrders;
  }

  lemma NotFetched(w: World, aoid: int, now: int, fetch: Fetch)
    requires aoid in w.db.watch && fetch.book == None
    ensures var v := PollItem(w, aoid, now, fetch); v.told == w.told && v.db.pending == w.db.pending
  {}

  lemma PollItemAppends(w: World, aoid: int, now: int, fetch: Fetch, player: string)
    requires aoid in w.db.watch
    ensures Appends(w, PollItem(w, aoid, now, fetch), player, ItemAlert(w.db, aoid, fetch, player), now,
              player in fetch.online)
  {
    hide *;
    var v, online := PollItem(w, aoid, now, fetch), player in fetch.online;
    if fetch.book == None {
      NotFetched(w, aoid, now, fetch);
      NoAlertWithoutReport(w.db, aoid, fetch, player);
      NothingAppended(w, player, now, online);
      SameLists(w, w, w, v, player, None, now, online);
    } else {
      var book, w0 := fetch.book.value, w.(db := AddSnapshot(w.db, aoid, now));
      SnapshotKeeps(w.db, aoid, now);
      PollItemLists(w, aoid, now, fetch);
      if Reported(w.db, aoid, book) == {} {
        NoAlertWithoutReport(w.db, aoid, fetch, player);
        NothingAppended(w, player, now, online);
        SameLists(w, w, w, v, player, None, now, online);
      } else {
        var name, orders := w.db.watch[aoid].item.name, NewOrders(book, Reported(w.db, aoid, book));
        AlertOfReport(w.db, aoid, fetch, player);
        NotifyAppends(w0, aoid, name, orders, now, fetch.online, fetch.reached, player);
        SameLists(w0, Notify(w0, aoid, name, orders, now, fetch.online, fetch.reached), w, v, player,
          ItemAlert(w.db, aoid, fetch, player), now, online);
      }
    }
  }

  lemma SnapshotKeeps(t: Tables, aoid: int, now: int)
    ensures AddSnapshot(t, aoid, now).pending == t.pending && AddSnapshot(t, aoid, now).subs == t.subs
  {}

  /** The alerts a poll sends to a player, in batch order, up to the item at which a
      callback raised. */
  function PollAlerts(w: World, due: seq<int>, now: int, fetches: seq<Fetch>, player: string): seq<Alert>
    requires |fetches| == |due| && forall i | 0 <= i < |due| :: due[i] in w.db.watch
  {
    if due == [] then [] else
      var n := |due| - 1;
      var before := PollItems(w, due[..n], now, fetches[..n]);
      var last := if before.ok then ItemAlert(before.w.db, due[n], fetches[n], player) else None;
      PollAlerts(w, due[..n], now, fetches[..n], player) + if last.Some? then [last.value] else []
  }

  /** A player's alerts that were told or are waiting. */
  function Held(w: World, player: string): multiset<Alert> {
    multiset(ToldTo(w, player)) + multiset(Alerts(PendingOf(w.db, player)))
  }

  lemma AlertsAppend(rows: seq<Pending>, more: seq<Pending>)
    ensures Alerts(rows + more) == Alerts(rows) + Alerts(more)
  {}

  lemma AppendsHeld(w: World, v: World, player: string, alert: Option<Alert>, now: int, online: bool)
    requires Appends(w, v, player, alert, now, online)
    ensures Held(v, player) == Held(w, player) + if alert.Some? then multiset{alert.value} else multiset{}
  {
    hide ToldTo, PendingOf;
    var told, rows := ToldTo(w, player), PendingOf(w.db, player);
    var queued := if alert.Some? && !online then [Pending(alert.value, now)] else [];
    AlertsAppend(rows, queued);
    assert Alerts(queued) == if alert.Some? && !online then [alert.value] else [];
    assert ToldTo(v, player) == told + if alert.Some? && online then [alert.value] else [];
    hide Alerts;
  }

  /** Every alert a poll sends is told or queued, once. */
  lemma {:induction false} PollItemsHeld(w: World, due: seq<int>, now: int, fetches: seq<Fetch>, player: string)
    requires |fetches| == |due| && forall i | 0 <= i < |due| :: due[i] in w.db.watch
    ensures Held(PollItems(w, due, now, fetches).w, player) ==
      Held(w, player) + multiset(PollAlerts(w, due, now, fetches, player))
  {
    hide PollItem, ItemAlert, Held, Appends, Interrupted;
    if due != [] {
      var n := |due| - 1;
      var before := PollItems(w, due[..n], now, fetches[..n]);
      PollItemsHeld(w, due[..n], now, fetches[..n], player);
      if before.ok {
        PollItemAppends(before.w, due[n], now, fetches[n], player);
        AppendsHeld(before.w, PollItem(before.w, due[n], now, fetches[n]), player,
          ItemAlert(before.w.db, due[n], fetches[n], player), now, player in fetches[n].online);
      }
    }
  }

  // ---- conservation ----

  ghost predicate Sorted(rows: seq<Pending>) {
    forall i, j | 0 <= i < j < |rows| :: rows[i].createdAt <= rows[j].createdAt
  }

  lemma SortedCons(p: Pending, rows: seq<Pending>)
    requires Sorted(rows) && (rows == [] || p.createdAt <= rows[0].createdAt)
    ensures Sorted([p] + rows)
  {
    var s := [p] + rows;
    forall i, j | 0 <= i < j < |s|
      ensures s[i].createdAt <= s[j].createdAt
    {
      assert s[j] == rows[j - 1] && (i > 0 ==> s[i] == rows[i - 1]);
    }
  }

  lemma {:induction false} InsertKeepsAll(p: Pending, sorted: seq<Pending>)
    requires Sorted(sorted)
    ensures var s := InsertByTime(p, sorted);
      && multiset(s) == multiset(sorted) + multiset{p} && Sorted(s)
      && s != [] && (s[0] == p || (sorted != [] && s[0] == sorted[0]))
  {
    if sorted != [] && p.createdAt >= sorted[0].createdAt {
      assert sorted == [sorted[0]] + sorted[1..];
      InsertKeepsAll(p, sorted[1..]);
      hide Sorted;
      SortedCons(sorted[0], InsertByTime(p, sorted[1..])) by {
        assert |sorted| > 1 ==> sorted[0].createdAt <= sorted[1].createdAt by {
          FirstIsLeast(sorted);
        }
      }
    } else {
      SortedCons(p, sorted);
    }
  }

  lemma FirstIsLeast(rows: seq<Pending>)
    requires Sorted(rows)
    ensures |rows| > 1 ==> rows[0].createdAt <= rows[1].createdAt
  {}

  /** Pending alerts go out oldest first, and all of them. */
  lemma {:induction false} ByTimeSorted(rows: seq<Pending>)
    ensures var s := ByTime(rows);
      multiset(s) == multiset(rows) && forall i, j | 0 <= i < j < |s| :: s[i].createdAt <= s[j].createdAt
  {
    hide InsertByTime;
    if rows != [] {
      var n := |rows| - 1;
      ByTimeSorted(rows[..n]);
      InsertKeepsAll(rows[n], ByTime(rows[..n]));
      assert rows == rows[..n] + [rows[n]];
    }
  }

  lemma {:induction false} InsertAlerts(p: Pending, sorted: seq<Pending>)
    ensures multiset(Alerts(InsertByTime(p, sorted))) == multiset(Alerts(sorted)) + multiset{p.alert}
  {
    if sorted == [] || p.createdAt < sorted[0].createdAt {
      AlertsAppend([p], sorted);
    } else {
      InsertAlerts(p, sorted[1..]);
      AlertsAppend([sorted[0]], InsertByTime(p, sorted[1..]));
      AlertsAppend([sorted[0]], sorted[1..]);
      assert sorted == [sorted[0]] + sorted[1..];
    }
  }

  /** Sorting the waiting alerts loses and doubles none. */
  lemma {:induction false} ByTimeAlerts(rows: seq<Pending>)
    ensures multiset(Alerts(ByTime(rows))) == multiset(Alerts(rows))
  {
    hide InsertByTime, Alerts;
    if rows == [] {
      assert ByTime(rows) == rows;
    } else {
      var n := |rows| - 1;
      ByTimeAlerts(rows[..n]);
      InsertAlerts(rows[n], ByTime(rows[..n]));
      AlertsAppend(rows[..n], [rows[n]]);
      OneAlert(rows[n]);
      assert rows == rows[..n] + [rows[n]];
    }
  }

  lemma OneAlert(p: Pending)
    ensures Alerts([p]) == [p.alert]
  {}

  /** The alerts an operation sends to a player. */
  ghost function Produced(w: World, e: Event, player: string): multiset<Alert>
    requires Enabled(w, e)
  {
    if !e.Poll? then multiset{} else
      ApplyPoll(w, e);
      multiset(PollAlerts(w.(db := Cleaned(w.db, e.now, e.settings)), e.due, e.now, e.fetches, player))
  }

  ghost function ProducedAt(w: World, es: seq<Event>, k: nat, player: string): multiset<Alert>
    requires IsRun(w, es) && k < |es|
  {
    StateNext(w, es, k);
    Produced(StateAt(w, es, k), es[k], player)
  }

  /** An order of the book is in the alert of a player exactly when it is new, the player
      subscribes to the item and was reached, and it lies within every bound of that
      subscription; and it is there as the book shows it. */
  lemma ItemAlertExact(t: Tables, aoid: int, fetch: Fetch, player: string, fp: string)
    requires aoid in t.watch
    ensures
      var alert := ItemAlert(t, aoid, fetch, player);
      && (alert.Some? && fp in alert.value.orders <==> AlertedTo(t, aoid, fetch, player, fp))
      && (alert.Some? ==> alert.value.aoid == aoid && alert.value.itemName == t.watch[aoid].item.name)
      && (alert.Some? && fp in alert.value.orders ==> alert.value.orders[fp] == FingerprintMap(fetch.book.value)[fp])
  {
    hide Fingerprints, FingerprintMap, Reported, IsNew, Matching, NewOrders;
    if fetch.book.Some? && (player, aoid) in t.subs {
      var book, f := fetch.book.value, t.subs[(player, aoid)];
      NewOrdersExact(t, aoid, book, fp);
      MatchingExact(NewOrders(book, Reported(t, aoid, book)), f, fp);
    }
  }

  ghost predicate AlertedTo(t: Tables, aoid: int, fetch: Fetch, player: string, fp: string) {
    && fetch.book.Some? && (player, aoid) in t.subs && player in fetch.reached
    && IsNew(t, aoid, fetch.book.value, fp) && fp in FingerprintMap(fetch.book.value)
    && var order, f := FingerprintMap(fetch.book.value)[fp], t.subs[(player, aoid)];
       && (f.minPrice.Some? ==> f.minPrice.value <= order.price)
       && (f.maxPrice.Some? ==> order.price <= f.maxPrice.value)
       && (f.minQl.Some? ==> f.minQl.value <= order.minQl)
       && (f.maxQl.Some? ==> order.maxQl <= f.maxQl.value)
  }

  lemma AlertsHaveOrders(t: Tables, aoid: int, fetch: Fetch, player: string)
    requires aoid in t.watch && ItemAlert(t, aoid, fetch, player).Some?
    ensures ItemAlert(t, aoid, fetch, player).value.orders != map[]
  {
    hide Reported, Matching, NewOrders;
  }

  /** Who is alerted to what depends on the subscriptions and the seen orders alone. */
  lemma AlertedSame(t: Tables, u: Tables, aoid: int, fetch: Fetch, player: string, fp: string)
    requires t.subs == u.subs && SeenOf(t, aoid) == SeenOf(u, aoid)
    ensures AlertedTo(t, aoid, fetch, player, fp) <==> AlertedTo(u, aoid, fetch, player, fp)
  {
    if fetch.book.Some? {
      ReportedSame(t, u, aoid, fetch.book.value);
      ReportedIsNew(t, aoid, fetch.book.value, fp);
      ReportedIsNew(u, aoid, fetch.book.value, fp);
    }
    hide IsNew, SeenOf, Reported, FingerprintMap;
  }

  /** A poll alerts a player to an order of an item exactly when it got to the item and its
      fetch alerts the player to the order. */
  lemma {:induction false} PollAlertsExact(w: World, due: seq<int>, now: int, fetches: seq<Fetch>, player: string,
                                           aoid: int, fp: string)
    requires |fetches| == |due| && forall i | 0 <= i < |due| :: due[i] in w.db.watch
    requires forall i, j | 0 <= i < j < |due| :: due[i] != due[j]
    ensures
      (exists alert ::
         alert in PollAlerts(w, due, now, fetches, player) && alert.aoid == aoid && fp in alert.orders) <==>
      FetchIn(w, due, now, fetches, aoid).Some? &&
        AlertedTo(w.db, aoid, FetchIn(w, due, now, fetches, aoid).value, player, fp)
  {
    hide PollItems, ItemAlert, AlertedTo, SeenOf;
    if due != [] {
      var n := |due| - 1;
      var before := PollItems(w, due[..n], now, fetches[..n]);
      PollAlertsExact(w, due[..n], now, fetches[..n], player, aoid, fp);
      ItemAlertExact(before.w.db, due[n], fetches[n], player, fp);
      PollItemsSeen(w, due[..n], now, fetches[..n], due[n]);
      NotInBatch(w, due[..n], now, fetches[..n], due[n]);
      AlertedSame(w.db, before.w.db, due[n], fetches[n], player, fp);
      LastAlert(w, due, now, fetches, player);
      if due[n] == aoid && before.ok && AlertedTo(w.db, aoid, fetches[n], player, fp) {
        assert ItemAlert(before.w.db, aoid, fetches[n], player).value in PollAlerts(w, due, now, fetches, player);
      }
    }
  }

  /** The alerts of a poll are those of all but its last item, and the last item's. */
  lemma LastAlert(w: World, due: seq<int>, now: int, fetches: seq<Fetch>, player: string)
    requires |fetches| == |due| > 0 && forall i | 0 <= i < |due| :: due[i] in w.db.watch
    ensures
      var n := |due| - 1;
      var before := PollItems(w, due[..n], now, fetches[..n]);
      forall alert :: alert in PollAlerts(w, due, now, fetches, player) <==>
        alert in PollAlerts(w, due[..n], now, fetches[..n], player) ||
        (before.ok && ItemAlert(before.w.db, due[n], fetches[n], player) == Some(alert))
  {
    hide PollItems, ItemAlert;
  }

  /** An operation alerts a player to an order of an item exactly when it is a poll that
      fetched a book of the item with the order on it, the order is reported, and it lies
      within every bound of the subscription of the player, who was reached. */
  lemma AlertedExactly(w: World, e: Event, player: string, aoid: int, fp: string)
    requires Enabled(w, e)
    ensures
      (exists alert :: alert in Produced(w, e, player) && alert.aoid == aoid && fp in alert.orders) <==>
      FetchOf(w, e, aoid).Some? && AlertedTo(w.db, aoid, FetchOf(w, e, aoid).value, player, fp)
  {
    hide PollItems, PollAlerts, FetchIn, AlertedTo, Cleaned, Enabled, Apply;
    if e.Poll? {
      var cleaned := w.(db := Cleaned(w.db, e.now, e.settings));
      ApplyPoll(w, e);
      PollAlertsExact(cleaned, e.due, e.now, e.fetches, player, aoid, fp);
      if FetchOf(w, e, aoid).Some? {
        FetchedIsDue(cleaned, e.due, e.now, e.fetches, aoid);
        AlertedAfterCleaning(w.db, e.now, e.settings, aoid, FetchOf(w, e, aoid).value, player, fp);
      }
    }
  }

  lemma {:induction false} FetchedIsDue(w: World, due: seq<int>, now: int, fetches: seq<Fetch>, aoid: int)
    requires |fetches| == |due| && forall i | 0 <= i < |due| :: due[i] in w.db.watch
    requires FetchIn(w, due, now, fetches, aoid).Some?
    ensures aoid in due
  {
    hide PollItems;
    if aoid !in due {
      NotInBatch(w, due, now, fetches, aoid);
    }
  }

  /** Cleaning keeps the subscriptions of the items it keeps, and the seen orders. */
  lemma AlertedAfterCleaning(t: Tables, now: int, settings: PollSettings, aoid: int, fetch: Fetch, player: string,
                             fp: string)
    requires aoid in Cleaned(t, now, settings).watch
    ensures AlertedTo(Cleaned(t, now, settings), aoid, fetch, player, fp) <==> AlertedTo(t, aoid, fetch, player, fp)
  {
    var u := Cleaned(t, now, settings);
    assert (player, aoid) in u.subs <==> (player, aoid) in t.subs;
    assert (player, aoid) in u.subs ==> u.subs[(player, aoid)] == t.subs[(player, aoid)];
    hide FingerprintMap, Cleaned;
  }

  lemma AlertIsReported(w: World, es: seq<Event>, k: nat, player: string, alert: Alert, fp: string)
    requires IsRun(w, es) && k < |es| && alert in ProducedAt(w, es, k, player) && fp in alert.orders
    ensures fp in ReportedAt(w, es, k, alert.aoid)
  {
    hide IsRun, StateAt, Enabled, Apply, PollItems, PollAlerts, FetchIn, Reported, Cleaned, FetchOf, Produced, IsNew;
    StateNext(w, es, k);
    var x, e := StateAt(w, es, k), es[k];
    AlertedExactly(x, e, player, alert.aoid, fp);
    ReportedIsNew(x.db, alert.aoid, FetchOf(x, e, alert.aoid).value.book.value, fp);
  }

  lemma CleanedSeen(t: Tables, now: int, settings: PollSettings)
    ensures Cleaned(t, now, settings).seen == t.seen
  {}

  /** Nobody is alerted twice to one order in an unbroken presence, as long as no callback
      raises over it: between two alerts to a player that name the same order of an item, the
      first fetch recorded, lies a recorded book without it. */
  lemma OneAlertPerPresence(w: World, es: seq<Event>, i: nat, j: nat, player: string, first: Alert, second: Alert,
                            fp: string)
    requires IsRun(w, es) && i < j < |es| && first.aoid == second.aoid && RecordedAt(w, es, i, first.aoid).Some?
    requires first in ProducedAt(w, es, i, player) && second in ProducedAt(w, es, j, player)
    requires fp in first.orders && fp in second.orders
    ensures exists m ::
      i < m < j && RecordedAt(w, es, m, first.aoid).Some? && fp !in Fingerprints(RecordedAt(w, es, m, first.aoid).value)
  {
    hide *;
    AlertIsReported(w, es, i, player, first, fp);
    AlertIsReported(w, es, j, player, second, fp);
    OneReportPerPresence(w, es, i, j, first.aoid, fp);
  }

  /** The waiting alerts that unregistering throws away. */
  function Dropped(w: World, e: Event, player: string): multiset<Alert> {
    if e == Unregister(player) && player in w.db.isAdmin then multiset(Alerts(PendingOf(w.db, player))) else multiset{}
  }

  /** The alerts of a delivery from the one whose tell raised on: deleted, and not told. */
  function Lost(w: World, e: Event, player: string): multiset<Alert> {
    if !e.Deliver? || e.player != player then multiset{} else
      var alerts := Alerts(ByTime(PendingOf(w.db, player)));
      if e.tells < |alerts| then multiset(alerts[e.tells..]) else multiset{}
  }

  /** A delivery loses alerts exactly when one of its tells raises. */
  lemma LostExact(w: World, e: Event, player: string)
    ensures Lost(w, e, player) != multiset{} <==>
      e.Deliver? && e.player == player && e.tells < |PendingOf(w.db, player)|
  {
    hide ByTime;
    var alerts := Alerts(ByTime(PendingOf(w.db, player)));
    if e.Deliver? && e.tells < |alerts| {
      assert alerts[e.tells..][0] in multiset(alerts[e.tells..]);
    }
  }

  lemma StepConserves(w: World, e: Event, player: string)
    requires Enabled(w, e)
    ensures Held(w, player) + Produced(w, e, player) ==
      Held(Apply(w, e), player) + (Dropped(w, e, player) + Lost(w, e, player))
  {
    hide Held, Apply, Enabled, PollAlerts;
    if e.Poll? {
      PollConserves(w, e, player);
    } else if e.Deliver? {
      DeliverConserves(w, e, player);
    } else if e.Unregister? {
      UnregisterConserves(w, e, player);
    } else {
      OtherStepsKeepAlerts(w, e);
      SameHeld(w, Apply(w, e), player);
    }
  }

  lemma PollConserves(w: World, e: Event, player: string)
    requires Enabled(w, e) && e.Poll?
    ensures Held(w, player) + Produced(w, e, player) == Held(Apply(w, e), player)
  {
    hide Apply, Enabled, PollItems, PollAlerts, Held;
    var cleaned := w.(db := Cleaned(w.db, e.now, e.settings));
    ApplyPoll(w, e);
    PollItemsHeld(cleaned, e.due, e.now, e.fetches, player);
    SameHeld(w, cleaned, player);
  }

  lemma NoAlerts()
    ensures Alerts([]) == []
  {}

  lemma FirstAndRest<V>(xs: seq<V>, n: nat)
    ensures multiset(xs) == multiset(First(xs, n)) + if n < |xs| then multiset(xs[n..]) else multiset{}
  {
    if n < |xs| {
      assert xs == xs[..n] + xs[n..];
    }
  }

  lemma DeliverLists(w: World, e: Event, player: string)
    requires e.Deliver?
    ensures
      var rows, v := PendingOf(w.db, player), Apply(w, e);
      if player == e.player && rows != [] then
        PendingOf(v.db, player) == [] && ToldTo(v, player) == ToldTo(w, player) + First(Alerts(ByTime(rows)), e.tells)
      else PendingOf(v.db, player) == rows && ToldTo(v, player) == ToldTo(w, player)
  {
    hide ByTime, Alerts, First;
  }

  lemma DeliverConserves(w: World, e: Event, player: string)
    requires e.Deliver?
    ensures Held(w, player) == Held(Apply(w, e), player) + Lost(w, e, player)
  {
    hide Apply, PendingOf, ToldTo, ByTime, Alerts, First;
    var rows := PendingOf(w.db, player);
    DeliverLists(w, e, player);
    if player == e.player && rows != [] {
      ByTimeAlerts(rows);
      NoAlerts();
      FirstAndRest(Alerts(ByTime(rows)), e.tells);
    } else {
      LostExact(w, e, player);
    }
  }

  lemma UnregisterConserves(w: World, e: Event, player: string)
    requires e.Unregister?
    ensures Held(w, player) == Held(Apply(w, e), player) + Dropped(w, e, player)
  {}

  lemma SameHeld(w: World, v: World, player: string)
    requires w.told == v.told && w.db.pending == v.db.pending
    ensures Held(w, player) == Held(v, player)
  {}

  lemma OtherStepsKeepAlerts(w: World, e: Event)
    requires Enabled(w, e) && !e.Poll? && !e.Deliver? && !e.Unregister?
    ensures Apply(w, e).told == w.told && Apply(w, e).db.pending == w.db.pending
  {
    hide UpsertWatch, DropWatches, DropSubscriptions, RevokeAll, DropUser, Unflag, UpsertAll, SubscribeTo, NewKey,
      LogAction;
  }

  /** The alerts of the first k operations of a run, added up. */
  ghost function TotalProduced(w: World, es: seq<Event>, k: nat, player: string): multiset<Alert>
    requires IsRun(w, es) && k <= |es|
  {
    if k == 0 then multiset{} else
      StateNext(w, es, k - 1);
      TotalProduced(w, es, k - 1, player) + Produced(StateAt(w, es, k - 1), es[k - 1], player)
  }

  ghost function TotalDropped(w: World, es: seq<Event>, k: nat, player: string): multiset<Alert>
    requires IsRun(w, es) && k <= |es|
  {
    if k == 0 then multiset{} else
      TotalDropped(w, es, k - 1, player) + Dropped(StateAt(w, es, k - 1), es[k - 1], player)
  }

  ghost function TotalLost(w: World, es: seq<Event>, k: nat, player: string): multiset<Alert>
    requires IsRun(w, es) && k <= |es|
  {
    if k == 0 then multiset{} else
      TotalLost(w, es, k - 1, player) + Lost(StateAt(w, es, k - 1), es[k - 1], player)
  }

  lemma Balance<T(!new)>(h0: multiset<T>, p0: multiset<T>, h1: multiset<T>, d0: multiset<T>, l0: multiset<T>,
                         p: multiset<T>, h2: multiset<T>, d: multiset<T>, l: multiset<T>)
    requires h0 + p0 == h1 + (d0 + l0) && h1 + p == h2 + (d + l)
    ensures h0 + (p0 + p) == h2 + ((d0 + d) + (l0 + l))
  {
    forall x
      ensures (h0 + (p0 + p))[x] == (h2 + ((d0 + d) + (l0 + l)))[x]
    {
      assert (h0 + p0)[x] == (h1 + (d0 + l0))[x] && (h1 + p)[x] == (h2 + (d + l))[x];
    }
  }

  lemma {:induction false} ConservedUpTo(w: World, es: seq<Event>, k: nat, player: string)
    requires IsRun(w, es) && k <= |es|
    ensures Held(w, player) + TotalProduced(w, es, k, player) ==
      Held(StateAt(w, es, k), player) + (TotalDropped(w, es, k, player) + TotalLost(w, es, k, player))
    decreases k
  {
    hide Apply, Enabled, Held, Produced, Dropped, Lost, StateAt, IsRun;
    if k == 0 {
      if es != [] {
        StateNext(w, es, 0);
      } else {
        NoOperations(w, es);
      }
    } else {
      ConservedUpTo(w, es, k - 1, player);
      StateNext(w, es, k - 1);
      var before, e := StateAt(w, es, k - 1), es[k - 1];
      StepConserves(before, e, player);
      Balance(Held(w, player), TotalProduced(w, es, k - 1, player), Held(before, player),
        TotalDropped(w, es, k - 1, player), TotalLost(w, es, k - 1, player), Produced(before, e, player),
        Held(StateAt(w, es, k), player), Dropped(before, e, player), Lost(before, e, player));
    }
  }

  /** Conservation: over any run, for every player, the alerts held at the start plus
      those sent are those told plus those pending plus those dropped by unregistering
      plus those lost in deliveries cut short. */
  lemma AlertsConserved(w: World, es: seq<Event>, player: string)
    requires IsRun(w, es)
    ensures Held(w, player) + TotalProduced(w, es, |es|, player) ==
      Held(After(w, es), player) + (TotalDropped(w, es, |es|, player) + TotalLost(w, es, |es|, player))
  {
    hide Held, TotalProduced, TotalDropped, TotalLost, IsRun, After;
    ConservedUpTo(w, es, |es|, player);
    if es != [] {
      StateNext(w, es, 0);
    } else {
      WholeRun(w, es);
    }
  }

  lemma WholeRun(w: World, es: seq<Event>)
    requires IsRun(w, es)
    ensures StateAt(w, es, |es|) == After(w, es)
  {
    assert es[..|es|] == es;
  }

  /** Nothing is lost along a run exactly when no delivery to the player was cut short. */
  lemma {:induction false} NothingLost(w: World, es: seq<Event>, k: nat, player: string)
    requires IsRun(w, es) && k <= |es|
    ensures TotalLost(w, es, k, player) == multiset{} <==>
      forall i | 0 <= i < k && es[i].Deliver? && es[i].player == player ::
        es[i].tells >= |PendingOf(StateAt(w, es, i).db, player)|
    decreases k
  {
    hide Lost, StateAt, IsRun, PendingOf;
    if k > 0 {
      NothingLost(w, es, k - 1, player);
      LostExact(StateAt(w, es, k - 1), es[k - 1], player);
    }
  }
}
