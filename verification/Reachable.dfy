/** The state invariant: every constraint of `db/models.py` and every filter bound
    holds in every state a serial run reaches. */
module Reachable {
  import opened Collections
  import opened Wrappers
  import opened Orders
  import opened MarketState

  lemma LogActionValid(t: Tables, player: string, action: string, aoid: Option<int>)
    requires Valid(t)
    ensures Valid(LogAction(t, player, action, aoid))
  {}

  lemma UpsertWatchValid(t: Tables, aoid: int, item: Item, auto: bool, now: int)
    requires Valid(t)
    ensures Valid(UpsertWatch(t, aoid, item, auto, now))
  {}

  lemma DropWatchesValid(t: Tables, gone: set<int>)
    requires Valid(t)
    ensures Valid(DropWatches(t, gone))
  {}

  lemma PruneValid(t: Tables, cutoff: int)
    requires Valid(t)
    ensures Valid(Prune(t, cutoff))
  {}

  lemma DropUserValid(t: Tables, player: string)
    requires Valid(t)
    ensures Valid(DropUser(t, player))
  {}

  lemma DropSubscriptionsValid(t: Tables, gone: set<(string, int)>)
    requires Valid(t)
    ensures Valid(DropSubscriptions(t, gone))
  {}

  lemma SetFilterValid(t: Tables, k: (string, int), f: Filter)
    requires Valid(t) && k in t.subs && FilterOk(f)
    ensures Valid(t.(subs := t.subs[k := f]))
  {}

  lemma AddSubscriptionValid(t: Tables, k: (string, int))
    requires Valid(t) && k.0 in t.isAdmin && k.1 in t.watch
    ensures Valid(t.(subs := t.subs[k := OPEN]))
  {}

  lemma SubscribeValid(t: Tables, player: string, aoid: int, found: Option<Item>, limit: int, now: int)
    requires Valid(t)
    ensures Valid(SubscribeTo(t, player, aoid, found, limit, now))
  {
    hide Valid;
    LogActionValid(t, player, "watch_denied", Some(aoid));
    if found.Some? && player in t.isAdmin {
      var t1 := UpsertWatch(t, aoid, found.value, false, now);
      UpsertWatchValid(t, aoid, found.value, false, now);
      AddSubscriptionValid(t1, (player, aoid));
      LogActionValid(t1.(subs := t1.subs[(player, aoid) := OPEN]), player, "watch", Some(aoid));
    }
  }

  lemma RevokeAllValid(t: Tables, player: string)
    requires Valid(t)
    ensures Valid(RevokeAll(t, player))
    ensures ActiveKeys(RevokeAll(t, player), player) == {}
  {
    var u := RevokeAll(t, player);
    assert u.keys.Keys == t.keys.Keys;
    assert KeysValid(u);
  }

  lemma AddKeyValid(t: Tables, player: string, keyHash: string, prefix: string)
    requires Valid(t) && player in t.isAdmin && ActiveKeys(t, player) == {} && !HashTaken(t, keyHash)
    ensures Valid(t.(keys := t.keys[t.nextId := ApiKey(player, keyHash, prefix, false)], nextId := t.nextId + 1))
  {
    var u := t.(keys := t.keys[t.nextId := ApiKey(player, keyHash, prefix, false)], nextId := t.nextId + 1);
    assert t.nextId !in t.keys;
    forall i | i in t.keys && !t.keys[i].revoked
      ensures t.keys[i].player != player
    {
      assert i !in ActiveKeys(t, player);
    }
    assert KeysValid(u);
  }

  lemma NewKeyValid(t: Tables, player: string, keyHash: string, prefix: string)
    requires Valid(t)
    ensures Valid(NewKey(t, player, keyHash, prefix))
  {
    hide Valid, HashTaken, ActiveKeys;
    var t0 := if player in t.isAdmin then t else AddUser(t, player);
    if player !in t.isAdmin {
      AddUserValid(t, player);
    }
    var t1 := RevokeAll(t0, player);
    RevokeAllValid(t0, player);
    if !HashTaken(t1, keyHash) {
      AddKeyValid(t1, player, keyHash, prefix);
    }
  }

  lemma UnflagValid(t: Tables, keep: set<int>)
    requires Valid(t)
    ensures Valid(Unflag(t, keep))
  {}

  lemma {:induction false} UpsertAllValid(t: Tables, resolved: seq<(int, Item)>, now: int)
    requires Valid(t)
    ensures Valid(UpsertAll(t, resolved, now))
  {
    if resolved != [] {
      var n := |resolved| - 1;
      UpsertAllValid(t, resolved[..n], now);
      UpsertWatchValid(UpsertAll(t, resolved[..n], now), resolved[n].0, resolved[n].1, true, now);
    }
  }

  // ---- polling ----

  lemma NotifyValid(w: World, aoid: int, itemName: string, orders: map<string, NewOrder>, now: int, online: set<string>,
                    reached: set<string>)
    requires Valid(w.db)
    ensures Valid(Notify(w, aoid, itemName, orders, now, online, reached).db)
  {
    var v := Notify(w, aoid, itemName, orders, now, online, reached).db;
    assert forall p | p in AlertsFor(w.db, aoid, itemName, orders) :: (p, aoid) in w.db.subs;
    assert PendingValid(v);
  }

  lemma ReplaceSeenValid(t: Tables, aoid: int, fingerprints: set<string>)
    requires Valid(t)
    ensures Valid(ReplaceSeen(t, aoid, fingerprints))
  {}

  lemma DetectValid(w: World, aoid: int, itemName: string, now: int, fetch: Fetch)
    requires Valid(w.db) && fetch.book.Some?
    ensures Valid(Detect(w, aoid, itemName, now, fetch).db)
  {
    hide Valid, Notify, Interrupted;
    var book := fetch.book.value;
    var reported := Reported(w.db, aoid, book);
    NotifyValid(w, aoid, itemName, NewOrders(book, reported), now, fetch.online, fetch.reached);
    var told := if reported == {} then w
      else Notify(w, aoid, itemName, NewOrders(book, reported), now, fetch.online, fetch.reached);
    ReplaceSeenValid(told.db, aoid, Fingerprints(book));
  }

  /** The row `_snapshot` inserts refers to a live watch row. */
  lemma AddSnapshotValid(t: Tables, aoid: int, now: int)
    requires Valid(t) && aoid in t.watch
    ensures Valid(AddSnapshot(t, aoid, now))
  {}

  lemma PolledValid(t: Tables, aoid: int, now: int)
    requires Valid(t)
    ensures Valid(Polled(t, aoid, now))
  {}

  lemma PollItemValid(w: World, aoid: int, now: int, fetch: Fetch)
    requires Valid(w.db) && aoid in w.db.watch
    ensures Valid(PollItem(w, aoid, now, fetch).db)
  {
    hide Valid, Detect, Interrupted;
    var w1 := w;
    if fetch.book.Some? {
      AddSnapshotValid(w.db, aoid, now);
      var w0 := w.(db := AddSnapshot(w.db, aoid, now));
      DetectValid(w0, aoid, w.db.watch[aoid].item.name, now, fetch);
      w1 := Detect(w0, aoid, w.db.watch[aoid].item.name, now, fetch);
    }
    PolledValid(w1.db, aoid, now);
  }

  lemma {:induction false} PollItemsValid(w: World, due: seq<int>, now: int, fetches: seq<Fetch>)
    requires |fetches| == |due| && forall i | 0 <= i < |due| :: due[i] in w.db.watch
    requires Valid(w.db)
    ensures Valid(PollItems(w, due, now, fetches).w.db)
  {
    hide Valid, PollItem, Interrupted;
    if due != [] {
      var n := |due| - 1;
      PollItemsValid(w, due[..n], now, fetches[..n]);
      PollItemValid(PollItems(w, due[..n], now, fetches[..n]).w, due[n], now, fetches[n]);
    }
  }

  lemma CleanedValid(t: Tables, now: int, settings: PollSettings)
    requires Valid(t)
    ensures Valid(Cleaned(t, now, settings))
  {
    hide Valid;
    var gone := Stale(t, now - settings.expireDays * DAY);
    DropWatchesValid(t, gone);
    PruneValid(DropWatches(t, gone), now - settings.retentionDays * DAY);
  }

  lemma DeliverValid(t: Tables, player: string)
    requires Valid(t)
    ensures Valid(t.(pending := t.pending - {player}))
  {}

  lemma FilterStepValid(w: World, e: Event)
    requires Valid(w.db) && Enabled(w, e) && (e.SetPrice? || e.SetQl? || e.ClearFilter?)
    ensures Valid(Apply(w, e).db)
  {
    hide Valid;
    var t, k := w.db, (e.player, e.aoid);
    if k in t.subs {
      StoredFilterOk(t, k);
      match e
      case SetPrice(_, _, Some(range)) => SetFilterValid(t, k, t.subs[k].(minPrice := range.lo, maxPrice := range.hi));
      case SetQl(_, _, Some(range)) => SetFilterValid(t, k, t.subs[k].(minQl := range.lo, maxQl := range.hi));
      case _ => SetFilterValid(t, k, OPEN);
    }
  }

  // ---- every operation, every run ----

  lemma StepValid(w: World, e: Event)
    requires Valid(w.db) && Enabled(w, e)
    ensures Valid(Apply(w, e).db)
  {
    hide Valid, DropWatches, DropUser, UpsertWatch, SubscribeTo, NewKey, RevokeAll, UpsertAll, Unflag, PollItems,
      Cleaned,
      LogAction, DropSubscriptions, ByTime, Alerts, Tell, First, ResolvedAoids;
    var t := w.db;
    match e
    case Register(p) =>
      if p !in t.isAdmin {
        assert Valid(AddUser(t, p)) by { AddUserValid(t, p); }
        LogActionValid(AddUser(t, p), p, "register", None);
      }
    case Unregister(p) => DropUserValid(t, p);
    case WatchItem(a, item, auto, now) => UpsertWatchValid(t, a, item, auto, now);
    case DeleteWatch(a) => DropWatchesValid(t, {a});
    case UntrackAll => DropWatchesValid(t, t.watch.Keys);
    case Subscribe(p, a, found, limit, now) => SubscribeValid(t, p, a, found, limit, now);
    case Unsubscribe(p, a) =>
      DropSubscriptionsValid(t, {(p, a)});
      LogActionValid(DropSubscriptions(t, {(p, a)}), p, "unwatch", Some(a));
    case UnsubscribeAll(p) =>
      var gone := set k | k in t.subs.Keys && k.0 == p;
      DropSubscriptionsValid(t, gone);
      LogActionValid(DropSubscriptions(t, gone), p, "unwatch_all", None);
    case SetPrice(_, _, _) => FilterStepValid(w, e);
    case SetQl(_, _, _) => FilterStepValid(w, e);
    case ClearFilter(_, _) => FilterStepValid(w, e);
    case Poll(now, settings, due, fetches) =>
      CleanedValid(t, now, settings);
      PollItemsValid(w.(db := Cleaned(t, now, settings)), due, now, fetches);
    case Deliver(p, _) => DeliverValid(t, p);
    case Resync(resolved, now, done) =>
      UnflagValid(t, ResolvedAoids(resolved));
      UpsertAllValid(Unflag(t, ResolvedAoids(resolved)), resolved[..done], now);
    case GenerateKey(p, keyHash, prefix) => NewKeyValid(t, p, keyHash, prefix);
    case RevokeKeys(p) => RevokeAllValid(t, p);
  }

  lemma AddUserValid(t: Tables, player: string)
    requires Valid(t) && player !in t.isAdmin
    ensures Valid(AddUser(t, player))
  {}

  lemma StoredFilterOk(t: Tables, k: (string, int))
    requires Valid(t) && k in t.subs
    ensures FilterOk(t.subs[k])
  {}

  /** Every state of every serial run meets every constraint. */
  lemma {:induction false} RunsStayValid(w: World, es: seq<Event>)
    requires Valid(w.db) && IsRun(w, es)
    ensures Valid(After(w, es).db)
    decreases |es|
  {
    hide Valid, Apply, Enabled;
    if es != [] {
      var n := |es| - 1;
      RunsStayValid(w, es[..n]);
      StepValid(After(w, es[..n]), es[n]);
    }
  }

  /** The constraints, spelled out for the rows of every reachable state. */
  lemma ReachableRows(w: World, es: seq<Event>)
    requires Valid(w.db) && IsRun(w, es)
    ensures var t := After(w, es).db;
      && (forall k | k in t.subs :: k.0 in t.isAdmin && k.1 in t.watch)
      && (forall k | k in t.subs && t.subs[k].minPrice.Some? && t.subs[k].maxPrice.Some? ::
            t.subs[k].minPrice.value <= t.subs[k].maxPrice.value)
      && (forall k | k in t.subs && t.subs[k].minQl.Some? && t.subs[k].maxQl.Some? ::
            t.subs[k].minQl.value <= t.subs[k].maxQl.value)
      && (forall id | id in t.history :: t.history[id].aoid in t.watch && id < t.nextId)
      && (forall p | p in t.pending && t.pending[p] != [] :: p in t.isAdmin)
      && (forall id | id in t.keys :: t.keys[id].player in t.isAdmin && id < t.nextId)
      && (forall i, j | i in t.keys && j in t.keys && i != j :: t.keys[i].keyHash != t.keys[j].keyHash)
      && (forall i, j | i in t.keys && j in t.keys && i != j && t.keys[i].player == t.keys[j].player ::
            t.keys[i].revoked || t.keys[j].revoked)
  {
    hide IsRun, After;
    RunsStayValid(w, es);
  }

  /** No row of any table but the seen orders names the player. */
  ghost predicate Forgotten(t: Tables, player: string) {
    && player !in t.isAdmin
    && (forall k | k in t.subs :: k.0 != player)
    && PendingOf(t, player) == []
    && (forall id | id in t.actions :: t.actions[id].player != player)
    && (forall id | id in t.keys :: t.keys[id].player != player)
  }

  /** After `unregister` the player is gone from every table, whatever happened before,
      and no other player's rows change. */
  lemma UnregisterForgets(w: World, es: seq<Event>, player: string)
    requires Valid(w.db) && IsRun(w, es + [Unregister(player)]) && player in After(w, es).db.isAdmin
    ensures Forgotten(After(w, es + [Unregister(player)]).db, player)
    ensures
      var t, u := After(w, es).db, After(w, es + [Unregister(player)]).db;
      && (forall k | k in t.subs && k.0 != player :: k in u.subs && u.subs[k] == t.subs[k])
      && (forall p | p in t.pending && p != player :: p in u.pending && u.pending[p] == t.pending[p])
      && (forall p | p in t.isAdmin && p != player :: p in u.isAdmin && u.isAdmin[p] == t.isAdmin[p])
      && (forall id | id in t.actions && t.actions[id].player != player ::
            id in u.actions && u.actions[id] == t.actions[id])
      && (forall id | id in t.keys && t.keys[id].player != player :: id in u.keys && u.keys[id] == t.keys[id])
      && u.watch == t.watch && u.history == t.history && u.seen == t.seen
  {
    var all := es + [Unregister(player)];
    assert all[..|all| - 1] == es;
  }
}
