/** How long an item stays auto-tracked over whole runs. */
module Tracking {
  import opened Wrappers
  import opened Orders
  import opened MarketState

  predicate IsAuto(t: Tables, aoid: int) {
    aoid in t.watch && t.watch[aoid].autoTracked
  }

  /** The operations that delete the row of an auto-tracked item. */
  predicate Deletes(e: Event, aoid: int) {
    e == DeleteWatch(aoid) || e.UntrackAll?
  }

  /** A poll that gets to its loop changes nothing of a row but the poll time. */
  lemma {:induction false} PollItemsRow(w: World, due: seq<int>, now: int, fetches: seq<Fetch>, aoid: int)
    requires |fetches| == |due| && forall i | 0 <= i < |due| :: due[i] in w.db.watch
    requires aoid in w.db.watch
    ensures
      var u := PollItems(w, due, now, fetches).w.db;
      && aoid in u.watch
      && u.watch[aoid] == w.db.watch[aoid].(lastPolled := u.watch[aoid].lastPolled)
  {
    hide PollItem, Interrupted;
    if due != [] {
      PollItemsRow(w, due[..|due| - 1], now, fetches[..|due| - 1], aoid);
    }
  }

  /** Neither expiry nor pruning takes an auto-tracked row. */
  lemma CleanedRow(t: Tables, now: int, settings: PollSettings, aoid: int)
    ensures aoid in Cleaned(t, now, settings).watch ==>
              aoid in t.watch && Cleaned(t, now, settings).watch[aoid] == t.watch[aoid]
    ensures IsAuto(t, aoid) ==> aoid in Cleaned(t, now, settings).watch
  {}

  lemma PollRow(w: World, e: Event, aoid: int)
    requires Enabled(w, e) && e.Poll? && aoid in w.db.watch
    ensures
      var t, u := w.db, Apply(w, e).db;
      && (IsAuto(t, aoid) ==> aoid in u.watch)
      && (aoid in u.watch ==> u.watch[aoid] == t.watch[aoid].(lastPolled := u.watch[aoid].lastPolled))
  {
    hide Apply, Enabled, Cleaned, PollItems;
    var cleaned := w.(db := Cleaned(w.db, e.now, e.settings));
    ApplyPoll(w, e);
    CleanedRow(w.db, e.now, e.settings, aoid);
    if aoid in cleaned.db.watch {
      PollItemsRow(cleaned, e.due, e.now, e.fetches, aoid);
    } else {
      PollKeys(cleaned, e.due, e.now, e.fetches);
    }
  }

  lemma PollKeys(w: World, due: seq<int>, now: int, fetches: seq<Fetch>)
    requires |fetches| == |due| && forall i | 0 <= i < |due| :: due[i] in w.db.watch
    ensures PollItems(w, due, now, fetches).w.db.watch.Keys == w.db.watch.Keys
  {}

  /** Everything else either deletes a row, or keeps its first-seen time and its flag, or
      raises the flag. */
  lemma OtherRow(w: World, e: Event, aoid: int)
    requires Enabled(w, e) && !e.Poll? && !e.Resync? && aoid in w.db.watch
    ensures
      var t, u := w.db, Apply(w, e).db;
      && (aoid in u.watch <==> !Deletes(e, aoid))
      && (aoid in u.watch ==>
            u.watch[aoid].firstSeen == t.watch[aoid].firstSeen && (IsAuto(t, aoid) ==> u.watch[aoid].autoTracked))
  {
    hide LogAction, DropSubscriptions, DropUser, RevokeAll, NewKey, SubscribeTo, ByTime, Alerts, PendingOf, Tell;
    if e.Subscribe? {
      SubscribeRow(w.db, e, aoid);
    }
  }

  /** An upsert never lowers the flag of a row. */
  lemma UpsertRow(t: Tables, a: int, item: Item, auto: bool, now: int, aoid: int)
    requires aoid in t.watch
    ensures
      var u := UpsertWatch(t, a, item, auto, now);
      && aoid in u.watch && u.watch[aoid].firstSeen == t.watch[aoid].firstSeen
      && u.watch[aoid].lastPolled == t.watch[aoid].lastPolled
      && (u.watch[aoid].autoTracked <==> t.watch[aoid].autoTracked || (a == aoid && auto))
  {}

  lemma SubscribeRow(t: Tables, e: Event, aoid: int)
    requires e.Subscribe? && aoid in t.watch
    ensures
      var u := SubscribeTo(t, e.player, e.aoid, e.found, e.limit, e.now);
      && aoid in u.watch && u.watch[aoid].firstSeen == t.watch[aoid].firstSeen
      && (IsAuto(t, aoid) ==> u.watch[aoid].autoTracked)
  {
    hide LogAction, UpsertWatch, SubscribedBy;
    if e.found.Some? {
      UpsertRow(t, e.aoid, e.found.value, false, e.now, aoid);
    }
  }

  /** Outside a resync an auto-tracked item stays in the table, and auto-tracked, unless its
      row is deleted by name. */
  lemma StepKeepsFlag(w: World, e: Event, aoid: int)
    requires Enabled(w, e) && !e.Resync? && IsAuto(w.db, aoid)
    ensures IsAuto(Apply(w, e).db, aoid) <==> !Deletes(e, aoid)
    ensures aoid in Apply(w, e).db.watch <==> !Deletes(e, aoid)
    ensures aoid in Apply(w, e).db.watch ==> Apply(w, e).db.watch[aoid].firstSeen == w.db.watch[aoid].firstSeen
  {
    hide Apply, Enabled;
    if e.Poll? {
      PollRow(w, e, aoid);
    } else {
      OtherRow(w, e, aoid);
    }
  }

  /** Along a run without a resync, an auto-tracked item that stayed in the table is still
      auto-tracked; and it stayed exactly when it was not deleted by name. */
  lemma {:induction false} StaysAutoTracked(w: World, es: seq<Event>, k: nat, aoid: int)
    requires IsRun(w, es) && k <= |es| && IsAuto(w.db, aoid)
    requires forall i | 0 <= i < k :: !es[i].Resync?
    ensures (forall i | 0 <= i <= k :: aoid in StateAt(w, es, i).db.watch) <==>
            (forall i | 0 <= i < k :: !Deletes(es[i], aoid))
    ensures (forall i | 0 <= i < k :: !Deletes(es[i], aoid)) ==>
              IsAuto(StateAt(w, es, k).db, aoid) &&
              StateAt(w, es, k).db.watch[aoid].firstSeen == w.db.watch[aoid].firstSeen
    decreases k
  {
    hide Apply, Enabled, StateAt, IsRun, IsAuto, Deletes;
    AtStart(w, es);
    if k > 0 {
      StaysAutoTracked(w, es, k - 1, aoid);
      StateNext(w, es, k - 1);
      if forall i | 0 <= i < k - 1 :: !Deletes(es[i], aoid) {
        StepKeepsFlag(StateAt(w, es, k - 1), es[k - 1], aoid);
        InTable(StateAt(w, es, k).db, aoid);
      }
    }
    InTable(w.db, aoid);
  }

  lemma AtStart(w: World, es: seq<Event>)
    requires IsRun(w, es)
    ensures StateAt(w, es, 0) == w
  {}

  lemma InTable(t: Tables, aoid: int)
    ensures IsAuto(t, aoid) ==> aoid in t.watch
  {}
}
