/** The market tables as one value, and every operation of the service as a function
    on it. Rows that other rows refer to carry their deletions along, as the foreign
    keys of `db/models.py` say. */
module MarketState {
  import opened Collections
  import opened Wrappers
  import opened Orders
  import Parsing

  /** A timestamp with time zone; the column default of `last_polled` is "-infinity". */
  datatype Stamp = NegInfinity | At(micros: int)

  predicate Before(a: Stamp, b: Stamp) {
    b.At? && (a.NegInfinity? || a.micros < b.micros)
  }

  const MINUTE: int := 60_000_000
  const DAY: int := 86_400_000_000

  datatype Item = Item(name: string, ql: int, icon: Option<int>)

  datatype Watch = Watch(item: Item, firstSeen: int, lastPolled: Stamp, autoTracked: bool)

  /** A row of the history table; the statistics in it are not modelled. */
  datatype Snapshot = Snapshot(aoid: int, ts: int)

  datatype Action = Action(player: string, action: string, aoid: Option<int>)

  datatype ApiKey = ApiKey(player: string, keyHash: string, prefix: string, revoked: bool)

  /** An alert before it is rendered: the matching orders by fingerprint. */
  datatype Alert = Alert(itemName: string, aoid: int, orders: map<string, NewOrder>)

  datatype Pending = Pending(alert: Alert, createdAt: int)

  datatype Tables = Tables(
    isAdmin: map<string, bool>,             // market_users, by player
    watch: map<int, Watch>,                 // market_watch, by aoid
    subs: map<(string, int), Filter>,       // market_subscriptions, by (player, aoid)
    seen: set<(int, string)>,               // market_seen_orders
    pending: map<string, seq<Pending>>,     // market_pending_alerts of each player, in id order
    actions: map<nat, Action>,              // market_user_actions, by id
    history: map<nat, Snapshot>,            // market_history, by id
    keys: map<nat, ApiKey>,                 // api_keys, by id
    nextId: nat)

  /** The tables, and the alerts handed to `_send_tell` for each player, oldest first. */
  datatype World = World(db: Tables, told: map<string, seq<Alert>>)

  function PendingOf(t: Tables, player: string): seq<Pending> {
    if player in t.pending then t.pending[player] else []
  }

  function ToldTo(w: World, player: string): seq<Alert> {
    if player in w.told then w.told[player] else []
  }

  function SeenOf(t: Tables, aoid: int): set<string> {
    set row | row in t.seen && row.0 == aoid :: row.1
  }

  /** The aoids a player subscribes to. */
  function SubscribedBy(t: Tables, player: string): set<int> {
    set k | k in t.subs.Keys && k.0 == player :: k.1
  }

  // ---- the constraints ----

  ghost predicate Valid(t: Tables) {
    SubsValid(t) && HistoryValid(t) && PendingValid(t) && KeysValid(t) && IdsBelow(t)
  }

  /** Every subscription refers to a live user and a live watch row, its bounds in order. */
  ghost predicate SubsValid(t: Tables) {
    && (forall k | k in t.subs :: k.0 in t.isAdmin && k.1 in t.watch)
    && (forall k | k in t.subs :: FilterOk(t.subs[k]))
  }

  ghost predicate HistoryValid(t: Tables) {
    forall id | id in t.history :: t.history[id].aoid in t.watch
  }

  ghost predicate PendingValid(t: Tables) {
    forall p | p in t.pending && t.pending[p] != [] :: p in t.isAdmin
  }

  /** Keys refer to live users, hashes are unique, a player has at most one active key. */
  ghost predicate KeysValid(t: Tables) {
    && (forall id | id in t.keys :: t.keys[id].player in t.isAdmin)
    && (forall i, j | i in t.keys && j in t.keys && t.keys[i].keyHash == t.keys[j].keyHash :: i == j)
    && (forall i, j | i in t.keys && j in t.keys && !t.keys[i].revoked && !t.keys[j].revoked &&
          t.keys[i].player == t.keys[j].player :: i == j)
  }

  predicate IdsBelow(t: Tables) {
    && (forall id | id in t.actions :: id < t.nextId)
    && (forall id | id in t.history :: id < t.nextId)
    && (forall id | id in t.keys :: id < t.nextId)
  }

  /** A stored filter is open on a side or has its bounds in order. */
  predicate FilterOk(f: Filter) {
    && Parsing.Ordered(Parsing.Range(f.minPrice, f.maxPrice))
    && Parsing.Ordered(Parsing.Range(f.minQl, f.maxQl))
  }

  // ---- single-table operations ----

  function LogAction(t: Tables, player: string, action: string, aoid: Option<int>): (u: Tables)
    ensures u == t.(actions := u.actions, nextId := u.nextId)
  {
    t.(actions := t.actions[t.nextId := Action(player, action, aoid)], nextId := t.nextId + 1)
  }

  function AddUser(t: Tables, player: string): Tables {
    t.(isAdmin := t.isAdmin[player := false])
  }

  function UpsertWatch(t: Tables, aoid: int, item: Item, auto: bool, now: int): (u: Tables)
    ensures u == t.(watch := u.watch)
  {
    var row := if aoid in t.watch
               then t.watch[aoid].(item := item, autoTracked := auto || t.watch[aoid].autoTracked)
               else Watch(item, now, NegInfinity, auto);
    t.(watch := t.watch[aoid := row])
  }

  /** Deleting watch rows takes their subscriptions and history along, not the seen orders. */
  function DropWatches(t: Tables, gone: set<int>): (u: Tables)
    ensures u == t.(watch := u.watch, subs := u.subs, history := u.history)
  {
    t.(watch := t.watch - gone,
       subs := map k | k in t.subs && k.1 !in gone :: t.subs[k],
       history := map id | id in t.history && t.history[id].aoid !in gone :: t.history[id])
  }

  /** Not auto-tracked, and GREATEST(last_polled, first_seen) before the cutoff. */
  function Stale(t: Tables, cutoff: int): set<int> {
    set a | a in t.watch.Keys && !t.watch[a].autoTracked
            && Before(t.watch[a].lastPolled, At(cutoff)) && t.watch[a].firstSeen < cutoff
  }

  function Prune(t: Tables, cutoff: int): (u: Tables)
    ensures u == t.(history := u.history)
  {
    t.(history := map id | id in t.history && t.history[id].ts >= cutoff :: t.history[id])
  }

  function AddSnapshot(t: Tables, aoid: int, now: int): Tables {
    t.(history := t.history[t.nextId := Snapshot(aoid, now)], nextId := t.nextId + 1)
  }

  function ReplaceSeen(t: Tables, aoid: int, fingerprints: set<string>): Tables {
    t.(seen := (set row | row in t.seen && row.0 != aoid) + (set fp | fp in fingerprints :: (aoid, fp)))
  }

  function Polled(t: Tables, aoid: int, now: int): Tables {
    if aoid in t.watch then t.(watch := t.watch[aoid := t.watch[aoid].(lastPolled := At(now))]) else t
  }

  function DropSubscriptions(t: Tables, gone: set<(string, int)>): (u: Tables)
    ensures u == t.(subs := u.subs)
  {
    t.(subs := t.subs - gone)
  }

  function RevokeAll(t: Tables, player: string): (u: Tables)
    ensures u == t.(keys := u.keys)
  {
    t.(keys := map id | id in t.keys ::
         if t.keys[id].player == player then t.keys[id].(revoked := true) else t.keys[id])
  }

  function ActiveKeys(t: Tables, player: string): set<nat> {
    set id | id in t.keys && t.keys[id].player == player && !t.keys[id].revoked
  }

  predicate HashTaken(t: Tables, keyHash: string) {
    exists id :: id in t.keys && t.keys[id].keyHash == keyHash
  }

  /** Deleting the user row takes subscriptions and keys along; the rest is deleted by name. */
  function DropUser(t: Tables, player: string): (u: Tables)
    ensures u == t.(isAdmin := u.isAdmin, subs := u.subs, pending := u.pending, actions := u.actions, keys := u.keys)
  {
    t.(isAdmin := t.isAdmin - {player},
       subs := map k | k in t.subs && k.0 != player :: t.subs[k],
       pending := t.pending - {player},
       actions := map id | id in t.actions && t.actions[id].player != player :: t.actions[id],
       keys := map id | id in t.keys && t.keys[id].player != player :: t.keys[id])
  }

  // ---- polling ----

  datatype PollSettings = PollSettings(retentionDays: int, expireDays: int, intervalMinutes: int, batchSize: nat)

  predicate IsDue(t: Tables, aoid: int, cutoff: int) {
    aoid in t.watch && Before(t.watch[aoid].lastPolled, At(cutoff))
  }

  /** The due rows, oldest `last_polled` first, at most `batchSize` of them. Rows with
      equal times may come in any order. */
  ghost predicate IsBatch(t: Tables, cutoff: int, batchSize: nat, due: seq<int>) {
    && |due| <= batchSize
    && (forall i | 0 <= i < |due| :: IsDue(t, due[i], cutoff))
    && (forall i, j | 0 <= i < j < |due| :: due[i] != due[j] &&
          !Before(t.watch[due[j]].lastPolled, t.watch[due[i]].lastPolled))
    && (forall a | IsDue(t, a, cutoff) && a !in due :: |due| == batchSize &&
          forall i | 0 <= i < |due| :: !Before(t.watch[a].lastPolled, t.watch[due[i]].lastPolled))
  }

  /** The players with a subscription that lets some of the new orders through. */
  function Notified(t: Tables, aoid: int, orders: map<string, NewOrder>): set<string> {
    set k | k in t.subs.Keys && k.1 == aoid && Matching(orders, t.subs[k]) != map[] :: k.0
  }

  /** The alerts for those players. */
  function AlertsFor(t: Tables, aoid: int, itemName: string, orders: map<string, NewOrder>): map<string, Alert> {
    map p | p in Notified(t, aoid, orders) && (p, aoid) in t.subs ::
      Alert(itemName, aoid, Matching(orders, t.subs[(p, aoid)]))
  }

  /** At most one value appended to each player's list. */
  function Append<V>(lists: map<string, seq<V>>, last: map<string, V>): map<string, seq<V>> {
    map p | p in lists.Keys + last.Keys ::
      (if p in lists then lists[p] else []) + (if p in last then [last[p]] else [])
  }

  /** Alerts told to the players that are online and queued for the others. */
  function Send(w: World, alerts: map<string, Alert>, now: int, online: set<string>): (v: World)
    ensures v.db == w.db.(pending := v.db.pending)
  {
    World(
      w.db.(pending := Append(w.db.pending, map p | p in alerts && p !in online :: Pending(alerts[p], now))),
      Append(w.told, map p | p in alerts && p in online :: alerts[p]))
  }

  /** Those of the alerts that go to some players. */
  function Only(alerts: map<string, Alert>, players: set<string>): map<string, Alert> {
    map p | p in alerts && p in players :: alerts[p]
  }

  /** `notify_subscribers`: one alert a notified subscription, for the players reached
      before a chat callback raised. */
  function Notify(w: World, aoid: int, itemName: string, orders: map<string, NewOrder>, now: int, online: set<string>,
                  reached: set<string>): (v: World)
    ensures v.db == w.db.(pending := v.db.pending)
  {
    Send(w, Only(AlertsFor(w.db, aoid, itemName, orders), reached), now, online)
  }

  /** The orders reported at a successful fetch: none when no orders were seen before. */
  function Reported(t: Tables, aoid: int, book: Book): set<string> {
    if SeenOf(t, aoid) == {} then {} else Fingerprints(book) - SeenOf(t, aoid)
  }

  function NewOrders(book: Book, reported: set<string>): map<string, NewOrder> {
    map fp | fp in reported && fp in FingerprintMap(book) :: FingerprintMap(book)[fp]
  }

  /** What the fetch of one item brought, who was online while its alerts went out, and the
      players whose alert was told or queued. A chat callback that raises ends the loop
      over the subscribers, so that some are not reached. */
  datatype Fetch = Fetch(book: Option<Book>, online: set<string>, reached: set<string>)

  /** The players to alert when a book has been fetched. */
  function ToNotify(t: Tables, aoid: int, book: Book): set<string> {
    Notified(t, aoid, NewOrders(book, Reported(t, aoid, book)))
  }

  /** A callback raised: somebody to alert was not reached. */
  predicate Interrupted(t: Tables, aoid: int, fetch: Fetch) {
    match fetch.book
    case None => false
    case Some(book) => !(ToNotify(t, aoid, book) <= fetch.reached)
  }

  /** `_detect_new_orders`; the exception of a callback leaves the seen orders alone. */
  function Detect(w: World, aoid: int, itemName: string, now: int, fetch: Fetch): (v: World)
    requires fetch.book.Some?
    ensures v.db == w.db.(pending := v.db.pending, seen := v.db.seen)
  {
    var book := fetch.book.value;
    var reported := Reported(w.db, aoid, book);
    var told := if reported == {} then w
      else Notify(w, aoid, itemName, NewOrders(book, reported), now, fetch.online, fetch.reached);
    if Interrupted(w.db, aoid, fetch) then told else told.(db := ReplaceSeen(told.db, aoid, Fingerprints(book)))
  }

  /** One round of the loop in `poll_market`, up to its end or the exception of a callback. */
  function PollItem(w: World, aoid: int, now: int, fetch: Fetch): (v: World)
    requires aoid in w.db.watch
    ensures v.db == w.db.(pending := v.db.pending, seen := v.db.seen, history := v.db.history, nextId := v.db.nextId,
      watch := v.db.watch)
    ensures v.db.watch == if Interrupted(w.db, aoid, fetch) then w.db.watch
                          else w.db.watch[aoid := w.db.watch[aoid].(lastPolled := At(now))]
  {
    var w1 := if fetch.book == None then w
      else Detect(w.(db := AddSnapshot(w.db, aoid, now)), aoid, w.db.watch[aoid].item.name, now, fetch);
    if Interrupted(w.db, aoid, fetch) then w1 else w1.(db := Polled(w1.db, aoid, now))
  }

  /** What a poll has done, and whether it is still going. */
  datatype Cycle = Cycle(w: World, ok: bool)

  /** The loop of `poll_market`: an exception ends it. */
  function PollItems(w: World, due: seq<int>, now: int, fetches: seq<Fetch>): (c: Cycle)
    requires |fetches| == |due| && forall i | 0 <= i < |due| :: due[i] in w.db.watch
    ensures c.w.db.watch.Keys == w.db.watch.Keys
  {
    if due == [] then Cycle(w, true) else
      var n := |due| - 1;
      var before := PollItems(w, due[..n], now, fetches[..n]);
      if !before.ok then before
      else Cycle(PollItem(before.w, due[n], now, fetches[n]), !Interrupted(before.w.db, due[n], fetches[n]))
  }

  /** The tables a poll selects its batch from: stale items expired, old history pruned. */
  function Cleaned(t: Tables, now: int, settings: PollSettings): (u: Tables)
    ensures u == t.(watch := u.watch, subs := u.subs, history := u.history)
  {
    var expired := DropWatches(t, Stale(t, now - settings.expireDays * DAY));
    Prune(expired, now - settings.retentionDays * DAY)
  }

  function PollCutoff(now: int, settings: PollSettings): int {
    now - settings.intervalMinutes * MINUTE
  }

  // ---- pending alerts ----

  function InsertByTime(p: Pending, sorted: seq<Pending>): (rows: seq<Pending>)
    ensures |rows| == |sorted| + 1
  {
    if sorted == [] || p.createdAt < sorted[0].createdAt then [p] + sorted
    else [sorted[0]] + InsertByTime(p, sorted[1..])
  }

  /** ORDER BY created_at; rows with equal times keep their id order. */
  function ByTime(rows: seq<Pending>): (sorted: seq<Pending>)
    ensures |sorted| == |rows|
  {
    if rows == [] then [] else InsertByTime(rows[|rows| - 1], ByTime(rows[..|rows| - 1]))
  }

  function Alerts(rows: seq<Pending>): (a: seq<Alert>)
    ensures |a| == |rows|
  {
    seq(|rows|, i requires 0 <= i < |rows| => rows[i].alert)
  }

  /** Alerts told to a player, one after the other. */
  function Tell(told: map<string, seq<Alert>>, player: string, alerts: seq<Alert>): map<string, seq<Alert>> {
    if alerts == [] then told else told[player := (if player in told then told[player] else []) + alerts]
  }

  // ---- the operations of the service ----

  /** The operations, with what the chat callbacks did where that matters: `tells` of a
      delivery return before one raises, and `done` upserts of a resync are committed
      before an announcement raises. A raising announcement leaves the other operations
      as they are, or cuts `subscribe` short to a `WatchItem`. */

  datatype Event =
    | Register(player: string)
    | Unregister(player: string)
    | WatchItem(aoid: int, item: Item, auto: bool, now: int)
    | DeleteWatch(aoid: int)
    | UntrackAll
    | Subscribe(player: string, aoid: int, found: Option<Item>, limit: int, now: int)
    | Unsubscribe(player: string, aoid: int)
    | UnsubscribeAll(player: string)
    | SetPrice(player: string, aoid: int, range: Option<Parsing.Range>)
    | SetQl(player: string, aoid: int, range: Option<Parsing.Range>)
    | ClearFilter(player: string, aoid: int)
    | Poll(now: int, settings: PollSettings, due: seq<int>, fetches: seq<Fetch>)
    | Deliver(player: string, tells: nat)
    | Resync(resolved: seq<(int, Item)>, now: int, done: nat)
    | GenerateKey(player: string, keyHash: string, prefix: string)
    | RevokeKeys(player: string)

  /** What the environment may present: parsed ranges are ordered, a poll takes a
      proper batch, a resync resolves each item once. */
  ghost predicate Enabled(w: World, e: Event) {
    match e
    case SetPrice(_, _, range) => range.Some? ==> Parsing.Ordered(range.value)
    case SetQl(_, _, range) => range.Some? ==> Parsing.Ordered(range.value)
    case Poll(now, settings, due, fetches) =>
      && |fetches| == |due|
      && IsBatch(Cleaned(w.db, now, settings), PollCutoff(now, settings), settings.batchSize, due)
    case Resync(resolved, _, done) =>
      done <= |resolved| && forall i, j | 0 <= i < j < |resolved| :: resolved[i].0 != resolved[j].0
    case _ => true
  }

  function ResolvedAoids(resolved: seq<(int, Item)>): set<int> {
    set i | 0 <= i < |resolved| :: resolved[i].0
  }

  /** `unflag_autotrack_not_in`. */
  function Unflag(t: Tables, keep: set<int>): (u: Tables)
    ensures u == t.(watch := u.watch)
  {
    t.(watch := map a | a in t.watch ::
         if a in keep then t.watch[a] else t.watch[a].(autoTracked := false))
  }

  function UpsertAll(t: Tables, resolved: seq<(int, Item)>, now: int): (u: Tables)
    ensures u == t.(watch := u.watch)
  {
    if resolved == [] then t else
      var n := |resolved| - 1;
      UpsertWatch(UpsertAll(t, resolved[..n], now), resolved[n].0, resolved[n].1, true, now)
  }

  function SubscribeTo(t: Tables, player: string, aoid: int, item: Option<Item>, limit: int, now: int): (u: Tables)
    ensures u == t.(watch := u.watch, subs := u.subs, actions := u.actions, nextId := u.nextId)
  {
    if item == None then t
    else if player !in t.isAdmin then LogAction(t, player, "watch_denied", Some(aoid))
    else if (player, aoid) in t.subs || |SubscribedBy(t, player)| >= limit then t
    else
      var t1 := UpsertWatch(t, aoid, item.value, false, now);
      LogAction(t1.(subs := t1.subs[(player, aoid) := OPEN]), player, "watch", Some(aoid))
  }

  function NewKey(t: Tables, player: string, keyHash: string, prefix: string): (u: Tables)
    ensures u == t.(isAdmin := u.isAdmin, keys := u.keys, nextId := u.nextId)
  {
    var t1 := RevokeAll(if player in t.isAdmin then t else AddUser(t, player), player);
    if HashTaken(t1, keyHash) then t1
    else t1.(keys := t1.keys[t1.nextId := ApiKey(player, keyHash, prefix, false)], nextId := t1.nextId + 1)
  }

  ghost function Apply(w: World, e: Event): World
    requires Enabled(w, e)
  {
    var t := w.db;
    match e
    case Register(p) =>
      if p in t.isAdmin then w else w.(db := LogAction(AddUser(t, p), p, "register", None))
    case Unregister(p) =>
      if p in t.isAdmin then w.(db := DropUser(t, p)) else w
    case WatchItem(a, item, auto, now) => w.(db := UpsertWatch(t, a, item, auto, now))
    case DeleteWatch(a) => w.(db := DropWatches(t, {a}))
    case UntrackAll => w.(db := DropWatches(t, t.watch.Keys))
    case Subscribe(p, a, item, limit, now) => w.(db := SubscribeTo(t, p, a, item, limit, now))
    case Unsubscribe(p, a) => w.(db := LogAction(DropSubscriptions(t, {(p, a)}), p, "unwatch", Some(a)))
    case UnsubscribeAll(p) =>
      w.(db := LogAction(DropSubscriptions(t, set k | k in t.subs.Keys && k.0 == p), p, "unwatch_all", None))
    case SetPrice(p, a, range) =>
      if (p, a) !in t.subs || range == None then w else
        w.(db := t.(subs := t.subs[(p, a) := t.subs[(p, a)].(minPrice := range.value.lo, maxPrice := range.value.hi)]))
    case SetQl(p, a, range) =>
      if (p, a) !in t.subs || range == None then w else
        w.(db := t.(subs := t.subs[(p, a) := t.subs[(p, a)].(minQl := range.value.lo, maxQl := range.value.hi)]))
    case ClearFilter(p, a) =>
      if (p, a) !in t.subs then w else w.(db := t.(subs := t.subs[(p, a) := OPEN]))
    case Poll(now, settings, due, fetches) =>
      PollItems(w.(db := Cleaned(t, now, settings)), due, now, fetches).w
    case Deliver(p, tells) =>
      if PendingOf(t, p) == [] then w else
        World(t.(pending := t.pending - {p}), Tell(w.told, p, First(Alerts(ByTime(PendingOf(t, p))), tells)))
    case Resync(resolved, now, done) =>
      w.(db := UpsertAll(Unflag(t, ResolvedAoids(resolved)), resolved[..done], now))
    case GenerateKey(p, keyHash, prefix) => w.(db := NewKey(t, p, keyHash, prefix))
    case RevokeKeys(p) => w.(db := RevokeAll(t, p))
  }

  /** A poll expires and prunes, then works through a batch of what is left. */
  lemma ApplyPoll(w: World, e: Event)
    requires Enabled(w, e) && e.Poll?
    ensures
      var cleaned := w.(db := Cleaned(w.db, e.now, e.settings));
      && |e.fetches| == |e.due|
      && IsBatch(cleaned.db, PollCutoff(e.now, e.settings), e.settings.batchSize, e.due)
      && (forall i | 0 <= i < |e.due| :: e.due[i] in cleaned.db.watch)
      && Apply(w, e) == PollItems(cleaned, e.due, e.now, e.fetches).w
  {
    hide PollItems, Cleaned;
  }

  // ---- runs ----

  ghost predicate IsRun(w: World, es: seq<Event>)
    decreases |es|, 0
  {
    es == [] || (IsRun(w, es[..|es| - 1]) && Enabled(After(w, es[..|es| - 1]), es[|es| - 1]))
  }

  ghost function After(w: World, es: seq<Event>): World
    requires IsRun(w, es)
    decreases |es|, 1
  {
    if es == [] then w else Apply(After(w, es[..|es| - 1]), es[|es| - 1])
  }

  /** Every part of a run up to some operation is a run, and the operation continues it. */
  lemma {:induction false} RunPrefix(w: World, es: seq<Event>, k: nat)
    requires IsRun(w, es) && k <= |es|
    ensures IsRun(w, es[..k])
    ensures k < |es| ==> Enabled(After(w, es[..k]), es[k])
    decreases |es|
  {
    hide Apply, Enabled;
    if k == |es| {
      assert es[..k] == es;
    } else {
      var front := es[..|es| - 1];
      RunPrefix(w, front, k);
      assert front[..k] == es[..k] && (k < |front| ==> front[k] == es[k]);
      assert k == |front| ==> es[..k] == front;
    }
  }

  /** The world before the k-th operation of a run. */
  ghost function StateAt(w: World, es: seq<Event>, k: nat): World
    requires IsRun(w, es) && k <= |es|
  {
    RunPrefix(w, es, k);
    After(w, es[..k])
  }

  lemma StateNext(w: World, es: seq<Event>, k: nat)
    requires IsRun(w, es) && k < |es|
    ensures Enabled(StateAt(w, es, k), es[k])
    ensures StateAt(w, es, k + 1) == Apply(StateAt(w, es, k), es[k])
    ensures StateAt(w, es, 0) == w && StateAt(w, es, |es|) == After(w, es)
  {
    hide Apply, Enabled;
    RunPrefix(w, es, k);
    RunPrefix(w, es, k + 1);
    assert es[..k + 1][..k] == es[..k] && es[..|es|] == es;
  }
}
