/** `db/market_repo.py` and `db/api_key_repo.py`: the tables as fields, changed in
    place. An insert that breaks a constraint fails and leaves the tables alone. */
module MarketRepo {
  import opened Wrappers
  import opened Orders
  import opened MarketState

  class Repo {
    var isAdmin: map<string, bool>
    var watch: map<int, Watch>
    var subs: map<(string, int), Filter>
    var seen: set<(int, string)>
    var pending: map<string, seq<Pending>>
    var actions: map<nat, Action>
    var history: map<nat, Snapshot>
    var keys: map<nat, ApiKey>
    var nextId: nat

    ghost function Db(): Tables
      reads this
    {
      Tables(isAdmin, watch, subs, seen, pending, actions, history, keys, nextId)
    }

    constructor ()
      ensures Db() == Tables(map[], map[], map[], {}, map[], map[], map[], map[], 0)
    {
      isAdmin, watch, subs, seen, pending := map[], map[], map[], {}, map[];
      actions, history, keys, nextId := map[], map[], map[], 0;
    }

    /** A new user is no administrator. */
    method Register(player: string)
      modifies this`isAdmin
      ensures Db() == AddUser(old(Db()), player)
      ensures isAdmin == old(isAdmin)[player := false]
    {
      isAdmin := isAdmin[player := false];
    }

    /** `unregister_cascade`: the count of subscriptions removed is read first. */
    method UnregisterCascade(player: string) returns (removed: nat)
      modifies this`isAdmin, this`subs, this`pending, this`actions, this`keys
      ensures Db() == DropUser(old(Db()), player)
      ensures removed == |SubscribedBy(old(Db()), player)| == |set k | k in old(subs) && k.0 == player|
      ensures isAdmin == old(isAdmin) - {player} && pending == old(pending) - {player}
      ensures forall k :: k in subs <==> k in old(subs) && k.0 != player
      ensures forall k | k in subs :: subs[k] == old(subs)[k]
      ensures forall id :: id in actions <==> id in old(actions) && old(actions)[id].player != player
      ensures forall id | id in actions :: actions[id] == old(actions)[id]
      ensures forall id :: id in keys <==> id in old(keys) && old(keys)[id].player != player
      ensures forall id | id in keys :: keys[id] == old(keys)[id]
    {
      removed := CountSubscriptions(player);
      subs := map k | k in subs && k.0 != player :: subs[k];
      pending := pending - {player};
      actions := map id | id in actions && actions[id].player != player :: actions[id];
      isAdmin := isAdmin - {player};
      keys := map id | id in keys && keys[id].player != player :: keys[id];
    }

    method UpsertWatch(aoid: int, item: Item, auto: bool, now: int) returns (isNew: bool)
      modifies this`watch
      ensures Db() == MarketState.UpsertWatch(old(Db()), aoid, item, auto, now)
      ensures isNew == (aoid !in old(watch))
      ensures watch.Keys == old(watch).Keys + {aoid} && watch[aoid].item == item
      ensures isNew ==> watch[aoid].firstSeen == now && watch[aoid].lastPolled == NegInfinity
      ensures isNew ==> watch[aoid].autoTracked == auto
      ensures !isNew ==> watch[aoid].firstSeen == old(watch)[aoid].firstSeen
      ensures !isNew ==> watch[aoid].lastPolled == old(watch)[aoid].lastPolled
      ensures !isNew ==> (watch[aoid].autoTracked <==> auto || old(watch)[aoid].autoTracked)
      ensures forall a | a in old(watch) && a != aoid :: watch[a] == old(watch)[a]
    {
      isNew := aoid !in watch;
      if isNew {
        watch := watch[aoid := Watch(item, now, NegInfinity, auto)];
      } else {
        var row := watch[aoid].(item := item);
        if auto {
          row := row.(autoTracked := true);
        }
        watch := watch[aoid := row];
      }
    }

    /** DELETE on the watch table, with the cascades of its two foreign keys. */
    method DeleteWatches(gone: set<int>)
      modifies this`watch, this`subs, this`history
      ensures Db() == DropWatches(old(Db()), gone)
      ensures watch == old(watch) - gone
      ensures forall k :: k in subs <==> k in old(subs) && k.1 !in gone
      ensures forall k | k in subs :: subs[k] == old(subs)[k]
      ensures forall id :: id in history <==> id in old(history) && old(history)[id].aoid !in gone
      ensures forall id | id in history :: history[id] == old(history)[id]
    {
      watch := watch - gone;
      subs := map k | k in subs && k.1 !in gone :: subs[k];
      history := map id | id in history && history[id].aoid !in gone :: history[id];
    }

    method DeleteWatch(aoid: int) returns (deleted: bool)
      modifies this`watch, this`subs, this`history
      ensures deleted == (aoid in old(watch)) && Db() == DropWatches(old(Db()), {aoid})
      ensures watch == old(watch) - {aoid}
      ensures forall k :: k in subs <==> k in old(subs) && k.1 != aoid
      ensures forall k | k in subs :: subs[k] == old(subs)[k]
      ensures forall id :: id in history <==> id in old(history) && old(history)[id].aoid != aoid
      ensures forall id | id in history :: history[id] == old(history)[id]
    {
      deleted := aoid in watch;
      DeleteWatches({aoid});
    }

    method ExpireStaleWatch(cutoff: int) returns (expired: set<int>)
      modifies this`watch, this`subs, this`history
      ensures expired == Stale(old(Db()), cutoff) && Db() == DropWatches(old(Db()), expired)
      ensures expired == old(watch).Keys - watch.Keys
      ensures forall a | a in old(watch) ::
                var row := old(watch)[a];
                var polledBefore := row.lastPolled.At? ==> row.lastPolled.micros < cutoff;
                a in expired <==> !row.autoTracked && row.firstSeen < cutoff && polledBefore
      ensures watch == old(watch) - expired
      ensures forall k :: k in subs <==> k in old(subs) && k.1 !in expired
      ensures forall k | k in subs :: subs[k] == old(subs)[k]
      ensures forall id :: id in history <==> id in old(history) && old(history)[id].aoid !in expired
      ensures forall id | id in history :: history[id] == old(history)[id]
    {
      expired := set a | a in watch.Keys && !watch[a].autoTracked
                         && Before(watch[a].lastPolled, At(cutoff)) && watch[a].firstSeen < cutoff;
      if expired != {} {
        DeleteWatches(expired);
      } else {
        NothingDropped(Db());
      }
    }

    method PruneHistory(cutoff: int)
      modifies this`history
      ensures Db() == Prune(old(Db()), cutoff)
      ensures forall id :: id in history <==> id in old(history) && old(history)[id].ts >= cutoff
      ensures forall id | id in history :: history[id] == old(history)[id]
    {
      history := map id | id in history && history[id].ts >= cutoff :: history[id];
    }

    /** `due_for_poll`: ORDER BY last_polled LIMIT batch_size. */
    method DueForPoll(cutoff: int, batchSize: nat) returns (due: seq<int>)
      ensures IsBatch(Db(), cutoff, batchSize, due)
      ensures |due| <= batchSize && forall i, j | 0 <= i < j < |due| :: due[i] != due[j]
      ensures forall a | a in due :: a in watch && (watch[a].lastPolled.At? ==> watch[a].lastPolled.micros < cutoff)
      ensures forall a | a in watch && a !in due && (watch[a].lastPolled.At? ==> watch[a].lastPolled.micros < cutoff) ::
                |due| == batchSize
      ensures forall a, b | a in due && b in watch && b !in due && watch[a].lastPolled.At? ::
                watch[b].lastPolled.At? && watch[b].lastPolled.micros >= watch[a].lastPolled.micros
      ensures forall i, j | 0 <= i < j < |due| && watch[due[i]].lastPolled.At? ::
                watch[due[j]].lastPolled.At? && watch[due[j]].lastPolled.micros >= watch[due[i]].lastPolled.micros
    {
      due := [];
      var left := set a | a in watch.Keys && Before(watch[a].lastPolled, At(cutoff));
      while |due| < batchSize && left != {}
        invariant |due| <= batchSize
        invariant left <= watch.Keys && forall i | 0 <= i < |due| :: due[i] in watch
        invariant forall a :: IsDue(Db(), a, cutoff) <==> a in left || a in due
        invariant forall a | a in due :: a !in left
        invariant forall a, i | a in left && 0 <= i < |due| :: !Before(watch[a].lastPolled, watch[due[i]].lastPolled)
        invariant forall i, j | 0 <= i < j < |due| ::
          (due[i] != due[j] && !Before(watch[due[j]].lastPolled, watch[due[i]].lastPolled))
        decreases left
      {
        var next := Oldest(watch, left);
        due, left := due + [next], left - {next};
      }
    }

    method UpdateLastPolled(aoid: int, now: int)
      modifies this`watch
      ensures Db() == Polled(old(Db()), aoid, now)
      ensures watch == if aoid in old(watch) then old(watch)[aoid := old(watch)[aoid].(lastPolled := At(now))]
                       else old(watch)
    {
      if aoid in watch {
        watch := watch[aoid := watch[aoid].(lastPolled := At(now))];
      }
    }

    method UnflagAutotrackNotIn(keep: set<int>)
      modifies this`watch
      ensures Db() == Unflag(old(Db()), keep)
      ensures watch.Keys == old(watch).Keys
      ensures forall a | a in watch ::
                watch[a] == old(watch)[a].(autoTracked := old(watch)[a].autoTracked && a in keep)
    {
      watch := map a | a in watch :: if a in keep then watch[a] else watch[a].(autoTracked := false);
    }

    method ExistingAoids(aoids: set<int>) returns (existing: set<int>)
      ensures existing == aoids * watch.Keys
    {
      existing := set a | a in aoids && a in watch;
    }

    /** `insert_snapshot`; false where the foreign key is violated. */
    method InsertSnapshot(aoid: int, now: int) returns (ok: bool)
      modifies this`history, this`nextId
      ensures ok == (aoid in old(watch))
      ensures Db() == if ok then AddSnapshot(old(Db()), aoid, now) else old(Db())
      ensures history == if ok then old(history)[old(nextId) := Snapshot(aoid, now)] else old(history)
      ensures nextId == if ok then old(nextId) + 1 else old(nextId)
    {
      ok := aoid in watch;
      if ok {
        history, nextId := history[nextId := Snapshot(aoid, now)], nextId + 1;
      }
    }

    method CountSubscriptions(player: string) returns (n: nat)
      ensures n == |SubscribedBy(Db(), player)| == |set k | k in subs && k.0 == player|
    {
      SubscriptionsOf(subs, player);
      var aoids := set k | k in subs.Keys && k.0 == player :: k.1;
      n := |aoids|;
    }

    /** `add_subscription`; false where a foreign key or the unique constraint is violated. */
    method AddSubscription(player: string, aoid: int) returns (ok: bool)
      modifies this`subs
      ensures ok == (player in old(isAdmin) && aoid in old(watch) && (player, aoid) !in old(subs))
      ensures Db() == if ok then old(Db()).(subs := old(subs)[(player, aoid) := OPEN]) else old(Db())
      ensures subs == if ok then old(subs)[(player, aoid) := Filter(None, None, None, None)] else old(subs)
    {
      ok := player in isAdmin && aoid in watch && (player, aoid) !in subs;
      if ok {
        subs := subs[(player, aoid) := OPEN];
      }
    }

    method DeleteSubscription(player: string, aoid: int) returns (deleted: bool)
      modifies this`subs
      ensures deleted == ((player, aoid) in old(subs))
      ensures Db() == DropSubscriptions(old(Db()), {(player, aoid)})
      ensures subs == old(subs) - {(player, aoid)}
    {
      deleted := (player, aoid) in subs;
      subs := subs - {(player, aoid)};
    }

    method DeleteAllSubscriptions(player: string) returns (count: nat)
      modifies this`subs
      ensures count == |SubscribedBy(old(Db()), player)| == |set k | k in old(subs) && k.0 == player|
      ensures Db() == DropSubscriptions(old(Db()), set k | k in old(subs).Keys && k.0 == player)
      ensures forall k :: k in subs <==> k in old(subs) && k.0 != player
      ensures forall k | k in subs :: subs[k] == old(subs)[k]
    {
      count := CountSubscriptions(player);
      subs := subs - set k | k in subs.Keys && k.0 == player;
    }

    method UpdateFilter(player: string, aoid: int, f: Filter)
      modifies this`subs
      ensures Db() == if (player, aoid) in old(subs) then old(Db()).(subs := old(subs)[(player, aoid) := f])
                      else old(Db())
      ensures subs == if (player, aoid) in old(subs) then old(subs)[(player, aoid) := f] else old(subs)
    {
      if (player, aoid) in subs {
        subs := subs[(player, aoid) := f];
      }
    }

    /** `subscribers_for_aoid`, in whatever order the database returns the rows. */
    method SubscribersFor(aoid: int) returns (players: seq<string>)
      ensures forall p :: p in players <==> (p, aoid) in subs
      ensures forall i, j | 0 <= i < j < |players| :: players[i] != players[j]
    {
      players := [];
      var left := set k | k in subs.Keys && k.1 == aoid :: k.0;
      forall p
        ensures p in left <==> (p, aoid) in subs
      {
        assert (p, aoid) in subs ==> (p, aoid).0 in left;
      }
      while left != {}
        invariant forall p :: (p in players || p in left) <==> (p, aoid) in subs
        invariant forall p | p in players :: p !in left
        invariant forall i, j | 0 <= i < j < |players| :: players[i] != players[j]
        decreases left
      {
        var p := Take(left);
        players, left := players + [p], left - {p};
      }
    }

    method GetSeenFingerprints(aoid: int) returns (fingerprints: set<string>)
      ensures fingerprints == SeenOf(Db(), aoid) && forall fp :: fp in fingerprints <==> (aoid, fp) in seen
    {
      fingerprints := set row | row in seen && row.0 == aoid :: row.1;
    }

    method ReplaceSeenFingerprints(aoid: int, fingerprints: set<string>)
      modifies this`seen
      ensures Db() == ReplaceSeen(old(Db()), aoid, fingerprints)
      ensures forall row :: row in seen <==> if row.0 == aoid then row.1 in fingerprints else row in old(seen)
    {
      seen := set row | row in seen && row.0 != aoid;
      seen := seen + set fp | fp in fingerprints :: (aoid, fp);
    }

    method QueuePendingAlert(player: string, alert: Alert, now: int)
      modifies this`pending
      ensures pending == old(pending)[player :=
                (if player in old(pending) then old(pending)[player] else []) + [Pending(alert, now)]]
      ensures
        var rows := PendingOf(old(Db()), player) + [Pending(alert, now)];
        Db() == old(Db()).(pending := old(pending)[player := rows])
    {
      var rows := if player in pending then pending[player] else [];
      pending := pending[player := rows + [Pending(alert, now)]];
    }

    method PopPendingAlerts(player: string) returns (alerts: seq<Alert>)
      modifies this`pending
      ensures alerts == Alerts(ByTime(PendingOf(old(Db()), player)))
      ensures Db() == if alerts == [] then old(Db()) else old(Db()).(pending := old(pending) - {player})
      ensures |alerts| == if player in old(pending) then |old(pending)[player]| else 0
      ensures pending == if alerts == [] then old(pending) else old(pending) - {player}
    {
      var rows := if player in pending then pending[player] else [];
      alerts := Alerts(ByTime(rows));
      if alerts != [] {
        pending := pending - {player};
      }
    }

    method LogAction(player: string, action: string, aoid: Option<int>)
      modifies this`actions, this`nextId
      ensures Db() == MarketState.LogAction(old(Db()), player, action, aoid)
      ensures actions == old(actions)[old(nextId) := Action(player, action, aoid)] && nextId == old(nextId) + 1
    {
      actions, nextId := actions[nextId := Action(player, action, aoid)], nextId + 1;
    }

    /** `create` of the key table; false where the hash is taken or the player is unknown. */
    method CreateKey(player: string, keyHash: string, prefix: string) returns (ok: bool)
      modifies this`keys, this`nextId
      ensures ok == (player in old(isAdmin) && !HashTaken(old(Db()), keyHash))
      ensures ok == (player in old(isAdmin) && forall id | id in old(keys) :: old(keys)[id].keyHash != keyHash)
      ensures keys == if ok then old(keys)[old(nextId) := ApiKey(player, keyHash, prefix, false)] else old(keys)
      ensures Db() == if ok then old(Db()).(keys := old(keys)[old(nextId) := ApiKey(player, keyHash, prefix, false)],
                                            nextId := old(nextId) + 1)
                      else old(Db())
    {
      ok := player in isAdmin && !exists id :: id in keys && keys[id].keyHash == keyHash;
      if ok {
        keys, nextId := keys[nextId := ApiKey(player, keyHash, prefix, false)], nextId + 1;
      }
    }

    method RevokeAllForPlayer(player: string) returns (count: nat)
      modifies this`keys
      ensures count == |ActiveKeys(old(Db()), player)| && Db() == RevokeAll(old(Db()), player)
      ensures count == |set id | id in old(keys) && old(keys)[id].player == player && !old(keys)[id].revoked|
      ensures keys.Keys == old(keys).Keys
      ensures forall id | id in keys ::
                keys[id] == old(keys)[id].(revoked := old(keys)[id].revoked || old(keys)[id].player == player)
    {
      var active := set id | id in keys && keys[id].player == player && !keys[id].revoked;
      assert active == ActiveKeys(Db(), player);
      count := |active|;
      keys := map id | id in keys ::
        if keys[id].player == player then keys[id].(revoked := true) else keys[id];
    }

    /** `get_by_hash`: the active row with this hash. */
    method GetByHash(keyHash: string) returns (key: Option<ApiKey>)
      requires KeysValid(Db())
      ensures key.Some? <==> exists id :: id in keys && keys[id].keyHash == keyHash && !keys[id].revoked
      ensures key.Some? ==> key.value.keyHash == keyHash && !key.value.revoked
      ensures key.Some? ==> exists id :: id in keys && keys[id] == key.value
    {
      if id :| id in keys && keys[id].keyHash == keyHash && !keys[id].revoked {
        key := Some(keys[id]);
      } else {
        key := None;
      }
    }
  }

  /** A player's subscriptions are as many as the items subscribed to. */
  lemma SubscriptionsOf(subs: map<(string, int), Filter>, player: string)
    ensures |set k | k in subs && k.0 == player| == |set k | k in subs.Keys && k.0 == player :: k.1|
  {
    var rows := set k | k in subs && k.0 == player;
    var aoids := set k | k in subs.Keys && k.0 == player :: k.1;
    PairsSize(player, rows, aoids) by {
      assert forall a :: a in aoids <==> (player, a) in rows;
    }
  }

  lemma {:induction false} PairsSize<A>(player: string, rows: set<(string, A)>, aoids: set<A>)
    requires forall k | k in rows :: k.0 == player
    requires forall a :: a in aoids <==> (player, a) in rows
    ensures |rows| == |aoids|
    decreases |rows|
  {
    if rows != {} {
      var k :| k in rows;
      assert k == (player, k.1);
      PairsSize(player, rows - {k}, aoids - {k.1});
    } else {
      assert forall a :: (player, a) !in rows;
    }
  }

  lemma NothingDropped(t: Tables)
    ensures DropWatches(t, {}) == t
  {
    var u := DropWatches(t, {});
    assert u.watch == t.watch && u.subs == t.subs && u.history == t.history;
  }

  /** Some element of a set: the order in which rows come out of a table is open. */
  method Take<T(==)>(s: set<T>) returns (x: T)
    requires s != {}
    ensures x in s
  {
    x :| x in s;
  }

  /** A row with the least poll time among some rows; which one, where times are equal,
      is left open. */
  method Oldest<K(==)>(watch: map<K, Watch>, among: set<K>) returns (a: K)
    requires among != {} && among <= watch.Keys
    ensures a in among && forall b | b in among :: !Before(watch[b].lastPolled, watch[a].lastPolled)
  {
    a :| a in among;
    var todo := among - {a};
    while todo != {}
      invariant a in among && todo <= among
      invariant forall b | b in among && b !in todo :: !Before(watch[b].lastPolled, watch[a].lastPolled)
      decreases todo
    {
      var b :| b in todo;
      todo := todo - {b};
      if Before(watch[b].lastPolled, watch[a].lastPolled) {
        a := b;
      }
    }
  }
}
