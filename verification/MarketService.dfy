/** `market/service.py`: the operations of the service, each proved against the
    function on the tables that `MarketState` gives for it. */
module MarketService {
  import opened Collections
  import opened Wrappers
  import opened Orders
  import S = MarketState
  import Parsing
  import Reachable
  import Alerting
  import Fairness
  import R = MarketRepo

  /** The exceptions of `market/errors.py`, the database's own, and whatever a chat callback
      or the item lookup of an announcement raises. */
  datatype Error =
    | UnknownItem | AlreadyRegistered | NotRegistered | AlreadyWatching | NotWatching
    | SubscriptionLimit(limit: int) | InvalidRange | IntegrityError | ChatError

  datatype PollSummary = PollSummary(dueCount: nat, updatedCount: nat, expiredCount: nat)

  /** The chat while the alerts of one item go out: who is online, and for whom a callback
      raises. */
  datatype Chat = Chat(online: set<string>, raises: set<string>)

  // ---- the loop of `notify_subscribers` ----

  lemma AppendNone<V>(lists: map<string, seq<V>>)
    ensures S.Append(lists, map[]) == lists
  {
    assert forall p | p in lists :: lists[p] + [] == lists[p];
  }

  lemma AppendOne<V>(lists: map<string, seq<V>>, last: map<string, V>, player: string, v: V)
    requires player !in last
    ensures
      var before := S.Append(lists, last);
      S.Append(lists, last[player := v]) == before[player := (if player in before then before[player] else []) + [v]]
  {
    var before := S.Append(lists, last);
    assert player in lists ==> before[player] == lists[player] + [] == lists[player];
  }

  lemma SendNone(w: S.World, now: int, online: set<string>)
    ensures S.Send(w, map[], now, online) == w
  {
    AppendNone(w.told);
    AppendNone(w.db.pending);
  }

  /** One round of the loop: one more alert told or queued. */
  lemma SendOne(w: S.World, sent: map<string, S.Alert>, now: int, online: set<string>, player: string, alert: S.Alert)
    requires player !in sent
    ensures
      var before := S.Send(w, sent, now, online);
      S.Send(w, sent[player := alert], now, online) ==
        if player in online then before.(told := before.told[player := S.ToldTo(before, player) + [alert]])
        else before.(db := before.db.(pending :=
          before.db.pending[player := S.PendingOf(before.db, player) + [S.Pending(alert, now)]]))
  {
    hide S.Append;
    var told := map p | p in sent && p in online :: sent[p];
    var queued := map p | p in sent && p !in online :: S.Pending(sent[p], now);
    var told' := map p | p in sent[player := alert] && p in online :: sent[player := alert][p];
    var queued' := map p | p in sent[player := alert] && p !in online :: S.Pending(sent[player := alert][p], now);
    if player in online {
      assert told' == told[player := alert] && queued' == queued;
      AppendOne(w.told, told, player, alert);
    } else {
      assert told' == told && queued' == queued[player := S.Pending(alert, now)];
      AppendOne(w.db.pending, queued, player, S.Pending(alert, now));
    }
  }

  lemma AlertExact(t: S.Tables, aoid: int, itemName: string, orders: map<string, NewOrder>, player: string)
    requires (player, aoid) in t.subs
    ensures
      var alerts, matching := S.AlertsFor(t, aoid, itemName, orders), Matching(orders, t.subs[(player, aoid)]);
      && (player in alerts <==> matching != map[])
      && (player in alerts ==> alerts[player] == S.Alert(itemName, aoid, matching))
  {
    hide Matching;
    Alerting.NotifiedExact(t, aoid, orders, player);
  }

  lemma AlertKeys(t: S.Tables, aoid: int, itemName: string, orders: map<string, NewOrder>)
    ensures S.AlertsFor(t, aoid, itemName, orders).Keys == S.Notified(t, aoid, orders)
    ensures forall p | p in S.AlertsFor(t, aoid, itemName, orders) :: (p, aoid) in t.subs
    ensures |S.AlertsFor(t, aoid, itemName, orders)| == |S.Notified(t, aoid, orders)|
  {
    hide Matching;
    forall p | p in S.Notified(t, aoid, orders)
      ensures (p, aoid) in t.subs
    {
      Alerting.NotifiedExact(t, aoid, orders, p);
    }
    var alerts := S.AlertsFor(t, aoid, itemName, orders);
    assert alerts.Keys == S.Notified(t, aoid, orders);
  }

  lemma NobodyToNotify(t: S.Tables, aoid: int, book: Book)
    requires S.Reported(t, aoid, book) == {}
    ensures S.ToNotify(t, aoid, book) == {}
  {
    hide S.Reported, Matching, S.NewOrders, S.Notified;
    Alerting.NoNewOrders(book);
    forall p
      ensures p !in S.Notified(t, aoid, map[])
    {
      Alerting.NotifiedExact(t, aoid, map[], p);
      if (p, aoid) in t.subs {
        Alerting.NoneReportedNoneMatching(map[], t.subs[(p, aoid)]);
      }
    }
  }

  lemma {:induction false} StaysCut(w: S.World, due: seq<int>, now: int, fetches: seq<S.Fetch>, n: nat)
    requires |fetches| == |due| && forall i | 0 <= i < |due| :: due[i] in w.db.watch
    requires n <= |due| && !S.PollItems(w, due[..n], now, fetches[..n]).ok
    ensures S.PollItems(w, due, now, fetches) == S.PollItems(w, due[..n], now, fetches[..n])
    decreases |due|
  {
    hide S.PollItem, S.Interrupted;
    if n == |due| {
      assert due[..n] == due && fetches[..n] == fetches;
    } else {
      var m := |due| - 1;
      assert due[..m][..n] == due[..n] && fetches[..m][..n] == fetches[..n];
      StaysCut(w, due[..m], now, fetches[..m], n);
    }
  }

  lemma BatchIsWatched(t: S.Tables, cutoff: int, batchSize: nat, due: seq<int>)
    requires S.IsBatch(t, cutoff, batchSize, due)
    ensures forall i | 0 <= i < |due| :: due[i] in t.watch
    ensures forall i, j | 0 <= i < j < |due| :: due[i] != due[j]
  {}

  /** Some rows have the poll time of now, and nothing else about the rows has changed. */
  ghost predicate Stamped(before: map<int, S.Watch>, after: map<int, S.Watch>, done: seq<int>, now: int) {
    && after.Keys == before.Keys
    && forall a | a in after :: after[a] == if a in done then before[a].(lastPolled := S.At(now)) else before[a]
  }

  /** The rows a poll keeps: auto-tracked ones, and those with one of their two times within
      the expiry age. */
  lemma CleanedWatch(t: S.Tables, now: int, settings: S.PollSettings)
    ensures
      var u, age := S.Cleaned(t, now, settings), 86_400_000_000 * settings.expireDays;
      && (forall a | a in u.watch :: a in t.watch && u.watch[a] == t.watch[a])
      && forall a | a in t.watch ::
           var row := t.watch[a];
           a in u.watch <==> row.autoTracked || row.firstSeen + age >= now ||
                             (row.lastPolled.At? && row.lastPolled.micros + age >= now)
  {}

  lemma CleanedHistory(t: S.Tables, now: int, settings: S.PollSettings)
    ensures
      var u := S.Cleaned(t, now, settings);
      forall id | id in t.history ::
        id in u.history <==> t.history[id].ts + 86_400_000_000 * settings.retentionDays >= now &&
                             (t.history[id].aoid in u.watch || t.history[id].aoid !in t.watch)
  {}

  /** The batch of a poll, said of the rows as they were before it. */
  lemma BatchExact(t: S.Tables, now: int, settings: S.PollSettings, due: seq<int>)
    requires S.IsBatch(S.Cleaned(t, now, settings), S.PollCutoff(now, settings), settings.batchSize, due)
    ensures
      var u := S.Cleaned(t, now, settings);
      && |due| <= settings.batchSize && (forall i, j | 0 <= i < j < |due| :: due[i] != due[j])
      && (forall a | a in due :: a in u.watch && a in t.watch)
      && (forall a | a in due && a in t.watch && t.watch[a].lastPolled.At? ::
            t.watch[a].lastPolled.micros + 60_000_000 * settings.intervalMinutes < now)
      && (|due| < settings.batchSize ==> forall a | a in u.watch && a in t.watch && a !in due ::
            t.watch[a].lastPolled.At? && t.watch[a].lastPolled.micros + 60_000_000 * settings.intervalMinutes >= now)
  {
    CleanedWatch(t, now, settings);
    hide S.Cleaned;
  }

  /** Whoever is passed over was not polled before anyone in the batch. */
  lemma OldestFirst(t: S.Tables, now: int, settings: S.PollSettings, due: seq<int>)
    requires S.IsBatch(S.Cleaned(t, now, settings), S.PollCutoff(now, settings), settings.batchSize, due)
    ensures
      forall a, b | a in due && b in S.Cleaned(t, now, settings).watch && b !in due ::
        a in t.watch && b in t.watch && !S.Before(t.watch[b].lastPolled, t.watch[a].lastPolled)
  {
    CleanedWatch(t, now, settings);
    hide S.Cleaned;
    var u := S.Cleaned(t, now, settings);
    forall a, b | a in due && b in u.watch && b !in due
      ensures !S.Before(u.watch[b].lastPolled, u.watch[a].lastPolled)
    {
      var i :| 0 <= i < |due| && due[i] == a;
    }
  }

  /** The event of a poll: enabled, and its result is what the loop leaves. */
  lemma PolledExactly(w: S.World, now: int, settings: S.PollSettings, due: seq<int>, fetches: seq<S.Fetch>)
    requires |fetches| == |due|
    requires S.IsBatch(S.Cleaned(w.db, now, settings), S.PollCutoff(now, settings), settings.batchSize, due)
    ensures
      var e, cleaned := S.Poll(now, settings, due, fetches), w.(db := S.Cleaned(w.db, now, settings));
      && S.Enabled(w, e)
      && (forall i | 0 <= i < |due| :: due[i] in cleaned.db.watch)
      && S.Apply(w, e) == S.PollItems(cleaned, due, now, fetches).w
      && (Fairness.Completes(w, e) <==> S.PollItems(cleaned, due, now, fetches).ok)
  {
    hide S.PollItems, S.Cleaned;
  }

  /** The rows below some id are as before. */
  ghost predicate KeptBelow(before: map<nat, S.Snapshot>, after: map<nat, S.Snapshot>, id: nat) {
    forall i | i < id :: (i in after <==> i in before) && (i in after ==> after[i] == before[i])
  }

  /** A poll that ended at item k: a callback raised over it and over none before it, and
      only the items before it are stamped. */
  ghost predicate CutAt(t: S.Tables, after: map<int, S.Watch>, due: seq<int>, k: nat, now: int, fetches: seq<S.Fetch>)
    requires |fetches| == |due| && k < |due|
  {
    && Stamped(t.watch, after, due[..k], now)
    && S.Interrupted(t, due[k], fetches[k])
    && forall i | 0 <= i < k :: !S.Interrupted(t, due[i], fetches[i])
  }

  /** A poll stamps its items in turn: all of them when it completes, and else those before
      the first over which a callback raises. Rows of the history are only added. */
  lemma {:induction false} PollStamps(w: S.World, due: seq<int>, now: int, fetches: seq<S.Fetch>)
    requires |fetches| == |due| && forall i | 0 <= i < |due| :: due[i] in w.db.watch
    requires forall i, j | 0 <= i < j < |due| :: due[i] != due[j]
    ensures var c := S.PollItems(w, due, now, fetches);
      && KeptBelow(w.db.history, c.w.db.history, w.db.nextId) && c.w.db.nextId >= w.db.nextId
      && (c.ok ==> Stamped(w.db.watch, c.w.db.watch, due, now))
      && (!c.ok ==> exists k | 0 <= k < |due| :: CutAt(w.db, c.w.db.watch, due, k, now, fetches))
  {
    hide S.PollItem, S.Interrupted, Stamped, CutAt;
    if due == [] {
      NothingStamped(w.db.watch, now);
    } else {
      var n := |due| - 1;
      var before := S.PollItems(w, due[..n], now, fetches[..n]);
      PollStamps(w, due[..n], now, fetches[..n]);
      if before.ok {
        OneStamp(w, before.w, due, now, fetches);
      } else {
        var k :| 0 <= k < n && CutAt(w.db, before.w.db.watch, due[..n], k, now, fetches[..n]);
        CutEarlier(w.db, before.w.db.watch, due, k, now, fetches);
      }
    }
  }

  lemma NothingStamped(rows: map<int, S.Watch>, now: int)
    ensures Stamped(rows, rows, [], now)
  {}

  /** The last item of a batch, when the poll gets to it. */
  lemma OneStamp(w: S.World, before: S.World, due: seq<int>, now: int, fetches: seq<S.Fetch>)
    requires |fetches| == |due| > 0 && forall i | 0 <= i < |due| :: due[i] in w.db.watch
    requires forall i, j | 0 <= i < j < |due| :: due[i] != due[j]
    requires S.PollItems(w, due[..|due| - 1], now, fetches[..|due| - 1]) == S.Cycle(before, true)
    requires Stamped(w.db.watch, before.db.watch, due[..|due| - 1], now)
    requires KeptBelow(w.db.history, before.db.history, w.db.nextId) && before.db.nextId >= w.db.nextId
    ensures
      var n := |due| - 1;
      var after := S.PollItem(before, due[n], now, fetches[n]);
      && KeptBelow(w.db.history, after.db.history, w.db.nextId) && after.db.nextId >= w.db.nextId
      && (if S.Interrupted(before.db, due[n], fetches[n]) then CutAt(w.db, after.db.watch, due, n, now, fetches)
          else Stamped(w.db.watch, after.db.watch, due, now))
  {
    hide S.PollItems, S.PollItem, S.Interrupted, S.SeenOf;
    var n := |due| - 1;
    QuietBefore(w, due, now, fetches);
    OneSnapshot(before, due[n], now, fetches[n]);
    assert due == due[..n] + [due[n]];
  }

  /** No callback has raised over the items before the last one, and whether one does over
      the last one does not depend on them. */
  lemma QuietBefore(w: S.World, due: seq<int>, now: int, fetches: seq<S.Fetch>)
    requires |fetches| == |due| > 0 && forall i | 0 <= i < |due| :: due[i] in w.db.watch
    requires forall i, j | 0 <= i < j < |due| :: due[i] != due[j]
    requires S.PollItems(w, due[..|due| - 1], now, fetches[..|due| - 1]).ok
    ensures
      var n := |due| - 1;
      var before := S.PollItems(w, due[..n], now, fetches[..n]).w;
      && S.Interrupted(before.db, due[n], fetches[n]) == S.Interrupted(w.db, due[n], fetches[n])
      && forall i | 0 <= i < n :: !S.Interrupted(w.db, due[i], fetches[i])
  {
    hide S.PollItems, S.Interrupted, S.SeenOf;
    var n := |due| - 1;
    var before := S.PollItems(w, due[..n], now, fetches[..n]).w;
    Alerting.PollItemsSeen(w, due[..n], now, fetches[..n], due[n]);
    Alerting.NotInBatch(w, due[..n], now, fetches[..n], due[n]);
    Alerting.InterruptedSame(w.db, before.db, due[n], fetches[n]);
    Alerting.CompletesExactly(w, due[..n], now, fetches[..n]);
    assert forall i | 0 <= i < n :: due[..n][i] == due[i] && fetches[..n][i] == fetches[i];
  }

  lemma OneSnapshot(w: S.World, aoid: int, now: int, fetch: S.Fetch)
    requires aoid in w.db.watch
    ensures var v := S.PollItem(w, aoid, now, fetch);
      && v.db.history == (if fetch.book.Some? then w.db.history[w.db.nextId := S.Snapshot(aoid, now)] else w.db.history)
      && v.db.nextId == w.db.nextId + if fetch.book.Some? then 1 else 0
  {
    hide S.Detect, S.Interrupted, S.AddSnapshot, S.Polled;
    if fetch.book.Some? {
      var w0 := w.(db := S.AddSnapshot(w.db, aoid, now));
      var w1 := S.Detect(w0, aoid, w.db.watch[aoid].item.name, now, fetch);
      SnapshotRow(w.db, aoid, now);
      PolledRows(w1.db, aoid, now);
    } else {
      PolledRows(w.db, aoid, now);
    }
  }

  lemma SnapshotRow(t: S.Tables, aoid: int, now: int)
    ensures var u := S.AddSnapshot(t, aoid, now);
      u.history == t.history[t.nextId := S.Snapshot(aoid, now)] && u.nextId == t.nextId + 1
  {}

  lemma PolledRows(t: S.Tables, aoid: int, now: int)
    ensures var u := S.Polled(t, aoid, now);
      u.history == t.history && u.nextId == t.nextId
  {}

  lemma CutEarlier(t: S.Tables, after: map<int, S.Watch>, due: seq<int>, k: nat, now: int, fetches: seq<S.Fetch>)
    requires |fetches| == |due| && k < |due| - 1
    requires CutAt(t, after, due[..|due| - 1], k, now, fetches[..|due| - 1])
    ensures CutAt(t, after, due, k, now, fetches)
  {
    hide Stamped, S.Interrupted;
    assert due[..|due| - 1][..k] == due[..k];
    assert forall i | 0 <= i <= k :: due[..|due| - 1][i] == due[i] && fetches[..|due| - 1][i] == fetches[i];
  }

  /** The items whose fetch brought a book. */
  function Fetched(batch: seq<int>, gmi: int -> Option<Book>): (fetched: set<int>)
    ensures batch == [] ==> fetched == {}
  {
    set a | a in batch && gmi(a).Some?
  }

  lemma OneMoreFetched(batch: seq<int>, i: nat, gmi: int -> Option<Book>)
    requires i < |batch| && forall j, k | 0 <= j < k < |batch| :: batch[j] != batch[k]
    ensures |Fetched(batch[..i + 1], gmi)| == |Fetched(batch[..i], gmi)| + if gmi(batch[i]).Some? then 1 else 0
  {
    var before, after := Fetched(batch[..i], gmi), Fetched(batch[..i + 1], gmi);
    assert batch[..i + 1] == batch[..i] + [batch[i]];
    assert batch[i] !in batch[..i];
    assert after == if gmi(batch[i]).Some? then before + {batch[i]} else before;
  }

  lemma ExtendRun(w: S.World, es: seq<S.Event>, e: S.Event)
    requires S.IsRun(w, es) && S.Enabled(S.After(w, es), e)
    ensures S.IsRun(w, es + [e]) && S.After(w, es + [e]) == S.Apply(S.After(w, es), e)
  {
    hide S.Apply, S.Enabled;
    assert (es + [e])[..|es|] == es;
  }

  method Smallest(s: set<int>) returns (m: int)
    requires s != {}
    ensures m in s && forall x | x in s :: m <= x
  {
    m := R.Take(s);
    var todo := s - {m};
    while todo != {}
      invariant m in s && todo <= s && forall x | x in s && x !in todo :: m <= x
      decreases todo
    {
      var x := R.Take(todo);
      todo := todo - {x};
      if x < m {
        m := x;
      }
    }
  }

  /** The alerts sent once some players are done: theirs, and none for whom a callback raises. */
  ghost predicate SentSoFar(alerts: map<string, S.Alert>, done: set<string>, sent: map<string, S.Alert>,
        raises: set<string>) {
    && (forall p :: p in sent <==> p in alerts && p in done)
    && (forall p | p in sent :: sent[p] == alerts[p] && p !in raises)
  }

  lemma OneMoreDone(alerts: map<string, S.Alert>, done: set<string>, sent: map<string, S.Alert>, raises: set<string>,
        player: string)
    requires SentSoFar(alerts, done, sent, raises) && player !in done
    ensures player !in sent
    ensures player !in alerts ==> SentSoFar(alerts, done + {player}, sent, raises)
    ensures player in alerts && player !in raises ==>
              SentSoFar(alerts, done + {player}, sent[player := alerts[player]], raises)
    ensures S.Only(alerts, sent.Keys) == sent && sent.Keys <= alerts.Keys && sent.Keys !! raises
  {}

  lemma AllDone(alerts: map<string, S.Alert>, done: set<string>, sent: map<string, S.Alert>, raises: set<string>)
    requires SentSoFar(alerts, done, sent, raises) && forall p | p in alerts :: p in done
    ensures S.Only(alerts, sent.Keys) == sent && sent.Keys == alerts.Keys && sent.Keys !! raises
    ensures |sent.Keys| == |sent|
  {}

  /** Whatever is said of the fetches after a cut, they play no part. */
  lemma FillUp(w: S.World, batch: seq<int>, now: int, gmi: int -> Option<Book>, chat: int -> Chat, made: seq<S.Fetch>)
    returns (fetches: seq<S.Fetch>)
    requires |made| <= |batch| && forall i | 0 <= i < |batch| :: batch[i] in w.db.watch
    requires forall i | 0 <= i < |made| :: Fits(made[i], gmi(batch[i]), chat(batch[i]))
    requires !S.PollItems(w, batch[..|made|], now, made).ok
    ensures |fetches| == |batch| && forall i | 0 <= i < |batch| :: Fits(fetches[i], gmi(batch[i]), chat(batch[i]))
    ensures S.PollItems(w, batch, now, fetches) == S.PollItems(w, batch[..|made|], now, made)
  {
    hide S.PollItems;
    var n := |made|;
    var rest := seq(|batch| - n, j requires 0 <= j < |batch| - n =>
      S.Fetch(gmi(batch[n + j]), chat(batch[n + j]).online, {}));
    fetches := made + rest;
    assert fetches[..n] == made;
    StaysCut(w, batch, now, fetches, n);
  }

  lemma NothingPolled(w: S.World, batch: seq<int>, now: int)
    ensures S.PollItems(w, batch[..0], now, []) == S.Cycle(w, true)
  {}

  lemma NextItem(w: S.World, batch: seq<int>, now: int, made: seq<S.Fetch>, fetch: S.Fetch)
    requires |made| < |batch| && forall i | 0 <= i < |batch| :: batch[i] in w.db.watch
    ensures
      var n := |made|;
      var before := S.PollItems(w, batch[..n], now, made);
      before.ok ==> (S.PollItems(w, batch[..n + 1], now, made + [fetch]) ==
        S.Cycle(S.PollItem(before.w, batch[n], now, fetch), !S.Interrupted(before.w.db, batch[n], fetch)))
  {
    hide S.PollItem, S.Interrupted;
    var n := |made|;
    assert batch[..n + 1][..n] == batch[..n] && (made + [fetch])[..n] == made;
  }

  /** The snapshot plays no part in who is alerted. */
  lemma SnapshotAside(t: S.Tables, aoid: int, now: int, book: Book)
    ensures S.ToNotify(S.AddSnapshot(t, aoid, now), aoid, book) == S.ToNotify(t, aoid, book)
  {
    Alerting.SameSeen(t, S.AddSnapshot(t, aoid, now), aoid);
    hide S.SeenOf, S.NewOrders, Fingerprints;
  }

  /** The fetch the model uses is what came from outside, and nobody was reached for whom a
      callback raises. */
  ghost predicate Fits(fetch: S.Fetch, book: Option<Book>, chat: Chat) {
    fetch.book == book && fetch.online == chat.online && fetch.reached !! chat.raises
  }

  /** No callback raises for anyone to be alerted about an item of the batch. */
  predicate Quiet(t: S.Tables, batch: seq<int>, gmi: int -> Option<Book>, chat: int -> Chat) {
    forall i | 0 <= i < |batch| && gmi(batch[i]).Some? ::
      S.ToNotify(t, batch[i], gmi(batch[i]).value) !! chat(batch[i]).raises
  }

  lemma QuietSoFar(t: S.Tables, batch: seq<int>, gmi: int -> Option<Book>, chat: int -> Chat)
    ensures batch == [] ==> Quiet(t, batch, gmi, chat)
  {}

  lemma QuietNext(t: S.Tables, batch: seq<int>, gmi: int -> Option<Book>, chat: int -> Chat, i: nat)
    requires i < |batch| && Quiet(t, batch[..i], gmi, chat)
    ensures
      var next := gmi(batch[i]).Some? ==> S.ToNotify(t, batch[i], gmi(batch[i]).value) !! chat(batch[i]).raises;
      (Quiet(t, batch[..i + 1], gmi, chat) <==> next) && (!next ==> !Quiet(t, batch, gmi, chat))
  {
    hide S.ToNotify;
    assert forall j | 0 <= j < i :: batch[..i][j] == batch[j] == batch[..i + 1][j];
    assert batch[..i + 1][i] == batch[i];
  }

  /** Who is to be alerted about an item does not depend on the items polled before it. */
  lemma SameAlerts(w: S.World, batch: seq<int>, now: int, made: seq<S.Fetch>, book: Option<Book>)
    requires |made| < |batch| && forall i | 0 <= i < |batch| :: batch[i] in w.db.watch
    requires forall i, j | 0 <= i < j < |batch| :: batch[i] != batch[j]
    ensures
      var n := |made|;
      var before := S.PollItems(w, batch[..n], now, made);
      book.Some? ==> S.ToNotify(before.w.db, batch[n], book.value) == S.ToNotify(w.db, batch[n], book.value)
  {
    var n := |made|;
    Alerting.PollItemsSeen(w, batch[..n], now, made, batch[n]);
    Alerting.NotInBatch(w, batch[..n], now, made, batch[n]);
    hide S.PollItems, S.SeenOf, S.NewOrders, Fingerprints;
  }

  /** A bulk unsubscription on its way: some items done in ascending order, none of them
      raising, and larger ones left. */
  ghost predicate Underway(aoids: seq<int>, raises: int -> bool, order: seq<int>, left: set<int>) {
    && (forall i, j | 0 <= i < j < |order| :: order[i] < order[j])
    && (forall a :: a in aoids <==> a in left || a in order)
    && (forall a, b | a in order && b in left :: a < b)
    && (forall a | a in order :: !raises(a))
  }

  lemma OneMoreUnsubscribed(aoids: seq<int>, raises: int -> bool, order: seq<int>, left: set<int>, aoid: int)
    requires Underway(aoids, raises, order, left) && aoid in left && forall a | a in left :: aoid <= a
    ensures aoid !in order && aoid in aoids
    ensures !raises(aoid) ==> Underway(aoids, raises, order + [aoid], left - {aoid})
    ensures raises(aoid) ==>
      && (forall i, j | 0 <= i < j < |order + [aoid]| :: (order + [aoid])[i] < (order + [aoid])[j])
      && (forall a :: a in order + [aoid] <==> a in aoids && forall b | b in aoids && b < a :: !raises(b))
  {
    forall i | 0 <= i < |order|
      ensures order[i] < aoid
    {
      assert order[i] in order;
    }
  }

  lemma NothingUnsubscribed(aoids: seq<int>, raises: int -> bool, left: set<int>)
    requires forall a :: a in aoids <==> a in left
    ensures Underway(aoids, raises, [], left)
  {}

  lemma AllUnsubscribed(aoids: seq<int>, raises: int -> bool, order: seq<int>, left: set<int>)
    requires Underway(aoids, raises, order, left) && left == {}
    ensures forall i, j | 0 <= i < j < |order| :: order[i] < order[j]
    ensures forall a :: a in order <==> a in aoids && forall b | b in aoids && b < a :: !raises(b)
    ensures forall a :: a in aoids <==> a in order
    ensures forall a | a in aoids :: !raises(a)
  {}

  /** The single unsubscriptions of a player from some items. */
  function Unsubscriptions(player: string, aoids: seq<int>): seq<S.Event> {
    seq(|aoids|, i requires 0 <= i < |aoids| => S.Unsubscribe(player, aoids[i]))
  }

  lemma NoUnsubscriptions(w: S.World, player: string)
    ensures S.IsRun(w, Unsubscriptions(player, [])) && S.After(w, Unsubscriptions(player, [])) == w
  {}

  lemma NextUnsubscription(w: S.World, player: string, aoids: seq<int>, aoid: int)
    requires S.IsRun(w, Unsubscriptions(player, aoids))
    ensures
      var es := Unsubscriptions(player, aoids + [aoid]);
      var next := S.Unsubscribe(player, aoid);
      && S.Enabled(S.After(w, Unsubscriptions(player, aoids)), next)
      && S.IsRun(w, es) && S.After(w, es) == S.Apply(S.After(w, Unsubscriptions(player, aoids)), next)
  {
    hide S.Apply, S.IsRun, S.After;
    assert Unsubscriptions(player, aoids + [aoid]) == Unsubscriptions(player, aoids) + [S.Unsubscribe(player, aoid)];
    ExtendRun(w, Unsubscriptions(player, aoids), S.Unsubscribe(player, aoid));
  }

  class Service {
    const repo: R.Repo
    var told: map<string, seq<S.Alert>>

    /** The tables and the tells so far. */
    ghost function World(): S.World
      reads this, repo
    {
      S.World(repo.Db(), told)
    }

    constructor (repo: R.Repo)
      ensures this.repo == repo && told == map[]
    {
      this.repo := repo;
      told := map[];
    }

    /** The action table has n new rows, at most one, and is else as before. */
    ghost predicate Logged(actions: map<nat, S.Action>, nextId: nat, player: string, action: string, aoid: Option<int>,
          n: nat)
      reads repo
    {
      && repo.nextId == nextId + n
      && repo.actions == if n == 0 then actions else actions[nextId := S.Action(player, action, aoid)]
    }

    /** `raises` says, here and below, whether an announcement raises. */
    method Register(player: string, raises: bool) returns (r: Result<(), Error>)
      modifies repo`isAdmin, repo`actions, repo`nextId
      ensures World() == S.Apply(old(World()), S.Register(player))
      ensures repo.isAdmin == if player in old(repo.isAdmin) then old(repo.isAdmin)
                              else old(repo.isAdmin)[player := false]
      ensures Logged(old(repo.actions), old(repo.nextId), player, "register", None,
                if player in old(repo.isAdmin) then 0 else 1)
      ensures r == if player in old(repo.isAdmin) then Err(AlreadyRegistered)
                   else if raises then Err(ChatError) else Ok(())
    {
      if player in repo.isAdmin {
        return Err(AlreadyRegistered);
      }
      repo.Register(player);
      repo.LogAction(player, "register", None);
      return if raises then Err(ChatError) else Ok(());
    }

    method Unregister(player: string, raises: bool) returns (r: Result<nat, Error>)
      modifies repo`isAdmin, repo`subs, repo`pending, repo`actions, repo`keys
      ensures World() == S.Apply(old(World()), S.Unregister(player))
      ensures r == if player !in old(repo.isAdmin) then Err(NotRegistered) else if raises then Err(ChatError)
                   else Ok(|set k | k in old(repo.subs) && k.0 == player|)
      ensures repo.Db() == if player in old(repo.isAdmin) then S.DropUser(old(repo.Db()), player) else old(repo.Db())
      ensures player in old(repo.isAdmin) ==> Reachable.Forgotten(repo.Db(), player)
    {
      if player !in repo.isAdmin {
        return Err(NotRegistered);
      }
      var removed := repo.UnregisterCascade(player);
      return if raises then Err(ChatError) else Ok(removed);
    }

    /** The row is there also when its announcement raises. */
    method WatchItem(aoid: int, item: S.Item, auto: bool, now: int, raises: bool) returns (r: Result<bool, Error>)
      modifies repo`watch
      ensures World() == S.Apply(old(World()), S.WatchItem(aoid, item, auto, now))
      ensures repo.Db() == S.UpsertWatch(old(repo.Db()), aoid, item, auto, now)
      ensures r == if aoid in old(repo.watch) then Ok(false) else if raises then Err(ChatError) else Ok(true)
    {
      var isNew := repo.UpsertWatch(aoid, item, auto, now);
      return if isNew && raises then Err(ChatError) else Ok(isNew);
    }

    method UntrackAll() returns (count: nat)
      modifies repo`watch, repo`subs, repo`history
      ensures World() == S.Apply(old(World()), S.UntrackAll) && count == |old(repo.watch)|
      ensures repo.watch == map[] && repo.Db() == S.DropWatches(old(repo.Db()), old(repo.watch).Keys)
    {
      count := |repo.watch|;
      repo.DeleteWatches(repo.watch.Keys);
    }

    /** `subscribe`, uninterrupted by other calls; the insert never meets a violated
        constraint. When announcing a newly tracked item raises, the item stays tracked and
        nothing is subscribed. */
    method Subscribe(player: string, aoid: int, found: Option<S.Item>, limit: int, now: int, trackRaises: bool,
          logRaises: bool)
      returns (r: Result<S.Item, Error>)
      modifies repo`watch, repo`subs, repo`actions, repo`nextId
      ensures r ==
        if found == None then Err(UnknownItem)
        else if player !in old(repo.isAdmin) then if logRaises then Err(ChatError) else Err(NotRegistered)
        else if (player, aoid) in old(repo.subs) then Err(AlreadyWatching)
        else if |set k | k in old(repo.subs) && k.0 == player| >= limit then Err(SubscriptionLimit(limit))
        else if (aoid !in old(repo.watch) && trackRaises) || logRaises then Err(ChatError)
        else Ok(found.value)
      ensures
        var cut := found.Some? && player in old(repo.isAdmin) && (player, aoid) !in old(repo.subs) && trackRaises &&
                   |S.SubscribedBy(old(repo.Db()), player)| < limit && aoid !in old(repo.watch);
        World() == S.Apply(old(World()), if cut then S.WatchItem(aoid, found.value, false, now)
                                         else S.Subscribe(player, aoid, found, limit, now))
      ensures
        var denied := found.Some? && player !in old(repo.isAdmin);
        var passed := found.Some? && player in old(repo.isAdmin) && (player, aoid) !in old(repo.subs) &&
                      |set k | k in old(repo.subs) && k.0 == player| < limit;
        var subscribed := passed && (aoid in old(repo.watch) || !trackRaises);
        && repo.watch == (if passed then S.UpsertWatch(old(repo.Db()), aoid, found.value, false, now).watch
                          else old(repo.watch))
        && repo.subs == (if subscribed then old(repo.subs)[(player, aoid) := Filter(None, None, None, None)]
                         else old(repo.subs))
        && Logged(old(repo.actions), old(repo.nextId), player, if denied then "watch_denied" else "watch", Some(aoid),
             if denied || subscribed then 1 else 0)
    {
      if found == None {
        return Err(UnknownItem);
      }
      if player !in repo.isAdmin {
        repo.LogAction(player, "watch_denied", Some(aoid));
        return if logRaises then Err(ChatError) else Err(NotRegistered);
      }
      if (player, aoid) in repo.subs {
        return Err(AlreadyWatching);
      }
      var count := repo.CountSubscriptions(player);
      if count >= limit {
        return Err(SubscriptionLimit(limit));
      }
      var tracked := WatchItem(aoid, found.value, false, now, trackRaises);
      if tracked.Err? {
        return Err(tracked.error);
      }
      var ok := repo.AddSubscription(player, aoid);
      if !ok {
        return Err(IntegrityError);
      }
      repo.LogAction(player, "watch", Some(aoid));
      return if logRaises then Err(ChatError) else Ok(found.value);
    }

    method Unsubscribe(player: string, aoid: int, raises: bool) returns (r: Result<bool, Error>)
      modifies repo`subs, repo`actions, repo`nextId
      ensures World() == S.Apply(old(World()), S.Unsubscribe(player, aoid))
      ensures r == if raises then Err(ChatError) else Ok((player, aoid) in old(repo.subs))
      ensures repo.subs == old(repo.subs) - {(player, aoid)}
      ensures Logged(old(repo.actions), old(repo.nextId), player, "unwatch", Some(aoid), 1)
    {
      var deleted := repo.DeleteSubscription(player, aoid);
      repo.LogAction(player, "unwatch", Some(aoid));
      return if raises then Err(ChatError) else Ok(deleted);
    }

    /** `unsubscribe_bulk`: a run of single unsubscriptions in ascending order, each item
        once, up to the first whose announcement raises; the two results split the items by
        whether they were subscribed to. */
    method UnsubscribeBulk(player: string, aoids: seq<int>, raises: int -> bool)
      returns (r: Result<(set<int>, set<int>), Error>, ghost order: seq<int>)
      modifies repo`subs, repo`actions, repo`nextId
      ensures forall i, j | 0 <= i < j < |order| :: order[i] < order[j]
      ensures forall a :: a in order <==> a in aoids && forall b | b in aoids && b < a :: !raises(b)
      ensures S.IsRun(old(World()), Unsubscriptions(player, order))
      ensures World() == S.After(old(World()), Unsubscriptions(player, order))
      ensures repo.nextId == old(repo.nextId) + |order|
      ensures r.Err? <==> exists a :: a in aoids && raises(a)
      ensures r.Err? ==> r.error == ChatError
      ensures r.Ok? ==> forall a :: a in r.value.0 <==> a in aoids && (player, a) in old(repo.subs)
      ensures r.Ok? ==> forall a :: a in r.value.1 <==> a in aoids && (player, a) !in old(repo.subs)
      ensures forall k :: k in repo.subs <==> k in old(repo.subs) && !(k.0 == player && k.1 in order)
    {
      hide *;
      var left := set a | a in aoids;
      var removed: set<int>, notWatched: set<int> := {}, {};
      order := [];
      NoUnsubscriptions(World(), player);
      NothingUnsubscribed(aoids, raises, left);
      while left != {}
        invariant S.IsRun(old(World()), Unsubscriptions(player, order))
        invariant World() == S.After(old(World()), Unsubscriptions(player, order))
        invariant repo.nextId == old(repo.nextId) + |order|
        invariant Underway(aoids, raises, order, left)
        invariant forall a :: a in removed <==> a in order && (player, a) in old(repo.subs)
        invariant forall a :: a in notWatched <==> a in order && (player, a) !in old(repo.subs)
        invariant forall k :: k in repo.subs <==> k in old(repo.subs) && !(k.0 == player && k.1 in order)
        decreases left
      {
        var aoid := Smallest(left);
        OneMoreUnsubscribed(aoids, raises, order, left, aoid);
        NextUnsubscription(old(World()), player, order, aoid);
        order := order + [aoid];
        var deleted := Unsubscribe(player, aoid, raises(aoid));
        if deleted.Err? {
          return Err(deleted.error), order;
        }
        left := left - {aoid};
        if deleted.value {
          removed := removed + {aoid};
        } else {
          notWatched := notWatched + {aoid};
        }
      }
      AllUnsubscribed(aoids, raises, order, left);
      return Ok((removed, notWatched)), order;
    }

    method UnsubscribeAll(player: string, raises: bool) returns (r: Result<nat, Error>)
      modifies repo`subs, repo`actions, repo`nextId
      ensures World() == S.Apply(old(World()), S.UnsubscribeAll(player))
      ensures r == if raises then Err(ChatError) else Ok(|set k | k in old(repo.subs) && k.0 == player|)
      ensures forall k :: k in repo.subs <==> k in old(repo.subs) && k.0 != player
      ensures forall k | k in repo.subs :: repo.subs[k] == old(repo.subs)[k]
      ensures Logged(old(repo.actions), old(repo.nextId), player, "unwatch_all", None, 1)
    {
      var count := repo.DeleteAllSubscriptions(player);
      repo.LogAction(player, "unwatch_all", None);
      return if raises then Err(ChatError) else Ok(count);
    }

    method SetPriceFilter(player: string, aoid: int, spec: string, parser: string -> Option<int>)
      returns (r: Result<(), Error>)
      modifies repo`subs
      ensures r.Err? ==> repo.subs == old(repo.subs)
      ensures r.Ok? ==> (player, aoid) in old(repo.subs) && repo.subs.Keys == old(repo.subs).Keys
      ensures r.Ok? ==> forall k | k in repo.subs && k != (player, aoid) :: repo.subs[k] == old(repo.subs)[k]
      ensures r.Ok? ==>
        var f, was := repo.subs[(player, aoid)], old(repo.subs)[(player, aoid)];
        && Parsing.ParseRange(spec, parser) == Some(Parsing.Range(f.minPrice, f.maxPrice))
        && f.minQl == was.minQl && f.maxQl == was.maxQl
      ensures S.Enabled(old(World()), S.SetPrice(player, aoid, Parsing.ParseRange(spec, parser)))
      ensures World() == S.Apply(old(World()), S.SetPrice(player, aoid, Parsing.ParseRange(spec, parser)))
      ensures r == if (player, aoid) !in old(repo.subs) then Err(NotWatching)
                   else if Parsing.ParseRange(spec, parser) == None then Err(InvalidRange) else Ok(())
    {
      if (player, aoid) !in repo.subs {
        return Err(NotWatching);
      }
      var parsed := Parsing.ParseRange(spec, parser);
      if parsed == None {
        return Err(InvalidRange);
      }
      var f := repo.subs[(player, aoid)];
      repo.UpdateFilter(player, aoid, f.(minPrice := parsed.value.lo, maxPrice := parsed.value.hi));
      return Ok(());
    }

    method SetQlFilter(player: string, aoid: int, spec: string) returns (r: Result<(), Error>)
      modifies repo`subs
      ensures r.Err? ==> repo.subs == old(repo.subs)
      ensures r.Ok? ==> (player, aoid) in old(repo.subs) && repo.subs.Keys == old(repo.subs).Keys
      ensures r.Ok? ==> forall k | k in repo.subs && k != (player, aoid) :: repo.subs[k] == old(repo.subs)[k]
      ensures r.Ok? ==>
        var f, was := repo.subs[(player, aoid)], old(repo.subs)[(player, aoid)];
        && Parsing.ParseRange(spec, Parsing.ParseQl) == Some(Parsing.Range(f.minQl, f.maxQl))
        && f.minPrice == was.minPrice && f.maxPrice == was.maxPrice
      ensures S.Enabled(old(World()), S.SetQl(player, aoid, Parsing.ParseRange(spec, Parsing.ParseQl)))
      ensures World() == S.Apply(old(World()), S.SetQl(player, aoid, Parsing.ParseRange(spec, Parsing.ParseQl)))
      ensures r == if (player, aoid) !in old(repo.subs) then Err(NotWatching)
                   else if Parsing.ParseRange(spec, Parsing.ParseQl) == None then Err(InvalidRange) else Ok(())
    {
      if (player, aoid) !in repo.subs {
        return Err(NotWatching);
      }
      var parsed := Parsing.ParseRange(spec, Parsing.ParseQl);
      if parsed == None {
        return Err(InvalidRange);
      }
      var f := repo.subs[(player, aoid)];
      repo.UpdateFilter(player, aoid, f.(minQl := parsed.value.lo, maxQl := parsed.value.hi));
      return Ok(());
    }

    method ClearFilter(player: string, aoid: int) returns (r: Result<(), Error>)
      modifies repo`subs
      ensures World() == S.Apply(old(World()), S.ClearFilter(player, aoid))
      ensures r.Err? ==> repo.subs == old(repo.subs)
      ensures r.Ok? ==> (player, aoid) in old(repo.subs) && repo.subs.Keys == old(repo.subs).Keys
      ensures r.Ok? ==> forall k | k in repo.subs && k != (player, aoid) :: repo.subs[k] == old(repo.subs)[k]
      ensures r.Ok? ==> repo.subs[(player, aoid)] == Filter(None, None, None, None)
      ensures r == if (player, aoid) in old(repo.subs) then Ok(()) else Err(NotWatching)
    {
      if (player, aoid) !in repo.subs {
        return Err(NotWatching);
      }
      repo.UpdateFilter(player, aoid, OPEN);
      return Ok(());
    }

    // ---- polling ----

    /** `_send_tell` for an alert. */
    method SendTell(player: string, alert: S.Alert)
      modifies this`told
      ensures told == old(told)[player := S.ToldTo(old(World()), player) + [alert]]
    {
      var before := if player in told then told[player] else [];
      told := told[player := before + [alert]];
    }

    /** One alert: told to a player that is online, queued for another. */
    method TellOrQueue(player: string, alert: S.Alert, now: int, online: set<string>)
      modifies this`told, repo`pending
      ensures World() ==
        var w := old(World());
        if player in online then w.(told := w.told[player := S.ToldTo(w, player) + [alert]])
        else w.(db := w.db.(pending := w.db.pending[player := S.PendingOf(w.db, player) + [S.Pending(alert, now)]]))
    {
      if player in online {
        SendTell(player, alert);
      } else {
        repo.QueuePendingAlert(player, alert, now);
      }
    }

    /** `notify_subscribers`: one alert after the other until a callback raises; returns the
        number of alerts when none does. */
    method NotifySubscribers(aoid: int, itemName: string, orders: map<string, NewOrder>, now: int, chat: Chat)
      returns (r: Result<nat, Error>, ghost reached: set<string>)
      modifies this`told, repo`pending
      ensures World() == S.Notify(old(World()), aoid, itemName, orders, now, chat.online, reached)
      ensures reached <= S.Notified(old(repo.Db()), aoid, orders) && reached !! chat.raises
      ensures r.Ok? <==> S.Notified(old(repo.Db()), aoid, orders) !! chat.raises
      ensures r.Ok? <==> reached == S.Notified(old(repo.Db()), aoid, orders)
      ensures r == if r.Ok? then Ok(|reached|) else Err(ChatError)
    {
      hide S.Notified, S.Send, S.AlertsFor, S.SubscribedBy, S.ToldTo, S.PendingOf, S.Only;
      ghost var w := World();
      ghost var alerts := S.AlertsFor(w.db, aoid, itemName, orders);
      AlertKeys(w.db, aoid, itemName, orders);
      var players := repo.SubscribersFor(aoid);
      var notified := 0;
      ghost var sent: map<string, S.Alert>, done: set<string> := map[], {};
      SendNone(w, now, chat.online);
      for i := 0 to |players|
        invariant repo.subs == w.db.subs
        invariant forall j | 0 <= j < i :: players[j] in done
        invariant forall j | i <= j < |players| :: players[j] !in done
        invariant SentSoFar(alerts, done, sent, chat.raises)
        invariant World() == S.Send(w, sent, now, chat.online) && notified == |sent|
      {
        hide SentSoFar, Matching;
        var player := players[i];
        OneMoreDone(alerts, done, sent, chat.raises, player);
        done := done + {player};
        var matching := Matching(orders, repo.subs[(player, aoid)]);
        AlertExact(w.db, aoid, itemName, orders, player);
        if matching == map[] {
          continue;
        }
        if player in chat.raises {
          return Err(ChatError), sent.Keys;
        }
        var alert := S.Alert(itemName, aoid, matching);
        SendOne(w, sent, now, chat.online, player, alert);
        sent := sent[player := alert];
        TellOrQueue(player, alert, now, chat.online);
        notified := notified + 1;
      }
      AllDone(alerts, done, sent, chat.raises);
      return Ok(notified), sent.Keys;
    }

    /** `_detect_new_orders`; false when a callback raised. */
    method DetectNewOrders(aoid: int, book: Book, itemName: string, now: int, chat: Chat)
      returns (ok: bool, ghost fetch: S.Fetch)
      modifies this`told, repo`pending, repo`seen
      ensures fetch.book == Some(book) && fetch.online == chat.online && fetch.reached !! chat.raises
      ensures World() == S.Detect(old(World()), aoid, itemName, now, fetch)
      ensures ok == !S.Interrupted(old(repo.Db()), aoid, fetch)
      ensures ok == (S.ToNotify(old(repo.Db()), aoid, book) !! chat.raises)
      ensures ok ==> forall row :: row in repo.seen <==>
                if row.0 == aoid then row.1 in Fingerprints(book) else row in old(repo.seen)
      ensures !ok ==> repo.seen == old(repo.seen)
    {
      hide S.Notified, S.Notify;
      var fingerprintMap := BuildFingerprintMap(book);
      var fingerprints := fingerprintMap.Keys;
      var seen := repo.GetSeenFingerprints(aoid);
      fetch := S.Fetch(Some(book), chat.online, {});
      if seen == {} || fingerprints - seen == {} {
        NobodyToNotify(repo.Db(), aoid, book);
      }
      if seen != {} {
        var newFingerprints := fingerprints - seen;
        if newFingerprints != {} {
          var newOrders := map fp | fp in newFingerprints :: fingerprintMap[fp];
          assert newOrders == S.NewOrders(book, newFingerprints);
          ghost var reached;
          var notified;
          notified, reached := NotifySubscribers(aoid, itemName, newOrders, now, chat);
          fetch := S.Fetch(Some(book), chat.online, reached);
          if notified.Err? {
            return false, fetch;
          }
        }
      }
      repo.ReplaceSeenFingerprints(aoid, fingerprints);
      return true, fetch;
    }

    /** One round of the loop of `poll_market`; false when a callback raised or, which never
        happens, the insert is refused. */
    method PollOne(aoid: int, now: int, book: Option<Book>, chat: Chat) returns (ok: bool, ghost fetch: S.Fetch)
      requires aoid in repo.watch
      modifies this`told, repo`watch, repo`seen, repo`pending, repo`history, repo`nextId
      ensures repo.watch == if ok then old(repo.watch)[aoid := old(repo.watch)[aoid].(lastPolled := S.At(now))]
                            else old(repo.watch)
      ensures repo.history == if book.Some? then old(repo.history)[old(repo.nextId) := S.Snapshot(aoid, now)]
                              else old(repo.history)
      ensures repo.nextId == old(repo.nextId) + if book.Some? then 1 else 0
      ensures !ok || book == None ==> repo.seen == old(repo.seen)
      ensures Fits(fetch, book, chat) && fetch.book == book
      ensures World() == S.PollItem(old(World()), aoid, now, fetch)
      ensures ok == !S.Interrupted(old(repo.Db()), aoid, fetch)
      ensures ok == (book.Some? ==> S.ToNotify(old(repo.Db()), aoid, book.value) !! chat.raises)
    {
      fetch := S.Fetch(book, chat.online, {});
      if book.Some? {
        hide S.Detect, S.Interrupted, S.ToNotify, S.SeenOf;
        ghost var before := repo.Db();
        var name := repo.watch[aoid].item.name;
        var inserted := repo.InsertSnapshot(aoid, now);
        if !inserted {
          return false, fetch;
        }
        SnapshotAside(before, aoid, now, book.value);
        ok, fetch := DetectNewOrders(aoid, book.value, name, now, chat);
        Alerting.SameSeen(before, S.AddSnapshot(before, aoid, now), aoid);
        Alerting.InterruptedSame(before, S.AddSnapshot(before, aoid, now), aoid, fetch);
        if !ok {
          return false, fetch;
        }
      }
      repo.UpdateLastPolled(aoid, now);
      ok := true;
    }

    /** The loop of `poll_market`; returns how many fetches brought a book, and false when a
        callback ended it. */
    method PollBatch(batch: seq<int>, now: int, gmi: int -> Option<Book>, chat: int -> Chat)
      returns (updated: nat, ok: bool, ghost fetches: seq<S.Fetch>)
      requires forall i | 0 <= i < |batch| :: batch[i] in repo.watch
      requires forall i, j | 0 <= i < j < |batch| :: batch[i] != batch[j]
      modifies this`told, repo`watch, repo`seen, repo`pending, repo`history, repo`nextId
      ensures |fetches| == |batch|
      ensures forall i | 0 <= i < |batch| :: Fits(fetches[i], gmi(batch[i]), chat(batch[i]))
      ensures S.Cycle(World(), ok) == S.PollItems(old(World()), batch, now, fetches)
      ensures ok <==> Quiet(old(repo.Db()), batch, gmi, chat)
      ensures ok ==> updated == |Fetched(batch, gmi)|
      ensures ok ==> repo.nextId == old(repo.nextId) + updated
    {
      hide S.PollItem, S.PollItems, S.Interrupted, S.ToNotify, Fits, Quiet, Fetched;
      ghost var w := World();
      updated, fetches := 0, [];
      NothingPolled(w, batch, now);
      assert batch[..0] == [];
      QuietSoFar(w.db, [], gmi, chat);
      for i := 0 to |batch|
        invariant |fetches| == i && forall j | 0 <= j < i :: Fits(fetches[j], gmi(batch[j]), chat(batch[j]))
        invariant S.Cycle(World(), true) == S.PollItems(w, batch[..i], now, fetches)
        invariant Quiet(w.db, batch[..i], gmi, chat)
        invariant updated == |Fetched(batch[..i], gmi)| && repo.nextId == old(repo.nextId) + updated
      {
        var book := gmi(batch[i]);
        ghost var fetch;
        SameAlerts(w, batch, now, fetches, book);
        QuietNext(w.db, batch, gmi, chat, i);
        OneMoreFetched(batch, i, gmi);
        ok, fetch := PollOne(batch[i], now, book, chat(batch[i]));
        NextItem(w, batch, now, fetches, fetch);
        assert (fetches + [fetch])[..i] == fetches;
        fetches := fetches + [fetch];
        if !ok {
          fetches := FillUp(w, batch, now, gmi, chat, fetches);
          return updated, false, fetches;
        }
        if book.Some? {
          updated := updated + 1;
        }
      }
      assert batch[..|batch|] == batch;
      ok := true;
    }

    /** `poll_market`; `gmi` is what each fetch would bring. The batch and the fetches are
        returned as ghosts. */
    method PollMarket(now: int, settings: S.PollSettings, gmi: int -> Option<Book>, chat: int -> Chat,
      summaryRaises: bool)
      returns (r: Result<PollSummary, Error>, ghost due: seq<int>, ghost fetches: seq<S.Fetch>)
      modifies this`told, repo`watch, repo`subs, repo`seen, repo`pending, repo`history, repo`nextId
      ensures forall a | a in repo.watch :: a in old(repo.watch)
      ensures forall a | a in old(repo.watch) ::
                var row, age := old(repo.watch)[a], 86_400_000_000 * settings.expireDays;
                a in repo.watch <==> row.autoTracked || row.firstSeen + age >= now ||
                                     (row.lastPolled.At? && row.lastPolled.micros + age >= now)
      ensures forall id | id in old(repo.history) && id < old(repo.nextId) ::
                var row := old(repo.history)[id];
                id in repo.history <==> row.ts + 86_400_000_000 * settings.retentionDays >= now &&
                                        (row.aoid in repo.watch || row.aoid !in old(repo.watch))
      ensures |due| <= settings.batchSize && forall i, j | 0 <= i < j < |due| :: due[i] != due[j]
      ensures forall a | a in due :: a in repo.watch && a in old(repo.watch)
      ensures forall a | a in due && a in old(repo.watch) && old(repo.watch)[a].lastPolled.At? ::
                old(repo.watch)[a].lastPolled.micros + 60_000_000 * settings.intervalMinutes < now
      ensures |due| < settings.batchSize ==> forall a | a in repo.watch && a in old(repo.watch) && a !in due ::
                old(repo.watch)[a].lastPolled.At? &&
                old(repo.watch)[a].lastPolled.micros + 60_000_000 * settings.intervalMinutes >= now
      ensures forall a, b | a in due && b in repo.watch && b !in due ::
                a in old(repo.watch) && b in old(repo.watch) &&
                !S.Before(old(repo.watch)[b].lastPolled, old(repo.watch)[a].lastPolled)
      ensures Quiet(S.Cleaned(old(repo.Db()), now, settings), due, gmi, chat) ==>
                forall a | a in repo.watch && a in old(repo.watch) ::
                  repo.watch[a] == if a in due then old(repo.watch)[a].(lastPolled := S.At(now)) else old(repo.watch)[a]
      ensures S.Enabled(old(World()), S.Poll(now, settings, due, fetches))
      ensures forall i | 0 <= i < |due| :: Fits(fetches[i], gmi(due[i]), chat(due[i]))
      ensures World() == S.Apply(old(World()), S.Poll(now, settings, due, fetches))
      ensures
        var quiet := Quiet(S.Cleaned(old(repo.Db()), now, settings), due, gmi, chat);
        && (quiet <==> Fairness.Completes(old(World()), S.Poll(now, settings, due, fetches)))
        && r == if quiet && (due == [] || !summaryRaises)
                then Ok(PollSummary(|due|, |set a | a in due && gmi(a).Some?|,
                                    |old(repo.watch).Keys - repo.watch.Keys|))
                else Err(ChatError)
    {
      hide S.PollItems, S.Cleaned, S.IsBatch, S.Apply, S.Enabled, Quiet, Fits, CutAt, Fairness.Completes;
      ghost var t, w := repo.Db(), World();
      var batch, expired := SelectDue(now, settings);
      ghost var cleaned, selected := repo.Db(), World();
      BatchIsWatched(cleaned, S.PollCutoff(now, settings), settings.batchSize, batch);
      CleanedWatch(t, now, settings);
      CleanedHistory(t, now, settings);
      BatchExact(t, now, settings, batch);
      OldestFirst(t, now, settings, batch);
      due := batch;
      var updated, ok;
      updated, ok, fetches := PollBatch(batch, now, gmi, chat);
      PolledExactly(w, now, settings, batch, fetches);
      PollStamps(selected, batch, now, fetches);
      if !ok || (batch != [] && summaryRaises) {
        return Err(ChatError), due, fetches;
      }
      return Ok(PollSummary(|batch|, updated, |expired|)), due, fetches;
    }

    /** The tables cleaned and a batch taken from them, as `poll_market` begins. */
    method SelectDue(now: int, settings: S.PollSettings) returns (due: seq<int>, expired: set<int>)
      modifies repo`watch, repo`subs, repo`history
      ensures repo.Db() == S.Cleaned(old(repo.Db()), now, settings)
      ensures S.IsBatch(repo.Db(), S.PollCutoff(now, settings), settings.batchSize, due)
      ensures expired == old(repo.watch).Keys - repo.watch.Keys
    {
      hide S.Stale, S.DropWatches, S.Prune, S.IsBatch;
      expired := repo.ExpireStaleWatch(now - settings.expireDays * S.DAY);
      repo.PruneHistory(now - settings.retentionDays * S.DAY);
      due := repo.DueForPoll(now - settings.intervalMinutes * S.MINUTE, settings.batchSize);
    }

    /** `deliver_pending_alerts`, where only the first `tells` tells return. */
    method DeliverPendingAlerts(player: string, tells: nat) returns (r: Result<nat, Error>)
      modifies this`told, repo`pending
      ensures World() == S.Apply(old(World()), S.Deliver(player, tells))
      ensures
        var waiting := S.Alerts(S.ByTime(S.PendingOf(old(repo.Db()), player)));
        S.ToldTo(World(), player) ==
          S.ToldTo(old(World()), player) + if tells < |waiting| then waiting[..tells] else waiting
      ensures forall p | p != player :: S.ToldTo(World(), p) == S.ToldTo(old(World()), p)
      ensures player in old(repo.pending) && old(repo.pending)[player] != [] ==>
                repo.pending == old(repo.pending) - {player}
      ensures player !in old(repo.pending) || old(repo.pending)[player] == [] ==> repo.pending == old(repo.pending)
      ensures
        var count := |S.PendingOf(old(repo.Db()), player)|;
        r == if tells < count then Err(ChatError) else Ok(count)
    {
      hide S.ByTime, S.Alerts;
      var alerts := repo.PopPendingAlerts(player);
      var ok := TellAll(player, alerts, tells);
      return if ok then Ok(|alerts|) else Err(ChatError);
    }

    method TellAll(player: string, alerts: seq<S.Alert>, tells: nat) returns (ok: bool)
      modifies this`told
      ensures told == S.Tell(old(told), player, First(alerts, tells)) && ok == (|alerts| <= tells)
    {
      ghost var before := S.ToldTo(World(), player);
      assert before + alerts[..0] == before;
      for i := 0 to |alerts|
        invariant i <= tells
        invariant i == 0 ==> told == old(told)
        invariant i > 0 ==> told == old(told)[player := before + alerts[..i]]
      {
        if i == tells {
          return false;
        }
        assert S.ToldTo(World(), player) == before + alerts[..i];
        SendTell(player, alerts[i]);
        assert before + alerts[..i] + [alerts[i]] == before + alerts[..i + 1];
      }
      assert alerts[..|alerts|] == alerts;
      ok := true;
    }
  }
}
