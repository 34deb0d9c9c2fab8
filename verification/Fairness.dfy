/** The batch poller: a due item is polled, or gone, before more items have been polled
    than were ahead of it, so within a number of completed cycles. Only a chat callback
    that raises keeps a cycle from completing; a cycle cut short at its first item makes
    no headway at all. */
module Fairness {
  import opened Collections
  import opened MarketState

  /** The other items that a poll may take before this one. */
  ghost function Ahead(t: Tables, aoid: int): set<int>
    requires aoid in t.watch
  {
    set b | b in t.watch.Keys && b != aoid && !Before(t.watch[aoid].lastPolled, t.watch[b].lastPolled)
  }

  /** How an operation other than a poll changes the watch table: rows that stay keep
      their poll time, rows that appear have never been polled. */
  ghost predicate KeepsPollTimes(t: Tables, u: Tables) {
    && (forall a | a in t.watch && a in u.watch :: u.watch[a].lastPolled == t.watch[a].lastPolled)
    && (forall a | a in u.watch && a !in t.watch :: u.watch[a].lastPolled == NegInfinity)
  }

  lemma {:induction false} UpsertAllKeepsPollTimes(t: Tables, resolved: seq<(int, Item)>, now: int)
    ensures KeepsPollTimes(t, UpsertAll(t, resolved, now)) && t.watch.Keys <= UpsertAll(t, resolved, now).watch.Keys
  {
    if resolved != [] {
      UpsertAllKeepsPollTimes(t, resolved[..|resolved| - 1], now);
    }
  }

  lemma ResyncKeepsPollTimes(t: Tables, keep: set<int>, upserted: seq<(int, Item)>, now: int)
    ensures KeepsPollTimes(t, UpsertAll(Unflag(t, keep), upserted, now))
  {
    var u := Unflag(t, keep);
    hide UpsertAll;
    UpsertAllKeepsPollTimes(u, upserted, now);
    assert u.watch.Keys == t.watch.Keys;
    assert forall a | a in t.watch :: u.watch[a].lastPolled == t.watch[a].lastPolled;
  }

  lemma StepKeepsPollTimes(w: World, e: Event)
    requires Enabled(w, e) && !e.Poll?
    ensures KeepsPollTimes(w.db, Apply(w, e).db)
  {
    hide DropSubscriptions, RevokeAll, DropUser, Unflag, UpsertAll, NewKey, LogAction, Alerts, ByTime, SubscribedBy;
    if e.Resync? {
      ResyncKeepsPollTimes(w.db, ResolvedAoids(e.resolved), e.resolved[..e.done], e.now);
    }
  }

  /** Between polls the items ahead can only grow by items added. */
  lemma AheadGrows(t: Tables, u: Tables, aoid: int)
    requires KeepsPollTimes(t, u) && aoid in t.watch && aoid in u.watch
    ensures |Ahead(u, aoid)| <= |Ahead(t, aoid)| + |u.watch.Keys - t.watch.Keys|
  {
    SubsetSize(Ahead(u, aoid), Ahead(t, aoid) + (u.watch.Keys - t.watch.Keys));
  }

  lemma CleanedKeepsPollTimes(t: Tables, now: int, settings: PollSettings)
    ensures var u := Cleaned(t, now, settings); KeepsPollTimes(t, u) && u.watch.Keys <= t.watch.Keys
  {}

  function DueSet(due: seq<int>): set<int> {
    set a | a in due
  }

  lemma {:induction false} DueSetSize(due: seq<int>)
    requires forall i, j | 0 <= i < j < |due| :: due[i] != due[j]
    ensures |DueSet(due)| == |due|
  {
    if due != [] {
      var n := |due| - 1;
      DueSetSize(due[..n]);
      assert DueSet(due) == DueSet(due[..n]) + {due[n]};
      assert due[n] !in DueSet(due[..n]);
    }
  }

  /** The items a poll got through: all of its batch, or those before the item at which a
      callback raised. */
  function PolledIn(w: World, due: seq<int>, now: int, fetches: seq<Fetch>): (s: set<int>)
    requires |fetches| == |due| && forall i | 0 <= i < |due| :: due[i] in w.db.watch
    ensures forall a | a in s :: a in due
  {
    if due == [] then {} else
      var n := |due| - 1;
      PolledIn(w, due[..n], now, fetches[..n]) + if PollItems(w, due, now, fetches).ok then {due[n]} else {}
  }

  /** A poll stamps what it got through, whether the fetches succeed or not, and nothing else. */
  lemma {:induction false} PollItemsStamps(w: World, due: seq<int>, now: int, fetches: seq<Fetch>)
    requires |fetches| == |due| && forall i | 0 <= i < |due| :: due[i] in w.db.watch
    ensures
      var v := PollItems(w, due, now, fetches).w.db;
      forall a | a in w.db.watch ::
        v.watch[a].lastPolled == if a in PolledIn(w, due, now, fetches) then At(now) else w.db.watch[a].lastPolled
  {
    hide PollItem, Interrupted;
    if due != [] {
      PollItemsStamps(w, due[..|due| - 1], now, fetches[..|due| - 1]);
    }
  }

  lemma PolledInUnfold(w: World, due: seq<int>, now: int, fetches: seq<Fetch>)
    requires |fetches| == |due| && (forall i | 0 <= i < |due| :: due[i] in w.db.watch) && due != []
    ensures
      var n := |due| - 1;
      && PolledIn(w, due, now, fetches) ==
           PolledIn(w, due[..n], now, fetches[..n]) + (if PollItems(w, due, now, fetches).ok then {due[n]} else {})
      && (PollItems(w, due, now, fetches).ok ==> PollItems(w, due[..n], now, fetches[..n]).ok)
  {
    hide PollItem, Interrupted;
  }

  /** A poll gets through the first items of its batch. */
  lemma {:induction false} PolledInIsPrefix(w: World, due: seq<int>, now: int, fetches: seq<Fetch>, i: nat, j: nat)
    requires |fetches| == |due| && forall i | 0 <= i < |due| :: due[i] in w.db.watch
    requires forall i, j | 0 <= i < j < |due| :: due[i] != due[j]
    requires i <= j < |due| && due[j] in PolledIn(w, due, now, fetches)
    ensures due[i] in PolledIn(w, due, now, fetches)
    decreases |due|
  {
    hide PollItems, PolledIn;
    var n := |due| - 1;
    PolledInUnfold(w, due, now, fetches);
    if j < n {
      PolledInIsPrefix(w, due[..n], now, fetches[..n], i, j);
    } else if i < n {
      PolledInAll(w, due[..n], now, fetches[..n]);
      assert due[..n][i] == due[i];
      assert due[n] !in due[..n];
    }
  }

  lemma {:induction false} PolledInAll(w: World, due: seq<int>, now: int, fetches: seq<Fetch>)
    requires |fetches| == |due| && forall i | 0 <= i < |due| :: due[i] in w.db.watch
    requires PollItems(w, due, now, fetches).ok
    ensures forall a | a in due :: a in PolledIn(w, due, now, fetches)
  {
    hide PollItem, Interrupted;
    if due != [] {
      var n := |due| - 1;
      PolledInAll(w, due[..n], now, fetches[..n]);
      assert forall a | a in due :: a in due[..n] || a == due[n];
    }
  }

  /** Everything polled before a due item is ahead of it. */
  lemma PolledAreAhead(w: World, due: seq<int>, now: int, fetches: seq<Fetch>, cutoff: int, batchSize: nat, aoid: int,
        a: int)
    requires |fetches| == |due| && IsBatch(w.db, cutoff, batchSize, due)
    requires IsDue(w.db, aoid, cutoff) && aoid !in PolledIn(w, due, now, fetches) && a in PolledIn(w, due, now, fetches)
    ensures a in Ahead(w.db, aoid)
  {
    hide PollItems, PolledIn, Before;
    var j :| 0 <= j < |due| && due[j] == a;
    if aoid in due {
      var i :| 0 <= i < |due| && due[i] == aoid;
      if i <= j {
        PolledInIsPrefix(w, due, now, fetches, i, j);
      }
    }
  }

  lemma CompleteBatch(w: World, due: seq<int>, now: int, fetches: seq<Fetch>, cutoff: int, batchSize: nat, aoid: int)
    requires |fetches| == |due| && IsBatch(w.db, cutoff, batchSize, due)
    requires IsDue(w.db, aoid, cutoff) && aoid !in PolledIn(w, due, now, fetches)
    requires PollItems(w, due, now, fetches).ok
    ensures |PolledIn(w, due, now, fetches)| == batchSize
  {
    hide PollItems, PolledIn, Before;
    PolledInAll(w, due, now, fetches);
    DueSetSize(due);
    assert PolledIn(w, due, now, fetches) == DueSet(due);
  }

  /** The items ahead once some of them have been stamped. */
  lemma AheadAfterStamps(t: Tables, u: Tables, aoid: int, polled: set<int>, now: int)
    requires aoid in t.watch && u.watch.Keys == t.watch.Keys && aoid !in polled && polled <= Ahead(t, aoid)
    requires forall a | a in t.watch :: u.watch[a].lastPolled == if a in polled then At(now) else t.watch[a].lastPolled
    requires Before(t.watch[aoid].lastPolled, At(now))
    ensures |Ahead(u, aoid)| + |polled| == |Ahead(t, aoid)|
  {
    assert Ahead(u, aoid) == Ahead(t, aoid) - polled;
    assert Ahead(t, aoid) == Ahead(u, aoid) + polled;
  }

  /** A poll that does not get to a due item has polled only items ahead of it, and they end
      up behind it; a poll that completes without it has polled a whole batch of them. */
  lemma PassedOver(w: World, due: seq<int>, now: int, fetches: seq<Fetch>, cutoff: int, batchSize: nat, aoid: int)
    requires |fetches| == |due| && IsBatch(w.db, cutoff, batchSize, due) && cutoff <= now
    requires IsDue(w.db, aoid, cutoff) && aoid !in PolledIn(w, due, now, fetches)
    ensures
      var c, polled := PollItems(w, due, now, fetches), PolledIn(w, due, now, fetches);
      && aoid in c.w.db.watch && c.w.db.watch[aoid].lastPolled == w.db.watch[aoid].lastPolled
      && |Ahead(c.w.db, aoid)| + |polled| == |Ahead(w.db, aoid)|
      && (c.ok ==> |polled| == batchSize)
  {
    assert forall i | 0 <= i < |due| :: due[i] in w.db.watch;
    hide PollItems, PolledIn, IsBatch, Ahead;
    var c, polled := PollItems(w, due, now, fetches), PolledIn(w, due, now, fetches);
    PollItemsStamps(w, due, now, fetches);
    forall a | a in polled {
      PolledAreAhead(w, due, now, fetches, cutoff, batchSize, aoid, a);
    }
    if c.ok {
      CompleteBatch(w, due, now, fetches, cutoff, batchSize, aoid);
    }
    AheadAfterStamps(w.db, c.w.db, aoid, polled, now);
  }

  // ---- whole runs ----

  /** The items a poll got through. */
  ghost function PolledBy(w: World, e: Event): set<int>
    requires Enabled(w, e)
  {
    if e.Poll? then PolledIn(w.(db := Cleaned(w.db, e.now, e.settings)), e.due, e.now, e.fetches) else {}
  }

  /** A poll in which no chat callback raised. */
  ghost predicate Completes(w: World, e: Event)
    requires Enabled(w, e)
  {
    e.Poll? && PollItems(w.(db := Cleaned(w.db, e.now, e.settings)), e.due, e.now, e.fetches).ok
  }

  /** How many items the polls of a run got through. */
  ghost function ItemPolls(w: World, es: seq<Event>): nat
    requires IsRun(w, es)
    decreases |es|
  {
    if es == [] then 0 else
      ItemPolls(w, es[..|es| - 1]) + |PolledBy(After(w, es[..|es| - 1]), es[|es| - 1])|
  }

  ghost function CompletedPolls(w: World, es: seq<Event>): nat
    requires IsRun(w, es)
    decreases |es|
  {
    if es == [] then 0 else
      CompletedPolls(w, es[..|es| - 1]) + if Completes(After(w, es[..|es| - 1]), es[|es| - 1]) then 1 else 0
  }

  /** The watch rows added along a run; a row deleted and added again counts again. */
  ghost function Added(w: World, es: seq<Event>): nat
    requires IsRun(w, es)
    decreases |es|
  {
    if es == [] then 0 else
      var before := After(w, es[..|es| - 1]);
      Added(w, es[..|es| - 1]) + |Apply(before, es[|es| - 1]).db.watch.Keys - before.db.watch.Keys|
  }

  /** The item has stayed in the table, unpolled, since the start of the run. */
  ghost predicate Waiting(w: World, es: seq<Event>, aoid: int)
    requires IsRun(w, es)
    decreases |es|
  {
    && aoid in After(w, es).db.watch
    && (es == [] || (Waiting(w, es[..|es| - 1], aoid) && aoid !in PolledBy(After(w, es[..|es| - 1]), es[|es| - 1])))
  }

  /** Every poll of the run has the same batch size, a non-negative interval and a clock
      under which the item is due. */
  ghost predicate PollsAreDue(w: World, es: seq<Event>, aoid: int, batchSize: nat)
    requires aoid in w.db.watch
  {
    forall i | 0 <= i < |es| && es[i].Poll? ::
      && es[i].settings.batchSize == batchSize
      && es[i].settings.intervalMinutes >= 0
      && Before(w.db.watch[aoid].lastPolled, At(PollCutoff(es[i].now, es[i].settings)))
  }

  lemma {:induction false} AheadShrinks(w: World, es: seq<Event>, aoid: int, batchSize: nat)
    requires IsRun(w, es) && aoid in w.db.watch
    requires Waiting(w, es, aoid) && PollsAreDue(w, es, aoid, batchSize)
    ensures After(w, es).db.watch[aoid].lastPolled == w.db.watch[aoid].lastPolled
    ensures |Ahead(After(w, es).db, aoid)| + ItemPolls(w, es) <= |Ahead(w.db, aoid)| + Added(w, es)
    ensures CompletedPolls(w, es) * batchSize <= ItemPolls(w, es)
    decreases |es|
  {
    hide *;
    NothingYet(w, es);
    if es != [] {
      var front, e := es[..|es| - 1], es[|es| - 1];
      Unroll(w, es, aoid, batchSize);
      UnrollCounts(w, es);
      AheadShrinks(w, front, aoid, batchSize);
      AheadStep(After(w, front), e, aoid, batchSize);
      OneMore(CompletedPolls(w, front), batchSize);
    }
  }

  lemma NothingYet(w: World, es: seq<Event>)
    requires IsRun(w, es)
    ensures es == [] ==> After(w, es) == w && ItemPolls(w, es) == 0 && CompletedPolls(w, es) == 0 && Added(w, es) == 0
  {}

  /** A non-empty run is a shorter run and one operation. */
  lemma Unroll(w: World, es: seq<Event>, aoid: int, batchSize: nat)
    requires IsRun(w, es) && es != [] && aoid in w.db.watch
    requires Waiting(w, es, aoid) && PollsAreDue(w, es, aoid, batchSize)
    ensures
      var front, e := es[..|es| - 1], es[|es| - 1];
      && IsRun(w, front) && Enabled(After(w, front), e) && After(w, es) == Apply(After(w, front), e)
      && Waiting(w, front, aoid) && aoid in After(w, front).db.watch && aoid in After(w, es).db.watch
      && PollsAreDue(w, front, aoid, batchSize) && aoid !in PolledBy(After(w, front), e)
      && (e.Poll? ==> e.settings.batchSize == batchSize && e.settings.intervalMinutes >= 0)
      && (e.Poll? ==> Before(w.db.watch[aoid].lastPolled, At(PollCutoff(e.now, e.settings))))
  {
    hide Apply, Enabled, Before, PollCutoff, PolledBy;
    var front := es[..|es| - 1];
    assert forall i | 0 <= i < |front| :: front[i] == es[i];
    WaitingIsThere(w, front, aoid);
  }

  lemma UnrollCounts(w: World, es: seq<Event>)
    requires IsRun(w, es) && es != []
    ensures
      var front, e := es[..|es| - 1], es[|es| - 1];
      && IsRun(w, front) && Enabled(After(w, front), e) && After(w, es) == Apply(After(w, front), e)
      && ItemPolls(w, es) == ItemPolls(w, front) + |PolledBy(After(w, front), e)|
      && CompletedPolls(w, es) == CompletedPolls(w, front) + (if Completes(After(w, front), e) then 1 else 0)
      && Added(w, es) == Added(w, front) + |After(w, es).db.watch.Keys - After(w, front).db.watch.Keys|
  {
    hide Apply, Enabled, PolledBy, Completes;
  }

  lemma WaitingIsThere(w: World, es: seq<Event>, aoid: int)
    requires IsRun(w, es) && Waiting(w, es, aoid)
    ensures aoid in After(w, es).db.watch
  {}

  lemma OneMore(k: nat, b: nat)
    ensures (k + 1) * b == k * b + b
  {}

  /** One operation of a run in which the item keeps waiting. */
  lemma AheadStep(w: World, e: Event, aoid: int, batchSize: nat)
    requires Enabled(w, e) && aoid in w.db.watch && aoid in Apply(w, e).db.watch && aoid !in PolledBy(w, e)
    requires e.Poll? ==> (
      && e.settings.batchSize == batchSize && e.settings.intervalMinutes >= 0
      && Before(w.db.watch[aoid].lastPolled, At(PollCutoff(e.now, e.settings))))
    ensures
      var v := Apply(w, e);
      && v.db.watch[aoid].lastPolled == w.db.watch[aoid].lastPolled
      && |Ahead(v.db, aoid)| + |PolledBy(w, e)| <= |Ahead(w.db, aoid)| + |v.db.watch.Keys - w.db.watch.Keys|
      && (Completes(w, e) ==> |PolledBy(w, e)| == batchSize)
  {
    hide Ahead, PolledIn, PollItems;
    if e.Poll? {
      AheadPoll(w, e, aoid);
    } else {
      hide Apply;
      StepKeepsPollTimes(w, e);
      AheadGrows(w.db, Apply(w, e).db, aoid);
    }
  }

  lemma AheadPoll(w: World, e: Event, aoid: int)
    requires Enabled(w, e) && e.Poll? && aoid in w.db.watch && aoid in Apply(w, e).db.watch && aoid !in PolledBy(w, e)
    requires e.settings.intervalMinutes >= 0 && Before(w.db.watch[aoid].lastPolled, At(PollCutoff(e.now, e.settings)))
    ensures
      var v := Apply(w, e);
      && v.db.watch[aoid].lastPolled == w.db.watch[aoid].lastPolled
      && |Ahead(v.db, aoid)| + |PolledBy(w, e)| <= |Ahead(w.db, aoid)|
      && (Completes(w, e) ==> |PolledBy(w, e)| == e.settings.batchSize)
  {
    hide PollItems, PolledIn, Cleaned, IsBatch, Ahead, Apply, Enabled;
    var cleaned := w.(db := Cleaned(w.db, e.now, e.settings));
    ApplyPoll(w, e);
    CleanedKeepsPollTimes(w.db, e.now, e.settings);
    AheadGrows(w.db, cleaned.db, aoid);
    assert cleaned.db.watch.Keys - w.db.watch.Keys == {};
    PassedOver(cleaned, e.due, e.now, e.fetches, PollCutoff(e.now, e.settings), e.settings.batchSize, aoid);
  }

  /** Bounded wait: with q items ahead of a due item and n rows added meanwhile, a run
      that still has not polled or removed the item has polled at most q + n items, so at
      most floor((q+n)/B) of its polls completed; the item is served by the completed poll
      number floor((q+n)/B) + 1, whatever the fetches return and however ties are broken. */
  lemma BoundedWait(w: World, es: seq<Event>, aoid: int, batchSize: nat)
    requires IsRun(w, es) && aoid in w.db.watch && batchSize >= 1
    requires Waiting(w, es, aoid) && PollsAreDue(w, es, aoid, batchSize)
    ensures ItemPolls(w, es) <= |Ahead(w.db, aoid)| + Added(w, es)
    ensures CompletedPolls(w, es) <= (|Ahead(w.db, aoid)| + Added(w, es)) / batchSize
  {
    hide *;
    AheadShrinks(w, es, aoid, batchSize);
    AtMostQuotient(CompletedPolls(w, es), batchSize, |Ahead(w.db, aoid)| + Added(w, es));
  }

  /** A due item stays due: with one interval and a clock that never goes back, being
      due at the first poll is enough. */
  lemma StaysDue(w: World, es: seq<Event>, aoid: int, batchSize: nat, interval: nat, start: int)
    requires aoid in w.db.watch && Before(w.db.watch[aoid].lastPolled, At(start - interval * MINUTE))
    requires forall i | 0 <= i < |es| && es[i].Poll? ::
      es[i].now >= start && es[i].settings.batchSize == batchSize && es[i].settings.intervalMinutes == interval
    ensures PollsAreDue(w, es, aoid, batchSize)
  {}

  lemma AtMostQuotient(k: nat, b: nat, total: nat)
    requires b >= 1 && k * b <= total
    ensures k <= total / b
  {
    var q := total / b;
    assert total < (q + 1) * b;
    assert k >= q + 1 ==> k * b >= (q + 1) * b;
  }
}
