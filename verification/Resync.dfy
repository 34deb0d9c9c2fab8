/** `sync_top_traded_items`: rank, look up what the backoff lets through, and replace
    the set of auto-tracked items. */
module Resync {
  import opened Ranking
  import S = MarketState
  import R = MarketRepo
  import M = MarketService
  import B = Backoff

  /** The answer to one item lookup; Failed is an exception. */
  datatype Answer = Found(item: S.Item) | Missing | Failed

  /** Aborted before the first write to the watch table, or cut short after it. */
  datatype Outcome = Skipped | Aborted | CutShort | Done(pagesFetched: nat, rankedCount: nat, resolvedCount: nat)

  /** When the answers of a resync were asked for and recorded, by item. */
  datatype Clock = Clock(start: int, asked: int -> int, recorded: int -> int)

  ghost predicate ClockOk(c: Clock) {
    forall a :: c.start <= c.asked(a) <= c.recorded(a)
  }

  // ---- the tables after a resync ----

  function AutoTracked(t: S.Tables): set<int> {
    set a | a in t.watch.Keys && t.watch[a].autoTracked
  }

  ghost predicate Distinct(resolved: seq<(int, S.Item)>) {
    forall i, j | 0 <= i < j < |resolved| :: resolved[i].0 != resolved[j].0
  }

  lemma AoidsOfFront(resolved: seq<(int, S.Item)>)
    requires resolved != []
    ensures S.ResolvedAoids(resolved) == S.ResolvedAoids(resolved[..|resolved| - 1]) + {resolved[|resolved| - 1].0}
  {
    var n := |resolved| - 1;
    assert forall i | 0 <= i < n :: resolved[..n][i] == resolved[i];
    assert resolved[n].0 in S.ResolvedAoids(resolved);
    forall a | a in S.ResolvedAoids(resolved[..n])
      ensures a in S.ResolvedAoids(resolved)
    {
      var i :| 0 <= i < n && resolved[..n][i].0 == a;
      assert resolved[i].0 == a;
    }
  }

  /** The world after `done` upserts of a resync. */
  ghost function Synced(w: S.World, resolved: seq<(int, S.Item)>, now: int, done: nat): S.World
    requires Distinct(resolved) && done <= |resolved|
  {
    S.Apply(w, S.Resync(resolved, now, done))
  }

  /** The row an upsert of a resolved item leaves. */
  function Tracked(t: S.Tables, aoid: int, item: S.Item, now: int): S.Watch {
    if aoid in t.watch then t.watch[aoid].(item := item, autoTracked := true)
    else S.Watch(item, now, S.NegInfinity, true)
  }

  lemma {:induction false} UpsertAllKeys(t: S.Tables, resolved: seq<(int, S.Item)>, now: int)
    ensures S.UpsertAll(t, resolved, now).watch.Keys == t.watch.Keys + S.ResolvedAoids(resolved)
  {
    if resolved != [] {
      var n := |resolved| - 1;
      UpsertAllKeys(t, resolved[..n], now);
      AoidsOfFront(resolved);
      hide S.UpsertAll, S.ResolvedAoids;
      var before := S.UpsertAll(t, resolved[..n], now);
      var after := S.UpsertWatch(before, resolved[n].0, resolved[n].1, true, now);
      assert after.watch.Keys == before.watch.Keys + {resolved[n].0};
      UpsertAllUnfold(t, resolved, now);
    }
  }

  lemma UpsertAllUnfold(t: S.Tables, resolved: seq<(int, S.Item)>, now: int)
    requires resolved != []
    ensures
      var n := |resolved| - 1;
      S.UpsertAll(t, resolved, now) ==
        S.UpsertWatch(S.UpsertAll(t, resolved[..n], now), resolved[n].0, resolved[n].1, true, now)
  {}

  lemma {:induction false} UpsertAllOther(t: S.Tables, resolved: seq<(int, S.Item)>, now: int, a: int)
    requires a in t.watch && a !in S.ResolvedAoids(resolved)
    ensures a in S.UpsertAll(t, resolved, now).watch && S.UpsertAll(t, resolved, now).watch[a] == t.watch[a]
  {
    if resolved != [] {
      AoidsOfFront(resolved);
      hide S.ResolvedAoids;
      UpsertAllOther(t, resolved[..|resolved| - 1], now, a);
    }
  }

  lemma {:induction false} UpsertAllRow(t: S.Tables, resolved: seq<(int, S.Item)>, now: int, i: nat)
    requires Distinct(resolved) && i < |resolved|
    ensures resolved[i].0 in S.UpsertAll(t, resolved, now).watch
    ensures S.UpsertAll(t, resolved, now).watch[resolved[i].0] == Tracked(t, resolved[i].0, resolved[i].1, now)
    decreases |resolved|
  {
    var n := |resolved| - 1;
    if i < n {
      UpsertAllRow(t, resolved[..n], now, i);
    } else {
      assert resolved[n].0 !in S.ResolvedAoids(resolved[..n]);
      UpsertAllKeys(t, resolved[..n], now);
      if resolved[n].0 in t.watch {
        UpsertAllOther(t, resolved[..n], now, resolved[n].0);
      }
    }
  }

  lemma {:induction false} AoidsOfPrefix(resolved: seq<(int, S.Item)>, n: nat)
    requires n <= |resolved|
    ensures S.ResolvedAoids(resolved[..n]) <= S.ResolvedAoids(resolved)
    decreases |resolved|
  {
    if n == |resolved| {
      assert resolved[..n] == resolved;
    } else {
      AoidsOfFront(resolved);
      AoidsOfPrefix(resolved[..|resolved| - 1], n);
      assert resolved[..|resolved| - 1][..n] == resolved[..n];
    }
  }

  /** What a resync leaves of the row of one item. */
  lemma ResyncRow(t: S.Tables, resolved: seq<(int, S.Item)>, now: int, done: nat, a: int)
    requires Distinct(resolved) && done <= |resolved|
    ensures
      var u, upserted := S.UpsertAll(S.Unflag(t, S.ResolvedAoids(resolved)), resolved[..done], now),
                         S.ResolvedAoids(resolved[..done]);
      && (a in u.watch <==> a in t.watch || a in upserted)
      && (a in u.watch ==> (u.watch[a].autoTracked <==>
            a in upserted || (a in t.watch && t.watch[a].autoTracked && a in S.ResolvedAoids(resolved))))
      && (a in t.watch ==>
            u.watch[a].firstSeen == t.watch[a].firstSeen && u.watch[a].lastPolled == t.watch[a].lastPolled)
  {
    hide S.UpsertAll;
    var v, upserted := S.Unflag(t, S.ResolvedAoids(resolved)), resolved[..done];
    UpsertAllKeys(v, upserted, now);
    AoidsOfPrefix(resolved, done);
    assert v.watch.Keys == t.watch.Keys;
    if a in S.ResolvedAoids(upserted) {
      var i :| 0 <= i < |upserted| && upserted[i].0 == a;
      UpsertAllRow(v, upserted, now, i);
    } else if a in t.watch {
      UpsertAllOther(v, upserted, now, a);
    }
  }

  /** After a resync no watch row is gone, the new rows are the resolved items upserted that
      were not watched before, and a row keeps its first-seen and poll times. Auto-tracked
      are the upserted items, and those resolved ones that already were. */
  lemma ResyncExact(w: S.World, resolved: seq<(int, S.Item)>, now: int, done: nat)
    requires Distinct(resolved) && done <= |resolved|
    ensures
      var t, u, upserted := w.db, Synced(w, resolved, now, done).db, S.ResolvedAoids(resolved[..done]);
      && AutoTracked(u) == upserted + AutoTracked(t) * S.ResolvedAoids(resolved)
      && u.watch.Keys == t.watch.Keys + upserted
      && u == t.(watch := u.watch)
      && (forall a | a in t.watch ::
            u.watch[a].firstSeen == t.watch[a].firstSeen && u.watch[a].lastPolled == t.watch[a].lastPolled)
      && (forall i | 0 <= i < done :: u.watch[resolved[i].0].item == resolved[i].1)
  {
    hide S.UpsertAll, S.Unflag, S.ResolvedAoids;
    var v := S.Unflag(w.db, S.ResolvedAoids(resolved));
    forall a {
      ResyncRow(w.db, resolved, now, done, a);
    }
    forall i | 0 <= i < done {
      UpsertAllRow(v, resolved[..done], now, i);
    }
  }

  /** After a resync that was not cut short the auto-tracked items are exactly the resolved
      ones, also when none resolve. */
  lemma ResyncComplete(w: S.World, resolved: seq<(int, S.Item)>, now: int)
    requires Distinct(resolved)
    ensures
      var t, u := w.db, Synced(w, resolved, now, |resolved|).db;
      AutoTracked(u) == S.ResolvedAoids(resolved) && u.watch.Keys == t.watch.Keys + S.ResolvedAoids(resolved)
  {
    hide Synced, S.ResolvedAoids;
    ResyncExact(w, resolved, now, |resolved|);
    assert resolved[..|resolved|] == resolved;
  }

  // ---- announcements ----

  /** The announcement of a newly tracked item raises. */
  predicate Cut(resolved: seq<(int, S.Item)>, watched: set<int>, raises: int -> bool) {
    exists i :: 0 <= i < |resolved| && resolved[i].0 !in watched && raises(resolved[i].0)
  }

  /** The upserts committed: up to the first item whose announcement raises. */
  function Upserts(resolved: seq<(int, S.Item)>, watched: set<int>, raises: int -> bool): (n: nat)
    ensures n <= |resolved|
  {
    if resolved == [] then 0 else
      var front := resolved[..|resolved| - 1];
      if Cut(front, watched, raises) then Upserts(front, watched, raises) else |resolved|
  }

  lemma CutFront(resolved: seq<(int, S.Item)>, watched: set<int>, raises: int -> bool)
    requires resolved != []
    ensures
      var front, last := resolved[..|resolved| - 1], resolved[|resolved| - 1].0;
      Cut(resolved, watched, raises) <==> Cut(front, watched, raises) || (last !in watched && raises(last))
  {
    var front := resolved[..|resolved| - 1];
    if i :| 0 <= i < |resolved| && resolved[i].0 !in watched && raises(resolved[i].0) {
      assert i < |front| ==> front[i] == resolved[i];
    }
    if i :| 0 <= i < |front| && front[i].0 !in watched && raises(front[i].0) {
      assert front[i] == resolved[i];
    }
  }

  /** Cut short exactly at the first newly tracked item whose announcement raises. */
  lemma {:induction false} UpsertsExact(resolved: seq<(int, S.Item)>, watched: set<int>, raises: int -> bool)
    ensures
      var n := Upserts(resolved, watched, raises);
      && (!Cut(resolved, watched, raises) ==> n == |resolved|)
      && (Cut(resolved, watched, raises) ==>
            n > 0 && resolved[n - 1].0 !in watched && raises(resolved[n - 1].0) &&
            !Cut(resolved[..n - 1], watched, raises))
  {
    if resolved != [] {
      var front := resolved[..|resolved| - 1];
      UpsertsExact(front, watched, raises);
      CutFront(resolved, watched, raises);
      if Cut(front, watched, raises) {
        var n := Upserts(front, watched, raises);
        assert front[..n - 1] == resolved[..n - 1] && front[n - 1] == resolved[n - 1];
      }
    }
  }

  lemma AoidsExact(resolved: seq<(int, S.Item)>)
    ensures forall a :: a in S.ResolvedAoids(resolved) <==> exists i :: 0 <= i < |resolved| && resolved[i].0 == a
  {}

  /** A resync leaves exactly the resolved items auto-tracked if and only if every resolved
      item it did not get to was auto-tracked already. */
  lemma CutExact(w: S.World, resolved: seq<(int, S.Item)>, now: int, done: nat)
    requires Distinct(resolved) && done <= |resolved|
    ensures AutoTracked(Synced(w, resolved, now, done).db) == S.ResolvedAoids(resolved) <==>
      forall i | done <= i < |resolved| :: resolved[i].0 in AutoTracked(w.db)
  {
    ResyncExact(w, resolved, now, done);
    AoidsOfPrefix(resolved, done);
    AoidsExact(resolved);
    AoidsExact(resolved[..done]);
    hide Synced, S.ResolvedAoids, AutoTracked;
    var u, all := AutoTracked(Synced(w, resolved, now, done).db), S.ResolvedAoids(resolved);
    forall i | done <= i < |resolved|
      ensures resolved[i].0 in all && (resolved[i].0 in u <==> resolved[i].0 in AutoTracked(w.db))
    {
      assert resolved[i].0 !in S.ResolvedAoids(resolved[..done]);
    }
    forall i | 0 <= i < done
      ensures resolved[i].0 in u
    {
      assert resolved[..done][i] == resolved[i];
    }
  }

  /** An input: of two new items the second stays out when announcing the first raises. */
  lemma CutHappens(w: S.World, a: int, b: int, item: S.Item, now: int, raises: int -> bool)
    requires a != b && a !in w.db.watch && b !in w.db.watch && raises(a)
    ensures
      var resolved := [(a, item), (b, item)];
      var done := Upserts(resolved, w.db.watch.Keys, raises);
      && Distinct(resolved) && done == 1
      && AutoTracked(Synced(w, resolved, now, done).db) != S.ResolvedAoids(resolved)
      && b !in Synced(w, resolved, now, done).db.watch
  {
    var resolved := [(a, item), (b, item)];
    var watched := w.db.watch.Keys;
    assert resolved[..1] == [(a, item)] && resolved[..0] == [];
    assert resolved[..1][0].0 !in watched && raises(resolved[..1][0].0);
    CutThere(resolved, watched, raises, 1);
    CutExact(w, resolved, now, 1);
    ResyncExact(w, resolved, now, 1);
    AoidsExact(resolved[..1]);
    hide Synced;
    assert resolved[1].0 == b && b !in AutoTracked(w.db);
  }

  // ---- the lookups ----

  function LookupOf(aoid: int, answer: int -> Answer, clock: Clock): B.Lookup {
    B.Lookup(aoid, answer(aoid).Found?, clock.asked(aoid), clock.recorded(aoid))
  }

  function Lookups(order: seq<int>, answer: int -> Answer, clock: Clock): (ls: seq<B.Lookup>)
    ensures |ls| == |order| && forall i | 0 <= i < |ls| :: ls[i] == LookupOf(order[i], answer, clock)
  {
    if order == [] then [] else
      Lookups(order[..|order| - 1], answer, clock) + [LookupOf(order[|order| - 1], answer, clock)]
  }

  /** The items found, in the order they were looked up. */
  function Resolved(order: seq<int>, answer: int -> Answer): seq<(int, S.Item)> {
    if order == [] then [] else
      var n := |order| - 1;
      Resolved(order[..n], answer) + match answer(order[n]) case Found(item) => [(order[n], item)] case _ => []
  }

  /** The resolved items not watched so far, in order. */
  function NewlyTracked(resolved: seq<(int, S.Item)>, watched: set<int>): seq<int> {
    if resolved == [] then [] else
      var n := |resolved| - 1;
      NewlyTracked(resolved[..n], watched) + if resolved[n].0 in watched then [] else [resolved[n].0]
  }

  lemma {:induction false} NewlyTrackedExact(resolved: seq<(int, S.Item)>, watched: set<int>)
    ensures forall a :: a in NewlyTracked(resolved, watched) <==> a in S.ResolvedAoids(resolved) && a !in watched
  {
    if resolved != [] {
      NewlyTrackedExact(resolved[..|resolved| - 1], watched);
      AoidsOfFront(resolved);
    }
  }

  ghost predicate Enumerates(order: seq<int>, s: set<int>) {
    && (forall a :: a in order <==> a in s)
    && (forall i, j | 0 <= i < j < |order| :: order[i] != order[j])
  }

  lemma {:induction false} ResolvedExact(order: seq<int>, s: set<int>, answer: int -> Answer)
    requires Enumerates(order, s)
    ensures S.ResolvedAoids(Resolved(order, answer)) == (set a | a in s && answer(a).Found?)
    ensures Distinct(Resolved(order, answer))
    ensures forall i | 0 <= i < |Resolved(order, answer)| ::
              answer(Resolved(order, answer)[i].0) == Found(Resolved(order, answer)[i].1)
    decreases order
  {
    var all := Resolved(order, answer);
    if order != [] {
      var n := |order| - 1;
      assert order == order[..n] + [order[n]];
      ResolvedExact(order[..n], s - {order[n]}, answer);
      if answer(order[n]).Found? {
        AoidsOfFront(all);
        assert all[..|all| - 1] == Resolved(order[..n], answer);
        forall i | 0 <= i < |all| - 1
          ensures all[i].0 != order[n]
        {
          assert all[i].0 in S.ResolvedAoids(all[..|all| - 1]) by {
            assert all[..|all| - 1][i] == all[i];
          }
        }
      } else {
        assert all == Resolved(order[..n], answer);
      }
    } else {
      assert forall a | a in s :: a in order;
    }
  }

  method Enumerate(s: set<int>) returns (order: seq<int>)
    ensures Enumerates(order, s)
  {
    order := [];
    var left := s;
    while left != {}
      invariant left <= s && (forall a :: a in s <==> a in order || a in left) && (forall a | a in order :: a !in left)
      invariant forall i, j | 0 <= i < j < |order| :: order[i] != order[j]
      decreases left
    {
      var a := R.Take(left);
      order, left := order + [a], left - {a};
    }
  }

  function RoundOf(asked: set<int>, order: seq<int>, answer: int -> Answer, clock: Clock, raised: bool): B.Round {
    B.Round(clock.start, asked, Lookups(order, answer, clock), raised)
  }

  lemma RoundIsProper(rows: B.Rows, asked: set<int>, order: seq<int>, answer: int -> Answer, clock: Clock, raised: bool)
    requires ClockOk(clock) && Enumerates(order, B.Due(rows, asked, clock.start))
    ensures B.Proper(rows, RoundOf(asked, order, answer, clock, raised))
  {
    var r := RoundOf(asked, order, answer, clock, raised);
    forall a
      ensures B.LookedUp(r, a) <==> a in order
    {
      if a in order {
        var i :| 0 <= i < |order| && order[i] == a;
        assert r.lookups[i].aoid == a;
      }
    }
  }

  /** A recorded lookup extends what is recorded, an overflow ends it. */
  lemma LookupsStep(order: seq<int>, n: nat, answer: int -> Answer, clock: Clock)
    requires n < |order|
    ensures Lookups(order[..n + 1], answer, clock) ==
      Lookups(order[..n], answer, clock) + [LookupOf(order[n], answer, clock)]
    ensures Resolved(order[..n + 1], answer) ==
      Resolved(order[..n], answer) + if answer(order[n]).Found? then [(order[n], answer(order[n]).item)] else []
  {
    assert order[..n + 1][..n] == order[..n];
  }

  lemma RecordStep(rows: B.Rows, ls: seq<B.Lookup>, l: B.Lookup)
    ensures B.RecordAll(rows, ls + [l]) ==
      if B.RecordAll(rows, ls).ok then B.Record(B.RecordAll(rows, ls).rows, l) else B.RecordAll(rows, ls)
  {
    assert (ls + [l])[..|ls|] == ls;
  }

  /** Nothing is recorded after an overflow. */
  lemma {:induction false} StopsThere(rows: B.Rows, order: seq<int>, n: nat, answer: int -> Answer, clock: Clock)
    requires n <= |order| && !B.RecordAll(rows, Lookups(order[..n], answer, clock)).ok
    ensures B.RecordAll(rows, Lookups(order, answer, clock)) == B.RecordAll(rows, Lookups(order[..n], answer, clock))
    decreases |order|
  {
    hide B.Record;
    if n == |order| {
      assert order[..n] == order;
    } else {
      var m := |order| - 1;
      assert order[..m][..n] == order[..n];
      StopsThere(rows, order[..m], n, answer, clock);
      assert order[..m + 1] == order;
      LookupsStep(order, m, answer, clock);
      RecordStep(rows, Lookups(order[..m], answer, clock), LookupOf(order[m], answer, clock));
    }
  }

  predicate AnyFailed(order: seq<int>, answer: int -> Answer) {
    exists a :: a in order && answer(a).Failed?
  }

  /** What a resync meets: its settings, the pages, the answers to lookups, the clock, and
      which announcements raise. */
  datatype Sync = Sync(enabled: bool, count: int, page: Pages, answer: int -> Answer, clock: Clock, now: int,
                       raises: int -> bool, summaryRaises: bool)

  /** No page could be used, or the resync is switched off. */
  predicate Idle(s: Sync) {
    !s.enabled || s.count < 1 || Usable(s.page, PageLimit(s.count)) == 0
  }

  function Asked(page: Pages, count: int): set<int>
    requires count >= 1
  {
    set a | a in Ranked(page, count)
  }

  /** The round of lookups of a resync, in the order the set of due items gave. */
  function RoundOfSync(s: Sync, order: seq<int>): B.Round
    requires s.count >= 1
  {
    RoundOf(Asked(s.page, s.count), order, s.answer, s.clock, AnyFailed(order, s.answer))
  }

  function SyncRows(rows: B.Rows, s: Sync, order: seq<int>): B.Rows {
    if Idle(s) then rows else B.Effect(rows, RoundOfSync(s, order))
  }

  /** The watch table is written once all answers are recorded, up to the first
      announcement that raises. */
  ghost function SyncWorld(w: S.World, rows: B.Rows, s: Sync, order: seq<int>): S.World
    requires Distinct(Resolved(order, s.answer))
  {
    if Idle(s) || !B.Completes(rows, RoundOfSync(s, order)) then w
    else
      var resolved := Resolved(order, s.answer);
      Synced(w, resolved, s.now, Upserts(resolved, w.db.watch.Keys, s.raises))
  }

  /** The lookup raises, or finds nothing with 35 failures on record. */
  predicate EndsIt(rows: B.Rows, answer: int -> Answer, a: int) {
    answer(a).Failed? || (answer(a).Missing? && a in rows && rows[a].failureCount >= 35)
  }

  /** The backoff rows once all answers are recorded: none for an item found, one more failure
      for one not found, with the time of recording, and the others as before. */
  ghost predicate RowsAfter(before: B.Rows, after: B.Rows, order: seq<int>, answer: int -> Answer, clock: Clock) {
    && (forall a | a in order && answer(a).Found? :: a !in after)
    && (forall a | a in order && answer(a).Missing? ::
          var k := (if a in before then before[a].failureCount else 0) + 1;
          a in after && after[a] == B.Row(k, clock.recorded(a), clock.recorded(a) + B.Delay(k)))
    && (forall a | a !in order :: B.RowOf(after, a) == B.RowOf(before, a))
  }

  lemma AnswersRecorded(rows: B.Rows, order: seq<int>, answer: int -> Answer, clock: Clock)
    requires B.RowsValid(rows) && forall i, j | 0 <= i < j < |order| :: order[i] != order[j]
    requires B.RecordAll(rows, Lookups(order, answer, clock)).ok
    ensures RowsAfter(rows, B.RecordAll(rows, Lookups(order, answer, clock)).rows, order, answer, clock)
  {
    hide B.RecordAll, B.Record, B.RowsValid, Lookups, B.Delay;
    var ls := Lookups(order, answer, clock);
    forall a
      ensures a !in order ==> B.RowOf(B.RecordAll(rows, ls).rows, a) == B.RowOf(rows, a)
    {
      assert forall i | 0 <= i < |order| :: ls[i].aoid == order[i] && order[i] in order;
      B.RecordAllRow(rows, ls, a);
    }
    forall a | a in order
      ensures B.RowOf(B.RecordAll(rows, ls).rows, a) == B.RowOf(B.Record(rows, LookupOf(a, answer, clock)).rows, a)
      ensures answer(a).Found? || B.Failures(rows, a) < 35
    {
      var i :| 0 <= i < |order| && order[i] == a;
      assert ls[i] == LookupOf(a, answer, clock);
      B.RecordAllRow(rows, ls, a);
    }
    forall a | a in order {
      B.RecordKeepsValid(rows, LookupOf(a, answer, clock));
    }
  }

  /** A resync gets to its writes exactly when no lookup ends it. */
  lemma AbortsExactly(rows: B.Rows, s: Sync, order: seq<int>)
    requires B.RowsValid(rows) && s.count >= 1 && forall i, j | 0 <= i < j < |order| :: order[i] != order[j]
    ensures B.Completes(rows, RoundOfSync(s, order)) <==> forall a | a in order :: !EndsIt(rows, s.answer, a)
  {
    hide B.RecordAll, B.RowsValid, Lookups;
    var r := RoundOfSync(s, order);
    assert forall i | 0 <= i < |r.lookups| :: r.lookups[i] == LookupOf(order[i], s.answer, s.clock);
    B.RecordAllRow(rows, r.lookups, 0);
    if a :| a in order && EndsIt(rows, s.answer, a) {
      var i :| 0 <= i < |order| && order[i] == a;
      assert r.lookups[i] == LookupOf(a, s.answer, s.clock);
    }
  }

  /** The watch rows after a whole resync: the items found are there as they were found and
      are the auto-tracked ones; old rows keep their times, new ones were never polled. */
  ghost predicate Replaced(before: map<int, S.Watch>, after: map<int, S.Watch>, found: set<int>, answer: int -> Answer,
        now: int) {
    && after.Keys == before.Keys + found
    && (forall a | a in after :: after[a].autoTracked <==> a in found)
    && (forall a | a in found && a in after :: answer(a) == Found(after[a].item))
    && (forall a | a in before && a in after ::
          after[a].firstSeen == before[a].firstSeen && after[a].lastPolled == before[a].lastPolled)
    && (forall a | a in after && a !in before :: after[a].firstSeen == now && after[a].lastPolled == S.NegInfinity)
  }

  ghost predicate NewRows(before: map<int, S.Watch>, after: map<int, S.Watch>, announced: seq<int>) {
    forall a :: a in announced <==> a in after && a !in before
  }

  class AutoTracker {
    const service: M.Service
    const backoff: B.AodbBackoffRepo

    constructor (service: M.Service, backoff: B.AodbBackoffRepo)
      ensures this.service == service && this.backoff == backoff
    {
      this.service := service;
      this.backoff := backoff;
    }

    /** Record the answers one after the other. False when an overflow cut this short. */
    method RecordAnswers(order: seq<int>, answer: int -> Answer, clock: Clock)
      returns (resolved: seq<(int, S.Item)>, ok: bool)
      requires B.RowsValid(backoff.rows) && forall a | a in order :: !answer(a).Failed?
      modifies backoff
      ensures B.RowsValid(backoff.rows)
      ensures B.Recorded(backoff.rows, ok) == B.RecordAll(old(backoff.rows), Lookups(order, answer, clock))
      ensures ok ==> resolved == Resolved(order, answer)
    {
      resolved := [];
      ghost var rows := backoff.rows;
      for i := 0 to |order|
        invariant B.RowsValid(backoff.rows)
        invariant B.Recorded(backoff.rows, true) == B.RecordAll(rows, Lookups(order[..i], answer, clock))
        invariant resolved == Resolved(order[..i], answer)
      {
        hide B.RecordAll, Lookups, Resolved, B.RowsValid, B.NextRetryAt, B.Delay;
        var aoid := order[i];
        LookupsStep(order, i, answer, clock);
        RecordStep(rows, Lookups(order[..i], answer, clock), LookupOf(aoid, answer, clock));
        B.RecordKeepsValid(backoff.rows, LookupOf(aoid, answer, clock));
        match answer(aoid)
        case Found(item) =>
          backoff.RecordSuccess(aoid);
          resolved := resolved + [(aoid, item)];
        case Missing =>
          var recorded := backoff.RecordFailure(aoid, clock.recorded(aoid));
          if !recorded {
            StopsThere(rows, order, i + 1, answer, clock);
            return resolved, false;
          }
      }
      assert order[..|order|] == order;
      ok := true;
    }

    /** The writes at the end of a resync, up to the first announcement that raises. */
    method TrackResolved(resolved: seq<(int, S.Item)>, now: int, raises: int -> bool)
      returns (announced: seq<int>, ok: bool)
      requires Distinct(resolved)
      modifies service.repo
      ensures
        var watched := old(service.repo.watch.Keys);
        var done := Upserts(resolved, watched, raises);
        && service.World() == Synced(old(service.World()), resolved, now, done)
        && announced == NewlyTracked(resolved[..done], watched)
        && ok == !Cut(resolved, watched, raises)
    {
      hide Synced, S.Unflag, S.UpsertWatch, S.UpsertAll, NewlyTracked, Upserts, Cut, Distinct;
      ghost var w, watched := service.World(), service.repo.watch.Keys;
      var aoids := set i | 0 <= i < |resolved| :: resolved[i].0;
      service.repo.UnflagAutotrackNotIn(aoids);
      ghost var unflagged := service.repo.Db();
      UnflagKeys(w.db, aoids);
      NothingUpserted(unflagged, resolved, now, watched, raises);
      var existing := service.repo.ExistingAoids(aoids);
      announced := [];
      for i := 0 to |resolved|
        invariant service.repo.Db() == S.UpsertAll(unflagged, resolved[..i], now)
        invariant announced == NewlyTracked(resolved[..i], watched)
        invariant !Cut(resolved[..i], watched, raises)
      {
        var aoid := resolved[i].0;
        TrackOne(unflagged, resolved, now, watched, raises, i);
        var isNew := service.repo.UpsertWatch(aoid, resolved[i].1, true, now);
        if aoid !in existing {
          announced := announced + [aoid];
          if raises(aoid) {
            SyncedIs(w, resolved, now, i + 1);
            return announced, false;
          }
        }
      }
      assert resolved[..|resolved|] == resolved;
      UpsertsExact(resolved, watched, raises);
      SyncedIs(w, resolved, now, |resolved|);
      ok := true;
    }

    /** `sync_top_traded_items`. The items due are looked up in whatever order the set
        gives; an exception from a lookup, or an overflow while recording, ends it before
        any watch row is written, an announcement that raises ends it in the middle. */
    method SyncTopTradedItems(s: Sync) returns (outcome: Outcome, announced: seq<int>, ghost order: seq<int>)
      requires B.RowsValid(backoff.rows)
      modifies service.repo, backoff
      ensures B.RowsValid(backoff.rows) && Distinct(Resolved(order, s.answer))
      ensures !Idle(s) ==> Enumerates(order, B.Due(old(backoff.rows), Asked(s.page, s.count), s.clock.start))
      ensures backoff.rows == SyncRows(old(backoff.rows), s, order)
      ensures service.World() == SyncWorld(old(service.World()), old(backoff.rows), s, order)
      ensures outcome.Skipped? <==> !s.enabled || s.count < 1 || !HasItems(s.page, 1)
      ensures outcome.Skipped? ==> backoff.rows == old(backoff.rows)
      ensures outcome.Skipped? || outcome.Aborted? ==> service.World() == old(service.World()) && announced == []
      ensures !outcome.Skipped? ==> s.count >= 1 && forall a :: a in order <==>
                a in Ranked(s.page, s.count) &&
                (a in old(backoff.rows) ==> old(backoff.rows)[a].nextRetry <= s.clock.start)
      ensures outcome.Aborted? <==>
                !outcome.Skipped? && exists a :: a in order && EndsIt(old(backoff.rows), s.answer, a)
      ensures outcome.Aborted? <==> !Idle(s) && !B.Completes(old(backoff.rows), RoundOfSync(s, order))
      ensures outcome.CutShort? || outcome.Done? ==>
                var resolved, watched := Resolved(order, s.answer), old(service.repo.watch.Keys);
                && (outcome.Done? <==> !Cut(resolved, watched, s.raises) && !s.summaryRaises)
                && announced == NewlyTracked(resolved[..Upserts(resolved, watched, s.raises)], watched)
                && (outcome.Done? ==>
                      outcome.rankedCount == |Ranked(s.page, s.count)| &&
                      PagesRead(s.page, s.count, outcome.pagesFetched))
      ensures outcome.CutShort? || outcome.Done? ==>
                RowsAfter(old(backoff.rows), backoff.rows, order, s.answer, s.clock)
      ensures outcome.Done? ==>
                var found := set a | a in order && s.answer(a).Found?;
                && outcome.resolvedCount == |found|
                && Replaced(old(service.repo.watch), service.repo.watch, found, s.answer, s.now)
                && NewRows(old(service.repo.watch), service.repo.watch, announced)
    {
      hide *;
      ghost var w, rows := service.World(), backoff.rows;
      announced, order := [], [];
      WatchIs(service);
      NothingResolved(s.answer);
      if !s.enabled || s.count < 1 {
        SkippedIs(w, rows, s, order);
        return Skipped, announced, order;
      }
      var aoids, pagesFetched := RankedAoids(s.count, s.page);
      FirstPage(s, pagesFetched);
      if pagesFetched == 0 {
        SkippedIs(w, rows, s, order);
        return Skipped, announced, order;
      }
      var asked := set a | a in aoids;
      var due := backoff.DueForRetry(asked, s.clock.start);
      var dueAoids := Enumerate(due);
      order := dueAoids;
      ResolvedExact(order, due, s.answer);
      AskedIs(s, aoids, asked);
      DueInOrder(order, due);
      AbortsExactly(rows, s, order);
      SyncIs(w, rows, s, order);
      if AnyFailed(dueAoids, s.answer) {
        return Aborted, announced, order;
      }
      NoneFailed(order, s.answer);
      var resolved, ok := RecordAnswers(dueAoids, s.answer, s.clock);
      if !ok {
        return Aborted, announced, order;
      }
      AnswersRecorded(rows, order, s.answer, s.clock);
      var tracked;
      announced, tracked := TrackResolved(resolved, s.now, s.raises);
      if !tracked || s.summaryRaises {
        return CutShort, announced, order;
      }
      outcome := Done(pagesFetched, |aoids|, |resolved|);
      WatchIs(service);
      DoneIs(w, order, s.answer, s.now, s.raises);
    }
  }

  lemma WatchIs(service: M.Service)
    ensures service.World().db.watch == service.repo.watch
  {}

  /** The tables after a resync that was not cut short, row by row. */
  lemma DoneIs(w: S.World, order: seq<int>, answer: int -> Answer, now: int, raises: int -> bool)
    requires Distinct(Resolved(order, answer)) && !Cut(Resolved(order, answer), w.db.watch.Keys, raises)
    requires forall i, j | 0 <= i < j < |order| :: order[i] != order[j]
    ensures
      var resolved, found := Resolved(order, answer), set a | a in order && answer(a).Found?;
      var done := Upserts(resolved, w.db.watch.Keys, raises);
      var t, u := w.db, Synced(w, resolved, now, done).db;
      && |resolved| == |found| && Replaced(t.watch, u.watch, found, answer, now)
      && NewRows(t.watch, u.watch, NewlyTracked(resolved[..done], w.db.watch.Keys))
  {
    hide *;
    var resolved, asked := Resolved(order, answer), set a | a in order;
    var found := set a | a in order && answer(a).Found?;
    InSetOrder(order, asked);
    ResolvedExact(order, asked, answer);
    assert found == set a | a in asked && answer(a).Found?;
    UpsertsExact(resolved, w.db.watch.Keys, raises);
    assert resolved[..|resolved|] == resolved;
    ResolvedSize(resolved);
    WholeResync(w, resolved, now, answer);
    AddedRows(w, resolved, now);
  }

  lemma InSetOrder(order: seq<int>, asked: set<int>)
    requires asked == (set a | a in order) && forall i, j | 0 <= i < j < |order| :: order[i] != order[j]
    ensures Enumerates(order, asked)
  {}

  lemma AddedRows(w: S.World, resolved: seq<(int, S.Item)>, now: int)
    requires Distinct(resolved)
    ensures NewRows(w.db.watch, Synced(w, resolved, now, |resolved|).db.watch, NewlyTracked(resolved, w.db.watch.Keys))
  {
    hide Synced, NewlyTracked, S.ResolvedAoids;
    ResyncComplete(w, resolved, now);
    NewlyTrackedExact(resolved, w.db.watch.Keys);
  }

  lemma WholeResync(w: S.World, resolved: seq<(int, S.Item)>, now: int, answer: int -> Answer)
    requires Distinct(resolved) && forall i | 0 <= i < |resolved| :: answer(resolved[i].0) == Found(resolved[i].1)
    ensures
      Replaced(w.db.watch, Synced(w, resolved, now, |resolved|).db.watch, S.ResolvedAoids(resolved), answer, now)
  {
    hide Synced, S.ResolvedAoids, Distinct;
    var u := Synced(w, resolved, now, |resolved|).db;
    ResyncComplete(w, resolved, now);
    ResyncExact(w, resolved, now, |resolved|);
    assert resolved[..|resolved|] == resolved;
    forall a | a in u.watch
      ensures u.watch[a].autoTracked <==> a in S.ResolvedAoids(resolved)
      ensures a in S.ResolvedAoids(resolved) ==> answer(a) == Found(u.watch[a].item)
      ensures a !in w.db.watch ==> u.watch[a].firstSeen == now && u.watch[a].lastPolled == S.NegInfinity
    {
      FoundRow(w, resolved, now, a);
      assert u.watch[a].autoTracked <==> a in AutoTracked(u);
    }
    hide AutoTracked;
  }

  /** The row of a resolved item, after a whole resync. */
  lemma FoundRow(w: S.World, resolved: seq<(int, S.Item)>, now: int, a: int)
    requires Distinct(resolved)
    ensures a in S.ResolvedAoids(resolved) ==>
      var u := Synced(w, resolved, now, |resolved|).db;
      && a in u.watch && (exists i :: 0 <= i < |resolved| && resolved[i] == (a, u.watch[a].item))
      && (a !in w.db.watch ==> u.watch[a].firstSeen == now && u.watch[a].lastPolled == S.NegInfinity)
  {
    hide S.UpsertAll, S.Unflag;
    if i :| 0 <= i < |resolved| && resolved[i].0 == a {
      var v := S.Unflag(w.db, S.ResolvedAoids(resolved));
      UnflagKeys(w.db, S.ResolvedAoids(resolved));
      assert resolved[..|resolved|] == resolved;
      SyncedIs(w, resolved, now, |resolved|);
      UpsertAllRow(v, resolved, now, i);
      assert resolved[i] == (a, resolved[i].1);
    }
  }

  lemma {:induction false} ResolvedSize(resolved: seq<(int, S.Item)>)
    requires Distinct(resolved)
    ensures |S.ResolvedAoids(resolved)| == |resolved|
  {
    if resolved != [] {
      var n := |resolved| - 1;
      ResolvedSize(resolved[..n]);
      AoidsOfFront(resolved);
      assert resolved[n].0 !in S.ResolvedAoids(resolved[..n]);
    }
  }

  lemma SkippedIs(w: S.World, rows: B.Rows, s: Sync, order: seq<int>)
    requires Distinct(Resolved(order, s.answer))
    requires !s.enabled || s.count < 1 || !HasItems(s.page, 1)
    ensures Idle(s) && SyncWorld(w, rows, s, order) == w && SyncRows(rows, s, order) == rows
  {}

  /** The first page decides whether any page is read. */
  lemma FirstPage(s: Sync, pagesFetched: nat)
    requires s.enabled && s.count >= 1 && PagesRead(s.page, s.count, pagesFetched)
    ensures pagesFetched == 0 <==> !HasItems(s.page, 1)
    ensures pagesFetched > 0 ==> !Idle(s)
  {
    NothingYet(s.page);
    hide Joined, Dedup;
  }

  lemma AskedIs(s: Sync, aoids: seq<int>, asked: set<int>)
    requires s.count >= 1 && aoids == Ranked(s.page, s.count) && asked == (set a | a in aoids)
    ensures asked == Asked(s.page, s.count)
    ensures forall a :: a in asked <==> a in Ranked(s.page, s.count)
  {
    hide Ranked;
  }

  lemma DueInOrder(order: seq<int>, due: set<int>)
    requires Enumerates(order, due)
    ensures (forall a :: a in order <==> a in due) && forall i, j | 0 <= i < j < |order| :: order[i] != order[j]
  {}

  lemma NoneFailed(order: seq<int>, answer: int -> Answer)
    requires !AnyFailed(order, answer)
    ensures forall a | a in order :: !answer(a).Failed?
  {}

  /** What a resync that is not skipped leaves: nothing is recorded when a lookup raised, and
      the market tables are written once all answers are recorded. */
  lemma SyncIs(w: S.World, rows: B.Rows, s: Sync, order: seq<int>)
    requires !Idle(s) && Distinct(Resolved(order, s.answer))
    ensures
      var recorded := B.RecordAll(rows, Lookups(order, s.answer, s.clock));
      var failed, resolved := AnyFailed(order, s.answer), Resolved(order, s.answer);
      && s.count >= 1
      && (B.Completes(rows, RoundOfSync(s, order)) <==> !failed && recorded.ok)
      && SyncRows(rows, s, order) == (if failed then rows else recorded.rows)
      && SyncWorld(w, rows, s, order) ==
           (if failed || !recorded.ok then w
            else Synced(w, resolved, s.now, Upserts(resolved, w.db.watch.Keys, s.raises)))
  {
    hide Synced, Upserts, B.RecordAll, Lookups, Resolved, Distinct;
  }

  lemma SyncedIs(w: S.World, resolved: seq<(int, S.Item)>, now: int, done: nat)
    requires Distinct(resolved) && done <= |resolved|
    ensures Synced(w, resolved, now, done) ==
      w.(db := S.UpsertAll(S.Unflag(w.db, S.ResolvedAoids(resolved)), resolved[..done], now))
  {
    hide S.UpsertAll, S.Unflag, S.ResolvedAoids;
  }

  lemma UnflagKeys(t: S.Tables, keep: set<int>)
    ensures S.Unflag(t, keep).watch.Keys == t.watch.Keys
  {}

  lemma NothingUpserted(t: S.Tables, resolved: seq<(int, S.Item)>, now: int, watched: set<int>, raises: int -> bool)
    ensures S.UpsertAll(t, resolved[..0], now) == t && NewlyTracked(resolved[..0], watched) == []
    ensures !Cut(resolved[..0], watched, raises)
  {}

  lemma NothingResolved(answer: int -> Answer)
    ensures Distinct(Resolved([], answer))
  {}

  /** One more upsert of a resync. */
  lemma TrackOne(t: S.Tables, resolved: seq<(int, S.Item)>, now: int, watched: set<int>, raises: int -> bool, i: nat)
    requires i < |resolved| && !Cut(resolved[..i], watched, raises)
    ensures
      var (aoid, item) := resolved[i];
      && S.UpsertAll(t, resolved[..i + 1], now) ==
           S.UpsertWatch(S.UpsertAll(t, resolved[..i], now), aoid, item, true, now)
      && NewlyTracked(resolved[..i + 1], watched) ==
           NewlyTracked(resolved[..i], watched) + (if aoid in watched then [] else [aoid])
      && (Cut(resolved[..i + 1], watched, raises) <==> aoid !in watched && raises(aoid))
      && (aoid !in watched && raises(aoid) ==>
            Cut(resolved, watched, raises) && Upserts(resolved, watched, raises) == i + 1)
  {
    hide S.UpsertWatch;
    var (aoid, item) := resolved[i];
    assert resolved[..i + 1][..i] == resolved[..i] && resolved[..i + 1][i] == resolved[i];
    CutFront(resolved[..i + 1], watched, raises);
    if aoid !in watched && raises(aoid) {
      CutThere(resolved, watched, raises, i + 1);
    }
  }

  lemma {:induction false} CutThere(resolved: seq<(int, S.Item)>, watched: set<int>, raises: int -> bool, n: nat)
    requires 0 < n <= |resolved| && Cut(resolved[..n], watched, raises) && !Cut(resolved[..n - 1], watched, raises)
    ensures Cut(resolved, watched, raises) && Upserts(resolved, watched, raises) == n
    decreases |resolved|
  {
    var m := |resolved| - 1;
    if n == |resolved| {
      assert resolved[..n] == resolved;
    } else {
      assert resolved[..m][..n] == resolved[..n] && resolved[..m][..n - 1] == resolved[..n - 1];
      CutThere(resolved[..m], watched, raises, n);
      var i :| 0 <= i < m && resolved[..m][i].0 !in watched && raises(resolved[..m][i].0);
      assert resolved[i] == resolved[..m][i];
    }
  }

  /** What a completed resync means: the auto-tracked items are exactly the ranked items
      that were due for a lookup and were found, the announced ones exactly those not
      watched before. */
  lemma SyncMeaning(w: S.World, rows: B.Rows, s: Sync, order: seq<int>)
    requires !Idle(s) && B.Completes(rows, RoundOfSync(s, order))
    requires Enumerates(order, B.Due(rows, Asked(s.page, s.count), s.clock.start))
    requires !Cut(Resolved(order, s.answer), w.db.watch.Keys, s.raises)
    ensures Distinct(Resolved(order, s.answer))
    ensures
      var u, due := SyncWorld(w, rows, s, order).db, B.Due(rows, Asked(s.page, s.count), s.clock.start);
      && AutoTracked(u) == (set a | a in due && s.answer(a).Found?)
      && (forall a ::
            a in NewlyTracked(Resolved(order, s.answer), w.db.watch.Keys) <==> a in u.watch && a !in w.db.watch)
      && w.db.watch.Keys <= u.watch.Keys
      && (forall a | a in AutoTracked(u) :: s.answer(a) == Found(u.watch[a].item))
  {
    var resolved := Resolved(order, s.answer);
    var due := B.Due(rows, Asked(s.page, s.count), s.clock.start);
    ResolvedExact(order, due, s.answer);
    UpsertsExact(resolved, w.db.watch.Keys, s.raises);
    ResyncExact(w, resolved, s.now, |resolved|);
    ResyncComplete(w, resolved, s.now);
    NewlyTrackedExact(resolved, w.db.watch.Keys);
    hide Synced, Idle, Resolved, NewlyTracked, Enumerates, Upserts, Cut, B.Completes, RoundOfSync;
    var u := Synced(w, resolved, s.now, |resolved|).db;
    forall a | a in AutoTracked(u)
      ensures s.answer(a) == Found(u.watch[a].item)
    {
      var i :| 0 <= i < |resolved| && resolved[i].0 == a;
      assert u.watch[resolved[i].0].item == resolved[i].1;
    }
  }

  // ---- an item that stays missing ----

  /** A resync that ranks the item after its last delay is over, and does not find it. */
  ghost predicate Misses(rows: B.Rows, s: Sync, order: seq<int>, aoid: int) {
    && !Idle(s) && ClockOk(s.clock) && Distinct(Resolved(order, s.answer))
    && Enumerates(order, B.Due(rows, Asked(s.page, s.count), s.clock.start))
    && aoid in Ranked(s.page, s.count) && !s.answer(aoid).Found?
    && (aoid in rows ==> s.clock.start >= rows[aoid].nextRetry)
  }

  lemma MissedAgain(w: S.World, rows: B.Rows, s: Sync, order: seq<int>, aoid: int)
    requires B.RowsValid(rows) && B.Failures(rows, aoid) == 35 && Misses(rows, s, order, aoid)
    ensures SyncWorld(w, rows, s, order) == w
    ensures B.RowsValid(SyncRows(rows, s, order)) && B.RowOf(SyncRows(rows, s, order), aoid) == B.RowOf(rows, aoid)
  {
    assert s.count >= 1;
    hide Ranked, Resolved, Idle, B.Completes, B.RowsValid, B.Effect, Distinct, Synced;
    var r := RoundOfSync(s, order);
    RoundIsProper(rows, Asked(s.page, s.count), order, s.answer, s.clock, AnyFailed(order, s.answer));
    assert aoid in order;
    var i :| 0 <= i < |order| && order[i] == aoid;
    assert r.lookups[i].aoid == aoid;
    B.OverflowRound(rows, r, aoid);
  }

  /** The world after a series of resyncs, each with the order in which it looked items up. */
  ghost function AfterSyncs(w: S.World, rows: B.Rows, syncs: seq<(Sync, seq<int>)>): S.World
    requires forall k | 0 <= k < |syncs| :: Distinct(Resolved(syncs[k].1, syncs[k].0.answer))
    decreases |syncs|
  {
    if syncs == [] then w
    else
      var (s, order) := syncs[0];
      AfterSyncs(SyncWorld(w, rows, s, order), SyncRows(rows, s, order), syncs[1..])
  }

  ghost predicate AllMiss(rows: B.Rows, syncs: seq<(Sync, seq<int>)>, aoid: int)
    decreases |syncs|
  {
    syncs == [] ||
    (Misses(rows, syncs[0].0, syncs[0].1, aoid) && AllMiss(SyncRows(rows, syncs[0].0, syncs[0].1), syncs[1..], aoid))
  }

  lemma {:induction false} AllMissDistinct(rows: B.Rows, syncs: seq<(Sync, seq<int>)>, aoid: int)
    requires AllMiss(rows, syncs, aoid)
    ensures forall k | 0 <= k < |syncs| :: Distinct(Resolved(syncs[k].1, syncs[k].0.answer))
    decreases |syncs|
  {
    hide SyncRows, Resolved, Distinct;
    if syncs != [] {
      AllMissDistinct(SyncRows(rows, syncs[0].0, syncs[0].1), syncs[1..], aoid);
      assert forall k | 0 < k < |syncs| :: syncs[k] == syncs[1..][k - 1];
    }
  }

  /** One ranked item that stays missing with 35 failures on record freezes the auto-tracked
      set: no number of resyncs that rank it changes anything in the market tables. */
  lemma {:induction false} Frozen(w: S.World, rows: B.Rows, syncs: seq<(Sync, seq<int>)>, aoid: int)
    requires B.RowsValid(rows) && B.Failures(rows, aoid) == 35 && AllMiss(rows, syncs, aoid)
    ensures forall k | 0 <= k < |syncs| :: Distinct(Resolved(syncs[k].1, syncs[k].0.answer))
    ensures AfterSyncs(w, rows, syncs) == w
    decreases |syncs|
  {
    AllMissDistinct(rows, syncs, aoid);
    hide SyncRows, SyncWorld, Misses, Resolved, Distinct, B.RowsValid;
    if syncs != [] {
      var (s, order) := syncs[0];
      var after := SyncRows(rows, s, order);
      MissedAgain(w, rows, s, order, aoid);
      assert B.Failures(after, aoid) == 35;
      AllMissDistinct(after, syncs[1..], aoid);
      Frozen(w, after, syncs[1..], aoid);
    }
  }
}
