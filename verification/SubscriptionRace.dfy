/** `subscribe` as overlapping calls. A call reads the user, the subscription and the
    count, then commits the watch row and the subscription; other calls and other
    operations run between any two of these, and a callback that raises ends a call
    anywhere. The unique and foreign keys are checked by the database in the commit itself,
    the limit is not: it is read and acted on apart. */
module SubscriptionRace {
  import opened Collections
  import opened Wrappers
  import M = MarketState
  import R = MarketRepo

  /** How far a call has come: the checks it has passed, and the watch row committed. */
  datatype Progress = Begun | UserRead | SubscriptionRead | Admitted | WatchCommitted

  datatype Call = Call(player: string, aoid: int, at: Progress)

  datatype State = State(users: set<string>, watch: set<int>, subs: set<(string, int)>, calls: map<nat, Call>)

  datatype Step =
    | Begin(id: nat, player: string, aoid: int)
    | ReadUser(id: nat)
    | ReadSubscription(id: nat)
    | ReadCount(id: nat)
    | CommitWatch(id: nat)
    | CommitSubscription(id: nat)
    | Raise(id: nat)
    | Register(player: string)
    | Unregister(player: string)
    | Unsubscribe(player: string, aoid: int)
    | DropWatches(aoids: set<int>)

  /** The player's subscriptions. */
  function Held(s: State, player: string): set<(string, int)> {
    set k | k in s.subs && k.0 == player
  }

  function InFlight(s: State, player: string): set<nat> {
    set id | id in s.calls.Keys && s.calls[id].player == player
  }

  /** The calls past the limit check that have not added their subscription yet. */
  function Past(s: State, player: string): set<nat> {
    set id | id in InFlight(s, player) && (s.calls[id].at == Admitted || s.calls[id].at == WatchCommitted)
  }

  /** When a call can take a step: in the order of the source. */
  predicate Enabled(s: State, step: Step) {
    match step
    case Begin(id, _, _) => id !in s.calls
    case ReadUser(id) => id in s.calls && s.calls[id].at == Begun
    case ReadSubscription(id) => id in s.calls && s.calls[id].at == UserRead
    case ReadCount(id) => id in s.calls && s.calls[id].at == SubscriptionRead
    case CommitWatch(id) => id in s.calls && s.calls[id].at == Admitted
    case CommitSubscription(id) => id in s.calls && s.calls[id].at == WatchCommitted
    case Raise(id) => id in s.calls
    case _ => true
  }

  /** The call goes on when the check passes and ends with an exception otherwise. */
  function Check(s: State, id: nat, passes: bool, at: Progress): State
    requires id in s.calls
  {
    s.(calls := if passes then s.calls[id := s.calls[id].(at := at)] else s.calls - {id})
  }

  function Next(s: State, step: Step, limit: int): State
    requires Enabled(s, step)
  {
    match step
    case Begin(id, player, aoid) => s.(calls := s.calls[id := Call(player, aoid, Begun)])
    case ReadUser(id) => Check(s, id, s.calls[id].player in s.users, UserRead)
    case ReadSubscription(id) => Check(s, id, (s.calls[id].player, s.calls[id].aoid) !in s.subs, SubscriptionRead)
    case ReadCount(id) => Check(s, id, |Held(s, s.calls[id].player)| < limit, Admitted)
    case CommitWatch(id) => Check(s.(watch := s.watch + {s.calls[id].aoid}), id, true, WatchCommitted)
    case CommitSubscription(id) =>
      var call := s.calls[id];
      var row := (call.player, call.aoid);
      var ok := call.player in s.users && call.aoid in s.watch && row !in s.subs;
      State(s.users, s.watch, if ok then s.subs + {row} else s.subs, s.calls - {id})
    case Raise(id) => s.(calls := s.calls - {id})
    case Register(player) => s.(users := s.users + {player})
    case Unregister(player) => s.(users := s.users - {player}, subs := s.subs - Held(s, player))
    case Unsubscribe(player, aoid) => s.(subs := s.subs - {(player, aoid)})
    case DropWatches(aoids) => s.(watch := s.watch - aoids, subs := set k | k in s.subs && k.1 !in aoids)
  }

  // ---- runs ----

  /** A run with a constant limit in which never more than k calls of the player overlap. */
  ghost predicate IsRun(s: State, steps: seq<Step>, limit: int, player: string, k: nat)
    decreases |steps|, 0
  {
    && |InFlight(s, player)| <= k
    && (steps == [] ||
        var front := steps[..|steps| - 1];
        && IsRun(s, front, limit, player, k)
        && Enabled(After(s, front, limit, player, k), steps[|steps| - 1])
        && |InFlight(Next(After(s, front, limit, player, k), steps[|steps| - 1], limit), player)| <= k)
  }

  ghost function After(s: State, steps: seq<Step>, limit: int, player: string, k: nat): State
    requires IsRun(s, steps, limit, player, k)
    decreases |steps|, 1
  {
    if steps == [] then s else Next(After(s, steps[..|steps| - 1], limit, player, k), steps[|steps| - 1], limit)
  }

  lemma RemoveOne<T>(a: set<T>, b: set<T>, x: T)
    requires x in a && b <= a - {x}
    ensures |b| + 1 <= |a|
  {
    SubsetSize(b + {x}, a);
  }

  /** Subscriptions held plus calls past the check: the sum grows only at the check,
      which needs a count below the limit. */
  lemma StepKeepsBound(s: State, step: Step, limit: int, player: string, k: nat)
    requires Enabled(s, step) && limit >= 1
    requires |Held(s, player)| + |Past(s, player)| <= limit + k - 1
    requires |InFlight(Next(s, step, limit), player)| <= k
    ensures var v := Next(s, step, limit); |Held(v, player)| + |Past(v, player)| <= limit + k - 1
  {
    var v := Next(s, step, limit);
    if step.ReadCount? && s.calls[step.id].player == player {
      assert Held(v, player) == Held(s, player);
      if |Held(s, player)| < limit {
        SubsetSize(Past(v, player), InFlight(v, player));
      } else {
        SubsetSize(Past(v, player), Past(s, player));
      }
    } else if step.CommitSubscription? && s.calls[step.id].player == player {
      RemoveOne(Past(s, player), Past(v, player), step.id);
      SubsetSize(Held(v, player), Held(s, player) + {(player, s.calls[step.id].aoid)});
    } else {
      SubsetSize(Held(v, player), Held(s, player));
      SubsetSize(Past(v, player), Past(s, player));
    }
  }

  lemma {:induction false} RunKeepsBound(s: State, steps: seq<Step>, limit: int, player: string, k: nat)
    requires IsRun(s, steps, limit, player, k) && limit >= 1
    requires |Held(s, player)| + |Past(s, player)| <= limit + k - 1
    ensures var v := After(s, steps, limit, player, k); |Held(v, player)| + |Past(v, player)| <= limit + k - 1
    decreases |steps|
  {
    hide Next, Enabled, Held, Past, InFlight;
    if steps != [] {
      var front := steps[..|steps| - 1];
      RunKeepsBound(s, front, limit, player, k);
      StepKeepsBound(After(s, front, limit, player, k), steps[|steps| - 1], limit, player, k);
    }
  }

  /** With at most k overlapping calls a player never holds more than L + k - 1
      subscriptions; serial calls (k = 1) never exceed L. */
  lemma LimitUnderOverlap(s: State, steps: seq<Step>, limit: int, player: string, k: nat)
    requires IsRun(s, steps, limit, player, k) && limit >= 1 && k >= 1
    requires |Held(s, player)| <= limit && s.calls == map[]
    ensures |Held(After(s, steps, limit, player, k), player)| <= limit + k - 1
  {
    assert Past(s, player) == {};
    RunKeepsBound(s, steps, limit, player, k);
  }

  // ---- the keys, which each commit of the database checks ----

  ghost predicate KeysHold(s: State) {
    forall k | k in s.subs :: k.0 in s.users && k.1 in s.watch
  }

  lemma {:induction false} KeysAlwaysHold(s: State, steps: seq<Step>, limit: int, player: string, k: nat)
    requires IsRun(s, steps, limit, player, k) && KeysHold(s)
    ensures KeysHold(After(s, steps, limit, player, k))
    decreases |steps|
  {
    if steps != [] {
      KeysAlwaysHold(s, steps[..|steps| - 1], limit, player, k);
    }
  }

  // ---- the bound is reached ----

  /** The numbers from n up to m. */
  function Ids(n: nat, m: nat): (s: set<nat>)
    ensures |s| == (if n <= m then m - n else 0)
    ensures forall id :: id in s <==> n <= id < m
    decreases m
  {
    if m <= n then {} else Ids(n, m - 1) + {m - 1}
  }

  /** The player's subscriptions to the items 0..n, one at a time. */
  function Rows(player: string, n: nat): (s: set<(string, int)>)
    ensures |s| == n
    ensures forall k :: k in s <==> k.0 == player && 0 <= k.1 < n
  {
    if n == 0 then {} else Rows(player, n - 1) + {(player, n - 1)}
  }

  function Items(n: nat): (s: set<int>)
    ensures forall a :: a in s <==> 0 <= a < n
  {
    if n == 0 then {} else Items(n - 1) + {n - 1}
  }

  /** Items 0..n subscribed to, items n..m admitted but not committed. */
  function Staged(player: string, n: nat, m: nat): (s: State) {
    State({player}, Items(n), Rows(player, n), map id | id in Ids(n, m) :: Call(player, id, Admitted))
  }

  lemma StagedSize(player: string, n: nat, m: nat)
    ensures |Held(Staged(player, n, m), player)| == n
  {
    assert Held(Staged(player, n, m), player) == Rows(player, n);
  }

  lemma StagedCalls(player: string, n: nat, m: nat)
    requires n <= m
    ensures |InFlight(Staged(player, n, m), player)| == m - n
  {
    assert InFlight(Staged(player, n, m), player) == Ids(n, m);
  }

  lemma NoCalls(player: string, n: nat)
    ensures Staged(player, n, n).calls == map[]
  {
    assert Ids(n, n) == {};
  }

  lemma Extend(s: State, steps: seq<Step>, limit: int, player: string, k: nat, step: Step, v: State)
    requires IsRun(s, steps, limit, player, k) && Enabled(After(s, steps, limit, player, k), step)
    requires Next(After(s, steps, limit, player, k), step, limit) == v && |InFlight(v, player)| <= k
    ensures IsRun(s, steps + [step], limit, player, k) && After(s, steps + [step], limit, player, k) == v
  {
    hide Enabled, Next, InFlight;
    assert (steps + [step])[..|steps|] == steps;
  }

  /** The call for item m up to the point where it has passed the limit check. */
  ghost function Partial(player: string, n: nat, m: nat, at: Progress): State {
    Staged(player, n, m).(calls := Staged(player, n, m).calls[m := Call(player, m, at)])
  }

  lemma PartialCalls(player: string, n: nat, m: nat, at: Progress)
    requires n <= m
    ensures |InFlight(Partial(player, n, m, at), player)| == m - n + 1
  {
    StagedCalls(player, n, m);
    assert InFlight(Partial(player, n, m, at), player) == InFlight(Staged(player, n, m), player) + {m};
  }

  lemma PartialSteps(player: string, n: nat, m: nat)
    requires n <= m
    ensures
      var s := Staged(player, n, m);
      && Enabled(s, Begin(m, player, m)) && Next(s, Begin(m, player, m), n + 1) == Partial(player, n, m, Begun)
      && Enabled(Partial(player, n, m, Begun), ReadUser(m))
      && Next(Partial(player, n, m, Begun), ReadUser(m), n + 1) == Partial(player, n, m, UserRead)
      && Enabled(Partial(player, n, m, UserRead), ReadSubscription(m))
      && Next(Partial(player, n, m, UserRead), ReadSubscription(m), n + 1) == Partial(player, n, m, SubscriptionRead)
  {
    hide Rows, Ids, Items;
  }

  /** The check itself: the count read does not see the other admitted calls. */
  lemma PartialAdmitted(player: string, n: nat, m: nat)
    requires n <= m
    ensures Enabled(Partial(player, n, m, SubscriptionRead), ReadCount(m))
    ensures Next(Partial(player, n, m, SubscriptionRead), ReadCount(m), n + 1) == Staged(player, n, m + 1)
  {
    hide Rows, Ids, Items;
    var s := Partial(player, n, m, SubscriptionRead);
    StagedSize(player, n, m);
    assert Held(s, player) == Held(Staged(player, n, m), player);
    assert s.calls[m := s.calls[m].(at := Admitted)] == Staged(player, n, m + 1).calls;
  }

  /** One more call past the check: all of them see the same count. */
  lemma AdmitOne(player: string, n: nat, m: nat, k: nat, s: State, steps: seq<Step>) returns (more: seq<Step>)
    requires n <= m < n + k
    requires IsRun(s, steps, n + 1, player, k) && After(s, steps, n + 1, player, k) == Staged(player, n, m)
    ensures IsRun(s, more, n + 1, player, k) && After(s, more, n + 1, player, k) == Staged(player, n, m + 1)
  {
    hide *;
    PartialSteps(player, n, m);
    PartialAdmitted(player, n, m);
    PartialCalls(player, n, m, Begun);
    PartialCalls(player, n, m, UserRead);
    PartialCalls(player, n, m, SubscriptionRead);
    StagedCalls(player, n, m + 1);
    Extend(s, steps, n + 1, player, k, Begin(m, player, m), Partial(player, n, m, Begun));
    more := steps + [Begin(m, player, m)];
    Extend(s, more, n + 1, player, k, ReadUser(m), Partial(player, n, m, UserRead));
    more := more + [ReadUser(m)];
    Extend(s, more, n + 1, player, k, ReadSubscription(m), Partial(player, n, m, SubscriptionRead));
    more := more + [ReadSubscription(m)];
    Extend(s, more, n + 1, player, k, ReadCount(m), Staged(player, n, m + 1));
    more := more + [ReadCount(m)];
  }

  ghost function HalfCommitted(player: string, n: nat, m: nat): State {
    var s := Staged(player, n, m);
    s.(watch := s.watch + {n as int}, calls := s.calls[n := Call(player, n, WatchCommitted)])
  }

  lemma CommitsWatch(player: string, n: nat, m: nat, limit: int)
    requires n < m
    ensures Enabled(Staged(player, n, m), CommitWatch(n))
    ensures Next(Staged(player, n, m), CommitWatch(n), limit) == HalfCommitted(player, n, m)
  {
    hide Rows, Ids, Items;
  }

  lemma CommitsSubscription(player: string, n: nat, m: nat, limit: int)
    requires n < m
    ensures Enabled(HalfCommitted(player, n, m), CommitSubscription(n))
    ensures Next(HalfCommitted(player, n, m), CommitSubscription(n), limit) == Staged(player, n + 1, m)
  {
    hide Rows, Ids, Items;
    var v, u := Next(HalfCommitted(player, n, m), CommitSubscription(n), limit), Staged(player, n + 1, m);
    assert v.calls == u.calls && v.watch == u.watch;
    assert v.subs == u.subs;
  }

  lemma CommitCalls(player: string, n: nat, m: nat)
    requires n < m
    ensures |InFlight(HalfCommitted(player, n, m), player)| == m - n
  {
    hide Rows, Ids, Items;
    StagedCalls(player, n, m);
    assert InFlight(HalfCommitted(player, n, m), player) == InFlight(Staged(player, n, m), player);
  }

  lemma CommitOne(player: string, n: nat, m: nat, k: nat, limit: int, s: State, steps: seq<Step>)
    returns (more: seq<Step>)
    requires n < m <= n + k
    requires IsRun(s, steps, limit, player, k) && After(s, steps, limit, player, k) == Staged(player, n, m)
    ensures IsRun(s, more, limit, player, k) && After(s, more, limit, player, k) == Staged(player, n + 1, m)
  {
    hide *;
    CommitsWatch(player, n, m, limit);
    CommitsSubscription(player, n, m, limit);
    CommitCalls(player, n, m);
    StagedCalls(player, n + 1, m);
    Extend(s, steps, limit, player, k, CommitWatch(n), HalfCommitted(player, n, m));
    more := steps + [CommitWatch(n)];
    Extend(s, more, limit, player, k, CommitSubscription(n), Staged(player, n + 1, m));
    more := more + [CommitSubscription(n)];
  }

  /** The bound is exact: for every limit L >= 1 and every k >= 1 there is a run from
      L - 1 subscriptions, with never more than k calls in flight, that ends with
      L + k - 1 of them. */
  lemma LimitBoundIsReached(player: string, limit: nat, k: nat) returns (s: State, steps: seq<Step>)
    requires limit >= 1 && k >= 1
    ensures s.calls == map[] && |Held(s, player)| == limit - 1
    ensures IsRun(s, steps, limit, player, k)
    ensures |Held(After(s, steps, limit, player, k), player)| == limit + k - 1
  {
    hide *;
    var n := limit - 1;
    s, steps := Staged(player, n, n), [];
    NoCalls(player, n);
    StagedSize(player, n, n);
    StagedCalls(player, n, n);
    StagedSize(player, n + k, n + k);
    NoSteps(s, limit, player, k);
    for m := n to n + k
      invariant IsRun(s, steps, limit, player, k) && After(s, steps, limit, player, k) == Staged(player, n, m)
    {
      steps := AdmitOne(player, n, m, k, s, steps);
    }
    for c := n to n + k
      invariant IsRun(s, steps, limit, player, k) && After(s, steps, limit, player, k) == Staged(player, c, n + k)
    {
      steps := CommitOne(player, c, n + k, k, limit, s, steps);
    }
  }

  lemma NoSteps(s: State, limit: int, player: string, k: nat)
    requires |InFlight(s, player)| <= k
    ensures IsRun(s, [], limit, player, k) && After(s, [], limit, player, k) == s
  {}

  // ---- a call by itself ----

  /** A call that runs to its end with nothing in between. */
  function Alone(s: State, id: nat, player: string, aoid: int, limit: int): State
    requires id !in s.calls
  {
    var s1 := Next(s, Begin(id, player, aoid), limit);
    var s2 := Next(s1, ReadUser(id), limit);
    if id !in s2.calls then s2 else
      var s3 := Next(s2, ReadSubscription(id), limit);
      if id !in s3.calls then s3 else
        var s4 := Next(s3, ReadCount(id), limit);
        if id !in s4.calls then s4 else
          Next(Next(s4, CommitWatch(id), limit), CommitSubscription(id), limit)
  }

  function Seen(t: M.Tables): State {
    State(t.isAdmin.Keys, t.watch.Keys, t.subs.Keys, map[])
  }

  /** The state in the middle of a lone call. */
  function Underway(s: State, id: nat, player: string, aoid: int, at: Progress): State {
    s.(calls := map[id := Call(player, aoid, at)])
  }

  lemma CheckAlone(s: State, id: nat, player: string, aoid: int, at: Progress, passes: bool, to: Progress)
    requires s.calls == map[]
    ensures Check(Underway(s, id, player, aoid, at), id, passes, to) ==
      if passes then Underway(s, id, player, aoid, to) else s
  {
    var calls := map[id := Call(player, aoid, at)];
    assert calls[id := calls[id].(at := to)] == map[id := Call(player, aoid, to)];
    assert calls - {id} == map[];
  }

  lemma ChecksAlone(s: State, id: nat, player: string, aoid: int, limit: int)
    requires s.calls == map[]
    ensures
      var s1, s2, s3, s4 := Underway(s, id, player, aoid, Begun), Underway(s, id, player, aoid, UserRead),
        Underway(s, id, player, aoid, SubscriptionRead), Underway(s, id, player, aoid, Admitted);
      && Next(s, Begin(id, player, aoid), limit) == s1
      && Next(s1, ReadUser(id), limit) == (if player in s.users then s2 else s)
      && Next(s2, ReadSubscription(id), limit) == (if (player, aoid) !in s.subs then s3 else s)
      && Next(s3, ReadCount(id), limit) == (if |Held(s, player)| < limit then s4 else s)
  {
    hide Check;
    var s3 := Underway(s, id, player, aoid, SubscriptionRead);
    CheckAlone(s, id, player, aoid, Begun, player in s.users, UserRead);
    CheckAlone(s, id, player, aoid, UserRead, (player, aoid) !in s.subs, SubscriptionRead);
    CheckAlone(s, id, player, aoid, SubscriptionRead, |Held(s, player)| < limit, Admitted);
    assert Held(s3, player) == Held(s, player);
  }

  lemma CommitsAlone(s: State, id: nat, player: string, aoid: int, limit: int)
    requires s.calls == map[] && player in s.users && (player, aoid) !in s.subs
    ensures
      var s4 := Underway(s, id, player, aoid, Admitted);
      var s5 := Next(s4, CommitWatch(id), limit);
      && Enabled(s5, CommitSubscription(id))
      && Next(s5, CommitSubscription(id), limit) ==
           State(s.users, s.watch + {aoid}, s.subs + {(player, aoid)}, map[])
  {
    hide Check;
    CheckAlone(s.(watch := s.watch + {aoid}), id, player, aoid, Admitted, true, WatchCommitted);
    var s5 := Underway(s.(watch := s.watch + {aoid}), id, player, aoid, WatchCommitted);
    assert Next(Underway(s, id, player, aoid, Admitted), CommitWatch(id), limit) == s5;
    assert s5.calls - {id} == map[];
  }

  lemma AloneExact(s: State, id: nat, player: string, aoid: int, limit: int)
    requires s.calls == map[]
    ensures Alone(s, id, player, aoid, limit) ==
      if player !in s.users || (player, aoid) in s.subs || |Held(s, player)| >= limit then s
      else State(s.users, s.watch + {aoid}, s.subs + {(player, aoid)}, map[])
  {
    hide Next, Held;
    ChecksAlone(s, id, player, aoid, limit);
    if player in s.users && (player, aoid) !in s.subs {
      CommitsAlone(s, id, player, aoid, limit);
    }
  }

  lemma SubscribedKeys(t: M.Tables, player: string, aoid: int, item: M.Item, limit: int, now: int)
    ensures var u := M.SubscribeTo(t, player, aoid, Some(item), limit, now);
      Seen(u) ==
        if player !in t.isAdmin || (player, aoid) in t.subs || |M.SubscribedBy(t, player)| >= limit then Seen(t)
        else State(t.isAdmin.Keys, t.watch.Keys + {aoid}, t.subs.Keys + {(player, aoid)}, map[])
  {
    hide M.LogAction, M.SubscribedBy;
  }

  /** Uncut, the call does to users, watch rows and subscriptions what `subscribe` does. */
  lemma AloneIsSubscribe(t: M.Tables, id: nat, player: string, aoid: int, item: M.Item, limit: int, now: int)
    ensures Alone(Seen(t), id, player, aoid, limit) == Seen(M.SubscribeTo(t, player, aoid, Some(item), limit, now))
  {
    hide Alone, M.SubscribeTo;
    R.SubscriptionsOf(t.subs, player);
    AloneExact(Seen(t), id, player, aoid, limit);
    SubscribedKeys(t, player, aoid, item, limit, now);
    assert Held(Seen(t), player) == set k | k in t.subs && k.0 == player;
  }
}
