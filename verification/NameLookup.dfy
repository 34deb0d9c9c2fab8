/** The overlapping name lookups of `aochat/client.py`. `lookup_user` gives up control
    where it awaits, so replies, timeouts and other lookups come in between. */
module NameLookup {
  import opened Wrappers

  /** `str.lower`, left open. */
  type Fold = string -> string

  /** A future is waiting, holds the outcome, or was given up by the timeout. */
  datatype Future = Waiting | Outcome(resolved: Option<nat>) | TimedOut

  datatype State = State(
    nameToId: map<string, nat>,      // _name_to_id
    waiters: map<string, nat>,       // _lookup_waiters: the future registered for a name
    futures: map<nat, Future>,
    calls: map<nat, string>)         // the lookups waiting for their future, with their key

  const INITIAL := State(map[], map[], map[], map[])

  datatype Step =
    | Begin(id: nat, name: string)
    | Reply(charId: nat, name: string)
    | Timeout(id: nat)
    | Finish(id: nat)
    | SendFails(id: nat)

  predicate Enabled(s: State, step: Step) {
    match step
    case Begin(id, _) => id !in s.futures
    case Reply(_, _) => true
    case Timeout(id) => id in s.calls && id in s.futures
    case Finish(id) => id in s.calls && id in s.futures && s.futures[id] != Waiting
    case SendFails(id) => id in s.calls
  }

  function Resolve(charId: nat): Option<nat> {
    if charId == 0xFFFF_FFFF then None else Some(charId)
  }

  /** A reply sets the registered future, unless it is done already. */
  function Woken(s: State, key: string, resolved: Option<nat>): map<nat, Future> {
    if key in s.waiters && s.waiters[key] in s.futures && s.futures[s.waiters[key]] == Waiting
    then s.futures[s.waiters[key] := Outcome(resolved)] else s.futures
  }

  /** The end of a lookup takes out whatever waiter is registered for its key. */
  function Leave(s: State, id: nat): State
    requires id in s.calls
  {
    s.(waiters := s.waiters - {s.calls[id]}, calls := s.calls - {id})
  }

  function Next(s: State, step: Step, fold: Fold): State
    requires Enabled(s, step)
  {
    match step
    case Begin(id, name) =>
      if fold(name) in s.nameToId then s
      else s.(waiters := s.waiters[fold(name) := id], futures := s.futures[id := Waiting],
              calls := s.calls[id := fold(name)])
    case Reply(charId, name) =>
      var resolved := Resolve(charId);
      s.(nameToId := if resolved.Some? then s.nameToId[fold(name) := charId] else s.nameToId,
         futures := Woken(s, fold(name), resolved))
    case Timeout(id) => s.(futures := s.futures[id := TimedOut])
    case Finish(id) => Leave(s, id)
    case SendFails(id) => Leave(s, id)
  }

  /** What the step returns to a caller of `lookup_user`, if it ends a call normally. */
  function Returned(s: State, step: Step, fold: Fold): Option<Option<nat>>
    requires Enabled(s, step)
  {
    match step
    case Begin(_, name) => if fold(name) in s.nameToId then Some(Some(s.nameToId[fold(name)])) else None
    case Finish(id) => Some(if s.futures[id].Outcome? then s.futures[id].resolved else None)
    case _ => None
  }

  class AOChatClient {
    const fold: Fold
    var nameToId: map<string, nat>
    var lookupWaiters: map<string, nat>
    var futures: map<nat, Future>
    var calls: map<nat, string>

    ghost function Current(): State
      reads this
    {
      State(nameToId, lookupWaiters, futures, calls)
    }

    constructor (fold: Fold)
      ensures this.fold == fold && Current() == INITIAL
    {
      this.fold := fold;
      nameToId, lookupWaiters, futures, calls := map[], map[], map[], map[];
    }

    /** `lookup_user` up to its first await. */
    method BeginLookup(id: nat, name: string) returns (cached: Option<nat>)
      requires Enabled(Current(), Begin(id, name))
      modifies this`futures, this`lookupWaiters, this`calls
      ensures cached == if fold(name) in nameToId then Some(nameToId[fold(name)]) else None
      ensures cached.Some? ==> futures == old(futures) && lookupWaiters == old(lookupWaiters) && calls == old(calls)
      ensures cached == None ==> futures == old(futures)[id := Waiting] && calls == old(calls)[id := fold(name)]
      ensures cached == None ==> lookupWaiters == old(lookupWaiters)[fold(name) := id]
      ensures Current() == Next(old(Current()), Begin(id, name), fold)
      ensures Returned(old(Current()), Begin(id, name), fold) == if cached.Some? then Some(cached) else None
    {
      var key := fold(name);
      if key in nameToId {
        return Some(nameToId[key]);
      }
      futures := futures[id := Waiting];
      lookupWaiters := lookupWaiters[key := id];
      calls := calls[id := key];
      return None;
    }

    /** The AOCP_CLIENT_LOOKUP branch of `_dispatch`. */
    method DispatchLookup(charId: nat, name: string)
      modifies this`nameToId, this`futures
      ensures nameToId == if charId == 0xFFFF_FFFF then old(nameToId) else old(nameToId)[fold(name) := charId]
      ensures
        var waits := fold(name) in lookupWaiters && lookupWaiters[fold(name)] in old(futures) &&
                     old(futures)[lookupWaiters[fold(name)]] == Waiting;
        futures == if !waits then old(futures)
                   else old(futures)[lookupWaiters[fold(name)] :=
                          Outcome(if charId == 0xFFFF_FFFF then None else Some(charId))]
      ensures Current() == Next(old(Current()), Reply(charId, name), fold)
    {
      var resolved := if charId == 0xFFFF_FFFF then None else Some(charId);
      if resolved.Some? {
        nameToId := nameToId[fold(name) := charId];
      }
      var key := fold(name);
      if key in lookupWaiters {
        var future := lookupWaiters[key];
        if future in futures && futures[future] == Waiting {
          futures := futures[future := Outcome(resolved)];
        }
      }
    }

    /** `asyncio.wait_for` runs out; a result set but not yet taken is given up too. */
    method TimeoutLookup(id: nat)
      requires Enabled(Current(), Timeout(id))
      modifies this`futures
      ensures futures == old(futures)[id := TimedOut]
      ensures Current() == Next(old(Current()), Timeout(id), fold)
    {
      futures := futures[id := TimedOut];
    }

    /** `lookup_user` after its await, with the `finally` clause. */
    method FinishLookup(id: nat) returns (r: Option<nat>)
      requires Enabled(Current(), Finish(id))
      modifies this`lookupWaiters, this`calls
      ensures id in futures && r == if futures[id].Outcome? then futures[id].resolved else None
      ensures id in old(calls) && calls == old(calls) - {id}
      ensures id in old(calls) ==> lookupWaiters == old(lookupWaiters) - {old(calls)[id]}
      ensures Current() == Next(old(Current()), Finish(id), fold)
      ensures Returned(old(Current()), Finish(id), fold) == Some(r)
    {
      r := if futures[id].Outcome? then futures[id].resolved else None;
      lookupWaiters := lookupWaiters - {calls[id]};
      calls := calls - {id};
    }
  }

  // ---- runs ----

  ghost predicate IsRun(steps: seq<Step>, fold: Fold)
    decreases |steps|, 0
  {
    steps == [] || (IsRun(steps[..|steps| - 1], fold) && Enabled(After(steps[..|steps| - 1], fold), steps[|steps| - 1]))
  }

  ghost function After(steps: seq<Step>, fold: Fold): State
    requires IsRun(steps, fold)
    decreases |steps|, 1
  {
    if steps == [] then INITIAL else Next(After(steps[..|steps| - 1], fold), steps[|steps| - 1], fold)
  }

  // ---- the cache ----

  /** The last id the server reported for the key. */
  function LatestReply(steps: seq<Step>, fold: Fold, key: string): Option<nat> {
    if steps == [] then None else
      match steps[|steps| - 1]
      case Reply(charId, name) =>
        if fold(name) == key && charId != 0xFFFF_FFFF then Some(charId)
        else LatestReply(steps[..|steps| - 1], fold, key)
      case _ => LatestReply(steps[..|steps| - 1], fold, key)
  }

  /** The cache holds the latest non-miss reply for every name, and nothing else. */
  lemma {:induction false} CacheIsLatest(steps: seq<Step>, fold: Fold, key: string)
    requires IsRun(steps, fold)
    ensures
      var cache := After(steps, fold).nameToId;
      (if key in cache then Some(cache[key]) else None) == LatestReply(steps, fold, key)
    decreases |steps|
  {
    if steps != [] {
      CacheIsLatest(steps[..|steps| - 1], fold, key);
    }
  }

  // ---- results ----

  predicate Reports(step: Step, fold: Fold, key: string, charId: nat) {
    step.Reply? && fold(step.name) == key && step.charId == charId && charId != 0xFFFF_FFFF
  }

  predicate Asks(step: Step, fold: Fold, key: string, id: nat) {
    step.Begin? && fold(step.name) == key && step.id == id
  }

  ghost predicate Asked(steps: seq<Step>, fold: Fold, key: string, id: nat) {
    exists i :: 0 <= i < |steps| && Asks(steps[i], fold, key, id)
  }

  /** The server reported the id for the key after the lookup had begun. */
  ghost predicate Answered(steps: seq<Step>, fold: Fold, key: string, id: nat, charId: nat) {
    exists i, j :: 0 <= i < j < |steps| && Asks(steps[i], fold, key, id) && Reports(steps[j], fold, key, charId)
  }

  lemma {:induction false} LatestIsReported(steps: seq<Step>, fold: Fold, key: string)
    ensures var r := LatestReply(steps, fold, key);
            r.Some? ==> exists j :: 0 <= j < |steps| && Reports(steps[j], fold, key, r.value)
  {
    if steps != [] {
      LatestIsReported(steps[..|steps| - 1], fold, key);
      assert LatestReply(steps, fold, key).Some? ==>
          (Reports(steps[|steps| - 1], fold, key, LatestReply(steps, fold, key).value) ||
           LatestReply(steps, fold, key) == LatestReply(steps[..|steps| - 1], fold, key));
    }
  }

  /** Registered waiters are calls in flight under their own key; every outcome in a
      future was reported while its call was in flight. */
  ghost predicate Consistent(steps: seq<Step>, s: State, fold: Fold) {
    && WaitersInFlight(s)
    && (forall id | id in s.calls :: id in s.futures && Asked(steps, fold, s.calls[id], id))
    && (forall id | id in s.calls && s.futures[id].Outcome? && s.futures[id].resolved.Some? ::
          Answered(steps, fold, s.calls[id], id, s.futures[id].resolved.value))
  }

  lemma AskedLater(steps: seq<Step>, fold: Fold, key: string, id: nat)
    requires steps != [] && Asked(steps[..|steps| - 1], fold, key, id)
    ensures Asked(steps, fold, key, id)
    ensures forall c | Reports(steps[|steps| - 1], fold, key, c) :: Answered(steps, fold, key, id, c)
  {
    var i :| 0 <= i < |steps| - 1 && Asks(steps[..|steps| - 1][i], fold, key, id);
    assert Asks(steps[i], fold, key, id);
  }

  lemma AnsweredLater(steps: seq<Step>, fold: Fold, key: string, id: nat, charId: nat)
    requires steps != [] && Answered(steps[..|steps| - 1], fold, key, id, charId)
    ensures Answered(steps, fold, key, id, charId)
  {
    var front := steps[..|steps| - 1];
    var i, j :| 0 <= i < j < |front| && Asks(front[i], fold, key, id) && Reports(front[j], fold, key, charId);
    assert Asks(steps[i], fold, key, id) && Reports(steps[j], fold, key, charId);
  }

  ghost predicate WaitersInFlight(s: State) {
    forall k | k in s.waiters :: s.waiters[k] in s.calls && s.calls[s.waiters[k]] == k
  }

  lemma WaitersStay(s: State, step: Step, fold: Fold)
    requires Enabled(s, step) && WaitersInFlight(s) && s.calls.Keys <= s.futures.Keys
    ensures WaitersInFlight(Next(s, step, fold))
  {}

  lemma {:induction false} StaysConsistent(steps: seq<Step>, fold: Fold)
    requires IsRun(steps, fold)
    ensures Consistent(steps, After(steps, fold), fold)
    decreases |steps|
  {
    if steps != [] {
      var front, last := steps[..|steps| - 1], steps[|steps| - 1];
      StaysConsistent(front, fold);
      var s, v := After(front, fold), After(steps, fold);
      WaitersStay(s, last, fold);
      hide Answered, Asked;
      forall id | id in v.calls
        ensures id in v.futures && Asked(steps, fold, v.calls[id], id)
        ensures v.futures[id].Outcome? && v.futures[id].resolved.Some? ==>
                  Answered(steps, fold, v.calls[id], id, v.futures[id].resolved.value)
      {
        if id in s.calls {
          AskedLater(steps, fold, s.calls[id], id);
          if s.futures[id].Outcome? && s.futures[id].resolved.Some? {
            AnsweredLater(steps, fold, s.calls[id], id, s.futures[id].resolved.value);
          }
        } else {
          assert Asks(steps[|steps| - 1], fold, v.calls[id], id);
        }
      }
    }
  }

  /** A lookup returns None or an id the server reported for its own folded name: at once
      the latest one reported, or, having waited, one reported since it began. */
  lemma LookupSafety(steps: seq<Step>, step: Step, fold: Fold)
    requires IsRun(steps, fold) && Enabled(After(steps, fold), step)
    ensures
      var s := After(steps, fold);
      match Returned(s, step, fold)
      case None => true
      case Some(None) => step.Finish?
      case Some(Some(charId)) =>
        charId != 0xFFFF_FFFF &&
        (if step.Begin? then LatestReply(steps, fold, fold(step.name)) == Some(charId)
         else step.Finish? && Answered(steps, fold, s.calls[step.id], step.id, charId))
  {
    StaysConsistent(steps, fold);
    if step.Begin? {
      CacheIsLatest(steps, fold, fold(step.name));
      LatestIsReported(steps, fold, fold(step.name));
    }
  }

  // ---- which lookups are answered ----

  /** A reply answers exactly the lookup registered for its name that still waits. */
  lemma ReplyAnswersOne(steps: seq<Step>, charId: nat, name: string, fold: Fold, id: nat)
    requires IsRun(steps, fold) && id in After(steps, fold).calls
    ensures id in After(steps, fold).futures
    ensures
      var s := After(steps, fold);
      var v := Next(s, Reply(charId, name), fold);
      && (v.futures[id] != s.futures[id] <==>
          s.futures[id] == Waiting && fold(name) in s.waiters && s.waiters[fold(name)] == id)
      && (v.futures[id] != s.futures[id] ==> v.futures[id] == Outcome(Resolve(charId)) && s.calls[id] == fold(name))
  {
    StaysConsistent(steps, fold);
  }

  /** The lookup waits and its waiter was replaced or taken out by another one. */
  predicate Orphaned(s: State, id: nat) {
    && id in s.calls && id in s.futures && !s.futures[id].Outcome?
    && !(s.calls[id] in s.waiters && s.waiters[s.calls[id]] == id)
  }

  /** The second of two overlapping lookups of a name orphans the first, and the end of
      either of them orphans the other. */
  lemma OverlapOrphans(s: State, first: nat, second: nat, name: string, fold: Fold)
    requires first in s.calls && first in s.futures && s.futures[first] == Waiting && s.calls[first] == fold(name)
    requires Enabled(s, Begin(second, name)) && fold(name) !in s.nameToId
    ensures
      var v := Next(s, Begin(second, name), fold);
      && Orphaned(v, first) && !Orphaned(v, second)
      && Orphaned(Next(Next(v, Timeout(first), fold), Finish(first), fold), second)
  {}

  /** The lookup has been orphaned, and may have ended since. */
  predicate Lost(s: State, id: nat) {
    id in s.futures && (id in s.calls ==> Orphaned(s, id))
  }

  lemma StaysLost(s: State, step: Step, fold: Fold, id: nat)
    requires Enabled(s, step) && Lost(s, id)
    requires WaitersInFlight(s)
    ensures Lost(Next(s, step, fold), id)
  {}

  lemma {:induction false} RunStaysLost(steps: seq<Step>, more: seq<Step>, fold: Fold, id: nat)
    requires IsRun(steps, fold) && IsRun(steps + more, fold) && Lost(After(steps, fold), id)
    ensures Lost(After(steps + more, fold), id)
    decreases |more|
  {
    hide Lost, Orphaned, Next, Enabled, Asked, Answered;
    var all := steps + more;
    if more == [] {
      assert all == steps;
    } else {
      var n := |more| - 1;
      assert all[..|all| - 1] == steps + more[..n] && all[|all| - 1] == more[n];
      StaysConsistent(steps + more[..n], fold);
      RunStaysLost(steps, more[..n], fold, id);
      StaysLost(After(steps + more[..n], fold), more[n], fold, id);
    }
  }

  /** An orphaned lookup is never answered: whatever follows, it ends with None or the
      exception of its own send. */
  lemma OrphanEndsWithNone(steps: seq<Step>, more: seq<Step>, fold: Fold, id: nat)
    requires IsRun(steps, fold) && IsRun(steps + more, fold) && Orphaned(After(steps, fold), id)
    requires Enabled(After(steps + more, fold), Finish(id))
    ensures Returned(After(steps + more, fold), Finish(id), fold) == Some(None)
  {
    RunStaysLost(steps, more, fold, id);
  }
}
