/** `db/aodb_backoff_repo.py`: which items may be looked up again, and when. */
module Backoff {
  import opened Powers
  import opened Wrappers

  const HOUR: int := 3_600_000_000
  const DAY: int := 24 * HOUR
  const WEEK: int := 7 * DAY

  /** The largest number of days in a Python timedelta. */
  const MAX_DAYS: int := 999_999_999

  /** A row of the table; times in microseconds. */
  datatype Row = Row(failureCount: nat, lastAttempted: int, nextRetry: int)

  type Rows = map<int, Row>

  /** `_next_retry_at`. One hour is multiplied first and capped afterwards, so a product
      beyond the timedelta range raises OverflowError: None. */
  function NextRetryAt(failureCount: nat, now: int): Option<int>
    requires failureCount >= 1
  {
    var delay := HOUR * Pow2(failureCount - 1);
    if delay / DAY > MAX_DAYS then None else Some(now + if delay < WEEK then delay else WEEK)
  }

  /** The intended delay after the k-th failure in a row: 2^(k-1) hours, at most a week. */
  function Delay(k: nat): int
    requires k >= 1
  {
    if k <= 8 then HOUR * Pow2(k - 1) else WEEK
  }

  /** One hour after the first failure, twice as long after each further one, and from the
      ninth on a week. */
  lemma DelayValues(k: nat)
    requires k >= 1
    ensures Delay(1) == 3_600_000_000
    ensures k < 8 ==> Delay(k + 1) == 2 * Delay(k)
    ensures k >= 9 ==> Delay(k) == 604_800_000_000
  {
    assert Pow2(0) == 1;
  }

  lemma {:induction false} Pow2Grows(m: nat, n: nat)
    requires m <= n
    ensures Pow2(m) <= Pow2(n)
    decreases n
  {
    if m < n {
      Pow2Grows(m, n - 1);
    }
  }

  lemma {:induction false} Pow2Sum(m: nat, n: nat)
    ensures Pow2(m + n) == Pow2(m) * Pow2(n)
    decreases n
  {
    if n > 0 {
      Pow2Sum(m, n - 1);
      assert Pow2(m + n) == 2 * Pow2(m + n - 1);
    }
  }

  lemma Pow2Values()
    ensures Pow2(7) == 128 && Pow2(8) == 256 && Pow2(34) == 17_179_869_184 && Pow2(35) == 34_359_738_368
  {
    Pow2Sum(4, 3);
    assert Pow2(4) == 16 && Pow2(3) == 8;
    Pow2Sum(8, 8);
    Pow2Sum(16, 16);
    Pow2Sum(32, 2);
  }

  lemma HoursOf(p: nat)
    ensures HOUR * p / DAY > MAX_DAYS <==> p >= 24_000_000_000
    ensures HOUR * p < WEEK <==> p < 168
  {}

  /** The schedule is as intended exactly up to the 35th failure. */
  lemma NextRetryExact(failureCount: nat, now: int)
    requires failureCount >= 1
    ensures NextRetryAt(failureCount, now) == if failureCount <= 35 then Some(now + Delay(failureCount)) else None
  {
    var n := failureCount - 1;
    Pow2Values();
    HoursOf(Pow2(n));
    if n <= 7 {
      Pow2Grows(n, 7);
    } else if n <= 34 {
      Pow2Grows(8, n);
      Pow2Grows(n, 34);
    } else {
      Pow2Grows(35, n);
    }
    hide Pow2;
  }

  // ---- the table ----

  /** The aoids that never failed or whose time has come. */
  function Due(rows: Rows, aoids: set<int>, now: int): set<int> {
    set a | a in aoids && !(a in rows && rows[a].nextRetry > now)
  }

  function Failures(rows: Rows, aoid: int): nat {
    if aoid in rows then rows[aoid].failureCount else 0
  }

  /** One lookup of an item: whether it was found, when it was asked for, and when the
      answer was recorded. */
  datatype Lookup = Lookup(aoid: int, found: bool, at: int, recorded: int)

  /** The table after recording, and false when an OverflowError stopped it. */
  datatype Recorded = Recorded(rows: Rows, ok: bool)

  function Record(rows: Rows, l: Lookup): Recorded {
    if l.found then Recorded(rows - {l.aoid}, true)
    else
      var failureCount := Failures(rows, l.aoid) + 1;
      match NextRetryAt(failureCount, l.recorded)
      case None => Recorded(rows, false)
      case Some(next) => Recorded(rows[l.aoid := Row(failureCount, l.recorded, next)], true)
  }

  function RecordAll(rows: Rows, ls: seq<Lookup>): Recorded {
    if ls == [] then Recorded(rows, true)
    else
      var front := RecordAll(rows, ls[..|ls| - 1]);
      if front.ok then Record(front.rows, ls[|ls| - 1]) else front
  }

  /** Every row keeps `next_retry_at` = `last_attempted_at` + min(2^(n-1) h, 7 d). */
  ghost predicate RowsValid(rows: Rows) {
    forall a | a in rows ::
      1 <= rows[a].failureCount <= 35 && rows[a].nextRetry == rows[a].lastAttempted + Delay(rows[a].failureCount)
  }

  /** The row after the k-th failure in a row. */
  function FailedRow(k: nat, now: int): Row
    requires k >= 1
  {
    Row(k, now, now + Delay(k))
  }

  lemma RecordKeepsValid(rows: Rows, l: Lookup)
    requires RowsValid(rows)
    ensures RowsValid(Record(rows, l).rows)
    ensures Record(rows, l).ok <==> l.found || Failures(rows, l.aoid) < 35
    ensures l.found ==> l.aoid !in Record(rows, l).rows
    ensures !l.found && Failures(rows, l.aoid) < 35 ==>
              Record(rows, l).rows == rows[l.aoid := FailedRow(Failures(rows, l.aoid) + 1, l.recorded)]
  {
    NextRetryExact(Failures(rows, l.aoid) + 1, l.recorded);
    hide NextRetryAt, Delay, Pow2;
  }

  class AodbBackoffRepo {
    var rows: Rows

    constructor ()
      ensures rows == map[]
    {
      rows := map[];
    }

    method DueForRetry(aoids: set<int>, now: int) returns (due: set<int>)
      ensures due == Due(rows, aoids, now)
      ensures forall a :: a in due <==> a in aoids && (a !in rows || rows[a].nextRetry <= now)
    {
      if aoids == {} {
        return {};
      }
      var stillBackedOff := set a | a in aoids && a in rows && rows[a].nextRetry > now;
      due := aoids - stillBackedOff;
    }

    /** False when the delay cannot be computed: nothing is written then. */
    method RecordFailure(aoid: int, now: int) returns (ok: bool)
      requires RowsValid(rows)
      modifies this
      ensures RowsValid(rows)
      ensures ok == (Failures(old(rows), aoid) < 35)
      ensures rows == if ok then old(rows)[aoid := FailedRow(Failures(old(rows), aoid) + 1, now)] else old(rows)
      ensures Recorded(rows, ok) == Record(old(rows), Lookup(aoid, false, now, now))
    {
      ghost var l := Lookup(aoid, false, now, now);
      RecordKeepsValid(rows, l);
      var failureCount := (if aoid in rows then rows[aoid].failureCount else 0) + 1;
      match NextRetryAt(failureCount, now)
      case None => ok := false;
      case Some(next) =>
        rows := rows[aoid := Row(failureCount, now, next)];
        ok := true;
    }

    method RecordSuccess(aoid: int)
      modifies this
      ensures rows == old(rows) - {aoid}
    {
      rows := rows - {aoid};
    }
  }

  // ---- runs of resyncs ----

  /** The lookups of one resync: what was asked of the table at the start, the lookups
      made, and whether one of them raised, which leaves all of them unrecorded. */
  datatype Round = Round(start: int, asked: set<int>, lookups: seq<Lookup>, raised: bool)

  ghost predicate LookedUp(r: Round, aoid: int) {
    exists i :: 0 <= i < |r.lookups| && r.lookups[i].aoid == aoid
  }

  /** Each due item is looked up once, after the table was read; all answers are there
      before the first is recorded. */
  ghost predicate Proper(rows: Rows, r: Round) {
    && (forall a :: LookedUp(r, a) <==> a in Due(rows, r.asked, r.start))
    && (forall i, j | 0 <= i < j < |r.lookups| :: r.lookups[i].aoid != r.lookups[j].aoid)
    && (forall i | 0 <= i < |r.lookups| :: r.start <= r.lookups[i].at <= r.lookups[i].recorded)
  }

  function Effect(rows: Rows, r: Round): Rows {
    if r.raised then rows else RecordAll(rows, r.lookups).rows
  }

  predicate Completes(rows: Rows, r: Round) {
    !r.raised && RecordAll(rows, r.lookups).ok
  }

  function AfterRounds(rows: Rows, rounds: seq<Round>): Rows {
    if rounds == [] then rows else Effect(AfterRounds(rows, rounds[..|rounds| - 1]), rounds[|rounds| - 1])
  }

  ghost predicate IsRun(rows: Rows, rounds: seq<Round>) {
    rounds == [] ||
    (IsRun(rows, rounds[..|rounds| - 1]) && Proper(AfterRounds(rows, rounds[..|rounds| - 1]), rounds[|rounds| - 1]))
  }

  /** The rounds that look the item up: each at `since` or later, never with success. */
  ghost predicate AlwaysFails(rounds: seq<Round>, aoid: int, since: int) {
    forall i, j | 0 <= i < |rounds| && 0 <= j < |rounds[i].lookups| && rounds[i].lookups[j].aoid == aoid ::
      !rounds[i].lookups[j].found && rounds[i].lookups[j].at >= since
  }

  ghost function CountLookups(rounds: seq<Round>, aoid: int): nat {
    if rounds == [] then 0 else
      CountLookups(rounds[..|rounds| - 1], aoid) + if LookedUp(rounds[|rounds| - 1], aoid) then 1 else 0
  }

  /** The delays after the first n failures, added up. */
  function Total(n: nat): int {
    if n == 0 then 0 else Total(n - 1) + Delay(n)
  }

  /** 255 hours for the first eight failures, a week for each further one. */
  lemma {:induction false} TotalClosed(n: nat)
    requires n >= 8
    ensures Total(n) == (255 + 168 * (n - 8)) * 3_600_000_000
    decreases n
  {
    if n == 8 {
      assert Pow2(0) == 1 && Pow2(1) == 2 && Pow2(2) == 4 && Pow2(3) == 8;
      assert Pow2(4) == 16 && Pow2(5) == 32 && Pow2(6) == 64 && Pow2(7) == 128;
      assert Total(4) == 15 * HOUR;
      assert Total(6) == 63 * HOUR;
    } else {
      TotalClosed(n - 1);
    }
  }

  function RowOf(rows: Rows, aoid: int): Option<Row> {
    if aoid in rows then Some(rows[aoid]) else None
  }

  /** Recording a round touches an item's row at most once, by its own lookup. */
  lemma {:induction false} RecordAllRow(rows: Rows, ls: seq<Lookup>, aoid: int)
    requires RowsValid(rows)
    requires forall i, j | 0 <= i < j < |ls| :: ls[i].aoid != ls[j].aoid
    ensures RowsValid(RecordAll(rows, ls).rows)
    ensures (forall i | 0 <= i < |ls| :: ls[i].aoid != aoid) ==>
              RowOf(RecordAll(rows, ls).rows, aoid) == RowOf(rows, aoid)
    ensures forall i | 0 <= i < |ls| && ls[i].aoid == aoid ::
      (RowOf(RecordAll(rows, ls).rows, aoid) == RowOf(Record(rows, ls[i]).rows, aoid) ||
       (!RecordAll(rows, ls).ok && RowOf(RecordAll(rows, ls).rows, aoid) == RowOf(rows, aoid)))
    ensures RecordAll(rows, ls).ok <==> forall i | 0 <= i < |ls| :: ls[i].found || Failures(rows, ls[i].aoid) < 35
  {
    hide Record, Delay;
    if ls != [] {
      var n := |ls| - 1;
      var front, last := RecordAll(rows, ls[..n]), ls[n];
      forall a
        ensures RowsValid(front.rows)
        ensures (forall i | 0 <= i < n :: ls[i].aoid != a) ==> RowOf(front.rows, a) == RowOf(rows, a)
      {
        RecordAllRow(rows, ls[..n], a);
      }
      RecordAllRow(rows, ls[..n], aoid);
      assert RowOf(front.rows, last.aoid) == RowOf(rows, last.aoid);
      RecordKeepsValid(front.rows, last);
      RecordTouches(front.rows, last, aoid);
      RecordLocal(front.rows, rows, last);
    }
  }

  lemma RecordTouches(rows: Rows, l: Lookup, aoid: int)
    ensures aoid != l.aoid ==> RowOf(Record(rows, l).rows, aoid) == RowOf(rows, aoid)
    ensures !Record(rows, l).ok ==> Record(rows, l).rows == rows
  {
    hide NextRetryAt;
  }

  lemma RecordLocal(r1: Rows, r2: Rows, l: Lookup)
    requires RowOf(r1, l.aoid) == RowOf(r2, l.aoid)
    ensures RowOf(Record(r1, l).rows, l.aoid) == RowOf(Record(r2, l).rows, l.aoid)
    ensures Failures(r1, l.aoid) == Failures(r2, l.aoid)
  {
    hide NextRetryAt;
  }

  /** The lookups up to i that the table can record. */
  predicate Recordable(rows: Rows, ls: seq<Lookup>, i: nat)
    requires i < |ls|
  {
    forall j | 0 <= j <= i :: ls[j].found || Failures(rows, ls[j].aoid) < 35
  }

  lemma {:induction false} RecordedUpTo(rows: Rows, ls: seq<Lookup>, i: nat)
    requires RowsValid(rows) && i < |ls|
    requires forall i, j | 0 <= i < j < |ls| :: ls[i].aoid != ls[j].aoid
    ensures RowOf(RecordAll(rows, ls).rows, ls[i].aoid) ==
      RowOf(if Recordable(rows, ls, i) then Record(rows, ls[i]).rows else rows, ls[i].aoid)
    decreases |ls|
  {
    hide Record, RowsValid, Failures;
    var n := |ls| - 1;
    var front := ls[..n];
    RecordAllRow(rows, front, ls[n].aoid);
    RecordAllRow(rows, ls, ls[n].aoid);
    if i < n {
      RecordedUpTo(rows, front, i);
      assert Recordable(rows, front, i) == Recordable(rows, ls, i);
      RecordTouches(RecordAll(rows, front).rows, ls[n], ls[i].aoid);
    } else {
      assert RecordAll(rows, ls).ok == Recordable(rows, ls, i);
      RecordTouches(RecordAll(rows, front).rows, ls[n], ls[n].aoid);
      assert RowOf(RecordAll(rows, front).rows, ls[n].aoid) == RowOf(rows, ls[n].aoid);
    }
  }

  /** The round records what became of the item, if it looks it up at all. */
  predicate Keeps(rows: Rows, r: Round, aoid: int) {
    forall j | 0 <= j < |r.lookups| && r.lookups[j].aoid == aoid :: !r.raised && Recordable(rows, r.lookups, j)
  }

  /** Every lookup of the item in a run is recorded, whatever became of other items. */
  predicate AllKept(rows: Rows, rounds: seq<Round>, aoid: int) {
    rounds == [] ||
    (AllKept(rows, rounds[..|rounds| - 1], aoid) &&
     Keeps(AfterRounds(rows, rounds[..|rounds| - 1]), rounds[|rounds| - 1], aoid))
  }

  /** An item whose lookups always fail is not due before all its delays are over. */
  ghost predicate Waits(rows: Rows, aoid: int, since: int) {
    aoid in rows ==> rows[aoid].nextRetry >= since + Total(rows[aoid].failureCount)
  }

  lemma LookupTime(rows: Rows, r: Round, aoid: int, since: int, i: nat)
    requires Proper(rows, r) && Waits(rows, aoid, since)
    requires i < |r.lookups| && r.lookups[i].aoid == aoid && r.lookups[i].at >= since
    ensures r.lookups[i].at >= since + Total(Failures(rows, aoid))
  {
    assert LookedUp(r, aoid);
  }

  /** What a round leaves of the row of an item it looked up without success. */
  lemma FailedInRound(rows: Rows, r: Round, i: nat)
    requires RowsValid(rows) && Proper(rows, r) && i < |r.lookups| && !r.lookups[i].found
    ensures
      var l := r.lookups[i];
      && LookedUp(r, l.aoid) && (Keeps(rows, r, l.aoid) <==> !r.raised && Recordable(rows, r.lookups, i))
      && RowOf(Effect(rows, r), l.aoid) ==
           (if Keeps(rows, r, l.aoid) then Some(FailedRow(Failures(rows, l.aoid) + 1, l.recorded))
            else RowOf(rows, l.aoid))
      && (Keeps(rows, r, l.aoid) ==> Failures(rows, l.aoid) < 35)
      && (l.aoid in rows ==> rows[l.aoid].nextRetry <= l.recorded)
  {
    var l := r.lookups[i];
    assert l.aoid == l.aoid && LookedUp(r, l.aoid);
    RecordedUpTo(rows, r.lookups, i);
    if Recordable(rows, r.lookups, i) {
      RecordKeepsValid(rows, l);
    }
    hide RecordAll, Record, RowsValid, FailedRow;
    assert forall j | 0 <= j < |r.lookups| && r.lookups[j].aoid == l.aoid :: j == i;
  }

  lemma RoundKeepsWaits(rows: Rows, r: Round, aoid: int, since: int)
    requires RowsValid(rows) && Proper(rows, r) && Waits(rows, aoid, since)
    requires forall i | 0 <= i < |r.lookups| && r.lookups[i].aoid == aoid ::
               !r.lookups[i].found && r.lookups[i].at >= since
    ensures RowsValid(Effect(rows, r)) && Waits(Effect(rows, r), aoid, since)
    ensures Keeps(rows, r, aoid) ==>
              Failures(Effect(rows, r), aoid) == Failures(rows, aoid) + if LookedUp(r, aoid) then 1 else 0
  {
    hide Record, RecordAll, NextRetryAt, Delay, RowsValid, Keeps, FailedRow;
    RecordAllRow(rows, r.lookups, aoid);
    if LookedUp(r, aoid) {
      var i :| 0 <= i < |r.lookups| && r.lookups[i].aoid == aoid;
      LookupTime(rows, r, aoid, since, i);
      FailedInRound(rows, r, i);
      FailedRowWaits(Failures(rows, aoid), r.lookups[i].recorded, since);
    }
  }

  lemma FailedRowWaits(n: nat, recorded: int, since: int)
    requires since + Total(n) <= recorded
    ensures var row := FailedRow(n + 1, recorded); row.failureCount == n + 1 && row.nextRetry >= since + Total(n + 1)
  {}

  lemma {:induction false} RunKeepsWaits(rows: Rows, rounds: seq<Round>, aoid: int, since: int)
    requires RowsValid(rows) && IsRun(rows, rounds) && Waits(rows, aoid, since)
    requires AlwaysFails(rounds, aoid, since)
    ensures RowsValid(AfterRounds(rows, rounds)) && Waits(AfterRounds(rows, rounds), aoid, since)
    ensures AllKept(rows, rounds, aoid) ==>
              Failures(AfterRounds(rows, rounds), aoid) == Failures(rows, aoid) + CountLookups(rounds, aoid)
  {
    hide Waits, Effect, Keeps, Proper, RowsValid, Failures, LookedUp;
    if rounds != [] {
      var n := |rounds| - 1;
      assert forall j | 0 <= j < |rounds[n].lookups| && rounds[n].lookups[j].aoid == aoid ::
          !rounds[n].lookups[j].found && rounds[n].lookups[j].at >= since;
      RunKeepsWaits(rows, rounds[..n], aoid, since);
      RoundKeepsWaits(AfterRounds(rows, rounds[..n]), rounds[n], aoid, since);
    }
  }

  lemma FrontFails(rounds: seq<Round>, r: Round, aoid: int, since: int)
    requires AlwaysFails(rounds + [r], aoid, since)
    ensures AlwaysFails(rounds, aoid, since)
    ensures forall i | 0 <= i < |r.lookups| && r.lookups[i].aoid == aoid ::
        !r.lookups[i].found && r.lookups[i].at >= since
  {
    var all := rounds + [r];
    assert all[|rounds|] == r && forall k | 0 <= k < |rounds| :: rounds[k] == all[k];
  }

  /** The whole-run bound. However often rounds are cut short, an item that is never found
      is looked up with f failures on record only when the delays of all f have passed
      since its first lookup. */
  lemma LookupsBackOff(rows: Rows, rounds: seq<Round>, r: Round, aoid: int, i: nat, since: int)
    requires RowsValid(rows) && aoid !in rows
    requires IsRun(rows, rounds + [r]) && AlwaysFails(rounds + [r], aoid, since)
    requires i < |r.lookups| && r.lookups[i].aoid == aoid
    ensures IsRun(rows, rounds)
    ensures r.lookups[i].at >= since + Total(Failures(AfterRounds(rows, rounds), aoid))
    ensures Failures(AfterRounds(rows, rounds), aoid) <= 35
  {
    var all := rounds + [r];
    assert all[..|rounds|] == rounds && all[|rounds|] == r;
    FrontFails(rounds, r, aoid, since);
    RunKeepsWaits(rows, rounds, aoid, since);
    LookupTime(AfterRounds(rows, rounds), r, aoid, since, i);
  }

  /** The n-th lookup of an item that is never found, its earlier lookups recorded, comes at
      least Total(n - 1) after the first: from the ninth on 255 + 168 (n - 9) hours. The item
      is looked up at most 36 times in such a run. Rounds may be cut short elsewhere. */
  lemma NthLookup(rows: Rows, rounds: seq<Round>, r: Round, aoid: int, i: nat, since: int)
    requires RowsValid(rows) && aoid !in rows
    requires IsRun(rows, rounds + [r]) && AlwaysFails(rounds + [r], aoid, since) && AllKept(rows, rounds, aoid)
    requires i < |r.lookups| && r.lookups[i].aoid == aoid
    ensures
      var n := CountLookups(rounds, aoid) + 1;
      && n <= 36
      && r.lookups[i].at >= since + Total(n - 1)
      && (n >= 9 ==> r.lookups[i].at >= since + (255 + 168 * (n - 9)) * 3_600_000_000)
  {
    NoRow(rows, aoid, since);
    hide *;
    var n := CountLookups(rounds, aoid) + 1;
    LookupsBackOff(rows, rounds, r, aoid, i, since);
    FrontFails(rounds, r, aoid, since);
    RunKeepsWaits(rows, rounds, aoid, since);
    if n >= 9 {
      NinthOn(n);
    }
  }

  lemma NinthOn(n: nat)
    requires n >= 9
    ensures Total(n - 1) == (255 + 168 * (n - 9)) * 3_600_000_000
  {
    TotalClosed(n - 1);
  }

  /** Later rounds that look the item up keep a distance from a time. */
  ghost predicate PutOff(rows: Rows, aoid: int, recorded: int, delay: int) {
    forall next: Round, j: int | Proper(rows, next) && next.start >= recorded && 0 <= j < |next.lookups| &&
                                 next.lookups[j].aoid == aoid ::
      next.lookups[j].at >= recorded + delay
  }

  lemma PutOffExact(rows: Rows, aoid: int, recorded: int, delay: int)
    requires delay > 0
    ensures PutOff(rows, aoid, recorded, delay) <==> aoid in rows && rows[aoid].nextRetry >= recorded + delay
  {
    if aoid in rows && rows[aoid].nextRetry >= recorded + delay {
      forall next: Round, j: int | Proper(rows, next) && next.start >= recorded && 0 <= j < |next.lookups| &&
                                   next.lookups[j].aoid == aoid
        ensures next.lookups[j].at >= recorded + delay
      {
        assert LookedUp(next, aoid);
      }
    } else {
      var start := if aoid in rows && rows[aoid].nextRetry > recorded then rows[aoid].nextRetry else recorded;
      var next := Round(start, {aoid}, [Lookup(aoid, false, start, start)], false);
      assert next.lookups[0].aoid == aoid;
      assert Proper(rows, next);
    }
  }

  /** The condition is exact: after k - 1 recorded failures, the k-th failed lookup is
      recorded if and only if every later round leaves the k-th delay before the next. */
  lemma RecordedExactly(rows: Rows, rounds: seq<Round>, r: Round, aoid: int, i: nat, since: int)
    requires RowsValid(rows) && aoid !in rows
    requires IsRun(rows, rounds + [r]) && AlwaysFails(rounds + [r], aoid, since) && AllKept(rows, rounds, aoid)
    requires i < |r.lookups| && r.lookups[i].aoid == aoid
    ensures IsRun(rows, rounds)
    ensures
      var k := CountLookups(rounds, aoid) + 1;
      Keeps(AfterRounds(rows, rounds), r, aoid) <==>
      PutOff(AfterRounds(rows, rounds + [r]), aoid, r.lookups[i].recorded, Delay(k))
  {
    hide *;
    var before := AfterRounds(rows, rounds);
    var k := CountLookups(rounds, aoid) + 1;
    NoRow(rows, aoid, since);
    FrontFails(rounds, r, aoid, since);
    LastRound(rows, rounds, r);
    RunKeepsWaits(rows, rounds, aoid, since);
    RowBound(before, aoid);
    FailedInRound(before, r, i);
    DelayPositive(k);
    RowDelayed(Effect(before, r), before, aoid, k, r.lookups[i].recorded, Keeps(before, r, aoid));
    PutOffExact(Effect(before, r), aoid, r.lookups[i].recorded, Delay(k));
  }

  lemma NoRow(rows: Rows, aoid: int, since: int)
    requires aoid !in rows
    ensures Failures(rows, aoid) == 0 && Waits(rows, aoid, since)
  {}

  lemma RowBound(rows: Rows, aoid: int)
    requires RowsValid(rows)
    ensures Failures(rows, aoid) <= 35
  {}

  /** The row of a due item, written anew or kept. */
  lemma RowDelayed(rows: Rows, before: Rows, aoid: int, k: nat, recorded: int, written: bool)
    requires k >= 1 && Delay(k) > 0 && (aoid in before ==> before[aoid].nextRetry <= recorded)
    requires RowOf(rows, aoid) == if written then Some(FailedRow(k, recorded)) else RowOf(before, aoid)
    ensures written <==> aoid in rows && rows[aoid].nextRetry >= recorded + Delay(k)
  {}

  lemma DelayPositive(k: nat)
    requires k >= 1
    ensures Delay(k) > 0
  {}

  lemma LastRound(rows: Rows, rounds: seq<Round>, r: Round)
    ensures AfterRounds(rows, rounds + [r]) == Effect(AfterRounds(rows, rounds), r)
    ensures IsRun(rows, rounds + [r]) <==> IsRun(rows, rounds) && Proper(AfterRounds(rows, rounds), r)
    ensures forall a :: AllKept(rows, rounds + [r], a) <==>
              AllKept(rows, rounds, a) && Keeps(AfterRounds(rows, rounds), r, a)
    ensures forall a :: CountLookups(rounds + [r], a) == CountLookups(rounds, a) + if LookedUp(r, a) then 1 else 0
  {
    assert (rounds + [r])[..|rounds|] == rounds;
  }

  /** A round that looks up one item. */
  function Single(aoid: int, at: int, raised: bool): Round {
    Round(at, {aoid}, [Lookup(aoid, false, at, at)], raised)
  }

  lemma SingleIsProper(rows: Rows, aoid: int, at: int, raised: bool)
    requires aoid in rows ==> rows[aoid].nextRetry <= at
    ensures Proper(rows, Single(aoid, at, raised)) && LookedUp(Single(aoid, at, raised), aoid)
  {
    var r := Single(aoid, at, raised);
    assert r.lookups[0].aoid == aoid;
  }

  /** The bound is sharp: the lookups of an item can come at exactly its times. */
  lemma {:induction false} SharpRun(aoid: int, n: nat) returns (rounds: seq<Round>)
    requires n <= 35
    ensures IsRun(map[], rounds) && AlwaysFails(rounds, aoid, 0) && AllKept(map[], rounds, aoid)
    ensures CountLookups(rounds, aoid) == n == |rounds|
    ensures forall k | 0 <= k < n :: rounds[k] == Single(aoid, Total(k), false)
    ensures AfterRounds(map[], rounds) == if n == 0 then map[] else map[aoid := FailedRow(n, Total(n - 1))]
    decreases n
  {
    rounds := [];
    if n > 0 {
      var front := SharpRun(aoid, n - 1);
      var r := Single(aoid, Total(n - 1), false);
      var before := AfterRounds(map[], front);
      rounds := front + [r];
      LastRound(map[], front, r);
      hide IsRun, AfterRounds, AllKept, CountLookups, Proper, Keeps;
      SingleIsProper(before, aoid, Total(n - 1), false);
      TotalsGrow(n - 1);
      SharpRow(before, aoid, n);
      assert rounds[n - 1] == r;
    }
  }

  lemma {:induction false} TotalsGrow(n: nat)
    ensures 0 <= Total(n) < Total(n + 1)
  {
    DelayPositive(n + 1);
    if n > 0 {
      TotalsGrow(n - 1);
    }
  }

  lemma SharpRow(rows: Rows, aoid: int, n: nat)
    requires 1 <= n <= 35 && rows == if n == 1 then map[] else map[aoid := FailedRow(n - 1, Total(n - 2))]
    ensures
      var r := Single(aoid, Total(n - 1), false);
      Effect(rows, r) == map[aoid := FailedRow(n, Total(n - 1))] && Keeps(rows, r, aoid)
  {
    var r := Single(aoid, Total(n - 1), false);
    assert RowsValid(rows);
    RecordKeepsValid(rows, r.lookups[0]);
    assert r.lookups[..0] == [];
    assert RecordAll(rows, r.lookups) == Record(rows, r.lookups[0]);
    hide Record, RecordAll, Total;
    assert rows[aoid := FailedRow(n, r.lookups[0].recorded)] == map[aoid := FailedRow(n, r.lookups[0].recorded)];
  }

  /** A round of two lookups in which one raises, so that neither is recorded. */
  function LostPair(aoid: int, other: int, at: int): Round {
    Round(at, {aoid, other}, [Lookup(aoid, false, at, at), Lookup(other, false, at, at)], true)
  }

  lemma PairIsProper(rows: Rows, aoid: int, other: int, at: int)
    requires aoid != other && other !in rows && (aoid in rows ==> rows[aoid].nextRetry <= at)
    ensures Proper(rows, LostPair(aoid, other, at)) && LookedUp(LostPair(aoid, other, at), aoid)
  {
    var r := LostPair(aoid, other, at);
    assert r.lookups[0].aoid == aoid && r.lookups[1].aoid == other;
  }

  /** The bound needs its condition at every n: here the first n - 1 lookups are recorded, the
      n-th is lost because the lookup of another item raises, and the next one comes before
      Total(n). */
  lemma LostFailureBreaks(aoid: int, other: int, n: nat) returns (rounds: seq<Round>, again: Round)
    requires 1 <= n <= 36 && other != aoid
    ensures IsRun(map[], rounds + [again]) && AlwaysFails(rounds + [again], aoid, 0)
    ensures |rounds| == n == CountLookups(rounds, aoid) && AllKept(map[], rounds[..n - 1], aoid)
    ensures rounds[n - 1] == LostPair(aoid, other, Total(n - 1))
    ensures again == Single(aoid, Total(n - 1), false) && again.lookups[0].at < 0 + Total(n)
  {
    var front := SharpRun(aoid, n - 1);
    var at := Total(n - 1);
    TotalsGrow(n - 1);
    var lost := LostPair(aoid, other, at);
    again := Single(aoid, at, false);
    rounds := front + [lost];
    var before := AfterRounds(map[], front);
    SharpIsDue(before, aoid, other, n);
    AppendFails(front, lost, aoid, 0);
    AppendFails(rounds, again, aoid, 0);
    hide *;
    LastRound(map[], front, lost);
    LastRound(map[], rounds, again);
    LostChangesNothing(before, aoid, other, at);
    PairIsProper(before, aoid, other, at);
    SingleIsProper(before, aoid, at, false);
    assert rounds[..n - 1] == front;
  }

  lemma SharpIsDue(rows: Rows, aoid: int, other: int, n: nat)
    requires 1 <= n <= 36 && other != aoid
    requires rows == if n == 1 then map[] else map[aoid := FailedRow(n - 1, Total(n - 2))]
    ensures other !in rows && (aoid in rows ==> rows[aoid].nextRetry <= Total(n - 1))
  {}

  lemma LostChangesNothing(rows: Rows, aoid: int, other: int, at: int)
    ensures Effect(rows, LostPair(aoid, other, at)) == rows
  {}

  lemma AppendFails(rounds: seq<Round>, r: Round, aoid: int, since: int)
    requires AlwaysFails(rounds, aoid, since)
    requires forall j | 0 <= j < |r.lookups| && r.lookups[j].aoid == aoid ::
               !r.lookups[j].found && r.lookups[j].at >= since
    ensures AlwaysFails(rounds + [r], aoid, since)
  {
    var all := rounds + [r];
    forall i, j | 0 <= i < |all| && 0 <= j < |all[i].lookups| && all[i].lookups[j].aoid == aoid
      ensures !all[i].lookups[j].found && all[i].lookups[j].at >= since
    {
      assert i < |rounds| ==> all[i] == rounds[i];
    }
  }

  /** A round records everything exactly when no lookup raised and no item with 35
      failures on record failed again. */
  lemma CompletesExactly(rows: Rows, r: Round)
    requires RowsValid(rows) && Proper(rows, r)
    ensures Completes(rows, r) <==>
            !r.raised && forall i | 0 <= i < |r.lookups| :: r.lookups[i].found || Failures(rows, r.lookups[i].aoid) < 35
  {
    RecordAllRow(rows, r.lookups, 0);
  }

  /** A failed lookup sets the item back exactly when it is recorded: no lookup of the
      round raised, and none up to it met a failure beyond the 35th. Otherwise the item is
      due again at once. */
  lemma FailureSetsBack(rows: Rows, r: Round, i: nat)
    requires RowsValid(rows) && Proper(rows, r) && i < |r.lookups| && !r.lookups[i].found
    ensures
      var l := r.lookups[i];
      l.aoid !in Due(Effect(rows, r), {l.aoid}, l.recorded) <==> !r.raised && Recordable(rows, r.lookups, i)
  {
    var l := r.lookups[i];
    assert LookedUp(r, l.aoid);
    RecordedUpTo(rows, r.lookups, i);
    if Recordable(rows, r.lookups, i) {
      RecordKeepsValid(rows, l);
      assert Pow2(0) == 1 && Delay(Failures(rows, l.aoid) + 1) > 0;
    }
    hide RecordAll, Record, RowsValid;
  }

  /** One round that looks up an item with 35 failures on record, without success. */
  lemma OverflowRound(rows: Rows, r: Round, aoid: int)
    requires RowsValid(rows) && Proper(rows, r) && Failures(rows, aoid) == 35
    requires forall i | 0 <= i < |r.lookups| && r.lookups[i].aoid == aoid :: !r.lookups[i].found
    ensures RowsValid(Effect(rows, r)) && RowOf(Effect(rows, r), aoid) == RowOf(rows, aoid)
    ensures LookedUp(r, aoid) ==> !Completes(rows, r)
  {
    CompletesExactly(rows, r);
    RoundRow(rows, r, aoid);
    hide RowsValid, Keeps, Completes, Effect, Proper, RowOf;
    if LookedUp(r, aoid) {
      var i :| 0 <= i < |r.lookups| && r.lookups[i].aoid == aoid;
      FailedInRound(rows, r, i);
    }
  }

  lemma RoundRow(rows: Rows, r: Round, aoid: int)
    requires RowsValid(rows) && Proper(rows, r)
    ensures RowsValid(Effect(rows, r))
    ensures !LookedUp(r, aoid) ==> RowOf(Effect(rows, r), aoid) == RowOf(rows, aoid)
  {
    hide RecordAll, RowsValid, RowOf, Record;
    RecordAllRow(rows, r.lookups, aoid);
  }

  ghost predicate NeverFound(rounds: seq<Round>, aoid: int) {
    forall i, j | 0 <= i < |rounds| && 0 <= j < |rounds[i].lookups| && rounds[i].lookups[j].aoid == aoid ::
      !rounds[i].lookups[j].found
  }

  /** The backoff ends at the 36th failure: it is never recorded. Over any run from then on
      the row of an item that is not found stays as it is, so that the item is due whenever
      it is asked for once its last delay is over, and no round that looks it up completes. */
  lemma {:induction false} BackoffStops(rows: Rows, rounds: seq<Round>, aoid: int)
    requires RowsValid(rows) && Failures(rows, aoid) == 35 && IsRun(rows, rounds) && NeverFound(rounds, aoid)
    ensures RowsValid(AfterRounds(rows, rounds)) && RowOf(AfterRounds(rows, rounds), aoid) == RowOf(rows, aoid)
    ensures forall asked: set<int>, now: int | aoid in asked && now >= rows[aoid].nextRetry ::
              aoid in Due(AfterRounds(rows, rounds), asked, now)
    ensures forall k | 0 <= k < |rounds| && LookedUp(rounds[k], aoid) ::
        !Completes(AfterRounds(rows, rounds[..k]), rounds[k])
  {
    hide RowsValid, Effect, Completes, Proper, LookedUp;
    if rounds != [] {
      var n := |rounds| - 1;
      var front := rounds[..n];
      BackoffStops(rows, front, aoid);
      assert forall j | 0 <= j < |rounds[n].lookups| && rounds[n].lookups[j].aoid == aoid ::
          !rounds[n].lookups[j].found;
      OverflowRound(AfterRounds(rows, front), rounds[n], aoid);
      forall k | 0 <= k < |rounds| && LookedUp(rounds[k], aoid)
        ensures !Completes(AfterRounds(rows, rounds[..k]), rounds[k])
      {
        assert k < n ==> front[k] == rounds[k] && front[..k] == rounds[..k];
      }
    }
  }

  /** A success forgets the failures: the item may be looked up again at once, and its
      next failure counts as the first. */
  lemma SuccessResets(rows: Rows, r: Round, aoid: int, i: nat, now: int)
    requires RowsValid(rows) && Proper(rows, r) && Completes(rows, r)
    requires i < |r.lookups| && r.lookups[i].aoid == aoid && r.lookups[i].found
    ensures Failures(Effect(rows, r), aoid) == 0
    ensures aoid in r.asked ==> aoid in Due(Effect(rows, r), r.asked, now)
    ensures NextRetryAt(Failures(Effect(rows, r), aoid) + 1, now) == Some(now + HOUR)
  {
    RecordAllRow(rows, r.lookups, aoid);
    RecordKeepsValid(rows, r.lookups[i]);
    NextRetryExact(1, now);
  }
}
