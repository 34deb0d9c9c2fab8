/** The ranking loop of `sync_top_traded_items`: pages of aoids are read until one is
    missing or empty, enough aoids are known, or the page limit is reached. */
module Ranking {
  import opened Collections
  import opened Wrappers

  /** What reading a page brings: None when it cannot be fetched. */
  type Pages = int -> Option<seq<int>>

  /** `_MAX_AUTOTRACK_PAGES`. */
  const MAX_PAGES := 50

  /** min(50, ceil(count / 20)). */
  function PageLimit(count: int): (n: nat)
    requires count >= 1
    ensures 1 <= n <= 50 && 20 * (n - 1) < count
    ensures n < 50 ==> count <= 20 * n
  {
    var n := (count + 19) / 20;
    if n < MAX_PAGES then n else MAX_PAGES
  }

  predicate HasItems(page: Pages, p: int) {
    page(p).Some? && page(p).value != []
  }

  /** How many pages come before the first missing or empty one, at most `limit`. */
  function Usable(page: Pages, limit: nat): (n: nat)
    ensures n <= limit
    ensures forall p | 1 <= p <= n :: HasItems(page, p)
    ensures n < limit ==> !HasItems(page, n + 1)
  {
    if limit == 0 then 0 else
      var n := Usable(page, limit - 1);
      if n == limit - 1 && HasItems(page, limit) then limit else n
  }

  /** The aoids of the pages 1 to n, one page after the other. */
  function Joined(page: Pages, n: nat): seq<int> {
    if n == 0 then [] else Joined(page, n - 1) + match page(n) case None => [] case Some(found) => found
  }

  /** Each value where it occurs first. */
  function Dedup(xs: seq<int>): seq<int> {
    if xs == [] then [] else Insert(Dedup(xs[..|xs| - 1]), xs[|xs| - 1])
  }

  function Insert(xs: seq<int>, x: int): seq<int> {
    if x in xs then xs else xs + [x]
  }

  /** The specification: the first `count` of all usable pages' aoids. */
  function Ranked(page: Pages, count: int): seq<int>
    requires count >= 1
  {
    First(Dedup(Joined(page, Usable(page, PageLimit(count)))), count)
  }

  /** The place where a value occurs first. */
  function FirstIndex(xs: seq<int>, x: int): (i: nat)
    requires x in xs
    ensures i < |xs| && xs[i] == x && forall j | 0 <= j < i :: xs[j] != x
  {
    if xs[0] == x then 0 else 1 + FirstIndex(xs[1..], x)
  }

  /** `Dedup` holds exactly the values, each once, in the order of their first places. */
  lemma {:induction false} DedupExact(xs: seq<int>)
    ensures forall x :: x in Dedup(xs) <==> x in xs
    ensures forall i, j | 0 <= i < j < |Dedup(xs)| ::
              Dedup(xs)[i] != Dedup(xs)[j] && FirstIndex(xs, Dedup(xs)[i]) < FirstIndex(xs, Dedup(xs)[j])
  {
    if xs != [] {
      var front, last := xs[..|xs| - 1], xs[|xs| - 1];
      DedupExact(front);
      assert xs == front + [last];
      forall x | x in front
        ensures x in xs && FirstIndex(xs, x) == FirstIndex(front, x)
      {
        var i, j := FirstIndex(front, x), FirstIndex(xs, x);
        assert xs[i] == x && (j < |front| ==> front[j] == x);
      }
    }
  }

  lemma {:induction false} JoinedExact(page: Pages, n: nat, x: int)
    ensures x in Joined(page, n) <==> exists p :: 1 <= p <= n && page(p).Some? && x in page(p).value
  {
    if n > 0 {
      JoinedExact(page, n - 1, x);
    }
  }

  /** The list holds no value twice, only values of the usable pages, `count` of them or, when
      there are fewer, all; a value left out occurs after those in the list. */
  lemma RankedExact(page: Pages, count: int)
    requires count >= 1
    ensures
      var ranked, all := Ranked(page, count), Joined(page, Usable(page, PageLimit(count)));
      && |ranked| <= count && (forall i, j | 0 <= i < j < |ranked| :: ranked[i] != ranked[j])
      && (forall x | x in ranked :: x in all)
      && (forall x | x in all && x !in ranked ::
            |ranked| == count && forall y | y in ranked && y in all :: FirstIndex(all, y) < FirstIndex(all, x))
  {
    hide Joined, Dedup, Usable, PageLimit, First;
    var all := Joined(page, Usable(page, PageLimit(count)));
    var distinct, ranked := Dedup(all), Ranked(page, count);
    DedupExact(all);
    assert ranked <= distinct;
    forall x | x in all && x !in ranked
      ensures |ranked| == count && forall y | y in ranked && y in all :: FirstIndex(all, y) < FirstIndex(all, x)
    {
      var j :| 0 <= j < |distinct| && distinct[j] == x;
      assert j >= |ranked|;
    }
  }

  lemma {:induction false} DedupPrefix(xs: seq<int>, ys: seq<int>)
    ensures Dedup(xs) <= Dedup(xs + ys)
    decreases ys
  {
    if ys == [] {
      assert xs + ys == xs;
    } else {
      var n := |ys| - 1;
      DedupPrefix(xs, ys[..n]);
      assert (xs + ys)[..|xs| + n] == xs + ys[..n];
    }
  }

  lemma {:induction false} JoinedPrefix(page: Pages, m: nat, n: nat)
    requires m <= n
    ensures Joined(page, m) <= Joined(page, n)
    decreases n
  {
    if m < n {
      JoinedPrefix(page, m, n - 1);
    }
  }

  /** Stopping early never changes the list: with enough aoids known after m pages, the
      pages after them add nothing to the first `count`. */
  lemma StoppingEarly(page: Pages, m: nat, n: nat, count: int)
    requires m <= n && count >= 1 && |Dedup(Joined(page, m))| >= count
    ensures First(Dedup(Joined(page, n)), count) == First(Dedup(Joined(page, m)), count)
  {
    JoinedPrefix(page, m, n);
    var xs, all := Joined(page, m), Joined(page, n);
    DedupPrefix(xs, all[|xs|..]);
    assert xs + all[|xs|..] == all;
  }

  lemma NextPage(page: Pages, p: nat, limit: nat)
    requires 1 <= p <= limit && p - 1 <= Usable(page, limit)
    ensures HasItems(page, p) ==> p <= Usable(page, limit) && Joined(page, p) == Joined(page, p - 1) + page(p).value
    ensures !HasItems(page, p) ==> p - 1 == Usable(page, limit)
  {}

  /** The pages read: up to the first after which enough aoids are known, else all usable. */
  ghost predicate PagesRead(page: Pages, count: int, n: nat)
    requires count >= 1
  {
    && n <= Usable(page, PageLimit(count))
    && (forall p | 1 <= p < n :: |Dedup(Joined(page, p))| < count)
    && (n == Usable(page, PageLimit(count)) || |Dedup(Joined(page, n))| >= count)
  }

  /** The loop with its three exits. */
  method RankedAoids(count: int, page: Pages) returns (aoids: seq<int>, pagesFetched: nat)
    requires count >= 1
    ensures aoids == Ranked(page, count)
    ensures PagesRead(page, count, pagesFetched)
  {
    hide Usable, Joined, Dedup, PageLimit, First;
    var pages := PageLimit(count);
    ghost var usable := Usable(page, pages);
    aoids, pagesFetched := [], 0;
    NothingYet(page);
    for p := 1 to pages + 1
      invariant pagesFetched == p - 1 && aoids == Dedup(Joined(page, p - 1))
      invariant pagesFetched <= usable
      invariant forall q | 1 <= q <= pagesFetched :: |Dedup(Joined(page, q))| < count
    {
      NextPage(page, p, pages);
      var found := page(p);
      if found.None? || found.value == [] {
        break;
      }
      pagesFetched := pagesFetched + 1;
      aoids := Add(Joined(page, p - 1), aoids, found.value);
      if |aoids| >= count {
        StoppingEarly(page, p, usable, count);
        break;
      }
    }
    aoids := First(aoids, count);
  }

  lemma NothingYet(page: Pages)
    ensures Dedup(Joined(page, 0)) == []
  {}

  /** The inner loop: append the aoids not in the list yet. */
  method Add(ghost before: seq<int>, aoids: seq<int>, found: seq<int>) returns (more: seq<int>)
    requires aoids == Dedup(before)
    ensures more == Dedup(before + found)
  {
    more := aoids;
    assert before + [] == before;
    for i := 0 to |found|
      invariant more == Dedup(before + found[..i])
    {
      assert (before + found[..i + 1])[..|before| + i] == before + found[..i];
      if found[i] !in more {
        more := more + [found[i]];
      }
    }
    assert found[..|found|] == found;
  }
}
