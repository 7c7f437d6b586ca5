/** console/nvoygrant.mjs, `unwrapRumors`: walking a capped relay backwards in time. */
module Unwraps {
  import opened Options
  import opened Sequences

  const PAGE := 500
  const MAX_PAGES := 20

  datatype Wrap = Wrap(id: string, created_at: int)

  /** A relay's wraps for one recipient as it serves them: newest first, no id twice. */
  ghost predicate Served(stored: seq<Wrap>) {
    && (forall i, j | 0 <= i < j < |stored| :: stored[i].created_at >= stored[j].created_at)
    && (forall i, j | 0 <= i < j < |stored| :: stored[i].id != stored[j].id)
  }

  function NotAfter(until: int): Wrap -> bool {
    (w: Wrap) => w.created_at <= until
  }

  function Unseen(seen: set<string>): Wrap -> bool {
    (w: Wrap) => w.id !in seen
  }

  /** One answer of a relay that caps its pages at `cap`; an `until` of 0 is not sent. */
  function Page(stored: seq<Wrap>, until: Option<int>, cap: nat): seq<Wrap> {
    var found := if until.Some? && until.value != 0 then Filter(NotAfter(until.value), stored) else stored;
    var n := if cap < PAGE then cap else PAGE;
    if |found| <= n then found else found[..n]
  }

  function Oldest(page: seq<Wrap>): (t: int)
    requires page != []
    ensures forall w | w in page :: t <= w.created_at
    ensures exists w :: w in page && w.created_at == t
  {
    assert page == [page[0]] + page[1..];
    if |page| == 1 then page[0].created_at
    else if Oldest(page[1..]) < page[0].created_at then Oldest(page[1..]) else page[0].created_at
  }

  /** The first position from `k` on of an older second than that of position `k - 1`. */
  function NextSecond(stored: seq<Wrap>, k: nat, t: int): (r: nat)
    requires k <= |stored|
    ensures k <= r <= |stored|
    ensures forall i | k <= i < r :: stored[i].created_at >= t
    ensures r < |stored| ==> stored[r].created_at < t
    decreases |stored| - k
  {
    if k == |stored| || stored[k].created_at < t then k else NextSecond(stored, k + 1, t)
  }

  /** Where the walk resumes after a page that ended before `k`: past the rest of that second, or nowhere, when the
      second is 1 and the next `until` would be 0. */
  function Resume(stored: seq<Wrap>, k: nat): (r: nat)
    requires 0 < k <= |stored|
    ensures k <= r <= |stored|
  {
    if stored[k - 1].created_at == 1 then |stored| else NextSecond(stored, k, stored[k - 1].created_at)
  }

  function PageEnd(stored: seq<Wrap>, size: nat, from: nat): (to: nat)
    requires from <= |stored|
    ensures from <= to <= |stored|
  {
    if from + size <= |stored| then from + size else |stored|
  }

  /** What the walk collects from position `from` on, in at most `pages` pages of `size`. */
  function Walked(stored: seq<Wrap>, size: nat, from: nat, pages: nat): seq<Wrap>
    requires size > 0 && from <= |stored|
    decreases pages
  {
    if pages == 0 || from == |stored| then []
    else
      var to := PageEnd(stored, size, from);
      stored[from..to] + Walked(stored, size, Resume(stored, to), pages - 1)
  }

  lemma {:induction false} FilterSuffix(stored: seq<Wrap>, until: int, k: nat)
    requires k <= |stored|
    requires forall i | 0 <= i < k :: stored[i].created_at > until
    requires forall i | k <= i < |stored| :: stored[i].created_at <= until
    ensures Filter(NotAfter(until), stored) == stored[k..]
    decreases k
  {
    if k > 0 {
      FilterSuffix(stored[1..], until, k - 1);
      assert stored[1..][k - 1..] == stored[k..];
    } else {
      assert stored[k..] == stored;
    }
  }

  /** The query of the walk at position `from`. */
  ghost predicate Asks(stored: seq<Wrap>, until: Option<int>, from: nat) {
    && from <= |stored|
    && if until.None? then from == 0
       else until.value != 0 && Filter(NotAfter(until.value), stored) == stored[from..]
  }

  lemma PageIs(stored: seq<Wrap>, until: Option<int>, cap: nat, from: nat)
    requires Asks(stored, until, from)
    ensures Page(stored, until, cap) == stored[from..PageEnd(stored, if cap < PAGE then cap else PAGE, from)]
  {
  }

  /** After a page the next query starts where the walk resumes, unless its `until` is 0. */
  lemma NextQuery(stored: seq<Wrap>, from: nat, to: nat)
    requires Served(stored) && from < to <= |stored|
    ensures Oldest(stored[from..to]) == stored[to - 1].created_at
    ensures stored[to - 1].created_at != 1 ==> Asks(stored, Some(stored[to - 1].created_at - 1), Resume(stored, to))
    ensures stored[to - 1].created_at == 1 ==> Resume(stored, to) == |stored|
  {
    var page, t := stored[from..to], stored[to - 1].created_at;
    assert page[to - 1 - from] == stored[to - 1];
    forall w | w in page
      ensures w.created_at >= t
    {
      var i :| 0 <= i < |page| && page[i] == w;
    }
    if t != 1 {
      FilterSuffix(stored, t - 1, Resume(stored, to));
    }
  }

  function IdsOf(wraps: seq<Wrap>): set<string> {
    set w | w in wraps :: w.id
  }

  /** Every id seen so far belongs to a wrap before position `from`. */
  ghost predicate SeenBefore(stored: seq<Wrap>, from: nat, seen: set<string>) {
    from <= |stored| && forall id | id in seen :: exists k :: 0 <= k < from && stored[k].id == id
  }

  /** Nothing of a later page was seen on an earlier one. */
  lemma AllUnseen(stored: seq<Wrap>, from: nat, to: nat, seen: set<string>)
    requires Served(stored) && from <= to <= |stored| && SeenBefore(stored, from, seen)
    ensures Filter(Unseen(seen), stored[from..to]) == stored[from..to]
  {
  }

  lemma AllSeen(page: seq<Wrap>, seen: set<string>)
    requires forall w | w in page :: w.id in seen
    ensures Filter(Unseen(seen), page) == []
  {
  }

  lemma SeenAfter(stored: seq<Wrap>, from: nat, to: nat, next: nat, seen: set<string>)
    requires from <= to <= next <= |stored| && SeenBefore(stored, from, seen)
    ensures SeenBefore(stored, next, seen + IdsOf(stored[from..to]))
  {
  }

  /** Where the walk stands: the query it makes next, or the repetition of the first page that ends it. */
  ghost predicate Stands(stored: seq<Wrap>, size: nat, until: Option<int>, from: nat, seen: set<string>) {
    && SeenBefore(stored, from, seen)
    && (until.Some? ==> forall w | w in stored[..PageEnd(stored, size, 0)] :: w.id in seen)
    && if until == Some(0) then from == |stored| else Asks(stored, until, from)
  }

  /** What is new on the next page. */
  lemma LatestIs(stored: seq<Wrap>, cap: nat, until: Option<int>, from: nat, seen: set<string>)
    requires Served(stored)
    requires Stands(stored, if cap < PAGE then cap else PAGE, until, from, seen)
    ensures Filter(Unseen(seen), Page(stored, until, cap))
            == stored[from..PageEnd(stored, if cap < PAGE then cap else PAGE, from)]
  {
    hide Filter, Page;
    var size := if cap < PAGE then cap else PAGE;
    if until == Some(0) {
      PageIs(stored, None, cap, 0);
      SameAsFirst(stored, cap);
      AllSeen(Page(stored, until, cap), seen);
    } else {
      PageIs(stored, until, cap, from);
      AllUnseen(stored, from, PageEnd(stored, size, from), seen);
    }
  }

  lemma SameAsFirst(stored: seq<Wrap>, cap: nat)
    ensures Page(stored, Some(0), cap) == Page(stored, None, cap)
  {
  }

  lemma StandsAfter(stored: seq<Wrap>, size: nat, until: Option<int>, from: nat, seen: set<string>)
    requires Served(stored) && size > 0 && Stands(stored, size, until, from, seen) && from < |stored|
    ensures var to := PageEnd(stored, size, from);
            Stands(stored, size, Some(Oldest(stored[from..to]) - 1), Resume(stored, to), seen + IdsOf(stored[from..to]))
  {
    hide Filter, Resume;
    var to := PageEnd(stored, size, from);
    NextQuery(stored, from, to);
    SeenAfter(stored, from, to, Resume(stored, to), seen);
    if until.None? {
      assert stored[from..to] == stored[..PageEnd(stored, size, 0)];
    }
  }

  /** The walk, page by page. */
  method UnwrapRumors(stored: seq<Wrap>, cap: nat) returns (wraps: seq<Wrap>)
    requires Served(stored) && cap > 0
    ensures wraps == Walked(stored, if cap < PAGE then cap else PAGE, 0, MAX_PAGES)
  {
    hide Filter, Resume, Served, Stands, Page, Oldest, IdsOf, Walked;
    var size := if cap < PAGE then cap else PAGE;
    wraps := [];
    var seen: set<string> := {};
    var until: Option<int> := None;
    ghost var from: nat := 0;
    StandsFirst(stored, size);
    assert [] + Walked(stored, size, 0, MAX_PAGES) == Walked(stored, size, 0, MAX_PAGES);
    for i := 0 to MAX_PAGES
      invariant from <= |stored| && Stands(stored, size, until, from, seen)
      invariant wraps + Walked(stored, size, from, MAX_PAGES - i) == Walked(stored, size, 0, MAX_PAGES)
    {
      var page := Page(stored, until, cap);
      LatestIs(stored, cap, until, from, seen);
      WalkedStep(stored, size, from, MAX_PAGES - i, wraps);
      var latest := Filter(Unseen(seen), page);
      if latest == [] { break; }
      StandsAfter(stored, size, until, from, seen);
      wraps := wraps + latest;
      seen := seen + IdsOf(latest);
      until := Some(Oldest(latest) - 1);
      from := Resume(stored, PageEnd(stored, size, from));
    }
    WalkedStep(stored, size, from, 0, wraps);
  }

  lemma WalkedStep(stored: seq<Wrap>, size: nat, from: nat, pages: nat, wraps: seq<Wrap>)
    requires size > 0 && from <= |stored|
    ensures pages == 0 || from == |stored| ==> wraps + Walked(stored, size, from, pages) == wraps
    ensures pages > 0 && from < |stored| ==>
              var to := PageEnd(stored, size, from);
              wraps + Walked(stored, size, from, pages)
                  == (wraps + stored[from..to]) + Walked(stored, size, Resume(stored, to), pages - 1)
  {
  }

  lemma StandsFirst(stored: seq<Wrap>, size: nat)
    ensures Stands(stored, size, None, 0, {})
  {
  }

  // ---------------------------------------------------------------- what the walk is worth

  lemma {:induction false} WalkedIsShort(stored: seq<Wrap>, size: nat, from: nat, pages: nat)
    requires size > 0 && from <= |stored|
    ensures |Walked(stored, size, from, pages)| <= |stored| - from
    decreases pages
  {
    if pages > 0 && from < |stored| {
      WalkedIsShort(stored, size, Resume(stored, PageEnd(stored, size, from)), pages - 1);
    }
  }

  ghost predicate DistinctIds(wraps: seq<Wrap>) {
    forall i, j | 0 <= i < j < |wraps| :: wraps[i].id != wraps[j].id
  }

  lemma JoinPages(stored: seq<Wrap>, from: nat, to: nat, next: nat, rest: seq<Wrap>)
    requires Served(stored) && from <= to <= next <= |stored|
    requires DistinctIds(rest) && forall w | w in rest :: w in stored[next..]
    ensures DistinctIds(stored[from..to] + rest) && forall w | w in stored[from..to] + rest :: w in stored[from..]
  {
    var page := stored[from..to];
    assert stored[from..] == page + stored[to..] && stored[to..] == stored[to..next] + stored[next..];
    forall i, j | 0 <= i < |page| && 0 <= j < |rest|
      ensures page[i].id != rest[j].id
    {
      assert rest[j] in stored[next..];
      var k :| next <= k < |stored| && stored[k] == rest[j];
      assert page[i] == stored[from + i];
    }
  }

  /** No wrap is collected twice, and none is invented. */
  lemma {:induction false} NothingTwice(stored: seq<Wrap>, size: nat, from: nat, pages: nat)
    requires Served(stored) && size > 0 && from <= |stored|
    ensures DistinctIds(Walked(stored, size, from, pages))
    ensures forall w | w in Walked(stored, size, from, pages) :: w in stored[from..]
    decreases pages
  {
    hide Served, DistinctIds;
    if pages > 0 && from < |stored| {
      var to := PageEnd(stored, size, from);
      NothingTwice(stored, size, Resume(stored, to), pages - 1);
      OnePage(stored, size, from, pages);
      JoinPages(stored, from, to, Resume(stored, to), Walked(stored, size, Resume(stored, to), pages - 1));
    } else {
      NoIds();
    }
  }

  lemma NoIds()
    ensures DistinctIds([])
  {
  }

  lemma OnePage(stored: seq<Wrap>, size: nat, from: nat, pages: nat)
    requires size > 0 && from < |stored| && pages > 0
    ensures var to := PageEnd(stored, size, from);
            Walked(stored, size, from, pages) == stored[from..to] + Walked(stored, size, Resume(stored, to), pages - 1)
  {
  }

  /** A page may end before position `i`: the next wrap is of an older second, and `until` does not become 0. */
  predicate Apart(stored: seq<Wrap>, i: nat)
    requires 0 < i < |stored|
  {
    stored[i].created_at < stored[i - 1].created_at && stored[i - 1].created_at != 1
  }

  /** Enough pages, and none of them ends inside a second. */
  ghost predicate Whole(stored: seq<Wrap>, size: nat, from: nat, pages: nat) {
    && |stored| - from <= pages * size
    && forall k: nat | k > 0 && 0 < from + k * size < |stored| :: Apart(stored, from + k * size)
  }

  lemma WholeStep(stored: seq<Wrap>, size: nat, from: nat, pages: nat)
    requires size > 0 && pages > 0 && from + size < |stored|
    ensures Whole(stored, size, from, pages)
            <==> Apart(stored, from + size) && Whole(stored, size, from + size, pages - 1)
  {
    assert pages * size == size + (pages - 1) * size;
    assert 1 * size == size;
    if Whole(stored, size, from, pages) {
      forall k: nat | k > 0 && 0 < from + size + k * size < |stored|
        ensures Apart(stored, from + size + k * size)
      {
        assert (k + 1) * size == size + k * size;
        assert Apart(stored, from + (k + 1) * size);
      }
    }
    if Apart(stored, from + size) && Whole(stored, size, from + size, pages - 1) {
      forall k: nat | k > 0 && 0 < from + k * size < |stored|
        ensures Apart(stored, from + k * size)
      {
        if k > 1 {
          assert k * size == size + (k - 1) * size;
          assert Apart(stored, from + size + (k - 1) * size);
        }
      }
    }
  }

  lemma LastPage(stored: seq<Wrap>, size: nat, from: nat, pages: nat)
    requires size > 0 && from <= |stored| <= from + size && (from == |stored| || pages > 0)
    ensures Whole(stored, size, from, pages)
  {
  }

  lemma ResumeIs(stored: seq<Wrap>, to: nat)
    requires 0 < to < |stored|
    ensures Resume(stored, to) == to <==> Apart(stored, to)
  {
  }

  /** The walk collects everything exactly when the pages suffice and no page boundary falls inside a second. */
  lemma {:induction false} WalkIsExact(stored: seq<Wrap>, size: nat, from: nat, pages: nat)
    requires Served(stored) && size > 0 && from <= |stored|
    ensures Walked(stored, size, from, pages) == stored[from..] <==> Whole(stored, size, from, pages)
    decreases pages
  {
    hide Walked, Resume, Served, Whole;
    if from == |stored| || pages == 0 {
      NoPages(stored, size, from, pages);
    } else {
      var to := PageEnd(stored, size, from);
      var next := Resume(stored, to);
      var rest := Walked(stored, size, next, pages - 1);
      OnePage(stored, size, from, pages);
      assert stored[from..] == stored[from..to] + stored[to..];
      WalkedIsShort(stored, size, next, pages - 1);
      if to == |stored| {
        LastPage(stored, size, from, pages);
        assert rest == [];
      } else {
        ResumeIs(stored, to);
        WholeStep(stored, size, from, pages);
        WalkIsExact(stored, size, next, pages - 1);
        assert |rest| == |stored| - to ==> next == to;
        assert stored[from..to] + rest == stored[from..to] + stored[to..] <==> rest == stored[to..] by {
          SamePrefix(stored[from..to], rest, stored[to..]);
        }
      }
    }
  }

  lemma SamePrefix(p: seq<Wrap>, a: seq<Wrap>, b: seq<Wrap>)
    ensures p + a == p + b <==> a == b
  {
    if p + a == p + b {
      assert a == (p + a)[|p|..] && b == (p + b)[|p|..];
    }
  }

  lemma NoPages(stored: seq<Wrap>, size: nat, from: nat, pages: nat)
    requires size > 0 && from <= |stored| && (from == |stored| || pages == 0)
    ensures Walked(stored, size, from, pages) == stored[from..] <==> Whole(stored, size, from, pages)
  {
  }

  /** For one relay with page cap `cap`: every stored wrap is unwrapped if and only if at most 20 pages are needed and
      no multiple of the page size splits a second. */
  lemma EverythingIsUnwrapped(stored: seq<Wrap>, cap: nat)
    requires Served(stored) && cap > 0
    ensures var size := if cap < PAGE then cap else PAGE;
            Walked(stored, size, 0, MAX_PAGES) == stored
            <==> |stored| <= MAX_PAGES * size && forall k: nat | k > 0 && 0 < k * size < |stored| ::
                Apart(stored, k * size)
  {
    var size := if cap < PAGE then cap else PAGE;
    WalkIsExact(stored, size, 0, MAX_PAGES);
    assert stored[0..] == stored;
    assert forall k: nat :: 0 + k * size == k * size;
  }
}
