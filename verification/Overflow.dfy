/** A run of a sub-issuer that outgrows the lineage and hands one parent's data to a ninth child. */
module Overflow {
  import opened Options
  import opened Sequences
  import opened Records
  import opened Relays
  import opened Lineage
  import opened Redelegation
  import opened SubIssuerRuns

  /** Names that differ: the n-th is n letters long. */
  function Name(n: nat): string { seq(n, _ => 'a') }

  /** The n-th issuance: eight children of each parent in turn, but the one after the 501st goes back to the first
      parent. */
  function ParentOf(n: nat): nat { if n == LINEAGE_CAP + 1 then 0 else n / MAX_CHILDREN }

  const OPEN := Terms(1, None, None, None, Some(true), None, None, None)

  const ASKED := DerivedTerms("p", None, None, None, None, None, None)

  function Parent(q: Pub, scope: ScopeId, key: Key): HeldGrant {
    HeldGrant(Grant(q, scope, "", 1, key, Some(OPEN)), None, false, false)
  }

  function RowAt(q: Pub, r: Pub, n: nat): DerivedChild {
    ChildRow(Parent(q, Name(ParentOf(n)), 0), r, Name(n), "derived:")
  }

  lemma OpenParent(q: Pub, scope: ScopeId, key: Key)
    ensures Validate(Parent(q, scope, key), ASKED, 0) == None
    ensures BoundOf(FieldOf(Parent(q, scope, key).grant.terms)) == Some(Bound(MAX_CHILDREN, MAX_GRANTEES, true))
  {
  }

  lemma ParentAppears(issuer: Pub, q: Pub, w: Desk, parent: ScopeId) returns (w1: Desk)
    requires Inv(issuer, w) && q != issuer
    ensures Next(issuer, w, Elsewhere(SetEvent(q, parent, 0, 1, w.drawn, Empty)), w1) && Inv(issuer, w1)
    ensures LoadIndex(w1.events, issuer) == LoadIndex(w.events, issuer) && w1.minted == w.minted
            && w1.drawn == w.drawn + 1
    ensures FetchScope(w1.events, q, parent, 1, w.drawn).Read?
    ensures forall d :: Current(w1.events, DataSlot(issuer, d)) == Current(w.events, DataSlot(issuer, d))
  {
    hide Inv, LoadIndex, Published, Current;
    var e := SetEvent(q, parent, 0, 1, w.drawn, Empty);
    w1 := Desk(Published(w.events, e), w.drawn + 1, w.minted);
    assert OnePerSlot(w.events) && KeysBelow(w.events, w.drawn) by { InvIs(issuer, w); }
    PublishKeepsKeys(w.events, e, w.drawn, w.drawn + 1);
    ElsewhereKeeps(issuer, w, e, w1);
    PublishReplaces(w.events, e, DataSlot(q, parent));
    forall d {
      PublishReplaces(w.events, e, DataSlot(issuer, d));
    }
  }

  lemma ChildIssued(issuer: Pub, q: Pub, r: Pub, w: Desk, parent: ScopeId, key: Key, child: ScopeId)
    returns (w2: Desk, s2: Step)
    requires Inv(issuer, w) && Hex64(q) && Hex64(r) && Current(w.events, DataSlot(issuer, child)).None?
    requires AdmitsAnother(Bound(MAX_CHILDREN, MAX_GRANTEES, true),
                           ChildrenOf(LoadIndex(w.events, issuer).children, q, parent), r)
    requires FetchScope(w.events, q, parent, 1, key).Read?
    ensures Next(issuer, w, s2, w2) && Inv(issuer, w2)
    ensures LoadIndex(w2.events, issuer).children
            == Capped(LoadIndex(w.events, issuer).children + [ChildRow(Parent(q, parent, 0), r, child, "derived:")])
    ensures w2.minted == w.minted + [Minted(q, parent, r)]
    ensures forall d | d != child :: Current(w2.events, DataSlot(issuer, d)) == Current(w.events, DataSlot(issuer, d))
  {
    hide Inv, LoadIndex, Validate, BoundOf, FetchScope, AdmitsAnother, ChildrenOf, Hex64, Capped, PublishedAll;
    var held := Parent(q, parent, key);
    OpenParent(q, parent, key);
    assert OnePerSlot(w.events)
           && Loaded(LoadIndex(w.events, issuer).children) == LoadIndex(w.events, issuer).children by {
      InvIs(issuer, w);
      LoadedAll(issuer, w.events);
    }
    var es := IssuePublishes(w.events, issuer, held, r, Empty, "derived:", ASKED, child, w.drawn, 0, ALL_ANSWERED);
    assert es[..3] == es;
    w2 := Desk(PublishedAll(w.events, es), w.drawn + 1, w.minted + [Minted(q, parent, r)]);
    s2 := Issue(held, r, Empty, "derived:", ASKED, 0, child, 0, 3);
    assert Next(issuer, w, s2, w2);
    hide Next, Current;
    IssueKeeps(issuer, w, s2, w2);
    OtherSetsStay(issuer, w.events, es, w2.events, child);
  }

  lemma InvIs(issuer: Pub, w: Desk)
    requires Inv(issuer, w)
    ensures OnePerSlot(w.events) && KeysBelow(w.events, w.drawn) && Books(issuer, w.events)
  {
  }

  lemma OtherSetsStay(issuer: Pub, events: seq<Event>, es: seq<Event>, after: seq<Event>, child: ScopeId)
    requires OnePerSlot(events) && |es| == 3 && (forall x | x in es :: x.signed) && after == PublishedAll(events, es)
    requires forall x, d | x in es && d != child :: ReplaceKey(x) != Some(DataSlot(issuer, d))
    ensures forall d | d != child :: Current(after, DataSlot(issuer, d)) == Current(events, DataSlot(issuer, d))
  {
    hide Current, Published;
    PublishSteps(events, es);
    PublishKeepsSlots(events, es[0]);
    PublishKeepsSlots(Published(events, es[0]), es[1]);
    forall d | d != child
      ensures Current(after, DataSlot(issuer, d)) == Current(events, DataSlot(issuer, d))
    {
      PublishReplaces(events, es[0], DataSlot(issuer, d));
      PublishReplaces(Published(events, es[0]), es[1], DataSlot(issuer, d));
      PublishReplaces(Published(Published(events, es[0]), es[1]), es[2], DataSlot(issuer, d));
    }
  }

  // ---------------------------------------------------------------- who is admitted

  /** The rows on record after `n` issuances: the last 500. */
  function Rows(q: Pub, r: Pub, n: nat): (rows: seq<DerivedChild>)
    ensures |rows| == if n <= LINEAGE_CAP then n else LINEAGE_CAP
    ensures forall i | 0 <= i < |rows| :: rows[i] == RowAt(q, r, n - |rows| + i)
  {
    var size := if n <= LINEAGE_CAP then n else LINEAGE_CAP;
    seq(size, i requires 0 <= i < size => RowAt(q, r, n - size + i))
  }

  lemma RowsGrow(q: Pub, r: Pub, n: nat)
    ensures Rows(q, r, n + 1) == Capped(Rows(q, r, n) + [RowAt(q, r, n)])
  {
  }

  /** As many elements are kept as there are positions in the window that is kept. */
  lemma {:induction false} FilterWindow<T(!new)>(f: T -> bool, s: seq<T>, from: nat, to: nat)
    requires from <= to <= |s|
    requires forall i | 0 <= i < |s| :: f(s[i]) <==> from <= i < to
    ensures |Filter(f, s)| == to - from
  {
    if s != [] {
      var from', to' := if from > 0 then from - 1 else 0, if to > 0 then to - 1 else 0;
      assert forall i | 0 <= i < |s[1..]| :: s[1..][i] == s[i + 1];
      FilterWindow(f, s[1..], from', to');
    }
  }

  /** The n-th issuance is admitted: its parent has fewer than eight rows, and one grantee. */
  lemma Admitted(q: Pub, r: Pub, n: nat)
    requires n <= LINEAGE_CAP + 1
    ensures AdmitsAnother(Bound(MAX_CHILDREN, MAX_GRANTEES, true), ChildrenOf(Rows(q, r, n), q, Name(ParentOf(n))), r)
  {
    var rows, p := Rows(q, r, n), ParentOf(n);
    var gone := n - |rows|;
    var from := if MAX_CHILDREN * p >= gone then MAX_CHILDREN * p - gone else 0;
    var to := if n == LINEAGE_CAP + 1 then MAX_CHILDREN - gone else |rows|;
    forall i | 0 <= i < |rows|
      ensures From(q, Name(p))(rows[i]) <==> from <= i < to
    {
      assert |Name(ParentOf(gone + i))| == ParentOf(gone + i) && |Name(p)| == p;
    }
    FilterWindow(From(q, Name(p)), rows, from, to);
    var mine := ChildrenOf(rows, q, Name(p));
    assert |mine| < MAX_CHILDREN;
    assert GranteesOf(mine) <= {r};
    AtMostOne(GranteesOf(mine), r);
  }

  lemma AtMostOne(s: set<Pub>, r: Pub)
    requires s <= {r}
    ensures |s| <= 1
  {
    if s != {} {
      assert s == {r};
    }
  }

  // ---------------------------------------------------------------- the run

  /** The lineage, the history and the unused scope ids after `n` issuances. */
  ghost predicate After(issuer: Pub, q: Pub, r: Pub, w: Desk, n: nat) {
    && Inv(issuer, w) && LoadIndex(w.events, issuer).children == Rows(q, r, n)
    && |w.minted| == n && (forall i | 0 <= i < n :: w.minted[i] == Minted(q, Name(ParentOf(i)), r))
    && forall i: nat | n <= i :: Current(w.events, DataSlot(issuer, Name(i))).None?
  }

  lemma {:induction false} RunTo(issuer: Pub, q: Pub, r: Pub, n: nat) returns (ws: seq<Desk>, steps: seq<Step>)
    requires q != issuer && Hex64(q) && Hex64(r) && n <= LINEAGE_CAP + 2
    ensures Run(issuer, ws, steps) && After(issuer, q, r, ws[|steps|], n)
    decreases n
  {
    hide Inv, Next, Hex64, LoadIndex, Current, AdmitsAnother, ChildrenOf, Capped;
    if n == 0 {
      ws, steps := [Desk([], 0, [])], [];
      NothingYet(issuer, q, r);
    } else {
      ws, steps := RunTo(issuer, q, r, n - 1);
      var w := ws[|steps|];
      var parent := Name(ParentOf(n - 1));
      Admitted(q, r, n - 1);
      var w1 := ParentAppears(issuer, q, w, parent);
      var s1 := Elsewhere(SetEvent(q, parent, 0, 1, w.drawn, Empty));
      var w2, s2 := ChildIssued(issuer, q, r, w1, parent, w.drawn, Name(n - 1));
      RowsGrow(q, r, n - 1);
      assert forall i: nat | n <= i :: |Name(i)| != |Name(n - 1)|;
      RunLonger(issuer, ws, steps, s1, w1);
      RunLonger(issuer, ws + [w1], steps + [s1], s2, w2);
      ws, steps := ws + [w1] + [w2], steps + [s1] + [s2];
    }
  }

  lemma NothingYet(issuer: Pub, q: Pub, r: Pub)
    ensures After(issuer, q, r, Desk([], 0, []), 0)
  {
    EmptyDesk(issuer);
    CurrentIsStored([], IndexSlot(issuer));
  }

  lemma RunLonger(issuer: Pub, ws: seq<Desk>, steps: seq<Step>, step: Step, w: Desk)
    requires Run(issuer, ws, steps) && Next(issuer, ws[|steps|], step, w)
    ensures Run(issuer, ws + [w], steps + [step])
  {
    hide Next;
    var lw, ls := ws + [w], steps + [step];
    forall i | 0 <= i < |ls|
      ensures Next(issuer, lw[i], ls[i], lw[i + 1])
    {
      if i < |steps| {
        assert Next(issuer, ws[i], steps[i], ws[i + 1]);
      }
    }
  }

  /** The overflow is reached: after 502 completed issuances, each of them admitted, the first parent's data has gone to
      nine children, one more than the budget, although the rows on record are within it. */
  lemma NinthChild(issuer: Pub, q: Pub, r: Pub) returns (ws: seq<Desk>, steps: seq<Step>)
    requires q != issuer && Hex64(q) && Hex64(r)
    ensures Run(issuer, ws, steps)
    ensures |Filter(For(q, Name(0)), ws[|steps|].minted)| == MAX_CHILDREN + 1 && !WithinBudget(ws[|steps|].minted)
    ensures WithinBudget(AllReached(LoadIndex(ws[|steps|].events, issuer).children))
  {
    hide Inv, Next, LoadIndex, Hex64, Current;
    ws, steps := RunTo(issuer, q, r, LINEAGE_CAP + 2);
    BudgetOverRuns(issuer, ws, steps, |steps|);
    hide WithinBudget;
    NineOfThem(q, r, ws[|steps|].minted);
    TooMany(q, Name(0), ws[|steps|].minted);
  }

  lemma TooMany(publisher: Pub, scope: ScopeId, minted: seq<Minted>)
    requires |Filter(For(publisher, scope), minted)| > MAX_CHILDREN
    ensures !WithinBudget(minted)
  {
  }

  lemma NineOfThem(q: Pub, r: Pub, minted: seq<Minted>)
    requires |minted| == LINEAGE_CAP + 2 && forall i | 0 <= i < |minted| :: minted[i] == Minted(q, Name(ParentOf(i)), r)
    ensures |Filter(For(q, Name(0)), minted)| == MAX_CHILDREN + 1
  {
    hide Filter;
    var f, n := For(q, Name(0)), |minted| - 1;
    var earlier, last := minted[..n], minted[n..];
    assert minted == earlier + last;
    forall i | 0 <= i < n
      ensures f(earlier[i]) <==> i < MAX_CHILDREN
    {
      OfFirst(q, r, minted, i);
    }
    OfFirst(q, r, minted, n);
    assert last[0] == minted[n];
    FilterAppend(f, earlier, last);
    FilterWindow(f, earlier, 0, MAX_CHILDREN);
    FilterWindow(f, last, 0, 1);
  }

  lemma OfFirst(q: Pub, r: Pub, minted: seq<Minted>, i: nat)
    requires i < |minted| && minted[i] == Minted(q, Name(ParentOf(i)), r)
    ensures For(q, Name(0))(minted[i]) <==> i < MAX_CHILDREN || i == LINEAGE_CAP + 1
  {
    assert |Name(ParentOf(i))| == ParentOf(i) && |Name(0)| == 0;
  }
}
