/** mcp/src/subgrants.ts, the lineage rows: well-formedness, the parent test and reachability. */
module Lineage {
  import opened Sequences
  import opened Records

  /** The lineage keeps this many rows; saving drops the oldest beyond it. */
  const LINEAGE_CAP := 500

  predicate HexDigit(c: char) {
    '0' <= c <= '9' || 'a' <= c <= 'f' || 'A' <= c <= 'F'
  }

  predicate Hex64(s: string) {
    |s| == 64 && forall i | 0 <= i < 64 :: HexDigit(s[i])
  }

  predicate WellFormed(row: DerivedChild) {
    Hex64(row.parent.publisher) && Hex64(row.child.grantee)
  }

  /** The rows of an index that a load accepts. */
  function Loaded(children: seq<DerivedChild>): seq<DerivedChild> {
    Filter(WellFormed, children)
  }

  /** A load keeps exactly the rows whose two public keys are 64 hexadecimal digits, of either case. */
  lemma LoadedIs(children: seq<DerivedChild>, row: DerivedChild)
    ensures row in Loaded(children)
            <==> row in children && Hexadecimal(row.parent.publisher) && Hexadecimal(row.child.grantee)
  {
    assert forall c :: HexDigit(c) <==> c in "0123456789abcdefABCDEF" by {
      forall c
        ensures HexDigit(c) <==> c in "0123456789abcdefABCDEF"
      {
        HexDigits(c);
      }
    }
  }

  ghost predicate Hexadecimal(s: string) {
    |s| == 64 && forall c | c in s :: c in "0123456789abcdefABCDEF"
  }

  lemma HexDigits(c: char)
    ensures HexDigit(c) <==> c in "0123456789abcdefABCDEF"
  {
    var digits := "0123456789abcdefABCDEF";
    if '0' <= c <= '9' {
      assert digits[c as int - '0' as int] == c;
    } else if 'a' <= c <= 'f' {
      assert digits[10 + (c as int - 'a' as int)] == c;
    } else if 'A' <= c <= 'F' {
      assert digits[16 + (c as int - 'A' as int)] == c;
    }
  }

  function Capped(rows: seq<DerivedChild>): (r: seq<DerivedChild>)
    ensures |r| <= LINEAGE_CAP
    ensures forall x | x in r :: x in rows
    ensures |rows| <= LINEAGE_CAP ==> r == rows
  {
    if |rows| > LINEAGE_CAP then rows[|rows| - LINEAGE_CAP..] else rows
  }

  /** `row` was derived from (publisher, scope) at or below `generation`. */
  ghost predicate Under(row: DerivedChild, publisher: Pub, scope: ScopeId, generation: nat) {
    row.parent.publisher == publisher && row.parent.scope == scope && row.parent.generation <= generation
  }

  ghost predicate ChildOf(row: DerivedChild, issuer: Pub, below: DerivedChild) {
    Under(below, issuer, row.child.scope, row.child.generation)
  }

  /** A chain of live rows that starts under (publisher, scope, generation). */
  ghost predicate Chain(rows: seq<DerivedChild>, issuer: Pub, publisher: Pub, scope: ScopeId, generation: nat,
                        path: seq<nat>) {
    && path != []
    && (forall k | 0 <= k < |path| :: path[k] < |rows| && rows[path[k]].state.Live?)
    && Under(rows[path[0]], publisher, scope, generation)
    && (forall k | 0 < k < |path| :: ChildOf(rows[path[k - 1]], issuer, rows[path[k]]))
  }

  /** Row `i` descends from (publisher, scope, generation) through live rows, itself included. */
  ghost predicate Descends(rows: seq<DerivedChild>, issuer: Pub, publisher: Pub, scope: ScopeId, generation: nat,
                           i: nat) {
    exists path :: Chain(rows, issuer, publisher, scope, generation, path) && path[|path| - 1] == i
  }

  /** `after` is `before` with some live rows severed and nothing else touched. */
  ghost predicate OnlySevers(before: seq<DerivedChild>, after: seq<DerivedChild>) {
    && |before| == |after|
    && forall i | 0 <= i < |before| :: after[i] == before[i] || after[i] == before[i].(state := Severed)
  }

  ghost predicate Newly(before: seq<DerivedChild>, after: seq<DerivedChild>, i: nat) {
    i < |before| && i < |after| && before[i].state.Live? && after[i].state.Severed?
  }

  /** Whatever hangs under a newly severed row is severed too. */
  ghost predicate Closed(issuer: Pub, before: seq<DerivedChild>, after: seq<DerivedChild>)
    requires |before| == |after|
  {
    forall i: nat, j: nat | Newly(before, after, i) && j < |after| && ChildOf(before[i], issuer, before[j]) ::
      after[j].state.Severed?
  }

  lemma ChainUnder(rows: seq<DerivedChild>, issuer: Pub, publisher: Pub, scope: ScopeId, generation: nat, i: nat)
    requires i < |rows| && rows[i].state.Live? && Under(rows[i], publisher, scope, generation)
    ensures Descends(rows, issuer, publisher, scope, generation, i)
  {
    assert Chain(rows, issuer, publisher, scope, generation, [i]) && [i][|[i]| - 1] == i;
  }

  /** A descendant of a live row in a later state descends, in the earlier state, from what that row hangs under. */
  lemma ChainThrough(rows: seq<DerivedChild>, later: seq<DerivedChild>, issuer: Pub,
                     publisher: Pub, scope: ScopeId, generation: nat, top: nat, i: nat)
    requires OnlySevers(rows, later)
    requires top < |rows| && rows[top].state.Live? && Under(rows[top], publisher, scope, generation)
    requires Descends(later, issuer, issuer, rows[top].child.scope, rows[top].child.generation, i)
    ensures Descends(rows, issuer, publisher, scope, generation, i)
  {
    var path :| Chain(later, issuer, issuer, rows[top].child.scope, rows[top].child.generation, path)
                && path[|path| - 1] == i;
    var longer := [top] + path;
    forall k | 0 < k < |longer|
      ensures ChildOf(rows[longer[k - 1]], issuer, rows[longer[k]])
    {
      if k > 1 {
        assert ChildOf(later[path[k - 2]], issuer, later[path[k - 1]]);
      }
    }
    assert Chain(rows, issuer, publisher, scope, generation, longer) && longer[|longer| - 1] == i;
  }

  /** Closure makes the cascade complete: every descendant is severed. */
  lemma ClosedIsComplete(before: seq<DerivedChild>, after: seq<DerivedChild>, issuer: Pub,
                         publisher: Pub, scope: ScopeId, generation: nat, i: nat)
    requires OnlySevers(before, after) && Closed(issuer, before, after)
    requires forall j: nat | j < |after| && Under(after[j], publisher, scope, generation) :: after[j].state.Severed?
    requires Descends(before, issuer, publisher, scope, generation, i)
    ensures Newly(before, after, i)
  {
    var path :| Chain(before, issuer, publisher, scope, generation, path) && path[|path| - 1] == i;
    ChainSevered(before, after, issuer, publisher, scope, generation, path, |path| - 1);
  }

  lemma {:induction false} ChainSevered(before: seq<DerivedChild>, after: seq<DerivedChild>, issuer: Pub,
                                        publisher: Pub, scope: ScopeId, generation: nat, path: seq<nat>, k: nat)
    requires OnlySevers(before, after) && Closed(issuer, before, after)
    requires forall j: nat | j < |after| && Under(after[j], publisher, scope, generation) :: after[j].state.Severed?
    requires Chain(before, issuer, publisher, scope, generation, path) && k < |path|
    ensures Newly(before, after, path[k])
  {
    if k == 0 {
      assert Under(after[path[0]], publisher, scope, generation);
    } else {
      ChainSevered(before, after, issuer, publisher, scope, generation, path, k - 1);
      assert ChildOf(before[path[k - 1]], issuer, before[path[k]]);
    }
  }
}
