/** mcp/src/capabilities.ts: the keyless read of public capability grants, under partial relay coverage. */
module Capabilities {
  import opened Options
  import opened Sequences
  import opened JsMaps
  import opened Records

  const KIND_GRANT := 440
  const KIND_REVOCATION := 441

  /** A public event; `sound` is whether its signature verifies, and `expiration` its first expiration tag, when that
      is a number. Ids are ordered as `localeCompare` orders them. */
  datatype PublicEvent = PublicEvent(
    id: int, kind: int, author: Pub, created_at: int, sound: bool,
    subjects: seq<Pub>, caps: seq<string>, scopes: seq<string>, expiration: Option<int>, targets: seq<int>)

  /** What one relay does with one query: it completes with some events, or it does not complete. */
  type Answer = Option<seq<PublicEvent>>

  datatype Status = Active | Expired | Revoked | Unverifiable

  datatype Row = Row(id: int, grantor: Pub, cap: string, title: string, scope_hash: Option<string>, granted_at: int,
                     expires_at: Option<int>, status: Status, revocation: Option<int>)

  /** The result of a read: `None` rows mean that nothing at all could be said. */
  datatype Reading = Reading(rows: Option<seq<Row>>, verified: bool, configured: nat, grantsAnswered: nat,
                             revocationsAnswered: Option<nat>)

  function Label(cap: string): string {
    match cap
    case "admit" => "Channel admission"
    case "admit+read" => "Channel admission + read"
    case "task" => "Tasking authority"
    case "task+act" => "Tasking + act"
    case "task-relay" => "Task relay carrier"
    case "mirror" => "Mirror consent"
    case _ => "Capability: " + cap
  }

  // ---------------------------------------------------------------- merging the answers

  function Answered(answers: seq<Answer>): (n: nat)
    ensures n <= |answers|
    ensures n == |answers| <==> forall a | a in answers :: a.Some?
  {
    if answers == [] then 0
    else
      assert answers == [answers[0]] + answers[1..];
      (if answers[0].Some? then 1 else 0) + Answered(answers[1..])
  }

  function Added(m: JsMap<int, PublicEvent>, es: seq<PublicEvent>): JsMap<int, PublicEvent>
    decreases |es|
  {
    if es == [] then m else Set(Added(m, es[..|es| - 1]), es[|es| - 1].id, es[|es| - 1])
  }

  /** The events of all completed answers, one per id. */
  function Merged(answers: seq<Answer>): JsMap<int, PublicEvent>
    decreases |answers|
  {
    if answers == [] then []
    else
      var m, a := Merged(answers[..|answers| - 1]), answers[|answers| - 1];
      if a.Some? then Added(m, a.value) else m
  }

  /** `readSet`. */
  method ReadSet(answers: seq<Answer>) returns (answered: nat, events: seq<PublicEvent>)
    ensures answered == Answered(answers) && events == Values(Merged(answers))
  {
    var m: JsMap<int, PublicEvent> := [];
    answered := 0;
    for i := 0 to |answers|
      invariant m == Merged(answers[..i]) && answered == Answered(answers[..i])
    {
      AnsweredMore(answers[..i], answers[i]);
      assert answers[..i + 1] == answers[..i] + [answers[i]] && answers[..i + 1][..i] == answers[..i];
      if answers[i].Some? {
        answered := answered + 1;
        var es := answers[i].value;
        ghost var was := m;
        for j := 0 to |es|
          invariant m == Added(was, es[..j])
        {
          assert es[..j + 1][..j] == es[..j];
          m := Set(m, es[j].id, es[j]);
        }
        assert es[..|es|] == es;
      }
    }
    assert answers[..|answers|] == answers;
    events := Values(m);
  }

  lemma {:induction false} AnsweredMore(answers: seq<Answer>, a: Answer)
    ensures Answered(answers + [a]) == Answered(answers) + if a.Some? then 1 else 0
  {
    if answers != [] {
      assert (answers + [a])[1..] == answers[1..] + [a];
      AnsweredMore(answers[1..], a);
    }
  }

  /** `e` was in some completed answer. */
  ghost predicate Seen(answers: seq<Answer>, e: PublicEvent) {
    exists i :: 0 <= i < |answers| && answers[i].Some? && e in answers[i].value
  }

  /** An event id determines the event: it is the hash of its content. */
  ghost predicate IdsDetermine(answers: seq<Answer>) {
    forall a, b | Seen(answers, a) && Seen(answers, b) && a.id == b.id :: a == b
  }

  /** Every entry bears the id of its event. */
  ghost predicate ById(m: JsMap<int, PublicEvent>) {
    Distinct(m) && forall i | 0 <= i < |m| :: m[i].key == m[i].value.id
  }

  lemma ByIdGet(m: JsMap<int, PublicEvent>, e: PublicEvent)
    requires ById(m)
    ensures e in Values(m) <==> Get(m, e.id) == Some(e)
  {
  }

  lemma {:induction false} AddedIs(m: JsMap<int, PublicEvent>, es: seq<PublicEvent>, id: int)
    requires ById(m)
    ensures ById(Added(m, es))
    ensures match Get(Added(m, es), id)
            case Some(e) => e.id == id && (e in es || Get(m, id) == Some(e))
            case None => Get(m, id).None? && forall e | e in es :: e.id != id
    decreases |es|
  {
    if es != [] {
      var fewer, e := es[..|es| - 1], es[|es| - 1];
      AddedIs(m, fewer, id);
      SetThenGet(Added(m, fewer), e.id, e);
      assert es == fewer + [e];
    } else if Get(m, id).Some? {
      assert m[Find(m, id)].key == id;
    }
  }

  lemma {:induction false} MergedIs(answers: seq<Answer>, id: int)
    ensures ById(Merged(answers))
    ensures match Get(Merged(answers), id)
            case Some(e) => e.id == id && Seen(answers, e)
            case None => forall e | Seen(answers, e) :: e.id != id
    decreases |answers|
  {
    if answers != [] {
      var n := |answers| - 1;
      var fewer, a := answers[..n], answers[n];
      MergedIs(fewer, id);
      if a.Some? {
        AddedIs(Merged(fewer), a.value, id);
      }
      SeenMore(fewer, a);
      assert answers == fewer + [a];
    }
  }

  lemma SeenMore(answers: seq<Answer>, a: Answer)
    ensures forall e :: Seen(answers + [a], e) <==> Seen(answers, e) || (a.Some? && e in a.value)
  {
    var more := answers + [a];
    forall e
      ensures Seen(more, e) <==> Seen(answers, e) || (a.Some? && e in a.value)
    {
      if i :| 0 <= i < |answers| && answers[i].Some? && e in answers[i].value {
        assert more[i] == answers[i];
      }
      if a.Some? && e in a.value {
        assert more[|answers|] == a;
      }
    }
  }

  /** Merging loses nothing and invents nothing. */
  lemma MergedIsSeen(answers: seq<Answer>)
    requires IdsDetermine(answers)
    ensures forall e :: e in Values(Merged(answers)) <==> Seen(answers, e)
  {
    forall e
      ensures e in Values(Merged(answers)) <==> Seen(answers, e)
    {
      MergedIs(answers, e.id);
      ByIdGet(Merged(answers), e);
    }
  }

  // ---------------------------------------------------------------- the read

  /** A sound grant of exactly one capability that names the subject. */
  ghost predicate Grants(e: PublicEvent, subject: Pub) {
    e.kind == KIND_GRANT && e.sound && subject in e.subjects && |e.caps| == 1
  }

  /** The filter of the first query's answers. */
  function Naming(subject: Pub): PublicEvent -> bool {
    (e: PublicEvent) =>
      if e.kind != KIND_GRANT || !e.sound then false
      else if subject !in e.subjects then false
      else |e.caps| == 1
  }

  /** A sound revocation of grant `g` by the one who gave it. */
  ghost predicate Revokes(e: PublicEvent, g: PublicEvent) {
    e.kind == KIND_REVOCATION && e.sound && g.id in e.targets && e.author == g.author
  }

  /** The inner loop over the targets of one revocation. */
  function ResolvedTargets(m: JsMap<int, PublicEvent>, e: PublicEvent, targets: seq<int>,
                           grants: seq<PublicEvent>): JsMap<int, PublicEvent>
    decreases |targets|
  {
    if targets == [] then m
    else
      var m', id := ResolvedTargets(m, e, targets[..|targets| - 1], grants), targets[|targets| - 1];
      var g := Get(Added([], grants), id);
      if g.Some? && e.author == g.value.author then Set(m', id, e) else m'
  }

  /** Which grants are revoked, and by which event: the last one found wins. */
  function Resolved(events: seq<PublicEvent>, grants: seq<PublicEvent>): JsMap<int, PublicEvent>
    decreases |events|
  {
    if events == [] then []
    else
      var m, e := Resolved(events[..|events| - 1], grants), events[|events| - 1];
      if e.kind == KIND_REVOCATION && e.sound then ResolvedTargets(m, e, e.targets, grants) else m
  }

  function RowOf(g: PublicEvent, revocation: Option<PublicEvent>, covered: bool, now: int): Row
    requires |g.caps| == 1
  {
    var status :=
      if revocation.Some? then Status.Revoked
      else if !covered then Unverifiable
      else if g.expiration.Some? && g.expiration.value <= now then Expired
      else Active;
    Row(g.id, g.author, g.caps[0], Label(g.caps[0]), if g.scopes == [] || g.scopes[0] == "" then None
        else Some(g.scopes[0]), g.created_at, g.expiration, status, if revocation.Some? then Some(revocation.value.id)
            else None)
  }

  /** Newest grant first, ties by id. */
  predicate Before(a: Row, b: Row) {
    a.granted_at > b.granted_at || (a.granted_at == b.granted_at && a.id > b.id)
  }

  function RowsOf(grants: seq<PublicEvent>, revocations: JsMap<int, PublicEvent>, covered: bool,
                  now: int): (r: seq<Row>)
    requires forall g | g in grants :: |g.caps| == 1
    ensures |r| == |grants|
    ensures forall i | 0 <= i < |grants| :: r[i] == RowOf(grants[i], Get(revocations, grants[i].id), covered, now)
  {
    seq(|grants|, i requires 0 <= i < |grants| => RowOf(grants[i], Get(revocations, grants[i].id), covered, now))
  }

  /** The whole result; `ask` is the second query, which depends on the authors and ids that the first one turned up. */
  function Held(first: seq<Answer>, ask: (set<Pub>, set<int>) -> seq<Answer>, subject: Pub, now: int): Reading {
    var n := |first|;
    var answered := Answered(first);
    var complete := n > 0 && answered == n;
    var grants := Filter(Naming(subject), Values(Merged(first)));
    if grants == [] then
      if complete then Reading(Some([]), true, n, answered, None) else Reading(None, false, n, answered, None)
    else
      var second := ask(Authors(grants), Ids(grants));
      var answered2 := Answered(second);
      var complete2 := n > 0 && answered2 == n;
      var revocations := if answered2 > 0 then Resolved(Values(Merged(second)), grants) else [];
      Reading(Some(Sort(Before, RowsOf(grants, revocations, complete && complete2, now))), complete && complete2, n,
              answered, Some(answered2))
  }

  function Authors(grants: seq<PublicEvent>): set<Pub> { set g | g in grants :: g.author }

  function Ids(grants: seq<PublicEvent>): set<int> { set g | g in grants :: g.id }

  /** The revocation fold as the loops of the code run it. */
  method ResolveRevocations(events: seq<PublicEvent>, grants: seq<PublicEvent>) returns (m: JsMap<int, PublicEvent>)
    ensures m == Resolved(events, grants)
  {
    var grantsById := Added([], grants);
    m := [];
    for i := 0 to |events|
      invariant m == Resolved(events[..i], grants)
    {
      var e := events[i];
      assert events[..i + 1][..i] == events[..i];
      if e.kind != KIND_REVOCATION || !e.sound { continue; }
      ghost var was := m;
      for j := 0 to |e.targets|
        invariant m == ResolvedTargets(was, e, e.targets[..j], grants)
      {
        assert e.targets[..j + 1][..j] == e.targets[..j];
        var g := Get(grantsById, e.targets[j]);
        if g.Some? && e.author == g.value.author {
          m := Set(m, e.targets[j], e);
        }
      }
      assert e.targets[..|e.targets|] == e.targets;
    }
    assert events[..|events|] == events;
  }

  /** `readHeldCapabilities`. */
  method ReadHeldCapabilities(first: seq<Answer>, ask: (set<Pub>, set<int>) -> seq<Answer>, subject: Pub, now: int)
    returns (r: Reading)
    ensures r == Held(first, ask, subject, now)
  {
    var answered, events := ReadSet(first);
    var complete := |first| > 0 && answered == |first|;
    var grants := Filter(Naming(subject), events);
    if !complete && grants == [] { return Reading(None, false, |first|, answered, None); }
    if grants == [] && complete { return Reading(Some([]), true, |first|, answered, None); }
    var answered2, events2 := ReadSet(ask(Authors(grants), Ids(grants)));
    var complete2 := |first| > 0 && answered2 == |first|;
    var revocations: JsMap<int, PublicEvent> := [];
    if answered2 > 0 {
      revocations := ResolveRevocations(events2, grants);
    }
    var rows := Sort(Before, RowsOf(grants, revocations, complete && complete2, now));
    return Reading(Some(rows), complete && complete2, |first|, answered, Some(answered2));
  }

  // ---------------------------------------------------------------- what a read means

  /** No two grants of one read share an id. */
  ghost predicate SingleGrants(grants: seq<PublicEvent>) {
    forall a, b | a in grants && b in grants && a.id == b.id :: a == b
  }

  lemma GrantById(grants: seq<PublicEvent>, id: int)
    requires SingleGrants(grants)
    ensures match Get(Added([], grants), id)
            case Some(g) => g in grants && g.id == id
            case None => forall g | g in grants :: g.id != id
  {
    AddedIs([], grants, id);
  }

  lemma {:induction false} ResolvedTargetsIs(m: JsMap<int, PublicEvent>, e: PublicEvent, targets: seq<int>,
                                             grants: seq<PublicEvent>, g: PublicEvent)
    requires SingleGrants(grants) && g in grants
    ensures Get(ResolvedTargets(m, e, targets, grants), g.id) == if g.id in targets && e.author == g.author
            then Some(e) else Get(m, g.id)
    decreases |targets|
  {
    if targets != [] {
      var fewer, id := targets[..|targets| - 1], targets[|targets| - 1];
      ResolvedTargetsIs(m, e, fewer, grants, g);
      GrantById(grants, id);
      SetThenGet(ResolvedTargets(m, e, fewer, grants), id, e);
      assert targets == fewer + [id];
    }
  }

  /** A grant is resolved as revoked exactly when some event revokes it. */
  lemma {:induction false} ResolvedIs(events: seq<PublicEvent>, grants: seq<PublicEvent>, g: PublicEvent)
    requires SingleGrants(grants) && g in grants
    ensures match Get(Resolved(events, grants), g.id)
            case Some(e) => e in events && Revokes(e, g)
            case None => forall e | e in events :: !Revokes(e, g)
    decreases |events|
  {
    if events != [] {
      var fewer, e := events[..|events| - 1], events[|events| - 1];
      ResolvedIs(fewer, grants, g);
      ResolvedTargetsIs(Resolved(fewer, grants), e, e.targets, grants, g);
      assert events == fewer + [e];
    }
  }

  // ---------------------------------------------------------------- relays that may or may not answer

  /** A relay: the events it holds, and those of them that it sends along even when the filter does not ask for them. */
  datatype Holding = Holding(events: seq<PublicEvent>, volunteers: PublicEvent -> bool)

  function Sends(matches: PublicEvent -> bool, relay: Holding): PublicEvent -> bool {
    (e: PublicEvent) => matches(e) || relay.volunteers(e)
  }

  /** The answers of these relays, of which only those in `up` complete the query. */
  function Answers(stored: seq<Holding>, up: set<nat>, matches: PublicEvent -> bool): (r: seq<Answer>)
    ensures |r| == |stored|
    ensures forall i | 0 <= i < |stored| ::
              r[i] == if i in up then Some(Filter(Sends(matches, stored[i]), stored[i].events)) else None
  {
    seq(|stored|, i requires 0 <= i < |stored| =>
      if i in up then Some(Filter(Sends(matches, stored[i]), stored[i].events)) else None)
  }

  function GrantQuery(subject: Pub): PublicEvent -> bool {
    (e: PublicEvent) => e.kind == KIND_GRANT && subject in e.subjects
  }

  function RevocationQuery(authors: set<Pub>, ids: set<int>): PublicEvent -> bool {
    (e: PublicEvent) => e.kind == KIND_REVOCATION && e.author in authors && exists id :: id in e.targets && id in ids
  }

  function Asking(stored: seq<Holding>, up: set<nat>): (set<Pub>, set<int>) -> seq<Answer> {
    (authors, ids) => Answers(stored, up, RevocationQuery(authors, ids))
  }

  /** The read of those relays: `up` complete the grant query, `up2` the revocation query. */
  function CoveredRead(stored: seq<Holding>, up: set<nat>, up2: set<nat>, subject: Pub, now: int): Reading {
    Held(Answers(stored, up, GrantQuery(subject)), Asking(stored, up2), subject, now)
  }

  /** `e` is on a relay that answers. */
  ghost predicate On(stored: seq<Holding>, up: set<nat>, e: PublicEvent) {
    exists i :: 0 <= i < |stored| && i in up && e in stored[i].events
  }

  ghost predicate IdsAreHashes(stored: seq<Holding>) {
    forall i, j, a, b | 0 <= i < |stored| && 0 <= j < |stored| && a in stored[i].events && b in stored[j].events
        && a.id == b.id ::
        a == b
  }

  ghost predicate AllUp(stored: seq<Holding>, up: set<nat>) {
    stored != [] && forall i: nat | i < |stored| :: i in up
  }

  lemma SeenIsOn(stored: seq<Holding>, up: set<nat>, matches: PublicEvent -> bool)
    requires IdsAreHashes(stored)
    ensures IdsDetermine(Answers(stored, up, matches))
    ensures forall e | Seen(Answers(stored, up, matches), e) :: On(stored, up, e)
    ensures forall e | On(stored, up, e) && matches(e) :: Seen(Answers(stored, up, matches), e)
  {
    forall e | On(stored, up, e) && matches(e)
      ensures Seen(Answers(stored, up, matches), e)
    {
      var i :| 0 <= i < |stored| && i in up && e in stored[i].events;
      assert Sends(matches, stored[i])(e) && Answers(stored, up, matches)[i].Some?;
    }
  }

  lemma AnsweredIs(stored: seq<Holding>, up: set<nat>, matches: PublicEvent -> bool)
    ensures Answered(Answers(stored, up, matches)) == |stored| <==> forall i: nat | i < |stored| :: i in up
    ensures Answered(Answers(stored, up, matches)) == 0 ==> forall e :: !On(stored, up, e)
  {
    var answers := Answers(stored, up, matches);
    assert forall i | 0 <= i < |stored| :: answers[i] in answers;
    if Answered(answers) == 0 {
      NoneAnswered(answers);
    }
  }

  lemma {:induction false} NoneAnswered(answers: seq<Answer>)
    requires Answered(answers) == 0
    ensures forall i | 0 <= i < |answers| :: answers[i].None?
  {
    if answers != [] {
      NoneAnswered(answers[1..]);
      assert forall i | 0 < i < |answers| :: answers[i] == answers[1..][i - 1];
    }
  }

  /** What the first query turns up. */
  function FoundGrants(stored: seq<Holding>, up: set<nat>, subject: Pub): seq<PublicEvent> {
    Filter(Naming(subject), Values(Merged(Answers(stored, up, GrantQuery(subject)))))
  }

  lemma FoundGrantsAre(stored: seq<Holding>, up: set<nat>, subject: Pub)
    requires IdsAreHashes(stored)
    ensures forall e :: e in FoundGrants(stored, up, subject) <==> On(stored, up, e) && Grants(e, subject)
    ensures SingleGrants(FoundGrants(stored, up, subject))
  {
    hide Merged, Values;
    SeenIsOn(stored, up, GrantQuery(subject));
    MergedIsSeen(Answers(stored, up, GrantQuery(subject)));
  }

  function FoundRevocations(stored: seq<Holding>, up: set<nat>,
                            grants: seq<PublicEvent>): JsMap<int, PublicEvent> {
    var second := Answers(stored, up, RevocationQuery(Authors(grants), Ids(grants)));
    if Answered(second) > 0 then Resolved(Values(Merged(second)), grants) else []
  }

  lemma FoundRevocationsAre(stored: seq<Holding>, up: set<nat>, grants: seq<PublicEvent>, g: PublicEvent)
    requires IdsAreHashes(stored) && SingleGrants(grants) && g in grants
    ensures match Get(FoundRevocations(stored, up, grants), g.id)
            case Some(e) => On(stored, up, e) && Revokes(e, g)
            case None => forall e | On(stored, up, e) :: !Revokes(e, g)
  {
    hide Merged, Values, Resolved, On, Get;
    var matches := RevocationQuery(Authors(grants), Ids(grants));
    var second := Answers(stored, up, matches);
    SeenIsOn(stored, up, matches);
    MergedIsSeen(second);
    AnsweredIs(stored, up, matches);
    ResolvedIs(Values(Merged(second)), grants, g);
    NoneRevoked(g.id);
    assert forall e | Revokes(e, g) :: matches(e) by {
      assert g.author in Authors(grants) && g.id in Ids(grants);
    }
  }

  lemma NoneRevoked(id: int)
    ensures Get<int, PublicEvent>([], id) == None
  {
  }

  /** The row says of the grant what the grant says of itself. */
  ghost predicate Describes(row: Row, g: PublicEvent) {
    && row.id == g.id && row.grantor == g.author && g.caps == [row.cap] && row.title == Label(row.cap)
    && row.granted_at == g.created_at && row.expires_at == g.expiration
    && match row.scope_hash
       case Some(hash) => hash != "" && g.scopes != [] && g.scopes[0] == hash
       case None => g.scopes == [] || g.scopes[0] == ""
  }

  /** The status of the grant's row, given who answered the revocation query, and whether that was everybody. */
  ghost predicate Shows(stored: seq<Holding>, up2: set<nat>, covered: bool, now: int, row: Row,
                        g: PublicEvent) {
    var revoked := exists e :: On(stored, up2, e) && Revokes(e, g);
    var over := g.expiration.Some? && g.expiration.value <= now;
    && Describes(row, g)
    && (row.status == Status.Revoked <==> revoked)
    && (row.status == Unverifiable <==> !revoked && !covered)
    && (row.status == Expired <==> !revoked && covered && over)
    && (row.status == Active <==> !revoked && covered && !over)
    && match row.revocation
       case Some(id) => exists e :: On(stored, up2, e) && Revokes(e, g) && e.id == id
       case None => !revoked
  }

  ghost predicate RowsAreGrants(stored: seq<Holding>, up: set<nat>, up2: set<nat>, subject: Pub,
                                covered: bool, now: int, rows: seq<Row>) {
    forall row | row in rows ::
        exists g :: On(stored, up, g) && Grants(g, subject) && Shows(stored, up2, covered, now, row, g)
  }

  ghost predicate GrantsHaveRows(stored: seq<Holding>, up: set<nat>, up2: set<nat>, subject: Pub,
                                 covered: bool, now: int, rows: seq<Row>) {
    forall g | On(stored, up, g) && Grants(g, subject) ::
        exists row :: row in rows && Shows(stored, up2, covered, now, row, g)
  }

  /** No grant has two rows. */
  ghost predicate OneRowEach(rows: seq<Row>) {
    forall i, j | 0 <= i < j < |rows| :: rows[i].id != rows[j].id
  }

  lemma {:induction false} FilterKeepsIds(keep: PublicEvent -> bool, es: seq<PublicEvent>)
    requires forall i, j | 0 <= i < j < |es| :: es[i].id != es[j].id
    ensures forall i, j | 0 <= i < j < |Filter(keep, es)| :: Filter(keep, es)[i].id != Filter(keep, es)[j].id
  {
    if es != [] {
      FilterKeepsIds(keep, es[1..]);
      assert forall e | e in es[1..] :: e.id != es[0].id;
      assert forall e | e in Filter(keep, es[1..]) :: e in es[1..];
    }
  }

  lemma FoundOnce(stored: seq<Holding>, up: set<nat>, subject: Pub)
    ensures var grants := FoundGrants(stored, up, subject);
            forall i, j | 0 <= i < j < |grants| :: grants[i].id != grants[j].id
  {
    var answers := Answers(stored, up, GrantQuery(subject));
    MergedIs(answers, 0);
    FilterKeepsIds(Naming(subject), Values(Merged(answers)));
  }

  /** Sorting rows of different grants leaves them rows of different grants. */
  lemma SortKeepsApart(rows: seq<Row>)
    requires OneRowEach(rows)
    ensures OneRowEach(Sort(Before, rows))
  {
    hide Before;
    var sorted := Sort(Before, rows);
    NoRepeats(rows);
    forall i, j | 0 <= i < j < |sorted|
      ensures sorted[i].id != sorted[j].id
    {
      assert sorted[i] in sorted && sorted[j] in sorted;
      if sorted[i] == sorted[j] {
        Twice(sorted, i, j);
      }
    }
  }

  /** What a read says: one row for each grant that an answering relay holds, revoked exactly when an answering relay
      holds a revocation of it; and nothing at all when nothing was found and some relay was silent. */
  ghost predicate Says(stored: seq<Holding>, up: set<nat>, up2: set<nat>, subject: Pub, now: int, r: Reading) {
    var covered := AllUp(stored, up) && AllUp(stored, up2);
    && Counts(stored, up, up2, r)
    && match r.rows
       case None => !AllUp(stored, up) && !r.verified && forall g | On(stored, up, g) :: !Grants(g, subject)
       case Some(rows) =>
         && (rows == [] ==> AllUp(stored, up) && r.verified)
         && (rows != [] ==> r.verified == covered)
         && RowsAreGrants(stored, up, up2, subject, covered, now, rows)
         && GrantsHaveRows(stored, up, up2, subject, covered, now, rows)
         && OneRowEach(rows) && NewestFirst(rows)
  }

  /** How many relays there are and how many completed each query; the second is only asked about grants. */
  ghost predicate Counts(stored: seq<Holding>, up: set<nat>, up2: set<nat>, r: Reading) {
    && r.configured == |stored| && r.grantsAnswered == |Completing(stored, up)|
    && match r.revocationsAnswered
       case Some(n) => r.rows.Some? && r.rows.value != [] && n == |Completing(stored, up2)|
       case None => r.rows.None? || r.rows.value == []
  }

  ghost function Completing(stored: seq<Holding>, up: set<nat>): set<nat> {
    set i: nat | i < |stored| && i in up
  }

  /** Newest grant first, and of two of one second the one with the greater id. */
  ghost predicate NewestFirst(rows: seq<Row>) {
    forall i, j | 0 <= i < j < |rows| ::
        || rows[i].granted_at > rows[j].granted_at
        || (rows[i].granted_at == rows[j].granted_at && rows[i].id > rows[j].id)
  }

  lemma OrderedIsNewestFirst(rows: seq<Row>)
    requires Ordered(Before, rows) && OneRowEach(rows)
    ensures NewestFirst(rows)
  {
    assert forall i, j | 0 <= i < j < |rows| :: !Before(rows[j], rows[i]);
  }

  ghost function Answering(answers: seq<Answer>): set<nat> {
    set i: nat | i < |answers| && answers[i].Some?
  }

  lemma OneMoreAnswers(answers: seq<Answer>, a: Answer)
    ensures Answering(answers + [a]) == Answering(answers) + (if a.Some? then {|answers|} else {})
    ensures |answers| !in Answering(answers)
  {
  }

  lemma {:induction false} AnsweredCounts(answers: seq<Answer>)
    ensures Answered(answers) == |Answering(answers)|
    decreases |answers|
  {
    if answers == [] {
      assert Answering(answers) == {};
    } else {
      var n := |answers| - 1;
      AnsweredCounts(answers[..n]);
      OneMoreAnswers(answers[..n], answers[n]);
      AnsweredMore(answers[..n], answers[n]);
      hide Answered, Answering;
      assert answers == answers[..n] + [answers[n]];
    }
  }

  lemma AnswersCount(stored: seq<Holding>, up: set<nat>, matches: PublicEvent -> bool)
    ensures Answered(Answers(stored, up, matches)) == |Completing(stored, up)|
  {
    var answers := Answers(stored, up, matches);
    AnsweredCounts(answers);
    assert Answering(answers) == Completing(stored, up);
  }

  /** The known labels, and that two capabilities never bear one label. */
  lemma LabelsDiffer(a: string, b: string)
    ensures Label("admit") == "Channel admission" && Label("admit+read") == "Channel admission + read"
    ensures Label("task") == "Tasking authority" && Label("task+act") == "Tasking + act"
    ensures Label("task-relay") == "Task relay carrier" && Label("mirror") == "Mirror consent"
    ensures Label(a) == Label(b) ==> a == b
  {
    assert |"Channel admission"| == |"Tasking authority"| == 17 && |"Channel admission + read"| == 24;
    assert |"Tasking + act"| == 13 && |"Task relay carrier"| == 18 && |"Mirror consent"| == 14;
    assert "Channel admission"[1] == 'h' && "Channel admission + read"[1] == 'h' && "Mirror consent"[1] == 'i';
    assert ("Capability: " + a)[12..] == a && ("Capability: " + b)[12..] == b;
    assert ("Capability: " + a)[0] == ("Capability: " + b)[0] == 'C';
    assert ("Capability: " + a)[1] == ("Capability: " + b)[1] == 'a';
  }

  lemma ReadIs(stored: seq<Holding>, up: set<nat>, up2: set<nat>, subject: Pub, now: int)
    requires IdsAreHashes(stored)
    ensures Says(stored, up, up2, subject, now, CoveredRead(stored, up, up2, subject, now))
  {
    hide On, Shows, IdsAreHashes, FoundGrants, FoundRevocations, CoveredRead, RowsOf, Grants, RowsAreGrants,
         GrantsHaveRows, Ordered, OneRowEach, NewestFirst, GrantQuery, RevocationQuery, Answers, Sort, Completing;
    var grants := FoundGrants(stored, up, subject);
    var covered := AllUp(stored, up) && AllUp(stored, up2);
    FoundGrantsAre(stored, up, subject);
    AnsweredIs(stored, up, GrantQuery(subject));
    AnswersCount(stored, up, GrantQuery(subject));
    if grants == [] {
      HeldNothing(stored, up, up2, subject, now);
      NothingToShow(stored, up, up2, subject, covered, now);
    } else {
      AnsweredIs(stored, up2, RevocationQuery(Authors(grants), Ids(grants)));
      AnswersCount(stored, up2, RevocationQuery(Authors(grants), Ids(grants)));
      assert grants[0] in grants;
      HeldRows(stored, up, up2, subject, now);
      RowsShow(stored, up, up2, subject, covered, now);
    }
  }

  lemma NothingToShow(stored: seq<Holding>, up: set<nat>, up2: set<nat>, subject: Pub, covered: bool, now: int)
    requires forall e :: !(On(stored, up, e) && Grants(e, subject))
    ensures RowsAreGrants(stored, up, up2, subject, covered, now, [])
    ensures GrantsHaveRows(stored, up, up2, subject, covered, now, [])
    ensures OneRowEach([]) && NewestFirst([])
  {
  }

  lemma RowsShow(stored: seq<Holding>, up: set<nat>, up2: set<nat>, subject: Pub, covered: bool, now: int)
    requires IdsAreHashes(stored)
    ensures var grants := FoundGrants(stored, up, subject);
            var rows := Sort(Before, RowsOf(grants, FoundRevocations(stored, up2, grants), covered, now));
            && |rows| == |grants|
            && RowsAreGrants(stored, up, up2, subject, covered, now, rows)
            && GrantsHaveRows(stored, up, up2, subject, covered, now, rows)
            && OneRowEach(rows) && NewestFirst(rows)
  {
    hide On, IdsAreHashes, FoundGrants, FoundRevocations, Shows, Sort, OneRowEach, Ordered, NewestFirst, Before,
         RowsAreGrants, GrantsHaveRows;
    var grants := FoundGrants(stored, up, subject);
    FoundGrantsAre(stored, up, subject);
    var revs := FoundRevocations(stored, up2, grants);
    var rows := RowsOf(grants, revs, covered, now);
    assert Ordered(Before, Sort(Before, rows)) by { RowsInOrder(rows); }
    RowsOnce(stored, up, subject, revs, covered, now);
    OrderedIsNewestFirst(Sort(Before, rows));
    forall i | 0 <= i < |grants|
      ensures Shows(stored, up2, covered, now, rows[i], grants[i])
    {
      RowShows(stored, up2, covered, now, grants, i);
    }
    RowsMatch(stored, up, up2, subject, covered, now, rows, Sort(Before, rows), grants);
  }

  lemma RowsInOrder(rows: seq<Row>)
    ensures Ordered(Before, Sort(Before, rows))
  {
    SortOrders(Before, rows);
  }

  lemma RowShows(stored: seq<Holding>, up2: set<nat>, covered: bool, now: int, grants: seq<PublicEvent>,
                 i: nat)
    requires IdsAreHashes(stored) && SingleGrants(grants) && i < |grants|
    requires forall g | g in grants :: |g.caps| == 1
    ensures Shows(stored, up2, covered, now, RowsOf(grants, FoundRevocations(stored, up2, grants), covered, now)[i],
                  grants[i])
  {
    hide On, IdsAreHashes, FoundRevocations, Get, Revokes;
    assert grants[i] in grants;
    FoundRevocationsAre(stored, up2, grants, grants[i]);
  }

  lemma RowsOnce(stored: seq<Holding>, up: set<nat>, subject: Pub, revocations: JsMap<int, PublicEvent>,
                 covered: bool, now: int)
    ensures OneRowEach(Sort(Before, RowsOf(FoundGrants(stored, up, subject), revocations, covered, now)))
  {
    hide Sort;
    FoundOnce(stored, up, subject);
    SortKeepsApart(RowsOf(FoundGrants(stored, up, subject), revocations, covered, now));
  }

  lemma HeldNothing(stored: seq<Holding>, up: set<nat>, up2: set<nat>, subject: Pub, now: int)
    requires FoundGrants(stored, up, subject) == []
    ensures var n := |stored|;
            var answered := Answered(Answers(stored, up, GrantQuery(subject)));
            CoveredRead(stored, up, up2, subject, now)
            == if n > 0 && answered == n then Reading(Some([]), true, n, answered, None)
                else Reading(None, false, n, answered, None)
  {
  }

  lemma HeldRows(stored: seq<Holding>, up: set<nat>, up2: set<nat>, subject: Pub, now: int)
    requires FoundGrants(stored, up, subject) != []
    ensures var grants := FoundGrants(stored, up, subject);
            var n, second := |stored|, Answers(stored, up2, RevocationQuery(Authors(grants), Ids(grants)));
            var covered := n > 0 && Answered(Answers(stored, up, GrantQuery(subject))) == n && Answered(second) == n;
            CoveredRead(stored, up, up2, subject, now)
            == Reading(Some(Sort(Before, RowsOf(grants, FoundRevocations(stored, up2, grants), covered, now))),
                       covered, n, Answered(Answers(stored, up, GrantQuery(subject))), Some(Answered(second)))
  {
  }

  lemma RowsMatch(stored: seq<Holding>, up: set<nat>, up2: set<nat>, subject: Pub, covered: bool, now: int,
                  rows: seq<Row>, sorted: seq<Row>, grants: seq<PublicEvent>)
    requires |rows| == |grants| && forall x :: x in sorted <==> x in rows
    requires forall e :: e in grants <==> On(stored, up, e) && Grants(e, subject)
    requires forall i | 0 <= i < |grants| :: Shows(stored, up2, covered, now, rows[i], grants[i])
    ensures RowsAreGrants(stored, up, up2, subject, covered, now, sorted)
    ensures GrantsHaveRows(stored, up, up2, subject, covered, now, sorted)
  {
  }

  /** The grant behind a row. */
  lemma GrantOf(stored: seq<Holding>, up: set<nat>, up2: set<nat>, subject: Pub, covered: bool, now: int,
                rows: seq<Row>, row: Row)
    returns (g: PublicEvent)
    requires RowsAreGrants(stored, up, up2, subject, covered, now, rows) && row in rows
    ensures On(stored, up, g) && Grants(g, subject) && Shows(stored, up2, covered, now, row, g)
  {
    hide Shows, On, Grants;
    g :| On(stored, up, g) && Grants(g, subject) && Shows(stored, up2, covered, now, row, g);
  }

  /** The row of a grant. */
  lemma RowFor(stored: seq<Holding>, up: set<nat>, up2: set<nat>, subject: Pub, covered: bool, now: int,
               rows: seq<Row>, g: PublicEvent)
    returns (row: Row)
    requires GrantsHaveRows(stored, up, up2, subject, covered, now, rows) && On(stored, up, g) && Grants(g, subject)
    ensures row in rows && Shows(stored, up2, covered, now, row, g)
  {
    hide Shows, On, Grants;
    row :| row in rows && Shows(stored, up2, covered, now, row, g);
  }

  // ---------------------------------------------------------------- partial against full

  /** Two rows of one grant, apart from what they say about revocation. */
  predicate SameGrant(a: Row, b: Row) {
    a.(status := Active, revocation := None) == b.(status := Active, revocation := None)
  }

  /** The same grant, and no other status than the one in `b` unless nothing is claimed. */
  predicate SaysLess(a: Row, b: Row) {
    SameGrant(a, b) && (a.status == Unverifiable || a.status == b.status)
  }

  /** `a` says no more than `b`, and nothing that `b` takes back. */
  ghost predicate Below(a: Reading, b: Reading) {
    a.rows.Some? ==>
      && b.rows.Some?
      && forall row | row in a.rows.value :: exists row' :: row' in b.rows.value && SaysLess(row, row')
  }

  lemma MoreRelays(stored: seq<Holding>, up: set<nat>, more: set<nat>)
    requires up <= more
    ensures AllUp(stored, up) ==> AllUp(stored, more)
    ensures forall e | On(stored, up, e) :: On(stored, more, e)
    ensures AllUp(stored, up) ==> forall e | On(stored, more, e) :: On(stored, up, e)
  {
  }

  lemma RowBelow(stored: seq<Holding>, up2: set<nat>, more2: set<nat>, covered: bool, covered': bool,
                 now: int, g: PublicEvent, row: Row, row': Row)
    requires up2 <= more2 && (covered ==> covered' && AllUp(stored, up2))
    requires Shows(stored, up2, covered, now, row, g) && Shows(stored, more2, covered', now, row', g)
    ensures SaysLess(row, row')
  {
  }

  /** When more relays answer, nothing is retracted: every row stays, and a status changes only away from
      unverifiable. */
  lemma PartialRefinesFull(stored: seq<Holding>, up: set<nat>, up2: set<nat>, more: set<nat>, more2: set<nat>,
                           subject: Pub, now: int)
    requires IdsAreHashes(stored) && up <= more && up2 <= more2
    ensures Below(CoveredRead(stored, up, up2, subject, now), CoveredRead(stored, more, more2, subject, now))
  {
    hide On, Shows, CoveredRead, Grants, IdsAreHashes, SaysLess, Before, RowsAreGrants, GrantsHaveRows;
    var a, b := CoveredRead(stored, up, up2, subject, now), CoveredRead(stored, more, more2, subject, now);
    ReadIs(stored, up, up2, subject, now);
    ReadIs(stored, more, more2, subject, now);
    MoreRelays(stored, up, more);
    MoreRelays(stored, up2, more2);
    if a.rows.Some? {
      forall row | row in a.rows.value
        ensures b.rows.Some? && exists row' :: row' in b.rows.value && SaysLess(row, row')
      {
        RowRefined(stored, up, up2, more, more2, subject, now, a, b, row);
      }
      if a.rows.value != [] {
        assert a.rows.value[0] in a.rows.value;
      }
    }
  }

  lemma RowRefined(stored: seq<Holding>, up: set<nat>, up2: set<nat>, more: set<nat>, more2: set<nat>,
                   subject: Pub, now: int, a: Reading, b: Reading, row: Row)
    requires up <= more && up2 <= more2
    requires Says(stored, up, up2, subject, now, a) && Says(stored, more, more2, subject, now, b)
    requires a.rows.Some? && row in a.rows.value
    ensures b.rows.Some? && exists row' :: row' in b.rows.value && SaysLess(row, row')
  {
    hide On, Shows, Grants, SaysLess, Before, RowsAreGrants, GrantsHaveRows;
    var covered, covered' := AllUp(stored, up) && AllUp(stored, up2), AllUp(stored, more) && AllUp(stored, more2);
    MoreRelays(stored, up, more);
    MoreRelays(stored, up2, more2);
    var g := GrantOf(stored, up, up2, subject, covered, now, a.rows.value, row);
    assert On(stored, more, g) && b.rows.Some?;
    var row' := RowFor(stored, more, more2, subject, covered', now, b.rows.value, g);
    RowBelow(stored, up2, more2, covered, covered', now, g, row, row');
  }

  /** The grant is sound, no relay holds a revocation of it, and it is over exactly when `over` says so. */
  ghost predicate Unrevoked(stored: seq<Holding>, up: set<nat>, subject: Pub, g: PublicEvent, now: int,
                            over: bool) {
    && On(stored, up, g) && Grants(g, subject)
    && (over <==> g.expiration.Some? && g.expiration.value <= now)
    && forall i, e | 0 <= i < |stored| && e in stored[i].events :: !Revokes(e, g)
  }

  /** Absence, activity and expiry are claimed only on complete coverage, and then they are true of every relay. */
  lemma AbsenceNeedsCoverage(stored: seq<Holding>, up: set<nat>, up2: set<nat>, subject: Pub, now: int)
    requires IdsAreHashes(stored)
    ensures var r := CoveredRead(stored, up, up2, subject, now);
            && (r.rows == Some([]) ==>
                  AllUp(stored, up) && forall i, e | 0 <= i < |stored| && e in stored[i].events :: !Grants(e, subject))
            && (r.rows.Some? ==>
                  forall row | row in r.rows.value && (row.status == Active || row.status == Expired) ::
                    AllUp(stored, up) && AllUp(stored, up2) && r.verified
                    && exists g: PublicEvent ::
                       g.id == row.id && Unrevoked(stored, up, subject, g, now, row.status == Expired))
  {
    hide Shows, CoveredRead, Grants, IdsAreHashes, Revokes, RowsAreGrants, Before;
    var r := CoveredRead(stored, up, up2, subject, now);
    ReadIs(stored, up, up2, subject, now);
    if r.rows == Some([]) {
      forall i, e | 0 <= i < |stored| && e in stored[i].events
        ensures !Grants(e, subject)
      {
        assert On(stored, up, e);
      }
    }
    if r.rows.Some? {
      forall row | row in r.rows.value && (row.status == Active || row.status == Expired)
        ensures AllUp(stored, up) && AllUp(stored, up2)
        ensures exists g: PublicEvent :: g.id == row.id && Unrevoked(stored, up, subject, g, now, row.status == Expired)
      {
        var covered := AllUp(stored, up) && AllUp(stored, up2);
        var g := GrantOf(stored, up, up2, subject, covered, now, r.rows.value, row);
        NotRevoked(stored, up2, covered, now, row, g);
      }
    }
  }

  lemma NotRevoked(stored: seq<Holding>, up2: set<nat>, covered: bool, now: int, row: Row, g: PublicEvent)
    requires Shows(stored, up2, covered, now, row, g) && (row.status == Active || row.status == Expired)
    ensures covered && g.id == row.id
    ensures row.status == Expired <==> g.expiration.Some? && g.expiration.value <= now
    ensures AllUp(stored, up2) ==> forall i, e | 0 <= i < |stored| && e in stored[i].events :: !Revokes(e, g)
  {
  }
}
