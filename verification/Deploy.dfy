/** deploy/runtime-deploy-runner.py: the deploy tick, a transaction over every identity of a host. */
module Deploys {
  import opened Options

  type Id = string
  type File = string
  type Digest = nat

  const RETRY_AFTER_S := 600

  // ---------------------------------------------------------------- history

  /** A commit is its content and its parents; its hash determines both. */
  datatype Commit = Commit(content: nat, parents: seq<Commit>)

  /** `git merge-base --is-ancestor`. */
  predicate IsAncestor(older: Commit, newer: Commit)
    decreases newer
  {
    older == newer || exists i :: 0 <= i < |newer.parents| && IsAncestor(older, newer.parents[i])
  }

  lemma {:induction false} AncestorsCompose(a: Commit, b: Commit, c: Commit)
    requires IsAncestor(a, b) && IsAncestor(b, c)
    ensures IsAncestor(a, c)
    decreases c
  {
    if b != c {
      var i :| 0 <= i < |c.parents| && IsAncestor(b, c.parents[i]);
      AncestorsCompose(a, b, c.parents[i]);
    }
  }

  /** No commit has a descendant among its own ancestors. */
  lemma {:induction false} NoWayBack(a: Commit, b: Commit)
    requires IsAncestor(a, b) && IsAncestor(b, a)
    ensures a == b
  {
    if a != b {
      AncestorIsSmaller(a, b);
      AncestorIsSmaller(b, a);
    }
  }

  ghost function Size(c: Commit): nat {
    1 + Sizes(c.parents)
  }

  ghost function Sizes(cs: seq<Commit>): nat {
    if cs == [] then 0 else Size(cs[0]) + Sizes(cs[1..])
  }

  lemma {:induction false} ParentIsSmaller(cs: seq<Commit>, i: nat)
    requires i < |cs|
    ensures Size(cs[i]) <= Sizes(cs)
  {
    if i > 0 {
      ParentIsSmaller(cs[1..], i - 1);
    }
  }

  lemma {:induction false} AncestorIsSmaller(a: Commit, b: Commit)
    requires IsAncestor(a, b) && a != b
    ensures Size(a) < Size(b)
    decreases b
  {
    var i :| 0 <= i < |b.parents| && IsAncestor(a, b.parents[i]);
    ParentIsSmaller(b.parents, i);
    if a != b.parents[i] {
      AncestorIsSmaller(a, b.parents[i]);
    }
  }

  /** The content of a file that should name a commit. */
  datatype Mark = Blank | Garbage(text: string) | Named(commit: Commit)

  /** What the deployed commit may become. */
  predicate Forward(before: Mark, after: Mark) {
    before.Named? ==> after.Named? && IsAncestor(before.commit, after.commit)
  }

  lemma Unmoved(mark: Mark)
    ensures Forward(mark, mark)
  {
  }

  // ---------------------------------------------------------------- the host

  /** What runs for one identity: the Compose file it was brought up from and the manifest its services read then. */
  datatype Running = Down | Unclear | Runs(file: File, manifest: Digest)

  /** What a tick establishes before it touches a stack: an image is here, the runtime image respects its boundary, a
      candidate file is written and sound. */
  datatype Check = Pulled(ref: string) | Bounded(ref: string) | Staged(id: Id, file: File)

  datatype Attempt = Attempt(target: Mark, manifests: map<Id, Digest>)

  /** How a tick ended. */
  datatype Outcome =
    | Busy
    | Current
    | Withheld
    | Rehearsed
    | Deployed
    | Refused
    | CandidateFailed
    | PromotionFailed

  function StateOf(running: map<Id, Running>, id: Id): Running {
    if id in running then running[id] else Down
  }

  /** The identity runs from `file`, whichever manifest it read. */
  predicate RunsFile(running: map<Id, Running>, id: Id, file: File) {
    StateOf(running, id).Runs? && StateOf(running, id).file == file
  }

  ghost predicate Distinct(ids: seq<Id>) {
    forall i, j | 0 <= i < j < |ids| :: ids[i] != ids[j]
  }

  /** What a tick finds in the world: the answer of the release lookup, the manifests, the clock, the head of `main`,
      what the release's images render and resolve to, and whether the running stacks look healthy. Any command and any
      write may fail, but: in a `calm` world none does before the tick is over; the rollback commands of an identity in
      `undone` work; and `checkoutReturns` and `notes` say that the checkout can be put back and the failed attempt
      noted. */
  datatype World = World(
    lookup: Option<Mark>, ids: seq<Id>, wellFormed: bool, manifests: map<Id, Digest>, now: int, main: Commit,
    rendered: map<Id, File>, runtimeRef: string, workerRef: string, healthy: bool, dryRun: bool,
    calm: bool, undone: set<Id>, checkoutReturns: bool, notes: bool)

  /** The listing of the manifest directory: file names are distinct, and each has a digest and can be rendered. */
  ghost predicate Listed(w: World) {
    Distinct(w.ids) && forall id | id in w.ids :: id in w.manifests && id in w.rendered
  }

  /** A host between ticks. */
  datatype Snapshot = Snapshot(live: map<Id, File>, running: map<Id, Running>, checkout: Commit, deployed: Mark,
                               images: (string, string), recorded: Option<map<Id, Digest>>,
                                   failed: Option<(Attempt, int)>, verified: map<Id, File>)

  /** The release a tick is about, once the lookup has answered. */
  function TargetOf(deployed: Mark, lookup: Mark): Mark {
    if deployed.Named? && lookup.Named? && IsAncestor(lookup.commit, deployed.commit) then deployed else lookup
  }

  /** The same attempt failed too recently to be made again. */
  ghost predicate OnHold(s: Snapshot, w: World) {
    && s.failed.Some? && w.lookup.Some?
    && s.failed.value.0 == Attempt(TargetOf(s.deployed, w.lookup.value), w.manifests)
    && w.now - s.failed.value.1 < RETRY_AFTER_S
  }

  ghost predicate SameStacks(a: map<Id, Running>, b: map<Id, Running>) {
    forall id :: StateOf(a, id) == StateOf(b, id)
  }

  /** Every identity was brought up from what the release renders, and passed verification. */
  ghost predicate AllVerified(w: World, s: Snapshot) {
    forall id | id in w.ids ::
      && id in w.rendered && RunsFile(s.running, id, w.rendered[id])
      && id in s.verified && s.verified[id] == w.rendered[id]
      && id in s.live && s.live[id] == w.rendered[id]
  }

  /** The identities that are recreated although their Compose file may be the same. */
  function Recreated(recorded: Option<map<Id, Digest>>, manifests: map<Id, Digest>): set<Id> {
    set id | id in manifests && recorded.Some? && !(id in recorded.value && recorded.value[id] == manifests[id])
  }

  /** What each identity runs after a deployment: a stack that already ran the same file, and whose manifest was not
      seen to change, was left alone. */
  ghost predicate BroughtUp(a: Snapshot, w: World, b: Snapshot) {
    w.lookup.Some? &&
    var recreate := if a.deployed == TargetOf(a.deployed, w.lookup.value) then Recreated(a.recorded, w.manifests)
        else {};
    forall id | id in w.ids ::
        && id in w.rendered && id in w.manifests
        && StateOf(b.running, id) == Raised(StateOf(a.running, id), w, recreate, id)
  }

  /** What an `up` from the candidate file makes of an identity: a stack of the same file is left alone unless
      forced. */
  function Raised(was: Running, w: World, recreate: set<Id>, id: Id): (r: Running)
    requires id in w.rendered && id in w.manifests
    ensures r.Runs? && r.file == w.rendered[id]
  {
    if id !in recreate && was.Runs? && was.file == w.rendered[id] then was else Runs(w.rendered[id], w.manifests[id])
  }

  /** A failed candidate: an identity either was not touched or, if its rollback commands work, is back on its live
      file. */
  ghost predicate RolledBack(a: Snapshot, w: World, b: Snapshot) {
    forall id ::
      || StateOf(b.running, id) == StateOf(a.running, id)
      || (id in w.ids && (id in w.undone ==>
            if id in a.live
            then RunsFile(b.running, id, a.live[id]) && id in b.verified && b.verified[id] == a.live[id]
            else StateOf(b.running, id) == Down))
  }

  /** At the deployed release with nothing to do. */
  ghost predicate Settled(s: Snapshot, w: World) {
    && w.lookup.Some? && s.deployed == TargetOf(s.deployed, w.lookup.value)
    && w.healthy && (s.recorded.None? || Recreated(s.recorded, w.manifests) == {})
  }

  /** The tick has a target: the inputs are valid and the target is on the deployed line. */
  ghost predicate Targeted(s: Snapshot, w: World) {
    && w.lookup.Some? && w.lookup.value.Named? && w.wellFormed && w.ids != []
    && Forward(s.deployed, TargetOf(s.deployed, w.lookup.value))
  }

  /** The tick may go for its target, which is on `main`, too. */
  ghost predicate Admissible(s: Snapshot, w: World) {
    Targeted(s, w) && IsAncestor(TargetOf(s.deployed, w.lookup.value).commit, w.main)
  }

  /** How a tick ends in which nothing fails. */
  ghost function Due(s: Snapshot, w: World): Outcome {
    if !Targeted(s, w) then Refused
    else if Settled(s, w) then Current
    else if OnHold(s, w) then Withheld
    else if !Admissible(s, w) then Refused
    else if w.dryRun then Rehearsed
    else Deployed
  }

  /** How a tick may end: busy, as it should, or, when something fails, refused or with a failed attempt. */
  ghost predicate Ends(s: Snapshot, w: World, r: Outcome) {
    || r == Busy || r == Due(s, w)
    || (!w.calm && (r == Refused || (Due(s, w) == Deployed && r in {CandidateFailed, PromotionFailed})))
  }

  /** A tick up to where it ends; the checkout may still have to go back, and the attempt to be noted. */
  ghost predicate TickCore(a: Snapshot, w: World, r: Outcome, b: Snapshot) {
    && Forward(a.deployed, b.deployed)
    && (b.deployed != a.deployed ==>
       AllVerified(w, b) && b.images == (w.runtimeRef, w.workerRef) && (r == Deployed || r == PromotionFailed))
    && (r == Deployed ==>
          && AllVerified(w, b) && BroughtUp(a, w, b) && Admissible(a, w)
          && b.images == (w.runtimeRef, w.workerRef) && b.deployed == Named(b.checkout)
          && b.recorded == Some(w.manifests) && b.failed == None)
    && (r != Deployed && r != PromotionFailed ==> b.live == a.live && b.deployed == a.deployed && b.images == a.images)
    && (r != Deployed && r != PromotionFailed && r != CandidateFailed ==> SameStacks(a.running, b.running))
    && (r == CandidateFailed ==> RolledBack(a, w, b))
    && (r != Deployed && r != PromotionFailed && r != Current ==> b.recorded == a.recorded)
    && (r == Current ==> b.recorded == if a.recorded.None? then Some(w.manifests) else a.recorded)
    && Ends(a, w, r)
  }

  /** One tick, however it ends. */
  ghost predicate TickStep(a: Snapshot, w: World, r: Outcome, b: Snapshot) {
    && TickCore(a, w, r, b)
    && (r != Deployed && w.checkoutReturns ==> b.checkout == a.checkout)
    && (b.failed == a.failed || Cleared(r, b) || Noted(a, w, r, b))
    && (Noted(a, w, r, b) && b.failed != a.failed ==> !Settled(a, w) && !OnHold(a, w))
    && (r in {CandidateFailed, PromotionFailed} && w.notes ==> Noted(a, w, r, b))
    && (r == Refused && w.calm && w.notes && Targeted(a, w) ==> Noted(a, w, r, b))
    && HoldKept(a, w, r, b)
  }

  /** A tick is withheld only on a hold; and a tick on hold goes no further than that, and does not renew its own
      hold. */
  ghost predicate HoldKept(a: Snapshot, w: World, r: Outcome, b: Snapshot) {
    && (r == Withheld ==> OnHold(a, w))
    && (OnHold(a, w) ==> r in {Busy, Current, Withheld, Refused} && b.failed == a.failed)
    && (OnHold(a, w) && w.calm && Admissible(a, w) && !Settled(a, w) ==> r in {Busy, Withheld})
  }

  /** A failed tick noted its own attempt. */
  ghost predicate Noted(a: Snapshot, w: World, r: Outcome, b: Snapshot) {
    && r in {Refused, CandidateFailed, PromotionFailed} && w.lookup.Some?
    && b.failed == Some((Attempt(TargetOf(a.deployed, w.lookup.value), w.manifests), w.now))
  }

  /** A tick that deployed, or failed after its last record was written, removed the note. */
  ghost predicate Cleared(r: Outcome, b: Snapshot) {
    r in {Deployed, PromotionFailed} && b.failed == None
  }

  lemma NothingDone(a: Snapshot, w: World)
    ensures TickCore(a, w, Busy, a)
  {
    hide IsAncestor;
    Unmoved(a.deployed);
  }

  /** Noting a failure and putting the checkout back do not touch the rest. */
  lemma CoreStays(a: Snapshot, w: World, r: Outcome, b: Snapshot, b': Snapshot)
    requires TickCore(a, w, r, b) && r != Deployed && b' == b.(checkout := b'.checkout, failed := b'.failed)
    ensures TickCore(a, w, r, b')
  {
    hide IsAncestor;
  }

  class Host {
    var live: map<Id, File>
    var running: map<Id, Running>
    var checkout: Commit
    var deployed: Mark
    var runtimeImage: string
    var workerImage: string
    var recorded: Option<map<Id, Digest>>
    var failed: Option<(Attempt, int)>
    var locked: bool
    /** The identities that passed verification since they were last brought up, and the file they passed with. */
    ghost var verified: map<Id, File>
    /** What this tick has established. */
    ghost var checked: set<Check>

    constructor (checkout: Commit)
      ensures live == map[] && running == map[] && this.checkout == checkout && deployed == Blank && !locked
    {
      live, running, this.checkout, deployed := map[], map[], checkout, Blank;
      runtimeImage, workerImage, recorded, failed, locked, verified, checked := "", "", None, None, false, map[], {};
    }

    /** A command or a write: it may fail, unless it is `sure` to work. */
    static method Try(sure: bool) returns (ok: bool)
      ensures sure ==> ok
    {
      ok := *;
      if sure {
        ok := true;
      }
    }

    /** A check: passed, it is established. */
    method Pass(ghost check: Check, sure: bool) returns (ok: bool)
      modifies this`checked
      ensures (sure ==> ok) && checked == old(checked) + if ok then {check} else {}
    {
      ok := Try(sure);
      if ok {
        checked := checked + {check};
      }
    }

    // Each file of the state directory is replaced in one step: a write happens in full or not at all.

    method SetLive(id: Id, file: File, sure: bool) returns (ok: bool)
      modifies this`live
      ensures (sure ==> ok) && live == if ok then old(live)[id := file] else old(live)
    {
      ok := Try(sure);
      if ok { live := live[id := file]; }
    }

    method SetRuntimeImage(ref: string, sure: bool) returns (ok: bool)
      modifies this`runtimeImage
      ensures (sure ==> ok) && runtimeImage == if ok then ref else old(runtimeImage)
    {
      ok := Try(sure);
      if ok { runtimeImage := ref; }
    }

    method SetWorkerImage(ref: string, sure: bool) returns (ok: bool)
      modifies this`workerImage
      ensures (sure ==> ok) && workerImage == if ok then ref else old(workerImage)
    {
      ok := Try(sure);
      if ok { workerImage := ref; }
    }

    method SetDeployed(sha: Mark, sure: bool) returns (ok: bool)
      modifies this`deployed
      ensures (sure ==> ok) && deployed == if ok then sha else old(deployed)
    {
      ok := Try(sure);
      if ok { deployed := sha; }
    }

    method SetRecorded(manifests: map<Id, Digest>, sure: bool) returns (ok: bool)
      modifies this`recorded
      ensures (sure ==> ok) && recorded == if ok then Some(manifests) else old(recorded)
    {
      ok := Try(sure);
      if ok { recorded := Some(manifests); }
    }

    method SetFailed(note: Option<(Attempt, int)>, sure: bool) returns (ok: bool)
      modifies this`failed
      ensures (sure ==> ok) && failed == if ok then note else old(failed)
    {
      ok := Try(sure);
      if ok { failed := note; }
    }

    /** `git fetch`, without which nothing can be said about commits. */
    static method Fetch(sure: bool) returns (ok: bool)
      ensures sure ==> ok
    {
      ok := Try(sure);
    }

    /** `git merge-base --is-ancestor`: an answer, or none. */
    static method Ancestry(older: Commit, newer: Commit, fetched: bool, sure: bool) returns (ok: bool, yes: bool)
      requires fetched
      ensures (sure ==> ok) && (ok ==> (yes <==> IsAncestor(older, newer)))
    {
      yes := *;
      ok := Try(sure);
      if ok {
        yes := IsAncestor(older, newer);
      }
    }

    /** `git rev-parse HEAD`. */
    method Head(sure: bool) returns (ok: bool, head: Commit)
      ensures (sure ==> ok) && (ok ==> head == checkout)
    {
      ok := Try(sure);
      head := Commit(0, []);
      if ok {
        head := checkout;
      }
    }

    /** `git checkout`. */
    method MoveTo(commit: Commit, sure: bool) returns (ok: bool)
      modifies this`checkout
      ensures (sure ==> ok) && checkout == if ok then commit else old(checkout)
    {
      ok := Try(sure);
      if ok { checkout := commit; }
    }

    /** `docker compose up -d`: a stack that already runs this file is left alone unless recreation is forced; a failed
        command may have started anything of this one identity. */
    method Up(id: Id, file: File, force: bool, manifest: Digest, sure: bool) returns (ok: bool)
      modifies this`running, this`verified
      ensures forall x | x != id :: StateOf(running, x) == StateOf(old(running), x)
      ensures forall x | x != id :: x in verified <==> x in old(verified)
      ensures forall x | x != id && x in verified :: verified[x] == old(verified)[x]
      ensures id !in verified && (sure ==> ok)
      ensures ok ==> StateOf(running, id) ==
                     if !force && RunsFile(old(running), id, file) then StateOf(old(running), id)
                         else Runs(file, manifest)
    {
      ok := Try(sure);
      verified := verified - {id};
      if ok {
        if force || !RunsFile(running, id, file) {
          running := running[id := Runs(file, manifest)];
        }
      } else {
        var what: Running := *;
        running := running[id := what];
      }
    }

    /** `docker compose down`. */
    method TakeDown(id: Id, sure: bool) returns (ok: bool)
      modifies this`running
      ensures forall x | x != id :: StateOf(running, x) == StateOf(old(running), x)
      ensures (sure ==> ok) && (ok ==> StateOf(running, id) == Down)
    {
      ok := Try(sure);
      var what: Running := *;
      running := running[id := if ok then Down else what];
    }

    /** `settle` and `verify_running`: they observe, and may refuse. */
    method Verify(id: Id, file: File, sure: bool) returns (ok: bool)
      modifies this`verified
      ensures sure ==> ok
      ensures ok ==> verified == old(verified)[id := file]
      ensures !ok ==> verified == old(verified)
    {
      ok := Try(sure);
      if ok {
        verified := verified[id := file];
      }
    }

    /** The state that a rollback must bring an identity back to: its live Compose file, verified, or nothing. */
    ghost predicate AsBefore(id: Id)
      reads this`running, this`live, this`verified
    {
      if id in live then RunsFile(running, id, live[id]) && id in verified && verified[id] == live[id]
      else StateOf(running, id) == Down
    }

    /** The rollback of one identity: a stack that already runs the live file is left alone. */
    ghost predicate PutBack(was: Running, id: Id, manifests: map<Id, Digest>)
      reads this`running, this`live
      requires id in manifests
    {
      StateOf(running, id) ==
      if id !in live then Down
      else if was.Runs? && was.file == live[id] then was
      else Runs(live[id], manifests[id])
    }

    /** Undo, last touched first; an identity that cannot be brought back is left and the rest go on. */
    method RollBack(changed: seq<Id>, backup: map<Id, File>, manifests: map<Id, Digest>, undone: set<Id>)
      requires Distinct(changed) && forall id | id in changed :: id in manifests
      requires forall id | id in changed :: (id in backup <==> id in live) && (id in live ==> backup[id] == live[id])
      modifies this`running, this`verified
      ensures forall id | id in changed && id in undone ::
                AsBefore(id) && PutBack(StateOf(old(running), id), id, manifests)
      ensures forall id | id !in changed :: StateOf(running, id) == StateOf(old(running), id)
    {
      var i := |changed|;
      while i > 0
        invariant 0 <= i <= |changed|
        invariant forall j | i <= j < |changed| && changed[j] in undone ::
                    AsBefore(changed[j]) && PutBack(StateOf(old(running), changed[j]), changed[j], manifests)
        invariant forall id | id !in changed :: StateOf(running, id) == StateOf(old(running), id)
        invariant forall j | 0 <= j < i :: StateOf(running, changed[j]) == StateOf(old(running), changed[j])
      {
        i := i - 1;
        var id := changed[i];
        if id in backup {
          var ok := Up(id, backup[id], false, manifests[id], id in undone);
          if ok {
            ok := Verify(id, backup[id], id in undone);
          }
        } else {
          var ok := TakeDown(id, id in undone);
        }
      }
    }

    /** Both images are here, and the runtime image passed its boundary test. */
    ghost predicate ImagesSound(w: World)
      reads this`checked
    {
      {Pulled(w.runtimeRef), Pulled(w.workerRef), Bounded(w.runtimeRef)} <= checked
    }

    /** Render every candidate file and check it, before any stack is touched. */
    method Stage(w: World) returns (ok: bool)
      requires Listed(w)
      modifies this`checked
      ensures old(checked) <= checked && (w.calm ==> ok)
      ensures ok ==> forall id | id in w.ids :: Staged(id, w.rendered[id]) in checked
    {
      for i := 0 to |w.ids|
        invariant old(checked) <= checked
        invariant forall j | 0 <= j < i :: Staged(w.ids[j], w.rendered[w.ids[j]]) in checked
      {
        ok := Pass(Staged(w.ids[i], w.rendered[w.ids[i]]), w.calm);
        if !ok { return; }
      }
      return true;
    }

    /** Copy a live file away. */
    method Save(id: Id, sure: bool) returns (ok: bool, copy: File)
      requires id in live
      ensures (sure ==> ok) && (ok ==> copy == live[id])
    {
      copy := *;
      ok := Try(sure);
      if ok {
        copy := live[id];
      }
    }

    /** Bring one identity up from its candidate file and verify it. */
    method Raise(w: World, recreate: set<Id>, id: Id) returns (ok: bool)
      requires id in w.rendered && id in w.manifests
      requires ImagesSound(w) && Staged(id, w.rendered[id]) in checked
      modifies this`running, this`verified
      ensures forall x | x != id :: StateOf(running, x) == StateOf(old(running), x)
      ensures forall x | x != id ::
              (x in verified <==> x in old(verified)) && (x in verified ==> verified[x] == old(verified)[x])
      ensures w.calm ==> ok
      ensures ok ==>
              id in verified && verified[id] == w.rendered[id]
                  && StateOf(running, id) == Raised(StateOf(old(running), id), w, recreate, id)
    {
      ok := Up(id, w.rendered[id], id in recreate, w.manifests[id], w.calm);
      if ok {
        ok := Verify(id, w.rendered[id], w.calm);
      }
    }

    /** Bring every identity up from its candidate file, verifying each before the next; on any failure roll back. */
    method RunCandidate(w: World, recreate: set<Id>) returns (ok: bool)
      requires Listed(w) && ImagesSound(w)
      modifies this`running, this`verified, this`checked
      ensures w.calm ==> ok
      ensures ok ==> forall id | id in w.ids :: Staged(id, w.rendered[id]) in checked
      ensures old(checked) <= checked
      ensures ok ==> forall id | id in w.ids ::
                id in verified && verified[id] == w.rendered[id]
                    && StateOf(running, id) == Raised(StateOf(old(running), id), w, recreate, id)
      ensures !ok ==> forall id ::
              StateOf(running, id) == StateOf(old(running), id) || (id in w.ids && (id in w.undone ==> AsBefore(id)))
    {
      hide RunsFile, Raised;
      ok := Stage(w);
      if !ok { return; }
      ghost var established := checked;
      var changed: seq<Id> := [];
      var backup: map<Id, File> := map[];
      var i := 0;
      while i < |w.ids|
        invariant 0 <= i <= |w.ids| && changed == w.ids[..i] && ok && checked == established
        invariant forall id | id in changed :: (id in backup <==> id in live) && (id in live ==> backup[id] == live[id])
        invariant forall id | id in backup :: id in changed
        invariant forall id | id !in changed :: StateOf(running, id) == StateOf(old(running), id)
        invariant forall id | id in changed ::
                    id in verified && verified[id] == w.rendered[id]
                        && StateOf(running, id) == Raised(StateOf(old(running), id), w, recreate, id)
      {
        var id := w.ids[i];
        assert id !in changed && id in w.ids;
        if id in live {
          var copy: File;
          ok, copy := Save(id, w.calm);
          if !ok { break; }
          backup := backup[id := copy];
        }
        changed := changed + [id];
        ok := Raise(w, recreate, id);
        if !ok { break; }
        i := i + 1;
      }
      if !ok {
        RollBack(changed, backup, w.manifests, w.undone);
      } else {
        assert w.ids[..|w.ids|] == w.ids;
      }
    }

    /** The release this tick is about: never older than the deployed one, and never off its line. */
    method Target(w: World) returns (ok: bool, sha: Mark)
      ensures ok ==>
              w.lookup.Some? && w.lookup.value.Named? && w.wellFormed && w.ids != [] && sha.Named?
                  && Forward(deployed, sha)
      ensures ok ==> sha == TargetOf(deployed, w.lookup.value)
      ensures w.calm && Targeted(Snap(), w) ==> ok
    {
      ok, sha := false, Blank;
      if w.lookup.None? || !w.lookup.value.Named? { return; }
      if !w.wellFormed || w.ids == [] { return; }
      sha := w.lookup.value;
      if deployed.Named? && sha != deployed {
        var fetched := Fetch(w.calm);
        if !fetched { return; }
        var compared, older := Ancestry(sha.commit, deployed.commit, fetched, w.calm);
        if !compared { return; }
        if older {
          sha := deployed;
        } else {
          var compared', newer := Ancestry(deployed.commit, sha.commit, fetched, w.calm);
          if !compared' || !newer { return; }
        }
      }
      ok := true;
    }

    /** At the deployed release: health, the manifest baseline, and the identities whose manifest changed. */
    method Reconcile(w: World) returns (ok: bool, settled: bool, recreate: set<Id>)
      modifies this`recorded
      ensures settled <==> w.healthy && (old(recorded).None? || Recreated(old(recorded), w.manifests) == {})
      ensures recorded == if settled && ok && old(recorded).None? then Some(w.manifests) else old(recorded)
      ensures w.calm ==> ok
      ensures !settled ==> ok && recreate == Recreated(recorded, w.manifests)
    {
      ok, settled, recreate := true, false, {};
      if w.healthy && recorded.None? {
        ok := SetRecorded(w.manifests, w.calm);
        settled := true;
        return;
      }
      recreate := Recreated(recorded, w.manifests);
      if w.healthy && recreate == {} {
        settled := true;
      }
    }

    /** Move the checkout to the release; the caller puts it back unless the release is promoted. */
    method CheckOut(w: World, sha: Mark) returns (ok: bool, restoreTo: Option<Commit>)
      requires sha.Named?
      modifies this`checkout
      ensures checkout == old(checkout) || (restoreTo == Some(old(checkout)) && checkout == sha.commit)
      ensures restoreTo.Some? ==> restoreTo.value == old(checkout)
      ensures w.calm && IsAncestor(sha.commit, w.main) ==> ok
      ensures ok ==> restoreTo.Some? && checkout == sha.commit && IsAncestor(sha.commit, w.main)
    {
      restoreTo := None;
      ok := Fetch(w.calm);
      if !ok { return; }
      var onMain: bool;
      ok, onMain := Ancestry(sha.commit, w.main, ok, w.calm);
      if !ok || !onMain { return false, None; }
      var head: Commit;
      ok, head := Head(w.calm);
      if !ok { return; }
      restoreTo := Some(head);
      ok := MoveTo(sha.commit, w.calm);
    }

    /** Promotion: the live files one by one, then the records, the deployed commit after the files it stands for. */
    method Promote(w: World, sha: Mark) returns (ok: bool)
      requires Listed(w)
      modifies this`live, this`runtimeImage, this`workerImage, this`deployed, this`recorded, this`failed
      ensures forall id | id !in w.ids ::
              (id in live <==> id in old(live)) && (id in live ==> live[id] == old(live)[id])
      ensures forall id | id in w.ids && id in live ::
              live[id] == w.rendered[id] || (id in old(live) && live[id] == old(live)[id])
      ensures deployed == old(deployed) || Promoted(w, sha)
      ensures recorded == old(recorded) || (Promoted(w, sha) && recorded == Some(w.manifests))
      ensures failed == old(failed) || failed == None
      ensures w.calm ==> ok
      ensures ok ==> Promoted(w, sha) && recorded == Some(w.manifests) && failed == None
    {
      ok := WriteLive(w);
      if !ok { return; }
      ok := SetRuntimeImage(w.runtimeRef, w.calm);
      if !ok { return; }
      ok := SetWorkerImage(w.workerRef, w.calm);
      if !ok { return; }
      ok := SetDeployed(sha, w.calm);
      if !ok { return; }
      ok := SetRecorded(w.manifests, w.calm);
      if !ok { return; }
      ok := SetFailed(None, w.calm);
    }

    /** The live Compose files, one after the other. */
    method WriteLive(w: World) returns (ok: bool)
      requires Listed(w)
      modifies this`live
      ensures forall id | id !in w.ids ::
              (id in live <==> id in old(live)) && (id in live ==> live[id] == old(live)[id])
      ensures forall id | id in w.ids && id in live ::
              live[id] == w.rendered[id] || (id in old(live) && live[id] == old(live)[id])
      ensures w.calm ==> ok
      ensures ok ==> forall id | id in w.ids :: id in live && live[id] == w.rendered[id]
    {
      for i := 0 to |w.ids|
        invariant forall j | 0 <= j < i :: w.ids[j] in live && live[w.ids[j]] == w.rendered[w.ids[j]]
        invariant forall id | id !in w.ids[..i] ::
                  (id in live <==> id in old(live)) && (id in live ==> live[id] == old(live)[id])
      {
        ok := SetLive(w.ids[i], w.rendered[w.ids[i]], w.calm);
        if !ok { return; }
      }
      return true;
    }

    /** The release is what the records and the live files say. */
    ghost predicate Promoted(w: World, sha: Mark)
      reads this`live, this`runtimeImage, this`workerImage, this`deployed
    {
      && deployed == sha && runtimeImage == w.runtimeRef && workerImage == w.workerRef
      && forall id | id in w.ids :: id in live && id in w.rendered && live[id] == w.rendered[id]
    }

    ghost function Snap(): Snapshot
      reads this
    {
      Snapshot(live, running, checkout, deployed, (runtimeImage, workerImage), recorded, failed, verified)
    }

    /** The tick up to its first failure; `restoreTo` is where the checkout must go back to. */
    method Steps(w: World) returns (r: Outcome, sha: Mark, attempt: Option<Attempt>, restoreTo: Option<Commit>)
      requires Listed(w) && locked
      modifies this`live, this`running, this`verified, this`checkout, this`deployed, this`runtimeImage,
          this`workerImage, this`recorded, this`failed, this`checked
      ensures TickCore(old(Snap()), w, r, Snap()) && HoldKept(old(Snap()), w, r, Snap())
      ensures OnHold(old(Snap()), w) && r == Refused ==> attempt.None?
      ensures attempt.Some? ==> !Settled(old(Snap()), w)
      ensures r in {CandidateFailed, PromotionFailed} || (r == Refused && w.calm && Targeted(old(Snap()), w)) ==>
              attempt.Some?
      ensures r != Busy && (failed == old(failed) || (r in {Deployed, PromotionFailed} && failed == None))
              && (r == CandidateFailed ==> attempt.Some?)
      ensures attempt.Some? ==>
              w.lookup.Some? && attempt.value == Attempt(TargetOf(old(deployed), w.lookup.value), w.manifests)
      ensures restoreTo.Some? ==>
              restoreTo.value == old(checkout) && sha.Named? && (checkout == old(checkout) || checkout == sha.commit)
                  && r != Deployed
      ensures restoreTo.None? ==> checkout == old(checkout) || r == Deployed
    {
      hide IsAncestor, RolledBack, AllVerified, BroughtUp;
      Unmoved(deployed);
      attempt, restoreTo := None, None;
      var ok: bool;
      ok, sha := Target(w);
      if !ok { return Refused, sha, attempt, restoreTo; }
      var recreate: set<Id> := {};
      if deployed == sha {
        var settled: bool;
        ok, settled, recreate := Reconcile(w);
        if !ok { return Refused, sha, attempt, restoreTo; }
        if settled { return Current, sha, attempt, restoreTo; }
      }
      attempt := Some(Attempt(sha, w.manifests));
      if failed.Some? && failed.value.0 == attempt.value && w.now - failed.value.1 < RETRY_AFTER_S {
        return Withheld, sha, attempt, restoreTo;
      }
      r, restoreTo := Execute(w, sha, recreate);
      return r, sha, attempt, restoreTo;
    }

    lemma CandidateIsRolledBack(before: Snapshot, w: World)
      requires live == before.live
      requires forall id ::
                 StateOf(running, id) == StateOf(before.running, id)
                     || (id in w.ids && (id in w.undone ==> AsBefore(id)))
      ensures RolledBack(before, w, Snap())
    {
    }

    lemma CandidateIsPromoted(before: Snapshot, w: World, sha: Mark)
      requires Listed(w) && forall id | id in w.ids ::
                 id in verified && verified[id] == w.rendered[id] && RunsFile(running, id, w.rendered[id])
      requires deployed == before.deployed || Promoted(w, sha)
      ensures deployed != before.deployed ==> AllVerified(w, Snap())
      ensures Promoted(w, sha) ==>
              AllVerified(w, Snap()) && deployed == sha && runtimeImage == w.runtimeRef && workerImage == w.workerRef
    {
    }

    /** Everything before the first stack is touched: the checkout, the images, and the end of a dry run. */
    method Prepare(w: World, sha: Mark) returns (stopped: Option<Outcome>, restoreTo: Option<Commit>)
      requires sha.Named?
      modifies this`checkout, this`checked
      ensures checkout == old(checkout) || (restoreTo == Some(old(checkout)) && checkout == sha.commit)
      ensures restoreTo.Some? ==> restoreTo.value == old(checkout)
      ensures match stopped
              case None =>
                && ImagesSound(w) && checked == {Pulled(w.runtimeRef), Pulled(w.workerRef), Bounded(w.runtimeRef)}
                && restoreTo.Some? && checkout == sha.commit && IsAncestor(sha.commit, w.main)
                    && !w.dryRun
              case Some(r) =>
                if r == Refused then w.calm ==> !IsAncestor(sha.commit, w.main)
                else r == Rehearsed && w.dryRun && IsAncestor(sha.commit, w.main)
    {
      checked := {};
      stopped := Some(Refused);
      var ok: bool;
      ok, restoreTo := CheckOut(w, sha);
      if !ok { return; }
      ok := Pass(Pulled(w.runtimeRef), w.calm);
      if !ok { return; }
      ok := Pass(Pulled(w.workerRef), w.calm);
      if !ok { return; }
      if w.dryRun { return Some(Rehearsed), restoreTo; }
      ok := Pass(Bounded(w.runtimeRef), w.calm);
      if !ok { return; }
      stopped := None;
    }

    /** The attempt itself. */
    method Execute(w: World, sha: Mark, recreate: set<Id>) returns (r: Outcome, restoreTo: Option<Commit>)
      requires Listed(w) && sha.Named? && Forward(deployed, sha) && !OnHold(Snap(), w) && !Settled(Snap(), w)
      requires w.lookup.Some? && w.lookup.value.Named? && w.wellFormed && w.ids != []
               && sha == TargetOf(deployed, w.lookup.value)
      requires recreate == if deployed == sha then Recreated(recorded, w.manifests) else {}
      modifies this`live, this`running, this`verified, this`checkout, this`deployed, this`runtimeImage,
          this`workerImage, this`recorded, this`failed, this`checked
      ensures TickCore(old(Snap()), w, r, Snap())
      ensures r !in {Busy, Current, Withheld} && (failed == old(failed)
              || (r in {Deployed, PromotionFailed} && failed == None))
      ensures restoreTo.Some? ==>
              restoreTo.value == old(checkout) && (checkout == old(checkout) || checkout == sha.commit) && r != Deployed
      ensures restoreTo.None? ==> checkout == old(checkout) || r == Deployed
    {
      hide IsAncestor, TargetOf, Recreated, OnHold, Settled, Forward, ImagesSound, RolledBack, AsBefore, Promoted,
           AllVerified;
      Unmoved(deployed);
      ghost var before := Snap();
      var ok: bool;
      var stopped: Option<Outcome>;
      stopped, restoreTo := Prepare(w, sha);
      if stopped.Some? { return stopped.value, restoreTo; }
      ok := RunCandidate(w, recreate);
      if !ok {
        CandidateIsRolledBack(before, w);
        return CandidateFailed, restoreTo;
      }
      ok := Promote(w, sha);
      CandidateIsPromoted(before, w, sha);
      if !ok { return PromotionFailed, restoreTo; }
      restoreTo := None;
      return Deployed, restoreTo;
    }

    /** However the steps ended: note a failed attempt, and put the checkout back. */
    method Finish(w: World, r: Outcome, sha: Mark, attempt: Option<Attempt>, restoreTo: Option<Commit>)
      requires locked
      modifies this`failed, this`checkout
      ensures Snap() == old(Snap()).(checkout := checkout, failed := failed)
      ensures failed == old(failed) || (attempt.Some? && r in {Refused, CandidateFailed, PromotionFailed}
              && failed == Some((attempt.value, w.now)))
      ensures w.notes && attempt.Some? && r in {Refused, CandidateFailed, PromotionFailed} ==>
              failed == Some((attempt.value, w.now))
      ensures if restoreTo.Some? && Named(restoreTo.value) != sha
              then checkout == restoreTo.value || (!w.checkoutReturns && checkout == old(checkout))
              else checkout == old(checkout)
    {
      if (r == Refused || r == CandidateFailed || r == PromotionFailed) && attempt.Some? {
        var written := SetFailed(Some((attempt.value, w.now)), w.notes);
      }
      if restoreTo.Some? && Named(restoreTo.value) != sha {
        var ok := MoveTo(restoreTo.value, w.checkoutReturns);
      }
    }

    /** One tick. */
    method Tick(w: World) returns (r: Outcome)
      requires Listed(w)
      modifies this
      ensures TickStep(old(Snap()), w, r, Snap())
      ensures r == Busy <==> old(locked)
      ensures r == Busy ==> Snap() == old(Snap()) && locked
      ensures r != Busy ==> !locked
    {
      hide TickCore, TargetOf, OnHold, Admissible, Settled;
      if locked {
        NothingDone(Snap(), w);
        return Busy;
      }
      locked := true;
      ghost var a := Snap();
      var sha, attempt, restoreTo;
      r, sha, attempt, restoreTo := Steps(w);
      ghost var b := Snap();
      Finish(w, r, sha, attempt, restoreTo);
      locked := false;
      if r != Deployed {
        CoreStays(a, w, r, b, Snap());
      }
    }
  }

  // ---------------------------------------------------------------- any number of ticks

  /** What happened in one tick. */
  datatype Entry = Entry(world: World, outcome: Outcome)

  ghost predicate Ticks(snaps: seq<Snapshot>, log: seq<Entry>) {
    && |snaps| == |log| + 1
    && forall i | 0 <= i < |log| :: TickStep(snaps[i], log[i].world, log[i].outcome, snaps[i + 1])
  }

  /** Over any sequence of ticks the deployed commit only ever moves to a descendant. */
  lemma {:induction false} ReleasesOnlyMoveForward(snaps: seq<Snapshot>, log: seq<Entry>, i: nat, j: nat)
    requires Ticks(snaps, log) && i <= j <= |log|
    ensures Forward(snaps[i].deployed, snaps[j].deployed)
    decreases j
  {
    hide IsAncestor, AllVerified, RolledBack, SameStacks, OnHold, Settled, Admissible, BroughtUp;
    Unmoved(snaps[i].deployed);
    if i < j {
      ReleasesOnlyMoveForward(snaps, log, i, j - 1);
      if snaps[i].deployed.Named? {
        AncestorsCompose(snaps[i].deployed.commit, snaps[j - 1].deployed.commit, snaps[j].deployed.commit);
      }
    }
  }

  /** A release that was replaced never comes back. */
  lemma NoDowngrade(snaps: seq<Snapshot>, log: seq<Entry>, i: nat, j: nat, k: nat)
    requires Ticks(snaps, log) && i <= j <= k <= |log| && snaps[i].deployed.Named?
             && snaps[j].deployed != snaps[i].deployed
    ensures snaps[k].deployed != snaps[i].deployed
  {
    hide TickStep;
    ReleasesOnlyMoveForward(snaps, log, i, j);
    ReleasesOnlyMoveForward(snaps, log, j, k);
    if snaps[k].deployed == snaps[i].deployed {
      NoWayBack(snaps[i].deployed.commit, snaps[j].deployed.commit);
      assert false;
    }
  }

  /** Whatever commit is recorded as deployed was recorded by a tick that had verified every identity with it. */
  lemma {:induction false} DeployedWasVerified(snaps: seq<Snapshot>, log: seq<Entry>, j: nat) returns (i: nat)
    requires Ticks(snaps, log) && j <= |log| && snaps[j].deployed != snaps[0].deployed
    ensures i < j && AllVerified(log[i].world, snaps[i + 1]) && snaps[i + 1].deployed == snaps[j].deployed
    decreases j
  {
    hide IsAncestor, AllVerified, RolledBack, SameStacks, OnHold, Settled, Admissible, BroughtUp;
    i := j - 1;
    if snaps[i].deployed == snaps[j].deployed {
      i := DeployedWasVerified(snaps, log, i);
    }
  }

  /** All or nothing: when a candidate fails at any point and the rollback and the checkout commands succeed, every
      identity is untouched or runs its live Compose file again (or is down if it had none), and nothing else
      changed. */
  lemma FailureLeavesNoTrace(a: Snapshot, w: World, b: Snapshot)
    requires TickStep(a, w, CandidateFailed, b) && w.checkoutReturns && forall id | id in w.ids :: id in w.undone
    ensures forall id ::
              || StateOf(b.running, id) == StateOf(a.running, id)
              || (if id in a.live then RunsFile(b.running, id, a.live[id]) else StateOf(b.running, id) == Down)
    ensures b.(running := a.running, verified := a.verified, failed := a.failed) == a
  {
  }

  /** Tick `i` is the last one before `j` that touched the note, and it noted this attempt. */
  ghost predicate LastNoted(snaps: seq<Snapshot>, log: seq<Entry>, i: nat, j: nat, attempt: Attempt, at: int)
    requires |snaps| == |log| + 1 && i < j <= |log|
  {
    && Noted(snaps[i], log[i].world, log[i].outcome, snaps[i + 1]) && snaps[i + 1].failed == Some((attempt, at))
    && forall k | i < k < j :: Untouched(snaps[k], log[k], snaps[k + 1])
  }

  /** The tick neither noted an attempt nor removed the note. */
  ghost predicate Untouched(a: Snapshot, entry: Entry, b: Snapshot) {
    b.failed == a.failed
  }

  /** The note of this attempt, made at `at`, still stands at tick `j`. */
  ghost predicate Stands(snaps: seq<Snapshot>, log: seq<Entry>, j: nat, attempt: Attempt, at: int)
    requires |snaps| == |log| + 1 && j <= |log|
  {
    exists i: nat :: i < j && LastNoted(snaps, log, i, j, attempt, at)
  }

  /** The note that stands was written by the last tick that touched it, and it names that tick's own attempt. */
  lemma {:induction false} NoteIsExact(snaps: seq<Snapshot>, log: seq<Entry>, j: nat, attempt: Attempt, at: int)
    requires Ticks(snaps, log) && j <= |log| && snaps[0].failed == None
    ensures snaps[j].failed == Some((attempt, at)) <==> Stands(snaps, log, j, attempt, at)
    decreases j
  {
    hide TickCore, TargetOf;
    if j > 0 {
      var k := j - 1;
      NoteIsExact(snaps, log, k, attempt, at);
      NoteStep(snaps, log, k, attempt, at);
    }
  }

  lemma NoteStep(snaps: seq<Snapshot>, log: seq<Entry>, k: nat, attempt: Attempt, at: int)
    requires Ticks(snaps, log) && k < |log|
    requires snaps[k].failed == Some((attempt, at)) <==> Stands(snaps, log, k, attempt, at)
    ensures snaps[k + 1].failed == Some((attempt, at)) <==> Stands(snaps, log, k + 1, attempt, at)
  {
    hide TickCore, TargetOf;
    assert TickStep(snaps[k], log[k].world, log[k].outcome, snaps[k + 1]);
    if snaps[k + 1].failed == Some((attempt, at)) {
      if snaps[k + 1].failed == snaps[k].failed {
        var i: nat :| i < k && LastNoted(snaps, log, i, k, attempt, at);
        assert LastNoted(snaps, log, i, k + 1, attempt, at);
      } else {
        assert LastNoted(snaps, log, k, k + 1, attempt, at);
      }
    }
    if Stands(snaps, log, k + 1, attempt, at) {
      var j := k + 1;
      var i: nat :| i < j && LastNoted(snaps, log, i, j, attempt, at);
      if i < k {
        assert Untouched(snaps[k], log[k], snaps[k + 1]);
        assert LastNoted(snaps, log, i, k, attempt, at);
      }
    }
  }

  /** This attempt was noted less than 600 seconds before `now`, and the note still stood at tick `j`. */
  ghost predicate NotedLately(snaps: seq<Snapshot>, log: seq<Entry>, j: nat, attempt: Attempt, now: int)
    requires |snaps| == |log| + 1 && j <= |log|
  {
    exists at: int :: Stands(snaps, log, j, attempt, at) && now - at < RETRY_AFTER_S
  }

  /** The hold over any number of ticks: a tick is held back if and only if its own attempt was noted less than 600
      seconds ago and no tick in between noted another attempt or removed the note; and then it touches neither stacks
      nor live files nor the note, and when nothing fails it ends withheld unless there was nothing to do. */
  lemma FailureIsHeld(snaps: seq<Snapshot>, log: seq<Entry>, j: nat)
    requires Ticks(snaps, log) && j < |log| && snaps[0].failed == None && log[j].world.lookup.Some?
    ensures var w := log[j].world;
            var attempt := Attempt(TargetOf(snaps[j].deployed, w.lookup.value), w.manifests);
            OnHold(snaps[j], w) <==> NotedLately(snaps, log, j, attempt, w.now)
    ensures log[j].outcome == Withheld ==> OnHold(snaps[j], log[j].world)
    ensures OnHold(snaps[j], log[j].world) ==>
              && SameStacks(snaps[j].running, snaps[j + 1].running)
              && snaps[j + 1].live == snaps[j].live && snaps[j + 1].deployed == snaps[j].deployed
                 && snaps[j + 1].images == snaps[j].images
              && snaps[j + 1].failed == snaps[j].failed && log[j].outcome in {Busy, Current, Withheld, Refused}
              && (log[j].world.calm && Admissible(snaps[j], log[j].world) && !Settled(snaps[j], log[j].world) ==>
                    log[j].outcome in {Busy, Withheld})
  {
    var w := log[j].world;
    var attempt := Attempt(TargetOf(snaps[j].deployed, w.lookup.value), w.manifests);
    assert TickStep(snaps[j], w, log[j].outcome, snaps[j + 1]);
    hide TargetOf, Stands, AllVerified, RolledBack, BroughtUp, Forward, Settled, Admissible;
    if OnHold(snaps[j], w) {
      NoteIsExact(snaps, log, j, attempt, snaps[j].failed.value.1);
    }
    if NotedLately(snaps, log, j, attempt, w.now) {
      var at: int :| Stands(snaps, log, j, attempt, at) && w.now - at < RETRY_AFTER_S;
      NoteIsExact(snaps, log, j, attempt, at);
    }
  }

  /** Any other failed attempt ends the hold: with the note overwritten, the first attempt is made again at once. */
  lemma OtherFailureEndsTheHold(a: Snapshot, w: World, b: Snapshot, w': World, c: Snapshot, w'': World, r: Outcome,
                                d: Snapshot)
    requires TickStep(a, w, CandidateFailed, b) && w.notes
    requires TickStep(b, w', CandidateFailed, c) && w'.notes && w'.manifests != w.manifests
    requires TickStep(c, w'', r, d) && w''.lookup == w.lookup && w''.manifests == w.manifests
             && w''.now < w.now + RETRY_AFTER_S
    requires w''.calm && !w''.dryRun && Admissible(c, w'') && !Settled(c, w'')
    ensures OnHold(b, w'') && !OnHold(c, w'') && r in {Busy, Deployed}
  {
  }

  /** When the manifest of an identity changes together with the release, and the release renders the same Compose file
      for it, the stack keeps the manifest it had; and once recorded, no later tick at this release sees the edit. */
  lemma EditHiddenByRelease(a: Snapshot, w: World, b: Snapshot, id: Id, m: Digest)
    requires TickStep(a, w, Deployed, b) && a.deployed != TargetOf(a.deployed, w.lookup.value)
    requires id in w.ids && id in w.rendered && StateOf(a.running, id) == Runs(w.rendered[id], m)
    ensures StateOf(b.running, id) == Runs(w.rendered[id], m)
    ensures Recreated(b.recorded, w.manifests) == {}
  {
  }

  /** After a deployment every service has read today's manifest exactly when no stack that was left alone had read
      another. */
  lemma ManifestsAreRead(a: Snapshot, w: World, b: Snapshot)
    requires TickStep(a, w, Deployed, b) && Listed(w)
    ensures var recreate := if a.deployed == TargetOf(a.deployed, w.lookup.value)
            then Recreated(a.recorded, w.manifests) else {};
            (forall id | id in w.ids :: StateOf(b.running, id) == Runs(w.rendered[id], w.manifests[id]))
            <==> forall id | id in w.ids && id !in recreate && RunsFile(a.running, id, w.rendered[id]) ::
                   StateOf(a.running, id).manifest == w.manifests[id]
  {
  }
}
