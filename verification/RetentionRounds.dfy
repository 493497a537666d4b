/**
 * Repeated cleanups among the other processes: while no other remover is stepped during one, and nothing is created,
 * they empty the store; and after 72 quiet hours nothing else is left to ask of the state.
 */
module RetentionRounds {
  import opened Policy
  import opened Uploads
  import opened Multipart
  import opened Lifecycle
  import opened LifecycleSafety
  import opened LifecycleRuns
  import opened LifecycleFrames
  import opened RetentionEnd
  import Capacity
  import RetainedLedger

  // ------------------------------------------------------------------ only creation adds live records

  /** The steps create no upload. */
  predicate NoCreation(steps: seq<Step>) {
    forall i :: 0 <= i < |steps| ==> !(steps[i].OnUpload? && steps[i].upload.Create?)
  }

  lemma OrderKept(s: System, step: Step)
    requires Safe(s) && NoCreation([step])
    ensures Next(s, step).repo.order == s.repo.order
  {
    SafeIsWellFormed(s);
    hide Safe, WellFormed, UploadNext, CompletionNext, AdministratorNext, VerificationNext, RemovalNext;
    assert step == [step][0];
    match step {
      case OnUpload(upload) => RetainedLedger.UploadFrame(s, upload);
      case OnRemoval(removal) => RemovalOrderKept(s, removal);
      case _ => RetainedLedger.OtherFrame(s, step);
    }
  }

  lemma RemovalOrderKept(s: System, step: RemovalStep)
    requires WellFormed(s.repo)
    ensures RemovalNext(s, step).repo.order == s.repo.order
  {
    hide WellFormed, Outcome, ScheduleDeletionRetry, DeletionRetryDelay;
    if !step.RetryRemoval? {
      RetainedLedger.RemovalFrame(s, step);
    } else if step.p < |s.removals| {
      var seen := s.removals[step.p].seen;
      RetryOrderKept(s.repo, seen.id, s.now + DeletionRetryDelay(seen.deletionAttempts + 1), s.now);
    }
  }

  lemma RetryOrderKept(r: Repo, id: Id, at: int, now: int)
    ensures Outcome(r, ScheduleDeletionRetry(r, id, at, Event(DeletionRetryScheduled, now), now)).0.order == r.order
  {
  }

  lemma StepShrinks(s: System, step: Step)
    requires Safe(s) && NoCreation([step])
    ensures WellFormed(s.repo) && Alive(Next(s, step).repo) <= Alive(s.repo)
  {
    hide Next, NoCreation, Safe, Evolves, Alive;
    SafeIsWellFormed(s);
    OrderKept(s, step);
    StepEvolvesSafely(s, step);
    EvolvingShrinks(s.repo, Next(s, step).repo);
  }

  lemma StepEvolvesSafely(s: System, step: Step)
    requires Safe(s)
    ensures Evolves(s.repo, Next(s, step).repo)
  {
    hide Evolves, Next;
    StepEvolves(s, step);
  }

  lemma EvolvingShrinks(r: Repo, r': Repo)
    requires Evolves(r, r') && r'.order == r.order
    ensures Alive(r') <= Alive(r)
  {
    hide Phase, Terminal, Occurrences;
    forall id | id in Alive(r') ensures id in Alive(r) {
      assert id in r'.order && id in r.order;
      assert LegalMove(r.records[id], r'.records[id]);
      TerminalStays(r.records[id].status, r'.records[id].status);
    }
  }

  lemma TerminalStays(before: Status, after: Status)
    requires Phase(before) <= Phase(after)
    ensures Terminal(before) ==> Terminal(after)
  {
  }

  lemma {:induction false} RunShrinks(s: System, steps: seq<Step>)
    requires Safe(s) && NoCreation(steps)
    ensures Alive(RunFrom(s, steps).repo) <= Alive(s.repo)
    decreases |steps|
  {
    hide Safe, Next;
    if steps != [] {
      assert NoCreation([steps[0]]) && NoCreation(steps[1..]);
      StepKeepsSafe(s, steps[0]);
      StepShrinks(s, steps[0]);
      RunShrinks(Next(s, steps[0]), steps[1..]);
    }
  }

  // ------------------------------------------------------------------ a cleanup among other processes

  /** A step of a process other than the removers that creates no upload. */
  predicate IsOther(step: Step) {
    !step.OnRemoval? && !(step.OnUpload? && step.upload.Create?)
  }

  /** The given steps in their order, with any steps of others between them. */
  predicate Interleaves(work: seq<Step>, own: seq<Step>)
    decreases |work|
  {
    if work == [] then own == []
    else
      || (IsOther(work[0]) && Interleaves(work[1..], own))
      || (own != [] && work[0] == own[0] && Interleaves(work[1..], own[1..]))
  }

  lemma OthersKeepRemovals(s: System, step: Step)
    requires WellFormed(s.repo) && IsOther(step)
    ensures s.removals <= Next(s, step).removals
  {
    hide WellFormed, UploadNext, CompletionNext, AdministratorNext, VerificationNext;
    match step {
      case Tick(_) =>
      case OnProvider(_) =>
      case OnUpload(upload) => UploadKeepsProcesses(s, upload);
      case OnCompletion(completion) => CompletionKeepsRemovals(s, completion);
      case ByAdministrator(request) => AdministratorKeepsProcesses(s, request);
      case OnVerification(verification) => VerificationAddsRemovals(s, verification);
    }
  }

  lemma CompletionKeepsRemovals(s: System, step: CompletionStep)
    ensures CompletionNext(s, step).removals == s.removals
  {
    hide Attempt, ValidateParts;
  }

  lemma VerificationAddsRemovals(s: System, step: VerificationStep)
    requires WellFormed(s.repo)
    ensures s.removals <= VerificationNext(s, step).removals
  {
    hide WellFormed, Attempt, VerificationBatch, ClaimAll;
  }

  lemma SparesDeleting(r: Repo, r': Repo, statuses: set<Status>, id: Id)
    requires ChangesOnly(r, r', statuses) && Deleting !in statuses && id in r.records && r.records[id].status == Deleting
    ensures id in r'.records && r'.records[id] == r.records[id]
  {
  }

  /** No other process touches a record that is being deleted. */
  lemma OthersSpareDeleting(s: System, step: Step, id: Id)
    requires WellFormed(s.repo) && IsOther(step) && id in s.repo.records && s.repo.records[id].status == Deleting
    ensures var r' := Next(s, step).repo; id in r'.records && r'.records[id] == s.repo.records[id]
  {
    hide WellFormed, Touches, ChangesOnly, UploadNext, CompletionNext, AdministratorNext, VerificationNext;
    var r' := Next(s, step).repo;
    match step {
      case Tick(_) =>
      case OnProvider(_) =>
      case OnUpload(upload) =>
        UploadTouches(s, upload);
        TouchesIsChange(s.repo, r', BEFORE_CLAIM, BEFORE_CLAIM);
        SparesDeleting(s.repo, r', BEFORE_CLAIM, id);
      case OnCompletion(completion) =>
        CompletionTouches(s, completion);
        TouchesIsChange(s.repo, r', {Uploading, Completing}, {Uploading, Completing});
        SparesDeleting(s.repo, r', {Uploading, Completing}, id);
      case ByAdministrator(request) =>
        AdministratorTouches(s, request);
        TouchesIsChange(s.repo, r', BEFORE_CLAIM + {Verifying}, BEFORE_CLAIM + {Verifying});
        SparesDeleting(s.repo, r', BEFORE_CLAIM + {Verifying}, id);
      case OnVerification(verification) =>
        VerificationChanges(s, verification);
        SparesDeleting(s.repo, r', UNDER_VERIFICATION, id);
    }
  }

  /** Removal q has come to this stage and its record is being deleted. */
  ghost predicate Waiting(s: System, q: nat, stage: RemovalStage) {
    && RemovalAt(s, q, stage) && s.removals[q].reason == Retention
    && s.removals[q].seen.id in s.repo.records && s.repo.records[s.removals[q].seen.id].status == Deleting
  }

  function StageAfter(done: nat): RemovalStage {
    if done == 0 then Claimed else if done == 1 then Announced else if done == 2 then Cut else Gone
  }

  /** Of count removals from p on, the first has taken done of its four steps and the others none. */
  ghost predicate UnderWay(s: System, p: nat, done: nat, count: nat) {
    && p + count <= |s.removals|
    && (count > 0 ==> Waiting(s, p, StageAfter(done)))
    && (forall q :: p < q < p + count ==> Waiting(s, q, Claimed))
    && (forall q, q' :: p <= q < q' < p + count ==> s.removals[q].seen.id != s.removals[q'].seen.id)
  }

  /** The steps those removals still take. */
  function Own(p: nat, done: nat, count: nat): seq<Step>
    requires done < 4
  {
    if count == 0 then [] else RemoveSteps(p)[done..] + RemoveAll(p + 1, count - 1)
  }

  lemma DropHead(xs: seq<Step>, i: nat, rest: seq<Step>)
    requires i < |xs|
    ensures xs[i..] + rest != [] && (xs[i..] + rest)[0] == xs[i]
    ensures (xs[i..] + rest)[1..] == xs[i + 1..] + rest
  {
  }

  lemma OwnHead(p: nat, done: nat, count: nat)
    requires done < 4 && count > 0
    ensures Own(p, done, count) != [] && Own(p, done, count)[0] == RemoveSteps(p)[done]
    ensures Own(p, done, count)[1..] == if done < 3 then Own(p, done + 1, count) else Own(p + 1, 0, count - 1)
  {
    var steps, rest := RemoveSteps(p), RemoveAll(p + 1, count - 1);
    assert |steps| == 4;
    hide RemoveSteps, RemoveAll;
    DropHead(steps, done, rest);
    if done == 3 {
      NothingDropped(steps, rest);
      AllFromStart(p + 1, count - 1);
    }
  }

  lemma NothingDropped(steps: seq<Step>, rest: seq<Step>)
    ensures steps[|steps|..] + rest == rest
  {
  }

  lemma AllFromStart(p: nat, count: nat)
    ensures Own(p, 0, count) == RemoveAll(p, count)
  {
    assert RemoveSteps(p)[0..] == RemoveSteps(p);
  }

  /** The ids that this cleanup has still to remove. */
  ghost function ToRemove(s: System, p: nat, count: nat): set<Id>
    requires p + count <= |s.removals|
  {
    set q | p <= q < p + count :: s.removals[q].seen.id
  }

  // ------------------------------------------------------------------ its own steps

  lemma WaitingStays(s: System, s': System, q: nat, stage: RemovalStage)
    requires Waiting(s, q, stage) && q < |s'.removals| && s'.removals[q] == s.removals[q]
    requires var id := s.removals[q].seen.id; id in s'.repo.records && s'.repo.records[id] == s.repo.records[id]
    ensures Waiting(s', q, stage)
  {
  }

  /** A step of the first removal short of the last: only its stage changes. */
  lemma EarlyStep(s: System, p: nat, done: nat)
    requires WellFormed(s.repo) && done < 3 && Waiting(s, p, StageAfter(done))
    ensures var s' := Next(s, RemoveSteps(p)[done]);
      && s'.repo.records == s.repo.records
      && s'.removals == s.removals[p := s.removals[p].(stage := StageAfter(done + 1))]
  {
    hide WellFormed, DoAnnounceRemoval, DoAbortUpload, DoDeleteVersions, Audited;
    if done == 0 {
      AnnounceShape(s, p);
      AuditedTouches(s.repo, s.removals[p].seen.id, Event(DeletionClaimed, s.now), {Deleting});
    } else if done == 1 {
      AbortShape(s, p);
    } else {
      DeleteShape(s, p);
    }
  }

  /** The last step makes the record Deleted and touches no other. */
  lemma LastStep(s: System, p: nat)
    requires WellFormed(s.repo) && Waiting(s, p, Gone)
    ensures var s' := Next(s, RemoveSteps(p)[3]);
      var id := s.removals[p].seen.id;
      && s'.repo.records.Keys == s.repo.records.Keys
      && s'.repo.records[id].status == Deleted
      && (forall other :: other in s.repo.records && other != id ==> s'.repo.records[other] == s.repo.records[other])
      && s'.removals == s.removals[p := s.removals[p].(stage := Settled)]
  {
    hide WellFormed, DoFinishRemoval, Attempt, Touches;
    FinishShape(s, p);
    AttemptFrame(s, s.removals[p].seen.id, {Deleting}, RemovalChange(Retention, s.now));
  }

  lemma EarlyStepTracks(s: System, s': System, p: nat, done: nat, count: nat)
    requires count > 0 && done < 3 && UnderWay(s, p, done, count)
    requires s'.repo.records == s.repo.records
    requires s'.removals == s.removals[p := s.removals[p].(stage := StageAfter(done + 1))]
    ensures UnderWay(s', p, done + 1, count)
  {
    hide StageAfter;
    forall q | p < q < p + count ensures Waiting(s', q, Claimed) { WaitingStays(s, s', q, Claimed); }
    forall q, q' | p <= q < q' < p + count ensures s'.removals[q].seen.id != s'.removals[q'].seen.id {
      assert s'.removals[q].seen == s.removals[q].seen && s'.removals[q'].seen == s.removals[q'].seen;
    }
  }

  lemma LastStepTracks(s: System, s': System, p: nat, count: nat)
    requires count > 0 && UnderWay(s, p, 3, count)
    requires forall other :: other in s.repo.records && other != s.removals[p].seen.id ==>
               other in s'.repo.records && s'.repo.records[other] == s.repo.records[other]
    requires s'.removals == s.removals[p := s.removals[p].(stage := Settled)]
    ensures UnderWay(s', p + 1, 0, count - 1)
  {
    forall q | p < q < p + count ensures Waiting(s', q, Claimed) {
      assert s.removals[p].seen.id != s.removals[q].seen.id && Waiting(s, q, Claimed);
      WaitingStays(s, s', q, Claimed);
    }
    forall q, q' | p < q < q' < p + count ensures s'.removals[q].seen.id != s'.removals[q'].seen.id {
      assert s'.removals[q] == s.removals[q] && s'.removals[q'] == s.removals[q'];
    }
  }

  lemma OtherStepTracks(s: System, step: Step, p: nat, done: nat, count: nat)
    requires WellFormed(s.repo) && IsOther(step) && UnderWay(s, p, done, count)
    ensures UnderWay(Next(s, step), p, done, count)
  {
    hide WellFormed, Next, IsOther, StageAfter;
    var s' := Next(s, step);
    OthersKeepRemovals(s, step);
    if count > 0 { OtherStepWaits(s, step, p, StageAfter(done)); }
    forall q | p < q < p + count ensures Waiting(s', q, Claimed) { OtherStepWaits(s, step, q, Claimed); }
    forall q | p <= q < p + count ensures s'.removals[q] == s.removals[q] {
    }
  }

  lemma OtherStepWaits(s: System, step: Step, q: nat, stage: RemovalStage)
    requires WellFormed(s.repo) && IsOther(step) && Waiting(s, q, stage)
    ensures Waiting(Next(s, step), q, stage)
  {
    hide WellFormed, Next, IsOther;
    OthersKeepRemovals(s, step);
    OthersSpareDeleting(s, step, s.removals[q].seen.id);
    WaitingStays(s, Next(s, step), q, stage);
  }

  lemma {:induction false} OthersCreateNothing(work: seq<Step>, own: seq<Step>)
    requires Interleaves(work, own) && forall step :: step in own ==> step.OnRemoval?
    ensures NoCreation(work)
    decreases |work|
  {
    if work != [] {
      if IsOther(work[0]) && Interleaves(work[1..], own) {
        OthersCreateNothing(work[1..], own);
      } else {
        assert own[0] in own && forall step :: step in own[1..] ==> step in own;
        OthersCreateNothing(work[1..], own[1..]);
      }
      forall k | 0 <= k < |work| ensures !(work[k].OnUpload? && work[k].upload.Create?) {
        if k > 0 { assert work[k] == work[1..][k - 1]; }
      }
    }
  }

  lemma {:induction false} RemoveAllOnlyRemoves(p: nat, count: nat)
    ensures forall step :: step in RemoveAll(p, count) ==> step.OnRemoval?
    decreases count
  {
    if count > 0 { RemoveAllOnlyRemoves(p + 1, count - 1); }
  }

  // ------------------------------------------------------------------ the whole cleanup

  /** After a step of its own the first removal is further, or done with its record. */
  ghost predicate Advances(s: System, s': System, p: nat, done: nat, count: nat)
    requires count > 0 && p + count <= |s.removals|
  {
    if done < 3 then UnderWay(s', p, done + 1, count) && ToRemove(s', p, count) == ToRemove(s, p, count)
    else
      && UnderWay(s', p + 1, 0, count - 1)
      && ToRemove(s, p, count) == ToRemove(s', p + 1, count - 1) + {s.removals[p].seen.id}
      && s.removals[p].seen.id !in Alive(s'.repo)
  }

  lemma SamePending(s: System, s': System, p: nat, count: nat)
    requires p + count <= |s.removals| && p + count <= |s'.removals|
    requires forall q :: p <= q < p + count ==> s'.removals[q].seen == s.removals[q].seen
    ensures ToRemove(s', p, count) == ToRemove(s, p, count)
  {
  }

  lemma OneLessPending(s: System, s': System, p: nat, count: nat)
    requires count > 0 && p + count <= |s.removals| && p + count <= |s'.removals|
    requires forall q :: p < q < p + count ==> s'.removals[q].seen == s.removals[q].seen
    ensures ToRemove(s, p, count) == ToRemove(s', p + 1, count - 1) + {s.removals[p].seen.id}
  {
    forall id | id in ToRemove(s, p, count) && id != s.removals[p].seen.id ensures id in ToRemove(s', p + 1, count - 1) {
      var q :| p <= q < p + count && s.removals[q].seen.id == id;
      assert s'.removals[q].seen.id == id;
    }
    forall id | id in ToRemove(s', p + 1, count - 1) ensures id in ToRemove(s, p, count) {
      var q :| p < q < p + count && s'.removals[q].seen.id == id;
      assert s.removals[q].seen.id == id;
    }
  }

  lemma EarlyStepAdvances(s: System, p: nat, done: nat, count: nat)
    requires WellFormed(s.repo) && done < 3 && count > 0 && UnderWay(s, p, done, count)
    ensures Advances(s, Next(s, RemoveSteps(p)[done]), p, done, count)
  {
    var s' := Next(s, RemoveSteps(p)[done]);
    hide WellFormed, RemoveSteps, Next, Waiting, ToRemove, StageAfter;
    EarlyStep(s, p, done);
    EarlyStepTracks(s, s', p, done, count);
    SamePending(s, s', p, count);
    hide UnderWay;
  }

  lemma LastStepAdvances(s: System, p: nat, count: nat)
    requires WellFormed(s.repo) && count > 0 && UnderWay(s, p, 3, count)
    ensures Advances(s, Next(s, RemoveSteps(p)[3]), p, 3, count)
  {
    var s' := Next(s, RemoveSteps(p)[3]);
    hide WellFormed, RemoveSteps, Next, Waiting, ToRemove;
    LastStep(s, p);
    LastStepTracks(s, s', p, count);
    OneLessPending(s, s', p, count);
    hide UnderWay;
  }

  lemma OwnStepAdvances(s: System, p: nat, done: nat, count: nat)
    requires WellFormed(s.repo) && done < 4 && count > 0 && UnderWay(s, p, done, count)
    ensures Advances(s, Next(s, RemoveSteps(p)[done]), p, done, count)
  {
    assert p + count <= |s.removals|;
    hide WellFormed, UnderWay, Advances, Next;
    if done < 3 {
      EarlyStepAdvances(s, p, done, count);
    } else {
      LastStepAdvances(s, p, count);
    }
  }

  lemma OtherStepAdvances(s: System, step: Step, p: nat, done: nat, count: nat)
    requires WellFormed(s.repo) && IsOther(step) && UnderWay(s, p, done, count)
    ensures var s' := Next(s, step);
      UnderWay(s', p, done, count) && ToRemove(s', p, count) == ToRemove(s, p, count)
  {
    hide WellFormed, Next, IsOther, Waiting, ToRemove;
    OtherStepTracks(s, step, p, done, count);
    OthersKeepRemovals(s, step);
    SamePending(s, Next(s, step), p, count);
  }

  lemma RestCreatesNothing(work: seq<Step>)
    requires NoCreation(work) && work != []
    ensures NoCreation(work[1..])
  {
  }

  /** None of these ids is live. */
  ghost predicate AllGone(ids: set<Id>, r: Repo) { ids !! Alive(r) }

  lemma OneMoreGone(ids: set<Id>, id: Id, r: Repo, later: Repo)
    requires AllGone(ids, later) && id !in Alive(r) && Alive(later) <= Alive(r)
    ensures AllGone(ids + {id}, later)
  {
    hide Alive;
  }

  lemma NothingPending(s: System, p: nat, r: Repo)
    requires p <= |s.removals|
    ensures AllGone(ToRemove(s, p, 0), r)
  {
    assert ToRemove(s, p, 0) == {};
  }

  lemma GoneAfterAdvance(s: System, next: System, rest: seq<Step>, p: nat, done: nat, count: nat)
    requires Safe(next) && NoCreation(rest) && count > 0 && p + count <= |s.removals|
    requires Advances(s, next, p, done, count)
    requires done < 3 ==> AllGone(ToRemove(next, p, count), RunFrom(next, rest).repo)
    requires done >= 3 ==> AllGone(ToRemove(next, p + 1, count - 1), RunFrom(next, rest).repo)
    ensures AllGone(ToRemove(s, p, count), RunFrom(next, rest).repo)
  {
    if done >= 3 {
      hide Safe, Waiting, ToRemove, Alive, RunFrom, NoCreation, AllGone;
      RunShrinks(next, rest);
      OneMoreGone(ToRemove(next, p + 1, count - 1), s.removals[p].seen.id, next.repo, RunFrom(next, rest).repo);
    }
  }

  /** The first step of the work is one of others or the next of its own. */
  lemma WorkHead(work: seq<Step>, p: nat, done: nat, count: nat)
    requires done < 4 && count > 0 && Interleaves(work, Own(p, done, count))
    ensures work != []
    ensures (IsOther(work[0]) && Interleaves(work[1..], Own(p, done, count)))
         || (work[0] == RemoveSteps(p)[done]
             && Interleaves(work[1..], if done < 3 then Own(p, done + 1, count) else Own(p + 1, 0, count - 1)))
  {
    OwnHead(p, done, count);
    hide Own, RemoveSteps, IsOther;
  }

  /** Whatever others do meanwhile, the removals under way end with their records deleted. */
  lemma {:induction false} InterleavedRemoves(s: System, work: seq<Step>, p: nat, done: nat, count: nat)
    requires Safe(s) && done < 4 && UnderWay(s, p, done, count)
    requires Interleaves(work, Own(p, done, count)) && NoCreation(work)
    ensures AllGone(ToRemove(s, p, count), RunFrom(s, work).repo)
    decreases |work|
  {
    hide Safe, Own, Next, IsOther, RemoveSteps, Waiting, ToRemove, NoCreation, WellFormed, RunFrom, AllGone, Interleaves,
         Advances;
    if count == 0 {
      NothingPending(s, p, RunFrom(s, work).repo);
    } else {
      WorkHead(work, p, done, count);
      RunFirst(s, work);
      RestCreatesNothing(work);
      var next, rest := Next(s, work[0]), work[1..];
      if IsOther(work[0]) && Interleaves(rest, Own(p, done, count)) {
        OtherStepAdvances(s, work[0], p, done, count);
        hide UnderWay;
        InterleavedRemoves(next, rest, p, done, count);
      } else {
        OwnStepAdvances(s, p, done, count);
        AdvancedIsUnderWay(s, next, p, done, count);
        if done < 3 {
          InterleavedRemoves(next, rest, p, done + 1, count);
        } else {
          InterleavedRemoves(next, rest, p + 1, 0, count - 1);
        }
        GoneAfterAdvance(s, next, rest, p, done, count);
      }
    }
  }

  lemma AdvancedIsUnderWay(s: System, next: System, p: nat, done: nat, count: nat)
    requires count > 0 && p + count <= |s.removals| && Advances(s, next, p, done, count)
    ensures if done < 3 then UnderWay(next, p, done + 1, count) else UnderWay(next, p + 1, 0, count - 1)
  {
  }

  lemma RunFirst(s: System, work: seq<Step>)
    requires Safe(s) && work != []
    ensures WellFormed(s.repo) && Safe(Next(s, work[0]))
    ensures RunFrom(s, work) == RunFrom(Next(s, work[0]), work[1..])
  {
    RunCons(s, work[0], work[1..]);
    assert work == [work[0]] + work[1..];
  }

  /** A claim puts one removal under way for each record of its batch. */
  lemma ClaimTracks(s: System, limit: nat)
    requires WellFormed(s.repo)
    ensures var batch := DeletionBatch(Values(s.repo), s.repo.released, s.now, limit);
      var s' := Next(s, OnRemoval(ClaimForDeletion(limit)));
      && UnderWay(s', |s.removals|, 0, |batch|)
      && ToRemove(s', |s.removals|, |batch|) == BatchIds(batch)
  {
    var batch := DeletionBatch(Values(s.repo), s.repo.released, s.now, limit);
    var claimed := ClaimedBatch(batch, Deleting, s.now);
    DeletionBatchKnown(s.repo, s.now, limit);
    hide WellFormed, DeletionBatch;
    ClaimShape(s, limit);
    ClaimedAreDeleting(s.repo, batch, s.now);
    SameIds(batch, s.now);
    hide DoClaimForDeletion, ClaimAll, ClaimedBatch, BatchIds;
    AwaitedAreUnderWay(Next(s, OnRemoval(ClaimForDeletion(limit))), claimed, |s.removals|);
  }

  lemma AwaitedAreUnderWay(s: System, claimed: seq<Upload>, first: nat)
    requires AwaitRemoval(s, claimed, first, 0) && DistinctUploads(claimed)
    requires forall v :: v in claimed ==> v.id in s.repo.records && s.repo.records[v.id].status == Deleting
    ensures UnderWay(s, first, 0, |claimed|) && ToRemove(s, first, |claimed|) == BatchIds(claimed)
  {
    forall q | first <= q < first + |claimed| ensures Waiting(s, q, Claimed) && s.removals[q].seen == claimed[q - first] {
      var i := q - first;
      assert s.removals[first + i] == Removal(claimed[i], Retention, Claimed) && claimed[i] in claimed;
    }
    hide Waiting, AwaitRemoval;
    forall id | id in BatchIds(claimed) ensures id in ToRemove(s, first, |claimed|) {
      var i :| 0 <= i < |claimed| && claimed[i].id == id;
      assert s.removals[first + i].seen.id == id;
    }
  }

  // ------------------------------------------------------------------ rounds

  /** A round of cleanup: any steps before it, then, once it has claimed its batch, its own steps and those of others. */
  datatype Round = Round(before: seq<Step>, work: seq<Step>)

  ghost function AtClaim(s: System, round: Round): (t: System)
    requires Safe(s)
    ensures Safe(t) && WellFormed(t.repo)
  {
    RunFrom(s, round.before)
  }

  ghost function Claiming(s: System, limit: nat): (t: System)
    requires Safe(s)
    ensures Safe(t)
  {
    SafeIsWellFormed(s);
    StepKeepsSafe(s, OnRemoval(ClaimForDeletion(limit)));
    Next(s, OnRemoval(ClaimForDeletion(limit)))
  }

  /** What a cleanup does in s after its claim. */
  ghost function RemovalSteps(s: System, limit: nat): seq<Step>
    requires WellFormed(s.repo)
  {
    RemoveAll(|s.removals|, |DeletionBatch(Values(s.repo), s.repo.released, s.now, limit)|)
  }

  /** The records a cleanup in s would claim. */
  ghost function ClaimedIds(s: System, limit: nat): set<Id>
    requires WellFormed(s.repo)
  {
    BatchIds(DeletionBatch(Values(s.repo), s.repo.released, s.now, limit))
  }

  ghost function AfterRound(s: System, round: Round, limit: nat): (t: System)
    requires Safe(s)
    ensures Safe(t)
  {
    RunFrom(Claiming(AtClaim(s, round), limit), round.work)
  }

  /** What a round must leave be: it creates nothing, finds all live records due, and no other remover interferes. */
  ghost predicate RoundFits(s: System, round: Round, limit: nat)
    requires Safe(s)
  {
    var found := AtClaim(s, round);
    && NoCreation(round.before) && AllDue(found.repo, found.now)
    && Interleaves(round.work, RemovalSteps(found, limit))
  }

  ghost function AfterRounds(s: System, rounds: seq<Round>, limit: nat): (t: System)
    requires Safe(s)
    ensures Safe(t)
    decreases |rounds|
  {
    if rounds == [] then s else AfterRounds(AfterRound(s, rounds[0], limit), rounds[1..], limit)
  }

  ghost predicate RoundsFit(s: System, rounds: seq<Round>, limit: nat)
    requires Safe(s)
    decreases |rounds|
  {
    rounds == []
    || (RoundFits(s, rounds[0], limit) && RoundsFit(AfterRound(s, rounds[0], limit), rounds[1..], limit))
  }

  function Left(alive: nat, gone: nat): nat { if alive < gone then 0 else alive - gone }

  function Batches(rounds: nat, limit: nat): nat { rounds * limit }

  /** A claimed batch is live, and full or all there is. */
  lemma BatchToGo(s: System, limit: nat)
    requires WellFormed(s.repo) && AllDue(s.repo, s.now)
    ensures ClaimedIds(s, limit) <= Alive(s.repo)
    ensures |Alive(s.repo)| - |ClaimedIds(s, limit)| <= Left(|Alive(s.repo)|, limit)
  {
    var batch := DeletionBatch(Values(s.repo), s.repo.released, s.now, limit);
    DeletionBatchKnown(s.repo, s.now, limit);
    BatchSize(s.repo, s.now, limit);
    IdsCount(batch);
    hide WellFormed, AllDue, DeletionBatch, Alive;
    BatchIsAlive(s.repo, batch, s.now);
  }

  lemma FewerAlive(alive: set<Id>, gone: set<Id>, after: set<Id>)
    requires gone <= alive && after <= alive && after !! gone
    ensures |after| <= |alive| - |gone|
  {
    Capacity.SubsetSize(after, alive - gone);
  }

  lemma ClaimShrinks(s: System, limit: nat)
    requires Safe(s)
    ensures Alive(Claiming(s, limit).repo) <= Alive(s.repo)
  {
    hide Safe, Next, Alive;
    assert NoCreation([OnRemoval(ClaimForDeletion(limit))]);
    StepShrinks(s, OnRemoval(ClaimForDeletion(limit)));
  }

  /** The work after a claim removes the batch and adds nothing. */
  lemma WorkRemoves(s: System, limit: nat, work: seq<Step>)
    requires Safe(s) && WellFormed(s.repo) && Interleaves(work, RemovalSteps(s, limit))
    ensures var after := RunFrom(Claiming(s, limit), work).repo;
      && Alive(after) <= Alive(s.repo)
      && ClaimedIds(s, limit) !! Alive(after)
  {
    var count := |DeletionBatch(Values(s.repo), s.repo.released, s.now, limit)|;
    hide Safe, WellFormed, DeletionBatch, BatchIds, Alive, UnderWay, ToRemove, RunFrom, Interleaves, NoCreation, Next;
    ClaimTracks(s, limit);
    AllFromStart(|s.removals|, count);
    RemoveAllOnlyRemoves(|s.removals|, count);
    OthersCreateNothing(work, RemovalSteps(s, limit));
    hide RemoveAll, Own;
    InterleavedRemoves(Claiming(s, limit), work, |s.removals|, 0, count);
    ClaimShrinks(s, limit);
    RunShrinks(Claiming(s, limit), work);
  }

  /** One round: what is found due shrinks by a full batch. */
  lemma RoundShrinks(s: System, round: Round, limit: nat)
    requires Safe(s) && RoundFits(s, round, limit)
    ensures |Alive(AfterRound(s, round, limit).repo)| <= Left(|Alive(s.repo)|, limit)
  {
    hide Safe, NoCreation, Alive, RunFrom, AllDue, WellFormed, Interleaves, ClaimedIds, Claiming, RemovalSteps;
    var found := AtClaim(s, round);
    var after := AfterRound(s, round, limit);
    RunShrinks(s, round.before);
    BatchToGo(found, limit);
    WorkRemoves(found, limit, round.work);
    FewerAlive(Alive(found.repo), ClaimedIds(found, limit), Alive(after.repo));
    Capacity.SubsetSize(Alive(found.repo), Alive(s.repo));
  }

  lemma LeftTwice(alive: nat, limit: nat, rounds: nat, some: nat)
    requires some <= Left(alive, limit)
    ensures Left(some, Batches(rounds, limit)) <= Left(alive, Batches(rounds + 1, limit))
  {
    assert (rounds + 1) * limit == rounds * limit + limit;
  }

  lemma NoneLeft(alive: nat, limit: nat)
    ensures Left(alive, Batches(0, limit)) == alive
  {
  }

  /**
   * Once all deadlines have passed and removals succeed, every bounded cleanup strictly shrinks the set of live
   * records until none is left, whatever other processes do between cleanups and during them, as long as nothing is
   * created and no other remover is stepped during one: after k rounds k times the limit have gone, or all of them.
   */
  lemma {:induction false} CleanupsEmptyTheStore(s: System, rounds: seq<Round>, limit: nat)
    requires Safe(s) && RoundsFit(s, rounds, limit)
    ensures |Alive(AfterRounds(s, rounds, limit).repo)| <= Left(|Alive(s.repo)|, Batches(|rounds|, limit))
    decreases |rounds|
  {
    hide Safe, RoundFits, AfterRound, Alive, Left, Batches;
    if rounds == [] {
      NoneLeft(|Alive(s.repo)|, limit);
    } else {
      RoundShrinks(s, rounds[0], limit);
      var next := AfterRound(s, rounds[0], limit);
      CleanupsEmptyTheStore(next, rounds[1..], limit);
      LeftTwice(|Alive(s.repo)|, limit, |rounds| - 1, |Alive(next.repo)|);
    }
  }

  /** So from every reachable state, enough rounds of cleanup after the end of retention leave no live record. */
  lemma ReachableStoreEmpties(steps: seq<Step>, rounds: seq<Round>, limit: nat)
    requires RoundsFit(Run(steps), rounds, limit)
    requires |Alive(Run(steps).repo)| <= Batches(|rounds|, limit)
    ensures Alive(AfterRounds(Run(steps), rounds, limit).repo) == {}
  {
    hide Run, AfterRounds, RoundsFit, Safe;
    CleanupsEmptyTheStore(Run(steps), rounds, limit);
  }
}
