/** What one accepted command stores, and what every published snapshot shows. */
module PublishedHistory {
  import opened Options
  import opened ControlState
  import opened CommandText
  import opened ControlLog
  import opened CommandEffects
  import opened CommandHistory
  import Versions

  // ------------------------------------------------------------------ one command

  /** The version remembered longest: the floor, else that of the evidence, else that of the release. */
  ghost predicate Remembers(s: State, version: Versions.Version) {
    || s.releaseFloor == Some(version)
    || (s.releaseFloor.None? && s.evidence.Some? && s.evidence.value.version == version)
    || (s.releaseFloor.None? && s.evidence.None? && s.release.Some? && s.release.value.version == version)
  }

  /** A release is refused exactly when its version is below the remembered one, or known with other assets. */
  lemma RefusedExactly(s: State, c: Command)
    ensures Apply(s, c).Err? <==>
      && c.SetRelease?
      && (|| (exists floor :: Remembers(s, floor) && Versions.Compare(c.version, floor) == Versions.Below)
          || (s.evidence.Some? && s.evidence.value.version == c.version && s.evidence.value.assets != c.assets))
  {
    hide Versions.Compare;
    if Floor(s).Some? { assert Remembers(s, Floor(s).value); }
  }

  /** Where the command leads and what is signed then. */
  ghost predicate LeadsTo(s: State, c: Command, now: int, at: Reading, s': State, p: Payload) {
    && Effect(s, c, s'.(revision := s.revision)) && s'.revision == s.revision + 1
    && Publishes(s', now, at, p)
  }

  predicate TooLong(p: Payload) { |p.codes| > 100 || |p.schedules| > 20 || |p.disablements| > 15 }

  ghost predicate Stores(log: Log, actor: Actor, envelope: Envelope, p: Payload, now: int, log': Log) {
    var n := |log.audit| + 1;
    && log'.audit == log.audit + [Entry(envelope.commandId, actor, envelope.command, n, now)]
    && log'.published == log.published[n := p]
    && log'.replays.Keys == log.replays.Keys + {envelope.commandId}
    && forall id :: id in log.replays && id != envelope.commandId ==> log'.replays[id] == log.replays[id]
  }

  predicate Known(log: Log, id: Text) { exists i :: 0 <= i < |log.audit| && log.audit[i].commandId == id }

  lemma KnownExactly(log: Log, id: Text, at: Reading)
    requires Consistent(log, at)
    ensures id in log.replays <==> Known(log, id)
  {
    hide Fold, Fingerprint, Sign;
    if Known(log, id) {
      var i :| 0 <= i < |log.audit| && log.audit[i].commandId == id;
      assert Replayable(log, i, at);
    }
    if id in log.replays {
      var i :| 0 <= i < |log.audit| && IdOf(log.audit[i]) == id;
    }
  }

  lemma PreparedExactly(s: State, c: Command, now: int, at: Reading)
    ensures Prepare(s, c, now, at).Ok? ==>
      var (s', p) := Prepare(s, c, now, at).value;
      LeadsTo(s, c, now, at, s', p) && !TooLong(p)
    ensures Prepare(s, c, now, at).Err? && Apply(s, c).Ok? ==>
      exists s', p :: LeadsTo(s, c, now, at, s', p) && TooLong(p)
  {
    hide Apply, Effect, Publishes, PublishPayload, Sign;
    ApplyExactly(s, c);
    if Apply(s, c).Ok? {
      ApplyKeepsRevision(s, c);
      var applied := Apply(s, c).value;
      var s' := applied.(revision := s.revision + 1);
      assert s'.(revision := s.revision) == applied;
      SignExactly(s', now, at);
      assert LeadsTo(s, c, now, at, s', PublishPayload(s', now, at));
    }
  }

  lemma PreparedRevision(s: State, c: Command, now: int, at: Reading)
    ensures Prepare(s, c, now, at).Ok? ==> Prepare(s, c, now, at).value.0.revision == s.revision + 1
  {
    hide Apply, Sign;
  }

  lemma CommitStores(log: Log, actor: Actor, envelope: Envelope, next: State, snapshot: Payload, now: int)
    requires next.revision == |log.audit| + 1
    ensures Stores(log, actor, envelope, snapshot, now, Commit(log, actor, envelope, next, snapshot, now))
    ensures Commit(log, actor, envelope, next, snapshot, now).state == next
  {
    hide Fingerprint;
  }

  /**
   * A command with a new id is accepted exactly when it names the current revision, its release is not refused and
   * what it leads to is not too long. Then it stores its entry, its snapshot and its replay, and nothing else changes.
   */
  lemma ExecuteExactly(log: Log, actor: Actor, envelope: Envelope, now: int, at: Reading)
    requires Consistent(log, at) && !Known(log, envelope.commandId)
    ensures var (log', result) := Execute(log, actor, envelope, now, at);
      && (result.Err? ==> log' == log)
      && (envelope.expectedRevision != |log.audit| ==> result == Err("Control revision conflict."))
      && (envelope.expectedRevision == |log.audit| && result.Err? ==>
            || Apply(log.state, envelope.command).Err?
            || exists s', p :: LeadsTo(log.state, envelope.command, now, at, s', p) && TooLong(p))
      && (result.Ok? ==>
            && envelope.expectedRevision == |log.audit|
            && LeadsTo(log.state, envelope.command, now, at, log'.state, result.value) && !TooLong(result.value)
            && Stores(log, actor, envelope, result.value, now, log'))
  {
    hide Prepare, Fingerprint, LeadsTo, AllReplayable, Fold, TooLong, Known, Apply, Stores, Commit, PublishedUpTo;
    KnownExactly(log, envelope.commandId, at);
    PreparedExactly(log.state, envelope.command, now, at);
    if envelope.expectedRevision == |log.audit| && Prepare(log.state, envelope.command, now, at).Ok? {
      var (next, snapshot) := Prepare(log.state, envelope.command, now, at).value;
      PreparedRevision(log.state, envelope.command, now, at);
      CommitStores(log, actor, envelope, next, snapshot, now);
    }
  }

  /** A republish stores the current state's payload under its revision, unless that is too long. */
  lemma RepublishExactly(log: Log, now: int, at: Reading)
    requires Consistent(log, at)
    ensures var (log', result) := Republish(log, now, at);
      && (result.Ok? ==>
            && Publishes(log.state, now, at, result.value) && !TooLong(result.value)
            && log' == log.(published := log.published[|log.audit| := result.value]))
      && (result.Err? ==> log' == log && exists p :: Publishes(log.state, now, at, p) && TooLong(p))
  {
    SignExactly(log.state, now, at);
    SnapshotRevision(log.state, now, at);
    hide Sign, PublishPayload, Publishes, Fold, AllReplayable, PublishedUpTo;
    assert Publishes(log.state, now, at, PublishPayload(log.state, now, at));
  }

  // ------------------------------------------------------------------ every snapshot

  /** The snapshot published under k shows the state after the first k audited commands. */
  ghost predicate Shows(log: Log, k: nat, at: Reading) {
    && k in log.published && k <= |log.audit| && Fold(log.audit[..k]).Ok?
    && Publishes(Fold(log.audit[..k]).value, log.published[k].generatedAt, at, log.published[k])
  }

  ghost predicate AllShow(log: Log, at: Reading) {
    forall k :: k in log.published ==> Shows(log, k, at)
  }

  lemma ShowsStill(log: Log, log': Log, k: nat, at: Reading)
    requires Shows(log, k, at) && log.audit <= log'.audit
    requires k in log'.published && log'.published[k] == log.published[k]
    ensures Shows(log', k, at)
  {
    hide Fold, Publishes;
    assert log'.audit[..k] == log.audit[..k];
  }

  lemma ShowsNewest(log: Log, now: int, at: Reading)
    requires Fold(log.audit) == Ok(log.state) && |log.audit| in log.published
    requires log.published[|log.audit|] == PublishPayload(log.state, now, at)
    ensures Shows(log, |log.audit|, at)
  {
    PayloadExactly(log.state, now, at);
    assert log.published[|log.audit|].generatedAt == now;
    hide Fold, Publishes, PublishPayload;
    assert log.audit[..|log.audit|] == log.audit;
  }

  lemma ExecuteShows(log: Log, actor: Actor, envelope: Envelope, now: int, at: Reading)
    requires Consistent(log, at) && AllShow(log, at)
    ensures AllShow(Execute(log, actor, envelope, now, at).0, at)
  {
    hide Prepare, Fingerprint, AllReplayable, Fold, Shows, PublishPayload, Apply, WithinSchema;
    var log' := Execute(log, actor, envelope, now, at).0;
    ExecuteKeepsConsistent(log, actor, envelope, now, at);
    if log' != log {
      PreparedState(log.state, envelope.command, now, at);
      var n := |log.audit| + 1;
      assert log'.published == log.published[n := log'.published[n]] && |log'.audit| == n;
      ShowsNewest(log', now, at);
      forall k | k in log'.published ensures Shows(log', k, at) {
        if k != n {
          assert Shows(log, k, at);
          ShowsStill(log, log', k, at);
        }
      }
    }
  }

  lemma RepublishShows(log: Log, now: int, at: Reading)
    requires Consistent(log, at) && AllShow(log, at)
    ensures AllShow(Republish(log, now, at).0, at)
  {
    var log' := Republish(log, now, at).0;
    SnapshotRevision(log.state, now, at);
    hide Fold, Shows, Sign, PublishPayload, AllReplayable;
    if log' != log {
      var n := |log.audit|;
      ShowsNewest(log', now, at);
      forall k | k in log'.published ensures Shows(log', k, at) {
        if k != n {
          assert Shows(log, k, at);
          ShowsStill(log, log', k, at);
        }
      }
    }
  }

  lemma {:induction false} RunShows(log: Log, steps: seq<Step>, at: Reading)
    requires Consistent(log, at) && AllShow(log, at)
    ensures AllShow(RunFrom(log, steps, at), at)
    decreases |steps|
  {
    hide Consistent, AllShow, Execute, Republish;
    if steps != [] {
      match steps[0] {
        case Submit(actor, envelope, now) =>
          ExecuteKeepsConsistent(log, actor, envelope, now, at);
          ExecuteShows(log, actor, envelope, now, at);
        case Refresh(now) =>
          RepublishKeepsConsistent(log, now, at);
          RepublishShows(log, now, at);
      }
      RunShows(Next(log, steps[0], at), steps[1..], at);
    }
  }

  /**
   * On every run the snapshot published under a revision shows what that many audited commands led to, without what
   * had expired when it was signed; the newest shows the current state.
   */
  lemma SnapshotsShowAudit(steps: seq<Step>, at: Reading)
    ensures var log := Run(steps, at);
      && (forall k :: k in log.published ==>
            && k <= |log.audit| && Fold(log.audit[..k]).Ok?
            && FollowsAudit(log.audit[..k], Fold(log.audit[..k]).value)
            && Publishes(Fold(log.audit[..k]).value, log.published[k].generatedAt, at, log.published[k]))
      && (ReadPublished(log).Some? ==>
            Publishes(log.state, ReadPublished(log).value.generatedAt, at, ReadPublished(log).value))
  {
    hide Run, RunFrom, Publishes, FollowsAudit, Consistent;
    var log := Run(steps, at);
    RunConsistent(steps, at);
    StartConsistent(at);
    assert log == RunFrom(START, steps, at) by { RunIsFromStart(steps, at); }
    RunShows(START, steps, at);
    StateIsFoldOfAudit(steps, at);
    assert log.audit[..|log.audit|] == log.audit;
    forall k | k in log.published
      ensures Shows(log, k, at) && FollowsAudit(log.audit[..k], Fold(log.audit[..k]).value)
    {
      assert Shows(log, k, at);
      FoldFollows(log.audit[..k]);
    }
    hide Fold;
  }

  lemma RunIsFromStart(steps: seq<Step>, at: Reading)
    ensures Run(steps, at) == RunFrom(START, steps, at)
  {
  }
}
