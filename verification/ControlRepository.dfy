/** The in-memory control repository, and the internal route that retries a command once with the same id. */
module ControlRepository {
  import opened Options
  import opened Sequences
  import opened ControlState
  import opened CommandText
  import opened ControlLog
  import Ascii
  import CanonicalJson

  class MemoryControlRepository {
    var state: State
    var published: map<nat, Payload>
    var audit: seq<Entry>
    var commandReplays: map<Text, Replay>
    const at: Reading

    ghost function Value(): Log
      reads this
    {
      Log(state, published, audit, commandReplays)
    }

    ghost predicate Valid()
      reads this
    {
      Consistent(Value(), at)
    }

    constructor (at: Reading)
      ensures Valid() && Value() == START && this.at == at
    {
      this.at := at;
      state := DEFAULT;
      published := map[];
      audit := [];
      commandReplays := map[];
      new;
      StartConsistent(at);
    }

    method ExecuteAndPublish(actor: Actor, envelope: Envelope, now: int) returns (r: Result<Payload, string>)
      requires Valid()
      modifies this
      ensures Valid()
      ensures (Value(), r) == Execute(old(Value()), actor, envelope, now, at)
    {
      hide Consistent, Fingerprint, Apply, Sign;
      ExecuteKeepsConsistent(Value(), actor, envelope, now, at);
      var fingerprint := Fingerprint(actor, envelope);
      if envelope.commandId in commandReplays {
        var replay := commandReplays[envelope.commandId];
        if replay.fingerprint != fingerprint {
          return Err(REPLAY_MISMATCH);
        }
        return Ok(replay.snapshot);
      }
      if envelope.expectedRevision != state.revision {
        return Err(REVISION_CONFLICT);
      }
      var applied := Apply(state, envelope.command);
      if applied.Err? {
        return Err(applied.error);
      }
      var next := applied.value.(revision := state.revision + 1);
      var signed := Sign(next, now, at);
      if signed.Err? {
        return Err(signed.error);
      }
      state := next;
      commandReplays := commandReplays[envelope.commandId := Replay(fingerprint, signed.value)];
      audit := audit + [Entry(envelope.commandId, actor, envelope.command, state.revision, now)];
      published := published[next.revision := signed.value];
      return Ok(signed.value);
    }

    method Republish(now: int) returns (r: Result<Payload, string>)
      requires Valid()
      modifies this`published
      ensures Valid()
      ensures (Value(), r) == ControlLog.Republish(old(Value()), now, at)
    {
      hide Consistent, Sign;
      RepublishKeepsConsistent(Value(), now, at);
      r := Sign(state, now, at);
      if r.Ok? {
        published := published[r.value.revision := r.value];
      }
    }

    /** The snapshot under the largest published revision, which is always the current one. */
    method ReadPublished() returns (r: Option<Payload>)
      requires Valid()
      ensures r == ControlLog.ReadPublished(Value())
      ensures r.Some? ==> r.value.revision == state.revision
      ensures r.None? <==> published == map[]
    {
      hide Consistent;
      NewestIsCurrent(Value(), at);
      if |published| == 0 {
        return None;
      }
      var keys := published.Keys;
      var latest: nat :| latest in keys;
      keys := keys - {latest};
      while keys != {}
        invariant keys <= published.Keys && latest in published.Keys
        invariant forall k :: k in published.Keys && k !in keys ==> k <= latest
        decreases |keys|
      {
        var k: nat :| k in keys;
        if k > latest { latest := k; }
        keys := keys - {k};
      }
      assert state.revision in published ==> state.revision <= latest;
      return Some(published[latest]);
    }
  }

  // ------------------------------------------------------------------ the command service

  predicate SystemOnly(c: Command) {
    c.Observe? || c.SetRelease? || c.ClearRelease?
  }

  predicate AllDigits(t: Text) {
    t != [] && forall u :: u in t ==> CanonicalJson.IsDigit(u)
  }

  predicate IsUuid(t: Text) {
    && |t| == 36
    && (forall i :: 0 <= i < 36 ==> if i in {8, 13, 18, 23} then t[i] == 45 else Ascii.IsHex(t[i]))
    && 49 <= t[14] <= 56
    && t[19] in {56, 57, 65, 66, 97, 98}
  }

  function Unauthorized(actor: Actor, c: Command): Option<string> {
    if actor.kind.System? != SystemOnly(c) then Some("Actor is not authorized for this control command.")
    else if (actor.kind.Discord? || actor.kind.Web?) && !AllDigits(actor.userId) then
      Some("Administrative actor identity was invalid.")
    else if actor.kind.ApiKey? && !IsUuid(actor.userId) then
      Some("Administrative API key identity was invalid.")
    else if actor.kind.System? && actor.userId != [48] then Some("System actor identity was invalid.")
    else None
  }

  predicate IsHexUnit(u: CanonicalJson.Unit) { 48 <= u <= 57 || 65 <= u <= 70 || 97 <= u <= 102 }

  /** Eight, four, four, four and twelve hexadecimal digits between dashes, of version 1 to 8 and the usual variant. */
  ghost predicate SpellsUuid(t: Text) {
    && |t| == 36 && t[8] == 45 && t[13] == 45 && t[18] == 45 && t[23] == 45
    && (forall i :: 0 <= i < 8 || 9 <= i < 13 || 14 <= i < 18 || 19 <= i < 23 || 24 <= i < 36 ==> IsHexUnit(t[i]))
    && 49 <= t[14] <= 56
    && (t[19] == 56 || t[19] == 57 || t[19] == 97 || t[19] == 98 || t[19] == 65 || t[19] == 66)
  }

  /**
   * The system alone observes the game and sets or clears releases, under the id "0", and nothing else; people are
   * known by decimal ids, API keys by UUIDs.
   */
  lemma AuthorizedExactly(actor: Actor, c: Command)
    ensures Unauthorized(actor, c).None? <==>
      match actor.kind
      case System =>
        && (match c case Observe(_, _) => true case SetRelease(_, _, _, _, _, _) => true case ClearRelease => true
            case _ => false)
        && |actor.userId| == 1 && actor.userId[0] == 48
      case ApiKey =>
        && (match c case Observe(_, _) => false case SetRelease(_, _, _, _, _, _) => false case ClearRelease => false
            case _ => true)
        && SpellsUuid(actor.userId)
      case _ =>
        && (match c case Observe(_, _) => false case SetRelease(_, _, _, _, _, _) => false case ClearRelease => false
            case _ => true)
        && |actor.userId| > 0 && forall i :: 0 <= i < |actor.userId| ==> 48 <= actor.userId[i] <= 57
  {
    UuidExactly(actor.userId);
    hide IsUuid, SpellsUuid;
    var t := actor.userId;
    if AllDigits(t) { forall i | 0 <= i < |t| ensures 48 <= t[i] <= 57 { assert t[i] in t; } }
  }

  lemma UuidExactly(t: Text)
    ensures IsUuid(t) <==> SpellsUuid(t)
  {
    forall u: CanonicalJson.Unit ensures Ascii.IsHex(u) <==> IsHexUnit(u) {}
    hide Ascii.IsHex, IsHexUnit;
    if SpellsUuid(t) {
      forall i | 0 <= i < 36 ensures if i in {8, 13, 18, 23} then t[i] == 45 else Ascii.IsHex(t[i]) {}
    }
  }

  function ServiceExecute(log: Log, actor: Actor, envelope: Envelope, now: int, at: Reading)
    : (Log, Result<Payload, string>)
  {
    if Unauthorized(actor, envelope.command).Some? then (log, Err(Unauthorized(actor, envelope.command).value))
    else Execute(log, actor, envelope, now, at)
  }

  // ------------------------------------------------------------------ retrying with one command id

  /** What other callers do between reading the state and executing, and the time of executing. */
  datatype Window = Window(others: seq<Step>, now: int)

  function Attempt(log: Log, actor: Actor, commandId: Text, command: Command, window: Window, at: Reading)
    : (Log, Result<Payload, string>)
  {
    ServiceExecute(RunFrom(log, window.others, at), actor, Envelope(commandId, log.state.revision, command),
                   window.now, at)
  }

  function Fresh(log: Log, actor: Actor, commandId: Text, command: Command, first: Window, second: Window, at: Reading)
    : (Log, Result<Payload, string>)
  {
    var (log', result) := Attempt(log, actor, commandId, command, first, at);
    if result == Err(REVISION_CONFLICT) then Attempt(log', actor, commandId, command, second, at)
    else (log', result)
  }

  /** Other callers' steps, one after the other. */
  method Interleave(repository: MemoryControlRepository, steps: seq<Step>)
    requires repository.Valid()
    modifies repository
    ensures repository.Valid()
    ensures repository.Value() == RunFrom(old(repository.Value()), steps, repository.at)
  {
    hide Consistent, Execute, ControlLog.Republish;
    ghost var start := repository.Value();
    var i := 0;
    while i < |steps|
      invariant 0 <= i <= |steps|
      invariant repository.Valid()
      invariant RunFrom(repository.Value(), steps[i..], repository.at) == RunFrom(start, steps, repository.at)
    {
      ghost var rest := steps[i..];
      assert rest[1..] == steps[i + 1..];
      match steps[i] {
        case Submit(actor, envelope, now) => var _ := repository.ExecuteAndPublish(actor, envelope, now);
        case Refresh(now) => var _ := repository.Republish(now);
      }
      i := i + 1;
    }
  }

  /** executeFresh: at most two attempts with one id, the second only after a revision conflict. */
  method ExecuteFresh(repository: MemoryControlRepository, actor: Actor, commandId: Text, command: Command,
                      windows: seq<Window>)
    returns (r: Result<Payload, string>)
    requires repository.Valid() && |windows| == 2
    modifies repository
    ensures repository.Valid()
    ensures (repository.Value(), r)
      == Fresh(old(repository.Value()), actor, commandId, command, windows[0], windows[1], repository.at)
  {
    hide Consistent, Execute;
    var attempt := 0;
    r := Err(REVISION_CONFLICT);
    while attempt < 2
      invariant 0 <= attempt <= 2
      invariant repository.Valid()
      invariant attempt == 0 ==> repository.Value() == old(repository.Value())
      invariant attempt == 1 ==>
        (repository.Value(), r) == Attempt(old(repository.Value()), actor, commandId, command, windows[0], repository.at)
      invariant attempt == 2 ==>
        (repository.Value(), r)
        == Fresh(old(repository.Value()), actor, commandId, command, windows[0], windows[1], repository.at)
      invariant r == Err(REVISION_CONFLICT)
    {
      var revision := repository.state.revision;
      Interleave(repository, windows[attempt].others);
      var refusal := Unauthorized(actor, command);
      if refusal.Some? {
        r := Err(refusal.value);
      } else {
        r := repository.ExecuteAndPublish(actor, Envelope(commandId, revision, command), windows[attempt].now);
      }
      if r != Err(REVISION_CONFLICT) || attempt > 0 {
        return;
      }
      attempt := attempt + 1;
    }
  }

  /** How one call of the service changes the log: by at most the entry of that very command. */
  lemma AttemptOutcome(log: Log, actor: Actor, commandId: Text, command: Command, window: Window, at: Reading)
    requires Consistent(log, at)
    ensures var (log', result) := Attempt(log, actor, commandId, command, window, at);
      var others := RunFrom(log, window.others, at);
      && Consistent(log', at)
      && (result.Err? ==> log' == others)
      && (result.Ok? ==> AppliedAs(log', actor, commandId, command))
      && (result == Err(REVISION_CONFLICT) ==> others.state.revision > log.state.revision)
  {
    hide Consistent, Fingerprint, Apply, Sign;
    var others := RunFrom(log, window.others, at);
    var envelope := Envelope(commandId, log.state.revision, command);
    RunKeepsConsistent(log, window.others, at);
    RunExtends(log, window.others, at);
    ExecuteKeepsConsistent(others, actor, envelope, window.now, at);
    var (log', result) := Attempt(log, actor, commandId, command, window, at);
    if result.Ok? {
      AcceptedIsApplied(others, actor, envelope, window.now, at);
    }
    ErrorsDiffer(others.state, command, window.now, at);
  }

  lemma ErrorsDiffer(s: State, c: Command, now: int, at: Reading)
    ensures Prepare(s, c, now, at) != Err(REVISION_CONFLICT)
  {
    assert |ROLLBACK| != |REVISION_CONFLICT| && |ASSETS_CHANGED| != |REVISION_CONFLICT|;
    assert |"Snapshot did not match its schema."| != |REVISION_CONFLICT|;
  }

  predicate IsApplied(entry: Entry, actor: Actor, commandId: Text, command: Command) {
    entry.commandId == commandId && entry.actor == actor && entry.command == command
  }

  /** The audit holds this id once, with this actor and command. */
  ghost predicate AppliedAs(log: Log, actor: Actor, commandId: Text, command: Command) {
    && (exists i :: 0 <= i < |log.audit| && IsApplied(log.audit[i], actor, commandId, command))
    && DistinctBy(log.audit, IdOf)
  }

  lemma AcceptedIsApplied(log: Log, actor: Actor, envelope: Envelope, now: int, at: Reading)
    requires Consistent(log, at) && Execute(log, actor, envelope, now, at).1.Ok?
    ensures AppliedAs(Execute(log, actor, envelope, now, at).0, actor, envelope.commandId, envelope.command)
  {
    hide Fingerprint, Prepare, Fold, Sign;
    var log' := Execute(log, actor, envelope, now, at).0;
    ExecuteKeepsConsistent(log, actor, envelope, now, at);
    if envelope.commandId in log.replays {
      var i :| 0 <= i < |log.audit| && IdOf(log.audit[i]) == envelope.commandId;
      RecordOf(log, i, at);
      FingerprintsAgree(log.audit[i].actor, EnvelopeOf(log.audit, i), actor, envelope);
      assert IsApplied(log.audit[i], actor, envelope.commandId, envelope.command);
    } else {
      assert IsApplied(log'.audit[|log.audit|], actor, envelope.commandId, envelope.command);
    }
  }

  /**
   * Through executeFresh a command is applied at most once. Success means the audit holds it exactly once, under
   * this id; an error means the call itself changed nothing; and a conflict is reported only when other commands
   * were applied in both windows.
   */
  lemma FreshAppliesOnce(log: Log, actor: Actor, commandId: Text, command: Command, first: Window, second: Window,
                         at: Reading)
    requires Consistent(log, at)
    ensures var (log', result) := Fresh(log, actor, commandId, command, first, second, at);
      var after := RunFrom(log, first.others, at);
      && Consistent(log', at)
      && (result.Ok? ==> AppliedAs(log', actor, commandId, command))
      && (result.Err? ==> log' == after || log' == RunFrom(after, second.others, at))
      && (result == Err(REVISION_CONFLICT) ==>
          && log' == RunFrom(after, second.others, at)
          && log.state.revision < after.state.revision < log'.state.revision)
  {
    hide Consistent, AppliedAs, Attempt, RunFrom;
    AttemptOutcome(log, actor, commandId, command, first, at);
    AttemptOutcome(Attempt(log, actor, commandId, command, first, at).0, actor, commandId, command, second, at);
  }

  /** A new command by one who may give it conflicts exactly when another was applied since the state was read. */
  lemma AttemptConflictsExactly(log: Log, actor: Actor, commandId: Text, command: Command, window: Window, at: Reading)
    requires Consistent(log, at) && Unauthorized(actor, command).None?
    requires commandId !in RunFrom(log, window.others, at).replays
    ensures var result := Attempt(log, actor, commandId, command, window, at).1;
      result == Err(REVISION_CONFLICT)
      <==> RunFrom(log, window.others, at).state.revision > log.state.revision
  {
    hide Consistent, Fingerprint, Apply, Sign, RunFrom, Prepare, Unauthorized;
    var others := RunFrom(log, window.others, at);
    RunExtends(log, window.others, at);
    ErrorsDiffer(others.state, command, window.now, at);
  }

  /** Through executeFresh, then, only when others were applied in both windows. */
  lemma FreshConflictsExactly(log: Log, actor: Actor, commandId: Text, command: Command, first: Window, second: Window,
                              at: Reading)
    requires Consistent(log, at) && Unauthorized(actor, command).None?
    requires commandId !in RunFrom(RunFrom(log, first.others, at), second.others, at).replays
    ensures var middle := RunFrom(log, first.others, at);
      Fresh(log, actor, commandId, command, first, second, at).1 == Err(REVISION_CONFLICT)
      <==> && middle.state.revision > log.state.revision
           && RunFrom(middle, second.others, at).state.revision > middle.state.revision
  {
    hide Consistent, RunFrom, Unauthorized, Attempt;
    var middle := RunFrom(log, first.others, at);
    RunExtends(middle, second.others, at);
    RunKeepsConsistent(log, first.others, at);
    AttemptConflictsExactly(log, actor, commandId, command, first, at);
    AttemptOutcome(log, actor, commandId, command, first, at);
    AttemptConflictsExactly(middle, actor, commandId, command, second, at);
  }
}
