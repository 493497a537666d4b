/** The control state, the commands that change it, and the payload published from it. */
module ControlState {
  import opened Options
  import opened Sequences
  import opened Versions
  import opened Ascii
  import CanonicalJson

  type Text = CanonicalJson.Text

  datatype Feature =
    | StoryMode | RaidMode | ChallengeMode | ExpeditionMode | EventMode
    | CalendarClaim | GoldShop | RaidShop | ExpeditionShop | CodeRedeem | GoldMineRefuel | ResourceDrillRefuel
    | RouteOptimizer | TeamSwap | SettingsNormalizer

  datatype ScheduleKey = GoldShopReset | RaidShopReset | ExpeditionShopReset

  /** Times that administrators or probes supply are kept as they are spelled. */
  datatype Game = Game(operatorAvailable: bool, observedPublic: Option<bool>, observedAt: Option<Text>,
                       message: Option<Text>)
  datatype Code = Code(code: Text, expiresAt: Option<Text>)
  datatype Schedule = Schedule(key: ScheduleKey, nextAt: Text, cadenceSeconds: int)
  datatype Disablement = Disablement(feature: Feature, reason: Text, expiresAt: Option<Text>)
  datatype Release = Release(version: Version, pageUrl: Text, installerUrl: Text, publishedAt: Text)
  datatype Assets = Assets(tag: Text, installerSize: int, installerSha256: Text, sourceCommit: Text)
  datatype Evidence = Evidence(version: Version, assets: Assets, verifiedAt: Text)

  datatype State = State(
    revision: nat,
    game: Game,
    codes: seq<Code>,
    schedules: seq<Schedule>,
    disablements: seq<Disablement>,
    release: Option<Release>,
    evidence: Option<Evidence>,
    releaseFloor: Option<Version>)

  const DEFAULT := State(0, Game(true, None, None, None), [], [], [], None, None, None)

  datatype Command =
    | AddCode(code: Text, expiresAt: Option<Text>)
    | RemoveCode(code: Text)
    | SetAvailability(available: bool, message: Option<Text>)
    | Observe(isPublic: bool, observedAt: Text)
    | DisableFeature(feature: Feature, reason: Text, expiresAt: Option<Text>)
    | EnableFeature(feature: Feature)
    | SetSchedule(key: ScheduleKey, nextAt: Text, cadenceSeconds: int)
    | SetRelease(version: Version, assets: Assets, pageUrl: Text, installerUrl: Text, publishedAt: Text,
                 verifiedAt: Text)
    | ClearRelease

  // ------------------------------------------------------------------ applying a command

  /** Codes hold ASCII letters, digits, '_' and '-' only. */
  function CodeKey(item: Code): Text { Lower(item.code) }

  function FeatureOf(item: Disablement): Feature { item.feature }

  function KeyOf(item: Schedule): ScheduleKey { item.key }

  function OtherCodes(codes: seq<Code>, code: Text): seq<Code> {
    Filter(codes, (item: Code) => Lower(item.code) != Lower(code))
  }

  function OtherDisablements(items: seq<Disablement>, feature: Feature): seq<Disablement> {
    Filter(items, (item: Disablement) => item.feature != feature)
  }

  function OtherSchedules(items: seq<Schedule>, key: ScheduleKey): seq<Schedule> {
    Filter(items, (item: Schedule) => item.key != key)
  }

  /** The version below which no release is accepted. */
  function Floor(s: State): Option<Version> {
    if s.releaseFloor.Some? then s.releaseFloor
    else if s.evidence.Some? then Some(s.evidence.value.version)
    else if s.release.Some? then Some(s.release.value.version)
    else None
  }

  const ROLLBACK := "Automatic release rollback was rejected."
  const ASSETS_CHANGED := "Published release assets changed without a new version."

  function ReleaseRefusal(s: State, c: Command): Option<string>
    requires c.SetRelease?
  {
    if Floor(s).Some? && Compare(c.version, Floor(s).value) == Below then Some(ROLLBACK)
    else if s.evidence.Some? && s.evidence.value.version == c.version && s.evidence.value.assets != c.assets then
      Some(ASSETS_CHANGED)
    else None
  }

  function Apply(s: State, c: Command): Result<State, string> {
    match c
    case AddCode(code, expiresAt) => Ok(s.(codes := OtherCodes(s.codes, code) + [Code(code, expiresAt)]))
    case RemoveCode(code) => Ok(s.(codes := OtherCodes(s.codes, code)))
    case SetAvailability(available, message) =>
      Ok(s.(game := s.game.(operatorAvailable := available, message := message)))
    case Observe(isPublic, observedAt) =>
      Ok(s.(game := s.game.(observedPublic := Some(isPublic), observedAt := Some(observedAt))))
    case DisableFeature(feature, reason, expiresAt) =>
      Ok(s.(disablements :=
        OtherDisablements(s.disablements, feature) + [Disablement(feature, reason, expiresAt)]))
    case EnableFeature(feature) => Ok(s.(disablements := OtherDisablements(s.disablements, feature)))
    case SetSchedule(key, nextAt, cadence) =>
      Ok(s.(schedules := OtherSchedules(s.schedules, key) + [Schedule(key, nextAt, cadence)]))
    case SetRelease(version, assets, pageUrl, installerUrl, publishedAt, verifiedAt) =>
      if ReleaseRefusal(s, c).Some? then Err(ReleaseRefusal(s, c).value)
      else
        Ok(s.(release := Some(Release(version, pageUrl, installerUrl, publishedAt)),
              evidence := Some(Evidence(version, assets, verifiedAt)),
              releaseFloor := Some(version)))
    case ClearRelease => Ok(s.(release := None, releaseFloor := Floor(s)))
  }

  // ------------------------------------------------------------------ publishing

  /** The times the server writes are kept in milliseconds. */
  datatype Payload = Payload(
    revision: nat,
    available: bool,
    game: Game,
    schedules: seq<Schedule>,
    release: Option<Release>,
    codes: seq<Code>,
    disablements: seq<Disablement>,
    generatedAt: int,
    expiresAt: int)

  /** What a spelled time means, in milliseconds. */
  type Reading = Text -> int

  predicate StillActive(expiresAt: Option<Text>, now: int, at: Reading) {
    expiresAt.None? || at(expiresAt.value) > now
  }

  function ActiveCodes(codes: seq<Code>, now: int, at: Reading): seq<Code> {
    Filter(codes, (item: Code) => StillActive(item.expiresAt, now, at))
  }

  function ActiveDisablements(items: seq<Disablement>, now: int, at: Reading): seq<Disablement> {
    Filter(items, (item: Disablement) => StillActive(item.expiresAt, now, at))
  }

  const LIFETIME := 10 * 60 * 1000

  function PublishPayload(s: State, now: int, at: Reading): Payload {
    Payload(s.revision, s.game.operatorAvailable && s.game.observedPublic != Some(false), s.game, s.schedules,
            s.release, ActiveCodes(s.codes, now, at), ActiveDisablements(s.disablements, now, at),
            now, now + LIFETIME)
  }

  const MAXIMUM_CODES := 100
  const MAXIMUM_SCHEDULES := 20
  const MAXIMUM_DISABLEMENTS := 15

  predicate WithinSchema(p: Payload) {
    && |p.codes| <= MAXIMUM_CODES
    && |p.schedules| <= MAXIMUM_SCHEDULES
    && |p.disablements| <= MAXIMUM_DISABLEMENTS
  }

  /** Signing parses the snapshot it made, so a payload outside the schema is an error. */
  function Sign(s: State, now: int, at: Reading): Result<Payload, string> {
    var p := PublishPayload(s, now, at);
    if WithinSchema(p) then Ok(p) else Err("Snapshot did not match its schema.")
  }

  // ------------------------------------------------------------------ bounded snapshots

  /** Codes distinct ignoring case, one schedule a key, one disablement a feature. */
  ghost predicate Tidy(s: State) {
    && DistinctBy(s.codes, CodeKey)
    && DistinctBy(s.schedules, KeyOf)
    && DistinctBy(s.disablements, FeatureOf)
  }

  lemma ApplyKeepsTidy(s: State, c: Command)
    requires Tidy(s)
    ensures Apply(s, c).Ok? ==> Tidy(Apply(s, c).value)
  {
    match c {
      case AddCode(code, _) => OtherCodesDistinct(s.codes, code);
      case RemoveCode(code) => OtherCodesDistinct(s.codes, code);
      case DisableFeature(feature, _, _) => OtherDisablementsDistinct(s.disablements, feature);
      case EnableFeature(feature) => OtherDisablementsDistinct(s.disablements, feature);
      case SetSchedule(key, _, _) => OtherSchedulesDistinct(s.schedules, key);
      case _ =>
    }
  }

  lemma OtherCodesDistinct(codes: seq<Code>, code: Text)
    requires DistinctBy(codes, CodeKey)
    ensures DistinctBy(OtherCodes(codes, code), CodeKey)
    ensures forall item :: item in OtherCodes(codes, code) ==> Lower(item.code) != Lower(code)
  {
    FilterKeepsDistinctBy(codes, (item: Code) => Lower(item.code) != Lower(code), CodeKey);
  }

  lemma OtherDisablementsDistinct(items: seq<Disablement>, feature: Feature)
    requires DistinctBy(items, FeatureOf)
    ensures DistinctBy(OtherDisablements(items, feature), FeatureOf)
    ensures forall item :: item in OtherDisablements(items, feature) ==> item.feature != feature
  {
    FilterKeepsDistinctBy(items, (item: Disablement) => item.feature != feature, FeatureOf);
  }

  lemma OtherSchedulesDistinct(items: seq<Schedule>, key: ScheduleKey)
    requires DistinctBy(items, KeyOf)
    ensures DistinctBy(OtherSchedules(items, key), KeyOf)
    ensures forall item :: item in OtherSchedules(items, key) ==> item.key != key
  {
    FilterKeepsDistinctBy(items, (item: Schedule) => item.key != key, KeyOf);
  }

  lemma TidyIsBounded(s: State)
    requires Tidy(s)
    ensures |s.schedules| <= 3
    ensures |s.disablements| <= MAXIMUM_DISABLEMENTS
  {
    var keys := {GoldShopReset, RaidShopReset, ExpeditionShopReset};
    forall x | x in s.schedules ensures KeyOf(x) in keys {
      match x.key { case GoldShopReset => case RaidShopReset => case ExpeditionShopReset => }
    }
    DistinctByCount(s.schedules, KeyOf, keys);
    var features := {
      StoryMode, RaidMode, ChallengeMode, ExpeditionMode, EventMode, CalendarClaim, GoldShop, RaidShop,
      ExpeditionShop, CodeRedeem, GoldMineRefuel, ResourceDrillRefuel, RouteOptimizer, TeamSwap,
      SettingsNormalizer};
    forall x | x in s.disablements ensures FeatureOf(x) in features {
      match x.feature {
        case StoryMode => case RaidMode => case ChallengeMode => case ExpeditionMode => case EventMode =>
        case CalendarClaim => case GoldShop => case RaidShop => case ExpeditionShop => case CodeRedeem =>
        case GoldMineRefuel => case ResourceDrillRefuel => case RouteOptimizer => case TeamSwap =>
        case SettingsNormalizer =>
      }
    }
    DistinctByCount(s.disablements, FeatureOf, features);
  }

  lemma ActiveShrinks(s: State, earlier: int, later: int, at: Reading)
    requires earlier <= later
    ensures |ActiveCodes(s.codes, later, at)| <= |ActiveCodes(s.codes, earlier, at)|
    ensures |ActiveDisablements(s.disablements, later, at)| <= |s.disablements|
  {
    FilterStronger(s.codes, (item: Code) => StillActive(item.expiresAt, later, at),
                   (item: Code) => StillActive(item.expiresAt, earlier, at));
  }

  /** Of a tidy state, only too many active codes can stop signing, and once signed it can be signed ever after. */
  lemma SignedOnceSignedAlways(s: State, earlier: int, later: int, at: Reading)
    requires Tidy(s)
    ensures Sign(s, earlier, at).Ok? <==> |ActiveCodes(s.codes, earlier, at)| <= MAXIMUM_CODES
    ensures earlier <= later && Sign(s, earlier, at).Ok? ==> Sign(s, later, at).Ok?
  {
    TidyIsBounded(s);
    if earlier <= later { ActiveShrinks(s, earlier, later, at); }
    ActiveShrinks(s, earlier, earlier, at);
  }
}
