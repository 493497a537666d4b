/** Commands, actors and replay fingerprints as JSON data, and the proof that the text determines them. */
module CommandText {
  import opened Options
  import opened CanonicalJson
  import opened JsonParser
  import opened JsonCanonicalForm
  import opened Versions
  import opened ControlState

  datatype ActorKind = Discord | Web | ApiKey | System

  datatype Actor = Actor(kind: ActorKind, userId: Text)

  datatype Envelope = Envelope(commandId: Text, expectedRevision: nat, command: Command)

  // ------------------------------------------------------------------ names

  function Chars(s: string): (t: Text)
    ensures |t| == |s|
  {
    seq(|s|, i requires 0 <= i < |s| => if s[i] as int < 0x1_0000 then s[i] as int else 0)
  }

  lemma NamesDiffer(a: string, b: string, i: nat)
    requires |a| == |b| && i < |a| && a[i] != b[i] && a[i] < 'z' && b[i] < 'z'
    ensures Chars(a) != Chars(b)
  {
    assert Chars(a)[i] != Chars(b)[i];
  }

  function TypeName(c: Command): string {
    match c
    case AddCode(_, _) => "code.add"
    case RemoveCode(_) => "code.remove"
    case SetAvailability(_, _) => "game.availability"
    case Observe(_, _) => "game.observation"
    case DisableFeature(_, _, _) => "feature.disable"
    case EnableFeature(_) => "feature.enable"
    case SetSchedule(_, _, _) => "schedule.set"
    case SetRelease(_, _, _, _, _, _) => "release.set"
    case ClearRelease => "release.clear"
  }

  function FeatureName(f: Feature): string {
    match f
    case StoryMode => "mode.story"
    case RaidMode => "mode.raid"
    case ChallengeMode => "mode.challenge"
    case ExpeditionMode => "mode.expedition"
    case EventMode => "mode.event"
    case CalendarClaim => "task.calendar-claim"
    case GoldShop => "task.gold-shop"
    case RaidShop => "task.raid-shop"
    case ExpeditionShop => "task.expedition-shop"
    case CodeRedeem => "task.code-redeem"
    case GoldMineRefuel => "task.gold-mine-refuel"
    case ResourceDrillRefuel => "task.resource-drill-refuel"
    case RouteOptimizer => "feature.route-optimizer"
    case TeamSwap => "feature.team-swap"
    case SettingsNormalizer => "feature.settings-normalizer"
  }

  function ScheduleName(k: ScheduleKey): string {
    match k
    case GoldShopReset => "gold-shop-reset"
    case RaidShopReset => "raid-shop-reset"
    case ExpeditionShopReset => "expedition-shop-reset"
  }

  function KindName(k: ActorKind): string {
    match k
    case Discord => "discord"
    case Web => "web"
    case ApiKey => "api-key"
    case System => "system"
  }

  lemma FeatureNamesDiffer(f: Feature, g: Feature)
    requires f != g
    ensures Chars(FeatureName(f)) != Chars(FeatureName(g))
  {
    hide Chars, FeatureName;
    SameLengthFeatures(f, g);
    if |FeatureName(f)| == |FeatureName(g)| {
      LettersDiffer(f, g);
      NamesDiffer(FeatureName(f), FeatureName(g), if f == ChallengeMode || g == ChallengeMode then 0 else 5);
    } else {
      assert |Chars(FeatureName(f))| != |Chars(FeatureName(g))|;
    }
  }

  lemma LettersDiffer(f: Feature, g: Feature)
    requires f != g && ({f, g} <= {StoryMode, EventMode} || {f, g} <= {ChallengeMode, GoldShop, RaidShop})
    ensures var i := if f == ChallengeMode || g == ChallengeMode then 0 else 5;
      && i < |FeatureName(f)| && i < |FeatureName(g)| && FeatureName(f)[i] != FeatureName(g)[i]
      && FeatureName(f)[i] < 'z' && FeatureName(g)[i] < 'z'
  {
    hide FeatureName;
    assert f in {f, g} && g in {f, g};
    FeatureLetters(f);
    FeatureLetters(g);
  }

  lemma FeatureLetters(f: Feature)
    requires f in {StoryMode, EventMode, ChallengeMode, GoldShop, RaidShop}
    ensures var name := FeatureName(f);
      && |name| > 5 && name[0] == (if f in {GoldShop, RaidShop} then 't' else 'm')
      && name[5] == match f case StoryMode => 's' case EventMode => 'e' case GoldShop => 'g' case RaidShop => 'r' case _ => 'c'
  {
  }

  lemma FeatureLength(f: Feature)
    ensures |FeatureName(f)| == match f
      case StoryMode => 10 case RaidMode => 9 case ChallengeMode => 14 case ExpeditionMode => 15 case EventMode => 10
      case CalendarClaim => 19 case GoldShop => 14 case RaidShop => 14 case ExpeditionShop => 20 case CodeRedeem => 16
      case GoldMineRefuel => 21 case ResourceDrillRefuel => 26 case RouteOptimizer => 23
      case TeamSwap => 17 case SettingsNormalizer => 27
  {
  }

  /** Few feature names are as long as another. */
  lemma SameLengthFeatures(f: Feature, g: Feature)
    requires f != g
    ensures |FeatureName(f)| == |FeatureName(g)| ==>
      {f, g} <= {StoryMode, EventMode} || {f, g} <= {ChallengeMode, GoldShop, RaidShop}
  {
    hide FeatureName;
    FeatureLength(f);
    FeatureLength(g);
  }

  lemma OtherNamesDiffer()
    ensures forall j, k :: Chars(ScheduleName(j)) == Chars(ScheduleName(k)) ==> j == k
    ensures forall j, k :: Chars(KindName(j)) == Chars(KindName(k)) ==> j == k
  {
    NamesDiffer("gold-shop-reset", "raid-shop-reset", 0);
    NamesDiffer("discord", "api-key", 0);
    forall j, k | Chars(ScheduleName(j)) == Chars(ScheduleName(k)) ensures j == k {
      assert |ScheduleName(j)| == |ScheduleName(k)|;
    }
    forall j, k | Chars(KindName(j)) == Chars(KindName(k)) ensures j == k {
      assert |KindName(j)| == |KindName(k)|;
    }
  }

  // ------------------------------------------------------------------ version text

  const DOT: Unit := 46

  function Zeros(n: nat): (t: Text)
    ensures |t| == n
  {
    if n == 0 then [] else [48] + Zeros(n - 1)
  }

  function PartText(p: Part): Text { Zeros(p.zeros) + PrintNat(p.value) }

  function VersionText(v: Version): Text {
    PartText(v.major) + ([DOT] + (PartText(v.minor) + ([DOT] + PartText(v.patch))))
  }

  lemma {:induction false} PartReads(p: Part, rest: Text)
    requires Ends(rest)
    ensures ParseDigits(PartText(p) + rest, 0) == (p.value, rest)
    decreases p.zeros
  {
    if p.zeros == 0 {
      DigitsRoundTrip(p.value, rest);
      assert PartText(p) + rest == PrintNat(p.value) + rest;
    } else {
      var q := Part(p.zeros - 1, p.value);
      PartReads(q, rest);
      assert PartText(p) + rest == [48] + (PartText(q) + rest);
      assert ([48] + (PartText(q) + rest))[1..] == PartText(q) + rest;
    }
  }

  lemma PartsAgree(p: Part, q: Part, rest: Text, rest': Text)
    requires Ends(rest) && Ends(rest') && PartText(p) + rest == PartText(q) + rest'
    ensures p == q && rest == rest'
  {
    hide ParseDigits;
    PartReads(p, rest);
    PartReads(q, rest');
    assert |PartText(p)| == p.zeros + |PrintNat(p.value)| && |PartText(q)| == q.zeros + |PrintNat(q.value)|;
  }

  lemma VersionTextsAgree(v: Version, w: Version)
    requires VersionText(v) == VersionText(w)
    ensures v == w
  {
    hide PartText;
    var minorOn, patchOn := PartText(v.minor) + ([DOT] + PartText(v.patch)), [DOT] + PartText(v.patch);
    var minorOn', patchOn' := PartText(w.minor) + ([DOT] + PartText(w.patch)), [DOT] + PartText(w.patch);
    PartsAgree(v.major, w.major, [DOT] + minorOn, [DOT] + minorOn');
    assert minorOn == ([DOT] + minorOn)[1..] && minorOn' == ([DOT] + minorOn')[1..];
    PartsAgree(v.minor, w.minor, patchOn, patchOn');
    assert PartText(v.patch) == patchOn[1..] && PartText(w.patch) == patchOn'[1..];
    assert PartText(v.patch) + [] == PartText(w.patch) + [];
    PartsAgree(v.patch, w.patch, [], []);
  }

  // ------------------------------------------------------------------ commands as data

  function Field(name: string, value: Value): Member { Member(Chars(name), value) }

  function Named(name: string): Value { Str(Chars(name)) }

  function Optional(t: Option<Text>): Value {
    if t.Some? then Str(t.value) else Null
  }

  function Fields(c: Command): seq<Member> {
    match c
    case AddCode(code, expiresAt) => [Field("code", Str(code)), Field("expiresAt", Optional(expiresAt))]
    case RemoveCode(code) => [Field("code", Str(code))]
    case SetAvailability(available, message) =>
      [Field("available", Bool(available)), Field("message", Optional(message))]
    case Observe(isPublic, observedAt) => [Field("public", Bool(isPublic)), Field("observedAt", Str(observedAt))]
    case DisableFeature(feature, reason, expiresAt) =>
      [Field("feature", Named(FeatureName(feature))), Field("reason", Str(reason)),
       Field("expiresAt", Optional(expiresAt))]
    case EnableFeature(feature) => [Field("feature", Named(FeatureName(feature)))]
    case SetSchedule(key, nextAt, cadence) =>
      [Field("key", Named(ScheduleName(key))), Field("nextAt", Str(nextAt)), Field("cadenceSeconds", Num(cadence))]
    case SetRelease(version, assets, pageUrl, installerUrl, publishedAt, verifiedAt) =>
      [Field("version", Str(VersionText(version))), Field("tag", Str(assets.tag)), Field("pageUrl", Str(pageUrl)),
       Field("installerUrl", Str(installerUrl)), Field("installerSize", Num(assets.installerSize)),
       Field("installerSha256", Str(assets.installerSha256)), Field("sourceCommit", Str(assets.sourceCommit)),
       Field("publishedAt", Str(publishedAt)), Field("verifiedAt", Str(verifiedAt))]
    case ClearRelease => []
  }

  function CommandMembers(c: Command): seq<Member> {
    [Field("type", Named(TypeName(c)))] + Fields(c)
  }

  function CommandData(c: Command): Value { Obj(CommandMembers(c)) }

  predicate AllAtoms(ms: seq<Member>) {
    forall i :: 0 <= i < |ms| ==> ms[i].value.Null? || ms[i].value.Bool? || ms[i].value.Num? || ms[i].value.Str?
  }

  lemma CommandMembersShape(c: Command)
    ensures AllAtoms(CommandMembers(c)) && DistinctKeys(CommandMembers(c))
  {
    hide VersionText, FeatureName, ScheduleName, TypeName, Chars;
    if c.SetRelease? {
      ReleaseMembersShape(c);
    } else {
      assert |CommandMembers(c)| <= 4;
      NamesDiffer("type", "code", 0);
    }
  }

  lemma ReleaseMembersShape(c: Command)
    requires c.SetRelease?
    ensures AllAtoms(CommandMembers(c)) && DistinctKeys(CommandMembers(c))
  {
    hide VersionText, FeatureName, ScheduleName, TypeName, Chars;
    NamesDiffer("version", "pageUrl", 0);
    NamesDiffer("installerUrl", "sourceCommit", 0);
    var ms := CommandMembers(c);
    assert |ms| == 10;
    assert |ms[0].key| == 4 && |ms[1].key| == 7 && |ms[2].key| == 3 && |ms[3].key| == 7 && |ms[4].key| == 12;
    assert |ms[5].key| == 13 && |ms[6].key| == 15 && |ms[7].key| == 12 && |ms[8].key| == 11 && |ms[9].key| == 10;
  }

  lemma CommandIsData(c: Command)
    ensures IsData(CommandData(c)) && Supported(CommandData(c))
  {
    hide CommandMembers;
    CommandMembersShape(c);
  }

  lemma MatchingMember(ms: seq<Member>, ns: seq<Member>, i: nat) returns (j: nat)
    requires SameData(Obj(ms), Obj(ns)) && i < |ms|
    ensures j < |ns| && ms[i].key == ns[j].key && SameData(ms[i].value, ns[j].value)
  {
    j :| 0 <= j < |ns| && ms[i].key == ns[j].key && SameData(ms[i].value, ns[j].value);
  }

  lemma SamePlace(ns: seq<Member>, i: nat, j: nat)
    requires DistinctKeys(ns) && i < |ns| && j < |ns| && ns[i].key == ns[j].key
    ensures i == j
  {
  }

  lemma SameAtoms(a: Value, b: Value)
    requires SameData(a, b) && !a.Arr? && !a.Obj?
    ensures a == b
  {
  }

  /** Objects with the same keys in the same places hold the same data only if they agree place by place. */
  lemma SameLayout(ms: seq<Member>, ns: seq<Member>, i: nat)
    requires i < |ms| == |ns| && DistinctKeys(ns) && ms[i].key == ns[i].key
    requires SameData(Obj(ms), Obj(ns))
    ensures SameData(ms[i].value, ns[i].value)
  {
    hide SameData, DistinctKeys;
    var j := MatchingMember(ms, ns, i);
    SamePlace(ns, i, j);
  }

  lemma SameType(a: Command, b: Command)
    requires SameData(CommandData(a), CommandData(b))
    ensures Chars(TypeName(a)) == Chars(TypeName(b))
  {
    hide Fields, TypeName, SameData, DistinctKeys, Chars;
    var ms, ns := CommandMembers(a), CommandMembers(b);
    CommandMembersShape(b);
    var j := MatchingMember(ms, ns, 0);
    SamePlace(ns, 0, j);
    SameAtoms(ms[0].value, ns[0].value);
  }

  lemma TypeNamesDiffer(a: Command, b: Command)
    requires Chars(TypeName(a)) == Chars(TypeName(b))
    ensures TypeName(a) == TypeName(b)
  {
    NamesDiffer("code.remove", "release.set", 0);
    assert |TypeName(a)| == |TypeName(b)|;
  }

  lemma SameFields(a: Command, b: Command)
    requires |Fields(a)| == |Fields(b)|
    requires forall i :: 0 <= i < |Fields(a)| ==> Fields(a)[i].key == Fields(b)[i].key
    requires SameData(CommandData(a), CommandData(b))
    ensures Fields(a) == Fields(b)
  {
    hide Fields, SameData, DistinctKeys;
    CommandMembersShape(a);
    CommandMembersShape(b);
    forall i | 0 <= i < |Fields(a)| ensures Fields(a)[i] == Fields(b)[i] {
      SameField(a, b, i);
    }
  }

  lemma SameField(a: Command, b: Command, i: nat)
    requires i < |Fields(a)| == |Fields(b)| && Fields(a)[i].key == Fields(b)[i].key
    requires SameData(CommandData(a), CommandData(b))
    requires AllAtoms(CommandMembers(a)) && DistinctKeys(CommandMembers(b))
    ensures Fields(a)[i] == Fields(b)[i]
  {
    hide Fields, SameData, DistinctKeys;
    var ms, ns := CommandMembers(a), CommandMembers(b);
    assert ms[i + 1] == Fields(a)[i] && ns[i + 1] == Fields(b)[i];
    SameLayout(ms, ns, i + 1);
    SameAtoms(ms[i + 1].value, ns[i + 1].value);
  }

  lemma SameTypeSameKeys(a: Command, b: Command)
    requires TypeName(a) == TypeName(b)
    ensures |Fields(a)| == |Fields(b)|
    ensures forall i :: 0 <= i < |Fields(a)| ==> Fields(a)[i].key == Fields(b)[i].key
  {
    hide VersionText, FeatureName, ScheduleName, Chars;
  }

  function FieldValue(c: Command, i: nat): Value {
    if i < |Fields(c)| then Fields(c)[i].value else Null
  }

  lemma FieldsDetermine(a: Command, b: Command)
    requires TypeName(a) == TypeName(b) && Fields(a) == Fields(b)
    ensures a == b
  {
    hide VersionText, FeatureName, ScheduleName, Chars;
    OtherNamesDiffer();
    assert FieldValue(a, 0) == FieldValue(b, 0);
    assert FieldValue(a, 1) == FieldValue(b, 1);
    assert FieldValue(a, 2) == FieldValue(b, 2);
    match a {
      case SetRelease(_, _, _, _, _, _) => ReleaseFieldsDetermine(a, b);
      case DisableFeature(f, _, _) => if f != b.feature { FeatureNamesDiffer(f, b.feature); }
      case EnableFeature(f) => if f != b.feature { FeatureNamesDiffer(f, b.feature); }
      case _ =>
    }
  }

  lemma ReleaseFieldsDetermine(a: Command, b: Command)
    requires a.SetRelease? && b.SetRelease? && Fields(a) == Fields(b)
    ensures a == b
  {
    hide VersionText, Chars;
    var f, g := Fields(a), Fields(b);
    assert f[0].value == g[0].value && f[1].value == g[1].value && f[2].value == g[2].value;
    assert f[3].value == g[3].value && f[4].value == g[4].value && f[5].value == g[5].value;
    assert f[6].value == g[6].value && f[7].value == g[7].value && f[8].value == g[8].value;
    VersionTextsAgree(a.version, b.version);
  }

  /** A command can be told from its data, in whatever order the keys are stored. */
  lemma DataDeterminesCommand(a: Command, b: Command)
    ensures SameData(CommandData(a), CommandData(b)) <==> a == b
  {
    hide CommandData, Fields, TypeName;
    if SameData(CommandData(a), CommandData(b)) {
      SameType(a, b);
      TypeNamesDiffer(a, b);
      SameTypeSameKeys(a, b);
      SameFields(a, b);
      FieldsDetermine(a, b);
    }
    CommandIsData(a);
    EqualTextsMeanEqualData(CommandData(a), CommandData(a));
  }

  // ------------------------------------------------------------------ fingerprints

  function ActorData(actor: Actor): Value {
    Obj([Field("kind", Named(KindName(actor.kind))), Field("userId", Str(actor.userId))])
  }

  function RequestMembers(actor: Actor, expectedRevision: nat, command: Value): seq<Member> {
    [Field("actor", ActorData(actor)), Field("expectedRevision", Num(expectedRevision)), Field("command", command)]
  }

  function FingerprintData(actor: Actor, envelope: Envelope): Value {
    Obj(RequestMembers(actor, envelope.expectedRevision, CommandData(envelope.command)))
  }

  lemma ActorIsData(actor: Actor)
    ensures IsData(ActorData(actor)) && Supported(ActorData(actor))
  {
    hide KindName, Chars;
    var ms := ActorData(actor).members;
    assert |ms[0].key| == 4 && |ms[1].key| == 6;
    assert ms[0].value.Str? && ms[1].value.Str?;
  }

  lemma FingerprintIsData(actor: Actor, envelope: Envelope)
    ensures IsData(FingerprintData(actor, envelope)) && Supported(FingerprintData(actor, envelope))
  {
    hide CommandData, ActorData, Chars;
    CommandIsData(envelope.command);
    ActorIsData(actor);
    var ms := RequestMembers(actor, envelope.expectedRevision, CommandData(envelope.command));
    assert |ms[0].key| == 5 && |ms[1].key| == 16 && |ms[2].key| == 7;
  }

  /** replayFingerprint: the canonical text of actor, expected revision and command. */
  function Fingerprint(actor: Actor, envelope: Envelope): Text {
    FingerprintIsData(actor, envelope);
    CanonicalText(FingerprintData(actor, envelope)).value
  }

  lemma SameActorData(a: Actor, b: Actor)
    requires SameData(ActorData(a), ActorData(b))
    ensures a == b
  {
    hide KindName, SameData, Chars;
    var ms, ns := ActorData(a).members, ActorData(b).members;
    assert |ns[0].key| == 4 && |ns[1].key| == 6;
    SameLayout(ms, ns, 0);
    SameLayout(ms, ns, 1);
    SameAtoms(ms[0].value, ns[0].value);
    SameAtoms(ms[1].value, ns[1].value);
    OtherNamesDiffer();
  }

  lemma SameRequest(a: Actor, e: Envelope, b: Actor, f: Envelope)
    requires SameData(FingerprintData(a, e), FingerprintData(b, f))
    ensures a == b && e.expectedRevision == f.expectedRevision && e.command == f.command
  {
    hide CommandData, ActorData, SameData, Chars;
    var ms := RequestMembers(a, e.expectedRevision, CommandData(e.command));
    var ns := RequestMembers(b, f.expectedRevision, CommandData(f.command));
    assert |ns[0].key| == 5 && |ns[1].key| == 16 && |ns[2].key| == 7;
    SameLayout(ms, ns, 0);
    SameLayout(ms, ns, 1);
    SameLayout(ms, ns, 2);
    SameActorData(a, b);
    SameAtoms(ms[1].value, ns[1].value);
    DataDeterminesCommand(e.command, f.command);
  }

  /** Fingerprints agree exactly when actor, expected revision and command do; the command id has no part in it. */
  lemma FingerprintsAgree(a: Actor, e: Envelope, b: Actor, f: Envelope)
    ensures Fingerprint(a, e) == Fingerprint(b, f) <==>
      a == b && e.expectedRevision == f.expectedRevision && e.command == f.command
  {
    hide FingerprintData;
    FingerprintIsData(a, e);
    FingerprintIsData(b, f);
    EqualTextsMeanEqualData(FingerprintData(a, e), FingerprintData(b, f));
    if Fingerprint(a, e) == Fingerprint(b, f) {
      SameRequest(a, e, b, f);
    }
    if a == b && e.expectedRevision == f.expectedRevision && e.command == f.command {
      SameParts(a, e, f);
    }
  }

  lemma SameParts(a: Actor, e: Envelope, f: Envelope)
    requires e.expectedRevision == f.expectedRevision && e.command == f.command
    ensures FingerprintData(a, e) == FingerprintData(a, f)
  {
  }
}
