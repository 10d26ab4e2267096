/**
  Verification policies: validation, appraisal of claims, and the difference of
  two policies (policy/src/schema.rs, appraise.rs, diff.rs), and when their three
  readings of the allow list agree.
 */
module Policy {
  import opened Encoding
  import opened Text

  datatype EvidenceProfile =
    | UqEat | AzureSnpBundle | AzureAttestedTls | AndroidKeyAttestation
    | IosAppAttest | DesktopTpmClient | MacOsAppAttest

  datatype RegistryMinimum = Recommended | Deprecated {
    predicate Accepts(status: string) {
      status == "recommended" || (Deprecated? && status == "deprecated")
    }
  }

  datatype TrustTier = SoftwareWitness | RelayInherited | DeviceAttested | SiliconCvm {
    function Rank(): nat {
      match this
      case SoftwareWitness => 0
      case RelayInherited => 1
      case DeviceAttested => 2
      case SiliconCvm => 3
    }

    predicate Accepts(actual: TrustTier) { actual.Rank() >= Rank() }
  }

  function TierFromLabel(text: string): Option<TrustTier> {
    if text == "software-witness" then Some(SoftwareWitness)
    else if text == "relay-inherited" then Some(RelayInherited)
    else if text == "device-attested" then Some(DeviceAttested)
    else if text == "silicon-cvm" then Some(SiliconCvm)
    else None
  }

  datatype ClassSpec = ClassSpec(name: string, version: u32)

  datatype AllowEntry = AllowEntry(measurement: Option<Bytes>, appIdHash: Option<Bytes>)

  datatype VerificationPolicy = VerificationPolicy(
    version: u32, id: string, validUntil: Option<int>, profile: EvidenceProfile, class_: ClassSpec,
    registryMinimum: RegistryMinimum, minTier: TrustTier, allowedTierDetails: seq<string>,
    allow: seq<AllowEntry>, requireIma: bool, bootAggregates: seq<string>, ekRoots: seq<string>,
    activationKeys: seq<string>, notes: Option<string>)

  // ---- Validation ----

  datatype PolicyError =
    | UnsupportedVersion | EmptyId | EmptyClassName | EmptyAllow
    | BlankTierDetail(i: nat) | NotExactlyOne(i: nat) | WrongField(i: nat)
    | DesktopFieldsElsewhere | NoEkRoots | NoActivationKeys
    | BadBootAggregate(i: nat) | BadEkRoot(i: nat) | BadActivationKey(i: nat)

  predicate NonEmpty(b: Option<Bytes>) { b.Some? && |b.value| > 0 }

  predicate WantsAppId(profile: EvidenceProfile) {
    profile.AndroidKeyAttestation? || profile.IosAppAttest? || profile.MacOsAppAttest?
  }

  function FirstBlank(details: seq<string>, i: nat): (r: Option<nat>)
    ensures r.Some? ==> i <= r.value < |details| && Trim(details[r.value]) == ""
    ensures forall j :: i <= j < (if r.Some? then r.value else |details|) ==> Trim(details[j]) != ""
    decreases |details| - i
  {
    if i >= |details| then None
    else if Trim(details[i]) == "" then Some(i)
    else FirstBlank(details, i + 1)
  }

  /** The entry carries exactly the one non-empty identity that the profile calls for. */
  predicate EntryFits(e: AllowEntry, profile: EvidenceProfile) {
    NonEmpty(e.measurement) == !WantsAppId(profile) && NonEmpty(e.appIdHash) == WantsAppId(profile)
  }

  function FirstBadEntry(allow: seq<AllowEntry>, profile: EvidenceProfile, i: nat): (r: Option<PolicyError>)
    ensures r == None <==> forall j :: i <= j < |allow| ==> EntryFits(allow[j], profile)
    decreases |allow| - i
  {
    if i >= |allow| then None
    else
      var hasM, hasA := NonEmpty(allow[i].measurement), NonEmpty(allow[i].appIdHash);
      if hasM == hasA then Some(NotExactlyOne(i))
      else if (if WantsAppId(profile) then !hasA else !hasM) then Some(WrongField(i))
      else FirstBadEntry(allow, profile, i + 1)
  }

  /** 32 bytes in hexadecimal, perhaps padded. */
  predicate IsHex32(text: string) {
    HexDecode(Trim(text)).Some? && |HexDecode(Trim(text)).value| == 32
  }

  /** The first text that is not 32 bytes in hexadecimal. */
  function FirstBadHex(texts: seq<string>, i: nat): (r: Option<nat>)
    ensures r.Some? ==> i <= r.value < |texts| && !IsHex32(texts[r.value])
    ensures forall j :: i <= j < (if r.Some? then r.value else |texts|) ==> IsHex32(texts[j])
    decreases |texts| - i
  {
    if i >= |texts| then None
    else
      var b := HexDecode(Trim(texts[i]));
      if b.None? || |b.value| != 32 then Some(i) else FirstBadHex(texts, i + 1)
  }

  function Validate(p: VerificationPolicy): Result<(), PolicyError> {
    var blank := FirstBlank(p.allowedTierDetails, 0);
    var entry := FirstBadEntry(p.allow, p.profile, 0);
    var desktop := p.requireIma || |p.bootAggregates| > 0 || |p.ekRoots| > 0 || |p.activationKeys| > 0;
    if p.version != 1 then Err(UnsupportedVersion)
    else if |p.id| == 0 then Err(EmptyId)
    else if |p.class_.name| == 0 then Err(EmptyClassName)
    else if |p.allow| == 0 then Err(EmptyAllow)
    else if blank.Some? then Err(BlankTierDetail(blank.value))
    else if entry.Some? then Err(entry.value)
    else if desktop && !p.profile.DesktopTpmClient? then Err(DesktopFieldsElsewhere)
    else if p.profile.DesktopTpmClient? && |p.ekRoots| == 0 then Err(NoEkRoots)
    else if p.profile.DesktopTpmClient? && |p.activationKeys| == 0 then Err(NoActivationKeys)
    else if FirstBadHex(p.bootAggregates, 0).Some? then Err(BadBootAggregate(FirstBadHex(p.bootAggregates, 0).value))
    else if FirstBadHex(p.ekRoots, 0).Some? then Err(BadEkRoot(FirstBadHex(p.ekRoots, 0).value))
    else if FirstBadHex(p.activationKeys, 0).Some? then Err(BadActivationKey(FirstBadHex(p.activationKeys, 0).value))
    else Ok(())
  }

  /** A valid policy has entries, and each carries exactly the one non-empty identity its profile calls for. */
  lemma ValidEntries(p: VerificationPolicy, k: nat)
    requires Validate(p).Ok? && k < |p.allow|
    ensures NonEmpty(p.allow[k].measurement) == !WantsAppId(p.profile)
    ensures NonEmpty(p.allow[k].appIdHash) == WantsAppId(p.profile)
  {
    assert EntryFits(p.allow[k], p.profile);
  }

  /** Trust roots belong to the desktop profile, which needs both kinds; each is 32 bytes in hexadecimal. */
  predicate TrustRootsFit(p: VerificationPolicy) {
    (if p.profile == DesktopTpmClient then |p.ekRoots| > 0 && |p.activationKeys| > 0
     else !p.requireIma && p.bootAggregates == [] && p.ekRoots == [] && p.activationKeys == [])
    && forall t :: t in p.bootAggregates + p.ekRoots + p.activationKeys ==> IsHex32(t)
  }

  /** The valid policies, without an order of checks: the error paths together refuse exactly the others. */
  lemma ValidIff(p: VerificationPolicy)
    ensures Validate(p).Ok? <==>
            p.version == 1 && p.id != "" && p.class_.name != "" && p.allow != []
            && (forall d :: d in p.allowedTierDetails ==> Trim(d) != "")
            && (forall e :: e in p.allow ==> EntryFits(e, p.profile))
            && TrustRootsFit(p)
  {
    hide Trim, HexDecode, NonEmpty, WantsAppId;
    var roots := p.bootAggregates + p.ekRoots + p.activationKeys;
    HexListsChecked(p);
    assert (forall d :: d in p.allowedTierDetails ==> Trim(d) != "")
      <==> FirstBlank(p.allowedTierDetails, 0) == None;
    assert (forall e :: e in p.allow ==> EntryFits(e, p.profile)) <==> FirstBadEntry(p.allow, p.profile, 0) == None;
  }

  lemma HexListsChecked(p: VerificationPolicy)
    ensures (FirstBadHex(p.bootAggregates, 0) == None && FirstBadHex(p.ekRoots, 0) == None
             && FirstBadHex(p.activationKeys, 0) == None)
       <==> forall t :: t in p.bootAggregates + p.ekRoots + p.activationKeys ==> IsHex32(t)
  {
    hide IsHex32;
    HexListChecked(p.bootAggregates);
    HexListChecked(p.ekRoots);
    HexListChecked(p.activationKeys);
  }

  lemma HexListChecked(texts: seq<string>)
    ensures FirstBadHex(texts, 0) == None <==> forall t :: t in texts ==> IsHex32(t)
  {
    hide IsHex32;
  }

  // ---- The three readings of the allow list ----

  /** The identity that `measurement_class` and `diff` take from an entry. */
  function EntryId(e: AllowEntry): Option<Bytes> {
    if e.measurement.Some? then e.measurement else e.appIdHash
  }

  function ClassIds(p: VerificationPolicy): set<Bytes> {
    set e | e in p.allow && EntryId(e).Some? :: EntryId(e).value
  }

  function DiffIds(p: VerificationPolicy): set<string> {
    set e | e in p.allow && EntryId(e).Some? :: HexEncode(EntryId(e).value)
  }

  /** The reference check of `appraise`. */
  predicate InAllow(p: VerificationPolicy, id: Bytes) {
    exists e :: e in p.allow && (e.measurement == Some(id) || e.appIdHash == Some(id))
  }

  predicate OneFieldPresent(p: VerificationPolicy) {
    forall e :: e in p.allow ==> e.measurement.Some? != e.appIdHash.Some?
  }

  lemma DiffReadsClass(p: VerificationPolicy, id: Bytes)
    ensures HexEncode(id) in DiffIds(p) <==> id in ClassIds(p)
  {
    hide HexEncode, HexDecode;
    if HexEncode(id) in DiffIds(p) {
      var e :| e in p.allow && EntryId(e).Some? && HexEncode(EntryId(e).value) == HexEncode(id);
      HexRoundTrip(id);
      HexRoundTrip(EntryId(e).value);
    }
    if id in ClassIds(p) {
      var e :| e in p.allow && EntryId(e).Some? && EntryId(e).value == id;
      assert HexEncode(EntryId(e).value) in DiffIds(p);
    }
  }

  lemma ClassInAllow(p: VerificationPolicy, id: Bytes)
    requires id in ClassIds(p)
    ensures InAllow(p, id)
  {
    var e :| e in p.allow && EntryId(e).Some? && EntryId(e).value == id;
    assert e in p.allow && (e.measurement == Some(id) || e.appIdHash == Some(id));
  }

  /**
    The reference check and the class denote the same identities exactly when every
    entry with both fields has its app id as the class identity of some entry.
   */
  lemma ViewsAgreeIff(p: VerificationPolicy)
    ensures (forall id: Bytes :: InAllow(p, id) <==> id in ClassIds(p))
       <==> (forall e :: e in p.allow && e.measurement.Some? && e.appIdHash.Some? ==>
               e.appIdHash.value in ClassIds(p))
  {
    if forall e :: e in p.allow && e.measurement.Some? && e.appIdHash.Some? ==> e.appIdHash.value in ClassIds(p) {
      forall id: Bytes ensures InAllow(p, id) <==> id in ClassIds(p) {
        if id in ClassIds(p) {
          ClassInAllow(p, id);
        }
        if InAllow(p, id) {
          var e :| e in p.allow && (e.measurement == Some(id) || e.appIdHash == Some(id));
          if e.measurement == Some(id) || e.measurement.None? {
            assert EntryId(e) == Some(id);
          }
        }
      }
    } else {
      var e :| e in p.allow && e.measurement.Some? && e.appIdHash.Some? && e.appIdHash.value !in ClassIds(p);
      assert InAllow(p, e.appIdHash.value);
    }
  }

  /** With exactly one field present in every entry, the three readings agree. */
  lemma ViewsAgree(p: VerificationPolicy, id: Bytes)
    requires OneFieldPresent(p)
    ensures InAllow(p, id) <==> id in ClassIds(p)
    ensures InAllow(p, id) <==> HexEncode(id) in DiffIds(p)
  {
    hide HexEncode;
    ViewsAgreeIff(p);
    DiffReadsClass(p, id);
  }

  // ---- Difference ----

  datatype PolicyDiff = PolicyDiff(
    sameClass: bool, sameProfile: bool, sameMinTier: bool, sameTierDetails: bool,
    validUntilChanged: bool, addedAllow: set<string>, removedAllow: set<string>, notesChanged: bool)
  {
    predicate IsEmpty() {
      sameClass && sameProfile && sameMinTier && sameTierDetails && !validUntilChanged
      && addedAllow == {} && removedAllow == {} && !notesChanged
    }
  }

  function Diff(left: VerificationPolicy, right: VerificationPolicy): PolicyDiff {
    PolicyDiff(
      left.class_.name == right.class_.name && left.class_.version == right.class_.version,
      left.profile == right.profile,
      left.minTier == right.minTier,
      left.allowedTierDetails == right.allowedTierDetails,
      left.validUntil != right.validUntil,
      DiffIds(right) - DiffIds(left),
      DiffIds(left) - DiffIds(right),
      left.notes != right.notes)
  }

  /**
    What the difference reports: an identity is added when the right class alone has
    it, and removed when the left class alone has it; and applying both to the left
    identities gives the right ones.
   */
  lemma DiffReports(left: VerificationPolicy, right: VerificationPolicy, id: Bytes)
    ensures HexEncode(id) in Diff(left, right).addedAllow <==> id in ClassIds(right) && id !in ClassIds(left)
    ensures HexEncode(id) in Diff(left, right).removedAllow <==> id in ClassIds(left) && id !in ClassIds(right)
    ensures DiffIds(left) - Diff(left, right).removedAllow + Diff(left, right).addedAllow == DiffIds(right)
  {
    hide HexEncode, ClassIds, DiffIds;
    DiffReadsClass(left, id);
    DiffReadsClass(right, id);
  }

  /** The difference is empty exactly when everything it looks at is equal, entries by the identities of the class. */
  lemma EmptyDiffMeans(left: VerificationPolicy, right: VerificationPolicy)
    ensures Diff(left, right).IsEmpty() <==>
            left.class_ == right.class_ && left.profile == right.profile && left.minTier == right.minTier
            && left.allowedTierDetails == right.allowedTierDetails && left.validUntil == right.validUntil
            && left.notes == right.notes && ClassIds(left) == ClassIds(right)
  {
    hide HexEncode, ClassIds;
    if DiffIds(left) == DiffIds(right) {
      forall id ensures id in ClassIds(left) <==> id in ClassIds(right) {
        DiffReadsClass(left, id);
        DiffReadsClass(right, id);
      }
      assert ClassIds(left) == ClassIds(right);
    }
    if ClassIds(left) == ClassIds(right) {
      DiffIdsOfClass(left);
      DiffIdsOfClass(right);
    }
    assert DiffIds(left) - DiffIds(right) == {} && DiffIds(right) - DiffIds(left) == {}
      <==> DiffIds(left) == DiffIds(right);
  }

  lemma DiffIdsOfClass(p: VerificationPolicy)
    ensures DiffIds(p) == set id | id in ClassIds(p) :: HexEncode(id)
  {
    hide HexEncode;
    var printed := set id | id in ClassIds(p) :: HexEncode(id);
    forall x | x in DiffIds(p) ensures x in printed {
      var e :| e in p.allow && EntryId(e).Some? && HexEncode(EntryId(e).value) == x;
      assert EntryId(e).value in ClassIds(p);
    }
    forall x | x in printed ensures x in DiffIds(p) {
      var id :| id in ClassIds(p) && HexEncode(id) == x;
      DiffReadsClass(p, id);
    }
  }

  // ---- Appraisal ----

  datatype CheckId =
    | PolicyNotExpired | ProfileMatch | BindingOk | ReferenceValueMatch
    | RegistryStatus | MinTier | TierDetailAllowed

  datatype Claims = Claims(
    profile: EvidenceProfile, platform: string, measurement: Option<Bytes>, appIdHash: Option<Bytes>,
    bindingOk: bool, imaVerified: bool, registryStatus: Option<string>)

  datatype Appraised = Appraised(platform: string, valueX: Bytes, imaVerified: bool)

  datatype AppraisalResult = AppraisalResult(
    pass: bool, policyId: string, classLabel: string, tier: string, tierDetail: string,
    notes: Option<string>, checks: seq<(CheckId, bool)>, measurement: Option<Appraised>, reason: Option<CheckId>)

  /** `assurance_tier` belongs to another library. */
  type TierOf = (string, bool) -> (string, string)

  function Identity(c: Claims): Option<Bytes> {
    if c.measurement.Some? then c.measurement else c.appIdHash
  }

  /** What each check means. */
  predicate Holds(p: VerificationPolicy, c: Claims, now: int, tierOf: TierOf, check: CheckId) {
    match check
    case PolicyNotExpired => p.validUntil.None? || now <= p.validUntil.value
    case ProfileMatch => c.profile == p.profile
    case BindingOk => c.bindingOk
    case ReferenceValueMatch => Identity(c).Some? && InAllow(p, Identity(c).value)
    case RegistryStatus => c.registryStatus.None? || p.registryMinimum.Accepts(c.registryStatus.value)
    case MinTier =>
      var actual := TierFromLabel(tierOf(c.platform, c.imaVerified).0);
      actual.Some? && p.minTier.Accepts(actual.value)
    case TierDetailAllowed =>
      |p.allowedTierDetails| == 0 || tierOf(c.platform, c.imaVerified).1 in p.allowedTierDetails
  }

  /** The tiers and their labels, in ascending order. */
  const TIERS: seq<TrustTier> := [SoftwareWitness, RelayInherited, DeviceAttested, SiliconCvm]
  const LABELS: seq<string> := ["software-witness", "relay-inherited", "device-attested", "silicon-cvm"]

  /** The label names a tier at or above the minimum. */
  ghost predicate AtOrAbove(minimum: TrustTier, text: string) {
    exists i, j :: 0 <= i <= j < 4 && TIERS[i] == minimum && LABELS[j] == text
  }

  /** The tier check passes exactly at and above the minimum, and never for an unknown label. */
  lemma TierLadder(p: VerificationPolicy, c: Claims, now: int, tierOf: TierOf)
    ensures Holds(p, c, now, tierOf, MinTier) <==> AtOrAbove(p.minTier, tierOf(c.platform, c.imaVerified).0)
  {
    var text := tierOf(c.platform, c.imaVerified).0;
    LabelsDiffer();
    assert TIERS[0] == SoftwareWitness && TIERS[1] == RelayInherited;
    assert TIERS[2] == DeviceAttested && TIERS[3] == SiliconCvm;
    if text in LABELS {
      var j :| 0 <= j < 4 && LABELS[j] == text;
      assert TierFromLabel(text) == Some(TIERS[j]);
      var i :| 0 <= i < 4 && TIERS[i] == p.minTier;
      assert Holds(p, c, now, tierOf, MinTier) <==> i <= j;
    } else {
      assert LABELS[0] in LABELS && LABELS[1] in LABELS && LABELS[2] in LABELS && LABELS[3] in LABELS;
    }
  }

  lemma LabelsDiffer()
    ensures forall i, j :: 0 <= i < j < 4 ==> LABELS[i] != LABELS[j]
  {
    assert LABELS[0][0] != LABELS[1][0] && LABELS[0][0] != LABELS[2][0] && LABELS[1][0] != LABELS[2][0];
    assert |LABELS[3]| == 11 && |LABELS[0]| != 11 && |LABELS[1]| != 11 && |LABELS[2]| != 11;
  }

  /** `appraise` passes. */
  ghost predicate Passes(p: VerificationPolicy, c: Claims, now: int, tierOf: TierOf) {
    forall check: CheckId :: Holds(p, c, now, tierOf, check)
  }

  /** A policy passes claims up to its last instant and not after it. */
  lemma PassesUntilExpiry(p: VerificationPolicy, c: Claims, now: int, later: int, tierOf: TierOf)
    requires now <= later
    ensures Passes(p, c, later, tierOf) ==> Passes(p, c, now, tierOf)
    ensures p.validUntil.None? ==> (Passes(p, c, now, tierOf) ==> Passes(p, c, later, tierOf))
    ensures p.validUntil.Some? ==>
              !Passes(p, c, p.validUntil.value + 1, tierOf)
              && (Passes(p, c, now, tierOf) ==> Passes(p, c, p.validUntil.value, tierOf))
  {
    if Passes(p, c, later, tierOf) {
      assert Holds(p, c, later, tierOf, PolicyNotExpired);
      PassesAt(p, c, later, now, tierOf);
    }
    if Passes(p, c, now, tierOf) {
      if p.validUntil.None? {
        PassesAt(p, c, now, later, tierOf);
      } else {
        PassesAt(p, c, now, p.validUntil.value, tierOf);
      }
    }
    assert p.validUntil.Some? ==> !Holds(p, c, p.validUntil.value + 1, tierOf, PolicyNotExpired);
  }

  lemma PassesAt(p: VerificationPolicy, c: Claims, now: int, other: int, tierOf: TierOf)
    requires Passes(p, c, now, tierOf) && (p.validUntil.Some? ==> other <= p.validUntil.value)
    ensures Passes(p, c, other, tierOf)
  {
    hide InAllow, TierFromLabel, TrustTier.Accepts, RegistryMinimum.Accepts;
    forall check: CheckId ensures Holds(p, c, other, tierOf, check) {
      assert Holds(p, c, now, tierOf, check);
    }
  }

  /** Raising the minimum tier only removes accepted claims: it keeps those at or above it. */
  lemma RaisingTierOnlyRemoves(p: VerificationPolicy, i: nat, j: nat, c: Claims, now: int, tierOf: TierOf)
    requires i <= j < 4
    ensures var low, high := p.(minTier := TIERS[i]), p.(minTier := TIERS[j]);
            Passes(high, c, now, tierOf) <==>
            Passes(low, c, now, tierOf) && AtOrAbove(TIERS[j], tierOf(c.platform, c.imaVerified).0)
  {
    var low, high := p.(minTier := TIERS[i]), p.(minTier := TIERS[j]);
    TierLadder(low, c, now, tierOf);
    TierLadder(high, c, now, tierOf);
    HigherIsHarder(i, j, tierOf(c.platform, c.imaVerified).0);
    hide AtOrAbove, TierFromLabel, TrustTier.Accepts, RegistryMinimum.Accepts;
    forall check: CheckId | check != MinTier
      ensures Holds(low, c, now, tierOf, check) <==> Holds(high, c, now, tierOf, check)
    {
    }
    hide Holds;
    assert Passes(high, c, now, tierOf) ==> Holds(high, c, now, tierOf, MinTier);
    assert Passes(low, c, now, tierOf) ==> Holds(low, c, now, tierOf, MinTier);
  }

  lemma HigherIsHarder(i: nat, j: nat, text: string)
    requires i <= j < 4
    ensures AtOrAbove(TIERS[j], text) ==> AtOrAbove(TIERS[i], text)
  {
    if k, m :| 0 <= k <= m < 4 && TIERS[k] == TIERS[j] && LABELS[m] == text {
      assert k == j;
      assert i <= m && TIERS[i] == TIERS[i];
    }
  }

  /**
    Which registry statuses pass: none given, "recommended" under either minimum,
    and "deprecated" under the lower one only.
   */
  lemma RegistryLadder(p: VerificationPolicy, c: Claims, now: int, tierOf: TierOf)
    ensures Holds(p, c, now, tierOf, RegistryStatus) <==>
            c.registryStatus in {None, Some("recommended")}
            || (c.registryStatus == Some("deprecated") && p.registryMinimum != Recommended)
  {
  }

  /** An empty list of tier details admits every detail, and each further entry admits one more. */
  lemma DetailsWiden(p: VerificationPolicy, d: string, c: Claims, now: int, tierOf: TierOf)
    ensures p.allowedTierDetails == [] ==> Holds(p, c, now, tierOf, TierDetailAllowed)
    ensures p.allowedTierDetails != [] ==>
              var wider := p.(allowedTierDetails := p.allowedTierDetails + [d]);
              Holds(wider, c, now, tierOf, TierDetailAllowed) <==>
              Holds(p, c, now, tierOf, TierDetailAllowed) || tierOf(c.platform, c.imaVerified).1 == d
  {
  }

  /** A claim is matched by its measurement, and only without one by its app id; with neither it is refused. */
  lemma ReferenceReads(p: VerificationPolicy, c: Claims, now: int, tierOf: TierOf)
    ensures Holds(p, c, now, tierOf, ReferenceValueMatch) <==>
            (c.measurement.Some? && InAllow(p, c.measurement.value))
            || (c.measurement.None? && c.appIdHash.Some? && InAllow(p, c.appIdHash.value))
  {
  }

  function FirstFailed(checks: seq<(CheckId, bool)>): Option<CheckId> {
    if |checks| == 0 then None
    else if !checks[0].1 then Some(checks[0].0)
    else FirstFailed(checks[1..])
  }

  /**
    The verdict is the conjunction of the seven checks; a measurement is passed on
    exactly on success, and a failure names the first check that failed.
   */
  method Appraise(p: VerificationPolicy, c: Claims, now: int, tierOf: TierOf) returns (r: AppraisalResult)
    ensures r.pass <==> Passes(p, c, now, tierOf)
    ensures (forall check :: check != MinTier ==> Holds(p, c, now, tierOf, check)) ==>
              (r.pass <==> AtOrAbove(p.minTier, tierOf(c.platform, c.imaVerified).0))
    ensures InOrder(r.checks) && Reports(p, c, now, tierOf, r.checks)
    ensures r.pass ==> r.reason == None && Identity(c).Some? && InAllow(p, Identity(c).value)
                       && c.bindingOk && c.profile == p.profile
                       && r.measurement == Some(Appraised(c.platform, Identity(c).value, c.imaVerified))
    ensures !r.pass ==> r.measurement == None && r.reason == FirstFailed(r.checks) && r.reason.Some?
    ensures !r.pass ==> !Holds(p, c, now, tierOf, r.reason.value)
  {
    hide Decimal, InAllow, TierFromLabel, FirstFailed, InOrder;
    var identity := Identity(c);
    var (tier, tierDetail) := tierOf(c.platform, c.imaVerified);
    var checks := RunChecks(p, c, now, tierOf);
    Verdict(p, c, now, tierOf, checks);
    TierLadder(p, c, now, tierOf);
    var reason := FirstFailed(checks);
    var pass := reason.None?;
    assert pass ==> Holds(p, c, now, tierOf, ProfileMatch) && Holds(p, c, now, tierOf, BindingOk);
    var classLabel := p.class_.name + "@v" + Decimal(p.class_.version);
    var measurement := if pass then Some(Appraised(c.platform, identity.value, c.imaVerified)) else None;
    r := AppraisalResult(pass, p.id, classLabel, tier, tierDetail, p.notes, checks, measurement, reason);
  }

  /** The seven checks, evaluated in their fixed order. */
  method RunChecks(p: VerificationPolicy, c: Claims, now: int, tierOf: TierOf)
    returns (checks: seq<(CheckId, bool)>)
    ensures InOrder(checks) && Reports(p, c, now, tierOf, checks)
  {
    hide TierFromLabel, RegistryMinimum.Accepts, TrustTier.Accepts, InAllow;
    var notExpired := !(p.validUntil.Some? && now > p.validUntil.value);
    var identity := Identity(c);
    var inAllow := identity.Some? && InAllow(p, identity.value);
    var registryOk := match c.registryStatus
      case None => true
      case Some(s) => p.registryMinimum.Accepts(s);
    var (tier, tierDetail) := tierOf(c.platform, c.imaVerified);
    var tierOk := match TierFromLabel(tier)
      case None => false
      case Some(actual) => p.minTier.Accepts(actual);
    var detailOk := |p.allowedTierDetails| == 0 || tierDetail in p.allowedTierDetails;
    checks := [(PolicyNotExpired, notExpired), (ProfileMatch, c.profile == p.profile), (BindingOk, c.bindingOk),
               (ReferenceValueMatch, inAllow), (RegistryStatus, registryOk), (MinTier, tierOk),
               (TierDetailAllowed, detailOk)];
  }

  /** Each entry carries the value of its own check. */
  predicate Reports(p: VerificationPolicy, c: Claims, now: int, tierOf: TierOf, checks: seq<(CheckId, bool)>) {
    forall i :: 0 <= i < |checks| ==> checks[i].1 == Holds(p, c, now, tierOf, checks[i].0)
  }

  predicate Lists(checks: seq<(CheckId, bool)>, check: CheckId) {
    exists i :: 0 <= i < |checks| && checks[i].0 == check
  }

  predicate InOrder(checks: seq<(CheckId, bool)>) {
    && |checks| == 7 && checks[0].0 == PolicyNotExpired && checks[1].0 == ProfileMatch
    && checks[2].0 == BindingOk && checks[3].0 == ReferenceValueMatch && checks[4].0 == RegistryStatus
    && checks[5].0 == MinTier && checks[6].0 == TierDetailAllowed
  }

  lemma AllChecks(checks: seq<(CheckId, bool)>)
    requires InOrder(checks)
    ensures forall check: CheckId :: Lists(checks, check)
  {
    forall check: CheckId ensures Lists(checks, check) {
      match check
      case PolicyNotExpired => assert checks[0].0 == check;
      case ProfileMatch => assert checks[1].0 == check;
      case BindingOk => assert checks[2].0 == check;
      case ReferenceValueMatch => assert checks[3].0 == check;
      case RegistryStatus => assert checks[4].0 == check;
      case MinTier => assert checks[5].0 == check;
      case TierDetailAllowed => assert checks[6].0 == check;
    }
  }

  lemma Verdict(p: VerificationPolicy, c: Claims, now: int, tierOf: TierOf, checks: seq<(CheckId, bool)>)
    requires InOrder(checks)
    requires Reports(p, c, now, tierOf, checks)
    ensures FirstFailed(checks) == None <==> forall check: CheckId :: Holds(p, c, now, tierOf, check)
    ensures FirstFailed(checks).Some? ==> !Holds(p, c, now, tierOf, FirstFailed(checks).value)
    ensures FirstFailed(checks) == None ==> Holds(p, c, now, tierOf, ReferenceValueMatch)
  {
    hide Holds, FirstFailed;
    FirstFailedMeans(checks);
    AllChecks(checks);
    if FirstFailed(checks) == None {
      forall check: CheckId ensures Holds(p, c, now, tierOf, check) {
        assert Lists(checks, check);
      }
    }
  }

  lemma {:induction false} FirstFailedMeans(checks: seq<(CheckId, bool)>)
    ensures FirstFailed(checks) == None <==> forall i :: 0 <= i < |checks| ==> checks[i].1
    ensures FirstFailed(checks).Some? ==>
              exists i :: 0 <= i < |checks| && checks[i] == (FirstFailed(checks).value, false)
                          && forall j :: 0 <= j < i ==> checks[j].1
  {
    if |checks| > 0 {
      FirstFailedMeans(checks[1..]);
      if checks[0].1 && FirstFailed(checks).Some? {
        var i :| 0 <= i < |checks| - 1 && checks[1..][i] == (FirstFailed(checks).value, false)
                 && forall j :: 0 <= j < i ==> checks[1..][j].1;
        assert checks[i + 1] == (FirstFailed(checks).value, false);
        forall j | 0 <= j < i + 1 ensures checks[j].1 {
          assert j > 0 ==> checks[1..][j - 1] == checks[j];
        }
      }
    }
  }

  // ---- What an empty difference means ----

  /**
    When every allow entry has exactly one field, an empty difference means that
    every check except RegistryStatus agrees, on every claim, at every time.
   */
  lemma EmptyDiffSameChecks(left: VerificationPolicy, right: VerificationPolicy,
                            c: Claims, now: int, tierOf: TierOf, check: CheckId)
    requires OneFieldPresent(left) && OneFieldPresent(right)
    requires Diff(left, right).IsEmpty() && !check.RegistryStatus?
    ensures Holds(left, c, now, tierOf, check) <==> Holds(right, c, now, tierOf, check)
  {
    hide HexEncode, InAllow, TierFromLabel;
    if check.ReferenceValueMatch? && Identity(c).Some? {
      var id := Identity(c).value;
      ViewsAgree(left, id);
      ViewsAgree(right, id);
      SameClass(left, right, id);
    }
  }

  /** An identity that the reference check matches through an entry which the class reads as its measurement. */
  predicate Hidden(p: VerificationPolicy, id: Bytes) {
    id !in ClassIds(p) && exists e :: e in p.allow && e.measurement.Some? && e.appIdHash == Some(id)
  }

  lemma AllowedIsClassOrHidden(p: VerificationPolicy, id: Bytes)
    ensures InAllow(p, id) <==> id in ClassIds(p) || Hidden(p, id)
  {
    if id in ClassIds(p) {
      ClassInAllow(p, id);
    } else if InAllow(p, id) {
      var e :| e in p.allow && (e.measurement == Some(id) || e.appIdHash == Some(id));
      assert EntryId(e) != Some(id);
    }
  }

  /** Two policies decide a check alike, on every claim, at every time, whatever tiers platforms have. */
  ghost predicate SameCheck(left: VerificationPolicy, right: VerificationPolicy, check: CheckId) {
    forall c: Claims, now: int, tierOf: TierOf ::
      Holds(left, c, now, tierOf, check) <==> Holds(right, c, now, tierOf, check)
  }

  lemma SameClass(left: VerificationPolicy, right: VerificationPolicy, id: Bytes)
    requires Diff(left, right).IsEmpty()
    ensures id in ClassIds(left) <==> id in ClassIds(right)
  {
    hide HexEncode, DiffIds, ClassIds;
    DiffReadsClass(left, id);
    DiffReadsClass(right, id);
    assert HexEncode(id) in DiffIds(left) - DiffIds(right) <==> false;
    assert HexEncode(id) in DiffIds(right) - DiffIds(left) <==> false;
  }

  /** A claim about nothing but an identity and a registry status. */
  function Claiming(id: Option<Bytes>, status: Option<string>): Claims {
    Claims(UqEat, "", id, None, false, false, status)
  }

  lemma SameReferenceIff(left: VerificationPolicy, right: VerificationPolicy)
    requires Diff(left, right).IsEmpty()
    ensures SameCheck(left, right, ReferenceValueMatch) <==> forall id :: Hidden(left, id) <==> Hidden(right, id)
  {
    hide Diff, ClassIds, Hidden, InAllow;
    forall id ensures id in ClassIds(left) <==> id in ClassIds(right) {
      SameClass(left, right, id);
    }
    forall id ensures (InAllow(left, id) <==> InAllow(right, id)) <==> (Hidden(left, id) <==> Hidden(right, id)) {
      AllowedIsClassOrHidden(left, id);
      AllowedIsClassOrHidden(right, id);
      HiddenIsOutside(left, id);
      HiddenIsOutside(right, id);
    }
    if SameCheck(left, right, ReferenceValueMatch) {
      forall id ensures InAllow(left, id) <==> InAllow(right, id) {
        var c := Claiming(Some(id), None);
        assert Holds(left, c, 0, (_, _) => ("", ""), ReferenceValueMatch) <==> InAllow(left, id);
        assert Holds(right, c, 0, (_, _) => ("", ""), ReferenceValueMatch) <==> InAllow(right, id);
      }
    }
  }

  lemma HiddenIsOutside(p: VerificationPolicy, id: Bytes)
    ensures Hidden(p, id) ==> id !in ClassIds(p)
  {
  }

  lemma SameRegistryIff(left: VerificationPolicy, right: VerificationPolicy)
    ensures SameCheck(left, right, RegistryStatus) <==> left.registryMinimum == right.registryMinimum
  {
    if left.registryMinimum != right.registryMinimum {
      var c := Claiming(None, Some("deprecated"));
      assert "deprecated"[0] != "recommended"[0];
      assert Holds(left, c, 0, (_, _) => ("", ""), RegistryStatus)
        <==> !Holds(right, c, 0, (_, _) => ("", ""), RegistryStatus);
    }
  }

  /**
    What an empty difference is worth, exactly: the two policies decide every check
    alike if and only if they hide the same identities and have the same registry
    minimum. The five other checks always agree.
   */
  lemma EmptyDiffIff(left: VerificationPolicy, right: VerificationPolicy)
    requires Diff(left, right).IsEmpty()
    ensures SameCheck(left, right, ReferenceValueMatch) <==> forall id :: Hidden(left, id) <==> Hidden(right, id)
    ensures SameCheck(left, right, RegistryStatus) <==> left.registryMinimum == right.registryMinimum
    ensures forall check: CheckId ::
              check == ReferenceValueMatch || check == RegistryStatus || SameCheck(left, right, check)
    ensures (forall check: CheckId :: SameCheck(left, right, check))
       <==> (forall id :: Hidden(left, id) <==> Hidden(right, id)) && left.registryMinimum == right.registryMinimum
  {
    hide DiffIds, Hidden, InAllow, TierFromLabel;
    SameReferenceIff(left, right);
    SameRegistryIff(left, right);
    forall check: CheckId | check != ReferenceValueMatch && check != RegistryStatus
      ensures SameCheck(left, right, check)
    {
    }
  }

  /** The difference says nothing about the registry minimum. */
  lemma EmptyDiffMissesRegistry(p: VerificationPolicy, c: Claims, now: int, tierOf: TierOf)
    requires p.registryMinimum == Recommended && c.registryStatus == Some("deprecated")
    ensures var q := p.(registryMinimum := Deprecated);
            Diff(p, q).IsEmpty()
            && !Holds(p, c, now, tierOf, RegistryStatus) && Holds(q, c, now, tierOf, RegistryStatus)
  {
    assert "deprecated"[0] != "recommended"[0];
  }

  /** An app-attestation policy whose one entry also carries an empty measurement. */
  function WithEmptyMeasurement(appId: Bytes): VerificationPolicy {
    VerificationPolicy(1, "p", None, AndroidKeyAttestation, ClassSpec("c", 1), Recommended, SoftwareWitness,
                       [], [AllowEntry(Some([]), Some(appId))], false, [], [], [], None)
  }

  /**
    Validation does not ensure that exactly one field is present: an entry with an
    empty measurement beside its app id is valid, is matched by the reference check
    and is missed by the class; and policies for two different apps differ by nothing.
   */
  lemma ValidPolicySplitsViews(a: Bytes, b: Bytes)
    requires |a| > 0 && |b| > 0 && a != b
    ensures var p, q := WithEmptyMeasurement(a), WithEmptyMeasurement(b);
            Validate(p).Ok? && Validate(q).Ok?
            && InAllow(p, a) && a !in ClassIds(p) && !InAllow(q, a)
            && Diff(p, q).IsEmpty()
  {
    var p, q := WithEmptyMeasurement(a), WithEmptyMeasurement(b);
    assert p.allow[0] in p.allow;
    assert FirstBadEntry(p.allow, p.profile, 1) == None && FirstBadEntry(q.allow, q.profile, 1) == None;
    assert DiffIds(p) == {HexEncode([])} == DiffIds(q) by {
      assert p.allow[0] in p.allow && q.allow[0] in q.allow;
    }
  }
}
