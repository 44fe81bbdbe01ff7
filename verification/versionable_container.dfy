/**
 * `VersionableContainer`: an envelope `{version, instance}` whose decoder
 * reads the embedded version, takes the strict path when it is current, and
 * otherwise runs the type's own migrations for every declared case newer
 * than it before the strict decode.
 */
module VersionableContainer {
  import opened Wrappers
  import opened Versionable
  import opened MigrationChain
  import opened VersionableDecoding

  /** `Type.Version.allCases`, each paired with `Type.migrate(to:)`. */
  function DeclaredSteps(t: Schema): (steps: seq<MigrationStep>)
    ensures Versions(steps) == t.allCases
    ensures forall i :: 0 <= i < |steps| ==> steps[i].migration == t.migrate(t.allCases[i])
  {
    seq(|t.allCases|, i requires 0 <= i < |t.allCases| => MigrationStep(t.allCases[i], t.migrate(t.allCases[i])))
  }

  /** Declared in ascending order, the cases give a sorted list of steps. */
  lemma DeclaredStepsSorted(t: Schema)
    requires Ascending(t.allCases)
    ensures SortedSteps(DeclaredSteps(t))
  {
    var steps := DeclaredSteps(t);
    forall i, j | 0 <= i < j < |steps|
      ensures !Less(steps[j].version, steps[i].version)
    {
      assert steps[i].version == t.allCases[i] && steps[j].version == t.allCases[j];
    }
  }

  /** `encode(to:)`: the instance's version under `version`, its own encoding under `instance`. */
  function Encode(x: Instance): (r: Value)
    ensures r.Dict? && r.entries.Keys == {"version", "instance"}
    ensures r.entries["version"] == Number(x.version.rawValue)
    ensures r.entries["instance"] == EncodeInstance(x)
  {
    Dict(map["version" := Number(x.version.rawValue), "instance" := EncodeInstance(x)])
  }

  /** `container.decode(Data.self, forKey: .instance)`. */
  function InstanceData(envelope: Value): (r: Option<Value>)
    ensures r.Some? <==> envelope.Dict? && "instance" in envelope.entries
    ensures r.Some? ==> r.value == envelope.entries["instance"]
  {
    if envelope.Dict? && "instance" in envelope.entries then Some(envelope.entries["instance"]) else Option.None
  }

  /**
   * What `init(from:)` yields for an envelope, in a debug build when `debug`
   * holds; the second component lists the versions whose migrations ran.
   */
  function Decoding(t: Schema, envelope: Value, debug: bool): (Result<Instance, DecodeError>, seq<Version>)
    requires WellFormed(t)
  {
    match ReadVersion(t.allCases, envelope)
    case Err(e) => (Err(e), [])
    case Ok(encoded) =>
      match InstanceData(envelope)
      case None => (Err(InstanceMissing), [])
      case Some(data) =>
        if encoded == t.version then (StrictDecode(t, data), [])
        else
          match Require(AsObject(data))
          case Err(e) => (Err(e), [])
          case Ok(payload) =>
            if debug && !Ascending(t.allCases) then (Err(AssertionFailure), [])
            else MigrationPhase(t, DeclaredSteps(t), encoded, payload)
  }

  /** `init(from:)`: the decode pipeline, updating the payload in place step by step. */
  method Decode(t: Schema, envelope: Value, debug: bool) returns (r: Result<Instance, DecodeError>, ghost applied: seq<Version>)
    requires WellFormed(t)
    ensures r == Decoding(t, envelope, debug).0
    ensures applied == Decoding(t, envelope, debug).1
  {
    applied := [];
    var encodedVersion := ReadVersion(t.allCases, envelope);
    if encodedVersion.Err? {
      r := Err(encodedVersion.error);
      return;
    }
    var data := InstanceData(envelope);
    if data.None? {
      r := Err(InstanceMissing);
      return;
    }
    if encodedVersion.value == t.version {
      r := StrictDecode(t, data.value);
      return;
    }
    var dict := Require(AsObject(data.value));
    if dict.Err? {
      r := Err(dict.error);
      return;
    }
    if debug && !Ascending(t.allCases) {
      r := Err(AssertionFailure);
      return;
    }
    var payload := dict.value;
    var steps := Pending(DeclaredSteps(t), encodedVersion.value);
    for i := 0 to |steps|
      invariant payload == Migrated(steps[..i], dict.value)
      invariant applied == Versions(steps[..i])
    {
      StepSeesEarlierSteps(steps, i, dict.value);
      VersionsConcat(steps[..i], [steps[i]]);
      assert steps[..i + 1] == steps[..i] + [steps[i]];
      payload := Apply(steps[i].migration, payload);
      payload := payload["version" := Number(steps[i].version.rawValue)];
      assert payload == Step(steps[i], Migrated(steps[..i], dict.value));
      applied := applied + [steps[i].version];
    }
    assert steps[..|steps|] == steps;
    assert Decoding(t, envelope, debug) == MigrationPhase(t, DeclaredSteps(t), encodedVersion.value, dict.value);
    r := StrictDecode(t, Dict(payload));
  }

  /** When the encoded version is current, the result is the strict decode and no migration runs. */
  lemma FastPath(t: Schema, envelope: Value, debug: bool, data: Value)
    requires WellFormed(t)
    requires ReadVersion(t.allCases, envelope) == Ok(t.version)
    requires InstanceData(envelope) == Some(data)
    ensures Decoding(t, envelope, debug) == (StrictDecode(t, data), [])
  {
  }

  /**
   * Otherwise the migrations that run are exactly those of the declared
   * cases strictly newer than the encoded version, in declaration order;
   * with ascending cases they are the tail of `allCases`.
   */
  lemma RunsNewerCases(t: Schema, envelope: Value, debug: bool, encoded: Version, payload: Payload)
    requires WellFormed(t)
    requires ReadVersion(t.allCases, envelope) == Ok(encoded) && encoded != t.version
    requires InstanceData(envelope) == Some(Dict(payload))
    requires debug ==> Ascending(t.allCases)
    ensures Decoding(t, envelope, debug) == MigrationPhase(t, DeclaredSteps(t), encoded, payload)
    ensures forall v :: v in Decoding(t, envelope, debug).1 <==> v in t.allCases && Less(encoded, v)
    ensures Ascending(t.allCases) ==>
              var applied := Decoding(t, envelope, debug).1;
              applied == t.allCases[|t.allCases| - |applied|..]
  {
    var steps := DeclaredSteps(t);
    var pending := Pending(steps, encoded);
    assert Decoding(t, envelope, debug) == MigrationPhase(t, steps, encoded, payload);
    assert Decoding(t, envelope, debug).1 == Versions(pending);
    forall v
      ensures v in Versions(pending) <==> v in t.allCases && Less(encoded, v)
    {
      PendingVersions(steps, encoded, v);
    }
    if Ascending(t.allCases) {
      DeclaredStepsSorted(t);
      PendingIsSuffix(steps, encoded);
      VersionsSuffix(steps, |steps| - |Pending(steps, encoded)|);
    }
  }

  /**
   * With ascending cases, a payload older than the last declared case leaves
   * the chain stamped with that last case, whatever `Type.version` is, and a
   * successful decode yields an instance at the last case; for a type that
   * keeps the default `static var version` that is `Type.version`.
   */
  lemma Converges(t: Schema, envelope: Value, debug: bool, encoded: Version, payload: Payload)
    requires WellFormed(t) && Ascending(t.allCases)
    requires ReadVersion(t.allCases, envelope) == Ok(encoded) && encoded != t.version
    requires encoded != CurrentVersion(t.allCases)
    requires InstanceData(envelope) == Some(Dict(payload))
    ensures Decoding(t, envelope, debug).1 != []
    ensures "version" in Migrated(Pending(DeclaredSteps(t), encoded), payload)
    ensures Migrated(Pending(DeclaredSteps(t), encoded), payload)["version"]
            == Number(CurrentVersion(t.allCases).rawValue)
    ensures Decoding(t, envelope, debug).0.Ok? ==>
              Decoding(t, envelope, debug).0.value.version == CurrentVersion(t.allCases)
    ensures DefaultVersion(t) && Decoding(t, envelope, debug).0.Ok? ==>
              Decoding(t, envelope, debug).0.value.version == t.version
  {
    var steps := DeclaredSteps(t);
    DeclaredStepsSorted(t);
    assert steps[|steps| - 1].version == CurrentVersion(t.allCases);
    ChainEndsAtLastVersion(steps, encoded, payload);
  }

  /**
   * When no declared case is newer than the encoded version, no migration
   * runs and the payload reaches the strict decode unchanged. With ascending
   * cases this needs the encoded version to be the last case, so it applies
   * to a type whose `static var version` is an earlier case; otherwise to a
   * release build whose cases are declared out of order.
   */
  lemma NothingNewerPassesThrough(t: Schema, envelope: Value, debug: bool, encoded: Version, payload: Payload)
    requires WellFormed(t)
    requires ReadVersion(t.allCases, envelope) == Ok(encoded) && encoded != t.version
    requires InstanceData(envelope) == Some(Dict(payload))
    requires debug ==> Ascending(t.allCases)
    requires forall i :: 0 <= i < |t.allCases| ==> !Less(encoded, t.allCases[i])
    ensures Decoding(t, envelope, debug) == (StrictDecode(t, Dict(payload)), [])
  {
    var steps := DeclaredSteps(t);
    assert forall i :: 0 <= i < |steps| ==> steps[i].version == t.allCases[i];
    NothingNewerNothingPending(steps, encoded);
  }

  /** The inputs that throw before any migration runs. */
  lemma EarlyErrors(t: Schema, envelope: Value, debug: bool)
    requires WellFormed(t)
    ensures ReadVersion(t.allCases, envelope).Err? ==> Decoding(t, envelope, debug) == (Err(MalformedEnvelope), [])
    ensures ReadVersion(t.allCases, envelope).Ok? && InstanceData(envelope).None? ==>
              Decoding(t, envelope, debug) == (Err(InstanceMissing), [])
    ensures && ReadVersion(t.allCases, envelope).Ok?
            && ReadVersion(t.allCases, envelope).value != t.version
            && InstanceData(envelope).Some? && !InstanceData(envelope).value.Dict?
            ==> Decoding(t, envelope, debug) == (Err(RequireIsNil), [])
  {
  }

  /**
   * In a debug build, cases declared out of order fail the assertion on the
   * migration path; a release build never fails it.
   */
  lemma DebugOrderAssertion(t: Schema, envelope: Value, debug: bool)
    requires WellFormed(t)
    ensures !debug ==> Decoding(t, envelope, debug).0 != Err(AssertionFailure)
    ensures && debug && !Ascending(t.allCases)
            && ReadVersion(t.allCases, envelope).Ok?
            && ReadVersion(t.allCases, envelope).value != t.version
            && InstanceData(envelope).Some? && InstanceData(envelope).value.Dict?
            ==> Decoding(t, envelope, debug) == (Err(AssertionFailure), [])
  {
  }

  /** Whatever path it takes, a successful decode yields a valid instance of the type. */
  lemma ResultIsValid(t: Schema, envelope: Value, debug: bool)
    requires WellFormed(t)
    ensures Decoding(t, envelope, debug).0.Ok? ==> ValidInstance(t, Decoding(t, envelope, debug).0.value)
  {
  }

  /** Encoding a current instance and decoding it gives it back, with no migration. */
  lemma RoundTrip(t: Schema, x: Instance, debug: bool)
    requires WellFormed(t) && ValidInstance(t, x)
    requires x.version == t.version
    ensures Decoding(t, Encode(x), debug) == (Ok(x), [])
  {
    VersionContainerReadsVersion(t, x);
    StrictDecodeEncodeInstance(t, x);
  }

  /**
   * For a type that keeps the default `static var version`, encoding an
   * older instance and decoding it runs the migrations of every later case,
   * in order, and stamps `Type.version`.
   */
  lemma OlderInstanceMigrates(t: Schema, x: Instance, debug: bool)
    requires WellFormed(t) && ValidInstance(t, x) && Ascending(t.allCases) && DefaultVersion(t)
    requires x.version != t.version
    ensures Decoding(t, Encode(x), debug)
            == MigrationPhase(t, DeclaredSteps(t), x.version, EncodeInstance(x).entries)
    ensures forall v :: v in Decoding(t, Encode(x), debug).1 <==> v in t.allCases && Less(x.version, v)
    ensures "version" in Migrated(Pending(DeclaredSteps(t), x.version), EncodeInstance(x).entries)
    ensures Migrated(Pending(DeclaredSteps(t), x.version), EncodeInstance(x).entries)["version"]
            == Number(t.version.rawValue)
  {
    VersionContainerReadsVersion(t, x);
    var envelope := Encode(x);
    assert InstanceData(envelope) == Some(Dict(EncodeInstance(x).entries));
    RunsNewerCases(t, envelope, debug, x.version, EncodeInstance(x).entries);
    Converges(t, envelope, debug, x.version, EncodeInstance(x).entries);
  }
}
