/**
 * The two sample types: `Simple`, with the single version v1, and
 * `Complex`, whose v2 migration fills in `text` and whose v3 migration
 * derives `number` from it, with the decode scenarios run on them.
 */
module Stubs {
  import opened Wrappers
  import opened Versionable
  import opened MigrationChain
  import opened VersionableDecoding
  import opened VersionableContainer

  /** `Simple.migrate(to:)`: v1 needs no migration. */
  function SimpleMigrate(to: Version): (m: Migration)
    ensures m.None?
  {
    Migration.None
  }

  /** `Simple`: versions `[v1]`, one `text` property. */
  function SimpleSchema(): (t: Schema)
    ensures WellFormed(t) && Ascending(t.allCases)
    ensures DefaultVersion(t) && t.version == Version(1)
    ensures t.fields == map["text" := TextKind]
  {
    var cases := [Version(1)];
    Schema("Simple", cases, CurrentVersion(cases), SimpleMigrate, map["text" := TextKind])
  }

  /** The v2 migration of `Complex`: `payload["text"] = "defaultText"`. */
  function SetDefaultText(payload: Payload): (r: Payload)
    ensures "text" in r && r["text"] == Text("defaultText")
    ensures r.Keys == payload.Keys + {"text"}
    ensures forall k :: k in payload && k != "text" ==> r[k] == payload[k]
  {
    payload["text" := Text("defaultText")]
  }

  /** The v3 migration of `Complex`: `number` is 1 when `text` is "defaultText", 200 otherwise. */
  function SetNumber(payload: Payload): (r: Payload)
    ensures "number" in r
    ensures "text" in payload && payload["text"] == Text("defaultText") ==> r["number"] == Number(1)
    ensures !("text" in payload && payload["text"] == Text("defaultText")) ==> r["number"] == Number(200)
    ensures r.Keys == payload.Keys + {"number"}
    ensures forall k :: k in payload && k != "number" ==> r[k] == payload[k]
  {
    var isDefault := "text" in payload && payload["text"] == Text("defaultText");
    payload["number" := Number(if isDefault then 1 else 200)]
  }

  /** `Complex.migrate(to:)`. */
  function ComplexMigrate(to: Version): (m: Migration)
    ensures to == Version(1) ==> m.None?
    ensures to == Version(2) ==> m.Migrate? && m.transform == SetDefaultText
    ensures to == Version(3) ==> m.Migrate? && m.transform == SetNumber
  {
    match to.rawValue
    case 2 => Migrate(SetDefaultText)
    case 3 => Migrate(SetNumber)
    case _ => Migration.None
  }

  /** `Complex`: versions `[v1, v2, v3]`, properties `text` and `number`. */
  function ComplexSchema(): (t: Schema)
    ensures WellFormed(t) && Ascending(t.allCases)
    ensures t.allCases == [Version(1), Version(2), Version(3)]
    ensures DefaultVersion(t) && t.version == Version(3)
  {
    var cases := [Version(1), Version(2), Version(3)];
    Schema("Complex", cases, CurrentVersion(cases), ComplexMigrate,
           map["text" := TextKind, "number" := NumberKind])
  }

  /** Two steps run one after the other. */
  lemma MigratedPair(a: MigrationStep, b: MigrationStep, payload: Payload)
    ensures Migrated([a, b], payload) == Step(b, Step(a, payload))
  {
    MigratedSnoc([], a, payload);
    assert [] + [a] == [a];
    MigratedSnoc([a], b, payload);
    assert [a] + [b] == [a, b];
  }

  /** The keys of the `Complex` record are distinct from each other and from `version`. */
  lemma ComplexKeysDistinct()
    ensures "text" != "version" && "number" != "version" && "text" != "number"
  {
    assert "text"[0] != "version"[0] && "number"[0] != "version"[0] && "text"[0] != "number"[0];
  }

  /** The v2 step sets `text` to "defaultText" and stamps v2. */
  lemma ComplexStepV2(p0: Payload)
    ensures Step(MigrationStep(Version(2), Migrate(SetDefaultText)), p0)
            == p0["text" := Text("defaultText")]["version" := Number(2)]
  {
    assert Apply(Migrate(SetDefaultText), p0) == SetDefaultText(p0);
  }

  /** After the v2 step, the v3 step sets `number` to 1 and stamps v3. */
  lemma ComplexStepV3(p1: Payload)
    requires "text" in p1 && p1["text"] == Text("defaultText")
    ensures Step(MigrationStep(Version(3), Migrate(SetNumber)), p1)
            == p1["number" := Number(1)]["version" := Number(3)]
  {
    assert Apply(Migrate(SetNumber), p1) == SetNumber(p1);
  }

  /** Setting `text`, `version`, `number` and `version` again over the record's keys gives the v3 record. */
  lemma ComplexFinalRecord(p0: Payload)
    requires p0.Keys <= {"version", "text", "number"}
    ensures p0["text" := Text("defaultText")]["version" := Number(2)]["number" := Number(1)]["version" := Number(3)]
            == map["text" := Text("defaultText"), "number" := Number(1), "version" := Number(3)]
  {
    var p2 := p0["text" := Text("defaultText")]["version" := Number(2)]["number" := Number(1)]["version" := Number(3)];
    var e := map["text" := Text("defaultText"), "number" := Number(1), "version" := Number(3)];
    ComplexKeysDistinct();
    assert p2.Keys == e.Keys;
  }

  /** The v2 then v3 steps turn a payload holding at most the record's keys into the v3 record with `number == 1`. */
  lemma ComplexChainFromEmpty(p0: Payload)
    requires p0.Keys <= {"version", "text", "number"}
    ensures var s2 := MigrationStep(Version(2), Migrate(SetDefaultText));
            var s3 := MigrationStep(Version(3), Migrate(SetNumber));
            Migrated([s2, s3], p0)
            == map["text" := Text("defaultText"), "number" := Number(1), "version" := Number(3)]
  {
    var s2 := MigrationStep(Version(2), Migrate(SetDefaultText));
    var s3 := MigrationStep(Version(3), Migrate(SetNumber));
    MigratedPair(s2, s3, p0);
    ComplexKeysDistinct();
    var p1 := p0["text" := Text("defaultText")]["version" := Number(2)];
    ComplexStepV2(p0);
    assert p1["text"] == Text("defaultText");
    ComplexStepV3(p1);
    ComplexFinalRecord(p0);
  }

  /** The v3 record with `text == "defaultText"` and `number == 1` passes the strict decode of `Complex`. */
  lemma ComplexStrictDecodesV3()
    ensures StrictDecode(ComplexSchema(),
                         Dict(map["text" := Text("defaultText"), "number" := Number(1), "version" := Number(3)]))
            == Ok(Instance(Version(3), map["text" := Text("defaultText"), "number" := Number(1)]))
  {
    var t := ComplexSchema();
    var p := map["text" := Text("defaultText"), "number" := Number(1), "version" := Number(3)];
    assert Conforms(t, Dict(p));
    assert (map k | k in t.fields :: p[k]) == map["text" := Text("defaultText"), "number" := Number(1)];
  }

  /** A `Simple` value encoded in a container decodes back to itself. */
  lemma SimpleContainerRoundTrip(debug: bool)
    ensures var x := Instance(Version(1), map["text" := Text("payloadText")]);
            Decoding(SimpleSchema(), Encode(x), debug) == (Ok(x), [])
  {
    var x := Instance(Version(1), map["text" := Text("payloadText")]);
    assert ValidInstance(SimpleSchema(), x);
    RoundTrip(SimpleSchema(), x, debug);
  }

  /**
   * A `Complex` at v1 in a container runs the v2 then the v3 migration and
   * decodes to v3 with `text == "defaultText"` and `number == 1`.
   */
  lemma ComplexContainerMigrates(debug: bool)
    ensures var x := Instance(Version(1), map["text" := Text(""), "number" := Number(0)]);
            Decoding(ComplexSchema(), Encode(x), debug)
            == (Ok(Instance(Version(3), map["text" := Text("defaultText"), "number" := Number(1)])),
                [Version(2), Version(3)])
  {
    var t := ComplexSchema();
    var x := Instance(Version(1), map["text" := Text(""), "number" := Number(0)]);
    assert ValidInstance(t, x);
    VersionContainerReadsVersion(t, x);
    var steps := DeclaredSteps(t);
    var s2 := MigrationStep(Version(2), Migrate(SetDefaultText));
    var s3 := MigrationStep(Version(3), Migrate(SetNumber));
    assert steps == [MigrationStep(Version(1), Migration.None), s2, s3];
    assert Pending(steps, Version(1)) == [s2, s3] by {
      assert steps[1..] == [s2, s3];
      AllNewerAllPending([s2, s3], Version(1));
    }
    var p0 := EncodeInstance(x).entries;
    ComplexChainFromEmpty(p0);
    ComplexStrictDecodesV3();
    assert Versions([s2, s3]) == [Version(2), Version(3)];
  }

  /** Running the v3 step before the v2 step gives `number == 200`, not 1: the order matters. */
  lemma ComplexOrderMatters()
    ensures var p := map["version" := Number(1), "text" := Text("")];
            var s2 := MigrationStep(Version(2), ComplexMigrate(Version(2)));
            var s3 := MigrationStep(Version(3), ComplexMigrate(Version(3)));
            && "number" in Migrated([s2, s3], p) && "number" in Migrated([s3, s2], p)
            && Migrated([s2, s3], p)["number"] == Number(1)
            && Migrated([s3, s2], p)["number"] == Number(200)
  {
    var p := map["version" := Number(1), "text" := Text("")];
    var s2 := MigrationStep(Version(2), ComplexMigrate(Version(2)));
    var s3 := MigrationStep(Version(3), ComplexMigrate(Version(3)));
    MigratedPair(s2, s3, p);
    MigratedPair(s3, s2, p);
  }

  /** A current `Complex` record whose `number` does not fit in `Int` fails the strict decode. */
  lemma ComplexRejectsOversizedNumber()
    ensures StrictDecode(ComplexSchema(),
                         Dict(map["version" := Number(3), "text" := Text("a"), "number" := Number(100000000000000000000)]))
            == Err(StrictDecodeFailed)
  {
    var data := map["version" := Number(3), "text" := Text("a"), "number" := Number(100000000000000000000)];
    assert "number" in ComplexSchema().fields && !HasKind(data["number"], NumberKind);
  }

  /** The registry decoder reads a current `Simple` record strictly. */
  lemma SimpleRegistryDecodes(registered: seq<MigrationStep>)
    ensures RegistryDecoding(registered, SimpleSchema(), Dict(map["version" := Number(1), "text" := Text("payloadText")]))
            == (Ok(Instance(Version(1), map["text" := Text("payloadText")])), [])
  {
    var data := map["version" := Number(1), "text" := Text("payloadText")];
    assert (map k | k in SimpleSchema().fields :: data[k]) == map["text" := Text("payloadText")];
  }

  /** A current `Simple` record lacking `text` throws. */
  lemma SimpleRegistryRejectsMissingText(registered: seq<MigrationStep>)
    ensures RegistryDecoding(registered, SimpleSchema(), Dict(map["version" := Number(1), "wrong" := Text("payloadText")])).0
            == Err(StrictDecodeFailed)
  {
    var data := Dict(map["version" := Number(1), "wrong" := Text("payloadText")]);
    assert !Conforms(SimpleSchema(), data) by {
      assert "text" in SimpleSchema().fields && "text" !in data.entries;
    }
  }

  /**
   * With no migration registered for `Complex`, a v1 record `{version: 1}`
   * reaches the strict decode unmigrated and throws.
   */
  lemma ComplexRegistryWithoutMigrationsThrows()
    ensures RegistryDecoding([], ComplexSchema(), Dict(map["version" := Number(1)]))
            == (Err(StrictDecodeFailed), [])
  {
    var data := Dict(map["version" := Number(1)]);
    RegistryWithoutMigrations(ComplexSchema(), data);
    assert !Conforms(ComplexSchema(), data) by {
      assert "text" in ComplexSchema().fields && "text" !in data.entries;
    }
  }

  /** Registering v3 and then v2 leaves the `Complex` list in version order. */
  lemma ComplexRegistrationsSorted()
    ensures var s2 := MigrationStep(Version(2), Migrate(SetDefaultText));
            var s3 := MigrationStep(Version(3), Migrate(SetNumber));
            InsertSorted(InsertSorted([], s3), s2) == [s2, s3]
  {
    var s2 := MigrationStep(Version(2), Migrate(SetDefaultText));
    var s3 := MigrationStep(Version(3), Migrate(SetNumber));
    assert InsertSorted([], s3) == [s3];
    assert InsertSorted([s3], s2) == [s2] + [s3];
  }

  /** The registry decoder holding the v2 and v3 migrations upgrades a `Complex` at v1 to v3. */
  lemma ComplexRegistryMigrates()
    ensures var s2 := MigrationStep(Version(2), Migrate(SetDefaultText));
            var s3 := MigrationStep(Version(3), Migrate(SetNumber));
            RegistryDecoding([s2, s3], ComplexSchema(), Dict(map["version" := Number(1)]))
            == (Ok(Instance(Version(3), map["text" := Text("defaultText"), "number" := Number(1)])),
                [Version(2), Version(3)])
  {
    var s2 := MigrationStep(Version(2), Migrate(SetDefaultText));
    var s3 := MigrationStep(Version(3), Migrate(SetNumber));
    AllNewerAllPending([s2, s3], Version(1));
    ComplexChainFromEmpty(map["version" := Number(1)]);
    ComplexStrictDecodesV3();
    assert Versions([s2, s3]) == [Version(2), Version(3)];
  }

  /**
   * A registry holding the `Complex` migrations, registered out of order,
   * sorts them and migrates `{version: 1}` to v3.
   */
  method RegistryScenario() returns (r: Result<Instance, DecodeError>)
    ensures r == Ok(Instance(Version(3), map["text" := Text("defaultText"), "number" := Number(1)]))
  {
    var t := ComplexSchema();
    var decoder := new VersionableDecoder();
    decoder.RegisterMigration(Version(3), t, SetNumber);
    decoder.RegisterMigration(Version(2), t, SetDefaultText);
    ComplexRegistrationsSorted();
    ComplexRegistryMigrates();
    ghost var applied;
    r, applied := decoder.Decode(Dict(map["version" := Number(1)]), t);
  }
}
