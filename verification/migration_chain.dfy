/**
 * The migration chain shared by `VersionableContainer` and
 * `VersionableDecoder`: keep the steps whose version is strictly newer than
 * the encoded one, then run them in order over the payload, stamping
 * `payload["version"]` with each step's raw value after it runs.
 */
module MigrationChain {
  import opened Wrappers
  import opened Versionable

  /** A migration together with the version it upgrades a payload to. */
  datatype MigrationStep = MigrationStep(version: Version, migration: Migration)

  /** The target versions of a list of steps, in order. */
  function Versions(steps: seq<MigrationStep>): (vs: seq<Version>)
    ensures |vs| == |steps|
    ensures forall i :: 0 <= i < |steps| ==> vs[i] == steps[i].version
  {
    seq(|steps|, i requires 0 <= i < |steps| => steps[i].version)
  }

  /** The versions of a concatenation are the concatenation of the versions. */
  lemma VersionsConcat(a: seq<MigrationStep>, b: seq<MigrationStep>)
    ensures Versions(a + b) == Versions(a) + Versions(b)
  {
  }

  /** The versions of a suffix of a list of steps are the suffix of its versions. */
  lemma VersionsSuffix(steps: seq<MigrationStep>, k: nat)
    requires k <= |steps|
    ensures Versions(steps[k..]) == Versions(steps)[k..]
  {
  }

  /** No step's version is older than an earlier step's. */
  predicate SortedSteps(steps: seq<MigrationStep>) {
    forall i, j :: 0 <= i < j < |steps| ==> !Less(steps[j].version, steps[i].version)
  }

  /** `payload["version"] = version.rawValue`. */
  function Stamp(payload: Payload, v: Version): (r: Payload)
    ensures "version" in r && r["version"] == Number(v.rawValue)
    ensures r.Keys == payload.Keys + {"version"}
    ensures forall k :: k in payload && k != "version" ==> r[k] == payload[k]
  {
    payload["version" := Number(v.rawValue)]
  }

  /** One iteration of the loop body: run the migration, then stamp its version. */
  function Step(s: MigrationStep, payload: Payload): Payload {
    Stamp(Apply(s.migration, payload), s.version)
  }

  /** The steps run as a left fold over the payload, in the order given. */
  function Migrated(steps: seq<MigrationStep>, payload: Payload): Payload
    decreases |steps|
  {
    if steps == [] then payload else Migrated(steps[1..], Step(steps[0], payload))
  }

  /** Running one more step continues from the result of the earlier ones. */
  lemma {:induction false} MigratedSnoc(steps: seq<MigrationStep>, s: MigrationStep, payload: Payload)
    ensures Migrated(steps + [s], payload) == Step(s, Migrated(steps, payload))
    decreases |steps|
  {
    if steps != [] {
      assert (steps + [s])[1..] == steps[1..] + [s];
      MigratedSnoc(steps[1..], s, Step(steps[0], payload));
    }
  }

  /** The fold over a concatenation is the fold over the second part of the fold over the first. */
  lemma {:induction false} MigratedConcat(a: seq<MigrationStep>, b: seq<MigrationStep>, payload: Payload)
    ensures Migrated(a + b, payload) == Migrated(b, Migrated(a, payload))
    decreases |a|
  {
    if a == [] {
      assert a + b == b;
    } else {
      assert (a + b)[0] == a[0] && (a + b)[1..] == a[1..] + b;
      MigratedConcat(a[1..], b, Step(a[0], payload));
    }
  }

  /**
   * Step `i` sees the cumulative result of steps `0..i`, and afterwards the
   * payload's version is that step's raw value.
   */
  lemma StepSeesEarlierSteps(steps: seq<MigrationStep>, i: nat, payload: Payload)
    requires i < |steps|
    ensures Migrated(steps[..i + 1], payload) == Step(steps[i], Migrated(steps[..i], payload))
    ensures Migrated(steps[..i + 1], payload)["version"] == Number(steps[i].version.rawValue)
  {
    assert steps[..i + 1] == steps[..i] + [steps[i]];
    MigratedSnoc(steps[..i], steps[i], payload);
  }

  /** After a non-empty chain the payload carries the last step's version. */
  lemma MigratedStampsLast(steps: seq<MigrationStep>, payload: Payload)
    requires steps != []
    ensures "version" in Migrated(steps, payload)
    ensures Migrated(steps, payload)["version"] == Number(steps[|steps| - 1].version.rawValue)
  {
    StepSeesEarlierSteps(steps, |steps| - 1, payload);
    assert steps[..|steps|] == steps;
  }

  /** `.filter { encoded < $0.version }`. */
  function Pending(steps: seq<MigrationStep>, encoded: Version): (r: seq<MigrationStep>)
    ensures |r| <= |steps|
    ensures forall i :: 0 <= i < |r| ==> Less(encoded, r[i].version)
  {
    if steps == [] then []
    else (if Less(encoded, steps[0].version) then [steps[0]] else []) + Pending(steps[1..], encoded)
  }

  /** Filtering keeps the order of the steps: it distributes over concatenation. */
  lemma {:induction false} PendingConcat(a: seq<MigrationStep>, b: seq<MigrationStep>, encoded: Version)
    ensures Pending(a + b, encoded) == Pending(a, encoded) + Pending(b, encoded)
    decreases |a|
  {
    if a == [] {
      assert a + b == b;
    } else {
      assert (a + b)[0] == a[0] && (a + b)[1..] == a[1..] + b;
      PendingConcat(a[1..], b, encoded);
    }
  }

  /** The pending versions are exactly the listed versions strictly newer than the encoded one. */
  lemma {:induction false} PendingVersions(steps: seq<MigrationStep>, encoded: Version, v: Version)
    ensures v in Versions(Pending(steps, encoded)) <==> v in Versions(steps) && Less(encoded, v)
    decreases |steps|
  {
    if steps != [] {
      PendingVersions(steps[1..], encoded, v);
      var head := if Less(encoded, steps[0].version) then [steps[0]] else [];
      assert Versions(Pending(steps, encoded)) == Versions(head) + Versions(Pending(steps[1..], encoded));
      assert Versions(steps) == [steps[0].version] + Versions(steps[1..]);
    }
  }

  /** When no listed version is newer than the encoded one, nothing is pending. */
  lemma {:induction false} NothingNewerNothingPending(steps: seq<MigrationStep>, encoded: Version)
    requires forall i :: 0 <= i < |steps| ==> !Less(encoded, steps[i].version)
    ensures Pending(steps, encoded) == []
    decreases |steps|
  {
    if steps != [] {
      NothingNewerNothingPending(steps[1..], encoded);
    }
  }

  /** On a sorted list the pending steps are a suffix of it, and every step before that suffix is not newer. */
  lemma {:induction false} PendingIsSuffix(steps: seq<MigrationStep>, encoded: Version)
    requires SortedSteps(steps)
    ensures Pending(steps, encoded) == steps[|steps| - |Pending(steps, encoded)|..]
    ensures forall i :: 0 <= i < |steps| - |Pending(steps, encoded)| ==> !Less(encoded, steps[i].version)
    decreases |steps|
  {
    if steps != [] {
      PendingIsSuffix(steps[1..], encoded);
      if Less(encoded, steps[0].version) {
        forall i | 0 <= i < |steps[1..]|
          ensures Less(encoded, steps[1..][i].version)
        {
          assert !Less(steps[i + 1].version, steps[0].version);
        }
        AllNewerAllPending(steps[1..], encoded);
      }
    }
  }

  /** When every listed version is newer than the encoded one, every step is pending. */
  lemma {:induction false} AllNewerAllPending(steps: seq<MigrationStep>, encoded: Version)
    requires forall i :: 0 <= i < |steps| ==> Less(encoded, steps[i].version)
    ensures Pending(steps, encoded) == steps
    decreases |steps|
  {
    if steps != [] {
      AllNewerAllPending(steps[1..], encoded);
    }
  }

  /**
   * The migration phase of both decoders, from the untyped payload on:
   * strict decode of the payload after the pending steps, and the versions
   * of the migrations that ran.
   */
  function MigrationPhase(t: Schema, steps: seq<MigrationStep>, encoded: Version, payload: Payload)
    : (Result<Instance, DecodeError>, seq<Version>)
  {
    var pending := Pending(steps, encoded);
    (StrictDecode(t, Dict(Migrated(pending, payload))), Versions(pending))
  }

  /**
   * On a sorted list whose last step is newer than the encoded version, the
   * payload leaves the chain stamped with that last step's version.
   */
  lemma ChainEndsAtLastVersion(steps: seq<MigrationStep>, encoded: Version, payload: Payload)
    requires SortedSteps(steps) && steps != []
    requires Less(encoded, steps[|steps| - 1].version)
    ensures Pending(steps, encoded) != []
    ensures "version" in Migrated(Pending(steps, encoded), payload)
    ensures Migrated(Pending(steps, encoded), payload)["version"]
            == Number(steps[|steps| - 1].version.rawValue)
  {
    var pending := Pending(steps, encoded);
    var last := steps[|steps| - 1].version;
    PendingIsSuffix(steps, encoded);
    PendingVersions(steps, encoded, last);
    assert last in Versions(steps);
    assert pending != [];
    MigratedStampsLast(pending, payload);
  }
}
