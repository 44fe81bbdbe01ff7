/**
 * `VersionableDecoder`: a registry of migrations per type name, kept sorted
 * by version, and a decode that runs the registered migrations newer than
 * the serialized version; plus the `require` helper.
 */
module VersionableDecoding {
  import opened Wrappers
  import opened Versionable
  import opened MigrationChain

  /** `require(_:or:)`: lift an optional, or throw the given error (`RequireError.isNil` by default). */
  function Require<T>(optional: Option<T>, error: DecodeError := RequireIsNil): (r: Result<T, DecodeError>)
    ensures optional.Some? <==> r.Ok?
    ensures optional.Some? ==> r.value == optional.value
    ensures optional.None? ==> r.error == error
  {
    match optional
    case Some(value) => Ok(value)
    case None => Err(error)
  }

  /**
   * The position at which a stable sort places a step appended to a list:
   * after every step whose version is not newer than it.
   */
  function InsertionIndex(s: seq<MigrationStep>, e: MigrationStep): (k: nat)
    ensures k <= |s|
    ensures forall i :: 0 <= i < k ==> !Less(e.version, s[i].version)
    ensures k < |s| ==> Less(e.version, s[k].version)
    decreases |s|
  {
    if s == [] || Less(e.version, s[0].version) then 0 else 1 + InsertionIndex(s[1..], e)
  }

  /** Insert a step before the first step whose version is newer. */
  function InsertSorted(s: seq<MigrationStep>, e: MigrationStep): (r: seq<MigrationStep>)
    ensures r == s[..InsertionIndex(s, e)] + [e] + s[InsertionIndex(s, e)..]
    decreases |s|
  {
    if s == [] then [e]
    else if Less(e.version, s[0].version) then [e] + s
    else
      var rest := InsertSorted(s[1..], e);
      var k := InsertionIndex(s[1..], e);
      assert [s[0]] + s[1..][..k] == s[..k + 1];
      assert s[1..][k..] == s[k + 1..];
      [s[0]] + rest
  }

  /** Where each element of the inserted list comes from. */
  lemma InsertSortedAt(s: seq<MigrationStep>, e: MigrationStep)
    ensures var k := InsertionIndex(s, e);
            var r := InsertSorted(s, e);
            && |r| == |s| + 1 && r[k] == e
            && (forall i :: 0 <= i < k ==> r[i] == s[i])
            && (forall i :: k < i < |r| ==> r[i] == s[i - 1])
  {
    var k := InsertionIndex(s, e);
    var a, b := s[..k] + [e], s[k..];
    var r := InsertSorted(s, e);
    assert r == a + b && |a| == k + 1;
    forall i | 0 <= i < k
      ensures r[i] == s[i]
    {
      assert r[i] == a[i] == s[..k][i];
    }
    assert r[k] == a[k];
    forall i | k < i < |r|
      ensures r[i] == s[i - 1]
    {
      assert r[i] == b[i - (k + 1)];
    }
  }

  /** Inserting into a sorted list keeps it sorted. */
  lemma InsertSortedKeepsSorted(s: seq<MigrationStep>, e: MigrationStep)
    requires SortedSteps(s)
    ensures SortedSteps(InsertSorted(s, e))
  {
    var k := InsertionIndex(s, e);
    var r := InsertSorted(s, e);
    InsertSortedAt(s, e);
    forall i, j | 0 <= i < j < |r|
      ensures !Less(r[j].version, r[i].version)
    {
      if j < k {
        assert r[i] == s[i] && r[j] == s[j];
      } else if j == k {
        assert r[i] == s[i] && r[j] == e;
      } else if i < k {
        assert r[i] == s[i] && r[j] == s[j - 1];
      } else if i == k {
        assert r[i] == e && r[j] == s[j - 1];
        assert !Less(s[j - 1].version, s[k].version);
      } else {
        assert r[i] == s[i - 1] && r[j] == s[j - 1];
      }
    }
  }

  /** Inserting adds exactly the new step's version to the versions held. */
  lemma {:induction false} InsertSortedVersions(s: seq<MigrationStep>, e: MigrationStep)
    ensures |InsertSorted(s, e)| == |s| + 1
    ensures multiset(Versions(InsertSorted(s, e))) == multiset(Versions(s)) + multiset{e.version}
    decreases |s|
  {
    if s == [] {
      assert Versions([e]) == [e.version];
    } else if Less(e.version, s[0].version) {
      VersionsConcat([e], s);
      assert Versions([e]) == [e.version];
    } else {
      var rest := InsertSorted(s[1..], e);
      InsertSortedVersions(s[1..], e);
      assert InsertSorted(s, e) == [s[0]] + rest;
      VersionsConcat([s[0]], rest);
      VersionsConcat([s[0]], s[1..]);
      assert [s[0]] + s[1..] == s;
      assert Versions([s[0]]) == [s[0].version];
    }
  }

  /** A step not older than any of a list's steps goes at the end. */
  lemma {:induction false} InsertAfterAll(s: seq<MigrationStep>, e: MigrationStep)
    requires forall i :: 0 <= i < |s| ==> !Less(e.version, s[i].version)
    ensures InsertSorted(s, e) == s + [e]
    decreases |s|
  {
    if s != [] {
      InsertAfterAll(s[1..], e);
    }
  }

  /** Inserting adds exactly the new step, with its migration, to the steps held. */
  lemma InsertSortedSteps(s: seq<MigrationStep>, e: MigrationStep)
    ensures multiset(InsertSorted(s, e)) == multiset(s) + multiset{e}
  {
    var k := InsertionIndex(s, e);
    assert s[..k] + s[k..] == s;
    assert multiset(s) == multiset(s[..k]) + multiset(s[k..]);
    assert multiset(s[..k] + [e] + s[k..]) == multiset(s[..k]) + multiset{e} + multiset(s[k..]);
  }

  /** `sorted { $0.version < $1.version }`, as a stable insertion sort. */
  function SortByVersion(s: seq<MigrationStep>): (r: seq<MigrationStep>)
    ensures |r| == |s|
    ensures SortedSteps(r)
    ensures multiset(r) == multiset(s)
    ensures multiset(Versions(r)) == multiset(Versions(s))
    decreases |s|
  {
    if s == [] then []
    else
      var init := SortByVersion(s[..|s| - 1]);
      InsertSortedKeepsSorted(init, s[|s| - 1]);
      InsertLast(s, init);
      InsertSorted(init, s[|s| - 1])
  }

  /** Inserting a list's last step into a permutation of the rest gives a permutation of the list. */
  lemma InsertLast(s: seq<MigrationStep>, init: seq<MigrationStep>)
    requires s != []
    requires multiset(init) == multiset(s[..|s| - 1])
    requires multiset(Versions(init)) == multiset(Versions(s[..|s| - 1]))
    ensures |InsertSorted(init, s[|s| - 1])| == |init| + 1
    ensures multiset(InsertSorted(init, s[|s| - 1])) == multiset(s)
    ensures multiset(Versions(InsertSorted(init, s[|s| - 1]))) == multiset(Versions(s))
  {
    var last := s[|s| - 1];
    InsertSortedVersions(init, last);
    InsertSortedSteps(init, last);
    assert s[..|s| - 1] + [last] == s;
    VersionsConcat(s[..|s| - 1], [last]);
    assert Versions([last]) == [last.version];
  }

  /** Sorting a sorted list leaves it as it is. */
  lemma {:induction false} SortSortedIsIdentity(s: seq<MigrationStep>)
    requires SortedSteps(s)
    ensures SortByVersion(s) == s
    decreases |s|
  {
    if s != [] {
      var init := s[..|s| - 1];
      SortSortedIsIdentity(init);
      InsertAfterAll(init, s[|s| - 1]);
      assert init + [s[|s| - 1]] == s;
    }
  }

  /** Appending a step to a sorted list and sorting inserts it after the steps not newer than it. */
  lemma AppendThenSort(s: seq<MigrationStep>, e: MigrationStep)
    requires SortedSteps(s)
    ensures SortByVersion(s + [e]) == InsertSorted(s, e)
    ensures SortedSteps(SortByVersion(s + [e]))
  {
    assert (s + [e])[..|s|] == s;
    SortSortedIsIdentity(s);
  }

  /** Every list of a registry map is sorted by version. */
  predicate AllSorted(m: map<string, seq<MigrationStep>>) {
    forall name :: name in m ==> SortedSteps(m[name])
  }

  /** Replacing one name's list by a sorted list keeps every list sorted. */
  lemma UpdateKeepsSorted(m: map<string, seq<MigrationStep>>, name: string, steps: seq<MigrationStep>)
    requires AllSorted(m)
    requires SortedSteps(steps)
    ensures AllSorted(m[name := steps])
  {
  }

  /**
   * The decode of a registry-based decoder given the steps registered for
   * the type: the version read, then the fast path or the migration phase.
   * The second component lists the versions whose migrations ran.
   */
  function RegistryDecoding(registered: seq<MigrationStep>, t: Schema, data: Value)
    : (Result<Instance, DecodeError>, seq<Version>)
    requires WellFormed(t)
  {
    match ReadVersion(t.allCases, data)
    case Err(e) => (Err(e), [])
    case Ok(serialized) =>
      if serialized == t.version then (StrictDecode(t, data), [])
      else
        match Require(AsObject(data))
        case Err(e) => (Err(e), [])
        case Ok(payload) => MigrationPhase(t, registered, serialized, payload)
  }

  class VersionableDecoder {
    /** Registered migrations, by type name. */
    var migrations: map<string, seq<MigrationStep>>

    /** Every type's list is sorted by version. */
    ghost predicate Valid()
      reads this
    {
      AllSorted(migrations)
    }

    constructor ()
      ensures Valid() && migrations == map[]
    {
      migrations := map[];
    }

    /** `migrations[name] ?? []`. */
    function Registered(name: string): (r: seq<MigrationStep>)
      reads this
      ensures name in migrations ==> r == migrations[name]
      ensures name !in migrations ==> r == []
    {
      if name in migrations then migrations[name] else []
    }

    /** `registerMigration(to:forType:migration:)`: append, then sort by version. */
    method RegisterMigration(version: Version, t: Schema, migration: Payload -> Payload)
      requires Valid()
      modifies this
      ensures Valid()
      ensures migrations
              == old(migrations)[t.name := InsertSorted(old(Registered(t.name)), MigrationStep(version, Migrate(migration)))]
    {
      var name := t.name;
      var step := MigrationStep(version, Migrate(migration));
      var versions := if name in migrations then migrations[name] else [];
      ghost var before := versions;
      assert before == Registered(name) && SortedSteps(before);
      AppendThenSort(before, step);
      versions := versions + [step];
      versions := SortByVersion(versions);
      assert versions == InsertSorted(before, step);
      UpdateKeepsSorted(migrations, name, versions);
      migrations := migrations[name := versions];
    }

    /** `decode(_:type:)`. */
    method Decode(data: Value, t: Schema) returns (r: Result<Instance, DecodeError>, ghost applied: seq<Version>)
      requires WellFormed(t)
      ensures r == RegistryDecoding(Registered(t.name), t, data).0
      ensures applied == RegistryDecoding(Registered(t.name), t, data).1
    {
      applied := [];
      var serializedVersion := ReadVersion(t.allCases, data);
      if serializedVersion.Err? {
        r := Err(serializedVersion.error);
        return;
      }
      if serializedVersion.value == t.version {
        r := StrictDecode(t, data);
        return;
      }
      var dict := Require(AsObject(data));
      if dict.Err? {
        r := Err(RequireIsNil);
        return;
      }
      var payload := dict.value;
      var steps := Pending(Registered(t.name), serializedVersion.value);
      for i := 0 to |steps|
        invariant payload == Migrated(steps[..i], dict.value)
        invariant applied == Versions(steps[..i])
      {
        StepSeesEarlierSteps(steps, i, dict.value);
        assert Versions(steps[..i + 1]) == Versions(steps[..i]) + [steps[i].version];
        payload := Apply(steps[i].migration, payload);
        payload := payload["version" := Number(steps[i].version.rawValue)];
        applied := applied + [steps[i].version];
      }
      assert steps[..|steps|] == steps;
      assert RegistryDecoding(Registered(t.name), t, data)
             == MigrationPhase(t, Registered(t.name), serializedVersion.value, dict.value);
      r := StrictDecode(t, Dict(payload));
    }
  }

  /** A serialized version equal to the type's version takes the strict path and runs no migration. */
  lemma RegistryFastPath(registered: seq<MigrationStep>, t: Schema, data: Value)
    requires WellFormed(t)
    requires ReadVersion(t.allCases, data) == Ok(t.version)
    ensures RegistryDecoding(registered, t, data) == (StrictDecode(t, data), [])
  {
  }

  /**
   * Otherwise the decoder runs exactly the registered migrations newer than
   * the serialized version, in stored order; on a sorted registry they are
   * its tail, in ascending order.
   */
  lemma RegistryRunsNewerSteps(registered: seq<MigrationStep>, t: Schema, data: Value, serialized: Version)
    requires WellFormed(t)
    requires ReadVersion(t.allCases, data) == Ok(serialized)
    requires serialized != t.version
    ensures RegistryDecoding(registered, t, data) == MigrationPhase(t, registered, serialized, data.entries)
    ensures forall v :: v in RegistryDecoding(registered, t, data).1 <==> v in Versions(registered) && Less(serialized, v)
    ensures SortedSteps(registered) ==>
              var pending := Pending(registered, serialized);
              pending == registered[|registered| - |pending|..]
  {
    forall v
      ensures v in RegistryDecoding(registered, t, data).1 <==> v in Versions(registered) && Less(serialized, v)
    {
      PendingVersions(registered, serialized, v);
    }
    if SortedSteps(registered) {
      PendingIsSuffix(registered, serialized);
    }
  }

  /** With nothing registered for the type, the payload reaches strict decode unchanged. */
  lemma RegistryWithoutMigrations(t: Schema, data: Value)
    requires WellFormed(t)
    ensures RegistryDecoding([], t, data).1 == []
    ensures ReadVersion(t.allCases, data).Ok? ==> RegistryDecoding([], t, data).0 == StrictDecode(t, data)
    ensures ReadVersion(t.allCases, data).Err? ==> RegistryDecoding([], t, data).0 == Err(MalformedEnvelope)
  {
    if ReadVersion(t.allCases, data).Ok? && ReadVersion(t.allCases, data).value != t.version {
      assert Pending([], ReadVersion(t.allCases, data).value) == [];
      assert Dict(data.entries) == data;
    }
  }
}
