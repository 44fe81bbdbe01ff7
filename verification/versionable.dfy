/**
 * The building blocks of version-aware decoding: version tags ordered by
 * their raw values, the default current version of a type, the untyped
 * payload that migrations rewrite, the `Migration` dispatch, the
 * version-only envelope, and the strict (Codable) decoder of a type,
 * modelled as a shape check on the untyped payload.
 */
module Versionable {
  import opened Wrappers

  /** One case of a type's `Version` enum, identified by its integer raw value. */
  datatype Version = Version(rawValue: int)

  /** `VersionType.<`: versions compare by their raw values. */
  predicate Less(a: Version, b: Version) {
    a.rawValue < b.rawValue
  }

  /** `<` on versions is a strict total order (distinct cases have distinct raw values). */
  lemma LessIsStrictTotalOrder(a: Version, b: Version, c: Version)
    ensures !Less(a, a)
    ensures Less(a, b) ==> !Less(b, a)
    ensures Less(a, b) && Less(b, c) ==> Less(a, c)
    ensures a != b ==> Less(a, b) || Less(b, a)
  {
  }

  /** The declared order of the cases is their comparable order. */
  predicate Ascending(cases: seq<Version>) {
    forall i, j :: 0 <= i < j < |cases| ==> Less(cases[i], cases[j])
  }

  /** An enum's cases have pairwise distinct raw values. */
  predicate DistinctRawValues(cases: seq<Version>) {
    forall i, j :: 0 <= i < j < |cases| ==> cases[i].rawValue != cases[j].rawValue
  }

  /**
   * The default `static var version`: the last declared case. When the
   * cases are declared in ascending order it is newer than every other case.
   */
  function CurrentVersion(cases: seq<Version>): (v: Version)
    requires |cases| > 0
    ensures v in cases && v == cases[|cases| - 1]
    ensures Ascending(cases) ==> forall i :: 0 <= i < |cases| - 1 ==> Less(cases[i], v)
    ensures Ascending(cases) ==> forall c :: c in cases ==> c == v || Less(c, v)
  {
    cases[|cases| - 1]
  }

  /** A JSON-like value held by the untyped payload (`Any` in `[String: Any]`). */
  datatype Value =
    | Null
    | Boolean(b: bool)
    | Number(n: int)
    | Text(s: string)
    | List(items: seq<Value>)
    | Dict(entries: map<string, Value>)

  /** The untyped key/value payload that migrations rewrite. */
  type Payload = map<string, Value>

  /** `value as? [String: Any]`. */
  function AsObject(v: Value): (r: Option<Payload>)
    ensures r.Some? <==> v.Dict?
    ensures r.Some? ==> v == Dict(r.value)
  {
    match v
    case Dict(entries) => Some(entries)
    case _ => Option.None
  }

  /** A step of a type's schema history: nothing to do, or a payload transform. */
  datatype Migration = None | Migrate(transform: Payload -> Payload)

  /** `Migration.callAsFunction`: run the migration on the payload. */
  function Apply(m: Migration, payload: Payload): (r: Payload)
    ensures m.None? ==> r == payload
    ensures m.Migrate? ==> r == m.transform(payload)
  {
    if m.Migrate? then m.transform(payload) else payload
  }

  /** Why a decode throws. */
  datatype DecodeError =
    | MalformedEnvelope    // not a keyed container, or `version` missing, ill-typed or not a declared case
    | InstanceMissing      // the container has no `instance` data
    | RequireIsNil         // `RequireError.isNil`: the payload is not a key/value object
    | AssertionFailure     // debug builds: the declared cases are not in ascending order
    | StrictDecodeFailed   // the payload lacks a required field or holds one of the wrong kind

  /** The kinds of stored property a strict decoder can read. */
  datatype Kind = BooleanKind | NumberKind | TextKind | ListKind | DictKind

  /** Swift's `Int` on 64-bit platforms. */
  const INT_MIN: int := -0x8000_0000_0000_0000
  const INT_MAX: int := 0x7FFF_FFFF_FFFF_FFFF

  /** A value a decoder of that kind accepts; an `Int` property rejects numbers outside `Int`'s range. */
  predicate HasKind(v: Value, k: Kind) {
    match k
    case BooleanKind => v.Boolean?
    case NumberKind => v.Number? && INT_MIN <= v.n <= INT_MAX
    case TextKind => v.Text?
    case ListKind => v.List?
    case DictKind => v.Dict?
  }

  /**
   * A `Versionable` type: its name, its `Version` enum's declared cases,
   * its `static var version` (the current version), its `migrate(to:)`
   * table, and the stored properties (besides `version`) its synthesized
   * decoder requires.
   */
  datatype Schema = Schema(
    name: string,
    allCases: seq<Version>,
    version: Version,
    migrate: Version -> Migration,
    fields: map<string, Kind>)

  /** What the Swift compiler guarantees of a `Versionable` type. */
  predicate WellFormed(t: Schema) {
    && |t.allCases| > 0
    && DistinctRawValues(t.allCases)
    && t.version in t.allCases
    && "version" !in t.fields
  }

  /** The type keeps the protocol extension's `static var version`: the last declared case. */
  predicate DefaultVersion(t: Schema)
    requires |t.allCases| > 0
  {
    t.version == CurrentVersion(t.allCases)
  }

  /** A decoded value of a `Versionable` type: its own `version` and its other stored properties. */
  datatype Instance = Instance(version: Version, fields: map<string, Value>)

  predicate ValidInstance(t: Schema, x: Instance) {
    && x.version in t.allCases
    && x.fields.Keys == t.fields.Keys
    && forall k :: k in t.fields ==> HasKind(x.fields[k], t.fields[k])
  }

  /**
   * Decoding `VersionContainer<Version>`: read only the `version` key, which
   * must hold the raw value of a declared case.
   */
  function ReadVersion(cases: seq<Version>, data: Value): (r: Result<Version, DecodeError>)
    ensures r.Ok? <==> data.Dict? && "version" in data.entries && data.entries["version"].Number?
                       && Version(data.entries["version"].n) in cases
    ensures r.Ok? ==> r.value in cases && data.entries["version"] == Number(r.value.rawValue)
    ensures r.Err? ==> r.error == MalformedEnvelope
  {
    if data.Dict? && "version" in data.entries && data.entries["version"].Number?
       && Version(data.entries["version"].n) in cases
    then Ok(Version(data.entries["version"].n))
    else Err(MalformedEnvelope)
  }

  /** The payload has the shape the type's synthesized decoder requires. */
  predicate Conforms(t: Schema, data: Value) {
    && data.Dict?
    && ReadVersion(t.allCases, data).Ok?
    && forall k :: k in t.fields ==> k in data.entries && HasKind(data.entries[k], t.fields[k])
  }

  /**
   * The type's synthesized `init(from:)` on a payload: it succeeds exactly
   * when the payload conforms, and keeps the declared properties, ignoring
   * any other key.
   */
  function StrictDecode(t: Schema, data: Value): (r: Result<Instance, DecodeError>)
    ensures r.Ok? <==> Conforms(t, data)
    ensures r.Err? ==> r.error == StrictDecodeFailed
    ensures r.Ok? ==> && ValidInstance(t, r.value)
                      && data.entries["version"] == Number(r.value.version.rawValue)
                      && forall k :: k in t.fields ==> r.value.fields[k] == data.entries[k]
  {
    if Conforms(t, data) then
      Ok(Instance(ReadVersion(t.allCases, data).value, map k | k in t.fields :: data.entries[k]))
    else
      Err(StrictDecodeFailed)
  }

  /** The type's synthesized `encode(to:)`: its properties plus its `version`. */
  function EncodeInstance(x: Instance): (r: Value)
    ensures r.Dict? && "version" in r.entries && r.entries["version"] == Number(x.version.rawValue)
  {
    Dict(x.fields["version" := Number(x.version.rawValue)])
  }

  /** Decoding what the type encoded gives the value back. */
  lemma StrictDecodeEncodeInstance(t: Schema, x: Instance)
    requires WellFormed(t) && ValidInstance(t, x)
    ensures StrictDecode(t, EncodeInstance(x)) == Ok(x)
  {
    var data := EncodeInstance(x);
    assert ReadVersion(t.allCases, data) == Ok(x.version);
    assert Conforms(t, data);
    var fields := map k | k in t.fields :: data.entries[k];
    assert fields == x.fields;
  }

  /** Reading an encoded value through `VersionContainer` yields that value's version. */
  lemma VersionContainerReadsVersion(t: Schema, x: Instance)
    requires ValidInstance(t, x)
    ensures ReadVersion(t.allCases, EncodeInstance(x)) == Ok(x.version)
  {
  }
}
