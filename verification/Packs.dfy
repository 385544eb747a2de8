/** Probe packs: which manifests are accepted, and that an accepted one meets what collection relies on. */
module Packs {
  import opened Basics
  import opened Utf8
  import opened Model
  import Collection

  const SCHEMA_VERSION := 1

  datatype Manifest = Manifest(schemaVersion: nat, id: string, version: string, signer: string, probes: seq<string>)

  datatype PackError =
    | UnsupportedSchema(version: nat)
    | InvalidField(field: string)
    | DuplicateProbe(id: string)
    | UnknownProbe(id: string)

  datatype VerifiedPack = VerifiedPack(info: PackInfo, probes: seq<Probe>)

  // ---------- identifiers ----------

  predicate Alphanumeric(c: char) {
    'a' <= c <= 'z' || 'A' <= c <= 'Z' || '0' <= c <= '9'
  }

  predicate IdentifierChar(c: char, allowPlus: bool) {
    Alphanumeric(c) || c == '.' || c == '_' || c == '-' || (allowPlus && c == '+')
  }

  predicate Identifier(value: string, maxLength: nat, allowPlus: bool) {
    && |Encode(value)| <= maxLength
    && value != "" && Alphanumeric(value[0])
    && forall i :: 1 <= i < |value| ==> IdentifierChar(value[i], allowPlus)
  }

  method ValidateIdentifier(field: string, value: string, maxLength: nat, allowPlus: bool) returns (r: Option<PackError>)
    ensures r == if Identifier(value, maxLength, allowPlus) then None else Some(InvalidField(field))
  {
    var valid := |Encode(value)| <= maxLength && value != "" && Alphanumeric(value[0]);
    if valid {
      var i := 1;
      while i < |value| && valid
        invariant 1 <= i <= |value|
        invariant valid <==> forall j :: 1 <= j < i ==> IdentifierChar(value[j], allowPlus)
      {
        valid := IdentifierChar(value[i], allowPlus);
        i := i + 1;
      }
    }
    r := if valid then None else Some(InvalidField(field));
  }

  // ---------- the probe list ----------

  ghost predicate Known(builtins: seq<Probe>, id: string) {
    exists k :: 0 <= k < |builtins| && builtins[k].id == id
  }

  /** The first built-in probe with the id. */
  ghost predicate FoundAt(builtins: seq<Probe>, id: string, k: int) {
    && 0 <= k < |builtins| && builtins[k].id == id
    && forall j :: 0 <= j < k ==> builtins[j].id != id
  }

  method Find(builtins: seq<Probe>, id: string) returns (r: Option<Probe>)
    ensures r.Some? <==> Known(builtins, id)
    ensures r.Some? ==> exists k :: FoundAt(builtins, id, k) && r.value == builtins[k]
  {
    for k := 0 to |builtins|
      invariant forall j :: 0 <= j < k ==> builtins[j].id != id
    {
      if builtins[k].id == id {
        assert FoundAt(builtins, id, k);
        return Some(builtins[k]);
      }
    }
    r := None;
  }

  predicate Distinct(ids: seq<string>) {
    forall i, j :: 0 <= i < j < |ids| ==> ids[i] != ids[j]
  }

  /** Each id is resolved, in order. */
  ghost predicate Resolved(builtins: seq<Probe>, ids: seq<string>, probes: seq<Probe>) {
    |probes| == |ids| && forall i :: 0 <= i < |ids| ==> exists k :: FoundAt(builtins, ids[i], k) && probes[i] == builtins[k]
  }

  /** The first entry that is not acceptable: it repeats an earlier one, or no built-in probe has it. */
  ghost predicate FirstBad(builtins: seq<Probe>, ids: seq<string>, i: int, error: PackError) {
    && 0 <= i < |ids|
    && Distinct(ids[..i]) && (forall j :: 0 <= j < i ==> Known(builtins, ids[j]))
    && (if ids[i] in ids[..i] then error == DuplicateProbe(ids[i])
        else !Known(builtins, ids[i]) && error == UnknownProbe(ids[i]))
  }

  method ResolveProbes(builtins: seq<Probe>, ids: seq<string>) returns (r: Result<seq<Probe>, PackError>)
    ensures r.Ok? <==> Distinct(ids) && forall i :: 0 <= i < |ids| ==> Known(builtins, ids[i])
    ensures r.Ok? ==> Resolved(builtins, ids, r.value)
    ensures r.Err? ==> exists i :: FirstBad(builtins, ids, i, r.error)
  {
    var seen: set<string> := {};
    var probes: seq<Probe> := [];
    for i := 0 to |ids|
      invariant forall id :: id in seen <==> id in ids[..i]
      invariant Distinct(ids[..i]) && forall j :: 0 <= j < i ==> Known(builtins, ids[j])
      invariant Resolved(builtins, ids[..i], probes)
    {
      var id := ids[i];
      assert ids[..i + 1] == ids[..i] + [id];
      if id in seen {
        assert FirstBad(builtins, ids, i, DuplicateProbe(id));
        return Err(DuplicateProbe(id));
      }
      seen := seen + {id};
      var probe := Find(builtins, id);
      if probe.None? {
        assert FirstBad(builtins, ids, i, UnknownProbe(id));
        return Err(UnknownProbe(id));
      }
      probes := probes + [probe.value];
    }
    assert ids[..|ids|] == ids;
    r := Ok(probes);
  }

  // ---------- the manifest ----------

  /** The first thing wrong with a manifest apart from its probe list. */
  function HeaderError(m: Manifest): Option<PackError> {
    if m.schemaVersion != SCHEMA_VERSION then Some(UnsupportedSchema(m.schemaVersion))
    else if !Identifier(m.id, 128, false) then Some(InvalidField("id"))
    else if !Identifier(m.version, 64, true) then Some(InvalidField("version"))
    else if !Identifier(m.signer, 128, false) then Some(InvalidField("signer"))
    else if m.probes == [] then Some(InvalidField("probes"))
    else None
  }

  ghost predicate Acceptable(builtins: seq<Probe>, m: Manifest) {
    HeaderError(m) == None && Distinct(m.probes) && forall i :: 0 <= i < |m.probes| ==> Known(builtins, m.probes[i])
  }

  /** `validate`: accept exactly the acceptable manifests, and name the first error of the others. */
  method Validate(builtins: seq<Probe>, m: Manifest) returns (r: Result<VerifiedPack, PackError>)
    ensures r.Ok? <==> Acceptable(builtins, m)
    ensures r.Ok? ==> r.value.info == PackInfo(m.id, m.version, m.signer) && Resolved(builtins, m.probes, r.value.probes)
    ensures r.Err? && HeaderError(m).Some? ==> r.error == HeaderError(m).value
    ensures r.Err? && HeaderError(m).None? ==> exists i :: FirstBad(builtins, m.probes, i, r.error)
  {
    if m.schemaVersion != SCHEMA_VERSION {
      return Err(UnsupportedSchema(m.schemaVersion));
    }
    var error := ValidateIdentifier("id", m.id, 128, false);
    if error.Some? {
      return Err(error.value);
    }
    error := ValidateIdentifier("version", m.version, 64, true);
    if error.Some? {
      return Err(error.value);
    }
    error := ValidateIdentifier("signer", m.signer, 128, false);
    if error.Some? {
      return Err(error.value);
    }
    if m.probes == [] {
      return Err(InvalidField("probes"));
    }
    var resolved := ResolveProbes(builtins, m.probes);
    match resolved
    case Err(e) => r := Err(e);
    case Ok(probes) => r := Ok(VerifiedPack(PackInfo(m.id, m.version, m.signer), probes));
  }

  /** The probes of an accepted pack are distinct and, like the built-in ones, fit for collection. */
  lemma PackIsCollectable(builtins: seq<Probe>, m: Manifest, probes: seq<Probe>)
    requires Acceptable(builtins, m) && Resolved(builtins, m.probes, probes)
    requires Collection.ValidProbes(builtins)
    ensures Collection.ValidProbes(probes) && |probes| == |m.probes| > 0
    ensures forall i :: 0 <= i < |probes| ==> probes[i].id == m.probes[i]
  {
    forall i | 0 <= i < |probes|
      ensures exists k :: 0 <= k < |builtins| && probes[i] == builtins[k] && builtins[k].id == m.probes[i]
    {
      var k :| FoundAt(builtins, m.probes[i], k) && probes[i] == builtins[k];
    }
  }
}
