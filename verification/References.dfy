// References to mods, and the library records they resolve to.
module References {
  import opened Results
  import opened Decimals
  import opened Dependencies

  const MAX_MODS: nat := 256

  predicate HexDigit(c: char) {
    IsDigit(c) || 'a' <= c <= 'f'
  }

  predicate ValidHash(s: string) {
    |s| == 64 && forall i | 0 <= i < 64 :: HexDigit(s[i])
  }

  type Sha256 = s: string | ValidHash(s)
    witness seq(64, i => '0')

  predicate IdChar(c: char) {
    'a' <= c <= 'z' || IsDigit(c)
  }

  predicate ValidId(s: string) {
    && 0 < |s| <= 128
    && IdChar(s[0])
    && forall i | 0 <= i < |s| :: IdChar(s[i]) || s[i] in "._-"
  }

  // The texts of digests and mod ids, character by character.
  lemma HashMeaning(s: string)
    ensures ValidHash(s) <==> |s| == 64 && forall c | c in s :: c in "0123456789abcdef"
  {
    forall c ensures HexDigit(c) <==> c in "0123456789abcdef" {
      HexMeaning(c);
    }
  }

  lemma HexMeaning(c: char)
    ensures HexDigit(c) <==> c in "0123456789abcdef"
  {
  }

  lemma IdMeaning(s: string)
    ensures ValidId(s) <==>
            && 0 < |s| <= 128 && s[0] !in "._-"
            && forall c | c in s :: c in "._-" || '0' <= c <= '9' || 'a' <= c <= 'z'
  {
    if ValidId(s) {
      assert s[0] in s;
    }
  }

  datatype ExactReference = ExactReference(modId: nat, releaseId: ReleaseId, sha256: Sha256)

  datatype LocalReference = LocalReference(modId: string, sha256: Sha256)

  datatype Reference = Registry(exact: ExactReference) | Local(local: LocalReference)

  // The stored form of a local reference; its origin is always a local import.
  datatype ModReference = ModReference(modId: string, hash: string, releaseId: Option<string>)

  predicate ValidReference(r: Reference) {
    match r
    case Registry(exact) => exact.releaseId.version == 4 && exact.releaseId.rfc4122
    case Local(local) => ValidId(local.modId)
  }

  function RegistryRuntimeId(exact: ExactReference): string {
    "registry." + Decimal(exact.modId)
  }

  function RuntimeId(r: Reference): string {
    match r
    case Registry(exact) => RegistryRuntimeId(exact)
    case Local(local) => local.modId
  }

  function HashOf(r: Reference): Sha256 {
    match r
    case Registry(exact) => exact.sha256
    case Local(local) => local.sha256
  }

  function Stored(local: LocalReference): ModReference {
    ModReference(local.modId, local.sha256, None)
  }

  function ToLocal(m: ModReference): Option<LocalReference> {
    if m.releaseId.None? && ValidHash(m.hash) && ValidId(m.modId) then Some(LocalReference(m.modId, m.hash)) else None
  }

  lemma ToLocalIsStored(m: ModReference, local: LocalReference)
    requires ValidId(local.modId)
    ensures ToLocal(m) == Some(local) <==> m == Stored(local)
  {
  }

  lemma RuntimeIdInjective(a: ExactReference, b: ExactReference)
    requires RegistryRuntimeId(a) == RegistryRuntimeId(b)
    ensures a.modId == b.modId
  {
    assert RegistryRuntimeId(a)[9..] == Decimal(a.modId);
    assert RegistryRuntimeId(b)[9..] == Decimal(b.modId);
    DecimalInjective(a.modId, b.modId);
  }

  // ---- Library records ----

  datatype Installation =
    | Lua
    | Managed(sourceRoot: string, entryAssembly: string, entryType: string)
    | Content

  datatype RegistryEntry = RegistryEntry(
    reference: ExactReference, name: string, versionLabel: string,
    installation: Installation, dependencies: seq<Dependency>)

  datatype Layout = LuaZip | ManagedZip(root: string, entryAssembly: string, entryType: string)

  // othersValid answers the checks on text, layout and path that never touch order.
  datatype Manifest = Manifest(
    modId: string, name: string, version: string, layout: Layout,
    required: seq<ModReference>, loadBefore: seq<string>, loadAfter: seq<string>, othersValid: bool)

  datatype LocalSource = LocalSource(reference: ModReference, path: string, manifest: Manifest, othersValid: bool)

  ghost predicate DistinctStrings(s: seq<string>) {
    forall i, j | 0 <= i < j < |s| :: s[i] != s[j]
  }

  ghost predicate ValidTargets(manifest: Manifest, targets: seq<string>) {
    && |targets| <= 64
    && (forall t | t in targets :: ValidId(t) && t != manifest.modId)
    && DistinctStrings(targets)
  }

  // `validate_reference`
  predicate ValidStored(m: ModReference) {
    ValidHash(m.hash) && m.releaseId.None?
  }

  function RequiredIds(manifest: Manifest): (ids: seq<string>)
    ensures |ids| == |manifest.required|
    ensures forall i | 0 <= i < |ids| :: ids[i] == manifest.required[i].modId
  {
    seq(|manifest.required|, i requires 0 <= i < |manifest.required| => manifest.required[i].modId)
  }

  ghost predicate ValidManifest(manifest: Manifest) {
    && manifest.othersValid
    && ValidId(manifest.modId)
    && |manifest.required| <= 64
    && (forall m | m in manifest.required :: ValidStored(m) && m.modId != manifest.modId)
    && DistinctStrings(RequiredIds(manifest))
    && ValidTargets(manifest, manifest.loadBefore)
    && ValidTargets(manifest, manifest.loadAfter)
  }

  ghost predicate ValidSource(source: LocalSource) {
    && source.othersValid
    && ValidManifest(source.manifest)
    && ValidStored(source.reference)
    && source.reference.modId == source.manifest.modId
  }

  function FindEntry(installed: seq<RegistryEntry>, reference: ExactReference): (r: Option<RegistryEntry>)
    ensures r.Some? ==> r.value in installed && r.value.reference == reference
    ensures r.None? ==> forall e | e in installed :: e.reference != reference
  {
    if installed == [] then None
    else if installed[0].reference == reference then Some(installed[0])
    else FindEntry(installed[1..], reference)
  }

  function FindSource(locals: seq<LocalSource>, reference: ModReference): (r: Option<LocalSource>)
    ensures r.Some? ==> r.value in locals && r.value.reference == reference
    ensures r.None? ==> forall e | e in locals :: e.reference != reference
  {
    if locals == [] then None
    else if locals[0].reference == reference then Some(locals[0])
    else FindSource(locals[1..], reference)
  }
}
