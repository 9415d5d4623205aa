/** Scope declarations: the typed value, its raw wire form and the validation between them. */
module Declarations {
  import opened Wrappers
  import opened ScopeKeys

  datatype ServiceManifest = ServiceManifest(key: ServiceKey, labelKey: string, descriptionKey: string)

  datatype ScopeSpec =
    ScopeSpec(key: ScopeKey, labelKey: string, descriptionKey: string, platformOnly: bool)

  datatype DeclarationError =
    | InvalidScopeKey(key: string, validation: KeyError)
    | ScopePrefixMismatch(scopeService: string, declaringService: string)
    | DuplicateScopeInDeclaration(key: string)
    | ScopeOwnedByAnotherService(key: string, owner: string)

  ghost predicate DistinctKeys(scopes: seq<ScopeSpec>) {
    forall i, j :: 0 <= i < j < |scopes| ==> scopes[i].key != scopes[j].key
  }

  ghost predicate AllOwned(service: ServiceKey, scopes: seq<ScopeSpec>) {
    forall i :: 0 <= i < |scopes| ==> IsOwnedBy(scopes[i].key, service)
  }

  ghost predicate WellFormed(service: ServiceKey, scopes: seq<ScopeSpec>) {
    AllOwned(service, scopes) && DistinctKeys(scopes)
  }

  datatype DeclarationFields = Declaration(manifest: ServiceManifest, scopes: seq<ScopeSpec>)

  /** A declaration exists only through `NewDeclaration`. */
  type ScopeDeclaration = d: DeclarationFields | WellFormed(d.manifest.key, d.scopes)
    witness Declaration(ServiceManifest("a", "", ""), [])

  /** What the Rust key types guarantee of a declaration: all its keys have been parsed. */
  ghost predicate KeysParsed(d: ScopeDeclaration) {
    IsServiceKey(d.manifest.key) && forall i :: 0 <= i < |d.scopes| ==> IsScopeKey(d.scopes[i].key)
  }

  function Keys(scopes: seq<ScopeSpec>): set<ScopeKey> {
    set i | 0 <= i < |scopes| :: scopes[i].key
  }

  /** The error of the first spec that is foreign or repeated. */
  function FirstFault(service: ServiceKey, scopes: seq<ScopeSpec>): Option<DeclarationError> {
    if scopes == [] then None
    else
      var before, spec := scopes[..|scopes| - 1], scopes[|scopes| - 1];
      match FirstFault(service, before)
      case Some(fault) => Some(fault)
      case None =>
        if !IsOwnedBy(spec.key, service) then Some(ScopePrefixMismatch(ServiceSegment(spec.key), service))
        else if spec.key in Keys(before) then Some(DuplicateScopeInDeclaration(spec.key))
        else None
  }

  lemma InKeys(scopes: seq<ScopeSpec>, key: ScopeKey)
    ensures key in Keys(scopes) <==> exists i :: 0 <= i < |scopes| && scopes[i].key == key
  {}

  lemma WellFormedSnoc(service: ServiceKey, scopes: seq<ScopeSpec>, spec: ScopeSpec)
    ensures WellFormed(service, scopes + [spec]) <==>
            && WellFormed(service, scopes)
            && IsOwnedBy(spec.key, service)
            && spec.key !in Keys(scopes)
  {
    var all, n := scopes + [spec], |scopes|;
    assert forall i :: 0 <= i < n ==> all[i] == scopes[i];
    assert all[n] == spec;
    InKeys(scopes, spec.key);
    if WellFormed(service, all) {
      assert forall i :: 0 <= i < n ==> IsOwnedBy(all[i].key, service);
      assert forall i :: 0 <= i < n ==> all[i].key != all[n].key;
    }
  }

  lemma {:induction false} FaultlessIsWellFormed(service: ServiceKey, scopes: seq<ScopeSpec>)
    ensures FirstFault(service, scopes).None? <==> WellFormed(service, scopes)
  {
    if scopes != [] {
      var before, spec := scopes[..|scopes| - 1], scopes[|scopes| - 1];
      FaultlessIsWellFormed(service, before);
      WellFormedSnoc(service, before, spec);
      assert scopes == before + [spec];
    }
  }

  /** The reported fault is the first: everything before its spec is well formed, and a foreign
      prefix is reported before a repetition. */
  lemma {:induction false} FirstFaultIsFirst(service: ServiceKey, scopes: seq<ScopeSpec>)
    requires FirstFault(service, scopes).Some?
    ensures exists i :: 0 <= i < |scopes| && WellFormed(service, scopes[..i]) &&
              var key := scopes[i].key;
              if !IsOwnedBy(key, service)
              then FirstFault(service, scopes).value == ScopePrefixMismatch(ServiceSegment(key), service)
              else key in Keys(scopes[..i]) && FirstFault(service, scopes).value == DuplicateScopeInDeclaration(key)
  {
    var n: nat := |scopes| - 1;
    if FirstFault(service, scopes[..n]).Some? {
      FirstFaultIsFirst(service, scopes[..n]);
      var i :| 0 <= i < n && WellFormed(service, scopes[..n][..i]) &&
        var key := scopes[..n][i].key;
        if !IsOwnedBy(key, service)
        then FirstFault(service, scopes[..n]).value == ScopePrefixMismatch(ServiceSegment(key), service)
        else
          && key in Keys(scopes[..n][..i])
          && FirstFault(service, scopes[..n]).value == DuplicateScopeInDeclaration(key);
      assert scopes[..n][..i] == scopes[..i];
      assert WellFormed(service, scopes[..i]);
    } else {
      FaultlessIsWellFormed(service, scopes[..n]);
    }
  }

  /** Checks every spec in order; stops at the first foreign or repeated key. */
  method NewDeclaration(manifest: ServiceManifest, scopes: seq<ScopeSpec>)
    returns (r: Result<ScopeDeclaration, DeclarationError>)
    ensures r.Ok? <==> WellFormed(manifest.key, scopes)
    ensures r.Ok? ==> r.value == Declaration(manifest, scopes)
    ensures r.Err? ==> FirstFault(manifest.key, scopes) == Some(r.error)
  {
    var seen: set<ScopeKey> := {};
    for i := 0 to |scopes|
      invariant FirstFault(manifest.key, scopes[..i]).None?
      invariant seen == Keys(scopes[..i])
    {
      var spec := scopes[i];
      assert scopes[..i + 1][..i] == scopes[..i];
      if !IsOwnedBy(spec.key, manifest.key) {
        FaultStays(manifest.key, scopes, i + 1);
        FaultlessIsWellFormed(manifest.key, scopes);
        return Err(ScopePrefixMismatch(ServiceSegment(spec.key), manifest.key));
      }
      if spec.key in seen {
        FaultStays(manifest.key, scopes, i + 1);
        FaultlessIsWellFormed(manifest.key, scopes);
        return Err(DuplicateScopeInDeclaration(spec.key));
      }
      KeysSnoc(scopes[..i + 1]);
      seen := seen + {spec.key};
    }
    assert scopes[..|scopes|] == scopes;
    FaultlessIsWellFormed(manifest.key, scopes);
    return Ok(Declaration(manifest, scopes));
  }

  lemma KeysSnoc(scopes: seq<ScopeSpec>)
    requires scopes != []
    ensures Keys(scopes) == Keys(scopes[..|scopes| - 1]) + {scopes[|scopes| - 1].key}
  {}

  lemma {:induction false} FaultStays(service: ServiceKey, scopes: seq<ScopeSpec>, n: nat)
    requires n <= |scopes| && FirstFault(service, scopes[..n]).Some?
    ensures FirstFault(service, scopes) == FirstFault(service, scopes[..n])
  {
    if n == |scopes| {
      assert scopes[..n] == scopes;
    } else {
      var m := |scopes| - 1;
      assert scopes[..m][..n] == scopes[..n];
      FaultStays(service, scopes[..m], n);
    }
  }

  // ----- the raw wire form -----

  datatype RawManifest = RawManifest(key: string, labelKey: string, descriptionKey: string)

  datatype RawScopeSpec =
    RawScopeSpec(key: string, labelKey: string, descriptionKey: string, platformOnly: bool)

  datatype RawDeclaration = RawDeclaration(manifest: RawManifest, scopes: seq<RawScopeSpec>)

  function RawSpec(spec: ScopeSpec): RawScopeSpec {
    RawScopeSpec(spec.key, spec.labelKey, spec.descriptionKey, spec.platformOnly)
  }

  /** The wire form of a declaration, which forgets that its keys were parsed. */
  function Raw(d: ScopeDeclaration): RawDeclaration {
    RawDeclaration(
      RawManifest(d.manifest.key, d.manifest.labelKey, d.manifest.descriptionKey),
      seq(|d.scopes|, i requires 0 <= i < |d.scopes| => RawSpec(d.scopes[i])))
  }

  /** Types the specs in order; the first bad key is the error. */
  function ParseSpecs(raws: seq<RawScopeSpec>): (r: Result<seq<ScopeSpec>, DeclarationError>)
    ensures r.Ok? ==> |r.value| == |raws|
  {
    if raws == [] then Ok([])
    else
      var raw := raws[|raws| - 1];
      match ParseSpecs(raws[..|raws| - 1])
      case Err(e) => Err(e)
      case Ok(specs) =>
        match NewScopeKey(raw.key)
        case Err(fault) => Err(InvalidScopeKey(raw.key, fault))
        case Ok(key) =>
          Ok(specs + [ScopeSpec(key, raw.labelKey, raw.descriptionKey, raw.platformOnly)])
  }

  ghost function Validate(raw: RawDeclaration): Result<ScopeDeclaration, DeclarationError> {
    match NewServiceKey(raw.manifest.key)
    case Err(fault) => Err(InvalidScopeKey(raw.manifest.key, fault))
    case Ok(service) =>
      match ParseSpecs(raw.scopes)
      case Err(e) => Err(e)
      case Ok(specs) =>
        match FirstFault(service, specs)
        case Some(fault) => Err(fault)
        case None =>
          FaultlessIsWellFormed(service, specs);
          Ok(Declaration(
               ServiceManifest(service, raw.manifest.labelKey, raw.manifest.descriptionKey), specs))
  }

  method ValidateRaw(raw: RawDeclaration) returns (r: Result<ScopeDeclaration, DeclarationError>)
    ensures r == Validate(raw)
  {
    var service := NewServiceKey(raw.manifest.key);
    if service.Err? {
      return Err(InvalidScopeKey(raw.manifest.key, service.error));
    }
    var manifest := ServiceManifest(service.value, raw.manifest.labelKey, raw.manifest.descriptionKey);
    var specs: seq<ScopeSpec> := [];
    for i := 0 to |raw.scopes|
      invariant ParseSpecs(raw.scopes[..i]) == Ok(specs)
    {
      var scope := raw.scopes[i];
      var key := NewScopeKey(scope.key);
      assert raw.scopes[..i + 1][..i] == raw.scopes[..i];
      if key.Err? {
        ParseErrorStays(raw.scopes, i + 1);
        return Err(InvalidScopeKey(scope.key, key.error));
      }
      specs := specs + [ScopeSpec(key.value, scope.labelKey, scope.descriptionKey, scope.platformOnly)];
    }
    assert raw.scopes[..|raw.scopes|] == raw.scopes;
    FaultlessIsWellFormed(manifest.key, specs);
    r := NewDeclaration(manifest, specs);
  }

  lemma {:induction false} ParseErrorStays(raws: seq<RawScopeSpec>, n: nat)
    requires n <= |raws| && ParseSpecs(raws[..n]).Err?
    ensures ParseSpecs(raws) == ParseSpecs(raws[..n])
  {
    if n == |raws| {
      assert raws[..n] == raws;
    } else {
      var m := |raws| - 1;
      assert raws[..m][..n] == raws[..n];
      ParseErrorStays(raws[..m], n);
    }
  }

  /** Parsing undoes `RawSpec`, spec by spec, and succeeds exactly on well-formed keys. */
  lemma {:induction false} ParseSpecsMeaning(raws: seq<RawScopeSpec>)
    ensures ParseSpecs(raws).Ok? <==> forall i :: 0 <= i < |raws| ==> IsScopeKey(raws[i].key)
    ensures ParseSpecs(raws).Ok? ==>
              forall i :: 0 <= i < |raws| ==> raws[i] == RawSpec(ParseSpecs(raws).value[i])
    ensures ParseSpecs(raws).Err? ==> ParseSpecs(raws).error.InvalidScopeKey?
  {
    if raws != [] {
      var m := |raws| - 1;
      ParseSpecsMeaning(raws[..m]);
      assert forall i :: 0 <= i < m ==> raws[..m][i] == raws[i];
    }
  }

  /** The first spec whose key does not parse is the one reported, with its key and its fault. */
  lemma {:induction false} FirstBadKey(raws: seq<RawScopeSpec>, i: nat)
    requires i < |raws| && !IsScopeKey(raws[i].key) && forall j :: 0 <= j < i ==> IsScopeKey(raws[j].key)
    ensures ParseSpecs(raws) == Err(InvalidScopeKey(raws[i].key, NewScopeKey(raws[i].key).error))
  {
    ParseSpecsMeaning(raws[..i]);
    assert raws[..i + 1][..i] == raws[..i];
    ParseErrorStays(raws, i + 1);
  }

  /** Which error validation reports: an unparsable service key first, then the first unparsable
      scope key, each with its own fault, and then the first fault among the parsed specs. */
  lemma ValidateReports(raw: RawDeclaration, i: nat)
    ensures !IsServiceKey(raw.manifest.key) ==>
              Validate(raw) == Err(InvalidScopeKey(raw.manifest.key, NewServiceKey(raw.manifest.key).error))
    ensures IsServiceKey(raw.manifest.key) && i < |raw.scopes| && !IsScopeKey(raw.scopes[i].key)
            && (forall j :: 0 <= j < i ==> IsScopeKey(raw.scopes[j].key)) ==>
              Validate(raw) == Err(InvalidScopeKey(raw.scopes[i].key, NewScopeKey(raw.scopes[i].key).error))
    ensures IsServiceKey(raw.manifest.key) && ParseSpecs(raw.scopes).Ok?
            && FirstFault(raw.manifest.key, ParseSpecs(raw.scopes).value).Some? ==>
              Validate(raw) == Err(FirstFault(raw.manifest.key, ParseSpecs(raw.scopes).value).value)
  {
    if i < |raw.scopes| && !IsScopeKey(raw.scopes[i].key) && forall j :: 0 <= j < i ==> IsScopeKey(raw.scopes[j].key) {
      FirstBadKey(raw.scopes, i);
    }
  }

  /** Validation is the inverse of `Raw`: it accepts exactly the raw forms of declarations
      with parsed keys, and gives each one back. */
  lemma ValidateInvertsRaw(raw: RawDeclaration, d: ScopeDeclaration)
    ensures Validate(raw) == Ok(d) <==> raw == Raw(d) && KeysParsed(d)
  {
    ParseSpecsMeaning(raw.scopes);
    if raw == Raw(d) && KeysParsed(d) {
      assert forall i :: 0 <= i < |raw.scopes| ==> raw.scopes[i] == RawSpec(d.scopes[i]);
      assert ParseSpecs(raw.scopes).value == d.scopes;
      FaultlessIsWellFormed(d.manifest.key, d.scopes);
    }
    if Validate(raw) == Ok(d) {
      assert Raw(d).scopes == raw.scopes;
      forall i | 0 <= i < |d.scopes|
        ensures IsScopeKey(d.scopes[i].key)
      {
        assert raw.scopes[i] == RawSpec(d.scopes[i]);
      }
    }
  }

  lemma RoundTrip(d: ScopeDeclaration)
    requires KeysParsed(d)
    ensures Validate(Raw(d)) == Ok(d)
  {
    ValidateInvertsRaw(Raw(d), d);
  }

  /** Key errors come before ownership and repetition errors, and validation alone never
      blames another service. */
  lemma ValidateErrors(raw: RawDeclaration)
    requires Validate(raw).Err?
    ensures Validate(raw).error.InvalidScopeKey? <==>
            !IsServiceKey(raw.manifest.key)
            || exists i :: 0 <= i < |raw.scopes| && !IsScopeKey(raw.scopes[i].key)
    ensures !Validate(raw).error.ScopeOwnedByAnotherService?
  {
    ParseSpecsMeaning(raw.scopes);
    if IsServiceKey(raw.manifest.key) && ParseSpecs(raw.scopes).Ok? {
      FaultKind(raw.manifest.key, ParseSpecs(raw.scopes).value);
    }
  }

  lemma {:induction false} FaultKind(service: ServiceKey, scopes: seq<ScopeSpec>)
    requires FirstFault(service, scopes).Some?
    ensures FirstFault(service, scopes).value.ScopePrefixMismatch?
            || FirstFault(service, scopes).value.DuplicateScopeInDeclaration?
  {
    if FirstFault(service, scopes[..|scopes| - 1]).Some? {
      FaultKind(service, scopes[..|scopes| - 1]);
    }
  }
}
