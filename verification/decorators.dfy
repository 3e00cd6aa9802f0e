/** The metadata layer: the per-handler descriptor (`f._spec`) that the
    decorators fill in, and the validation-error status fallback of the
    request parser (src/apifairy/decorators.py). */
module Decorators {
  import opened Wrappers
  import opened Collaborators
  import Seqs

  /** The keys a decorator may set in a descriptor. */
  datatype Key = ArgsKey | BodyKey | ResponseKey | StatusCodeKey | DescriptionKey
               | ResponseHeadersKey | OtherResponsesKey | AuthKey | RolesKey

  /** A descriptor value, tagged with the key it is stored under. */
  datatype Value =
    | Args(args: seq<(Schema, string)>)
    | Body(schema: Schema, location: string, mediaType: Option<string>)
    | ResponseSchema(schema: Schema)
    | StatusCode(code: int)
    | Description(text: Option<string>)
    | ResponseHeaders(headers: Option<Schema>)
    | OtherResponses(responses: seq<(int, string)>)
    | AuthObject(auth: Auth)
    | Roles(roles: seq<string>)
  {
    function KeyOf(): Key {
      match this
      case Args(_) => ArgsKey
      case Body(_, _, _) => BodyKey
      case ResponseSchema(_) => ResponseKey
      case StatusCode(_) => StatusCodeKey
      case Description(_) => DescriptionKey
      case ResponseHeaders(_) => ResponseHeadersKey
      case OtherResponses(_) => OtherResponsesKey
      case AuthObject(_) => AuthKey
      case Roles(_) => RolesKey
    }
  }

  /** The `_spec` dictionary attached to a view function. */
  type Descriptor = map<Key, Value>

  /** Every value sits under its own key; every descriptor the decorators build is so. */
  predicate WellKeyed(d: Descriptor) {
    forall k :: k in d ==> d[k].KeyOf() == k
  }

  function KeySet(values: seq<Value>): (keys: set<Key>)
    ensures forall v :: v in values ==> v.KeyOf() in keys
    ensures forall k :: k in keys ==> exists v :: v in values && v.KeyOf() == k
  {
    if values == [] then {} else {values[0].KeyOf()} + KeySet(values[1..])
  }

  /** Keyword arguments never repeat a key. */
  predicate DistinctKeys(values: seq<Value>) {
    forall i, j :: 0 <= i < j < |values| ==> values[i].KeyOf() != values[j].KeyOf()
  }

  /** The keys of an optional descriptor; a function without `_spec` has none. */
  function KeysOf(spec: Option<Descriptor>): set<Key> {
    if spec.Some? then spec.value.Keys else {}
  }

  /** Stores each value under its key, in order. */
  function SetAll(d: Descriptor, values: seq<Value>): (r: Descriptor)
    requires DistinctKeys(values)
    ensures r.Keys == d.Keys + KeySet(values)
    ensures forall v :: v in values ==> r[v.KeyOf()] == v
    ensures forall k :: k in d && k !in KeySet(values) ==> r[k] == d[k]
    ensures WellKeyed(d) ==> WellKeyed(r)
    decreases |values|
  {
    if values == [] then d
    else
      var v := values[0];
      FirstKeyIsFresh(values);
      SetAll(d[v.KeyOf() := v], values[1..])
  }

  lemma FirstKeyIsFresh(values: seq<Value>)
    requires values != [] && DistinctKeys(values)
    ensures DistinctKeys(values[1..])
    ensures values[0].KeyOf() !in KeySet(values[1..])
    ensures KeySet(values) == {values[0].KeyOf()} + KeySet(values[1..])
    ensures forall v :: v in values ==> v == values[0] || v in values[1..]
  {
    assert values == [values[0]] + values[1..];
  }

  /** `_annotate(f, **kwargs)`: creates an empty descriptor when the function has
      none, sets exactly the given keys and leaves every other key as it was. */
  function Annotate(spec: Option<Descriptor>, values: seq<Value>): (r: Descriptor)
    requires DistinctKeys(values)
    ensures r.Keys == KeysOf(spec) + KeySet(values)
    ensures forall v :: v in values ==> r[v.KeyOf()] == v
    ensures spec.Some? ==> forall k :: k in spec.value && k !in KeySet(values) ==> r[k] == spec.value[k]
    ensures (spec.None? || WellKeyed(spec.value)) ==> WellKeyed(r)
  {
    SetAll(if spec.Some? then spec.value else map[], values)
  }

  /** `spec.get('args', [])`. */
  function ArgsOf(spec: Option<Descriptor>): seq<(Schema, string)> {
    if spec.Some? && ArgsKey in spec.value && spec.value[ArgsKey].Args? then spec.value[ArgsKey].args
    else []
  }

  /** `@arguments(schema, location)`: starts the argument list when absent, then
      appends `(schema, location)`; earlier arguments and every other key are kept. */
  function AddArguments(spec: Option<Descriptor>, schema: Schema, location: string := "query"): (r: Descriptor)
    requires spec.Some? ==> WellKeyed(spec.value)
    ensures WellKeyed(r)
    ensures ArgsOf(Some(r)) == ArgsOf(spec) + [(schema, location)]
    ensures r.Keys == KeysOf(spec) + {ArgsKey}
    ensures spec.Some? ==> forall k :: k in spec.value && k != ArgsKey ==> r[k] == spec.value[k]
  {
    var d := if spec.None? || ArgsKey !in spec.value then Annotate(spec, [Args([])]) else spec.value;
    assert KeySet([Args([])]) == {ArgsKey};
    d[ArgsKey := Args(d[ArgsKey].args + [(schema, location)])]
  }

  /** Applies `@arguments` once per declaration, in application order. */
  function AddAllArguments(spec: Option<Descriptor>, decls: seq<(Schema, string)>): (r: Option<Descriptor>)
    requires spec.Some? ==> WellKeyed(spec.value)
    ensures r.Some? ==> WellKeyed(r.value)
    decreases |decls|
  {
    if decls == [] then spec
    else AddAllArguments(Some(AddArguments(spec, decls[0].0, decls[0].1)), decls[1..])
  }

  /** However the declarations are spread over decorator applications, the
      argument list is all of them, in the order applied. */
  lemma {:induction false} ArgumentsAccumulate(spec: Option<Descriptor>, decls: seq<(Schema, string)>)
    requires spec.Some? ==> WellKeyed(spec.value)
    ensures ArgsOf(AddAllArguments(spec, decls)) == ArgsOf(spec) + decls
    decreases |decls|
  {
    if decls != [] {
      var next := Some(AddArguments(spec, decls[0].0, decls[0].1));
      assert AddAllArguments(spec, decls) == AddAllArguments(next, decls[1..]);
      assert ArgsOf(next) == ArgsOf(spec) + [decls[0]];
      ArgumentsAccumulate(next, decls[1..]);
      Seqs.HeadThenRest(ArgsOf(spec), decls);
    }
  }

  /** `@body(schema, location, media_type)`. */
  function DeclareBody(spec: Option<Descriptor>, schema: Schema, location: string := "json",
                       mediaType: Option<string> := None): (r: Descriptor)
    ensures r.Keys == KeysOf(spec) + {BodyKey}
    ensures r[BodyKey] == Body(schema, location, mediaType)
    ensures spec.Some? ==> forall k :: k in spec.value && k != BodyKey ==> r[k] == spec.value[k]
    ensures (spec.None? || WellKeyed(spec.value)) ==> WellKeyed(r)
  {
    var values := [Body(schema, location, mediaType)];
    assert KeySet(values) == {BodyKey};
    Annotate(spec, values)
  }

  /** The four keys `@response` sets. */
  const ResponseKeys: set<Key> := {ResponseKey, StatusCodeKey, DescriptionKey, ResponseHeadersKey}

  /** `@response(schema, status_code, description, headers)`: records the four
      response keys together and nothing else. */
  function DeclareResponse(spec: Option<Descriptor>, schema: Schema, statusCode: int := 200,
                           description: Option<string> := None, headers: Option<Schema> := None): (r: Descriptor)
    ensures r.Keys == KeysOf(spec) + ResponseKeys
    ensures r[ResponseKey] == ResponseSchema(schema) && r[StatusCodeKey] == StatusCode(statusCode)
    ensures r[DescriptionKey] == Description(description) && r[ResponseHeadersKey] == ResponseHeaders(headers)
    ensures spec.Some? ==> forall k :: k in spec.value && k !in ResponseKeys ==> r[k] == spec.value[k]
    ensures (spec.None? || WellKeyed(spec.value)) ==> WellKeyed(r)
  {
    var values := [ResponseSchema(schema), StatusCode(statusCode), Description(description), ResponseHeaders(headers)];
    ResponseValuesKeys(values);
    AnnotateFour(spec, values)
  }

  /** `Annotate` with four values of distinct keys, stated key by key. */
  function AnnotateFour(spec: Option<Descriptor>, values: seq<Value>): (r: Descriptor)
    requires |values| == 4 && DistinctKeys(values)
    ensures r.Keys == KeysOf(spec) + KeySet(values)
    ensures r[values[0].KeyOf()] == values[0] && r[values[1].KeyOf()] == values[1]
    ensures r[values[2].KeyOf()] == values[2] && r[values[3].KeyOf()] == values[3]
    ensures spec.Some? ==> forall k :: k in spec.value && k !in KeySet(values) ==> r[k] == spec.value[k]
    ensures (spec.None? || WellKeyed(spec.value)) ==> WellKeyed(r)
  {
    assert values[0] in values && values[1] in values && values[2] in values && values[3] in values;
    Annotate(spec, values)
  }

  lemma ResponseValuesKeys(values: seq<Value>)
    requires |values| == 4 && values[0].ResponseSchema? && values[1].StatusCode?
    requires values[2].Description? && values[3].ResponseHeaders?
    ensures DistinctKeys(values) && KeySet(values) == ResponseKeys
    ensures values[0].KeyOf() == ResponseKey && values[1].KeyOf() == StatusCodeKey
    ensures values[2].KeyOf() == DescriptionKey && values[3].KeyOf() == ResponseHeadersKey
    ensures values[0] in values && values[1] in values && values[2] in values && values[3] in values
  {
    assert KeySet(values[3..]) == {ResponseHeadersKey};
    assert KeySet(values[2..]) == {DescriptionKey, ResponseHeadersKey};
    assert KeySet(values[1..]) == {StatusCodeKey, DescriptionKey, ResponseHeadersKey};
  }

  /** `@other_responses(responses)`. */
  function DeclareOtherResponses(spec: Option<Descriptor>, responses: seq<(int, string)>): (r: Descriptor)
    ensures r.Keys == KeysOf(spec) + {OtherResponsesKey}
    ensures r[OtherResponsesKey] == OtherResponses(responses)
    ensures spec.Some? ==> forall k :: k in spec.value && k != OtherResponsesKey ==> r[k] == spec.value[k]
    ensures (spec.None? || WellKeyed(spec.value)) ==> WellKeyed(r)
  {
    var values := [OtherResponses(responses)];
    assert KeySet(values) == {OtherResponsesKey};
    Annotate(spec, values)
  }

  /** The `role` keyword of `@authenticate`: absent (`None`), a list, or any
      other single value. */
  datatype RoleArgument = NoRole | RoleList(roles: seq<string>) | SingleRole(role: string)

  /** A list is kept, `None` becomes the empty list and a single value becomes a
      one-element list. */
  function NormaliseRoles(role: RoleArgument): (roles: seq<string>)
    ensures role.RoleList? ==> roles == role.roles
    ensures role.NoRole? ==> roles == []
    ensures role.SingleRole? ==> roles == [role.role]
  {
    match role
    case RoleList(roles) => roles
    case NoRole => []
    case SingleRole(r) => [r]
  }

  /** Normalising is idempotent: the normalised list, passed again as a list,
      is kept unchanged, and every role mentioned survives. */
  lemma NormaliseRolesIdempotent(role: RoleArgument)
    ensures NormaliseRoles(RoleList(NormaliseRoles(role))) == NormaliseRoles(role)
    ensures role.SingleRole? ==> role.role in NormaliseRoles(role)
    ensures |NormaliseRoles(role)| == 0 <==> role.NoRole? || role == RoleList([])
  {
  }

  /** `@authenticate(auth, role=...)`: records the auth object and the normalised
      role list, and nothing else. */
  function Authenticate(spec: Option<Descriptor>, auth: Auth, role: RoleArgument := NoRole): (r: Descriptor)
    ensures r.Keys == KeysOf(spec) + {AuthKey, RolesKey}
    ensures r[AuthKey] == AuthObject(auth) && r[RolesKey] == Roles(NormaliseRoles(role))
    ensures spec.Some? ==> forall k :: k in spec.value && k !in {AuthKey, RolesKey} ==> r[k] == spec.value[k]
    ensures (spec.None? || WellKeyed(spec.value)) ==> WellKeyed(r)
  {
    var values := [AuthObject(auth), Roles(NormaliseRoles(role))];
    assert KeySet(values) == {AuthKey, RolesKey};
    Annotate(spec, values)
  }

  /** `FlaskParser.DEFAULT_VALIDATION_STATUS`. */
  const DefaultValidationStatus: int := 400

  /** The `ValidationError` the parser raises. */
  datatype ValidationError<M> = ValidationError(statusCode: int, messages: M)

  /** `FlaskParser.handle_error`: the status is the one the parser supplies when it
      is truthy (present and non-zero), and 400 otherwise; the messages pass through. */
  function HandleError<M>(messages: M, errorStatusCode: Option<int>): (e: ValidationError<M>)
    ensures e.messages == messages
    ensures e.statusCode != 0
    ensures e.statusCode == DefaultValidationStatus <==>
              errorStatusCode in {None, Some(0), Some(DefaultValidationStatus)}
    ensures e.statusCode != DefaultValidationStatus ==> errorStatusCode == Some(e.statusCode)
  {
    ValidationError(if errorStatusCode.Some? && errorStatusCode.value != 0 then errorStatusCode.value
                    else DefaultValidationStatus, messages)
  }
}
