/** The OpenAPI operation documented for one route and one HTTP method
    (src/apifairy/core.py:216-296): operation id, tag, summary and description,
    parameters, responses, request body and security requirement. */
module Operations {
  import opened Wrappers
  import opened Errors
  import opened Strings
  import OrderedMaps
  import Seqs
  import opened Collaborators
  import opened Decorators
  import Security
  import PathRules
  import opened Docstrings

  /** The HTTP methods that are documented. */
  datatype Verb = Get | Post | Put | Patch | Delete
  {
    /** The method name as the routing table stores it. */
    function Upper(): string {
      match this
      case Get => "GET"
      case Post => "POST"
      case Put => "PUT"
      case Patch => "PATCH"
      case Delete => "DELETE"
    }

    /** The key of the operation in its path item. */
    function Lower(): string {
      match this
      case Get => "get"
      case Post => "post"
      case Put => "put"
      case Patch => "patch"
      case Delete => "delete"
    }
  }

  /** The order in which a path item lists its operations. */
  const VerbOrder: seq<Verb> := [Get, Post, Put, Patch, Delete]

  lemma AllVerbsListed()
    ensures forall v: Verb :: v in VerbOrder
  {
    forall v: Verb
      ensures v in VerbOrder
    {
      match v
      case Get => assert VerbOrder[0] == v;
      case Post => assert VerbOrder[1] == v;
      case Put => assert VerbOrder[2] == v;
      case Patch => assert VerbOrder[3] == v;
      case Delete => assert VerbOrder[4] == v;
    }
  }

  /** The lower-case names of different methods differ in their first two letters. */
  lemma InitialsDiffer(v: Verb, w: Verb)
    requires v != w
    ensures |v.Lower()| >= 2 && |w.Lower()| >= 2 && v.Lower()[..2] != w.Lower()[..2]
  {
    assert Get.Lower()[..2] == "ge" && Post.Lower()[..2] == "po" && Put.Lower()[..2] == "pu";
    assert Patch.Lower()[..2] == "pa" && Delete.Lower()[..2] == "de";
  }

  /** The two spellings agree: the lower-case name is the upper-case one lowered. */
  lemma LowerIsLowered(v: Verb)
    ensures |v.Lower()| == |v.Upper()|
    ensures forall i :: 0 <= i < |v.Upper()| ==> v.Lower()[i] == ToLower(v.Upper()[i])
  {
  }

  /** The route's methods that get an operation; `HEAD`, `OPTIONS` and any
      other method are not documented. */
  function AllowedVerbs(methods: set<string>): (verbs: set<Verb>)
    ensures forall v: Verb :: v in verbs <==> v.Upper() in methods
  {
    AllVerbsListed();
    set v: Verb | v in VerbOrder && v.Upper() in methods
  }

  /** `operationId`: the endpoint with dots turned into underscores, prefixed
      by the lower-case method and an underscore when the route documents more
      than one method. */
  function OperationId(endpoint: string, verb: Verb, count: nat): (id: string)
    ensures '.' !in id
    ensures EndsWith(id, ReplaceChar(endpoint, '.', '_'))
    ensures count <= 1 ==> |id| == |endpoint|
    ensures count > 1 ==> StartsWith(id, verb.Lower() + "_")
    ensures count > 1 ==> id == verb.Lower() + "_" + ReplaceChar(endpoint, '.', '_')
    ensures count <= 1 ==> id == ReplaceChar(endpoint, '.', '_')
  {
    var base := ReplaceChar(endpoint, '.', '_');
    if count > 1 then
      var id := verb.Lower() + "_" + base;
      assert id[|id| - |base|..] == base;
      id
    else base
  }

  /** A view function whose endpoint has no dot keeps its name as the id,
      behind the lower-case method name when the route has several methods. */
  lemma OperationIdOfPlainEndpoint(endpoint: string, verb: Verb, count: nat)
    requires '.' !in endpoint
    ensures OperationId(endpoint, verb, count)
            == (if count > 1 then verb.Lower() + "_" + endpoint else endpoint)
  {
    ReplaceCharConcat(endpoint, [], '.', '_');
    assert endpoint + [] == endpoint;
  }

  /** A view `view` in blueprint `bp` has endpoint `bp.view`; its id joins the
      two names with an underscore. */
  lemma OperationIdInBlueprint(bp: string, view: string, verb: Verb, count: nat)
    requires '.' !in bp && '.' !in view
    ensures count <= 1 ==> OperationId(bp + ['.'] + view, verb, count) == bp + ['_'] + view
    ensures count > 1 ==> OperationId(bp + ['.'] + view, verb, count) == verb.Lower() + "_" + bp + ['_'] + view
  {
    var id := OperationId(bp + ['.'] + view, verb, count);
    ReplaceCharSeparator(bp, view, '.', '_');
    if count > 1 {
      assert id == verb.Lower() + "_" + ReplaceChar(bp + ['.'] + view, '.', '_');
    } else {
      assert id == ReplaceChar(bp + ['.'] + view, '.', '_');
    }
  }

  /** On a route with several methods the operation ids of different methods
      differ: the method names already differ in their first two letters. */
  lemma OperationIdsDistinct(endpoint: string, v: Verb, w: Verb, count: nat)
    requires count > 1
    ensures OperationId(endpoint, v, count) == OperationId(endpoint, w, count) <==> v == w
  {
    var a, b := OperationId(endpoint, v, count), OperationId(endpoint, w, count);
    if v != w {
      InitialsDiffer(v, w);
      assert a[..2] == v.Lower()[..2] by { assert a[..|v.Lower()|] == v.Lower(); }
      assert b[..2] == w.Lower()[..2] by { assert b[..|w.Lower()|] == w.Lower(); }
    }
  }

  /** The tag of an endpoint `blueprint.view`: the blueprint name title-cased,
      omitted when there is no dot or the blueprint part is empty. */
  function Tag(endpoint: string): (tag: Option<string>)
    ensures '.' !in endpoint ==> tag.None?
    ensures tag.Some? ==> tag.value != []
  {
    if '.' in endpoint then
      var blueprint := RSplitOnce(endpoint, '.').0;
      var t := Title(blueprint);
      if t != [] then Some(t) else None
    else None
  }

  /** The tag comes from everything before the last dot, so a nested
      blueprint `a.b` gives the tag `A.B`. */
  lemma TagOfBlueprint(blueprint: string, view: string)
    requires '.' !in view
    ensures Tag(blueprint + "." + view) == if blueprint == [] then None else Some(Title(blueprint))
  {
    assert blueprint + "." + view == blueprint + ['.'] + view;
    RSplitOnceOfJoin(blueprint, view, '.');
  }

  /** A response entry: its description, and the JSON schema of its body when
      it has one. */
  datatype Response = Response(description: string, content: Option<Schema>)

  /** A lookup in the table of standard reason phrases. */
  function Phrase(phrases: map<int, string>, code: int): (r: Result<string, Error>)
    ensures r.Success? <==> code in phrases
    ensures r.Success? ==> r.value == phrases[code]
    ensures r.Failure? ==> r.error == UnknownStatusCode(code)
  {
    if code in phrases then Success(phrases[code]) else Failure(UnknownStatusCode(code))
  }

  /** A description that is present and not empty. */
  predicate Declared(text: Option<string>) {
    text.Some? && text.value != []
  }

  /** The response documented first: the declared one, with its schema, under
      its status code and with its description or else the standard phrase; or,
      when no response is declared, `204` with the standard phrase and no body. */
  function PrimaryResponse(spec: Descriptor, phrases: map<int, string>): (r: Result<(int, Response), Error>)
    requires WellKeyed(spec)
    ensures ResponseKey !in spec ==> (r.Success? <==> 204 in phrases)
    ensures ResponseKey !in spec && r.Success? ==> r.value == (204, Response(phrases[204], None))
    ensures ResponseKey in spec ==>
              (r.Success? <==>
                 StatusCodeKey in spec && DescriptionKey in spec
                 && (Declared(spec[DescriptionKey].text) || spec[StatusCodeKey].code in phrases))
    ensures ResponseKey in spec && r.Success? ==>
              && r.value.0 == spec[StatusCodeKey].code
              && r.value.1.content == Some(spec[ResponseKey].schema)
              && (Declared(spec[DescriptionKey].text) ==> r.value.1.description == spec[DescriptionKey].text.value)
              && (!Declared(spec[DescriptionKey].text) ==> r.value.1.description == phrases[r.value.0])
    ensures r.Failure? && ResponseKey in spec && StatusCodeKey !in spec ==> r.error == MissingKey("status_code")
    ensures r.Failure? && ResponseKey in spec && StatusCodeKey in spec && DescriptionKey !in spec ==> r.error == MissingKey("description")
  {
    if ResponseKey in spec then
      if StatusCodeKey !in spec then Failure(MissingKey("status_code"))
      else if DescriptionKey !in spec then Failure(MissingKey("description"))
      else
        var code := spec[StatusCodeKey].code;
        var text := spec[DescriptionKey].text;
        var description :- if Declared(text) then Success(text.value) else Phrase(phrases, code);
        Success((code, Response(description, Some(spec[ResponseKey].schema))))
    else
      var description :- Phrase(phrases, 204);
      Success((204, Response(description, None)))
  }

  /** The `other_responses` of a descriptor, as response entries without body. */
  function OtherResponses(spec: Descriptor): (others: seq<(int, Response)>)
    requires WellKeyed(spec)
    ensures OtherResponsesKey !in spec ==> others == []
    ensures OtherResponsesKey in spec ==>
              |others| == |spec[OtherResponsesKey].responses|
              && forall i :: 0 <= i < |others| ==>
                   others[i] == (spec[OtherResponsesKey].responses[i].0, Response(spec[OtherResponsesKey].responses[i].1, None))
  {
    if OtherResponsesKey in spec then
      var declared := spec[OtherResponsesKey].responses;
      seq(|declared|, i requires 0 <= i < |declared| => (declared[i].0, Response(declared[i].1, None)))
    else []
  }

  /** `responses`: the primary response first, then each other response
      assigned in turn. Codes are compared as numbers, so an other response
      with the primary code replaces the primary response in place. */
  function Responses(spec: Descriptor, phrases: map<int, string>): (r: Result<OrderedMaps.Entries<int, Response>, Error>)
    requires WellKeyed(spec)
    ensures r.Success? <==> PrimaryResponse(spec, phrases).Success?
    ensures r.Success? ==> OrderedMaps.DistinctKeys(r.value)
    ensures r.Success? ==> |r.value| >= 1 && r.value[0].0 == PrimaryResponse(spec, phrases).value.0
    ensures r.Success? ==>
              OrderedMaps.Keys(r.value)
              == Seqs.Dedup([PrimaryResponse(spec, phrases).value.0] + OrderedMaps.Keys(OtherResponses(spec)))
    ensures r.Success? ==>
              forall c :: OrderedMaps.Get(r.value, c) ==
                OrderedMaps.LastValue(OtherResponses(spec), c,
                  if c == PrimaryResponse(spec, phrases).value.0 then Some(PrimaryResponse(spec, phrases).value.1) else None)
  {
    var primary :- PrimaryResponse(spec, phrases);
    var start := [primary];
    var all := OrderedMaps.PutAll(start, OtherResponses(spec));
    OrderedMaps.PutAllKeepsOrder(start, OtherResponses(spec));
    OrderedMaps.PutAllKeys(start, OtherResponses(spec));
    assert OrderedMaps.Keys(start) == [primary.0];
    forall c
      ensures OrderedMaps.Get(all, c) == OrderedMaps.LastValue(OtherResponses(spec), c,
                if c == primary.0 then Some(primary.1) else None)
    {
      OrderedMaps.PutAllGet(start, OtherResponses(spec), c);
    }
    Success(all)
  }

  /** With distinct other codes, none of them the primary code, the responses
      are listed in declaration order after the primary one; for example
      `201` then `400`, `401`, `403` and `404`. */
  lemma ResponsesInDeclarationOrder(spec: Descriptor, phrases: map<int, string>)
    requires WellKeyed(spec) && Responses(spec, phrases).Success?
    requires Seqs.Distinct(OrderedMaps.Keys(OtherResponses(spec)))
    requires PrimaryResponse(spec, phrases).value.0 !in OrderedMaps.Keys(OtherResponses(spec))
    ensures OrderedMaps.Keys(Responses(spec, phrases).value)
            == [PrimaryResponse(spec, phrases).value.0] + OrderedMaps.Keys(OtherResponses(spec))
  {
    var codes := [PrimaryResponse(spec, phrases).value.0] + OrderedMaps.Keys(OtherResponses(spec));
    assert Seqs.Distinct(codes) by {
      forall i, j | 0 <= i < j < |codes|
        ensures codes[i] != codes[j]
      {
        assert codes[j] == OrderedMaps.Keys(OtherResponses(spec))[j - 1];
        if i > 0 {
          assert codes[i] == OrderedMaps.Keys(OtherResponses(spec))[i - 1];
        }
      }
    }
    Seqs.DedupDistinct(codes);
  }

  /** Every declared status code is documented: the primary one, and each
      other response with the description given last for its code. An other
      response with the primary code takes the primary response's place and
      drops its body schema. */
  lemma ResponsesDocumentEveryCode(spec: Descriptor, phrases: map<int, string>, c: int)
    requires WellKeyed(spec) && Responses(spec, phrases).Success?
    ensures var primary := PrimaryResponse(spec, phrases).value;
            c == primary.0 && c !in OrderedMaps.Keys(OtherResponses(spec)) ==>
              OrderedMaps.Get(Responses(spec, phrases).value, c) == Some(primary.1)
    ensures c in OrderedMaps.Keys(OtherResponses(spec)) ==>
              && OrderedMaps.Get(Responses(spec, phrases).value, c).Some?
              && (c, OrderedMaps.Get(Responses(spec, phrases).value, c).value) in OtherResponses(spec)
              && OrderedMaps.Get(Responses(spec, phrases).value, c).value.content.None?
    ensures c != PrimaryResponse(spec, phrases).value.0 && c !in OrderedMaps.Keys(OtherResponses(spec)) ==>
              OrderedMaps.Get(Responses(spec, phrases).value, c).None?
  {
    var primary := PrimaryResponse(spec, phrases).value;
    OrderedMaps.LastValueCases(OtherResponses(spec), c, if c == primary.0 then Some(primary.1) else None);
  }

  /** The request body media type: JSON unless the body comes from a form,
      multipart when the form schema has a file field, URL-encoded otherwise. */
  function MediaType(location: string, schema: Schema): (m: string)
    ensures m == "application/json" <==> location != "form"
    ensures m == "multipart/form-data" <==> location == "form" && schema.hasFileField
    ensures m == "application/x-www-form-urlencoded" <==> location == "form" && !schema.hasFileField
  {
    if location == "form" then
      if schema.hasFileField then "multipart/form-data" else "application/x-www-form-urlencoded"
    else "application/json"
  }

  /** `requestBody`: always required, with a single media type. */
  datatype RequestBody = RequestBody(mediaType: string, schema: Schema, required: bool)

  function RequestBodyOf(spec: Descriptor): (body: Option<RequestBody>)
    requires WellKeyed(spec)
    ensures body.Some? <==> BodyKey in spec
    ensures body.Some? ==> body.value.required && body.value.schema == spec[BodyKey].schema
                           && body.value.mediaType == MediaType(spec[BodyKey].location, spec[BodyKey].schema)
  {
    if BodyKey in spec then
      var b := spec[BodyKey];
      Some(RequestBody(MediaType(b.location, b.schema), b.schema, true))
    else None
  }

  /** An operation parameter: a path parameter of the rule, or a schema declared
      with `@arguments` and where it is read from. */
  datatype Parameter = PathParam(param: PathRules.PathParameter) | Argument(location: string, schema: Schema)

  /** The declared arguments, in order, except those read from the body. */
  function ArgumentParameters(args: seq<(Schema, string)>): (ps: seq<Parameter>)
    ensures |ps| <= |args|
    ensures forall p :: p in ps ==> p.Argument? && p.location != "body" && (p.schema, p.location) in args
    ensures forall a :: a in args && a.1 != "body" ==> Argument(a.1, a.0) in ps
  {
    if args == [] then []
    else
      var rest := ArgumentParameters(args[1..]);
      assert forall a :: a in args[1..] ==> a in args;
      if args[0].1 != "body" then [Argument(args[0].1, args[0].0)] + rest else rest
  }

  /** The parameters keep the order of the arguments: those of arguments
      declared in two groups are those of the first group, then those of the
      second. */
  lemma {:induction false} ArgumentParametersAppend(a: seq<(Schema, string)>, b: seq<(Schema, string)>)
    ensures ArgumentParameters(a + b) == ArgumentParameters(a) + ArgumentParameters(b)
    decreases |a|
  {
    if a == [] {
      assert a + b == b;
    } else {
      assert (a + b)[0] == a[0];
      assert (a + b)[1..] == a[1..] + b;
      ArgumentParametersAppend(a[1..], b);
    }
  }

  /** One argument gives one parameter, unless it is read from the body. */
  lemma ArgumentParametersOfOne(a: (Schema, string))
    ensures ArgumentParameters([a]) == if a.1 != "body" then [Argument(a.1, a.0)] else []
  {
    assert [a][1..] == [];
  }

  /** A security requirement: the scheme name and the roles it asks for. */
  datatype SecurityRequirement = SecurityRequirement(scheme: string, roles: seq<string>)

  /** The security requirement of a protected route: the name its auth object
      was given, and the roles recorded with it. */
  function SecurityOf(spec: Descriptor, naming: Security.Naming): (r: Result<Option<SecurityRequirement>, Error>)
    requires WellKeyed(spec) && |naming.auths| == |naming.names|
    requires AuthKey in spec ==> spec[AuthKey].auth in naming.auths
    ensures AuthKey !in spec ==> r == Success(None)
    ensures AuthKey in spec ==> (r.Success? <==> RolesKey in spec)
    ensures AuthKey in spec && RolesKey !in spec ==> r == Failure(MissingKey("roles"))
    ensures AuthKey in spec && r.Success? ==>
              r.value == Some(SecurityRequirement(Security.NameOf(naming, spec[AuthKey].auth), spec[RolesKey].roles))
  {
    if AuthKey in spec then
      if RolesKey in spec then
        Success(Some(SecurityRequirement(Security.NameOf(naming, spec[AuthKey].auth), spec[RolesKey].roles)))
      else Failure(MissingKey("roles"))
    else Success(None)
  }

  /** Routes protected by different auth objects name different schemes. */
  lemma SecurityDistinguishesAuths(spec1: Descriptor, spec2: Descriptor, naming: Security.Naming)
    requires Security.ValidNaming(naming) && WellKeyed(spec1) && WellKeyed(spec2)
    requires AuthKey in spec1 && spec1[AuthKey].auth in naming.auths && RolesKey in spec1
    requires AuthKey in spec2 && spec2[AuthKey].auth in naming.auths && RolesKey in spec2
    ensures SecurityOf(spec1, naming).value.value.scheme == SecurityOf(spec2, naming).value.value.scheme
            <==> spec1[AuthKey].auth == spec2[AuthKey].auth
  {
    Security.NameOfInjective(naming, spec1[AuthKey].auth, spec2[AuthKey].auth);
  }

  /** One operation object. */
  datatype Operation = Operation(
    operationId: string,
    parameters: seq<Parameter>,
    tags: seq<string>,
    summary: Option<string>,
    description: Option<string>,
    responses: OrderedMaps.Entries<int, Response>,
    requestBody: Option<RequestBody>,
    security: Option<SecurityRequirement>)

  /** What the route's descriptor needs for its operations to be built: a
      declared response comes with its status code and description, and an
      auth object with its roles. */
  predicate Buildable(spec: Descriptor, phrases: map<int, string>)
    requires WellKeyed(spec)
  {
    PrimaryResponse(spec, phrases).Success? && (AuthKey in spec ==> RolesKey in spec)
  }

  /** The path parameters as operation parameters. */
  function PathParams(params: seq<PathRules.PathParameter>): (ps: seq<Parameter>)
    ensures |ps| == |params| && forall i :: 0 <= i < |ps| ==> ps[i] == PathParam(params[i])
  {
    seq(|params|, i requires 0 <= i < |params| => PathParam(params[i]))
  }

  /** Everything of an operation except its id, which alone depends on the method. */
  function SharedOperation(endpoint: string, doc: string, spec: Descriptor,
                           params: seq<PathRules.PathParameter>, naming: Security.Naming,
                           phrases: map<int, string>): (r: Result<Operation, Error>)
    requires WellKeyed(spec) && |naming.auths| == |naming.names|
    requires AuthKey in spec ==> spec[AuthKey].auth in naming.auths
    ensures r.Success? <==> Buildable(spec, phrases)
    ensures r.Success? ==> |r.value.parameters| == |params| + |ArgumentParameters(ArgsOf(Some(spec)))|
    ensures r.Success? ==>
              && r.value.parameters[..|params|] == PathParams(params)
              && r.value.parameters[|params|..] == ArgumentParameters(ArgsOf(Some(spec)))
              && (r.value.tags != [] <==> Tag(endpoint).Some?)
              && (Tag(endpoint).Some? ==> r.value.tags == [Tag(endpoint).value])
              && r.value.summary == Docs(doc).summary
              && r.value.description == Docs(doc).description
              && r.value.responses == Responses(spec, phrases).value
              && r.value.requestBody == RequestBodyOf(spec)
              && r.value.security == SecurityOf(spec, naming).value
  {
    var responses :- Responses(spec, phrases);
    var security :- SecurityOf(spec, naming);
    var docs := Docs(doc);
    var tag := Tag(endpoint);
    var parameters := PathParams(params) + ArgumentParameters(ArgsOf(Some(spec)));
    assert parameters[..|params|] == PathParams(params);
    Success(Operation([], parameters, if tag.Some? then [tag.value] else [],
                      docs.summary, docs.description, responses, RequestBodyOf(spec), security))
  }

  /** The operations of one documented route: one per documented method, equal
      except for the operation id. A route with no documented method has no
      operations and is never inspected further. */
  function RouteOperations(rule: string, endpoint: string, methods: set<string>, doc: string,
                           spec: Descriptor, naming: Security.Naming,
                           phrases: map<int, string>): (r: Result<map<Verb, Operation>, Error>)
    requires WellKeyed(spec) && |naming.auths| == |naming.names|
    requires AuthKey in spec ==> spec[AuthKey].auth in naming.auths
    ensures AllowedVerbs(methods) == {} ==> r == Success(map[])
    ensures AllowedVerbs(methods) != {} ==> (r.Success? <==> Buildable(spec, phrases))
    ensures r.Success? ==> r.value.Keys == AllowedVerbs(methods)
    ensures r.Success? && r.value != map[] ==>
              var shared := SharedOperation(endpoint, doc, spec, PathRules.PathParameters(rule), naming, phrases);
              && shared.Success?
              && forall v :: v in r.value ==>
                   r.value[v] == shared.value.(operationId := OperationId(endpoint, v, |AllowedVerbs(methods)|))
  {
    var verbs := AllowedVerbs(methods);
    if verbs == {} then Success(map[])
    else
      var shared :- SharedOperation(endpoint, doc, spec, PathRules.PathParameters(rule), naming, phrases);
      Success(WithIds(shared, endpoint, verbs))
  }

  /** One copy of the shared operation per method, each with its own id. */
  function WithIds(shared: Operation, endpoint: string, verbs: set<Verb>): (m: map<Verb, Operation>)
    ensures m.Keys == verbs
    ensures forall v :: v in m ==> m[v] == shared.(operationId := OperationId(endpoint, v, |verbs|))
  {
    var count := |verbs|;
    map v | v in verbs :: WithId(shared, endpoint, v, count)
  }

  function WithId(shared: Operation, endpoint: string, v: Verb, count: nat): Operation {
    shared.(operationId := OperationId(endpoint, v, count))
  }

  lemma TwoMembers(s: set<Verb>, v: Verb, w: Verb)
    requires v in s && w in s && v != w
    ensures |s| > 1
  {
    var rest := s - {v};
    assert w in rest;
    assert |s| == |rest| + 1;
  }

  /** The operations of one route have pairwise distinct ids. */
  lemma RouteOperationIdsDistinct(rule: string, endpoint: string, methods: set<string>, doc: string,
                                  spec: Descriptor, naming: Security.Naming, phrases: map<int, string>,
                                  v: Verb, w: Verb)
    requires WellKeyed(spec) && |naming.auths| == |naming.names|
    requires AuthKey in spec ==> spec[AuthKey].auth in naming.auths
    requires RouteOperations(rule, endpoint, methods, doc, spec, naming, phrases).Success?
    requires v in AllowedVerbs(methods) && w in AllowedVerbs(methods)
    ensures var ops := RouteOperations(rule, endpoint, methods, doc, spec, naming, phrases).value;
            ops[v].operationId == ops[w].operationId <==> v == w
  {
    var verbs := AllowedVerbs(methods);
    var ops := RouteOperations(rule, endpoint, methods, doc, spec, naming, phrases).value;
    assert ops[v].operationId == OperationId(endpoint, v, |verbs|);
    assert ops[w].operationId == OperationId(endpoint, w, |verbs|);
    if v != w {
      TwoMembers(verbs, v, w);
      OperationIdsDistinct(endpoint, v, w, |verbs|);
    }
  }

  /** Every operation of a route starts with the path parameters of its rule,
      one per placeholder, in order. */
  lemma RouteOperationsStartWithPath(rule: string, endpoint: string, methods: set<string>, doc: string,
                                     spec: Descriptor, naming: Security.Naming, phrases: map<int, string>,
                                     v: Verb)
    requires WellKeyed(spec) && |naming.auths| == |naming.names|
    requires AuthKey in spec ==> spec[AuthKey].auth in naming.auths
    requires RouteOperations(rule, endpoint, methods, doc, spec, naming, phrases).Success?
    requires v in AllowedVerbs(methods)
    ensures var op := RouteOperations(rule, endpoint, methods, doc, spec, naming, phrases).value[v];
            var params := PathRules.PathParameters(rule);
            |params| <= |op.parameters|
            && forall i :: 0 <= i < |params| ==> op.parameters[i] == PathParam(params[i])
  {
    var op := RouteOperations(rule, endpoint, methods, doc, spec, naming, phrases).value[v];
    var params := PathRules.PathParameters(rule);
    var shared := SharedOperation(endpoint, doc, spec, params, naming, phrases).value;
    assert op.parameters == shared.parameters;
    forall i | 0 <= i < |params|
      ensures op.parameters[i] == PathParam(params[i])
    {
      assert shared.parameters[..|params|][i] == shared.parameters[i];
    }
  }
}
