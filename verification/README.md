# APIFairy OpenAPI assembly, modelled in Dafny

APIFairy is a Flask extension. Its decorators attach a descriptor (`_spec`)
to each view function:

- `@arguments`, `@body`, `@response`, `@other_responses` and `@authenticate`
  record what the view reads and returns.
- The extension walks the application's URL map and turns these descriptors
  into an OpenAPI 3.0.3 document.

This project models that core as pure Dafny functions over immutable data and
proves properties of it:

- the descriptor updates the decorators make, in `decorators.dfy`;
- the return-value normaliser that `@response` installs, in `response_wrapper.dfy`;
- the webhook registry, in `webhooks.dfy`;
- the validation-error status fallback, in `decorators.dfy`;
- the schema name resolver, in `schema_names.dfy`;
- security scheme discovery and naming, in `security.dfy`;
- the path parameters and path normalisation of a Werkzeug rule, in `path_rules.dfy`;
- the operation object built for each route and method, in `operations.dfy`;
- the summary and description taken from a view's docstring, in `docstrings.dfy`;
- the stable sort of the routing table by rule length, in `route_order.dfy`;
- the merge of routes into path items and the method order, in `assembler.dfy`;
- the cached `apispec` property, in `spec_cache.dfy`.

Some support modules define no behaviour of their own:

- `wrappers.dfy` holds `Option` and `Result`.
- `errors.dfy` holds the exceptions the core raises.
- `strings.dfy` holds the Python string operations the core uses: `strip`,
  `split`, `join`, `rsplit(sep, 1)`, `replace` and ASCII `title`.
- `ordered_maps.dfy` holds insertion-ordered dictionaries.
- `seqs.dfy` holds Python's idiom of appending to a list only what it does not hold yet.
- `collaborators.dfy` holds the schema and auth objects the core inspects.

Exceptions become `Failure` values of `Errors.Error`:

- The `RuntimeError` for an unknown auth class becomes `UnknownAuthenticationScheme`.
- A `KeyError` on a descriptor key or on the status-phrase table becomes
  `MissingKey` or `UnknownStatusCode`.
- The `ValueError` for a webhook defined twice becomes `DuplicateWebhook`.
- The `RuntimeError` for a returned `Response` object becomes `ResponseObjectReturned`.
- The `IndexError` of an empty returned tuple becomes `EmptyTupleReturned`.

Everything the core reaches outside itself is a parameter of the model:

- Werkzeug's `HTTP_STATUS_CODES` is `phrases`.
- A schema's `jsonify` is `jsonify`.
- The `process_apispec` callback is `hook`.

Status codes are numbers in the model. apispec turns every response key into
its string form, so an `other_responses` entry with the primary status code
lands on the primary response. It keeps that entry's first position and takes
the later value.

## Model

| member | source | states |
|---|---|---|
| `Decorators.Annotate` | src/apifairy/decorators.py:44-48 | The descriptor is created when the view has none. Every given key then holds its new value, every other key keeps its old value, and no other key appears. |
| `Decorators.AddArguments` | src/apifairy/decorators.py:62-70 | `@arguments` appends one `(schema, location)` pair to the argument list, creating the list when it is absent. The location defaults to `query`, and the other keys are left alone. |
| `Decorators.ArgumentsAccumulate` | src/apifairy/decorators.py:66-70 | Repeated `@arguments` leave their pairs in the order the decorators were applied, after any that were there before. |
| `Decorators.DeclareBody` | src/apifairy/decorators.py:83-89 | `@body` records schema, location (default `json`) and media type under `body`, and leaves the other keys alone. |
| `Decorators.DeclareResponse` | src/apifairy/decorators.py:102-109 | `@response` records schema, status code (default 200), description and headers, and leaves the other keys alone. |
| `Decorators.DeclareOtherResponses` | src/apifairy/decorators.py:135-140 | `@other_responses` records its code/description pairs, and leaves the other keys alone. |
| `Decorators.NormaliseRoles` | src/apifairy/decorators.py:53-55 | A list of roles is kept. A single role becomes a one-element list. No role becomes the empty list. |
| `Decorators.NormaliseRolesIdempotent` | src/apifairy/decorators.py:53-55 | Normalising an already normalised list changes nothing. A single role is among the result. The result is empty only for no role or an empty list. |
| `Decorators.Authenticate` | src/apifairy/decorators.py:51-58 | `@authenticate` records the auth object and the normalised roles, and leaves the other keys alone. |
| `Decorators.HandleError` | src/apifairy/decorators.py:11-21 | A validation error keeps its messages. Its status is never 0: it is 400 when no status, or status 0, was given, and otherwise the status given. |
| `ResponseWrapper.Wrap` | src/apifairy/decorators.py:111-130 | A `Response` object and an empty tuple are refused. Otherwise the body is the first value serialised. The status is the handler's own when it chose one, else the declared code. Headers appear exactly when the handler supplied them. |
| `ResponseWrapper.PlainAndSingletonAgree` | src/apifairy/decorators.py:117-130 | Returning `x` and returning `(x,)` give the same reply: the serialised `x` with the declared status. |
| `ResponseWrapper.ExtraItemsIgnored` | src/apifairy/decorators.py:124-125 | Items after the third of a returned tuple are ignored. |
| `Webhooks.WebhookKey` | src/apifairy/decorators.py:151-154 | The key is the explicit endpoint when it is non-empty, else the function name. It is prefixed by the blueprint name and a dot when a blueprint is given. |
| `Webhooks.Register` | src/apifairy/decorators.py:143-159 | Registration fails with a duplicate error exactly when the key is taken. Otherwise it adds that one key, with a one-method rule, and keeps every other entry. |
| `Webhooks.RegisterBare` | src/apifairy/decorators.py:161-165 | Bare `@webhook` registers the function under its own name for GET. It fails exactly when that name is taken. |
| `Webhooks.DuplicateKeepsFirst` | src/apifairy/decorators.py:155-158 | A second webhook on a taken endpoint is refused, and the first registration stays. |
| `SchemaNames.Stem` | src/apifairy/core.py:91-93 | A trailing `Schema` is removed from the class name unless nothing would remain. |
| `SchemaNames.ComponentNameCases` | src/apifairy/core.py:90-96 | `<stem>Schema` resolves to `<stem>`, with `Update` added for partial schemas. Other names, and `Schema` itself, are kept whole. |
| `SchemaNames.ComponentNameExamples` | src/apifairy/core.py:90-96 | `Schema` partial gives `SchemaUpdate`, `Schema2` gives `Schema2` and `FooSchema` gives `Foo`. |
| `Security.BaseName` | src/apifairy/core.py:167-175 | Every recognised auth object gets one of the three base names `basic_auth`, `token_auth` and `api_key`. |
| `Security.UniqueName` | src/apifairy/core.py:176-182 | The name chosen is not taken yet. It is the base name when that is free, else the base name with the first free suffix `_2`, `_3` and so on. |
| `Security.NameSchemes` | src/apifairy/core.py:159-183 | Naming succeeds exactly when every auth object found is of a known class, and otherwise fails with the unknown-scheme error. The auth objects named are those found, each once, in the order of their first appearance, each named against the names before it. |
| `Security.NameSchemesExample` | src/apifairy/core.py:159-183 | A Bearer token auth, an API key auth, the first again and a second Bearer token auth are named `token_auth`, `api_key` and `token_auth_2`, in that order. The repeat is skipped. |
| `Security.NamesDistinct` | src/apifairy/core.py:176-183 | No two discovered schemes share a name. |
| `Security.NameOfInjective` | src/apifairy/core.py:184-187 | Two auth objects get the same scheme name exactly when they are the same object. |
| `Security.SchemeFor` | src/apifairy/core.py:186-206 | A scheme object is bearer HTTP exactly for a Bearer token auth without a custom header, and an API key in the named header for any other token auth. It is basic HTTP otherwise. It carries the stripped docstring exactly when there is one. |
| `Security.BaseNameMatchesScheme` | src/apifairy/core.py:167-204 | The base name of a scheme agrees with the kind of scheme object emitted for it. |
| `Security.GroupedIsPermutation` | src/apifairy/core.py:207-210 | Registering the schemes grouped by name prefix emits each scheme exactly once. |
| `Security.NamingEmitsEachOnce` | src/apifairy/core.py:184-210 | Every discovered scheme is emitted exactly once, under its name. |
| `PathRules.Normalise` | src/apifairy/core.py:318 | The OpenAPI path has no `<` and no `>` left. |
| `PathRules.NormaliseAsWritten` | src/apifairy/core.py:318 | The substitution as written also leaves no `<` and no `>`. |
| `PathRules.NormaliseTemplate` | src/apifairy/core.py:318 | A rule made of literal text and `<name>` or `<converter:name>` placeholders becomes the same text with each placeholder replaced by `{name}`. |
| `PathRules.ScanTemplate` | src/apifairy/core.py:298 | In such a rule, the placeholder search finds exactly its placeholders, in order, each with its converter and name. |
| `PathRules.PathParameters` | src/apifairy/core.py:298-312 | There is one path parameter per placeholder, in order, named after it. `int:` gives integer type, `float:` gives number, and anything else gives string. |
| `PathRules.TemplateParameterTypes` | src/apifairy/core.py:301-312 | For a rule made of placeholders, parameter `i` carries placeholder `i`'s name and the type its converter selects: integer for `int:`, number for `float:`, and string for no converter or any other converter. |
| `PathRules.NormaliseAsWrittenLosesName` | src/apifairy/core.py:318 | As written, `p<n>:q` normalises to `p{q`, losing the name and the closing brace. |
| `PathRules.WrittenSubstituteDropsName` | src/apifairy/core.py:318 | As written, the converter match swallows `n>:` after an opening `<`. |
| `PathRules.NormaliseKeepsName` | src/apifairy/core.py:318 | Corrected, `p<n>:q` normalises to `p{n}:q`. |
| `PathRules.ScanAsWrittenMergesPlaceholders` | src/apifairy/core.py:298 | As written, `/<a>:<b>` yields one parameter named `<b` with converter `a>:`. |
| `PathRules.ScanFindsBoth` | src/apifairy/core.py:298 | Corrected, `/<a>:<b>` yields the two parameters `a` and `b`. |
| `PathRules.ScanAgrees` | src/apifairy/core.py:298 | When no colon follows a placeholder without converter before the next placeholder, the search as written and the corrected one both find exactly the rule's placeholders. |
| `PathRules.NormaliseAgrees` | src/apifairy/core.py:318 | On the same rules, the rewrite as written and the corrected one both give the rule's OpenAPI path. |
| `Operations.AllowedVerbs` | src/apifairy/core.py:224-225 | A method is documented exactly when it is one of GET, POST, PUT, PATCH and DELETE. |
| `Operations.OperationId` | src/apifairy/core.py:227-229 | The id has no dots and ends with the endpoint whose dots became underscores. It is exactly that for a single method, and exactly `<method>_` followed by it when there are several. |
| `Operations.OperationIdOfPlainEndpoint` | src/apifairy/core.py:227-229 | An endpoint without a dot is its own id on a single-method route, and `<method>_<endpoint>` otherwise. |
| `Operations.OperationIdInBlueprint` | src/apifairy/core.py:227-229 | The endpoint `bp.view` gets the id `bp_view` on a single-method route, and `<method>_bp_view` otherwise. |
| `Operations.OperationIdsDistinct` | src/apifairy/core.py:227-229 | On a route with several methods, different methods get different ids. |
| `Operations.Tag` | src/apifairy/core.py:221-223 | There is no tag without a dot in the endpoint, and a tag is never empty. |
| `Operations.TagOfBlueprint` | src/apifairy/core.py:222-223 | `blueprint.view` is tagged with the title-cased blueprint part before the last dot, or is untagged when that part is empty. |
| `Docstrings.DocLines` | src/apifairy/core.py:240-241 | The docstring is stripped, split into lines, and each line is stripped. There is always at least one line. |
| `Docstrings.Docs` | src/apifairy/core.py:240-245 | There is a summary exactly when the docstring has text: the first line, stripped, which is non-empty. There is a description exactly when the stripped docstring spans several lines: the other lines, each stripped, joined by newlines and stripped, which is never empty. |
| `Docstrings.DocsOfOneLine` | src/apifairy/core.py:240-245 | A docstring of one trimmed line is the summary, with no description. |
| `Docstrings.DocsOfTwoLines` | src/apifairy/core.py:240-245 | A docstring of two trimmed lines gives the first as summary and the second as description. |
| `Operations.PrimaryResponse` | src/apifairy/core.py:246-262 | A declared response is documented under its status code with its schema. It uses its description, or the standard phrase when the description is empty. Without a declared response, 204 with the standard phrase is documented. A missing key or unknown phrase fails. |
| `Operations.OtherResponses` | src/apifairy/core.py:264-268 | Each `other_responses` pair becomes a response with that description and no body, in order. |
| `Operations.Responses` | src/apifairy/core.py:246-268 | The codes are the primary code followed by the other codes in declaration order, each once. Each code holds the last description given for it, or the primary response. |
| `Operations.ResponsesInDeclarationOrder` | src/apifairy/core.py:246-268 | When the other codes are distinct and differ from the primary one, the responses are keyed by the primary code and then exactly the other codes, in declaration order. |
| `OrderedMaps.PutAllKeys` | src/apifairy/core.py:264-268 | Assigning a series of keys into an insertion-ordered dictionary keeps the existing keys first, then adds each new key where it first appears. |
| `Operations.ResponsesDocumentEveryCode` | src/apifairy/core.py:246-268 | Every declared code is documented. An other response with the primary code replaces it and drops the schema, and no undeclared code appears. |
| `Operations.MediaType` | src/apifairy/core.py:273-281 | The media type is JSON unless the body is a form. A form is multipart exactly when its schema has a file field, and URL-encoded otherwise. |
| `Operations.RequestBodyOf` | src/apifairy/core.py:270-289 | There is a request body exactly when `@body` was used. It is always required, and carries the body schema and its media type. |
| `Operations.ArgumentParameters` | src/apifairy/core.py:232-236 | The declared arguments become parameters except those in the body. Every parameter comes from a declared argument, and every non-body argument appears. |
| `Operations.ArgumentParametersAppend` | src/apifairy/core.py:232-236 | The parameters keep the order of the declared arguments: those of a longer list are those of its first part followed by those of the rest. |
| `Operations.ArgumentParametersOfOne` | src/apifairy/core.py:232-236 | A single argument gives one parameter with its location and schema, or none when its location is `body`. |
| `Operations.SecurityOf` | src/apifairy/core.py:291-295 | A protected route requires its auth object's scheme name with the recorded roles. An unprotected route has no requirement. Missing roles fail. |
| `Operations.SecurityDistinguishesAuths` | src/apifairy/core.py:291-295 | Two protected routes name the same scheme exactly when they use the same auth object. |
| `Operations.SharedOperation` | src/apifairy/core.py:221-296 | The operation is built exactly when its responses and security can be. Its parameters are the path parameters followed by the non-body arguments. It carries the tag, docs, responses, request body and security as defined. |
| `Operations.RouteOperations` | src/apifairy/core.py:224-296 | A route gets one operation per documented method, all alike but for the id. A route without documented methods gets none and never fails. |
| `Operations.RouteOperationIdsDistinct` | src/apifairy/core.py:226-229 | The operations of one route have pairwise distinct ids. |
| `Operations.RouteOperationsStartWithPath` | src/apifairy/core.py:314-316 | Every operation's parameters start with the rule's path parameters. |
| `RouteOrder.Sort` | src/apifairy/core.py:214-215 | The sorted table is ordered by rule length and is a permutation of the table. |
| `RouteOrder.SortIsStable` | src/apifairy/core.py:215 | Routes whose rules have equal length keep their table order. |
| `RouteOrder.SortKeepsRoutes` | src/apifairy/core.py:214-215 | Sorting keeps exactly the routes of the table. |
| `Assembler.FoundAuths` | src/apifairy/core.py:161-166 | Every auth object of a documented route is found, and only those. |
| `Assembler.FoundAuthsAppend` | src/apifairy/core.py:161-166 | The auth objects are found in routing-table order: those of a longer table are those of its first part followed by those of the rest. |
| `Assembler.FoundAuthsOfRoute` | src/apifairy/core.py:161-166 | A single route contributes its auth object when it is documented and protected, and nothing otherwise. |
| `Assembler.CollectPaths` | src/apifairy/core.py:216-322 | Collection succeeds exactly when every documented route's operations can be built. There is one path per normalised rule of a documented route. Each method under it holds the operation of the last route that documents it there. |
| `Assembler.OrderVerbs` | src/apifairy/core.py:323-329 | A path item lists exactly its methods, each once, in the order get, post, put, patch, delete. |
| `Assembler.Generate` | src/apifairy/core.py:158-331 | An unknown auth class fails the document. The paths are distinct and are exactly the normalised rules of documented routes. Each path lists its methods in method order. |
| `Assembler.GenerateSucceeds` | src/apifairy/core.py:159-296 | With known auth classes, the document is generated exactly when every documented route's operations can be built. |
| `Assembler.GenerateOperation` | src/apifairy/core.py:319-322 | Each operation in the document comes from the last route of the length-sorted table that documents its method under its path. |
| `Assembler.GenerateCoversRoutes` | src/apifairy/core.py:216-322 | Every method a documented route allows appears under that route's normalised path. |
| `Assembler.GenerateDeclaresSchemes` | src/apifairy/core.py:184-210 | Every security requirement in the document names a security scheme the document declares. |
| `SpecCache.ApiSpec` | src/apifairy/core.py:82-87 | A filled cache is returned unchanged. An empty cache is filled from the generator, through the callback when one is registered. A failed generation leaves the cache empty. A failing callback fails the access but leaves the document it was handed cached, with whatever edits it made before raising. |
| `SpecCache.ApiSpecIsCached` | src/apifairy/core.py:82-87 | Once filled, later accesses return the same document whatever the generator or the callback would now give. |
| `SpecCache.ApiSpecRetriesAfterFailure` | src/apifairy/core.py:84-85 | After a failed generation, the next access generates afresh. |
| `SpecCache.ApiSpecKeepsLeftAfterHookFailure` | src/apifairy/core.py:84-86 | After the callback fails, the next access returns the document as the callback left it, and runs neither the generator nor the callback. |
| `SpecCache.ApiSpecKeepsGeneratedAfterUntouchedFailure` | src/apifairy/core.py:84-86 | A callback that raises without editing its argument leaves the document cached exactly as generated. |

## Left out

- Flask plumbing is not modelled, because it only wires the core into Flask:
  - extension set-up, the UI and JSON routes, and the error-handler callback (src/apifairy/core.py:1-80);
  - `_ensure_sync`;
  - the `login_required` wrapping done by `@authenticate`.
- The `info` section (the module docstring lookup), `servers`, and the automatic tag list from blueprints (src/apifairy/core.py:99-133) are not modelled. They read interpreter state such as `sys.modules` and the request.
- apispec and marshmallow internals are not modelled: the `APISpec` object, schema-to-JSON conversion, the field mappings, component registration and `to_dict`. Schemas are opaque `Collaborators.Schema` values, and the document is the `Assembler.Document` datatype.
- webargs request parsing (`use_args`, `load_form`), the file field deserialiser and flask_httpauth enforcement are not modelled. They run per request, not during document assembly.
- The webhooks section of the document (OpenAPI 3.1.0) is not produced: this assembler always emits 3.0.3 and never reads the webhook registry. Only the registry itself is modelled.
- `Operations.MediaType`: the `media_type` recorded by `@body` is ignored, as the assembler ignores it.
- Response headers recorded by `@response` are not emitted, because the assembler does not emit them.
- Other responses whose value is a schema are not modelled; only code/description pairs are.
- Path parameter descriptions are not modelled.
- `Operations.Tag`: title-casing covers ASCII letters only, because Python's Unicode case tables are not modelled.
- Auth objects are compared by value (`Collaborators.Auth` with an identity number); Python compares them by object identity.
- Class instantiation of a schema passed as a class is not modelled, because that branch is excluded from coverage in the source.
- `Assembler.Generate`: does not state the order of the paths in the document. It follows the first time each path is reached in the sorted table, and OpenAPI gives path order no meaning.
- `SpecCache.ApiSpec`: the document is a value, so the callback's in-place edits are modelled only through what it returns or, when it raises, through the document it leaves behind (`SpecCache.Raised`); aliasing of that dictionary elsewhere is not modelled.
- `Assembler.CollectPaths`, `Assembler.Generate`: descriptors are required to be well keyed (`Decorators.WellKeyed`). Every descriptor the decorator functions build from a well-keyed one, or from none, is well keyed, as their contracts state.
- `PathRules.Normalise`: uses the converter class with `>` excluded, not the expression as written. The two agree on every rule where no colon follows a placeholder without converter before the next placeholder (`PathRules.NormaliseAgrees`); on other rules the source gives the paths shown under Findings.
- `PathRules.PathParameters`: scans with the same corrected class. It agrees with the expression as written on the same rules (`PathRules.ScanAgrees`), and differs as shown under Findings on others.
- `Webhooks.WebhookKey`: models one application of a `@webhook(...)` decorator. The source rebinds the enclosing `endpoint` with `nonlocal` (src/apifairy/decorators.py:151-154), so applying the same decorator object to a second function reuses the first key (a duplicate error), or prefixes the blueprint name a second time. Reuse of a decorator object is not modelled.

## Findings

| source | as written | input that shows it | evidently intended | confidence | as-written member | corrected member |
|---|---|---|---|---|---|---|
| src/apifairy/core.py:318 | the converter class `[^<:]` does not exclude `>`, so after `<` it can run past the placeholder's end up to a later `:` | the rule `/<a>:b` becomes the path `/{b` | `/{a}:b`, with the converter stopped at `>` | medium; not executed | `PathRules.NormaliseAsWrittenLosesName` | `PathRules.NormaliseKeepsName` |
| src/apifairy/core.py:298 | the same class in the parameter pattern merges two placeholders when a `:` follows a `>` | the rule `/<a>:<b>` yields one parameter `<b` with converter `a>:` | two string parameters `a` and `b` | medium; not executed | `PathRules.ScanAsWrittenMergesPlaceholders` | `PathRules.ScanFindsBoth` |

The rest of the model uses the corrected `PathRules.Scan` and `PathRules.Normalise`.
`PathRules.ScanTemplate` and `PathRules.NormaliseTemplate` prove them right for every rule built from literal text and placeholders.
`PathRules.ScanAgrees` and `PathRules.NormaliseAgrees` prove that the expressions as written give the same results on every such rule without a colon after a placeholder that has no converter.
