/** The OpenAPI document assembled from the routing table
    (src/apifairy/core.py:89-331, without the info, servers and tags
    sections): the security schemes discovered on the routes, and one path
    item per OpenAPI path with the operations of every documented route that
    normalises to it. */
module Assembler {
  import opened Wrappers
  import opened Errors
  import OrderedMaps
  import opened Collaborators
  import opened Decorators
  import Security
  import PathRules
  import Operations
  import opened RouteOrder

  /** A route whose descriptor, when it has one, is well keyed, as every
      descriptor the decorators build is. */
  predicate WellFormedRoute(r: Route) {
    r.spec.Some? ==> WellKeyed(r.spec.value)
  }

  predicate WellFormedTable(routes: seq<Route>) {
    forall r :: r in routes ==> WellFormedRoute(r)
  }

  /** The auth object a route's descriptor records, if any. */
  function AuthOf(r: Route): Option<Auth>
    requires WellFormedRoute(r)
  {
    if r.spec.Some? && AuthKey in r.spec.value then Some(r.spec.value[AuthKey].auth) else None
  }

  /** The first loop over the routing table: the auth object of every
      documented route that has one, in table order. */
  function FoundAuths(routes: seq<Route>): (found: seq<Auth>)
    requires WellFormedTable(routes)
    ensures forall r :: r in routes && AuthOf(r).Some? ==> AuthOf(r).value in found
    ensures forall a :: a in found ==> exists r :: r in routes && AuthOf(r) == Some(a)
  {
    if routes == [] then []
    else
      var rest := FoundAuths(routes[1..]);
      assert forall r :: r in routes[1..] ==> r in routes;
      assert routes == [routes[0]] + routes[1..];
      match AuthOf(routes[0])
      case Some(a) => [a] + rest
      case None => rest
  }

  /** The auth objects are found in table order: the objects of a table
      made of two parts are those of the first part, then those of the second. */
  lemma {:induction false} FoundAuthsAppend(a: seq<Route>, b: seq<Route>)
    requires WellFormedTable(a) && WellFormedTable(b)
    ensures WellFormedTable(a + b)
    ensures FoundAuths(a + b) == FoundAuths(a) + FoundAuths(b)
    decreases |a|
  {
    if a == [] {
      assert a + b == b;
    } else {
      assert (a + b)[1..] == a[1..] + b;
      assert (a + b)[0] == a[0];
      assert WellFormedTable(a[1..]) by { assert forall r :: r in a[1..] ==> r in a; }
      FoundAuthsAppend(a[1..], b);
    }
  }

  /** A single route contributes its auth object, if it has one. */
  lemma FoundAuthsOfRoute(r: Route)
    requires WellFormedRoute(r)
    ensures WellFormedTable([r])
    ensures FoundAuths([r]) == if AuthOf(r).Some? then [AuthOf(r).value] else []
  {
    assert [r][1..] == [];
  }

  /** Every auth object of the table has a name. */
  predicate Covered(routes: seq<Route>, naming: Security.Naming)
    requires WellFormedTable(routes)
  {
    forall r :: r in routes && AuthOf(r).Some? ==> AuthOf(r).value in naming.auths
  }

  /** The operations of a documented route. */
  function Ops(r: Route, naming: Security.Naming, phrases: map<int, string>): Result<map<Operations.Verb, Operations.Operation>, Error>
    requires WellFormedRoute(r) && r.spec.Some? && |naming.auths| == |naming.names|
    requires AuthOf(r).Some? ==> AuthOf(r).value in naming.auths
  {
    Operations.RouteOperations(r.rule, r.endpoint, r.methods, r.doc, r.spec.value, naming, phrases)
  }

  /** The path item of one OpenAPI path: an operation per method. */
  type PathItem = map<Operations.Verb, Operations.Operation>

  /** Route `r` documents method `v` under `path`. */
  predicate Provides(r: Route, path: string, v: Operations.Verb) {
    r.spec.Some? && PathRules.Normalise(r.rule) == path && v in Operations.AllowedVerbs(r.methods)
  }

  /** The position of the last route of the table that documents `v` under `path`. */
  function Provider(routes: seq<Route>, path: string, v: Operations.Verb): (k: Option<nat>)
    ensures k.Some? ==> k.value < |routes| && Provides(routes[k.value], path, v)
                        && forall j :: k.value < j < |routes| ==> !Provides(routes[j], path, v)
    ensures k.None? ==> forall j :: 0 <= j < |routes| ==> !Provides(routes[j], path, v)
  {
    if routes == [] then None
    else if Provides(routes[|routes| - 1], path, v) then Some(|routes| - 1)
    else
      var k := Provider(routes[..|routes| - 1], path, v);
      assert forall j :: 0 <= j < |routes| - 1 ==> routes[..|routes| - 1][j] == routes[j];
      k
  }

  /** Some documented route of the table normalises to `path`. */
  predicate HasPath(routes: seq<Route>, path: string) {
    exists i :: 0 <= i < |routes| && routes[i].spec.Some? && PathRules.Normalise(routes[i].rule) == path
  }

  /** The paths of a collection are the normalised rules of the documented routes. */
  ghost predicate PathsMatch(paths: OrderedMaps.Entries<string, PathItem>, routes: seq<Route>) {
    && OrderedMaps.DistinctKeys(paths)
    && forall p :: OrderedMaps.Get(paths, p).Some? <==> HasPath(routes, p)
  }

  /** Each path item holds the methods some route documents under its path. */
  ghost predicate VerbsMatch(paths: OrderedMaps.Entries<string, PathItem>, routes: seq<Route>) {
    forall p, v :: OrderedMaps.Get(paths, p).Some? ==>
      (v in OrderedMaps.Get(paths, p).value <==> Provider(routes, p, v).Some?)
  }

  /** Each method of a path item holds the operation of the last route that
      documents it under that path. */
  ghost predicate OpsMatch(paths: OrderedMaps.Entries<string, PathItem>, routes: seq<Route>,
                     naming: Security.Naming, phrases: map<int, string>)
    requires WellFormedTable(routes) && |naming.auths| == |naming.names| && Covered(routes, naming)
  {
    forall p, v :: OrderedMaps.Get(paths, p).Some? && v in OrderedMaps.Get(paths, p).value
                   && Provider(routes, p, v).Some? ==>
      var r := routes[Provider(routes, p, v).value];
      && Ops(r, naming, phrases).Success?
      && v in Ops(r, naming, phrases).value
      && OrderedMaps.Get(paths, p).value[v] == Ops(r, naming, phrases).value[v]
  }

  /** What the paths collected from a table hold: a path per normalised rule
      of a documented route, and under it, for each method, the operation of
      the last route that documents it there. */
  ghost predicate CollectedFrom(paths: OrderedMaps.Entries<string, PathItem>, routes: seq<Route>,
                          naming: Security.Naming, phrases: map<int, string>)
    requires WellFormedTable(routes) && |naming.auths| == |naming.names| && Covered(routes, naming)
  {
    PathsMatch(paths, routes) && VerbsMatch(paths, routes) && OpsMatch(paths, routes, naming, phrases)
  }

  /** The paths loop over the sorted table: undocumented routes are skipped;
      each documented route's operations go under its normalised path,
      replacing the operations already there for the same methods. The first
      route whose operations cannot be built stops the loop. */
  function CollectPaths(routes: seq<Route>, naming: Security.Naming, phrases: map<int, string>)
    : (r: Result<OrderedMaps.Entries<string, PathItem>, Error>)
    requires WellFormedTable(routes) && |naming.auths| == |naming.names| && Covered(routes, naming)
    ensures r.Success? <==> forall x :: x in routes && x.spec.Some? ==> Ops(x, naming, phrases).Success?
    ensures r.Success? ==> CollectedFrom(r.value, routes, naming, phrases)
    decreases |routes|
  {
    if routes == [] then Success([])
    else
      var prefix := routes[..|routes| - 1];
      var x := routes[|routes| - 1];
      assert routes == prefix + [x];
      assert forall y :: y in prefix ==> y in routes;
      var collected := CollectPaths(prefix, naming, phrases);
      if collected.Failure? then
        assert exists y :: y in prefix && y.spec.Some? && Ops(y, naming, phrases).Failure?;
        Failure(collected.error)
      else if x.spec.None? then
        UndocumentedStep(collected.value, prefix, x, naming, phrases);
        Success(collected.value)
      else
        var ops := Ops(x, naming, phrases);
        if ops.Failure? then Failure(ops.error)
        else
          var path := PathRules.Normalise(x.rule);
          var merged := match OrderedMaps.Get(collected.value, path)
                        case Some(known) => known + ops.value
                        case None => ops.value;
          var next := OrderedMaps.Put(collected.value, path, merged);
          DocumentedStep(collected.value, prefix, x, naming, phrases, next);
          Success(next)
  }

  lemma HasPathStep(prefix: seq<Route>, x: Route, p: string)
    ensures HasPath(prefix + [x], p) <==> HasPath(prefix, p) || (x.spec.Some? && PathRules.Normalise(x.rule) == p)
  {
    var routes := prefix + [x];
    if HasPath(prefix, p) {
      var i :| 0 <= i < |prefix| && prefix[i].spec.Some? && PathRules.Normalise(prefix[i].rule) == p;
      assert routes[i] == prefix[i];
    }
    if HasPath(routes, p) {
      var i :| 0 <= i < |routes| && routes[i].spec.Some? && PathRules.Normalise(routes[i].rule) == p;
      if i < |prefix| {
        assert prefix[i] == routes[i];
      }
    }
    if x.spec.Some? && PathRules.Normalise(x.rule) == p {
      assert routes[|prefix|] == x;
    }
  }

  /** Adding a route at the end changes the provider only where that route provides. */
  lemma ProviderStep(prefix: seq<Route>, x: Route, p: string, v: Operations.Verb)
    ensures Provider(prefix + [x], p, v) == if Provides(x, p, v) then Some(|prefix|) else Provider(prefix, p, v)
  {
    assert (prefix + [x])[..|prefix|] == prefix;
  }

  /** A method is provided under a path only if some documented route normalises to it. */
  lemma ProviderHasPath(routes: seq<Route>, p: string, v: Operations.Verb)
    ensures Provider(routes, p, v).Some? ==> HasPath(routes, p)
  {
    var k := Provider(routes, p, v);
    if k.Some? {
      assert routes[k.value].spec.Some? && PathRules.Normalise(routes[k.value].rule) == p;
    }
  }

  lemma UndocumentedStep(paths: OrderedMaps.Entries<string, PathItem>, prefix: seq<Route>, x: Route,
                         naming: Security.Naming, phrases: map<int, string>)
    requires WellFormedTable(prefix + [x]) && |naming.auths| == |naming.names| && Covered(prefix + [x], naming)
    requires WellFormedTable(prefix) && Covered(prefix, naming)
    requires x.spec.None? && CollectedFrom(paths, prefix, naming, phrases)
    ensures CollectedFrom(paths, prefix + [x], naming, phrases)
  {
    var routes := prefix + [x];
    forall p
      ensures HasPath(routes, p) <==> HasPath(prefix, p)
    {
      HasPathStep(prefix, x, p);
    }
    forall p, v
      ensures Provider(routes, p, v) == Provider(prefix, p, v)
    {
      ProviderStep(prefix, x, p, v);
    }
    assert PathsMatch(paths, routes);
    assert VerbsMatch(paths, routes);
    forall p, v | OrderedMaps.Get(paths, p).Some? && v in OrderedMaps.Get(paths, p).value
                  && Provider(routes, p, v).Some?
      ensures var r := routes[Provider(routes, p, v).value];
              && Ops(r, naming, phrases).Success?
              && v in Ops(r, naming, phrases).value
              && OrderedMaps.Get(paths, p).value[v] == Ops(r, naming, phrases).value[v]
    {
      var k := Provider(prefix, p, v).value;
      assert routes[k] == prefix[k];
    }
  }

  lemma DocumentedStep(paths: OrderedMaps.Entries<string, PathItem>, prefix: seq<Route>, x: Route,
                       naming: Security.Naming, phrases: map<int, string>,
                       next: OrderedMaps.Entries<string, PathItem>)
    requires WellFormedTable(prefix + [x]) && |naming.auths| == |naming.names| && Covered(prefix + [x], naming)
    requires WellFormedTable(prefix) && Covered(prefix, naming)
    requires x.spec.Some? && x in prefix + [x] && Ops(x, naming, phrases).Success?
    requires CollectedFrom(paths, prefix, naming, phrases)
    requires var path := PathRules.Normalise(x.rule);
             next == OrderedMaps.Put(paths, path,
                       match OrderedMaps.Get(paths, path)
                       case Some(known) => known + Ops(x, naming, phrases).value
                       case None => Ops(x, naming, phrases).value)
    ensures CollectedFrom(next, prefix + [x], naming, phrases)
  {
    var routes := prefix + [x];
    forall p
      ensures OrderedMaps.Get(next, p).Some? <==> HasPath(routes, p)
    {
      HasPathStep(prefix, x, p);
    }
    assert PathsMatch(next, routes);
    forall p, v | OrderedMaps.Get(next, p).Some?
      ensures v in OrderedMaps.Get(next, p).value <==> Provider(routes, p, v).Some?
      ensures v in OrderedMaps.Get(next, p).value && Provider(routes, p, v).Some? ==>
                var r := routes[Provider(routes, p, v).value];
                && Ops(r, naming, phrases).Success?
                && v in Ops(r, naming, phrases).value
                && OrderedMaps.Get(next, p).value[v] == Ops(r, naming, phrases).value[v]
    {
      DocumentedVerb(paths, prefix, x, naming, phrases, next, p, v);
    }
    assert VerbsMatch(next, routes);
  }

  /** One method under one path after a documented route was merged in. */
  lemma DocumentedVerb(paths: OrderedMaps.Entries<string, PathItem>, prefix: seq<Route>, x: Route,
                       naming: Security.Naming, phrases: map<int, string>,
                       next: OrderedMaps.Entries<string, PathItem>, p: string, v: Operations.Verb)
    requires WellFormedTable(prefix + [x]) && |naming.auths| == |naming.names| && Covered(prefix + [x], naming)
    requires WellFormedTable(prefix) && Covered(prefix, naming)
    requires x.spec.Some? && x in prefix + [x] && Ops(x, naming, phrases).Success?
    requires CollectedFrom(paths, prefix, naming, phrases)
    requires var path := PathRules.Normalise(x.rule);
             next == OrderedMaps.Put(paths, path,
                       match OrderedMaps.Get(paths, path)
                       case Some(known) => known + Ops(x, naming, phrases).value
                       case None => Ops(x, naming, phrases).value)
    requires OrderedMaps.Get(next, p).Some?
    ensures v in OrderedMaps.Get(next, p).value <==> Provider(prefix + [x], p, v).Some?
    ensures v in OrderedMaps.Get(next, p).value && Provider(prefix + [x], p, v).Some? ==>
              var r := (prefix + [x])[Provider(prefix + [x], p, v).value];
              && Ops(r, naming, phrases).Success?
              && v in Ops(r, naming, phrases).value
              && OrderedMaps.Get(next, p).value[v] == Ops(r, naming, phrases).value[v]
  {
    var routes := prefix + [x];
    var path := PathRules.Normalise(x.rule);
    var ops := Ops(x, naming, phrases).value;
    assert ops.Keys == Operations.AllowedVerbs(x.methods);
    ProviderStep(prefix, x, p, v);
    ProviderHasPath(prefix, p, v);
    if p == path && v in ops {
      assert Provides(x, p, v);
      assert routes[|prefix|] == x;
    } else {
      assert !Provides(x, p, v);
      var earlier := Provider(prefix, p, v);
      if earlier.Some? {
        assert routes[earlier.value] == prefix[earlier.value];
      }
    }
  }

  /** The position of a method in the order a path item lists them. */
  function Rank(v: Operations.Verb): nat {
    match v
    case Get => 0
    case Post => 1
    case Put => 2
    case Patch => 3
    case Delete => 4
  }

  /** Position `k` of the method order holds the one method of rank `k`. */
  lemma RankedAt(k: nat)
    requires k < |Operations.VerbOrder|
    ensures Rank(Operations.VerbOrder[k]) == k
    ensures forall w :: Rank(w) == k ==> w == Operations.VerbOrder[k]
  {
  }

  /** The operations of `item` for the methods listed from position `k` of
      the method order on, in that order. */
  function InOrder(item: PathItem, k: nat): (ops: seq<(Operations.Verb, Operations.Operation)>)
    ensures forall i :: 0 <= i < |ops| ==> k <= Rank(ops[i].0) && ops[i].0 in item && ops[i].1 == item[ops[i].0]
    ensures forall v :: v in item && k <= Rank(v) ==> v in OrderedMaps.Keys(ops)
    ensures forall i, j :: 0 <= i < j < |ops| ==> Rank(ops[i].0) < Rank(ops[j].0)
    decreases |Operations.VerbOrder| - k
  {
    if k >= |Operations.VerbOrder| then []
    else
      var v := Operations.VerbOrder[k];
      var rest := InOrder(item, k + 1);
      RankedAt(k);
      if v in item then
        PrependRanked(item, k, v, rest);
        [(v, item[v])] + rest
      else rest
  }

  /** Putting the method of rank `k` in front of the later methods keeps the ranks increasing. */
  lemma PrependRanked(item: PathItem, k: nat, v: Operations.Verb, rest: seq<(Operations.Verb, Operations.Operation)>)
    requires v in item && Rank(v) == k
    requires forall w :: Rank(w) == k ==> w == v
    requires forall i :: 0 <= i < |rest| ==> k + 1 <= Rank(rest[i].0) && rest[i].0 in item && rest[i].1 == item[rest[i].0]
    requires forall w :: w in item && k + 1 <= Rank(w) ==> w in OrderedMaps.Keys(rest)
    requires forall i, j :: 0 <= i < j < |rest| ==> Rank(rest[i].0) < Rank(rest[j].0)
    ensures var ops := [(v, item[v])] + rest;
            && (forall i :: 0 <= i < |ops| ==> k <= Rank(ops[i].0) && ops[i].0 in item && ops[i].1 == item[ops[i].0])
            && (forall w :: w in item && k <= Rank(w) ==> w in OrderedMaps.Keys(ops))
            && (forall i, j :: 0 <= i < j < |ops| ==> Rank(ops[i].0) < Rank(ops[j].0))
  {
    var ops := [(v, item[v])] + rest;
    assert OrderedMaps.Keys(ops) == [v] + OrderedMaps.Keys(rest);
    assert forall i :: 1 <= i < |ops| ==> ops[i] == rest[i - 1];
  }

  /** The path item as emitted: its operations in the order get, post, put,
      patch, delete, each method once. */
  function OrderVerbs(item: PathItem): (ops: seq<(Operations.Verb, Operations.Operation)>)
    ensures forall v :: v in item <==> v in OrderedMaps.Keys(ops)
    ensures forall i :: 0 <= i < |ops| ==> ops[i].1 == item[ops[i].0]
    ensures forall i, j :: 0 <= i < j < |ops| ==> Rank(ops[i].0) < Rank(ops[j].0)
  {
    InOrder(item, 0)
  }

  /** The generated document: the security schemes in emission order and the
      paths with their operations. */
  datatype Document = Document(
    securitySchemes: seq<(string, Security.SchemeObject)>,
    paths: seq<(string, seq<(Operations.Verb, Operations.Operation)>)>)

  /** The paths as emitted: each path item's operations in method order. */
  function Emit(paths: OrderedMaps.Entries<string, PathItem>): (d: seq<(string, seq<(Operations.Verb, Operations.Operation)>)>)
    ensures |d| == |paths|
    ensures forall i :: 0 <= i < |d| ==> d[i] == (paths[i].0, OrderVerbs(paths[i].1))
    ensures OrderedMaps.Keys(d) == OrderedMaps.Keys(paths)
  {
    seq(|paths|, i requires 0 <= i < |paths| => (paths[i].0, OrderVerbs(paths[i].1)))
  }

  /** `_generate_apispec` for the parts modelled: name the auth objects found
      in table order, register their schemes grouped by kind, then collect the
      paths from the table sorted by rule length. */
  function Generate(routes: seq<Route>, phrases: map<int, string>): (r: Result<Document, Error>)
    requires WellFormedTable(routes)
    ensures (exists a :: a in FoundAuths(routes) && !Security.Recognised(a.kind)) ==> r == Failure(UnknownAuthenticationScheme)
    ensures r.Success? ==> forall a :: a in FoundAuths(routes) ==> Security.Recognised(a.kind)
    ensures r.Success? ==> OrderedMaps.DistinctKeys(r.value.paths)
    ensures r.Success? ==> forall p :: p in OrderedMaps.Keys(r.value.paths) <==> HasPath(routes, p)
    ensures r.Success? ==> forall i, j, k :: 0 <= i < |r.value.paths| && 0 <= j < k < |r.value.paths[i].1| ==>
                             Rank(r.value.paths[i].1[j].0) < Rank(r.value.paths[i].1[k].0)
  {
    var naming :- Security.NameSchemes(FoundAuths(routes));
    var sorted := Sort(routes);
    SortedTable(routes, naming);
    var paths :- CollectPaths(sorted, naming, phrases);
    PathsOfSorted(routes, sorted, paths);
    Success(Document(Security.Grouped(Security.Entries(naming)), Emit(paths)))
  }

  /** The naming a successful generation uses. */
  function NamingOf(routes: seq<Route>): (n: Security.Naming)
    requires WellFormedTable(routes)
    requires forall a :: a in FoundAuths(routes) ==> Security.Recognised(a.kind)
    ensures WellFormedTable(Sort(routes))
    ensures Security.ValidNaming(n) && Covered(routes, n) && Covered(Sort(routes), n)
  {
    var n := Security.NameSchemes(FoundAuths(routes)).value;
    SortedTable(routes, n);
    n
  }

  /** Once every auth object is recognised, generation succeeds exactly when
      the operations of every documented route can be built. */
  lemma GenerateSucceeds(routes: seq<Route>, phrases: map<int, string>)
    requires WellFormedTable(routes)
    requires forall a :: a in FoundAuths(routes) ==> Security.Recognised(a.kind)
    ensures Generate(routes, phrases).Success? <==>
              forall x :: x in routes && x.spec.Some? ==> Ops(x, NamingOf(routes), phrases).Success?
  {
    var naming := NamingOf(routes);
    forall x
      ensures x in Sort(routes) <==> x in routes
    {
      SortKeepsRoutes(routes, x);
    }
    assert CollectPaths(Sort(routes), naming, phrases).Success? <==>
             forall x :: x in Sort(routes) && x.spec.Some? ==> Ops(x, naming, phrases).Success?;
  }

  /** What a successful generation is made of. */
  lemma GenerateShape(routes: seq<Route>, phrases: map<int, string>)
    requires WellFormedTable(routes) && Generate(routes, phrases).Success?
    ensures forall a :: a in FoundAuths(routes) ==> Security.Recognised(a.kind)
    ensures CollectPaths(Sort(routes), NamingOf(routes), phrases).Success?
    ensures var paths := CollectPaths(Sort(routes), NamingOf(routes), phrases).value;
            && CollectedFrom(paths, Sort(routes), NamingOf(routes), phrases)
            && Generate(routes, phrases).value
               == Document(Security.Grouped(Security.Entries(NamingOf(routes))), Emit(paths))
  {
  }

  /** Every operation of the document is the one the last route of the sorted
      table that documents its method under its path builds: among routes
      whose rules normalise to the same path, longer rules override shorter
      ones, and equally long ones are overridden in table order. */
  lemma GenerateOperation(routes: seq<Route>, phrases: map<int, string>, i: nat, j: nat)
    requires WellFormedTable(routes) && Generate(routes, phrases).Success?
    requires i < |Generate(routes, phrases).value.paths|
    requires j < |Generate(routes, phrases).value.paths[i].1|
    ensures var d := Generate(routes, phrases).value;
            var p := d.paths[i].0;
            var v := d.paths[i].1[j].0;
            && Provider(Sort(routes), p, v).Some?
            && var x := Sort(routes)[Provider(Sort(routes), p, v).value];
            && Ops(x, NamingOf(routes), phrases).Success?
            && v in Ops(x, NamingOf(routes), phrases).value
            && d.paths[i].1[j].1 == Ops(x, NamingOf(routes), phrases).value[v]
  {
    GenerateShape(routes, phrases);
    var naming := NamingOf(routes);
    var paths := CollectPaths(Sort(routes), naming, phrases).value;
    var d := Generate(routes, phrases).value;
    OrderedMaps.GetAt(paths, i);
    var item := paths[i].1;
    assert OrderedMaps.Get(paths, paths[i].0) == Some(item);
    var v := d.paths[i].1[j].0;
    assert v in OrderedMaps.Keys(OrderVerbs(item));
  }

  /** Every method a documented route allows appears under its normalised path. */
  lemma GenerateCoversRoutes(routes: seq<Route>, phrases: map<int, string>, x: Route, v: Operations.Verb)
    requires WellFormedTable(routes) && Generate(routes, phrases).Success?
    requires x in routes && x.spec.Some? && v in Operations.AllowedVerbs(x.methods)
    ensures var d := Generate(routes, phrases).value;
            exists i, j :: 0 <= i < |d.paths| && 0 <= j < |d.paths[i].1|
                           && d.paths[i].0 == PathRules.Normalise(x.rule) && d.paths[i].1[j].0 == v
  {
    GenerateShape(routes, phrases);
    var naming := NamingOf(routes);
    var sorted := Sort(routes);
    var paths := CollectPaths(sorted, naming, phrases).value;
    var d := Generate(routes, phrases).value;
    var p := PathRules.Normalise(x.rule);
    var i := CoveredIndex(routes, sorted, paths, x, v);
    var ops := OrderVerbs(paths[i].1);
    assert d.paths[i] == (p, ops);
    var j :| 0 <= j < |ops| && ops[j].0 == v;
    assert d.paths[i].1[j].0 == v;
  }

  /** The position of a documented route's path in the collected paths, and
      the method it allows is in the path item there. */
  lemma CoveredIndex(routes: seq<Route>, sorted: seq<Route>, paths: OrderedMaps.Entries<string, PathItem>,
                     x: Route, v: Operations.Verb) returns (i: nat)
    requires sorted == Sort(routes) && PathsMatch(paths, sorted) && VerbsMatch(paths, sorted)
    requires x in routes && x.spec.Some? && v in Operations.AllowedVerbs(x.methods)
    ensures i < |paths| && paths[i].0 == PathRules.Normalise(x.rule)
    ensures v in OrderedMaps.Keys(OrderVerbs(paths[i].1))
  {
    var p := PathRules.Normalise(x.rule);
    SortKeepsRoutes(routes, x);
    var k :| 0 <= k < |sorted| && sorted[k] == x;
    assert Provides(sorted[k], p, v);
    assert HasPath(sorted, p);
    i := OrderedMaps.IndexOfKey(paths, p);
    OrderedMaps.GetAt(paths, i);
    assert Provider(sorted, p, v).Some?;
  }

  /** The name given to a discovered scheme is the name of an emitted scheme. */
  lemma NameDeclared(naming: Security.Naming, a: Auth)
    requires Security.ValidNaming(naming) && a in naming.auths
    ensures Security.NameOf(naming, a) in OrderedMaps.Keys(Security.Grouped(Security.Entries(naming)))
  {
    var n := Security.IndexOfAuth(naming.auths, a);
    var entries := Security.Entries(naming);
    assert entries[n] in multiset(entries);
    Security.NamingEmitsEachOnce(naming);
    var grouped := Security.Grouped(entries);
    assert entries[n] in grouped;
    var m :| 0 <= m < |grouped| && grouped[m] == entries[n];
    assert OrderedMaps.Keys(grouped)[m] == entries[n].0;
  }

  /** An operation of a route carries the route's security requirement. */
  lemma OpsSecurity(x: Route, naming: Security.Naming, phrases: map<int, string>, v: Operations.Verb)
    requires WellFormedRoute(x) && x.spec.Some? && |naming.auths| == |naming.names|
    requires AuthOf(x).Some? ==> AuthOf(x).value in naming.auths
    requires Ops(x, naming, phrases).Success? && v in Ops(x, naming, phrases).value
    ensures Operations.SecurityOf(x.spec.value, naming).Success?
    ensures Ops(x, naming, phrases).value[v].security == Operations.SecurityOf(x.spec.value, naming).value
  {
  }

  /** A security requirement names one of the schemes emitted for the naming. */
  lemma SecurityDeclared(spec: Descriptor, naming: Security.Naming)
    requires WellKeyed(spec) && Security.ValidNaming(naming)
    requires AuthKey in spec ==> spec[AuthKey].auth in naming.auths
    requires Operations.SecurityOf(spec, naming).Success?
    ensures var s := Operations.SecurityOf(spec, naming).value;
            s.Some? ==> s.value.scheme in OrderedMaps.Keys(Security.Grouped(Security.Entries(naming)))
  {
    if AuthKey in spec {
      NameDeclared(naming, spec[AuthKey].auth);
    }
  }

  /** The security requirement of a route's operations names one of the
      schemes emitted for the naming. */
  lemma OpsSchemeDeclared(x: Route, naming: Security.Naming, phrases: map<int, string>, v: Operations.Verb)
    requires WellFormedRoute(x) && x.spec.Some? && Security.ValidNaming(naming)
    requires AuthOf(x).Some? ==> AuthOf(x).value in naming.auths
    requires Ops(x, naming, phrases).Success? && v in Ops(x, naming, phrases).value
    ensures var op := Ops(x, naming, phrases).value[v];
            op.security.Some? ==>
              op.security.value.scheme in OrderedMaps.Keys(Security.Grouped(Security.Entries(naming)))
  {
    OpsSecurity(x, naming, phrases, v);
    SecurityDeclared(x.spec.value, naming);
  }

  /** Every security requirement of an operation names a security scheme the
      document declares. */
  lemma GenerateDeclaresSchemes(routes: seq<Route>, phrases: map<int, string>, i: nat, j: nat)
    requires WellFormedTable(routes) && Generate(routes, phrases).Success?
    requires i < |Generate(routes, phrases).value.paths|
    requires j < |Generate(routes, phrases).value.paths[i].1|
    ensures var d := Generate(routes, phrases).value;
            var op := d.paths[i].1[j].1;
            op.security.Some? ==> op.security.value.scheme in OrderedMaps.Keys(d.securitySchemes)
  {
    GenerateShape(routes, phrases);
    GenerateOperation(routes, phrases, i, j);
    var naming := NamingOf(routes);
    var d := Generate(routes, phrases).value;
    var v := d.paths[i].1[j].0;
    var x := Sort(routes)[Provider(Sort(routes), d.paths[i].0, v).value];
    OpsSchemeDeclared(x, naming, phrases, v);
  }

  lemma SortedTable(routes: seq<Route>, naming: Security.Naming)
    requires WellFormedTable(routes)
    requires forall a :: a in FoundAuths(routes) <==> a in naming.auths
    ensures WellFormedTable(Sort(routes)) && Covered(Sort(routes), naming)
  {
    forall r | r in Sort(routes)
      ensures r in routes
    {
      SortKeepsRoutes(routes, r);
    }
  }

  lemma PathsOfSorted(routes: seq<Route>, sorted: seq<Route>, paths: OrderedMaps.Entries<string, PathItem>)
    requires sorted == Sort(routes)
    requires forall p :: OrderedMaps.Get(paths, p).Some? <==> HasPath(sorted, p)
    ensures forall p :: p in OrderedMaps.Keys(paths) <==> HasPath(routes, p)
  {
    forall p
      ensures HasPath(sorted, p) <==> HasPath(routes, p)
    {
      if HasPath(sorted, p) {
        var i :| 0 <= i < |sorted| && sorted[i].spec.Some? && PathRules.Normalise(sorted[i].rule) == p;
        SortKeepsRoutes(routes, sorted[i]);
        var j :| 0 <= j < |routes| && routes[j] == sorted[i];
      }
      if HasPath(routes, p) {
        var i :| 0 <= i < |routes| && routes[i].spec.Some? && PathRules.Normalise(routes[i].rule) == p;
        SortKeepsRoutes(routes, routes[i]);
        var j :| 0 <= j < |sorted| && sorted[j] == routes[i];
      }
    }
  }
}
