/** Security scheme naming and security scheme objects of the OpenAPI
    assembler (src/apifairy/core.py:158-210). */
module Security {
  import opened Wrappers
  import opened Errors
  import opened Collaborators
  import opened Strings
  import Seqs

  /** An `HTTPBasicAuth` or `HTTPTokenAuth`; anything else is refused. */
  predicate Recognised(kind: AuthKind) {
    !kind.OtherAuth?
  }

  /** A token scheme documented as HTTP bearer: scheme "Bearer" and no custom header. */
  predicate IsBearer(kind: AuthKind) {
    kind.TokenAuth? && kind.scheme == "Bearer" && kind.header.None?
  }

  /** The name a scheme gets when no earlier scheme has taken it. */
  function BaseName(kind: AuthKind): (name: string)
    requires Recognised(kind)
    ensures name in Prefixes
  {
    if kind.BasicAuth? then "basic_auth" else if IsBearer(kind) then "token_auth" else "api_key"
  }

  /** The three base names, in the order the schemes are emitted. */
  const Prefixes: seq<string> := ["basic_auth", "token_auth", "api_key"]

  /** `f'{name}_{v}'`. */
  function Numbered(base: string, v: nat): string {
    base + "_" + NatToString(v)
  }

  lemma NumberedInjective(base: string, v: nat, w: nat)
    requires Numbered(base, v) == Numbered(base, w)
    ensures v == w
  {
    var n := |base| + 1;
    assert Numbered(base, v)[n..] == NatToString(v);
    assert Numbered(base, w)[n..] == NatToString(w);
    ParseNatToString(v);
    ParseNatToString(w);
  }

  /** The numbered names `base_lo` up to `base_(hi - 1)`. */
  function NumberedRange(base: string, lo: nat, hi: nat): (r: set<string>)
    ensures forall k :: lo <= k < hi ==> Numbered(base, k) in r
    ensures forall x :: x in r ==> exists k :: lo <= k < hi && x == Numbered(base, k)
    decreases hi
  {
    if hi <= lo then {} else {Numbered(base, hi - 1)} + NumberedRange(base, lo, hi - 1)
  }

  lemma {:induction false} NumberedRangeSize(base: string, lo: nat, hi: nat)
    requires lo <= hi
    ensures |NumberedRange(base, lo, hi)| == hi - lo
    decreases hi
  {
    if lo < hi {
      var below, x := NumberedRange(base, lo, hi - 1), Numbered(base, hi - 1);
      NumberedRangeSize(base, lo, hi - 1);
      NumberedAboveRange(base, lo, hi - 1);
      NumberedRangeStep(base, lo, hi);
      AddNewSize(NumberedRange(base, lo, hi), below, x);
    }
  }

  lemma NumberedRangeStep(base: string, lo: nat, hi: nat)
    requires lo < hi
    ensures NumberedRange(base, lo, hi) == {Numbered(base, hi - 1)} + NumberedRange(base, lo, hi - 1)
  {
  }

  lemma AddNewSize<T>(all: set<T>, s: set<T>, x: T)
    requires all == {x} + s && x !in s
    ensures |all| == |s| + 1
  {
    assert all == s + {x};
  }

  /** The name numbered `hi` is not among those numbered below it. */
  lemma NumberedAboveRange(base: string, lo: nat, hi: nat)
    ensures Numbered(base, hi) !in NumberedRange(base, lo, hi)
  {
    if Numbered(base, hi) in NumberedRange(base, lo, hi) {
      var k :| lo <= k < hi && Numbered(base, hi) == Numbered(base, k);
      NumberedInjective(base, hi, k);
    }
  }

  lemma {:induction false} SubsetSize<T>(a: set<T>, b: set<T>)
    requires a <= b
    ensures |a| <= |b|
    decreases a
  {
    if a != {} {
      var x :| x in a;
      SubsetSize(a - {x}, b - {x});
    }
  }

  /** If `base_2` to `base_(n - 1)` are all taken, there are at least `n - 2` taken names. */
  lemma TakenNumbersBound(base: string, used: set<string>, n: nat)
    requires 2 <= n
    requires forall k :: 2 <= k < n ==> Numbered(base, k) in used
    ensures n - 2 <= |used|
  {
    NumberedRangeSize(base, 2, n);
    SubsetSize(NumberedRange(base, 2, n), used);
  }

  /** The `while new_name in auth_names: v += 1` search, from `v`: the first
      number whose name is free. It terminates because the taken names are finite. */
  function FirstFreeNumber(base: string, used: set<string>, v: nat): (w: nat)
    requires 2 <= v
    requires forall k :: 2 <= k < v ==> Numbered(base, k) in used
    ensures v <= w && Numbered(base, w) !in used
    ensures forall k :: 2 <= k < w ==> Numbered(base, k) in used
    decreases |used| + 2 - v
  {
    if Numbered(base, v) !in used then v
    else
      TakenNumbersBound(base, used, v + 1);
      FirstFreeNumber(base, used, v + 1)
  }

  /** The name given to a new scheme: the base name when free, otherwise
      `base_v` for the smallest `v >= 2` not taken. */
  function UniqueName(base: string, used: set<string>): (name: string)
    ensures name !in used
    ensures StartsWith(name, base)
    ensures base !in used ==> name == base
    ensures base in used ==> exists v :: 2 <= v && name == Numbered(base, v)
                                         && forall k :: 2 <= k < v ==> Numbered(base, k) in used
  {
    if base !in used then base
    else
      var v := FirstFreeNumber(base, used, 2);
      assert Numbered(base, v)[..|base|] == base;
      Numbered(base, v)
  }

  function Used(names: seq<string>): set<string> {
    set x | x in names
  }

  /** The discovered schemes (`auth_schemes`) and their names (`auth_names`). */
  datatype Naming = Naming(auths: seq<Auth>, names: seq<string>)

  /** Parallel lists of distinct recognised schemes, each named by `UniqueName`
      against the names given before it. */
  ghost predicate ValidNaming(n: Naming) {
    && |n.auths| == |n.names|
    && (forall i :: 0 <= i < |n.auths| ==> Recognised(n.auths[i].kind))
    && (forall i, j :: 0 <= i < j < |n.auths| ==> n.auths[i] != n.auths[j])
    && (forall i :: 0 <= i < |n.names| ==>
          n.names[i] == UniqueName(BaseName(n.auths[i].kind), Used(n.names[..i])))
  }

  /** The first loop over the routes: `found` lists the auth object of every
      documented route that has one, in routing order. Each object is named on
      its first appearance; an object of an unknown class is refused. */
  function NameSchemes(found: seq<Auth>): (r: Result<Naming, Error>)
    ensures r.Success? <==> forall a :: a in found ==> Recognised(a.kind)
    ensures r.Failure? ==> r.error == UnknownAuthenticationScheme
    ensures r.Success? ==> ValidNaming(r.value)
    ensures r.Success? ==> forall a :: a in found <==> a in r.value.auths
    ensures r.Success? ==> r.value.auths == Seqs.Dedup(found)
    decreases |found|
  {
    if found == [] then Success(Naming([], []))
    else
      var prefix := found[..|found| - 1];
      var a := found[|found| - 1];
      assert found == prefix + [a];
      var prev :- NameSchemes(prefix);
      Seqs.DedupSnoc(prefix, a);
      if a in prev.auths then Success(prev)
      else if !Recognised(a.kind) then Failure(UnknownAuthenticationScheme)
      else
        var name := UniqueName(BaseName(a.kind), Used(prev.names));
        var next := Naming(prev.auths + [a], prev.names + [name]);
        assert next.names[..|prev.names|] == prev.names;
        assert forall i :: 0 <= i < |prev.names| ==> next.names[..i] == prev.names[..i];
        Success(next)
  }

  /** Two bearer tokens and an API key, found in that order on the routes
      `/foo`, `/bar` and `/baz`: the first bearer token is `token_auth`, the
      API key `api_key`, and the second bearer token `token_auth_2`. */
  lemma NameSchemesExample(first: Auth, key: Auth, second: Auth)
    requires first == Auth(1, TokenAuth("Bearer", None), "auth documentation")
    requires key == Auth(2, TokenAuth("Bearer", Some("X-Token")), "")
    requires second == Auth(3, TokenAuth("Bearer", None), "custom auth documentation")
    ensures NameSchemes([first, key, first, second])
            == Success(Naming([first, key, second], ["token_auth", "api_key", "token_auth_2"]))
  {
    var n2 := Naming([first, key], ["token_auth", "api_key"]);
    ExampleFirstNames(first, key);
    ExampleRepeat([first, key], first, n2);
    ExampleLast([first, key] + [first], second, n2);
    ExampleOrder(first, key, second);
  }

  lemma ExampleOrder(first: Auth, key: Auth, second: Auth)
    ensures [first, key] + [first] + [second] == [first, key, first, second]
    ensures [first, key] + [second] == [first, key, second]
  {
  }

  lemma ExampleRepeat(found: seq<Auth>, a: Auth, n: Naming)
    requires NameSchemes(found) == Success(n) && a in n.auths
    ensures NameSchemes(found + [a]) == Success(n)
  {
    NameSchemesSnoc(found, a);
  }

  lemma ExampleLast(found: seq<Auth>, second: Auth, n: Naming)
    requires n.names == ["token_auth", "api_key"]
    requires NameSchemes(found) == Success(n) && second !in n.auths
    requires second.kind == TokenAuth("Bearer", None)
    ensures NameSchemes(found + [second])
            == Success(Naming(n.auths + [second], ["token_auth", "api_key", "token_auth_2"]))
  {
    NameSchemesSnoc(found, second);
    BearerName(second.kind);
    SecondTokenName(n.names);
  }

  lemma BearerName(kind: AuthKind)
    requires kind == TokenAuth("Bearer", None)
    ensures Recognised(kind) && BaseName(kind) == "token_auth"
  {
  }

  lemma ExampleFirstNames(first: Auth, key: Auth)
    requires first == Auth(1, TokenAuth("Bearer", None), "auth documentation")
    requires key == Auth(2, TokenAuth("Bearer", Some("X-Token")), "")
    ensures NameSchemes([first, key]) == Success(Naming([first, key], ["token_auth", "api_key"]))
  {
    assert NameSchemes([]) == Success(Naming([], []));
    NameSchemesSnoc([], first);
    assert [] + [first] == [first];
    assert BaseName(first.kind) == "token_auth";
    assert "token_auth" !in Used([]);
    assert NameSchemes([first]) == Success(Naming([first], ["token_auth"]));
    NameSchemesSnoc([first], key);
    assert [first] + [key] == [first, key];
    assert key !in [first];
    assert BaseName(key.kind) == "api_key";
    assert "api_key" !in Used(["token_auth"]);
    assert UniqueName("api_key", Used(["token_auth"])) == "api_key";
    assert ["token_auth"] + ["api_key"] == ["token_auth", "api_key"];
  }

  /** The second bearer token after `token_auth` and `api_key` is `token_auth_2`. */
  lemma SecondTokenName(names: seq<string>)
    requires names == ["token_auth", "api_key"]
    ensures names + [UniqueName("token_auth", Used(names))] == ["token_auth", "api_key", "token_auth_2"]
  {
    var used := Used(names);
    assert "token_auth" in used;
    assert NatToString(2) == "2";
    assert Numbered("token_auth", 2) == "token_auth_2";
    assert "token_auth_2" !in used by {
      assert "token_auth_2" != "token_auth" && "token_auth_2" != "api_key";
    }
  }

  /** One more auth object found: nothing changes when it was seen before;
      otherwise it is refused or named against the names given so far. */
  lemma NameSchemesSnoc(prefix: seq<Auth>, a: Auth)
    requires NameSchemes(prefix).Success?
    ensures var prev := NameSchemes(prefix).value;
            NameSchemes(prefix + [a])
            == if a in prev.auths then Success(prev)
               else if !Recognised(a.kind) then Failure(UnknownAuthenticationScheme)
               else Success(Naming(prev.auths + [a], prev.names + [UniqueName(BaseName(a.kind), Used(prev.names))]))
  {
    assert (prefix + [a])[..|prefix|] == prefix;
  }

  /** The names of a valid naming are pairwise distinct. */
  lemma NamesDistinct(n: Naming)
    requires ValidNaming(n)
    ensures forall i, j :: 0 <= i < j < |n.names| ==> n.names[i] != n.names[j]
  {
    forall i, j | 0 <= i < j < |n.names|
      ensures n.names[i] != n.names[j]
    {
      assert n.names[i] in Used(n.names[..j]) by { assert n.names[..j][i] == n.names[i]; }
    }
  }

  function IndexOfAuth(auths: seq<Auth>, a: Auth): (i: nat)
    requires a in auths
    ensures i < |auths| && auths[i] == a
  {
    if auths[0] == a then 0 else IndexOfAuth(auths[1..], a) + 1
  }

  /** `security[auth]`: the name given to a discovered scheme. */
  function NameOf(n: Naming, a: Auth): string
    requires |n.auths| == |n.names| && a in n.auths
  {
    n.names[IndexOfAuth(n.auths, a)]
  }

  /** Each scheme has exactly one name, and distinct schemes have distinct names. */
  lemma NameOfInjective(n: Naming, a: Auth, b: Auth)
    requires ValidNaming(n) && a in n.auths && b in n.auths
    ensures NameOf(n, a) == NameOf(n, b) <==> a == b
  {
    NamesDistinct(n);
  }

  /** The OpenAPI security scheme object for one auth object. */
  datatype SchemeObject =
    | HttpScheme(scheme: string, description: Option<string>)
    | ApiKeyScheme(header: Option<string>, description: Option<string>)

  /** The scheme object: HTTP bearer for a bearer token, an API key read from the
      custom header for any other token, HTTP basic otherwise; it carries the
      stripped documentation exactly when the object's documentation is non-empty. */
  function SchemeFor(a: Auth): (s: SchemeObject)
    ensures s == HttpScheme("bearer", s.description) <==> IsBearer(a.kind)
    ensures s.ApiKeyScheme? <==> a.kind.TokenAuth? && !IsBearer(a.kind)
    ensures s.ApiKeyScheme? ==> s.header == a.kind.header
    ensures s == HttpScheme("basic", s.description) <==> !a.kind.TokenAuth?
    ensures s.description.Some? <==> a.doc != []
    ensures s.description.Some? ==> s.description.value == Strip(a.doc)
  {
    var description := if a.doc != [] then Some(Strip(a.doc)) else None;
    if a.kind.TokenAuth? then
      if IsBearer(a.kind) then HttpScheme("bearer", description) else ApiKeyScheme(a.kind.header, description)
    else HttpScheme("basic", description)
  }

  /** A scheme's name prefix and its object agree: `basic_auth` names HTTP basic,
      `token_auth` HTTP bearer and `api_key` an API key. */
  lemma BaseNameMatchesScheme(a: Auth)
    requires Recognised(a.kind)
    ensures BaseName(a.kind) == "basic_auth" <==> SchemeFor(a).HttpScheme? && SchemeFor(a).scheme == "basic"
    ensures BaseName(a.kind) == "token_auth" <==> SchemeFor(a).HttpScheme? && SchemeFor(a).scheme == "bearer"
    ensures BaseName(a.kind) == "api_key" <==> SchemeFor(a).ApiKeyScheme?
  {
  }

  /** `security_schemes`: each name with its scheme object, in discovery order. */
  function Entries(n: Naming): (e: seq<(string, SchemeObject)>)
    requires |n.auths| == |n.names|
    ensures |e| == |n.names|
    ensures forall i :: 0 <= i < |e| ==> e[i] == (n.names[i], SchemeFor(n.auths[i]))
  {
    seq(|n.names|, i requires 0 <= i < |n.names| => (n.names[i], SchemeFor(n.auths[i])))
  }

  /** The entries whose name starts with `prefix`, in order. */
  function WithPrefix(e: seq<(string, SchemeObject)>, prefix: string): seq<(string, SchemeObject)> {
    if e == [] then []
    else (if StartsWith(e[0].0, prefix) then [e[0]] else []) + WithPrefix(e[1..], prefix)
  }

  /** The emission loop: basic schemes, then bearer, then API key. */
  function Grouped(e: seq<(string, SchemeObject)>): seq<(string, SchemeObject)> {
    WithPrefix(e, Prefixes[0]) + WithPrefix(e, Prefixes[1]) + WithPrefix(e, Prefixes[2])
  }

  /** A name starts with exactly one of the three prefixes. */
  predicate OnePrefix(name: string) {
    && (StartsWith(name, Prefixes[0]) || StartsWith(name, Prefixes[1]) || StartsWith(name, Prefixes[2]))
    && !(StartsWith(name, Prefixes[0]) && StartsWith(name, Prefixes[1]))
    && !(StartsWith(name, Prefixes[0]) && StartsWith(name, Prefixes[2]))
    && !(StartsWith(name, Prefixes[1]) && StartsWith(name, Prefixes[2]))
  }

  predicate OnePrefixEach(e: seq<(string, SchemeObject)>) {
    forall i :: 0 <= i < |e| ==> OnePrefix(e[i].0)
  }

  /** The three prefixes differ in their first character. */
  lemma StartsWithOnePrefix(name: string, base: string)
    requires base in Prefixes && StartsWith(name, base)
    ensures OnePrefix(name)
  {
    assert name[0] == base[0];
  }

  /** When the prefixes partition the names, the grouped emission holds every
      entry exactly once. */
  lemma {:induction false} GroupedIsPermutation(e: seq<(string, SchemeObject)>)
    requires OnePrefixEach(e)
    ensures multiset(Grouped(e)) == multiset(e)
  {
    if e != [] {
      GroupedIsPermutation(e[1..]);
      assert e == [e[0]] + e[1..];
    }
  }

  /** The names of a valid naming start with exactly one prefix each, so every
      discovered scheme is emitted exactly once. */
  lemma {:induction false} NamingEmitsEachOnce(n: Naming)
    requires ValidNaming(n)
    ensures OnePrefixEach(Entries(n))
    ensures multiset(Grouped(Entries(n))) == multiset(Entries(n))
  {
    var e := Entries(n);
    forall i | 0 <= i < |e|
      ensures OnePrefix(e[i].0)
    {
      StartsWithOnePrefix(e[i].0, BaseName(n.auths[i].kind));
    }
    GroupedIsPermutation(e);
  }
}
