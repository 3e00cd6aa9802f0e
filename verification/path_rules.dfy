/** Path parameters and path normalisation of the OpenAPI assembler
    (src/apifairy/core.py:298-318): Werkzeug rules such as `/users/<int:id>`
    are scanned for `<converter:name>` placeholders, which become typed path
    parameters, and are rewritten to OpenAPI paths such as `/users/{id}`.

    Both steps are regular expressions whose converter part is the class
    `[^<:]`. That class does not exclude `>`, so a converter match can run
    past the end of a placeholder into the literal text after it. The
    `...AsWritten` members model the expressions as written; the members
    without that suffix exclude `>` from the converter, which is what the
    expressions are evidently meant to do, and are the ones the assembler uses. */
module PathRules {
  import opened Wrappers
  import opened Strings
  import Seqs

  /** The characters `[^<:]` excludes, as written. */
  const WrittenConverterStop: set<char> := {'<', ':'}

  /** The characters a converter is meant to exclude. */
  const ConverterStop: set<char> := {'<', ':', '>'}

  /** The length of the longest prefix of `s` holding no character of `stop`. */
  function Span(s: string, stop: set<char>): (n: nat)
    ensures n <= |s|
    ensures forall i :: 0 <= i < n ==> s[i] !in stop
    ensures n < |s| ==> s[n] in stop
  {
    if s == [] || s[0] in stop then 0 else Span(s[1..], stop) + 1
  }

  lemma SpanConcat(p: string, q: string, stop: set<char>)
    requires forall i :: 0 <= i < |p| ==> p[i] !in stop
    requires q != [] && q[0] in stop
    ensures Span(p + q, stop) == |p|
    decreases |p|
  {
    if p != [] {
      assert (p + q)[0] == p[0];
      assert (p + q)[1..] == p[1..] + q;
      SpanConcat(p[1..], q, stop);
    }
  }

  /** A prefix free of `stop` is skipped whole. */
  lemma {:induction false} SpanPrefix(p: string, q: string, stop: set<char>)
    requires forall i :: 0 <= i < |p| ==> p[i] !in stop
    ensures Span(p + q, stop) == |p| + Span(q, stop)
    decreases |p|
  {
    if p != [] {
      assert (p + q)[0] == p[0];
      assert (p + q)[1..] == p[1..] + q;
      SpanPrefix(p[1..], q, stop);
    } else {
      assert p + q == q;
    }
  }

  /** How much of the text after a `<` the optional group `([^<:]+:)?` takes:
      a non-empty run free of `stop` together with the colon that ends it, or
      nothing. */
  function ConverterLength(t: string, stop: set<char>): (c: nat)
    requires ':' in stop
    ensures c <= |t|
    ensures c > 0 ==> c >= 2 && t[c - 1] == ':' && forall i :: 0 <= i < c - 1 ==> t[i] !in stop
  {
    var g := Span(t, stop);
    if 0 < g < |t| && t[g] == ':' then g + 1 else 0
  }

  /** `([^>]+)>`: the length of a non-empty run without `>` that a `>` ends. */
  function NameLength(t: string): (n: Option<nat>)
    ensures n.Some? ==> 0 < n.value < |t| && t[n.value] == '>' && '>' !in t[..n.value]
  {
    var n := Span(t, {'>'});
    if 0 < n < |t| then Some(n) else None
  }

  /** One match: group 2 (the converter with its colon, empty when absent) and
      group 3 (the name). */
  datatype Placeholder = Placeholder(converter: string, name: string)

  /** The match of `(([^<:]+:)?([^>]+))>` against the text after a `<`: the
      placeholder and the number of characters consumed. The optional
      converter is tried first; when the name cannot follow it, the match
      backtracks to no converter. */
  function MatchAfterOpen(t: string, stop: set<char>): (m: Option<(Placeholder, nat)>)
    requires ':' in stop
    ensures m.Some? ==> 0 < m.value.1 <= |t| && t[m.value.1 - 1] == '>'
    ensures m.Some? ==> m.value.0.name != [] && '>' !in m.value.0.name
  {
    var c := ConverterLength(t, stop);
    if c > 0 && NameLength(t[c..]).Some? then
      var n := NameLength(t[c..]).value;
      assert t[c..][..n] == t[c..c + n];
      Some((Placeholder(t[..c], t[c..c + n]), c + n + 1))
    else if NameLength(t).Some? then
      var n := NameLength(t).value;
      Some((Placeholder([], t[..n]), n + 1))
    else None
  }

  /** `re.findall` of the placeholder pattern: the non-overlapping matches,
      left to right. */
  function ScanWith(s: string, stop: set<char>): seq<Placeholder>
    requires ':' in stop
    decreases |s|
  {
    if s == [] then []
    else if s[0] == '<' then
      match MatchAfterOpen(s[1..], stop)
      case Some((p, k)) => [p] + ScanWith(s[1 + k..], stop)
      case None => ScanWith(s[1..], stop)
    else ScanWith(s[1..], stop)
  }

  /** `re.findall(r'<(([^<:]+:)?([^>]+))>', rule)` as written. */
  function ScanAsWritten(rule: string): seq<Placeholder> {
    ScanWith(rule, WrittenConverterStop)
  }

  /** The placeholder scan with `>` excluded from the converter. */
  function Scan(rule: string): seq<Placeholder> {
    ScanWith(rule, ConverterStop)
  }

  /** `re.sub(r'<([^<:]+:)?', '{', s)`: every `<` and the converter after it
      becomes `{`. */
  function SubstituteWith(s: string, stop: set<char>): (r: string)
    requires ':' in stop
    ensures '<' !in r
    decreases |s|
  {
    if s == [] then []
    else if s[0] == '<' then "{" + SubstituteWith(s[1 + ConverterLength(s[1..], stop)..], stop)
    else [s[0]] + SubstituteWith(s[1..], stop)
  }

  /** `re.sub(r'<([^<:]+:)?', '{', rule).replace('>', '}')` as written. */
  function NormaliseAsWritten(rule: string): (path: string)
    ensures '<' !in path && '>' !in path
  {
    ReplaceChar(SubstituteWith(rule, WrittenConverterStop), '>', '}')
  }

  /** The path rewrite with `>` excluded from the converter: no Werkzeug
      bracket survives. */
  function Normalise(rule: string): (path: string)
    ensures '<' !in path && '>' !in path
  {
    ReplaceChar(SubstituteWith(rule, ConverterStop), '>', '}')
  }

  /** The OpenAPI schema type of a path parameter. */
  datatype ParamType = StringType | IntegerType | NumberType

  /** `int:` gives integer, `float:` gives number, anything else (no converter,
      `string:`, `path:`, a converter with arguments, ...) gives string. */
  function ParamTypeOf(converter: string): ParamType {
    if converter == "int:" then IntegerType
    else if converter == "float:" then NumberType
    else StringType
  }

  /** An OpenAPI path parameter: `{'in': 'path', 'name': name, 'schema': {'type': type}}`. */
  datatype PathParameter = PathParameter(name: string, paramType: ParamType)

  /** The path parameters of a rule, one per placeholder, in rule order. */
  function PathParameters(rule: string): (ps: seq<PathParameter>)
    ensures |ps| == |Scan(rule)|
    ensures forall i :: 0 <= i < |ps| ==>
              ps[i] == PathParameter(Scan(rule)[i].name, ParamTypeOf(Scan(rule)[i].converter))
  {
    var found := Scan(rule);
    seq(|found|, i requires 0 <= i < |found| => PathParameter(found[i].name, ParamTypeOf(found[i].converter)))
  }

  // ---------------------------------------------------------------------------
  // Rules built from segments, and what the scan and rewrite make of them.

  /** A rule segment: literal text, or a placeholder with an optional converter
      (`<name>` or `<converter:name>`). */
  datatype Segment = Literal(text: string) | Variable(converter: Option<string>, name: string)

  predicate NoneOf(s: string, cs: set<char>) {
    forall i :: 0 <= i < |s| ==> s[i] !in cs
  }

  /** Literal text holds no angle bracket; names and converters are non-empty
      and hold no angle bracket or colon. Literal text may hold colons. */
  predicate WellFormed(seg: Segment) {
    match seg
    case Literal(text) => NoneOf(text, {'<', '>'})
    case Variable(converter, name) =>
      name != [] && NoneOf(name, {'<', '>', ':'})
      && (converter.Some? ==> converter.value != [] && NoneOf(converter.value, {'<', '>', ':'}))
  }

  predicate AllWellFormed(segs: seq<Segment>) {
    forall i :: 0 <= i < |segs| ==> WellFormed(segs[i])
  }

  /** A segment in Werkzeug syntax. */
  function SegmentText(seg: Segment): string {
    match seg
    case Literal(text) => text
    case Variable(None, name) => "<" + name + ">"
    case Variable(Some(c), name) => "<" + c + ":" + name + ">"
  }

  /** A rule in Werkzeug syntax. */
  function RuleText(segs: seq<Segment>): string {
    if segs == [] then [] else SegmentText(segs[0]) + RuleText(segs[1..])
  }

  /** A segment in OpenAPI path syntax. */
  function OpenApiSegment(seg: Segment): string {
    match seg
    case Literal(text) => text
    case Variable(_, name) => "{" + name + "}"
  }

  /** A rule in OpenAPI path syntax. */
  function OpenApiPath(segs: seq<Segment>): string {
    if segs == [] then [] else OpenApiSegment(segs[0]) + OpenApiPath(segs[1..])
  }

  /** The placeholders of a rule, as the scan reports them: the converter with
      its colon (empty when absent) and the name. */
  function Placeholders(segs: seq<Segment>): seq<Placeholder> {
    if segs == [] then []
    else
      (match segs[0]
       case Literal(_) => []
       case Variable(None, name) => [Placeholder([], name)]
       case Variable(Some(c), name) => [Placeholder(c + ":", name)])
      + Placeholders(segs[1..])
  }

  lemma ScanStep(s: string, stop: set<char>)
    requires ':' in stop && s != [] && s[0] != '<'
    ensures ScanWith(s, stop) == ScanWith(s[1..], stop)
  {
  }

  lemma SubstituteStep(s: string, stop: set<char>)
    requires ':' in stop && s != [] && s[0] != '<'
    ensures SubstituteWith(s, stop) == [s[0]] + SubstituteWith(s[1..], stop)
  {
  }

  lemma {:induction false} ScanLiteral(p: string, q: string, stop: set<char>)
    requires ':' in stop && '<' !in p
    ensures ScanWith(p + q, stop) == ScanWith(q, stop)
    decreases |p|
  {
    if p != [] {
      var s := p + q;
      assert s[0] == p[0];
      assert s[0] != '<' by { assert p[0] in p; }
      assert s[1..] == p[1..] + q;
      ScanStep(s, stop);
      ScanLiteral(p[1..], q, stop);
    } else {
      assert p + q == q;
    }
  }

  lemma {:induction false} SubstituteLiteral(p: string, q: string, stop: set<char>)
    requires ':' in stop && '<' !in p
    ensures SubstituteWith(p + q, stop) == p + SubstituteWith(q, stop)
    decreases |p|
  {
    if p != [] {
      var s := p + q;
      assert s[0] == p[0];
      assert s[0] != '<' by { assert p[0] in p; }
      assert s[1..] == p[1..] + q;
      SubstituteStep(s, stop);
      SubstituteLiteral(p[1..], q, stop);
      assert p + SubstituteWith(q, stop) == [p[0]] + (p[1..] + SubstituteWith(q, stop));
    } else {
      assert p + q == q;
    }
  }

  lemma ScanOpen(s: string, stop: set<char>, p: Placeholder, k: nat)
    requires ':' in stop && s != [] && s[0] == '<'
    requires MatchAfterOpen(s[1..], stop) == Some((p, k))
    ensures 1 + k <= |s|
    ensures ScanWith(s, stop) == [p] + ScanWith(s[1 + k..], stop)
  {
  }

  lemma MatchConverter(t: string, stop: set<char>, c: nat, n: nat)
    requires ':' in stop && 0 < c == ConverterLength(t, stop)
    requires NameLength(t[c..]) == Some(n)
    ensures MatchAfterOpen(t, stop) == Some((Placeholder(t[..c], t[c..c + n]), c + n + 1))
  {
  }

  lemma MatchPlain(t: string, stop: set<char>, n: nat)
    requires ':' in stop && ConverterLength(t, stop) == 0
    requires NameLength(t) == Some(n)
    ensures MatchAfterOpen(t, stop) == Some((Placeholder([], t[..n]), n + 1))
  {
  }

  /** The name of a well-formed placeholder, followed by its `>`, is matched by
      `([^>]+)>`. */
  lemma NameOfVariable(n: string, rest: string)
    requires n != [] && NoneOf(n, {'<', '>', ':'})
    ensures NameLength(n + ">" + rest) == Some(|n|)
    ensures (n + ">" + rest)[..|n|] == n
  {
    assert n + ">" + rest == n + (">" + rest);
    SpanConcat(n, ">" + rest, {'>'});
  }

  /** After the `<` of a placeholder without converter, the converter group
      takes nothing. With `>` excluded from the converter that always holds;
      as written it holds when no colon follows before the next `<`. */
  predicate PlainCloses(segs: seq<Segment>, stop: set<char>)
    requires ':' in stop
  {
    segs == []
    || (&& (segs[0].Variable? && segs[0].converter.None? ==>
              ConverterLength(segs[0].name + ">" + RuleText(segs[1..]), stop) == 0)
        && PlainCloses(segs[1..], stop))
  }

  lemma ScanPlainVariable(n: string, rest: string, stop: set<char>)
    requires ':' in stop && n != [] && NoneOf(n, {'<', '>', ':'})
    requires ConverterLength(n + ">" + rest, stop) == 0
    ensures ScanWith("<" + n + ">" + rest, stop) == [Placeholder([], n)] + ScanWith(rest, stop)
  {
    var s := "<" + n + ">" + rest;
    var t := n + ">" + rest;
    assert s == "<" + t;
    assert s[1..] == t;
    NameOfVariable(n, rest);
    MatchPlain(t, stop, |n|);
    ScanOpen(s, stop, Placeholder([], n), |n| + 1);
    assert s[1 + |n| + 1..] == rest;
  }

  /** A converter free of angle brackets and colons ends at its colon. */
  lemma ConverterOfConverted(c: string, u: string, stop: set<char>)
    requires ':' in stop && stop <= ConverterStop
    requires c != [] && NoneOf(c, {'<', '>', ':'})
    ensures ConverterLength(c + ":" + u, stop) == |c| + 1
  {
    assert c + ":" + u == c + (":" + u);
    assert forall i :: 0 <= i < |c| ==> c[i] !in stop;
    SpanConcat(c, ":" + u, stop);
  }

  lemma MatchConverted(c: string, n: string, rest: string, stop: set<char>)
    requires ':' in stop && stop <= ConverterStop
    requires c != [] && NoneOf(c, {'<', '>', ':'})
    requires n != [] && NoneOf(n, {'<', '>', ':'})
    ensures MatchAfterOpen(c + ":" + n + ">" + rest, stop) == Some((Placeholder(c + ":", n), |c| + |n| + 2))
  {
    var t := c + ":" + n + ">" + rest;
    var k := |c| + 1;
    assert t == c + ":" + (n + ">" + rest);
    ConverterOfConverted(c, n + ">" + rest, stop);
    assert t[k..] == n + ">" + rest;
    assert t[..k] == c + ":";
    NameOfVariable(n, rest);
    assert t[k..][..|n|] == t[k..k + |n|];
    MatchConverter(t, stop, k, |n|);
  }

  lemma ScanConvertedVariable(c: string, n: string, rest: string, stop: set<char>)
    requires ':' in stop && stop <= ConverterStop
    requires c != [] && NoneOf(c, {'<', '>', ':'})
    requires n != [] && NoneOf(n, {'<', '>', ':'})
    ensures ScanWith("<" + c + ":" + n + ">" + rest, stop) == [Placeholder(c + ":", n)] + ScanWith(rest, stop)
  {
    var s := "<" + c + ":" + n + ">" + rest;
    var t := c + ":" + n + ">" + rest;
    assert s[1..] == t;
    MatchConverted(c, n, rest, stop);
    ScanOpen(s, stop, Placeholder(c + ":", n), |c| + |n| + 2);
    assert s[1 + |c| + |n| + 2..] == rest;
  }

  lemma ScanVariable(seg: Segment, rest: string, stop: set<char>)
    requires ':' in stop && stop <= ConverterStop
    requires seg.Variable? && WellFormed(seg)
    requires seg.converter.None? ==> ConverterLength(seg.name + ">" + rest, stop) == 0
    ensures ScanWith(SegmentText(seg) + rest, stop) == Placeholders([seg]) + ScanWith(rest, stop)
  {
    match seg.converter
    case None =>
      assert SegmentText(seg) + rest == "<" + seg.name + ">" + rest;
      ScanPlainVariable(seg.name, rest, stop);
    case Some(c) =>
      assert SegmentText(seg) + rest == "<" + c + ":" + seg.name + ">" + rest;
      ScanConvertedVariable(c, seg.name, rest, stop);
  }

  /** How much of the text after the `<` of a well-formed placeholder the
      converter group takes. */
  lemma ConverterOfVariable(seg: Segment, rest: string, stop: set<char>)
    requires ':' in stop && stop <= ConverterStop
    requires seg.Variable? && WellFormed(seg)
    requires seg.converter.None? ==> ConverterLength(seg.name + ">" + rest, stop) == 0
    ensures var t := SegmentText(seg)[1..] + rest;
            ConverterLength(t, stop) == (if seg.converter.Some? then |seg.converter.value| + 1 else 0)
            && t[ConverterLength(t, stop)..] == seg.name + ">" + rest
  {
    var t := SegmentText(seg)[1..] + rest;
    if seg.converter.Some? {
      var c := seg.converter.value;
      assert t == c + ":" + (seg.name + ">" + rest);
      ConverterOfConverted(c, seg.name + ">" + rest, stop);
    } else {
      assert t == seg.name + ">" + rest;
    }
  }

  /** With `>` excluded from the converter, the converter group takes nothing
      after the `<` of a placeholder without converter. */
  lemma {:induction false} PlainClosesCorrected(segs: seq<Segment>)
    requires AllWellFormed(segs)
    ensures PlainCloses(segs, ConverterStop)
  {
    if segs != [] {
      assert AllWellFormed(segs[1..]) by {
        assert forall i :: 0 <= i < |segs| - 1 ==> segs[1..][i] == segs[i + 1];
      }
      PlainClosesCorrected(segs[1..]);
      if segs[0].Variable? && segs[0].converter.None? {
        var n := segs[0].name;
        var rest := RuleText(segs[1..]);
        assert WellFormed(segs[0]);
        assert n + ">" + rest == n + (">" + rest);
        SpanConcat(n, ">" + rest, ConverterStop);
      }
    }
  }

  /** The scan over one well-formed segment and what follows it. */
  lemma ScanSegment(seg: Segment, rest: string, stop: set<char>)
    requires ':' in stop && stop <= ConverterStop && WellFormed(seg)
    requires seg.Variable? && seg.converter.None? ==> ConverterLength(seg.name + ">" + rest, stop) == 0
    ensures ScanWith(SegmentText(seg) + rest, stop) == Placeholders([seg]) + ScanWith(rest, stop)
  {
    match seg
    case Literal(text) =>
      assert '<' !in text by { assert forall i :: 0 <= i < |text| ==> text[i] != '<'; }
      ScanLiteral(text, rest, stop);
    case Variable(_, _) =>
      ScanVariable(seg, rest, stop);
  }

  /** Scanning a well-formed rule finds exactly its placeholders, in order,
      for any converter class that stops at `<` and `:` and at nothing a
      placeholder may hold, as long as plain placeholders close. */
  lemma {:induction false} ScanTemplateWith(segs: seq<Segment>, stop: set<char>)
    requires ':' in stop && stop <= ConverterStop
    requires AllWellFormed(segs) && PlainCloses(segs, stop)
    ensures ScanWith(RuleText(segs), stop) == Placeholders(segs)
  {
    if segs != [] {
      var rest := RuleText(segs[1..]);
      ScanTemplateWith(segs[1..], stop);
      ScanSegment(segs[0], rest, stop);
      RuleTextCons(segs);
      PlaceholdersCons(segs);
    }
  }

  lemma RuleTextCons(segs: seq<Segment>)
    requires segs != []
    ensures RuleText(segs) == SegmentText(segs[0]) + RuleText(segs[1..])
  {
  }

  lemma PlaceholdersCons(segs: seq<Segment>)
    requires segs != []
    ensures Placeholders(segs) == Placeholders([segs[0]]) + Placeholders(segs[1..])
  {
    assert [segs[0]][1..] == [];
  }

  /** Scanning a well-formed rule finds exactly its placeholders, in order. */
  lemma ScanTemplate(segs: seq<Segment>)
    requires AllWellFormed(segs)
    ensures Scan(RuleText(segs)) == Placeholders(segs)
  {
    PlainClosesCorrected(segs);
    ScanTemplateWith(segs, ConverterStop);
  }

  /** The substitution step on a well-formed rule: every placeholder becomes
      `{name>`, literal text is kept. */
  function Substituted(segs: seq<Segment>): string {
    if segs == [] then []
    else
      (match segs[0]
       case Literal(text) => text
       case Variable(_, name) => "{" + name + ">")
      + Substituted(segs[1..])
  }

  /** The rewrite of one well-formed segment and what follows it. */
  lemma SubstituteSegment(seg: Segment, rest: string, stop: set<char>)
    requires ':' in stop && stop <= ConverterStop && WellFormed(seg)
    requires seg.Variable? && seg.converter.None? ==> ConverterLength(seg.name + ">" + rest, stop) == 0
    ensures SubstituteWith(SegmentText(seg) + rest, stop) == Substituted([seg]) + SubstituteWith(rest, stop)
  {
    match seg
    case Literal(text) =>
      assert '<' !in text by { assert forall i :: 0 <= i < |text| ==> text[i] != '<'; }
      SubstituteLiteral(text, rest, stop);
    case Variable(_, _) =>
      SubstituteVariable(seg, rest, stop);
  }

  lemma NameHasNoOpen(name: string)
    requires NoneOf(name, {'<', '>', ':'})
    ensures '<' !in name + ">"
  {
    assert forall i :: 0 <= i < |name + ">"| ==> (name + ">")[i] != '<';
  }

  lemma SubstituteVariable(seg: Segment, rest: string, stop: set<char>)
    requires ':' in stop && stop <= ConverterStop
    requires seg.Variable? && WellFormed(seg)
    requires seg.converter.None? ==> ConverterLength(seg.name + ">" + rest, stop) == 0
    ensures SubstituteWith(SegmentText(seg) + rest, stop) == "{" + seg.name + ">" + SubstituteWith(rest, stop)
  {
    var s := SegmentText(seg) + rest;
    assert s[0] == '<';
    assert s[1..] == SegmentText(seg)[1..] + rest;
    SubstituteOpen(s, stop);
    ConverterOfVariable(seg, rest, stop);
    var c := ConverterLength(s[1..], stop);
    assert s[1 + c..] == seg.name + ">" + rest;
    assert '<' !in seg.name + ">" by { NameHasNoOpen(seg.name); }
    SubstituteLiteral(seg.name + ">", rest, stop);
    OpenBrace(seg.name, SubstituteWith(rest, stop));
  }

  lemma OpenBrace(name: string, x: string)
    ensures "{" + ((name + ">") + x) == "{" + name + ">" + x
  {
  }

  lemma {:induction false} SubstituteTemplateWith(segs: seq<Segment>, stop: set<char>)
    requires ':' in stop && stop <= ConverterStop
    requires AllWellFormed(segs) && PlainCloses(segs, stop)
    ensures SubstituteWith(RuleText(segs), stop) == Substituted(segs)
  {
    if segs != [] {
      var rest := RuleText(segs[1..]);
      SubstituteTemplateWith(segs[1..], stop);
      SubstituteSegment(segs[0], rest, stop);
      RuleTextCons(segs);
      SubstitutedCons(segs);
    }
  }

  lemma SubstitutedCons(segs: seq<Segment>)
    requires segs != []
    ensures Substituted(segs) == Substituted([segs[0]]) + Substituted(segs[1..])
  {
    assert [segs[0]][1..] == [];
  }

  lemma SubstituteTemplate(segs: seq<Segment>)
    requires AllWellFormed(segs)
    ensures SubstituteWith(RuleText(segs), ConverterStop) == Substituted(segs)
  {
    PlainClosesCorrected(segs);
    SubstituteTemplateWith(segs, ConverterStop);
  }

  lemma {:induction false} ReplaceSubstituted(segs: seq<Segment>)
    requires AllWellFormed(segs)
    ensures ReplaceChar(Substituted(segs), '>', '}') == OpenApiPath(segs)
  {
    if segs != [] {
      ReplaceSubstituted(segs[1..]);
      SubstitutedCons(segs);
      OpenApiPathCons(segs);
      ReplaceCharConcat(Substituted([segs[0]]), Substituted(segs[1..]), '>', '}');
      ReplaceSegment(segs[0]);
    }
  }

  lemma OpenApiPathCons(segs: seq<Segment>)
    requires segs != []
    ensures OpenApiPath(segs) == OpenApiSegment(segs[0]) + OpenApiPath(segs[1..])
  {
  }

  /** The closing `>` left by the rewrite of one segment becomes `}`. */
  lemma ReplaceSegment(seg: Segment)
    requires WellFormed(seg)
    ensures ReplaceChar(Substituted([seg]), '>', '}') == OpenApiSegment(seg)
  {
    assert [seg][1..] == [];
    match seg
    case Literal(text) =>
      assert Substituted([seg]) == text;
      assert '>' !in text by { assert forall i :: 0 <= i < |text| ==> text[i] != '>'; }
      ReplaceCharConcat(text, [], '>', '}');
    case Variable(_, name) =>
      assert Substituted([seg]) == "{" + name + ">";
      assert '>' !in "{" + name by {
        assert forall i :: 0 <= i < |"{" + name| ==> ("{" + name)[i] != '>';
      }
      ReplaceCharConcat("{" + name, ">", '>', '}');
  }


  /** Normalising a well-formed rule gives its OpenAPI path: each placeholder
      becomes `{name}` and the literal text is kept. */
  lemma NormaliseTemplate(segs: seq<Segment>)
    requires AllWellFormed(segs)
    ensures Normalise(RuleText(segs)) == OpenApiPath(segs)
  {
    SubstituteTemplate(segs);
    ReplaceSubstituted(segs);
  }

  // ---------------------------------------------------------------------------
  // Where the expressions as written agree with the corrected ones.

  /** No literal text between a placeholder without converter and the next
      placeholder holds a colon; `afterPlain` says whether `segs` starts right
      after such a placeholder. */
  predicate NoColonAfterPlain(segs: seq<Segment>, afterPlain: bool) {
    segs == []
    || match segs[0]
       case Literal(text) => (afterPlain ==> ':' !in text) && NoColonAfterPlain(segs[1..], afterPlain)
       case Variable(converter, _) => NoColonAfterPlain(segs[1..], converter.None?)
  }

  /** Without a colon before the next placeholder, the run `[^<:]` stops at a
      `<` or at the end of the rule. */
  lemma {:induction false} OpensOrEnds(segs: seq<Segment>)
    requires AllWellFormed(segs) && NoColonAfterPlain(segs, true)
    ensures var r := RuleText(segs);
            Span(r, WrittenConverterStop) == |r| || r[Span(r, WrittenConverterStop)] == '<'
  {
    if segs != [] {
      RuleTextCons(segs);
      var rest := RuleText(segs[1..]);
      assert WellFormed(segs[0]);
      match segs[0]
      case Literal(text) =>
        OpensOrEnds(segs[1..]);
        assert forall i :: 0 <= i < |text| ==> text[i] !in WrittenConverterStop by {
          forall i | 0 <= i < |text| ensures text[i] !in WrittenConverterStop {
            assert text[i] in text;
          }
        }
        SpanPrefix(text, rest, WrittenConverterStop);
        assert (text + rest)[|text|..] == rest;
      case Variable(_, _) =>
    }
  }

  /** As written, a placeholder without converter still closes when no colon
      follows it before the next placeholder. */
  lemma {:induction false} PlainClosesAsWritten(segs: seq<Segment>, afterPlain: bool)
    requires AllWellFormed(segs) && NoColonAfterPlain(segs, afterPlain)
    ensures PlainCloses(segs, WrittenConverterStop)
  {
    if segs != [] {
      PlainClosesAsWritten(segs[1..], if segs[0].Literal? then afterPlain else segs[0].converter.None?);
      if segs[0].Variable? && segs[0].converter.None? {
        var n := segs[0].name;
        var rest := RuleText(segs[1..]);
        assert WellFormed(segs[0]);
        OpensOrEnds(segs[1..]);
        PlainNameCloses(n, rest);
      }
    }
  }

  lemma PlainNameCloses(n: string, rest: string)
    requires NoneOf(n, {'<', '>', ':'})
    requires Span(rest, WrittenConverterStop) == |rest| || rest[Span(rest, WrittenConverterStop)] == '<'
    ensures ConverterLength(n + ">" + rest, WrittenConverterStop) == 0
  {
    var p := n + ">";
    assert forall i :: 0 <= i < |p| ==> p[i] !in WrittenConverterStop;
    SpanPrefix(p, rest, WrittenConverterStop);
    assert (p + rest)[|p|..] == rest;
  }

  /** On such a rule the scan as written finds the same placeholders as the
      corrected one: the rule's own. */
  lemma ScanAgrees(segs: seq<Segment>)
    requires AllWellFormed(segs) && NoColonAfterPlain(segs, false)
    ensures ScanAsWritten(RuleText(segs)) == Scan(RuleText(segs)) == Placeholders(segs)
  {
    PlainClosesAsWritten(segs, false);
    ScanTemplateWith(segs, WrittenConverterStop);
    ScanTemplate(segs);
  }

  /** On such a rule the rewrite as written gives the same OpenAPI path as the
      corrected one. */
  lemma NormaliseAgrees(segs: seq<Segment>)
    requires AllWellFormed(segs) && NoColonAfterPlain(segs, false)
    ensures NormaliseAsWritten(RuleText(segs)) == Normalise(RuleText(segs)) == OpenApiPath(segs)
  {
    var rule := RuleText(segs);
    PlainClosesAsWritten(segs, false);
    SubstituteTemplateWith(segs, WrittenConverterStop);
    SubstituteTemplate(segs);
    ReplaceSubstituted(segs);
    assert NormaliseAsWritten(rule) == ReplaceChar(Substituted(segs), '>', '}');
    assert Normalise(rule) == ReplaceChar(Substituted(segs), '>', '}');
  }

  // ---------------------------------------------------------------------------
  // The expressions as written, on rules with a colon right after a placeholder.

  lemma SubstituteOpen(s: string, stop: set<char>)
    requires ':' in stop && s != [] && s[0] == '<'
    ensures SubstituteWith(s, stop) == "{" + SubstituteWith(s[1 + ConverterLength(s[1..], stop)..], stop)
  {
  }

  lemma WrittenSubstituteDropsName(n: string, rest: string)
    requires n != [] && NoneOf(n, {'<', '>', ':'})
    ensures SubstituteWith("<" + n + ">:" + rest, WrittenConverterStop) == "{" + SubstituteWith(rest, WrittenConverterStop)
  {
    var s := "<" + n + ">:" + rest;
    var t := n + ">:" + rest;
    assert s[1..] == t;
    assert t == (n + ">") + (":" + rest);
    SpanConcat(n + ">", ":" + rest, WrittenConverterStop);
    assert ConverterLength(t, WrittenConverterStop) == |n| + 2;
    SubstituteOpen(s, WrittenConverterStop);
    assert s[1 + |n| + 2..] == rest;
  }

  /** As written, a placeholder directly followed by a colon loses its name:
      `/<id>:archive` normalises to `/{archive`, because the converter group
      swallows `id>:`. */
  lemma NormaliseAsWrittenLosesName(p: string, n: string, q: string)
    requires NoneOf(p, {'<', '>'}) && NoneOf(q, {'<', '>'})
    requires n != [] && NoneOf(n, {'<', '>', ':'})
    ensures NormaliseAsWritten(p + "<" + n + ">:" + q) == p + "{" + q
  {
    NoAngles(p);
    NoAngles(q);
    WrittenSubstituteLosesName(p, n, q);
    ReplaceCharConcat(p, "{", '>', '}');
    ReplaceCharConcat(p + "{", q, '>', '}');
  }

  lemma NoAngles(s: string)
    requires NoneOf(s, {'<', '>'})
    ensures '<' !in s && '>' !in s
  {
    assert forall i :: 0 <= i < |s| ==> s[i] != '<' && s[i] != '>';
  }

  lemma WrittenSubstituteLosesName(p: string, n: string, q: string)
    requires '<' !in p && '<' !in q
    requires n != [] && NoneOf(n, {'<', '>', ':'})
    ensures SubstituteWith(p + "<" + n + ">:" + q, WrittenConverterStop) == p + "{" + q
  {
    var rest := "<" + n + ">:" + q;
    Seqs.ConcatAssoc(p, "<", n);
    Seqs.ConcatAssoc(p, "<" + n, ">:");
    Seqs.ConcatAssoc(p, "<" + n + ">:", q);
    SubstituteLiteral(p, rest, WrittenConverterStop);
    WrittenSubstituteDropsName(n, q);
    SubstituteFree(q, WrittenConverterStop);
    Seqs.ConcatAssoc(p, "{", q);
  }

  /** Text without `<` is left as it is. */
  lemma SubstituteFree(q: string, stop: set<char>)
    requires ':' in stop && '<' !in q
    ensures SubstituteWith(q, stop) == q
  {
    SubstituteLiteral(q, [], stop);
    assert q + [] == q;
  }



  /** With `>` excluded from the converter, the same rule keeps the name:
      `/<id>:archive` normalises to `/{id}:archive`. */
  lemma NormaliseKeepsName(p: string, n: string, q: string)
    requires NoneOf(p, {'<', '>'}) && NoneOf(q, {'<', '>'})
    requires n != [] && NoneOf(n, {'<', '>', ':'})
    ensures Normalise(p + "<" + n + ">:" + q) == p + "{" + n + "}:" + q
  {
    var segs := [Literal(p), Variable(None, n), Literal(":" + q)];
    assert AllWellFormed(segs) by {
      assert WellFormed(segs[2]) by {
        assert forall i :: 0 <= i < |":" + q| ==> (":" + q)[i] == ':' || (":" + q)[i] == q[i - 1];
      }
    }
    PlainThenColon(p, n, q);
    NormaliseTemplate(segs);
  }

  /** The rule `p<n>:q` and its OpenAPI path, as segments. */
  lemma PlainThenColon(p: string, n: string, q: string)
    ensures RuleText([Literal(p), Variable(None, n), Literal(":" + q)]) == p + "<" + n + ">:" + q
    ensures OpenApiPath([Literal(p), Variable(None, n), Literal(":" + q)]) == p + "{" + n + "}:" + q
  {
    ThreeSegments(Literal(p), Variable(None, n), Literal(":" + q));
    assert "<" + n + ">" + (":" + q) == "<" + n + ">:" + q;
    assert "{" + n + "}" + (":" + q) == "{" + n + "}:" + q;
  }

  lemma ThreeSegments(a: Segment, b: Segment, c: Segment)
    ensures RuleText([a, b, c]) == SegmentText(a) + (SegmentText(b) + SegmentText(c))
    ensures OpenApiPath([a, b, c]) == OpenApiSegment(a) + (OpenApiSegment(b) + OpenApiSegment(c))
  {
    assert [a, b, c][1..] == [b, c];
    assert [b, c][1..] == [c];
    assert [c][1..] == [];
    assert RuleText([c]) == SegmentText(c);
    assert RuleText([b, c]) == SegmentText(b) + SegmentText(c);
    assert OpenApiPath([c]) == OpenApiSegment(c);
    assert OpenApiPath([b, c]) == OpenApiSegment(b) + OpenApiSegment(c);
  }

  /** As written, the rule `/<a>:<b>` yields one placeholder named `<b` with the
      converter `a>:`. */
  lemma ScanAsWrittenMergesPlaceholders()
    ensures ScanAsWritten("/<a>:<b>") == [Placeholder("a>:", "<b")]
  {
    var rule: string := "/<a>:<b>";
    var s: string := "<a>:<b>";
    assert rule == "/" + s;
    ScanLiteral("/", s, WrittenConverterStop);
    WrittenMatchMerges("a>:<b>");
    assert s[1..] == "a>:<b>";
    ScanOpen(s, WrittenConverterStop, Placeholder("a>:", "<b"), 6);
    assert s[7..] == [];
  }

  lemma WrittenMatchMerges(t: string)
    requires t == "a>:<b>"
    ensures MatchAfterOpen(t, WrittenConverterStop) == Some((Placeholder("a>:", "<b"), 6))
  {
    assert t == "a>" + ":<b>";
    SpanConcat("a>", ":<b>", WrittenConverterStop);
    assert ConverterLength(t, WrittenConverterStop) == 3;
    assert t[3..] == "<b" + ">";
    assert NoneOf("<b", {'>'});
    SpanConcat("<b", ">", {'>'});
    assert NameLength(t[3..]) == Some(2);
    assert t[..3] == "a>:" && t[3..5] == "<b";
    MatchConverter(t, WrittenConverterStop, 3, 2);
  }

  /** With `>` excluded from the converter, the same rule yields the two
      placeholders `a` and `b`. */
  lemma ScanFindsBoth()
    ensures Scan("/<a>:<b>") == [Placeholder([], "a"), Placeholder([], "b")]
  {
    var segs := [Literal("/"), Variable(None, "a"), Literal(":"), Variable(None, "b")];
    assert AllWellFormed(segs);
    assert RuleText(segs) == "/<a>:<b>";
    assert Placeholders(segs) == [Placeholder([], "a"), Placeholder([], "b")];
    ScanTemplate(segs);
  }

  /** The parameter types of a well-formed rule follow its converters: `int`
      gives integer, `float` gives number, and no converter or any other
      converter gives string. */
  lemma TemplateParameterTypes(segs: seq<Segment>, i: nat)
    requires AllWellFormed(segs) && i < |Placeholders(segs)|
    ensures |PathParameters(RuleText(segs))| == |Placeholders(segs)|
    ensures Placeholders(segs)[i].converter == "int:" ==> PathParameters(RuleText(segs))[i].paramType == IntegerType
    ensures Placeholders(segs)[i].converter == "float:" ==> PathParameters(RuleText(segs))[i].paramType == NumberType
    ensures Placeholders(segs)[i].converter !in {"int:", "float:"} ==> PathParameters(RuleText(segs))[i].paramType == StringType
    ensures PathParameters(RuleText(segs))[i].name == Placeholders(segs)[i].name
  {
    ScanTemplate(segs);
  }
}
