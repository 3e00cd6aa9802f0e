/** The Python `str` operations the assembler relies on: `strip`, `split`,
    `join`, `replace` of one character, `startswith`, `title` and decimal
    formatting of an integer. */
module Strings {

  /** The characters Python's `str.isspace` accepts: exactly the characters
      that a bare `str.strip()` removes. */
  const SpaceChars: string :=
    " \t\n\r\U{B}\U{C}\U{1C}\U{1D}\U{1E}\U{1F}\U{85}\U{A0}\U{1680}"
    + "\U{2000}\U{2001}\U{2002}\U{2003}\U{2004}\U{2005}\U{2006}\U{2007}\U{2008}\U{2009}\U{200A}"
    + "\U{2028}\U{2029}\U{202F}\U{205F}\U{3000}"

  predicate IsSpace(c: char) {
    Occurs(c, SpaceChars)
  }

  /** `c in s`, spelled out one character at a time. A recursive predicate
      unfolds only as far as a proof asks, where `in` on this 29-character
      literal hands the solver every position at once and makes the proofs
      about stripping several times costlier. */
  predicate Occurs(c: char, s: string) {
    s != [] && (s[0] == c || Occurs(c, s[1..]))
  }

  /** The recursive `Occurs` reaches position 2 in two unfoldings. */
  lemma NewlineIsSpace()
    ensures IsSpace('\n')
  {
    assert SpaceChars[2] == '\n';
    assert SpaceChars[1..][1..][0] == '\n';
  }

  /** Removes leading white space: what is removed is all white space and what
      remains does not start with any. */
  function TrimStart(s: string): (r: string)
    ensures |r| <= |s| && r == s[|s| - |r|..]
    ensures forall i :: 0 <= i < |s| - |r| ==> IsSpace(s[i])
    ensures r != [] ==> !IsSpace(r[0])
  {
    if s != [] && IsSpace(s[0]) then TrimStart(s[1..]) else s
  }

  /** Removes trailing white space. */
  function TrimEnd(s: string): (r: string)
    ensures |r| <= |s| && r == s[..|r|]
    ensures forall i :: |r| <= i < |s| ==> IsSpace(s[i])
    ensures r != [] ==> !IsSpace(r[|r| - 1])
  {
    if s != [] && IsSpace(s[|s| - 1]) then TrimEnd(s[..|s| - 1]) else s
  }

  /** Python's `str.strip()`: the longest slice of `s` that neither starts nor
      ends with white space, cut out of a white-space-only frame. */
  function Strip(s: string): (r: string)
    ensures r == [] || (!IsSpace(r[0]) && !IsSpace(r[|r| - 1]))
    ensures exists i, j :: 0 <= i <= j <= |s| && r == s[i..j]
                           && (forall k :: 0 <= k < i ==> IsSpace(s[k]))
                           && (forall k :: j <= k < |s| ==> IsSpace(s[k]))
  {
    var t := TrimStart(s);
    var r := TrimEnd(t);
    StripFrame(s, t, r, |s| - |t|);
    r
  }

  /** Cutting a white-space-only suffix off what is left after cutting a
      white-space-only prefix leaves a slice of the original in a
      white-space-only frame. */
  lemma StripFrame(s: string, t: string, r: string, i: nat)
    requires i <= |s| && t == s[i..] && (forall k :: 0 <= k < i ==> IsSpace(s[k]))
    requires t != [] ==> !IsSpace(t[0])
    requires |r| <= |t| && r == t[..|r|] && (forall k :: |r| <= k < |t| ==> IsSpace(t[k]))
    requires r != [] ==> !IsSpace(r[|r| - 1])
    ensures r == [] || (!IsSpace(r[0]) && !IsSpace(r[|r| - 1]))
    ensures i + |r| <= |s| && r == s[i..i + |r|]
    ensures forall k :: 0 <= k < i ==> IsSpace(s[k])
    ensures forall k :: i + |r| <= k < |s| ==> IsSpace(s[k])
  {
    if r != [] {
      assert r[0] == t[0];
    }
    forall k | i + |r| <= k < |s|
      ensures IsSpace(s[k])
    {
      assert s[k] == t[k - i];
    }
  }

  /** Stripping a string that already has no white space at either end changes nothing;
      in particular stripping is idempotent. */
  lemma StripUnchanged(s: string)
    requires s == [] || (!IsSpace(s[0]) && !IsSpace(s[|s| - 1]))
    ensures Strip(s) == s
  {
    if s != [] {
      assert TrimStart(s) == s;
      assert TrimEnd(s) == s;
    }
  }

  /** Position of the first occurrence of `c` in `s`. */
  function IndexOf(s: string, c: char): (i: nat)
    requires c in s
    ensures i < |s| && s[i] == c && c !in s[..i]
  {
    if s[0] == c then 0
    else
      var j := IndexOf(s[1..], c);
      assert s[..j + 1] == [s[0]] + s[1..][..j];
      j + 1
  }

  /** The first `sep` in `p + [sep] + q` is the one after `p` when `p` has none. */
  lemma {:induction false} IndexOfAfter(p: string, q: string, sep: char)
    requires sep !in p
    ensures sep in p + [sep] + q && IndexOf(p + [sep] + q, sep) == |p|
  {
    var s := p + [sep] + q;
    assert s[|p|] == sep;
    if p != [] {
      assert s[1..] == p[1..] + [sep] + q;
      IndexOfAfter(p[1..], q, sep);
    }
  }

  /** Python's `sep.join(parts)` for a one-character separator. */
  function Join(parts: seq<string>, sep: char): string
  {
    if |parts| == 0 then []
    else if |parts| == 1 then parts[0]
    else parts[0] + [sep] + Join(parts[1..], sep)
  }

  /** Python's `s.split(sep)` for a one-character separator: at least one part,
      more than one exactly when `sep` occurs, no part holds `sep`, and joining
      the parts back gives `s`. */
  function Split(s: string, sep: char): (parts: seq<string>)
    ensures |parts| >= 1
    ensures |parts| == 1 <==> sep !in s
    ensures forall i :: 0 <= i < |parts| ==> sep !in parts[i]
    ensures Join(parts, sep) == s
    decreases |s|
  {
    if sep !in s then [s]
    else
      var i := IndexOf(s, sep);
      var rest := Split(s[i + 1..], sep);
      assert s == s[..i] + [sep] + s[i + 1..];
      [s[..i]] + rest
  }

  /** Splitting a join of separator-free parts gives the parts back: together
      with `Split`'s own contract, the two are mutually inverse. */
  lemma {:induction false} SplitJoin(parts: seq<string>, sep: char)
    requires |parts| >= 1
    requires forall i :: 0 <= i < |parts| ==> sep !in parts[i]
    ensures Split(Join(parts, sep), sep) == parts
    decreases |parts|
  {
    if |parts| > 1 {
      var rest := Join(parts[1..], sep);
      assert Join(parts, sep) == parts[0] + [sep] + rest;
      assert sep !in parts[0];
      SplitCons(parts[0], rest, sep);
      SplitJoin(parts[1..], sep);
      assert parts == [parts[0]] + parts[1..];
    }
  }

  /** Splitting at the first separator. */
  lemma SplitCons(p: string, q: string, sep: char)
    requires sep !in p
    ensures Split(p + [sep] + q, sep) == [p] + Split(q, sep)
  {
    var s := p + [sep] + q;
    IndexOfAfter(p, q, sep);
    assert s[..|p|] == p;
    assert s[|p| + 1..] == q;
  }

  /** Splitting a text with exactly one separator gives the two sides. */
  lemma SplitTwo(a: string, b: string, sep: char)
    requires sep !in a && sep !in b
    ensures Split(a + [sep] + b, sep) == [a, b]
  {
    assert Join([a, b], sep) == a + [sep] + b;
    SplitJoin([a, b], sep);
  }

  /** Python's `s.rsplit(sep, 1)` when `sep` occurs: the text before the last
      `sep` and the text after it. */
  function RSplitOnce(s: string, sep: char): (r: (string, string))
    requires sep in s
    ensures r.0 + [sep] + r.1 == s && sep !in r.1
    decreases |s|
  {
    var last := s[|s| - 1];
    if last == sep then
      assert s == s[..|s| - 1] + [sep] + [];
      (s[..|s| - 1], [])
    else
      assert sep in s[..|s| - 1] by {
        var i :| 0 <= i < |s| && s[i] == sep;
        assert s[..|s| - 1][i] == sep;
      }
      var h := RSplitOnce(s[..|s| - 1], sep);
      assert s == s[..|s| - 1] + [last];
      (h.0, h.1 + [last])
  }

  /** The split point is the last `sep`: splitting `h + [sep] + t` with a
      separator-free `t` gives back `h` and `t`. */
  lemma {:induction false} RSplitOnceOfJoin(h: string, t: string, sep: char)
    requires sep !in t
    ensures sep in h + [sep] + t
    ensures RSplitOnce(h + [sep] + t, sep) == (h, t)
    decreases |t|
  {
    var s := h + [sep] + t;
    assert s[|h|] == sep;
    if t != [] {
      var t' := t[..|t| - 1];
      assert s[..|s| - 1] == h + [sep] + t';
      assert t == t' + [t[|t| - 1]];
      assert s[|s| - 1] == t[|t| - 1] && t[|t| - 1] in t;
      RSplitOnceOfJoin(h, t', sep);
    } else {
      assert s[..|s| - 1] == h;
    }
  }

  /** Some character of `s` is not white space. */
  predicate HasText(s: string) {
    exists k :: 0 <= k < |s| && !IsSpace(s[k])
  }

  /** Stripping removes only white space, so it leaves text exactly when there is some. */
  lemma StripHasText(s: string)
    ensures Strip(s) != [] <==> HasText(s)
  {
    var r := Strip(s);
    var i, j :| 0 <= i <= j <= |s| && r == s[i..j]
                && (forall k :: 0 <= k < i ==> IsSpace(s[k]))
                && (forall k :: j <= k < |s| ==> IsSpace(s[k]));
    if r != [] {
      assert s[i] == r[0];
    } else {
      assert forall k :: 0 <= k < |s| ==> IsSpace(s[k]) by {
        assert i == j;
      }
    }
  }

  lemma HasTextConcat(a: string, b: string)
    ensures HasText(a + b) <==> HasText(a) || HasText(b)
  {
    if HasText(a) {
      var k :| 0 <= k < |a| && !IsSpace(a[k]);
      assert (a + b)[k] == a[k];
    }
    if HasText(b) {
      var k :| 0 <= k < |b| && !IsSpace(b[k]);
      assert (a + b)[|a| + k] == b[k];
    }
    if HasText(a + b) {
      var k :| 0 <= k < |a + b| && !IsSpace((a + b)[k]);
      if k < |a| { assert a[k] == (a + b)[k]; } else { assert b[k - |a|] == (a + b)[k]; }
    }
  }

  /** The last part of a split is what follows the last separator, so the
      joined text ends with it. */
  lemma {:induction false} JoinEndsWithLast(parts: seq<string>, sep: char)
    requires |parts| >= 1
    ensures EndsWith(Join(parts, sep), parts[|parts| - 1])
    decreases |parts|
  {
    if |parts| > 1 {
      JoinEndsWithLast(parts[1..], sep);
      var tail := Join(parts[1..], sep);
      var whole := parts[0] + [sep] + tail;
      assert whole[|whole| - |tail|..] == tail;
    }
  }

  /** Python's `s.replace(from, to)` for single characters. */
  function ReplaceChar(s: string, from: char, to: char): (r: string)
    ensures |r| == |s|
    ensures forall i :: 0 <= i < |s| ==> r[i] == (if s[i] == from then to else s[i])
  {
    if s == [] then [] else [if s[0] == from then to else s[0]] + ReplaceChar(s[1..], from, to)
  }

  /** Replacing a character distributes over concatenation and leaves a string
      without that character unchanged. */
  lemma ReplaceCharConcat(a: string, b: string, from: char, to: char)
    ensures ReplaceChar(a + b, from, to) == ReplaceChar(a, from, to) + ReplaceChar(b, from, to)
    ensures from !in a ==> ReplaceChar(a, from, to) == a
  {
    var l, r := ReplaceChar(a + b, from, to), ReplaceChar(a, from, to) + ReplaceChar(b, from, to);
    assert |l| == |r|;
    forall i | 0 <= i < |l| ensures l[i] == r[i] {
      if i >= |a| {
        assert (a + b)[i] == b[i - |a|];
      }
    }
  }

  /** Replacing the one separator of `a + [from] + b` when neither side holds it. */
  lemma ReplaceCharSeparator(a: string, b: string, from: char, to: char)
    requires from !in a && from !in b
    ensures ReplaceChar(a + [from] + b, from, to) == a + [to] + b
  {
    var s, t := a + [from] + b, a + [to] + b;
    var r := ReplaceChar(s, from, to);
    forall i | 0 <= i < |r| ensures r[i] == t[i] {
      if i < |a| {
        assert s[i] == a[i] && t[i] == a[i];
      } else if i > |a| {
        assert s[i] == b[i - |a| - 1] && t[i] == b[i - |a| - 1];
      }
    }
  }

  /** Python's `s.startswith(prefix)`. */
  predicate StartsWith(s: string, prefix: string) {
    |prefix| <= |s| && s[..|prefix|] == prefix
  }

  /** Python's `s.endswith(suffix)`. */
  predicate EndsWith(s: string, suffix: string) {
    |suffix| <= |s| && s[|s| - |suffix|..] == suffix
  }

  /** An ASCII letter: the characters `str.title` treats as cased in this model. */
  predicate IsLetter(c: char) {
    ('a' <= c <= 'z') || ('A' <= c <= 'Z')
  }

  function ToUpper(c: char): char {
    if 'a' <= c <= 'z' then (c as int - 32) as char else c
  }

  function ToLower(c: char): char {
    if 'A' <= c <= 'Z' then (c as int + 32) as char else c
  }

  /** Python's `str.title` restricted to ASCII letters, continuing after a
      character that was (`afterCased`) or was not a letter: a character is
      lower-cased when it follows a letter and title-cased otherwise. */
  function TitleFrom(s: string, afterCased: bool): (r: string)
    ensures |r| == |s|
    ensures |s| > 0 ==> r[0] == (if afterCased then ToLower(s[0]) else ToUpper(s[0]))
    ensures forall i :: 0 < i < |s| ==> r[i] == (if IsLetter(s[i - 1]) then ToLower(s[i]) else ToUpper(s[i]))
  {
    if s == [] then []
    else
      var c := if afterCased then ToLower(s[0]) else ToUpper(s[0]);
      var rest := TitleFrom(s[1..], IsLetter(s[0]));
      [c] + rest
  }

  /** Python's `str.title` over ASCII. */
  function Title(s: string): (r: string)
    ensures |r| == |s|
    ensures forall i :: 0 <= i < |s| ==>
              r[i] == (if i > 0 && IsLetter(s[i - 1]) then ToLower(s[i]) else ToUpper(s[i]))
  {
    TitleFrom(s, false)
  }

  /** The decimal digit character for `d`. */
  function DigitChar(d: nat): (c: char)
    requires d < 10
    ensures '0' <= c <= '9'
  {
    ('0' as int + d) as char
  }

  function DigitValue(c: char): nat {
    if '0' <= c <= '9' then c as int - '0' as int else 0
  }

  /** Python's `str(n)` for a natural number: its decimal digits, no leading zero. */
  function NatToString(n: nat): (s: string)
    ensures |s| >= 1
    ensures forall i :: 0 <= i < |s| ==> '0' <= s[i] <= '9'
  {
    if n < 10 then [DigitChar(n)] else NatToString(n / 10) + [DigitChar(n % 10)]
  }

  /** The value of a string of decimal digits. */
  function ParseDecimal(s: string): nat {
    if s == [] then 0 else ParseDecimal(s[..|s| - 1]) * 10 + DigitValue(s[|s| - 1])
  }

  /** Reading back a formatted number gives the number: the formatting is
      injective, which is what makes numbered names distinct. */
  lemma {:induction false} ParseNatToString(n: nat)
    ensures ParseDecimal(NatToString(n)) == n
  {
    var s := NatToString(n);
    if n < 10 {
      assert s[..0] == [];
    } else {
      ParseNatToString(n / 10);
      assert s[..|s| - 1] == NatToString(n / 10);
    }
  }
}
