/** The summary and description of an operation, taken from the docstring of
    its view function (src/apifairy/core.py:239-247). */
module Docstrings {
  import opened Wrappers
  import opened Strings

  /** The summary and description taken from a docstring. */
  datatype DocText = DocText(summary: Option<string>, description: Option<string>)

  /** The docstring stripped and split into lines, each line stripped. */
  function DocLines(doc: string): (lines: seq<string>)
    ensures |lines| == |Split(Strip(doc), '\n')| >= 1
    ensures forall i :: 0 <= i < |lines| ==> lines[i] == Strip(Split(Strip(doc), '\n')[i])
  {
    StripEach(Split(Strip(doc), '\n'))
  }

  /** Every line stripped. */
  function StripEach(parts: seq<string>): (lines: seq<string>)
    ensures |lines| == |parts|
    ensures forall i :: 0 <= i < |parts| ==> lines[i] == Strip(parts[i])
  {
    if parts == [] then [] else [Strip(parts[0])] + StripEach(parts[1..])
  }

  /** The first line is the summary when it is not empty; the remaining lines,
      joined and stripped, are the description when there are any. A summary
      exists exactly when the docstring holds text, a description exactly when
      the text spans several lines, and neither is ever empty. */
  function Docs(doc: string): (d: DocText)
    ensures d.summary.Some? <==> HasText(doc)
    ensures d.summary.Some? ==> d.summary.value != [] && '\n' !in d.summary.value
    ensures d.description.Some? <==> '\n' in Strip(doc)
    ensures d.description.Some? ==> d.description.value != []
    ensures d.summary == (if HasText(doc) then Some(DocLines(doc)[0]) else None)
    ensures d.description == (if '\n' in Strip(doc) then Some(Strip(Join(DocLines(doc)[1..], '\n'))) else None)
  {
    var lines := DocLines(doc);
    FirstLineHasText(doc);
    SeveralLines(doc);
    LastLinesHaveText(doc);
    DocText(if lines[0] != [] then Some(lines[0]) else None,
            if |lines| > 1 then Some(Strip(Join(lines[1..], '\n'))) else None)
  }

  /** A line without surrounding white space: already stripped, not empty,
      and on one line. */
  predicate TrimmedLine(line: string) {
    line != [] && '\n' !in line && !IsSpace(line[0]) && !IsSpace(line[|line| - 1])
  }

  /** A one-line docstring is its own summary and gives no description. */
  lemma DocsOfOneLine(line: string)
    requires TrimmedLine(line)
    ensures Docs(line) == DocText(Some(line), None)
  {
    StripUnchanged(line);
    var parts := Split(line, '\n');
    assert parts == [line];
    assert DocLines(line)[0] == Strip(line);
    StripHasText(line);
  }

  /** A docstring of a summary line and a description line gives both back. */
  lemma DocsOfTwoLines(summary: string, body: string)
    requires TrimmedLine(summary) && TrimmedLine(body)
    ensures Docs(summary + ['\n'] + body) == DocText(Some(summary), Some(body))
  {
    var doc := summary + ['\n'] + body;
    TwoDocLines(summary, body);
    DocStripped(summary, body);
    IndexOfAfter(summary, body, '\n');
    JoinRestOfTwo(summary, body);
    StripUnchanged(body);
    StripHasText(doc);
  }

  lemma JoinRestOfTwo(a: string, b: string)
    ensures Join([a, b][1..], '\n') == b
  {
    assert [a, b][1..] == [b];
  }

  lemma TwoDocLines(summary: string, body: string)
    requires TrimmedLine(summary) && TrimmedLine(body)
    ensures DocLines(summary + ['\n'] + body) == [summary, body]
  {
    var doc := summary + ['\n'] + body;
    DocStripped(summary, body);
    SplitTwo(summary, body, '\n');
    StripEachOfTwo(summary, body);
    StripUnchanged(summary);
    StripUnchanged(body);
  }

  lemma StripEachOfTwo(a: string, b: string)
    ensures StripEach([a, b]) == [Strip(a), Strip(b)]
  {
    assert [a, b][1..] == [b];
  }

  lemma DocStripped(summary: string, body: string)
    requires TrimmedLine(summary) && TrimmedLine(body)
    ensures Strip(summary + ['\n'] + body) == summary + ['\n'] + body
  {
    var doc := summary + ['\n'] + body;
    assert doc[0] == summary[0] && doc[|doc| - 1] == body[|body| - 1];
    StripUnchanged(doc);
  }

  lemma StripKeepsNewlineFree(s: string)
    requires '\n' !in s
    ensures '\n' !in Strip(s)
  {
    var r := Strip(s);
    var i, j :| 0 <= i <= j <= |s| && r == s[i..j];
    SliceKeepsAbsent(s, i, j, '\n');
  }

  lemma SliceKeepsAbsent(s: string, i: nat, j: nat, c: char)
    requires i <= j <= |s| && c !in s
    ensures c !in s[i..j]
  {
    forall k | 0 <= k < j - i
      ensures s[i..j][k] != c
    {
      assert s[i..j][k] == s[i + k];
    }
  }

  /** The first stripped line is non-empty exactly when the docstring holds text. */
  lemma FirstLineHasText(doc: string)
    ensures DocLines(doc)[0] != [] <==> HasText(doc)
    ensures '\n' !in DocLines(doc)[0]
  {
    var s := Strip(doc);
    var parts := Split(s, '\n');
    StripHasText(doc);
    FirstPartHasText(s, parts);
    StripHasText(parts[0]);
    StripKeepsNewlineFree(parts[0]);
  }

  /** The first line of a text that does not start with white space holds
      text exactly when the text is not empty. */
  lemma FirstPartHasText(s: string, parts: seq<string>)
    requires s == [] || !IsSpace(s[0])
    requires |parts| >= 1 && Join(parts, '\n') == s
    ensures HasText(parts[0]) <==> s != []
  {
    if |parts| == 1 {
      assert parts[0] == s;
      if s != [] {
        assert !IsSpace(parts[0][0]);
      }
    } else {
      assert s == parts[0] + ['\n'] + Join(parts[1..], '\n');
      NewlineIsSpace();
      assert s[0] == (parts[0] + ['\n'])[0];
      assert parts[0] != [];
      assert !IsSpace(parts[0][0]);
    }
  }

  lemma HasTextSuffix(s: string, suffix: string)
    requires EndsWith(s, suffix) && HasText(suffix)
    ensures HasText(s)
  {
    assert s == s[..|s| - |suffix|] + suffix;
    HasTextConcat(s[..|s| - |suffix|], suffix);
  }

  /** Joining `parts` ends with the separator and the last part when there are two or more. */
  lemma {:induction false} JoinEndsWithSeparatedLast(parts: seq<string>, sep: char)
    requires |parts| >= 2
    ensures EndsWith(Join(parts, sep), [sep] + parts[|parts| - 1])
    decreases |parts|
  {
    var last := parts[|parts| - 1];
    var whole := Join(parts, sep);
    if |parts| == 2 {
      assert parts[1..] == [last];
      assert Join(parts[1..], sep) == last;
      assert whole == parts[0] + [sep] + last;
      assert whole == parts[0] + ([sep] + last);
    } else {
      JoinEndsWithSeparatedLast(parts[1..], sep);
      var tail := Join(parts[1..], sep);
      assert whole == (parts[0] + [sep]) + tail;
      assert whole[|whole| - |tail|..] == tail;
    }
    assert whole[|whole| - |[sep] + last|..] == [sep] + last;
  }

  /** The stripped docstring gives several lines exactly when it holds a newline. */
  lemma SeveralLines(doc: string)
    ensures |DocLines(doc)| > 1 <==> '\n' in Strip(doc)
  {
    var s := Strip(doc);
    var parts := Split(s, '\n');
    assert |parts| > 1 <==> '\n' in s;
  }

  /** When the stripped docstring spans several lines, the last line ends with
      its last character, which is not white space; so the description has text. */
  lemma LastLinesHaveText(doc: string)
    ensures |DocLines(doc)| > 1 ==> Strip(Join(DocLines(doc)[1..], '\n')) != []
  {
    var s := Strip(doc);
    var parts := Split(s, '\n');
    if |parts| > 1 {
      DescriptionHasText(s, parts);
    }
  }

  /** The stripped lines after the first of a text that does not end in white
      space join into a text that strips to something. */
  lemma DescriptionHasText(s: string, parts: seq<string>)
    requires s == [] || !IsSpace(s[|s| - 1])
    requires |parts| > 1 && Join(parts, '\n') == s
    ensures Strip(Join(StripEach(parts)[1..], '\n')) != []
  {
    var line := Strip(parts[|parts| - 1]);
    LastLineHasText(s, parts, line);
    StripEachLast(parts);
    var rest := StripEach(parts)[1..];
    assert rest[|rest| - 1] == line;
    JoinWithTextfulLast(rest);
  }

  lemma StripEachLast(parts: seq<string>)
    requires parts != []
    ensures StripEach(parts)[|parts| - 1] == Strip(parts[|parts| - 1])
  {
  }

  /** The stripped last part of a text that does not end in white space holds text. */
  lemma LastLineHasText(s: string, parts: seq<string>, line: string)
    requires s == [] || !IsSpace(s[|s| - 1])
    requires |parts| > 1 && Join(parts, '\n') == s
    requires line == Strip(parts[|parts| - 1])
    ensures HasText(line)
  {
    LastPartHasText(s, parts);
    StrippedHasText(parts[|parts| - 1]);
  }

  lemma StrippedHasText(s: string)
    requires HasText(s)
    ensures HasText(Strip(s))
  {
    StripHasText(s);
    assert !IsSpace(Strip(s)[0]);
  }

  /** Lines whose last one holds text join into a text that strips to something. */
  lemma JoinWithTextfulLast(rest: seq<string>)
    requires |rest| >= 1 && HasText(rest[|rest| - 1])
    ensures Strip(Join(rest, '\n')) != []
  {
    JoinEndsWithLast(rest, '\n');
    HasTextSuffix(Join(rest, '\n'), rest[|rest| - 1]);
    StripHasText(Join(rest, '\n'));
  }

  /** The last line of a text that does not end in white space holds text. */
  lemma LastPartHasText(s: string, parts: seq<string>)
    requires s == [] || !IsSpace(s[|s| - 1])
    requires |parts| > 1 && Join(parts, '\n') == s
    ensures HasText(parts[|parts| - 1])
  {
    var last := parts[|parts| - 1];
    JoinEndsWithSeparatedLast(parts, '\n');
    var tail := ['\n'] + last;
    assert s[|s| - |tail|..] == tail;
    assert s[|s| - 1] == tail[|tail| - 1];
    assert |last| > 0 by { NewlineIsSpace(); }
    assert last[|last| - 1] == s[|s| - 1];
  }
}
