/** The duplicate-line analyzer: reports every comparable line whose full
    text occurs on two or more lines, once per occurrence, with a message
    listing all line numbers of that text in ascending order. */
module DuplicateLines {
  import opened Strings
  import opened Sorting
  import opened Syntax
  import opened Sequences

  datatype CodeLine = CodeLine(text: string, lineNumber: nat)

  datatype InvalidCodeLine = InvalidCodeLine(lineNumber: nat, error: string)

  const DuplicateMessagePrefix := "Line is duplicated at line numbers "

  /** The error shared by every member of one duplicate group. */
  function DuplicateMessage(group: seq<nat>): string {
    DuplicateMessagePrefix + JoinNumbers(group) + "."
  }

  /** Every message starts with the fixed prefix and ends with a full stop,
      and lists something exactly when the group is non-empty. */
  lemma DuplicateMessageShape(group: seq<nat>)
    ensures var m := DuplicateMessage(group);
      DuplicateMessagePrefix <= m && m[|m| - 1] == '.'
      && (group == [] <==> |m| == |DuplicateMessagePrefix| + 1)
  {
  }

  /** Line numbers of the lines whose full text is `text`, in input order. */
  function LineNumbersOf(lines: seq<CodeLine>, text: string): (ns: seq<nat>)
    ensures |ns| <= |lines|
    ensures forall n :: n in ns <==>
      exists i :: 0 <= i < |lines| && lines[i].text == text && lines[i].lineNumber == n
  {
    if lines == [] then []
    else
      var rest := LineNumbersOf(lines[1..], text);
      assert forall n :: n in rest <==>
        exists i :: 1 <= i < |lines| && lines[i].text == text && lines[i].lineNumber == n by {
        forall n ensures n in rest <==>
          exists i :: 1 <= i < |lines| && lines[i].text == text && lines[i].lineNumber == n {
          if n in rest {
            var i :| 0 <= i < |lines[1..]| && lines[1..][i].text == text && lines[1..][i].lineNumber == n;
            assert lines[i + 1] == lines[1..][i];
          }
          if exists i :: 1 <= i < |lines| && lines[i].text == text && lines[i].lineNumber == n {
            var i :| 1 <= i < |lines| && lines[i].text == text && lines[i].lineNumber == n;
            assert lines[1..][i - 1] == lines[i];
          }
        }
      }
      (if lines[0].text == text then [lines[0].lineNumber] else []) + rest
  }

  /** The line numbers of one duplicate group, ascending. */
  function DuplicateGroup(lines: seq<CodeLine>, text: string): seq<nat> {
    Sort(LineNumbersOf(lines, text))
  }

  /** Lines of this text are reported: the text is not ignored and it
      occurs on at least two lines. */
  predicate IsReported(lines: seq<CodeLine>, text: string, ignored: string -> bool) {
    !ignored(text) && |LineNumbersOf(lines, text)| >= 2
  }

  /** The per-line classification step: which texts the syntax ignores. */
  function Classifier(syntax: LanguageSyntax): string -> bool {
    text => IsIgnored(text, syntax)
  }

  function Finding(lines: seq<CodeLine>, line: CodeLine): InvalidCodeLine {
    InvalidCodeLine(line.lineNumber, DuplicateMessage(DuplicateGroup(lines, line.text)))
  }

  /** The findings for the lines of `pending`, in order, duplicates being
      judged against all of `lines`. */
  function FindingsFor(lines: seq<CodeLine>, pending: seq<CodeLine>, ignored: string -> bool)
    : (r: seq<InvalidCodeLine>)
    ensures |r| <= |pending|
  {
    if pending == [] then []
    else
      (if IsReported(lines, pending[0].text, ignored) then [Finding(lines, pending[0])] else [])
      + FindingsFor(lines, pending[1..], ignored)
  }

  /** The analysis once the syntax is resolved. */
  function Analyze(lines: seq<CodeLine>, syntax: LanguageSyntax): (r: seq<InvalidCodeLine>)
    ensures |r| <= |lines|
  {
    FindingsFor(lines, lines, Classifier(syntax))
  }

  /** `analyzeDuplicateLines(codeLines, language, syntaxFactory)`: resolves
      the syntax of the caller's language once, then analyzes. */
  function AnalyzeDuplicateLines(lines: seq<CodeLine>, language: ScriptingLanguage, syntaxFactory: SyntaxFactory)
    : (r: seq<InvalidCodeLine>)
    ensures |r| <= |lines|
  {
    Analyze(lines, syntaxFactory(language))
  }

  predicate UniqueLineNumbers(lines: seq<CodeLine>) {
    forall i, j :: 0 <= i < j < |lines| ==> lines[i].lineNumber != lines[j].lineNumber
  }

  // ---- properties ----

  /** The analyzer consults the syntax factory only for the caller's language. */
  lemma UsesCallerLanguage(lines: seq<CodeLine>, language: ScriptingLanguage, f: SyntaxFactory, g: SyntaxFactory)
    requires f(language) == g(language)
    ensures AnalyzeDuplicateLines(lines, language, f) == AnalyzeDuplicateLines(lines, language, g)
  {
  }

  lemma {:induction false} FindingsForMembership(lines: seq<CodeLine>, pending: seq<CodeLine>,
                                                 ignored: string -> bool, e: InvalidCodeLine)
    ensures e in FindingsFor(lines, pending, ignored) <==>
      exists k :: 0 <= k < |pending| && IsReported(lines, pending[k].text, ignored) && e == Finding(lines, pending[k])
  {
    if pending != [] {
      FindingsForMembership(lines, pending[1..], ignored, e);
      ReportingLineOfCons(lines, pending, ignored, e);
    }
  }

  /** A pending line that yields `e` is the first one or one of the rest. */
  lemma ReportingLineOfCons(lines: seq<CodeLine>, pending: seq<CodeLine>, ignored: string -> bool, e: InvalidCodeLine)
    requires pending != []
    ensures (exists k :: 0 <= k < |pending| && IsReported(lines, pending[k].text, ignored) && e == Finding(lines, pending[k]))
      <==> ((IsReported(lines, pending[0].text, ignored) && e == Finding(lines, pending[0]))
            || (exists k :: 0 <= k < |pending[1..]| && IsReported(lines, pending[1..][k].text, ignored)
                  && e == Finding(lines, pending[1..][k])))
  {
    if exists k :: 0 <= k < |pending| && IsReported(lines, pending[k].text, ignored) && e == Finding(lines, pending[k]) {
      var k :| 0 <= k < |pending| && IsReported(lines, pending[k].text, ignored) && e == Finding(lines, pending[k]);
      if k > 0 {
        assert pending[1..][k - 1] == pending[k];
      }
    }
    if exists k :: 0 <= k < |pending[1..]| && IsReported(lines, pending[1..][k].text, ignored)
        && e == Finding(lines, pending[1..][k]) {
      var k :| 0 <= k < |pending[1..]| && IsReported(lines, pending[1..][k].text, ignored)
        && e == Finding(lines, pending[1..][k]);
      assert pending[k + 1] == pending[1..][k];
    }
  }

  /** Exactly the findings of duplicated lines are reported. */
  lemma AnalyzeMembership(lines: seq<CodeLine>, syntax: LanguageSyntax, e: InvalidCodeLine)
    ensures e in Analyze(lines, syntax) <==>
      exists k :: 0 <= k < |lines| && IsReported(lines, lines[k].text, Classifier(syntax)) && e == Finding(lines, lines[k])
  {
    FindingsForMembership(lines, lines, Classifier(syntax), e);
  }

  /** A text occurs at least twice exactly when two distinct lines carry it. */
  lemma {:induction false} TwoOccurrencesIff(lines: seq<CodeLine>, text: string)
    ensures |LineNumbersOf(lines, text)| >= 2 <==>
      exists i, j :: 0 <= i < j < |lines| && lines[i].text == text && lines[j].text == text
  {
    if lines != [] {
      TwoOccurrencesIff(lines[1..], text);
      OneOccurrenceIff(lines[1..], text);
      PairsOfCons(lines, text);
    }
  }

  /** Two lines carrying `text` are both in the tail, or the head carries
      it and so does a line of the tail. */
  lemma PairsOfCons(lines: seq<CodeLine>, text: string)
    requires lines != []
    ensures (exists i, j :: 0 <= i < j < |lines| && lines[i].text == text && lines[j].text == text) <==>
      (exists i, j :: 0 <= i < j < |lines[1..]| && lines[1..][i].text == text && lines[1..][j].text == text)
      || (lines[0].text == text && exists j :: 0 <= j < |lines[1..]| && lines[1..][j].text == text)
  {
    if exists i, j :: 0 <= i < j < |lines| && lines[i].text == text && lines[j].text == text {
      var i, j :| 0 <= i < j < |lines| && lines[i].text == text && lines[j].text == text;
      assert lines[1..][j - 1] == lines[j];
      if i > 0 {
        assert lines[1..][i - 1] == lines[i];
      }
    }
    if exists i, j :: 0 <= i < j < |lines[1..]| && lines[1..][i].text == text && lines[1..][j].text == text {
      var i, j :| 0 <= i < j < |lines[1..]| && lines[1..][i].text == text && lines[1..][j].text == text;
      assert lines[i + 1] == lines[1..][i] && lines[j + 1] == lines[1..][j];
    }
    if lines[0].text == text && exists j :: 0 <= j < |lines[1..]| && lines[1..][j].text == text {
      var j :| 0 <= j < |lines[1..]| && lines[1..][j].text == text;
      assert lines[j + 1] == lines[1..][j];
    }
  }

  lemma {:induction false} OneOccurrenceIff(lines: seq<CodeLine>, text: string)
    ensures |LineNumbersOf(lines, text)| >= 1 <==> exists j :: 0 <= j < |lines| && lines[j].text == text
  {
    if lines != [] {
      OneOccurrenceIff(lines[1..], text);
      if exists j :: 0 <= j < |lines| && lines[j].text == text {
        var j :| 0 <= j < |lines| && lines[j].text == text;
        if j > 0 {
          assert lines[1..][j - 1] == lines[j];
        }
      }
      if exists j :: 0 <= j < |lines[1..]| && lines[1..][j].text == text {
        var j :| 0 <= j < |lines[1..]| && lines[1..][j].text == text;
        assert lines[j + 1] == lines[1..][j];
      }
    }
  }

  /** A line is reported exactly when it is comparable and another line
      has the same full text. */
  lemma ReportedIff(lines: seq<CodeLine>, syntax: LanguageSyntax, k: nat)
    requires UniqueLineNumbers(lines)
    requires k < |lines|
    ensures Finding(lines, lines[k]) in Analyze(lines, syntax) <==>
      !IsIgnored(lines[k].text, syntax) && exists j :: 0 <= j < |lines| && j != k && lines[j].text == lines[k].text
  {
    AnalyzeMembership(lines, syntax, Finding(lines, lines[k]));
    TwoOccurrencesIff(lines, lines[k].text);
    if Finding(lines, lines[k]) in Analyze(lines, syntax) {
      var m :| 0 <= m < |lines| && IsReported(lines, lines[m].text, Classifier(syntax))
        && Finding(lines, lines[k]) == Finding(lines, lines[m]);
      assert m == k;
      var i, j :| 0 <= i < j < |lines| && lines[i].text == lines[k].text && lines[j].text == lines[k].text;
      assert i != k || j != k;
    }
    if !IsIgnored(lines[k].text, syntax) && exists j :: 0 <= j < |lines| && j != k && lines[j].text == lines[k].text {
      var j :| 0 <= j < |lines| && j != k && lines[j].text == lines[k].text;
      assert IsReported(lines, lines[k].text, Classifier(syntax)) by {
        if j < k {
          assert 0 <= j < k < |lines| && lines[j].text == lines[k].text && lines[k].text == lines[k].text;
        } else {
          assert 0 <= k < j < |lines| && lines[k].text == lines[k].text && lines[j].text == lines[k].text;
        }
      }
    }
  }

  /** With pairwise distinct comparable texts nothing is reported. */
  lemma UniqueTextsNoFindings(lines: seq<CodeLine>, syntax: LanguageSyntax)
    requires forall i, j :: 0 <= i < j < |lines| && lines[i].text == lines[j].text ==> IsIgnored(lines[i].text, syntax)
    ensures Analyze(lines, syntax) == []
  {
    var r := Analyze(lines, syntax);
    if r != [] {
      AnalyzeMembership(lines, syntax, r[0]);
      var k :| 0 <= k < |lines| && IsReported(lines, lines[k].text, Classifier(syntax)) && r[0] == Finding(lines, lines[k]);
      TwoOccurrencesIff(lines, lines[k].text);
      assert false;
    }
  }

  /** The line numbers of a group are those of the lines with its text. */
  lemma GroupMembers(lines: seq<CodeLine>, text: string, n: nat)
    ensures n in DuplicateGroup(lines, text) <==>
      exists i :: 0 <= i < |lines| && lines[i].text == text && lines[i].lineNumber == n
  {
    assert n in DuplicateGroup(lines, text) <==> n in multiset(DuplicateGroup(lines, text));
    assert n in LineNumbersOf(lines, text) <==> n in multiset(LineNumbersOf(lines, text));
  }

  /** Every message names an ascending group of at least two line numbers
      that holds the reported line. */
  lemma FindingsNameGroupsOfTwoOrMore(lines: seq<CodeLine>, syntax: LanguageSyntax, e: InvalidCodeLine)
    requires e in Analyze(lines, syntax)
    ensures exists g :: |g| >= 2 && Sorted(g) && e.lineNumber in g && e.error == DuplicateMessage(g)
  {
    AnalyzeMembership(lines, syntax, e);
    var k :| 0 <= k < |lines| && IsReported(lines, lines[k].text, Classifier(syntax)) && e == Finding(lines, lines[k]);
    var g := DuplicateGroup(lines, lines[k].text);
    assert |g| == |multiset(g)| == |multiset(LineNumbersOf(lines, lines[k].text))|;
    GroupMembers(lines, lines[k].text, e.lineNumber);
    assert |g| >= 2 && Sorted(g) && e.lineNumber in g && e.error == DuplicateMessage(g);
  }

  /** The message determines the group it lists. */
  lemma DuplicateMessageInjective(g1: seq<nat>, g2: seq<nat>)
    requires DuplicateMessage(g1) == DuplicateMessage(g2)
    ensures g1 == g2
  {
    var pre := DuplicateMessagePrefix;
    assert JoinNumbers(g1) == (pre + JoinNumbers(g1) + ".")[|pre|..|pre| + |JoinNumbers(g1)|];
    assert JoinNumbers(g2) == (pre + JoinNumbers(g2) + ".")[|pre|..|pre| + |JoinNumbers(g2)|];
    JoinNumbersInjective(g1, g2);
  }

  /** Two lines share an error message exactly when they share their text:
      duplicate groups are never merged, and a group's members agree. */
  lemma SameErrorIffSameText(lines: seq<CodeLine>, i: nat, j: nat)
    requires UniqueLineNumbers(lines)
    requires i < |lines| && j < |lines|
    ensures Finding(lines, lines[i]).error == Finding(lines, lines[j]).error <==> lines[i].text == lines[j].text
  {
    if Finding(lines, lines[i]).error == Finding(lines, lines[j]).error {
      DuplicateMessageInjective(DuplicateGroup(lines, lines[i].text), DuplicateGroup(lines, lines[j].text));
      GroupMembers(lines, lines[i].text, lines[i].lineNumber);
      GroupMembers(lines, lines[j].text, lines[i].lineNumber);
      var m :| 0 <= m < |lines| && lines[m].text == lines[j].text && lines[m].lineNumber == lines[i].lineNumber;
      assert m == i;
    }
  }

  /** Lines with the same comparable text are reported together. */
  lemma DuplicatesReportedTogether(lines: seq<CodeLine>, syntax: LanguageSyntax, i: nat, j: nat)
    requires UniqueLineNumbers(lines)
    requires i < |lines| && j < |lines| && lines[i].text == lines[j].text
    ensures Finding(lines, lines[i]) in Analyze(lines, syntax) <==> Finding(lines, lines[j]) in Analyze(lines, syntax)
  {
    ReportedIff(lines, syntax, i);
    ReportedIff(lines, syntax, j);
    if i != j {
      assert 0 <= j < |lines| && j != i && lines[j].text == lines[i].text;
      assert 0 <= i < |lines| && i != j && lines[i].text == lines[j].text;
    }
  }

  /** Comment lines and boilerplate-only lines never appear in the result. */
  lemma IgnoredNeverReported(lines: seq<CodeLine>, syntax: LanguageSyntax, k: nat, e: InvalidCodeLine)
    requires UniqueLineNumbers(lines)
    requires k < |lines| && IsIgnored(lines[k].text, syntax)
    requires e in Analyze(lines, syntax)
    ensures e.lineNumber != lines[k].lineNumber
  {
    AnalyzeMembership(lines, syntax, e);
  }

  /** Every finding is about one of the pending lines. */
  lemma FindingLineNumber(lines: seq<CodeLine>, pending: seq<CodeLine>, ignored: string -> bool, e: InvalidCodeLine)
    requires e in FindingsFor(lines, pending, ignored)
    ensures exists k :: 0 <= k < |pending| && e.lineNumber == pending[k].lineNumber
  {
    FindingsForMembership(lines, pending, ignored, e);
  }

  /** No two findings carry the same line number. */
  predicate DistinctLineNumbers(r: seq<InvalidCodeLine>) {
    forall a, b :: 0 <= a < b < |r| ==> r[a].lineNumber != r[b].lineNumber
  }

  /** Each line is reported at most once. */
  lemma {:induction false} EachLineReportedOnce(lines: seq<CodeLine>, pending: seq<CodeLine>, ignored: string -> bool)
    requires UniqueLineNumbers(pending)
    ensures DistinctLineNumbers(FindingsFor(lines, pending, ignored))
  {
    if pending != [] {
      var r := FindingsFor(lines, pending, ignored);
      var rest := FindingsFor(lines, pending[1..], ignored);
      EachLineReportedOnce(lines, pending[1..], ignored);
      if IsReported(lines, pending[0].text, ignored) {
        assert r == [Finding(lines, pending[0])] + rest;
        LaterFindingsElsewhere(lines, pending, ignored);
        forall a, b | 0 <= a < b < |r| ensures r[a].lineNumber != r[b].lineNumber {
          assert r[b] == rest[b - 1];
          if a > 0 {
            assert r[a] == rest[a - 1];
          } else {
            assert r[a].lineNumber == pending[0].lineNumber;
          }
        }
      } else {
        assert r == rest;
      }
    }
  }

  /** The findings for the later pending lines never carry the first
      pending line's number. */
  lemma LaterFindingsElsewhere(lines: seq<CodeLine>, pending: seq<CodeLine>, ignored: string -> bool)
    requires pending != [] && UniqueLineNumbers(pending)
    ensures forall b :: 0 <= b < |FindingsFor(lines, pending[1..], ignored)| ==>
      FindingsFor(lines, pending[1..], ignored)[b].lineNumber != pending[0].lineNumber
  {
    var rest := FindingsFor(lines, pending[1..], ignored);
    forall b | 0 <= b < |rest| ensures rest[b].lineNumber != pending[0].lineNumber {
      FindingLineNumber(lines, pending[1..], ignored, rest[b]);
      var k :| 0 <= k < |pending[1..]| && rest[b].lineNumber == pending[1..][k].lineNumber;
      assert pending[1..][k] == pending[k + 1];
    }
  }

  /** With unique line numbers a line number occurs once in its group. */
  lemma {:induction false} LineNumbersOfDistinct(lines: seq<CodeLine>, text: string)
    requires UniqueLineNumbers(lines)
    ensures Distinct(LineNumbersOf(lines, text))
  {
    if lines != [] {
      LineNumbersOfDistinct(lines[1..], text);
      var rest := LineNumbersOf(lines[1..], text);
      assert forall i :: 0 <= i < |lines[1..]| ==> lines[1..][i].lineNumber != lines[0].lineNumber;
      assert lines[0].lineNumber !in rest;
      var ns := LineNumbersOf(lines, text);
      assert ns == (if lines[0].text == text then [lines[0].lineNumber] else []) + rest;
      forall a, b | 0 <= a < b < |ns| ensures ns[a] != ns[b] {
        if lines[0].text == text && a == 0 {
          assert ns[b] == rest[b - 1];
        }
      }
    }
  }

  lemma GroupDistinct(lines: seq<CodeLine>, text: string)
    requires UniqueLineNumbers(lines)
    ensures Distinct(DuplicateGroup(lines, text))
  {
    LineNumbersOfDistinct(lines, text);
    DistinctPermutation(LineNumbersOf(lines, text), DuplicateGroup(lines, text));
  }
}
