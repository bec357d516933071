# Duplicate-line analyzer

A Dafny model of `analyzeDuplicateLines(codeLines, language, syntaxFactory)`
from privacy.sexy's script validation. The analyzer flags script lines
that repeat another line. Its behaviour here is the one pinned by its unit
tests (`AnalyzeDuplicateLines.spec.ts`). The model covers:

- the analyzer itself (`DuplicateLines`, in `analyzer.dfy`);
- the language syntax it consults (`Syntax`, in `syntax.dfy`);
- the expected-result builder and fluent `TestContext` of the tests, and
  every test case as a lemma and as a method (`DuplicateLinesTests`, in
  `analyzer_tests.dfy`);
- how the tests' syntaxes classify the tests' texts (`TestSyntaxes`, in
  `syntax_tests.dfy`);
- supporting theories: tokens, decimal text and comma joining (`Strings`),
  ascending order (`Sorting`), repetition-free sequences (`Sequences`).

The analyzer, as modelled:

1. The syntax is obtained once, by applying the caller's factory to the
   caller's language.
2. A line is *ignored* when either holds:
   - after its leading whitespace it starts with one of the syntax's
     comment delimiters;
   - each of its whitespace-separated tokens is one of the syntax's common
     code parts. A blank line has no tokens, so it qualifies vacuously.
3. Every other line is *comparable*. A comparable line is reported when
   its exact full text is on at least two lines.
4. Each reported line becomes one `InvalidCodeLine(lineNumber, error)`.
   The error is `Line is duplicated at line numbers ` + the ascending line
   numbers of every line with that text, joined by `,` + `.`.

The model leaves the order of the result unspecified: it states what the
result contains, entry by entry, and compares it with the expected entries
as a multiset.

## Model

| member | source | states |
|---|---|---|
| DuplicateLines.AnalyzeDuplicateLines | tests/unit/application/Parser/Executable/Script/Validation/Analyzers/AnalyzeDuplicateLines.spec.ts:189-195 | `analyzeDuplicateLines`: resolves the caller's language through the factory, then analyzes; at most one entry per line; its contents are stated by `AnalyzeMembership` and its use of the factory by `UsesCallerLanguage` |
| DuplicateLines.Analyze | tests/unit/application/Parser/Executable/Script/Validation/Analyzers/AnalyzeDuplicateLines.spec.ts:189-195 | the analysis under a resolved syntax; at most one entry per line, whose members `AnalyzeMembership` and `ReportedIff` characterise |
| DuplicateLines.FindingsFor | tests/unit/application/Parser/Executable/Script/Validation/Analyzers/AnalyzeDuplicateLines.spec.ts:189-195 | the findings of the pending lines, in order, at most one per pending line; membership stated by `FindingsForMembership` |
| DuplicateLines.AnalyzeMembership | tests/unit/application/Parser/Executable/Script/Validation/Analyzers/AnalyzeDuplicateLines.spec.ts:189-195 | an entry is in the result iff it is the finding of a line whose text is not ignored and is carried by two or more lines |
| DuplicateLines.DuplicateMessage | tests/unit/application/Parser/Executable/Script/Validation/Analyzers/AnalyzeDuplicateLines.spec.ts:163 | the error of a group; `DuplicateMessageShape` and `DuplicateMessageInjective` state its form and that it determines the group |
| DuplicateLines.DuplicateMessageShape | tests/unit/application/Parser/Executable/Script/Validation/Analyzers/AnalyzeDuplicateLines.spec.ts:163 | every error starts with `Line is duplicated at line numbers `, ends with `.`, and lists something exactly when the group is non-empty |
| Syntax.IsCommentLine | tests/unit/application/Parser/Executable/Script/Validation/Analyzers/AnalyzeDuplicateLines.spec.ts:119-151 | a comment line starts, after its indentation, with a delimiter; stated by `CommentIsPrefixOnly` and `IndentedCommentIsComment` |
| Syntax.IsCommonCodeOnly | tests/unit/application/Parser/Executable/Script/Validation/Analyzers/AnalyzeDuplicateLines.spec.ts:84-116 | every token is a common part; stated by `CommonCodeOnlyLayout`, `CommonCodeOnlyWords` and `BlankLineIgnored` |
| Syntax.IsIgnored | tests/unit/application/Parser/Executable/Script/Validation/Analyzers/AnalyzeDuplicateLines.spec.ts:68-151 | a line is ignored iff it is a comment line or common code only; `IgnoredNeverReported` states that such lines are never flagged |
| DuplicateLines.ReportedIff | tests/unit/application/Parser/Executable/Script/Validation/Analyzers/AnalyzeDuplicateLines.spec.ts:25-36 | a line is flagged iff it is not ignored and some other line has exactly its text, adjacent or not |
| DuplicateLines.TwoOccurrencesIff | tests/unit/application/Parser/Executable/Script/Validation/Analyzers/AnalyzeDuplicateLines.spec.ts:25-36 | a text's line-number list has two or more entries iff two distinct lines carry that text |
| DuplicateLines.OneOccurrenceIff | tests/unit/application/Parser/Executable/Script/Validation/Analyzers/AnalyzeDuplicateLines.spec.ts:25-36 | a text's line-number list is non-empty iff some line carries that text |
| DuplicateLines.LineNumbersOf | tests/unit/application/Parser/Executable/Script/Validation/Analyzers/AnalyzeDuplicateLines.spec.ts:160-163 | the collected numbers are exactly those of the lines with the given text, at most one per line |
| DuplicateLines.UniqueTextsNoFindings | tests/unit/application/Parser/Executable/Script/Validation/Analyzers/AnalyzeDuplicateLines.spec.ts:13-24 | when no comparable text is repeated, the result is empty |
| DuplicateLines.DuplicatesReportedTogether | tests/unit/application/Parser/Executable/Script/Validation/Analyzers/AnalyzeDuplicateLines.spec.ts:25-36 | two lines with the same text are either both flagged or both not flagged |
| DuplicateLines.SameErrorIffSameText | tests/unit/application/Parser/Executable/Script/Validation/Analyzers/AnalyzeDuplicateLines.spec.ts:37-49 | two lines carry the same error iff they carry the same text, so distinct groups are never merged |
| DuplicateLines.DuplicateMessageInjective | tests/unit/application/Parser/Executable/Script/Validation/Analyzers/AnalyzeDuplicateLines.spec.ts:163 | the error text determines the list of line numbers it was built from |
| DuplicateLines.FindingsNameGroupsOfTwoOrMore | tests/unit/application/Parser/Executable/Script/Validation/Analyzers/AnalyzeDuplicateLines.spec.ts:157-165 | every error lists an ascending group of at least two line numbers that includes the flagged line |
| DuplicateLines.GroupMembers | tests/unit/application/Parser/Executable/Script/Validation/Analyzers/AnalyzeDuplicateLines.spec.ts:160-163 | a number is in a text's group iff some line with that text has that number |
| DuplicateLines.GroupDistinct | tests/unit/application/Parser/Executable/Script/Validation/Analyzers/AnalyzeDuplicateLines.spec.ts:163 | with unique line numbers, a group lists each number once |
| DuplicateLines.LineNumbersOfDistinct | tests/unit/application/Parser/Executable/Script/Validation/Analyzers/AnalyzeDuplicateLines.spec.ts:163 | with unique line numbers, the numbers collected for one text are pairwise distinct |
| DuplicateLines.IgnoredNeverReported | tests/unit/application/Parser/Executable/Script/Validation/Analyzers/AnalyzeDuplicateLines.spec.ts:68-83 | no entry of the result names an ignored line, however often it repeats |
| DuplicateLines.EachLineReportedOnce | tests/unit/application/Parser/Executable/Script/Validation/Analyzers/AnalyzeDuplicateLines.spec.ts:157-165 | no line number appears twice in the result: one entry per group member |
| DuplicateLines.LaterFindingsElsewhere | tests/unit/application/Parser/Executable/Script/Validation/Analyzers/AnalyzeDuplicateLines.spec.ts:157-165 | with unique line numbers, the findings for the later lines never carry the first line's number |
| DuplicateLines.FindingsForMembership | tests/unit/application/Parser/Executable/Script/Validation/Analyzers/AnalyzeDuplicateLines.spec.ts:189-195 | the findings over the pending lines are exactly those of the pending lines that are reported |
| Strings.TrimStart | tests/unit/application/Parser/Executable/Script/Validation/Analyzers/AnalyzeDuplicateLines.spec.ts:119-135 | the trimmed text is no longer than the line and does not start with whitespace |
| Strings.TrimStartRemovesBlankPrefix | tests/unit/application/Parser/Executable/Script/Validation/Analyzers/AnalyzeDuplicateLines.spec.ts:119-135 | the line is a blank prefix followed by its trimmed text, unchanged |
| DuplicateLines.UsesCallerLanguage | tests/unit/application/Parser/Executable/Script/Validation/Analyzers/AnalyzeDuplicateLines.spec.ts:51-66 | the result depends on the factory only through its answer for the caller's language |
| Strings.JoinNumbers | tests/unit/application/Parser/Executable/Script/Validation/Analyzers/AnalyzeDuplicateLines.spec.ts:163 | the comma-joined text is empty iff the list is empty |
| Strings.JoinNumbersInjective | tests/unit/application/Parser/Executable/Script/Validation/Analyzers/AnalyzeDuplicateLines.spec.ts:163 | different number lists never join to the same text |
| Strings.DecimalRoundTrip | tests/unit/application/Parser/Executable/Script/Validation/Analyzers/AnalyzeDuplicateLines.spec.ts:163 | reading back the decimal text of a number gives the number |
| Strings.NatToDecimal | tests/unit/application/Parser/Executable/Script/Validation/Analyzers/AnalyzeDuplicateLines.spec.ts:163 | a number's text is a non-empty run of decimal digits, a single digit exactly for numbers below ten, and never starts with `0` unless it is the single digit `0` |
| Strings.Tokens | tests/unit/application/Parser/Executable/Script/Validation/Analyzers/AnalyzeDuplicateLines.spec.ts:91-92 | every token is non-empty and free of whitespace; which tokens a line has is pinned down by `Strings.TokensOfLayout` and `Strings.EveryStringIsALayout` |
| Strings.TokensOfLayout | tests/unit/application/Parser/Executable/Script/Validation/Analyzers/AnalyzeDuplicateLines.spec.ts:84-116 | a line of words, each followed by blank separators (non-empty between words: spaces, tabs or runs of them), after blank indentation, has exactly those words as its tokens, in order |
| Strings.EveryStringIsALayout | tests/unit/application/Parser/Executable/Script/Validation/Analyzers/AnalyzeDuplicateLines.spec.ts:84-116 | every line is such a layout of some words, so its tokens are its maximal runs of non-whitespace |
| Strings.TokensOfUnwords | tests/unit/application/Parser/Executable/Script/Validation/Analyzers/AnalyzeDuplicateLines.spec.ts:91-92 | words joined by single spaces tokenize back to the same words, in order |
| Strings.TokensEmptyIffBlank | tests/unit/application/Parser/Executable/Script/Validation/Analyzers/AnalyzeDuplicateLines.spec.ts:84-99 | a line has no tokens iff it is blank |
| Sorting.Sort | tests/unit/application/Parser/Executable/Script/Validation/Analyzers/AnalyzeDuplicateLines.spec.ts:163 | the group's numbers come out ascending and are a rearrangement of the input |
| Sorting.SortedPermutationUnique | tests/unit/application/Parser/Executable/Script/Validation/Analyzers/AnalyzeDuplicateLines.spec.ts:163 | two ascending rearrangements of the same numbers are equal, so a group has one message |
| Sorting.SortOfSorted | tests/unit/application/Parser/Executable/Script/Validation/Analyzers/AnalyzeDuplicateLines.spec.ts:163 | numbers already ascending keep their order |
| Syntax.StartsWithAny | tests/unit/application/Parser/Executable/Script/Validation/Analyzers/AnalyzeDuplicateLines.spec.ts:119-135 | true iff some delimiter is a prefix of the text |
| Syntax.CommentIsPrefixOnly | tests/unit/application/Parser/Executable/Script/Validation/Analyzers/AnalyzeDuplicateLines.spec.ts:136-151 | for a line without leading whitespace, it is a comment iff a delimiter is its prefix; a delimiter elsewhere does not count |
| Syntax.IndentedCommentIsComment | tests/unit/application/Parser/Executable/Script/Validation/Analyzers/AnalyzeDuplicateLines.spec.ts:119-135 | leading whitespace does not change whether a line is a comment |
| Syntax.DelimitedLineIgnored | tests/unit/application/Parser/Executable/Script/Validation/Analyzers/AnalyzeDuplicateLines.spec.ts:119-135 | a line that starts with a delimiter is ignored |
| Syntax.UndelimitedLineNotComment | tests/unit/application/Parser/Executable/Script/Validation/Analyzers/AnalyzeDuplicateLines.spec.ts:136-151 | a line that starts with no delimiter is not a comment |
| Syntax.CommonCodeOnlyWords | tests/unit/application/Parser/Executable/Script/Validation/Analyzers/AnalyzeDuplicateLines.spec.ts:84-99 | a line of space-separated words is boilerplate iff every word is a common part, in any order |
| Syntax.CommonCodeOnlyLayout | tests/unit/application/Parser/Executable/Script/Validation/Analyzers/AnalyzeDuplicateLines.spec.ts:84-116 | the same for any layout of the words: indentation, tabs, runs of blanks and trailing blanks change nothing |
| Syntax.CommonWordsIgnored | tests/unit/application/Parser/Executable/Script/Validation/Analyzers/AnalyzeDuplicateLines.spec.ts:84-99 | a line made only of common parts is ignored |
| Syntax.CommonPairIgnored | tests/unit/application/Parser/Executable/Script/Validation/Analyzers/AnalyzeDuplicateLines.spec.ts:84-99 | two common parts joined by a space make an ignored line |
| Syntax.CommonWordIgnored | tests/unit/application/Parser/Executable/Script/Validation/Analyzers/AnalyzeDuplicateLines.spec.ts:68-83 | a line of one common part is ignored |
| Syntax.UncommonWordLineComparable | tests/unit/application/Parser/Executable/Script/Validation/Analyzers/AnalyzeDuplicateLines.spec.ts:68-83 | a line of one word that is neither common nor a comment is compared |
| Syntax.UncommonWordComparable | tests/unit/application/Parser/Executable/Script/Validation/Analyzers/AnalyzeDuplicateLines.spec.ts:100-116 | one uncommon word makes a non-comment line comparable |
| Syntax.UncommonLeadComparable | tests/unit/application/Parser/Executable/Script/Validation/Analyzers/AnalyzeDuplicateLines.spec.ts:100-116 | an uncommon first word makes a non-comment line comparable, whatever follows it |
| Syntax.UncommonSecondComparable | tests/unit/application/Parser/Executable/Script/Validation/Analyzers/AnalyzeDuplicateLines.spec.ts:100-116 | an uncommon second word makes a two-word non-comment line comparable |
| Syntax.BlankLineIgnored | tests/unit/application/Parser/Executable/Script/Validation/Analyzers/AnalyzeDuplicateLines.spec.ts:84-99 | a blank line has no tokens, so it is ignored as vacuously all-common |
| TestSyntaxes.CommonPartsOccurrencesClassified | tests/unit/application/Parser/Executable/Script/Validation/Analyzers/AnalyzeDuplicateLines.spec.ts:68-83 | when two words are among the common parts they are ignored, and a word that is neither a common part nor a comment is not |
| TestSyntaxes.CommonPartsInSameLineClassified | tests/unit/application/Parser/Executable/Script/Validation/Analyzers/AnalyzeDuplicateLines.spec.ts:84-99 | with `good2` and `good1` among the common parts, `good1 good2` and `good2 good1` are both ignored |
| TestSyntaxes.BadComparable | tests/unit/application/Parser/Executable/Script/Validation/Analyzers/AnalyzeDuplicateLines.spec.ts:84-99 | `bad` is compared when it is neither a common part nor a comment |
| TestSyntaxes.CommonPartsOnlyClassified | tests/unit/application/Parser/Executable/Script/Validation/Analyzers/AnalyzeDuplicateLines.spec.ts:100-116 | lines made of two common parts alone, in either order, are ignored |
| TestSyntaxes.UniqueSecondClassified | tests/unit/application/Parser/Executable/Script/Validation/Analyzers/AnalyzeDuplicateLines.spec.ts:100-116 | `common-part1 unique` is compared whenever `unique` is not a common part and the line is no comment |
| TestSyntaxes.UniqueFirstClassified | tests/unit/application/Parser/Executable/Script/Validation/Analyzers/AnalyzeDuplicateLines.spec.ts:100-116 | `unique common-part2` is compared whenever `unique` is not a common part and the line is no comment |
| TestSyntaxes.CommentLinesClassified | tests/unit/application/Parser/Executable/Script/Validation/Analyzers/AnalyzeDuplicateLines.spec.ts:119-135 | with `#` and `//` among the delimiters, `#abc` and `//abc` are ignored, and `abc` is not when it is neither a comment nor a common part |
| TestSyntaxes.FirstCharNotComment | tests/unit/application/Parser/Executable/Script/Validation/Analyzers/AnalyzeDuplicateLines.spec.ts:136-151 | a line whose first character is neither whitespace nor `#` is no comment when every delimiter begins with `#` |
| TestSyntaxes.MidLineCommentsClassified | tests/unit/application/Parser/Executable/Script/Validation/Analyzers/AnalyzeDuplicateLines.spec.ts:136-151 | with delimiters that all begin with `#`, such as `#` alone, `test #comment` and `test2 # comment` are both compared |
| DuplicateLinesTests.CreateCodeLines | tests/unit/application/Parser/Executable/Script/Validation/Analyzers/AnalyzeDuplicateLines.spec.ts:16-19 | the i-th text becomes the line numbered i + 1, as the tests' `/* n */` markers show |
| DuplicateLinesTests.CreateCodeLinesUnique | tests/unit/application/Parser/Executable/Script/Validation/Analyzers/AnalyzeDuplicateLines.spec.ts:16-19 | the numbered test lines never repeat a line number |
| DuplicateLinesTests.CreateExpected | tests/unit/application/Parser/Executable/Script/Validation/Analyzers/AnalyzeDuplicateLines.spec.ts:157-165 | `createExpectedDuplicateLineErrors`: one entry per group member, each with its group's message; stated by `CreateExpectedMembership` and `CreateExpectedDistinct` |
| DuplicateLinesTests.CreateExpectedMembership | tests/unit/application/Parser/Executable/Script/Validation/Analyzers/AnalyzeDuplicateLines.spec.ts:157-165 | an expected entry is exactly a member of some group, paired with that group's message |
| DuplicateLinesTests.CreateExpectedDistinct | tests/unit/application/Parser/Executable/Script/Validation/Analyzers/AnalyzeDuplicateLines.spec.ts:157-165 | disjoint groups yield expected entries without repetition |
| DuplicateLinesTests.MatchesExpected | tests/unit/application/Parser/Executable/Script/Validation/Analyzers/AnalyzeDuplicateLines.spec.ts:157-165 | the analyzer's result equals, up to order, the expected builder applied to the groups of the reported texts |
| DuplicateLinesTests.ScenarioMatches | tests/unit/application/Parser/Executable/Script/Validation/Analyzers/AnalyzeDuplicateLines.spec.ts:157-165 | once every text is known to be reported with its ascending numbers, or ignored, or single, the result is the expected builder's |
| DuplicateLinesTests.GroupOfAscending | tests/unit/application/Parser/Executable/Script/Validation/Analyzers/AnalyzeDuplicateLines.spec.ts:163 | a text whose lines come in ascending order has that order as its group |
| DuplicateLinesTests.FindingsDistinct | tests/unit/application/Parser/Executable/Script/Validation/Analyzers/AnalyzeDuplicateLines.spec.ts:157-165 | the result never repeats an entry |
| DuplicateLinesTests.UniqueLinesFor | tests/unit/application/Parser/Executable/Script/Validation/Analyzers/AnalyzeDuplicateLines.spec.ts:13-24 | four pairwise distinct texts give an empty result, whatever is ignored |
| DuplicateLinesTests.SingleDuplicatedLineFor | tests/unit/application/Parser/Executable/Script/Validation/Analyzers/AnalyzeDuplicateLines.spec.ts:25-36 | a comparable text at lines 1, 2 and 4 gives one group 1,2,4 |
| DuplicateLinesTests.MultipleDuplicatedLinesFor | tests/unit/application/Parser/Executable/Script/Validation/Analyzers/AnalyzeDuplicateLines.spec.ts:37-49 | two comparable texts at 1, 4 and 2, 6 give the two separate groups |
| DuplicateLinesTests.CommonPartsOccurrencesFor | tests/unit/application/Parser/Executable/Script/Validation/Analyzers/AnalyzeDuplicateLines.spec.ts:68-83 | repeated ignored texts are not flagged; the repeated comparable one at 3, 4 is |
| DuplicateLinesTests.CommonPartsInSameLineFor | tests/unit/application/Parser/Executable/Script/Validation/Analyzers/AnalyzeDuplicateLines.spec.ts:84-99 | only the comparable text at 1, 2 is flagged |
| DuplicateLinesTests.CommonPartsWithUniqueWordsFor | tests/unit/application/Parser/Executable/Script/Validation/Analyzers/AnalyzeDuplicateLines.spec.ts:100-116 | the two comparable texts form the groups 4,5 and 8,9, never one group |
| DuplicateLinesTests.CommentLinesFor | tests/unit/application/Parser/Executable/Script/Validation/Analyzers/AnalyzeDuplicateLines.spec.ts:119-135 | ignored comment lines are not flagged; the comparable text at 3, 5 is |
| DuplicateLinesTests.MidLineCommentsFor | tests/unit/application/Parser/Executable/Script/Validation/Analyzers/AnalyzeDuplicateLines.spec.ts:136-151 | two comparable texts on adjacent pairs give the groups 1,2 and 3,4 |
| DuplicateLinesTests.UniqueLinesNoResults | tests/unit/application/Parser/Executable/Script/Validation/Analyzers/AnalyzeDuplicateLines.spec.ts:13-24 | the four unique lines give no results under any syntax |
| DuplicateLinesTests.SingleDuplicatedLine | tests/unit/application/Parser/Executable/Script/Validation/Analyzers/AnalyzeDuplicateLines.spec.ts:25-36 | the test's lines give exactly the entries for group 1,2,4 |
| DuplicateLinesTests.MultipleDuplicatedLines | tests/unit/application/Parser/Executable/Script/Validation/Analyzers/AnalyzeDuplicateLines.spec.ts:37-49 | the test's lines give exactly the entries for groups 1,4 and 2,6 |
| DuplicateLinesTests.CommonPartsOccurrencesIgnored | tests/unit/application/Parser/Executable/Script/Validation/Analyzers/AnalyzeDuplicateLines.spec.ts:68-83 | with `good` and `also-good` among the common parts, the result is exactly group 3,4 |
| DuplicateLinesTests.CommonPartsInSameLineIgnored | tests/unit/application/Parser/Executable/Script/Validation/Analyzers/AnalyzeDuplicateLines.spec.ts:84-99 | with `good2` and `good1` among the common parts, the result is exactly group 1,2 |
| DuplicateLinesTests.CommonPartsWithUniqueWords | tests/unit/application/Parser/Executable/Script/Validation/Analyzers/AnalyzeDuplicateLines.spec.ts:100-116 | with `common-part1` and `common-part2` among the common parts and `unique` not, the result is exactly groups 4,5 and 8,9 |
| DuplicateLinesTests.CommentLinesIgnored | tests/unit/application/Parser/Executable/Script/Validation/Analyzers/AnalyzeDuplicateLines.spec.ts:119-135 | with `#` and `//` among the delimiters, the result is exactly group 3,5 |
| DuplicateLinesTests.MidLineCommentsCompared | tests/unit/application/Parser/Executable/Script/Validation/Analyzers/AnalyzeDuplicateLines.spec.ts:136-151 | with delimiters that all begin with `#`, the result is exactly groups 1,2 and 3,4 |
| DuplicateLinesTests.MessageOfGroup | tests/unit/application/Parser/Executable/Script/Validation/Analyzers/AnalyzeDuplicateLines.spec.ts:163 | the message of group 1,2,4 reads `Line is duplicated at line numbers 1,2,4.` |
| DuplicateLinesTests.TestContext.constructor | tests/unit/application/Parser/Executable/Script/Validation/Analyzers/AnalyzeDuplicateLines.spec.ts:168-172 | defaults: the single line `test-code-line`, batch files, the default factory |
| DuplicateLinesTests.TestContext.WithLines | tests/unit/application/Parser/Executable/Script/Validation/Analyzers/AnalyzeDuplicateLines.spec.ts:174-177 | replaces the lines by the numbered texts, keeps language and factory, returns the same context |
| DuplicateLinesTests.TestContext.WithLanguage | tests/unit/application/Parser/Executable/Script/Validation/Analyzers/AnalyzeDuplicateLines.spec.ts:179-182 | replaces the language, keeps lines and factory, returns the same context |
| DuplicateLinesTests.TestContext.WithSyntaxFactory | tests/unit/application/Parser/Executable/Script/Validation/Analyzers/AnalyzeDuplicateLines.spec.ts:184-187 | replaces the factory, keeps lines and language, returns the same context |
| DuplicateLinesTests.TestContext.Analyze | tests/unit/application/Parser/Executable/Script/Validation/Analyzers/AnalyzeDuplicateLines.spec.ts:189-195 | analyzes the current lines under the syntax the current factory gives for the current language |
| DuplicateLinesTests.UsesCorrectLanguage | tests/unit/application/Parser/Executable/Script/Validation/Analyzers/AnalyzeDuplicateLines.spec.ts:51-66 | after setting batch files and a factory, the analysis runs under that factory's batch-file syntax |
| DuplicateLinesTests.RunsUniqueLines | tests/unit/application/Parser/Executable/Script/Validation/Analyzers/AnalyzeDuplicateLines.spec.ts:13-24 | the context run on the unique lines returns no results |
| DuplicateLinesTests.RunsSingleDuplicatedLine | tests/unit/application/Parser/Executable/Script/Validation/Analyzers/AnalyzeDuplicateLines.spec.ts:25-36 | the context run returns the entries of group 1,2,4 |
| DuplicateLinesTests.RunsMultipleDuplicatedLines | tests/unit/application/Parser/Executable/Script/Validation/Analyzers/AnalyzeDuplicateLines.spec.ts:37-49 | the context run returns the entries of groups 1,4 and 2,6 |
| DuplicateLinesTests.RunsCommonPartsOccurrences | tests/unit/application/Parser/Executable/Script/Validation/Analyzers/AnalyzeDuplicateLines.spec.ts:68-83 | the context run returns the entries of group 3,4 |
| DuplicateLinesTests.RunsCommonPartsInSameLine | tests/unit/application/Parser/Executable/Script/Validation/Analyzers/AnalyzeDuplicateLines.spec.ts:84-99 | the context run returns the entries of group 1,2 |
| DuplicateLinesTests.RunsCommonPartsWithUniqueWords | tests/unit/application/Parser/Executable/Script/Validation/Analyzers/AnalyzeDuplicateLines.spec.ts:100-116 | the context run returns the entries of groups 4,5 and 8,9 |
| DuplicateLinesTests.RunsCommentLines | tests/unit/application/Parser/Executable/Script/Validation/Analyzers/AnalyzeDuplicateLines.spec.ts:119-135 | the context run returns the entries of group 3,5 |
| DuplicateLinesTests.RunsMidLineComments | tests/unit/application/Parser/Executable/Script/Validation/Analyzers/AnalyzeDuplicateLines.spec.ts:136-151 | the context run returns the entries of groups 1,2 and 3,4 |

## Left out

- The analyzer's own source file is not part of this model. The behaviour is the one its tests pin down. Where they are silent, these choices hold:
  - the comment check runs on the text with leading whitespace removed, and only that check trims;
  - tokens are maximal runs of non-whitespace (`Strings.TokensOfLayout`), and whitespace is space, tab, line feed, carriage return, vertical tab and form feed only (no other Unicode whitespace);
  - a blank line is ignored as vacuously all-common;
  - group numbers are listed in ascending order;
  - texts are compared exactly and case-sensitively.
- `LanguageSyntaxStub` and `SyntaxFactoryStub` are not part of this model, and neither are their default delimiters and common parts. Test cases therefore require, in their `requires`, only what the case needs: that the parts or delimiters the test sets are present, and that the texts meant to be compared are not ignored.
- `createCodeLines` is not part of this model. It is modelled as numbering the texts 1, 2, 3, … in order, as the tests' `/* n */` markers show.
- The order of the result is not modelled. `expectSameInvalidCodeLines` is not part of this model, so results and expectations are compared as multisets.
- DuplicateLinesTests.UsesCorrectLanguage: the test records the language its factory is called with. A Dafny function cannot record a call, so the model states instead that the result depends on the factory only through its answer for the caller's language (see `DuplicateLines.UsesCallerLanguage`).
- An unknown language has no error path: `ScriptingLanguage` is a closed datatype (batch file, shell script), so no unknown language can be passed.
- The concrete per-language syntaxes (batch file, shell script) are not part of this model. A syntax is an input value.
- `ReverterFactory.ts`, `CategoryCollection.ts` and `CategoryCollectionContextStub.ts` hold UI dispatch, an interface and a stub with no logic. They are not modelled.
- The vitest test runner (`describe`, `it` and its assertions) is not modelled.
- Line numbers are unbounded naturals, and their decimal text has no upper bound.
