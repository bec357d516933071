/** How the syntaxes set up by the analyzer's tests classify the tests'
    texts: which are ignored and which take part in duplicate detection. */
module TestSyntaxes {
  import opened Strings
  import opened Syntax

  /** The tests' lines of several words, as words joined by single spaces. */
  lemma SpacedTexts()
    ensures "good1 good2" == "good1" + " " + "good2" && "good2 good1" == "good2" + " " + "good1"
    ensures "common-part1 common-part2" == "common-part1" + " " + "common-part2"
    ensures "common-part2 common-part1" == "common-part2" + " " + "common-part1"
    ensures "common-part1 unique" == "common-part1" + " " + "unique"
    ensures "unique common-part2" == "unique" + " " + "common-part2"
    ensures "test #comment" == "test" + " " + "#comment" && "test2 # comment" == "test2" + " " + "# comment"
  {
  }

  /** The tests' single words contain no whitespace. */
  lemma TestWords()
    ensures IsWord("good") && IsWord("also-good") && IsWord("bad")
    ensures IsWord("common-part1") && IsWord("common-part2") && IsWord("unique")
  {
  }

  /** With two single-word common parts, those words alone are ignored and
      a word that is not a common part is not. */
  lemma CommonPartsOccurrencesClassified(syntax: LanguageSyntax, good: string, alsoGood: string, bad: string)
    requires IsWord(good) && IsWord(alsoGood) && IsWord(bad)
    requires good in syntax.commonCodeParts && alsoGood in syntax.commonCodeParts
    requires bad !in syntax.commonCodeParts
    requires !IsCommentLine(bad, syntax)
    ensures IsIgnored(good, syntax) && IsIgnored(alsoGood, syntax) && !IsIgnored(bad, syntax)
  {
    CommonWordIgnored(good, syntax);
    CommonWordIgnored(alsoGood, syntax);
    UncommonWordLineComparable(bad, syntax);
  }

  /** With common parts `good2` and `good1`, both word orders are ignored. */
  lemma CommonPartsInSameLineClassified(syntax: LanguageSyntax)
    requires "good2" in syntax.commonCodeParts && "good1" in syntax.commonCodeParts
    ensures IsIgnored("good1" + " " + "good2", syntax) && IsIgnored("good2" + " " + "good1", syntax)
  {
    CommonPairIgnored("good1", "good2", syntax);
    CommonPairIgnored("good2", "good1", syntax);
  }

  /** `bad` is compared whenever it is no comment and no common part. */
  lemma BadComparable(syntax: LanguageSyntax)
    requires "bad" !in syntax.commonCodeParts
    requires !IsCommentLine("bad", syntax)
    ensures !IsIgnored("bad", syntax)
  {
    UncommonWordLineComparable("bad", syntax);
  }

  /** With two common parts, lines made of them alone are ignored, in
      either order. */
  lemma CommonPartsOnlyClassified(syntax: LanguageSyntax, c1: string, c2: string)
    requires IsWord(c1) && IsWord(c2)
    requires c1 in syntax.commonCodeParts && c2 in syntax.commonCodeParts
    ensures IsIgnored(c1, syntax)
    ensures IsIgnored(c1 + " " + c2, syntax) && IsIgnored(c2 + " " + c1, syntax)
  {
    CommonWordIgnored(c1, syntax);
    CommonPairIgnored(c1, c2, syntax);
    CommonPairIgnored(c2, c1, syntax);
  }

  /** ... and a line with the word `unique` after one of them is compared. */
  lemma UniqueSecondClassified(syntax: LanguageSyntax)
    requires "unique" !in syntax.commonCodeParts
    requires !IsCommentLine("common-part1 unique", syntax)
    ensures !IsIgnored("common-part1" + " " + "unique", syntax)
  {
    SpacedTexts();
    TestWords();
    UncommonSecondComparable("common-part1", "unique", syntax);
  }

  /** ... or before one of them. */
  lemma UniqueFirstClassified(syntax: LanguageSyntax)
    requires "unique" !in syntax.commonCodeParts
    requires !IsCommentLine("unique common-part2", syntax)
    ensures !IsIgnored("unique" + " " + "common-part2", syntax)
  {
    SpacedTexts();
    TestWords();
    UncommonLeadComparable("unique", "common-part2", syntax);
  }

  /** With delimiters `#` and `//`, `#abc` and `//abc` are ignored and
      `abc` is not. */
  lemma CommentLinesClassified(syntax: LanguageSyntax)
    requires "#" in syntax.commentDelimiters && "//" in syntax.commentDelimiters
    requires !IsCommentLine("abc", syntax) && "abc" !in syntax.commonCodeParts
    ensures IsIgnored("#abc", syntax) && IsIgnored("//abc", syntax) && !IsIgnored("abc", syntax)
  {
    var d := syntax.commentDelimiters;
    var hash :| 0 <= hash < |d| && d[hash] == "#";
    var slashes :| 0 <= slashes < |d| && d[slashes] == "//";
    DelimitedLineIgnored("#abc", syntax, hash);
    DelimitedLineIgnored("//abc", syntax, slashes);
    UncommonWordLineComparable("abc", syntax);
  }

  /** A comment delimiter that begins with `#`, as `#` itself does. */
  predicate StartsWithHash(delimiter: string) {
    delimiter != [] && delimiter[0] == '#'
  }

  /** A line whose first character differs from that of every delimiter
      is no comment. */
  lemma FirstCharNotComment(text: string, syntax: LanguageSyntax)
    requires text != [] && !IsWhitespace(text[0]) && text[0] != '#'
    requires forall i :: 0 <= i < |syntax.commentDelimiters| ==> StartsWithHash(syntax.commentDelimiters[i])
    ensures !IsCommentLine(text, syntax)
  {
    var d := syntax.commentDelimiters;
    forall i | 0 <= i < |d|
      ensures !(d[i] <= text)
    {
      assert d[i][0] != text[0];
    }
    UndelimitedLineNotComment(text, syntax);
  }

  /** With delimiters beginning with `#`, a `#` after the first word does
      not make a comment, whether attached to a word or standing alone. */
  lemma MidLineCommentsClassified(syntax: LanguageSyntax)
    requires forall i :: 0 <= i < |syntax.commentDelimiters| ==> StartsWithHash(syntax.commentDelimiters[i])
    requires "test" !in syntax.commonCodeParts && "test2" !in syntax.commonCodeParts
    ensures !IsIgnored("test" + " " + "#comment", syntax)
    ensures !IsIgnored("test2" + " " + "# comment", syntax)
  {
    assert ("test" + " " + "#comment")[0] == 't';
    FirstCharNotComment("test" + " " + "#comment", syntax);
    UncommonLeadComparable("test", "#comment", syntax);
    assert ("test2" + " " + "# comment")[0] == 't';
    FirstCharNotComment("test2" + " " + "# comment", syntax);
    UncommonLeadComparable("test2", "# comment", syntax);
  }
}
