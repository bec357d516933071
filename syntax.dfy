/** The per-language syntax policy the analyzer consults: which prefixes
    make a line a pure comment, and which tokens are common boilerplate. */
module Syntax {
  import opened Strings

  /** The closed set of languages a syntax factory is asked about. */
  datatype ScriptingLanguage = Batchfile | Shellscript

  datatype LanguageSyntax = LanguageSyntax(
    commentDelimiters: seq<string>,
    commonCodeParts: seq<string>)

  /** Resolves the syntax of a language; supplied by the caller. */
  type SyntaxFactory = ScriptingLanguage -> LanguageSyntax

  /** Whether one of `delimiters` is a prefix of `s`, trying them in order. */
  function StartsWithAny(s: string, delimiters: seq<string>): (r: bool)
    ensures r <==> exists i :: 0 <= i < |delimiters| && delimiters[i] <= s
  {
    if delimiters == [] then false
    else if delimiters[0] <= s then true
    else
      var r := StartsWithAny(s, delimiters[1..]);
      assert r <==> exists i :: 1 <= i < |delimiters| && delimiters[i] <= s by {
        if r {
          var i :| 0 <= i < |delimiters[1..]| && delimiters[1..][i] <= s;
          assert delimiters[i + 1] <= s;
        }
        if exists i :: 1 <= i < |delimiters| && delimiters[i] <= s {
          var i :| 1 <= i < |delimiters| && delimiters[i] <= s;
          assert delimiters[1..][i - 1] <= s;
        }
      }
      r
  }

  /** A pure comment line: after its leading whitespace it starts with a
      comment delimiter. Nothing after the prefix is inspected. */
  predicate IsCommentLine(text: string, syntax: LanguageSyntax) {
    StartsWithAny(TrimStart(text), syntax.commentDelimiters)
  }

  /** Every whitespace-delimited token of the line is a common code part;
      a line with no tokens qualifies vacuously. */
  predicate IsCommonCodeOnly(text: string, syntax: LanguageSyntax) {
    var ts := Tokens(text);
    forall i :: 0 <= i < |ts| ==> ts[i] in syntax.commonCodeParts
  }

  /** Lines the analyzer never reports, whatever their repetitions. */
  predicate IsIgnored(text: string, syntax: LanguageSyntax) {
    IsCommentLine(text, syntax) || IsCommonCodeOnly(text, syntax)
  }

  /** For a line without leading whitespace, the comment test is exactly
      "some delimiter is a prefix of the line": a delimiter elsewhere in
      the line does not count. */
  lemma CommentIsPrefixOnly(text: string, syntax: LanguageSyntax)
    requires text == [] || !IsWhitespace(text[0])
    ensures IsCommentLine(text, syntax) <==>
      exists i :: 0 <= i < |syntax.commentDelimiters| && syntax.commentDelimiters[i] <= text
  {
    assert TrimStart(text) == text;
  }

  /** Leading whitespace does not stop a comment from being recognised. */
  lemma IndentedCommentIsComment(indent: string, text: string, syntax: LanguageSyntax)
    requires IsBlank(indent)
    requires text == [] || !IsWhitespace(text[0])
    ensures IsCommentLine(indent + text, syntax) == IsCommentLine(text, syntax)
  {
    TrimStartAfterBlank(indent, text);
  }

  lemma {:induction false} TrimStartAfterBlank(indent: string, text: string)
    requires IsBlank(indent)
    requires text == [] || !IsWhitespace(text[0])
    ensures TrimStart(indent + text) == text
    decreases |indent|
  {
    if indent == [] {
      assert indent + text == text;
    } else {
      assert (indent + text)[1..] == indent[1..] + text;
      TrimStartAfterBlank(indent[1..], text);
    }
  }

  /** A line of single-space separated words is boilerplate exactly when
      each word is a common code part, in whatever order they appear. */
  lemma CommonCodeOnlyWords(words: seq<string>, syntax: LanguageSyntax)
    requires forall i :: 0 <= i < |words| ==> IsWord(words[i])
    ensures IsCommonCodeOnly(Unwords(words), syntax) <==>
      forall i :: 0 <= i < |words| ==> words[i] in syntax.commonCodeParts
  {
    TokensOfUnwords(words);
  }

  /** The same for any layout of the words: indentation, tabs, runs of
      blanks and trailing blanks make no difference. */
  lemma CommonCodeOnlyLayout(lead: string, words: seq<string>, seps: seq<string>, syntax: LanguageSyntax)
    requires IsLayout(lead, words, seps)
    ensures IsCommonCodeOnly(lead + Spread(words, seps), syntax) <==>
      forall i :: 0 <= i < |words| ==> words[i] in syntax.commonCodeParts
  {
    TokensOfLayout(lead, words, seps);
  }

  /** A blank line has no tokens, so it is ignored. */
  lemma BlankLineIgnored(text: string, syntax: LanguageSyntax)
    requires IsBlank(text)
    ensures IsIgnored(text, syntax)
  {
    TokensEmptyIffBlank(text);
  }

  /** A line of one common word is ignored. */
  lemma CommonWordIgnored(w: string, syntax: LanguageSyntax)
    requires IsWord(w) && w in syntax.commonCodeParts
    ensures IsIgnored(w, syntax)
  {
    WordTokens(w);
  }

  /** A line of one word that is neither common nor a comment is compared. */
  lemma UncommonWordLineComparable(w: string, syntax: LanguageSyntax)
    requires IsWord(w) && w !in syntax.commonCodeParts
    requires !IsCommentLine(w, syntax)
    ensures !IsIgnored(w, syntax)
  {
    WordTokens(w);
    FirstTokenNotCommon(w, syntax);
  }

  /** A line of common words only is ignored. */
  lemma CommonWordsIgnored(words: seq<string>, syntax: LanguageSyntax)
    requires forall i :: 0 <= i < |words| ==> IsWord(words[i]) && words[i] in syntax.commonCodeParts
    ensures IsIgnored(Unwords(words), syntax)
  {
    CommonCodeOnlyWords(words, syntax);
  }

  /** A line of words, one of them not common and the line not a comment,
      takes part in duplicate detection. */
  lemma UncommonWordComparable(words: seq<string>, syntax: LanguageSyntax, k: nat)
    requires forall i :: 0 <= i < |words| ==> IsWord(words[i])
    requires k < |words| && words[k] !in syntax.commonCodeParts
    requires !IsCommentLine(Unwords(words), syntax)
    ensures !IsIgnored(Unwords(words), syntax)
  {
    CommonCodeOnlyWords(words, syntax);
  }

  /** A line that starts with one of the delimiters is ignored. */
  lemma DelimitedLineIgnored(text: string, syntax: LanguageSyntax, i: nat)
    requires text == [] || !IsWhitespace(text[0])
    requires i < |syntax.commentDelimiters| && syntax.commentDelimiters[i] <= text
    ensures IsIgnored(text, syntax)
  {
    CommentIsPrefixOnly(text, syntax);
  }

  /** A line that starts with none of the delimiters is not a comment. */
  lemma UndelimitedLineNotComment(text: string, syntax: LanguageSyntax)
    requires text == [] || !IsWhitespace(text[0])
    requires forall i :: 0 <= i < |syntax.commentDelimiters| ==> !(syntax.commentDelimiters[i] <= text)
    ensures !IsCommentLine(text, syntax)
  {
    CommentIsPrefixOnly(text, syntax);
  }

  /** Two common words separated by a space make an ignored line. */
  lemma CommonPairIgnored(a: string, b: string, syntax: LanguageSyntax)
    requires IsWord(a) && IsWord(b)
    requires a in syntax.commonCodeParts && b in syntax.commonCodeParts
    ensures IsIgnored(a + " " + b, syntax)
  {
    assert Unwords([a, b]) == a + " " + b;
    CommonWordsIgnored([a, b], syntax);
  }

  lemma FirstTokenNotCommon(text: string, syntax: LanguageSyntax)
    requires Tokens(text) != [] && Tokens(text)[0] !in syntax.commonCodeParts
    ensures !IsCommonCodeOnly(text, syntax)
  {
  }

  /** A line whose first word is not common, and which is not a comment,
      takes part in duplicate detection whatever follows the first space. */
  lemma UncommonLeadComparable(w: string, rest: string, syntax: LanguageSyntax)
    requires IsWord(w) && w !in syntax.commonCodeParts
    requires !IsCommentLine(w + " " + rest, syntax)
    ensures !IsIgnored(w + " " + rest, syntax)
  {
    var line := w + (" " + rest);
    assert line == w + " " + rest;
    FirstToken(w, " " + rest);
    FirstTokenNotCommon(line, syntax);
  }

  /** A line of two words whose second is not common, and which is not a
      comment, takes part in duplicate detection. */
  lemma UncommonSecondComparable(a: string, b: string, syntax: LanguageSyntax)
    requires IsWord(a) && IsWord(b) && b !in syntax.commonCodeParts
    requires !IsCommentLine(a + " " + b, syntax)
    ensures !IsIgnored(a + " " + b, syntax)
  {
    assert Unwords([a, b]) == a + " " + b;
    UncommonWordComparable([a, b], syntax, 1);
  }
}
