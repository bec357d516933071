/** Text helpers used by the duplicate-line analyzer: whitespace, left trim,
    whitespace-delimited tokens, decimal rendering of line numbers and the
    comma-joined number list that appears in the duplicate message. */
module Strings {

  predicate IsWhitespace(c: char) {
    c == ' ' || c == '\t' || c == '\n' || c == '\r' || c == '\U{000B}' || c == '\U{000C}'
  }

  predicate HasNoWhitespace(s: string) {
    forall i :: 0 <= i < |s| ==> !IsWhitespace(s[i])
  }

  predicate IsBlank(s: string) {
    forall i :: 0 <= i < |s| ==> IsWhitespace(s[i])
  }

  /** `s` without its leading whitespace. */
  function TrimStart(s: string): (r: string)
    ensures |r| <= |s|
    ensures r == [] || !IsWhitespace(r[0])
  {
    if s != [] && IsWhitespace(s[0]) then TrimStart(s[1..]) else s
  }

  /** Trimming removes a blank prefix and keeps the rest as it was. */
  lemma {:induction false} TrimStartRemovesBlankPrefix(s: string)
    ensures s == s[..|s| - |TrimStart(s)|] + TrimStart(s)
    ensures IsBlank(s[..|s| - |TrimStart(s)|])
  {
    if s != [] && IsWhitespace(s[0]) {
      TrimStartRemovesBlankPrefix(s[1..]);
      var k := |s| - |TrimStart(s)|;
      assert s[1..][..k - 1] == s[1..k];
      assert s[..k] == [s[0]] + s[1..k];
    } else {
      assert s[..0] == [];
    }
  }

  /** End of the run of non-whitespace characters that starts at `i`. */
  function WordEnd(s: string, i: nat): (j: nat)
    requires i <= |s|
    ensures i <= j <= |s| && HasNoWhitespace(s[i..j])
    ensures j == |s| || IsWhitespace(s[j])
    decreases |s| - i
  {
    if i == |s| || IsWhitespace(s[i]) then i else WordEnd(s, i + 1)
  }

  /** The whitespace-delimited tokens of `s` from position `i` on. */
  function TokensFrom(s: string, i: nat): (ts: seq<string>)
    requires i <= |s|
    ensures forall t :: 0 <= t < |ts| ==> ts[t] != [] && HasNoWhitespace(ts[t])
    decreases |s| - i
  {
    if i == |s| then []
    else if IsWhitespace(s[i]) then TokensFrom(s, i + 1)
    else
      var j := WordEnd(s, i);
      [s[i..j]] + TokensFrom(s, j)
  }

  /** The whitespace-delimited tokens of `s`, left to right. */
  function Tokens(s: string): (ts: seq<string>)
    ensures forall t :: 0 <= t < |ts| ==> ts[t] != [] && HasNoWhitespace(ts[t])
  {
    TokensFrom(s, 0)
  }

  /** Words separated by single spaces: the shape of the test lines. */
  function Unwords(ws: seq<string>): string {
    if ws == [] then ""
    else if |ws| == 1 then ws[0]
    else ws[0] + " " + Unwords(ws[1..])
  }

  predicate IsWord(w: string) {
    w != [] && HasNoWhitespace(w)
  }

  /** A run of non-whitespace followed by whitespace or the end ends there. */
  lemma {:induction false} WordEndOfWord(w: string, rest: string, i: nat)
    requires HasNoWhitespace(w) && i <= |w|
    requires rest == [] || IsWhitespace(rest[0])
    ensures WordEnd(w + rest, i) == |w|
    decreases |w| - i
  {
    if i < |w| {
      assert (w + rest)[i] == w[i];
      WordEndOfWord(w, rest, i + 1);
    } else if rest != [] {
      assert (w + rest)[i] == rest[0];
    }
  }

  /** Positions inside `s` keep their word ends and tokens behind a prefix. */
  lemma {:induction false} WordEndAfterPrefix(p: string, s: string, i: nat)
    requires i <= |s|
    ensures WordEnd(p + s, |p| + i) == |p| + WordEnd(s, i)
    decreases |s| - i
  {
    if i < |s| {
      assert (p + s)[|p| + i] == s[i];
      WordEndAfterPrefix(p, s, i + 1);
    }
  }

  lemma {:induction false} TokensAfterPrefix(p: string, s: string, i: nat)
    requires i <= |s|
    ensures TokensFrom(p + s, |p| + i) == TokensFrom(s, i)
    decreases |s| - i
  {
    if i < |s| {
      assert (p + s)[|p| + i] == s[i];
      if IsWhitespace(s[i]) {
        TokensAfterPrefix(p, s, i + 1);
      } else {
        var j := WordEnd(s, i);
        WordEndAfterPrefix(p, s, i);
        assert (p + s)[|p| + i..|p| + j] == s[i..j];
        TokensAfterPrefix(p, s, j);
      }
    }
  }

  /** A single word is its own only token. */
  lemma WordTokens(w: string)
    requires IsWord(w)
    ensures Tokens(w) == [w]
  {
    FirstToken(w, []);
    assert w + [] == w;
  }

  /** A word followed by whitespace or nothing is the first token. */
  lemma FirstToken(w: string, rest: string)
    requires IsWord(w)
    requires rest == [] || IsWhitespace(rest[0])
    ensures Tokens(w + rest) == [w] + TokensFrom(w + rest, |w|)
  {
    WordEndOfWord(w, rest, 0);
    assert (w + rest)[0] == w[0];
    assert (w + rest)[0..|w|] == w;
  }

  /** A string made of whitespace only has no tokens, and conversely. */
  lemma {:induction false} TokensFromEmptyIffBlank(s: string, i: nat)
    requires i <= |s|
    ensures TokensFrom(s, i) == [] <==> IsBlank(s[i..])
    decreases |s| - i
  {
    if i < |s| {
      TokensFromEmptyIffBlank(s, i + 1);
      assert s[i..][0] == s[i];
      assert s[i..][1..] == s[i + 1..];
    }
  }

  lemma TokensEmptyIffBlank(s: string)
    ensures Tokens(s) == [] <==> IsBlank(s)
  {
    TokensFromEmptyIffBlank(s, 0);
    assert s[0..] == s;
  }

  /** Tokenizing words joined by single spaces gives the words back. */
  lemma {:induction false} TokensOfUnwords(ws: seq<string>)
    requires forall i :: 0 <= i < |ws| ==> IsWord(ws[i])
    ensures Tokens(Unwords(ws)) == ws
  {
    if ws == [] {
    } else if |ws| == 1 {
      var w := ws[0];
      FirstToken(w, "");
      assert w + "" == w;
    } else {
      var w, r := ws[0], Unwords(ws[1..]);
      var s := w + " " + r;
      assert s == w + (" " + r);
      FirstToken(w, " " + r);
      assert s[|w|] == ' ';
      assert s == (w + " ") + r;
      TokensAfterPrefix(w + " ", r, 0);
      TokensOfUnwords(ws[1..]);
    }
  }

  /** Each word followed by its own separator, in order. */
  function Spread(ws: seq<string>, seps: seq<string>): string
    requires |seps| == |ws|
  {
    if ws == [] then "" else ws[0] + seps[0] + Spread(ws[1..], seps[1..])
  }

  /**
   * `lead + Spread(ws, seps)` lays out the words `ws`: blank leading
   * whitespace, then each word followed by blank whitespace that is
   * non-empty between two words (tabs, runs and trailing blanks allowed).
   */
  predicate IsLayout(lead: string, ws: seq<string>, seps: seq<string>) {
    && IsBlank(lead)
    && |seps| == |ws|
    && (forall i :: 0 <= i < |ws| ==> IsWord(ws[i]))
    && (forall i :: 0 <= i < |seps| ==> IsBlank(seps[i]))
    && (forall i :: 0 <= i < |seps| - 1 ==> seps[i] != [])
  }

  /** Leading whitespace contributes no token. */
  lemma {:induction false} BlankSkipped(b: string, s: string, i: nat)
    requires IsBlank(b) && i <= |b|
    ensures TokensFrom(b + s, i) == TokensFrom(s, 0)
    decreases |b| - i
  {
    if i < |b| {
      assert (b + s)[i] == b[i];
      BlankSkipped(b, s, i + 1);
    } else {
      TokensAfterPrefix(b, s, 0);
    }
  }

  /** The tokens of a layout are exactly its words, in order. */
  lemma {:induction false} TokensOfLayout(lead: string, ws: seq<string>, seps: seq<string>)
    requires IsLayout(lead, ws, seps)
    ensures Tokens(lead + Spread(ws, seps)) == ws
    decreases |ws|
  {
    BlankSkipped(lead, Spread(ws, seps), 0);
    if ws == [] {
      TokensEmptyIffBlank("");
    } else {
      var w, sep, r := ws[0], seps[0], Spread(ws[1..], seps[1..]);
      assert Spread(ws, seps) == w + (sep + r);
      if |ws| > 1 {
        assert (sep + r)[0] == sep[0];
      } else {
        assert sep + r == sep;
      }
      FirstToken(w, sep + r);
      TokensAfterPrefix(w, sep + r, 0);
      assert IsLayout(sep, ws[1..], seps[1..]);
      TokensOfLayout(sep, ws[1..], seps[1..]);
    }
  }

  /** A layout with at least one word starts, after its lead, with a word. */
  lemma SpreadStartsWithWord(ws: seq<string>, seps: seq<string>)
    requires |seps| == |ws| && ws != [] && IsWord(ws[0])
    ensures Spread(ws, seps) != [] && !IsWhitespace(Spread(ws, seps)[0])
  {
    assert Spread(ws, seps) == ws[0] + (seps[0] + Spread(ws[1..], seps[1..]));
  }

  /** Every string is a layout, so `TokensOfLayout` determines `Tokens` everywhere. */
  lemma {:induction false} EveryStringIsALayout(s: string)
    returns (lead: string, ws: seq<string>, seps: seq<string>)
    ensures IsLayout(lead, ws, seps) && s == lead + Spread(ws, seps)
    decreases |s|
  {
    if s == [] {
      lead, ws, seps := [], [], [];
    } else if IsWhitespace(s[0]) {
      var l, w, p := EveryStringIsALayout(s[1..]);
      lead, ws, seps := [s[0]] + l, w, p;
      assert IsBlank(lead) by {
        forall i | 0 <= i < |lead| ensures IsWhitespace(lead[i]) {
          if i > 0 {
            assert lead[i] == l[i - 1];
          }
        }
      }
      assert s == [s[0]] + s[1..];
    } else {
      var j := WordEnd(s, 0);
      var w := s[..j];
      var l, rest, p := EveryStringIsALayout(s[j..]);
      if rest != [] {
        SpreadStartsWithWord(rest, p);
        assert s[j..][0] == s[j];
      }
      lead, ws, seps := [], [w] + rest, [l] + p;
      assert ws[1..] == rest && seps[1..] == p;
      assert IsLayout(lead, ws, seps);
      assert s == w + s[j..];
    }
  }

  // ---- decimal rendering of line numbers ----

  predicate IsDigit(c: char) {
    '0' <= c <= '9'
  }

  predicate IsDecimal(s: string) {
    forall i :: 0 <= i < |s| ==> IsDigit(s[i])
  }

  function DigitChar(d: nat): (c: char)
    requires d < 10
    ensures IsDigit(c)
  {
    (('0' as int) + d) as char
  }

  function DigitValue(c: char): (d: nat)
    requires IsDigit(c)
    ensures d < 10
  {
    (c as int) - ('0' as int)
  }

  /** The decimal text of `n`, as a template literal renders a number. */
  function NatToDecimal(n: nat): (s: string)
    ensures s != [] && IsDecimal(s)
    ensures |s| == 1 <==> n < 10
    ensures |s| == 1 || s[0] != '0'
  {
    if n < 10 then [DigitChar(n)] else NatToDecimal(n / 10) + [DigitChar(n % 10)]
  }

  function DecimalToNat(s: string): nat
    requires IsDecimal(s)
  {
    if s == [] then 0 else DecimalToNat(s[..|s| - 1]) * 10 + DigitValue(s[|s| - 1])
  }

  lemma {:induction false} DecimalRoundTrip(n: nat)
    ensures DecimalToNat(NatToDecimal(n)) == n
  {
    var s := NatToDecimal(n);
    if n < 10 {
      assert s[..0] == [];
    } else {
      DecimalRoundTrip(n / 10);
      assert s[..|s| - 1] == NatToDecimal(n / 10);
    }
  }

  lemma DecimalInjective(m: nat, n: nat)
    requires NatToDecimal(m) == NatToDecimal(n)
    ensures m == n
  {
    DecimalRoundTrip(m);
    DecimalRoundTrip(n);
  }

  /** The numbers of `ns` in decimal, joined by commas without spaces. */
  function JoinNumbers(ns: seq<nat>): (s: string)
    ensures s == [] <==> ns == []
  {
    if ns == [] then ""
    else if |ns| == 1 then NatToDecimal(ns[0])
    else NatToDecimal(ns[0]) + "," + JoinNumbers(ns[1..])
  }

  lemma CharOfConcat(a: string, b: string, k: int)
    ensures 0 <= k < |a| ==> (a + b)[k] == a[k]
    ensures |a| <= k < |a| + |b| ==> (a + b)[k] == b[k - |a|]
  {
  }

  /** Splitting at the first comma: two comma-free heads followed by
      tails that are empty or start with a comma are equal when the
      concatenations are. */
  lemma SplitAtComma(x: string, t: string, y: string, u: string)
    requires IsDecimal(x) && IsDecimal(y)
    requires t == [] || t[0] == ','
    requires u == [] || u[0] == ','
    requires x + t == y + u
    ensures x == y && t == u
  {
    if |x| < |y| {
      CharOfConcat(x, t, |x|);
      CharOfConcat(y, u, |x|);
      assert false;
    }
    if |y| < |x| {
      CharOfConcat(x, t, |y|);
      CharOfConcat(y, u, |y|);
      assert false;
    }
    assert x == (x + t)[..|x|] && y == (y + u)[..|y|];
    assert t == (x + t)[|x|..] && u == (y + u)[|y|..];
  }

  /** What follows the first number of a joined list: nothing, or a comma
      and the rest of the list. */
  function JoinTail(ns: seq<nat>): string
    requires ns != []
  {
    if |ns| == 1 then "" else "," + JoinNumbers(ns[1..])
  }

  lemma JoinNumbersSplit(ns: seq<nat>)
    requires ns != []
    ensures JoinNumbers(ns) == NatToDecimal(ns[0]) + JoinTail(ns)
    ensures JoinTail(ns) == [] || JoinTail(ns)[0] == ','
    ensures |ns| > 1 ==> JoinTail(ns)[1..] == JoinNumbers(ns[1..])
  {
    if |ns| > 1 {
      assert JoinTail(ns) == "," + JoinNumbers(ns[1..]);
    }
  }

  /** The joined list determines the numbers it was made from. */
  lemma {:induction false} JoinNumbersInjective(a: seq<nat>, b: seq<nat>)
    requires JoinNumbers(a) == JoinNumbers(b)
    ensures a == b
  {
    if a != [] && b != [] {
      JoinNumbersSplit(a);
      JoinNumbersSplit(b);
      SplitAtComma(NatToDecimal(a[0]), JoinTail(a), NatToDecimal(b[0]), JoinTail(b));
      DecimalInjective(a[0], b[0]);
      if |a| > 1 && |b| > 1 {
        JoinNumbersInjective(a[1..], b[1..]);
        assert a == [a[0]] + a[1..] && b == [b[0]] + b[1..];
      }
    }
  }
}
