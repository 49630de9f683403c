// The token reader of the translator: what one token takes from the text, and when the
// tokens put together are the text again.

module Tokens {
  // What get() yields at the end of the text, as a char
  const EOF_CHAR: char := 255 as char

  predicate IsSpace(c: char) {
    c == ' ' || '\t' <= c <= '\r'
  }

  predicate IsDigit(c: char) {
    '0' <= c <= '9'
  }

  predicate IsAlpha(c: char) {
    'a' <= c <= 'z' || 'A' <= c <= 'Z'
  }

  predicate InWord(c: char) {
    IsAlpha(c) || IsDigit(c) || c == '_'
  }

  predicate InNumber(c: char) {
    IsDigit(c) || c == '.' || c == 'e' || c == 'E' || c == '-' || c == '+'
  }

  lemma DigitsAre(c: char)
    ensures IsDigit(c) <==> c in "0123456789"
  {
    var ds := "0123456789";
    forall i | 0 <= i < 10 ensures ds[i] as int == 48 + i { DigitIs(i); }
    if IsDigit(c) { assert ds[c as int - 48] == c; }
  }

  lemma DigitIs(i: nat)
    requires i < 10
    ensures "0123456789"[i] as int == 48 + i
  {
    var ds := "0123456789";
    assert ds[0] == '0' && ds[1] == '1' && ds[2] == '2' && ds[3] == '3' && ds[4] == '4';
    assert ds[5] == '5' && ds[6] == '6' && ds[7] == '7' && ds[8] == '8' && ds[9] == '9';
  }

  // The kinds of run that make one token
  datatype Run = Space | Word | Number

  predicate InRun(k: Run, c: char) {
    match k
    case Space => IsSpace(c)
    case Word => InWord(c)
    case Number => InNumber(c)
  }

  // The classes of characters, one by one, and the letters as ranges of codes
  lemma CharacterClasses(c: char)
    ensures InRun(Space, c) == IsSpace(c) == (c as int in {9, 10, 11, 12, 13, 32})
    ensures IsDigit(c) <==> c in "0123456789"
    ensures IsAlpha(c) <==> 65 <= c as int <= 90 || 97 <= c as int <= 122
    ensures InRun(Word, c) == InWord(c) == (IsAlpha(c) || c in "_0123456789")
    ensures InRun(Number, c) <==> c in "0123456789.eE+-"
  {
    DigitsAre(c);
    assert "_0123456789" == "_" + "0123456789" && "0123456789.eE+-" == "0123456789" + ".eE+-";
  }

  // How many characters from the first on belong to the run
  function Span(k: Run, s: string): (n: nat)
    ensures n <= |s|
    ensures forall i :: 0 <= i < n ==> InRun(k, s[i])
    ensures n < |s| ==> !InRun(k, s[n])
  {
    if s == "" || !InRun(k, s[0]) then 0 else 1 + Span(k, s[1..])
  }

  lemma SpanIs(k: Run, s: string, n: nat)
    requires n <= |s| && forall i :: 0 <= i < n ==> InRun(k, s[i])
    requires n < |s| ==> !InRun(k, s[n])
    ensures Span(k, s) == n
  {
  }

  // A backslash and a double quote
  predicate StartsWithPair(s: string) {
    |s| >= 2 && s[0] == '\\' && s[1] == '"'
  }

  // A quoted double quote, a comment symbol, or a single character
  function SymbolLength(s: string): (n: nat)
    requires s != ""
    ensures 1 <= n <= |s| && n <= 2
  {
    if |s| == 1 then 1
    else if s[0] == '\'' && s[1] == '"' then 2
    else if s[0] == '/' && (s[1] == '/' || s[1] == '*') then 2
    else if s[0] == '*' && s[1] == '/' then 2
    else 1
  }

  // How much of the text the next token takes. After a backslash and a double quote the
  // reader goes on with whatever comes next, as if the token had just begun.
  function TokenLength(s: string): (n: nat)
    requires s != ""
    ensures 1 <= n <= |s|
  {
    if IsSpace(s[0]) then Span(Space, s)
    else if IsAlpha(s[0]) || s[0] == '_' then Span(Word, s)
    else if IsDigit(s[0]) then Span(Number, s)
    else if StartsWithPair(s) then 2 + if |s| == 2 then 0 else SymbolLength(s[2..])
    else SymbolLength(s)
  }

  // The token itself: past a pair at the very end, what get() yields there is appended.
  function Token(s: string): string
    requires s != ""
  {
    s[..TokenLength(s)] + if s == "\\\"" then [EOF_CHAR] else ""
  }

  function AllTokens(s: string): seq<string> {
    if s == "" then [] else [Token(s)] + AllTokens(s[TokenLength(s)..])
  }

  function Joined(ts: seq<string>): string {
    if ts == [] then "" else ts[0] + Joined(ts[1..])
  }

  // How many times in a row the text ends in a backslash and a double quote
  function PairsAtEnd(s: string): (k: nat)
    ensures 2 * k <= |s|
  {
    if |s| >= 2 && s[|s| - 2] == '\\' && s[|s| - 1] == '"' then 1 + PairsAtEnd(s[..|s| - 2]) else 0
  }

  // What comes before the pairs at the end of the rest decides how many more there are.
  lemma {:induction false} PairsBefore(t: string, r: string)
    ensures PairsAtEnd(t + r) == PairsAtEnd(r)
      + if 2 * PairsAtEnd(r) == |r| then PairsAtEnd(t)
        else if 2 * PairsAtEnd(r) + 1 == |r| && r[0] == '"' && t != "" && t[|t| - 1] == '\\'
          then 1 + PairsAtEnd(t[..|t| - 1])
        else 0
  {
    var s := t + r;
    if |r| >= 2 && r[|r| - 2] == '\\' && r[|r| - 1] == '"' {
      assert s[..|s| - 2] == t + r[..|r| - 2];
      PairsBefore(t, r[..|r| - 2]);
    } else if |r| == 0 {
      assert s == t;
    } else if |r| == 1 && t != "" {
      assert s[..|s| - 2] == t[..|t| - 1];
    }
  }

  // How a token that leaves something behind can end
  lemma TokenEnds(s: string)
    requires s != "" && TokenLength(s) < |s|
    ensures var n := TokenLength(s);
      && (n >= 2 && s[n - 1] == '"' ==> s[n - 2] != '\\')
      && (s[n - 1] == '\\' ==> if StartsWithPair(s) then n == 3 else n == 1)
  {
    var n := TokenLength(s);
    var k := if IsSpace(s[0]) then Space else if IsDigit(s[0]) then Number else Word;
    if InRun(k, s[0]) {
      assert n == Span(k, s) && InRun(k, s[n - 1]);
    } else if StartsWithPair(s) {
      assert n == 2 + SymbolLength(s[2..]);
      assert s[2..][0] == s[2];
    }
  }

  // Taking a token off the front changes the number of pairs at the end by an even number,
  // as long as something is left.
  lemma TokenKeepsParity(s: string)
    requires s != "" && TokenLength(s) < |s|
    ensures PairsAtEnd(s[TokenLength(s)..]) % 2 == PairsAtEnd(s) % 2
  {
    hide TokenLength, PairsAtEnd;
    var n := TokenLength(s);
    TokenEnds(s);
    assert s == s[..n] + s[n..];
    FrontKeepsParity(s[..n], s[n..]);
  }

  lemma FrontKeepsParity(t: string, r: string)
    requires t != "" && r != ""
    requires |t| >= 2 && t[|t| - 1] == '"' ==> t[|t| - 2] != '\\'
    requires t[|t| - 1] == '\\' ==> if StartsWithPair(t + r) then |t| == 3 else |t| == 1
    ensures PairsAtEnd(r) % 2 == PairsAtEnd(t + r) % 2
  {
    hide PairsAtEnd;
    PairsBefore(t, r);
    NotAPair(t);
    if t[|t| - 1] == '\\' && |t| == 3 {
      assert t[..2] == "\\\"" by { assert (t + r)[0] == t[0] && (t + r)[1] == t[1]; }
      OnePair();
    }
  }

  lemma NotAPair(t: string)
    requires |t| >= 2 && t[|t| - 1] == '"' ==> t[|t| - 2] != '\\'
    ensures PairsAtEnd(t) == 0
  {
  }

  lemma OnePair()
    ensures PairsAtEnd("\\\"") == 1
  {
    assert PairsAtEnd("\\\"") == 1 + PairsAtEnd("");
  }

  // The tokens put together are the text again, unless the pairs at its end are odd in
  // number: then one character is emitted that the text does not have.
  lemma {:induction false} TokensJoin(s: string)
    ensures Joined(AllTokens(s)) == s + if PairsAtEnd(s) % 2 == 1 then [EOF_CHAR] else ""
  {
    if s != "" {
      var n := TokenLength(s);
      TokensJoin(s[n..]);
      if n < |s| {
        TokenKeepsParity(s);
      } else {
        WholeToken(s);
      }
      assert s == s[..n] + s[n..];
    }
  }

  // A token that takes all of the text
  lemma WholeToken(s: string)
    requires s != "" && TokenLength(s) == |s|
    ensures PairsAtEnd(s) == if s == "\\\"" then 1 else 0
  {
    var k := if IsSpace(s[0]) then Space else if IsDigit(s[0]) then Number else Word;
    if InRun(k, s[0]) {
      assert InRun(k, s[|s| - 1]);
    } else if StartsWithPair(s) {
      assert |s| > 2 ==> s[2..][0] == s[2];
      if |s| == 2 {
        assert PairsAtEnd(s) == 1 + PairsAtEnd("");
      }
    }
  }
}
