// How the copying loop ends, read off the characters of the text: what each character is
// read as, and where a keyword stops the loop.

module TextModes {
  import opened TokenStarts
  import opened Tokens

  predicate IsKeyword(tok: string) {
    tok == "foreach" || tok == "cases" || tok == "repeat" || tok == "until" || tok == "typeof"
  }

  // What the loop is in the middle of
  datatype Mode = Top | LineComment | BlockComment | Quoted

  // How the loop ends: at the end of the text, at a keyword that a routine of its own takes
  // over from, or never, because a comment or a string is not closed.
  datatype Outcome = Done | Extended(keyword: string) | Endless

  function After(mode: Mode, tok: string): Mode {
    match mode
    case Top =>
      if tok == "//" then LineComment else if tok == "/*" then BlockComment
      else if tok == "\"" then Quoted else Top
    case LineComment => if '\n' in tok then Top else LineComment
    case BlockComment => if tok == "*/" then Top else BlockComment
    case Quoted => if tok == "\"" then Top else Quoted
  }

  function Ending(mode: Mode, ts: seq<string>): Outcome
    decreases |ts|
  {
    if ts == [] then if mode == Top then Done else Endless
    else if mode == Top && IsKeyword(ts[0]) then Extended(ts[0])
    else Ending(After(mode, ts[0]), ts[1..])
  }

  // ---- modes

  predicate Opens(s: string, i: nat, c: char) {
    i + 1 < |s| && s[i] == '/' && s[i + 1] == c && Own(s, i)
  }

  predicate StarSlash(s: string, i: nat) {
    i + 1 < |s| && s[i] == '*' && s[i + 1] == '/' && Own(s, i)
  }

  predicate QuoteAt(s: string, i: nat) {
    i < |s| && s[i] == '"' && Own(s, i)
  }

  // The character at position i closes the comment or string.
  predicate Closes(s: string, i: nat, mode: Mode)
    requires i < |s|
  {
    match mode
    case Top => false
    case LineComment => s[i] == '\n'
    case BlockComment => StarSlash(s, i)
    case Quoted => QuoteAt(s, i)
  }

  function Switch(s: string, i: nat, mode: Mode): Mode
    requires i < |s|
  {
    if mode != Top then if Closes(s, i, mode) then Top else mode
    else if Opens(s, i, '/') then LineComment
    else if Opens(s, i, '*') then BlockComment
    else if QuoteAt(s, i) then Quoted
    else Top
  }

  // What the character at position i is read as, those from position p on being read in
  // this mode
  function ModeFrom(s: string, p: nat, i: nat, mode: Mode): Mode
    requires p <= i <= |s|
  {
    if i == p then mode else Switch(s, i - 1, ModeFrom(s, p, i - 1, mode))
  }

  function ModeAt(s: string, i: nat): Mode
    requires i <= |s|
  {
    ModeFrom(s, 0, i, Top)
  }

  lemma {:induction false} ModeFromParts(s: string, p: nat, q: nat, i: nat, mode: Mode)
    requires p <= q <= i <= |s|
    ensures ModeFrom(s, p, i, mode) == ModeFrom(s, q, i, ModeFrom(s, p, q, mode))
  {
    hide Switch;
    if q < i { ModeFromParts(s, p, q, i - 1, mode); }
  }

  // A stretch without symbols of its own changes the mode only by ending a line.
  lemma {:induction false} QuietStretch(s: string, p: nat, q: nat, mode: Mode)
    requires p <= q <= |s|
    requires forall i :: p <= i < q ==> IsSymbol(s[i]) ==> !Own(s, i)
    ensures ModeFrom(s, p, q, mode) == if mode == LineComment && '\n' in s[p..q] then Top else mode
  {
    hide Own;
    if p < q {
      QuietStretch(s, p, q - 1, mode);
      assert s[p..q] == s[p..q - 1] + [s[q - 1]];
    }
  }

  // Which texts the loop's symbols are the first tokens of
  lemma SymbolsRead(s: string, p: nat)
    requires p < |s|
    ensures var t := Token(s[p..]);
      && (t == "\"" <==> s[p] == '"')
      && (t == "//" <==> p + 1 < |s| && s[p] == '/' && s[p + 1] == '/')
      && (t == "/*" <==> p + 1 < |s| && s[p] == '/' && s[p + 1] == '*')
      && (t == "*/" <==> p + 1 < |s| && s[p] == '*' && s[p + 1] == '/')
  {
    TokenText(s, p);
    hide TokenLength, Token, SymbolLength;
    if !IsSpace(s[p]) && !InWord(s[p]) {
      OtherLength(s, p);
      SymbolAt(s, p);
    }
  }

  lemma TokenText(s: string, p: nat)
    requires p < |s|
    ensures var t, q := Token(s[p..]), p + TokenLength(s[p..]);
      && q <= |s| && t != "" && t[0] == s[p]
      && (t == s[p..q] || (q == p + 2 == |s| && s[p..] == "\\\"" && t == "\\\"" + [EOF_CHAR]))
      && ('\n' in t <==> '\n' in s[p..q])
  {
    hide TokenLength;
    assert s[p..][0] == s[p];
    assert s[p..][..TokenLength(s[p..])] == s[p..p + TokenLength(s[p..])];
    if s[p..] == "\\\"" { PairLength(); }
  }

  lemma PairLength()
    ensures TokenLength("\\\"") == 2
  {
  }

  // One token changes the mode as the loop does.
  lemma TokenModes(s: string, p: nat, mode: Mode)
    requires p < |s| && Clean(s, p)
    ensures var q := p + TokenLength(s[p..]);
      q <= |s| && ModeFrom(s, p, q, mode) == After(mode, Token(s[p..]))
  {
    hide Own, Clean, PairsAtEnd, TokenLength, Token, Bound;
    TokenStep(s, p);
    CleanIsOwn(s, p);
    SymbolsRead(s, p);
    TokenText(s, p);
    var q := p + TokenLength(s[p..]);
    ModeFromParts(s, p, p + 1, q, mode);
    QuietStretch(s, p + 1, q, Switch(s, p, mode));
    assert s[p..q] == [s[p]] + s[p + 1..q];
    assert ModeFrom(s, p, p, mode) == mode;
  }

  // ---- how the loop ends

  // A keyword stands here as a token of its own, outside comments and strings.
  predicate KeywordAt(s: string, i: nat, kw: string) {
    IsKeyword(kw) && WordAt(s, i, kw) && ModeAt(s, i) == Top
  }

  ghost predicate NoKeywordIn(s: string, p: nat, q: nat) {
    forall j, k :: p <= j < q ==> !KeywordAt(s, j, k)
  }

  // It is the first to stand in the text.
  ghost predicate FirstKeyword(s: string, i: nat, kw: string) {
    KeywordAt(s, i, kw) && NoKeywordIn(s, 0, i)
  }

  lemma KeywordIsWord(kw: string)
    requires IsKeyword(kw)
    ensures IsWord(kw)
  {
  }

  // Where a token starts, a keyword stands exactly if that token is one.
  lemma KeywordToken(s: string, p: nat, kw: string)
    requires p < |s| && Clean(s, p) && !Continues(s, p)
    ensures KeywordAt(s, p, kw) <==> ModeAt(s, p) == Top && IsKeyword(kw) && Token(s[p..]) == kw
  {
    hide Token, Clean, Continues, ModeFrom, IsKeyword, Starts, IsWord;
    if IsKeyword(kw) {
      KeywordIsWord(kw);
      CleanStarts(s, p);
      WordToken(s, p, kw);
    }
  }

  // Only one keyword can stand at one position.
  lemma OneKeyword(s: string, i: nat, a: string, b: string)
    requires KeywordAt(s, i, a) && KeywordAt(s, i, b)
    ensures a == b
  {
    hide IsKeyword, Starts, ModeFrom;
    KeywordIsWord(a);
    KeywordIsWord(b);
    forall k | 0 <= k < |a| ensures a[k] == s[i + k] { assert a[k] == s[i..i + |a|][k]; }
    forall k | 0 <= k < |b| ensures b[k] == s[i + k] { assert b[k] == s[i..i + |b|][k]; }
  }

  lemma KeywordInside(s: string, i: nat, kw: string)
    requires KeywordAt(s, i, kw)
    ensures i < |s|
  {
  }

  // A text that is one word stops the loop exactly if it is one of the five keywords.
  lemma OneWord(w: string)
    requires IsWord(w)
    ensures Ending(Top, AllTokens(w))
         == if w in ["foreach", "cases", "repeat", "until", "typeof"] then Extended(w) else Done
  {
    hide Token, TokenLength;
    WordLength(w);
    assert w[0..] == w && w[0..0 + |w|] == w;
    WordToken(w, 0, w);
    var five := ["foreach", "cases", "repeat", "until", "typeof"];
    assert five[0] == "foreach" && five[1] == "cases" && five[2] == "repeat" && five[3] == "until";
    assert AllTokens("") == [] && AllTokens(w) == [w];
    assert Ending(Top, [w]) == if IsKeyword(w) then Extended(w) else Ending(After(Top, w), []);
  }

  lemma WordLength(w: string)
    requires IsWord(w)
    ensures w != "" && TokenLength(w) == |w| && w[|w|..] == ""
  {
    SpanIs(Word, w, |w|);
  }

  // The loop has come to position p: a token starts there, and no keyword stopped it before.
  ghost predicate Reached(s: string, p: nat, mode: Mode) {
    && p <= |s| && Clean(s, p) && (p < |s| ==> !Continues(s, p))
    && ModeAt(s, p) == mode && NoKeywordIn(s, 0, p)
  }

  lemma ReachedStart(s: string)
    ensures Reached(s, 0, Top)
  {
    CleanStart(s);
  }

  // One token: it is the first keyword, or the loop comes to the position after it.
  lemma ReachedNext(s: string, p: nat, mode: Mode)
    requires p < |s| && Reached(s, p, mode)
    ensures var t, q := Token(s[p..]), p + TokenLength(s[p..]);
      && q <= |s|
      && if mode == Top && IsKeyword(t) then FirstKeyword(s, p, t) else Reached(s, q, After(mode, t))
  {
    hide TokenLength, Token, Clean, IsKeyword, ModeFrom, After, Continues, KeywordAt;
    TokenModes(s, p, mode);
    var t, q := Token(s[p..]), p + TokenLength(s[p..]);
    ModeFromParts(s, 0, p, q, Top);
    if mode == Top && IsKeyword(t) {
      KeywordToken(s, p, t);
    } else {
      NextStart(s, p);
      NoKeywordHere(s, p, q);
    }
  }

  lemma NoKeywordHere(s: string, p: nat, q: nat)
    requires p < q <= |s| && Clean(s, p) && !Continues(s, p) && forall i :: p < i < q ==> !Starts(s, i)
    requires !(ModeAt(s, p) == Top && IsKeyword(Token(s[p..])))
    ensures NoKeywordIn(s, p, q)
  {
    hide Token, Clean, Continues, ModeFrom, IsKeyword, Starts;
    forall j, k | p <= j < q ensures !KeywordAt(s, j, k) {
      if j == p { KeywordToken(s, p, k); }
    }
  }

  lemma {:induction false} EndingFrom(s: string, p: nat, mode: Mode)
    requires Reached(s, p, mode)
    ensures match Ending(mode, AllTokens(s[p..]))
      case Extended(kw) => exists i :: FirstKeyword(s, i, kw)
      case Done => Reached(s, |s|, Top)
      case Endless => exists m :: m != Top && Reached(s, |s|, m)
    decreases |s| - p
  {
    hide TokenLength, Token, IsKeyword, After, Reached, FirstKeyword;
    LengthOfReached(s, p, mode);
    if p == |s| {
      assert s[p..] == "";
    } else {
      ReachedNext(s, p, mode);
      var t, q := Token(s[p..]), p + TokenLength(s[p..]);
      assert AllTokens(s[p..]) == [t] + AllTokens(s[q..]) by { assert s[p..][TokenLength(s[p..])..] == s[q..]; }
      if mode == Top && IsKeyword(t) {
        assert Ending(mode, AllTokens(s[p..])) == Extended(t);
        assert FirstKeyword(s, p, t);
      } else {
        EndingFrom(s, q, After(mode, t));
        assert Ending(mode, AllTokens(s[p..])) == Ending(After(mode, t), AllTokens(s[q..]));
      }
    }
  }

  lemma LengthOfReached(s: string, p: nat, mode: Mode)
    requires Reached(s, p, mode)
    ensures p <= |s|
  {
  }

  // The loop stops at the first such keyword; without any it ends exactly if the
  // last character leaves no comment or string open.
  lemma EndsInTop(s: string)
    ensures var o := Ending(Top, AllTokens(s));
      && (forall kw :: o == Extended(kw) <==> exists i :: FirstKeyword(s, i, kw))
      && (o == Done <==> NoKeywordIn(s, 0, |s|) && ModeAt(s, |s|) == Top)
      && (o == Endless <==> NoKeywordIn(s, 0, |s|) && ModeAt(s, |s|) != Top)
  {
    hide Ending, AllTokens, KeywordAt;
    ReachedStart(s);
    EndingFrom(s, 0, Top);
    assert s[0..] == s;
    var o := Ending(Top, AllTokens(s));
    if o.Extended? {
      var i :| FirstKeyword(s, i, o.keyword);
      KeywordInside(s, i, o.keyword);
      forall j, kw | FirstKeyword(s, j, kw) ensures kw == o.keyword {
        assert i == j;
        OneKeyword(s, i, kw, o.keyword);
      }
    } else {
      forall j, kw ensures !FirstKeyword(s, j, kw) { if KeywordAt(s, j, kw) { KeywordInside(s, j, kw); } }
    }
  }

  // A comment or string is over exactly where something closes it.
  lemma {:induction false} StaysOpen(s: string, i: nat, k: nat)
    requires i <= k <= |s| && ModeAt(s, i) != Top
    ensures (forall m :: i <= m <= k ==> ModeAt(s, m) == ModeAt(s, i))
       <==> (forall j :: i <= j < k ==> !Closes(s, j, ModeAt(s, i)))
  {
    hide Closes;
    if i < k {
      StaysOpen(s, i, k - 1);
      assert ModeAt(s, k) == Switch(s, k - 1, ModeAt(s, k - 1));
    }
  }

  // So a comment or string that nothing closes leaves the loop without an end, unless a
  // keyword stands before it.
  lemma Unclosed(s: string, i: nat)
    requires i <= |s| && ModeAt(s, i) != Top
    requires forall j :: i <= j < |s| ==> !Closes(s, j, ModeAt(s, i))
    ensures Ending(Top, AllTokens(s)) == Endless <==> NoKeywordIn(s, 0, i)
  {
    hide Ending, AllTokens, KeywordAt, ModeFrom, Closes;
    EndsInTop(s);
    StaysOpen(s, i, |s|);
    forall j, k | i <= j < |s| ensures !KeywordAt(s, j, k) {
      StaysOpen(s, i, j);
      NotInTop(s, j, k);
    }
  }

  lemma NotInTop(s: string, j: nat, k: string)
    requires j <= |s| && ModeAt(s, j) != Top
    ensures !KeywordAt(s, j, k)
  {
  }

  // A line comment without a newline, a block comment without a star and slash, a string
  // without another double quote
  lemma UnclosedComment(s: string, i: nat)
    requires i < |s| && ModeAt(s, i) == Top
    requires || (Opens(s, i, '/') && '\n' !in s[i..])
             || (Opens(s, i, '*') && forall j :: i < j < |s| - 1 ==> !(s[j] == '*' && s[j + 1] == '/'))
             || (QuoteAt(s, i) && '"' !in s[i + 1..])
    ensures Ending(Top, AllTokens(s)) == Endless <==> NoKeywordIn(s, 0, i)
  {
    hide Ending, AllTokens, Own, KeywordAt;
    assert ModeAt(s, i + 1) == Switch(s, i, Top);
    var mode := ModeAt(s, i + 1);
    forall j | i < j < |s| ensures !Closes(s, j, mode) {
      assert s[j] == s[i..][j - i] == s[i + 1..][j - i - 1];
    }
    Unclosed(s, i + 1);
    forall k ensures !KeywordAt(s, i, k) { NoSymbolInKeyword(s, i, k); }
  }

  lemma NoSymbolInKeyword(s: string, i: nat, k: string)
    requires i < |s| && IsSymbol(s[i])
    ensures !KeywordAt(s, i, k)
  {
    hide Starts, ModeFrom;
    if IsKeyword(k) && i + |k| <= |s| {
      KeywordIsWord(k);
      assert s[i..i + |k|][0] == s[i];
    }
  }

  // ---- strings

  // The double quote after this body of a string is a token of its own.
  predicate ClosesString(body: string) {
    body == "" ||
    (var last := body[|body| - 1];
     last != '\'' && PairsAtEnd(if last == '\\' then body + "\"" else body) % 2 == 0)
  }

  // Exactly after such a body does a double quote close the string that another opened.
  lemma ClosingQuote(s: string, i: nat, j: nat)
    requires i < j < |s| && QuoteAt(s, i) && s[j] == '"'
    ensures QuoteAt(s, j) <==> ClosesString(s[i + 1..j])
  {
    hide PairsAtEnd, Bound;
    var body := s[i + 1..j];
    OpeningParity(s, i, body);
    OpeningParity(s, i, body + "\"");
    assert s[..j] == s[..i + 1] + body;
    assert s[..j + 1] == s[..i + 1] + (body + "\"");
    BoundOfQuote(s, j);
    if body != "" { assert s[j - 1] == body[|body| - 1]; }
  }

  lemma OpeningParity(s: string, i: nat, r: string)
    requires QuoteAt(s, i)
    ensures PairsAtEnd(s[..i + 1] + r) % 2 == PairsAtEnd(r) % 2
  {
    hide PairsAtEnd, Bound;
    PairsStep(s, i);
    ParityAfterQuote(s[..i + 1], r);
  }

  lemma ParityAfterQuote(t: string, r: string)
    requires t != "" && t[|t| - 1] == '"' && PairsAtEnd(t) % 2 == 0
    ensures PairsAtEnd(t + r) % 2 == PairsAtEnd(r) % 2
  {
    hide PairsAtEnd;
    PairsBefore(t, r);
  }

  lemma BoundOfQuote(s: string, j: nat)
    requires 0 < j < |s| && s[j] == '"'
    ensures Bound(s, j) == if s[j - 1] == '\'' then 1 else 0
  {
  }

  // Without a double quote in the body: unless it ends in a backslash or an apostrophe
  lemma PlainBody(body: string)
    requires '"' !in body
    ensures ClosesString(body) <==> body == "" || body[|body| - 1] !in {'\\', '\''}
  {
    if body != "" {
      var n := |body| - 1;
      assert body[n] in body && (n > 0 ==> body[n - 1] in body);
      assert (body + "\"")[..n] == body[..n] && PairsAtEnd(body[..n]) == 0;
    }
  }

  // A text that is one string, no double quote in it closing it before the last
  lemma LoneString(body: string)
    requires forall m :: 0 <= m < |body| && body[m] == '"' ==> !ClosesString(body[..m])
    ensures Ending(Top, AllTokens("\"" + body + "\"")) == if ClosesString(body) then Done else Endless
  {
    hide Ending, AllTokens, PairsAtEnd, ClosesString, Bound;
    var s := "\"" + body + "\"";
    var n := |s| - 1;
    OpeningQuote(s);
    forall j | 1 <= j < n ensures !QuoteAt(s, j) {
      if s[j] == '"' {
        assert s[1..j] == body[..j - 1];
        ClosingQuote(s, 0, j);
      }
    }
    assert s[1..n] == body;
    ClosingQuote(s, 0, n);
    StaysOpen(s, 1, n);
    assert ModeAt(s, n + 1) == Switch(s, n, ModeAt(s, n));
    EndsInTop(s);
    OnlyTheString(s);
  }

  lemma OpeningQuote(s: string)
    requires s != "" && s[0] == '"'
    ensures QuoteAt(s, 0) && ModeAt(s, 1) == Quoted
  {
    assert ModeAt(s, 1) == Switch(s, 0, ModeAt(s, 0));
  }

  // Inside a string no keyword is one.
  lemma OnlyTheString(s: string)
    requires s != "" && s[0] == '"' && ModeAt(s, 1) == Quoted
    requires forall j :: 1 <= j < |s| - 1 ==> !QuoteAt(s, j)
    ensures NoKeywordIn(s, 0, |s|)
  {
    hide KeywordAt, ModeFrom, Own;
    forall i, k | 0 <= i < |s| ensures !KeywordAt(s, i, k) {
      if i == 0 {
        NoSymbolInKeyword(s, 0, k);
      } else {
        StaysOpen(s, 1, i);
        NotInTop(s, i, k);
      }
    }
  }

  // Three closed strings that the loop does not see closed: one that ends in an escaped
  // double quote, one that is an apostrophe, and one that is an escaped backslash.
  lemma ClosedStringsNotSeen()
    ensures Ending(Top, AllTokens("\"" + "\\\"" + "\"")) == Endless
    ensures Ending(Top, AllTokens("\"" + "'" + "\"")) == Endless
    ensures Ending(Top, AllTokens("\"" + "\\\\" + "\"")) == Endless
  {
    hide Ending, AllTokens;
    OnePair();
    assert "\\\""[..1] == "\\" && "\\" + "\"" == "\\\"";
    assert !ClosesString("\\") && !ClosesString("\\\"");
    PlainBody("'");
    PlainBody("\\\\");
    LoneString("\\\"");
    LoneString("'");
    LoneString("\\\\");
  }
}
