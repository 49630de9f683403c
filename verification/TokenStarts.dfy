// Where tokens start, read off the characters of the text.

module TokenStarts {
  import opened Tokens

  predicate IsSymbol(c: char) {
    c == '"' || c == '/' || c == '*'
  }

  // The first character takes the second into its token.
  predicate Binds(a: char, b: char) {
    (a == '\'' && b == '"') || (a == '/' && (b == '/' || b == '*')) || (a == '*' && b == '/')
  }

  // How many characters in a row before position i would bind the next one
  function Bound(s: string, i: nat): nat
    requires i < |s|
  {
    if i > 0 && Binds(s[i - 1], s[i]) then 1 + Bound(s, i - 1) else 0
  }

  // The symbol at position i is not taken by what stands before it.
  predicate Own(s: string, i: nat)
    requires i < |s|
  {
    if s[i] == '"' && i > 0 && s[i - 1] == '\\' then PairsAtEnd(s[..i + 1]) % 2 == 0
    else Bound(s, i) % 2 == 0 && (Bound(s, i) == 0 ==> PairsAtEnd(s[..i]) % 2 == 0)
  }

  // A token starts at position i, counting tokens from position p.
  ghost predicate StartsFrom(s: string, p: nat, i: nat)
    requires p <= |s|
    decreases |s| - p
  {
    p == i || (p < i && p < |s| && StartsFrom(s, p + TokenLength(s[p..]), i))
  }

  // What holds wherever a token starts, the end of the text aside
  ghost predicate Clean(s: string, p: nat)
    requires p <= |s|
  {
    && (p < |s| ==> PairsAtEnd(s[..p]) % 2 == 0 && Bound(s, p) % 2 == 0)
    && (0 < p < |s| && s[p - 1] == '\\' && s[p] == '"' ==> PairsAtEnd(s[..p + 1]) % 2 == 0)
  }

  lemma CleanIsOwn(s: string, p: nat)
    requires p < |s| && Clean(s, p)
    ensures Own(s, p)
  {
  }

  lemma PairsStep(s: string, p: nat)
    requires p < |s|
    ensures PairsAtEnd(s[..p + 1])
         == if p > 0 && s[p - 1] == '\\' && s[p] == '"' then 1 + PairsAtEnd(s[..p - 1]) else 0
  {
    if p > 0 { assert s[..p + 1][..p - 1] == s[..p - 1]; }
  }

  // The kinds of token
  lemma RunInside(s: string, p: nat, k: Run)
    requires p < |s|
    requires match k
             case Space => IsSpace(s[p])
             case Word => IsAlpha(s[p]) || s[p] == '_'
             case Number => IsDigit(s[p])
    ensures var q := p + TokenLength(s[p..]);
      p < q <= |s| && forall i :: p <= i < q ==> InRun(k, s[i])
  {
    var n := TokenLength(s[p..]);
    assert s[p..][0] == s[p];
    forall i | p <= i < p + n ensures InRun(k, s[i]) { assert s[i] == s[p..][i - p]; }
  }

  lemma SymbolAt(s: string, p: nat)
    requires p < |s|
    ensures var n := SymbolLength(s[p..]);
      p + n <= |s| && (n == 2 <==> p + 1 < |s| && Binds(s[p], s[p + 1]))
  {
    if p + 1 < |s| { assert s[p..][0] == s[p] && s[p..][1] == s[p + 1]; }
  }

  lemma OtherLength(s: string, p: nat)
    requires p < |s| && !IsSpace(s[p]) && !InWord(s[p])
    ensures var pair := p + 1 < |s| && s[p] == '\\' && s[p + 1] == '"';
      TokenLength(s[p..])
        == if !pair then SymbolLength(s[p..]) else if p + 2 == |s| then 2 else 2 + SymbolLength(s[p + 2..])
  {
    hide SymbolLength;
    assert s[p..][0] == s[p] && (p + 1 < |s| ==> s[p..][1] == s[p + 1]);
    if p + 2 < |s| { assert s[p..][2..] == s[p + 2..]; }
  }

  // After a symbol that nothing binds, nothing binds what follows; within it, the first
  // character binds the second.
  lemma BoundStep(s: string, g: nat)
    requires g < |s| && Bound(s, g) % 2 == 0
    ensures var n := SymbolLength(s[g..]);
      && g + n <= |s|
      && (g + n < |s| ==> Bound(s, g + n) % 2 == 0)
      && (n == 2 ==> Bound(s, g + 1) % 2 == 1 && s[g] != '\\')
      && (n == 1 && g + 1 < |s| ==> !Binds(s[g], s[g + 1]))
  {
    hide SymbolLength;
    SymbolAt(s, g);
  }

  lemma RunStep(s: string, p: nat, k: Run)
    requires p < |s| && Clean(s, p)
    requires match k
             case Space => IsSpace(s[p])
             case Word => IsAlpha(s[p]) || s[p] == '_'
             case Number => IsDigit(s[p])
    ensures var q := p + TokenLength(s[p..]);
      && p < q <= |s| && Clean(s, q)
      && forall i :: p <= i < q ==> !IsSymbol(s[i])
  {
    hide TokenLength, PairsAtEnd;
    RunInside(s, p, k);
    var q := p + TokenLength(s[p..]);
    assert InRun(k, s[q - 1]);
    PairsStep(s, q - 1);
  }

  lemma SymbolStep(s: string, p: nat)
    requires p < |s| && Clean(s, p) && !IsSpace(s[p]) && !InWord(s[p])
    requires !(p + 1 < |s| && s[p] == '\\' && s[p + 1] == '"')
    ensures var q := p + TokenLength(s[p..]);
      && p < q <= |s| && Clean(s, q)
      && forall i :: p < i < q ==> IsSymbol(s[i]) ==> !Own(s, i)
  {
    hide TokenLength, SymbolLength, PairsAtEnd;
    OtherLength(s, p);
    BoundStep(s, p);
    SymbolAt(s, p);
    var q := p + TokenLength(s[p..]);
    PairsStep(s, p);
    PairsStep(s, q - 1);
  }

  lemma PairStep(s: string, p: nat)
    requires p + 1 < |s| && Clean(s, p) && s[p] == '\\' && s[p + 1] == '"'
    ensures var q := p + TokenLength(s[p..]);
      && p < q <= |s| && Clean(s, q)
      && forall i :: p < i < q ==> IsSymbol(s[i]) ==> !Own(s, i)
  {
    hide TokenLength, SymbolLength, PairsAtEnd, Bound;
    OtherLength(s, p);
    PairsStep(s, p + 1);
    if p + 2 < |s| {
      BoundAfterQuote(s, p + 2);
      BoundStep(s, p + 2);
      GluedClean(s, p + 2);
    }
  }

  lemma BoundAfterQuote(s: string, g: nat)
    requires 0 < g < |s| && s[g - 1] == '"'
    ensures Bound(s, g) == 0
  {
  }

  // The symbol that the reader takes along with an escaped quote
  lemma GluedClean(s: string, g: nat)
    requires 2 <= g < |s| && s[g - 1] == '"' && Bound(s, g) == 0 && PairsAtEnd(s[..g]) % 2 == 1
    ensures g + SymbolLength(s[g..]) <= |s| && Clean(s, g + SymbolLength(s[g..]))
  {
    hide SymbolLength, PairsAtEnd, Bound;
    BoundStep(s, g);
    SymbolAt(s, g);
    var q := g + SymbolLength(s[g..]);
    PairsStep(s, g);
    PairsStep(s, q - 1);
    if q < |s| { PairsStep(s, q); }
  }

  // One token: it leaves the text clean, and holds no symbol of its own past its start.
  lemma TokenStep(s: string, p: nat)
    requires p < |s| && Clean(s, p)
    ensures var q := p + TokenLength(s[p..]);
      && p < q <= |s| && Clean(s, q)
      && forall i :: p < i < q ==> IsSymbol(s[i]) ==> !Own(s, i)
  {
    hide TokenLength, Clean, Own, PairsAtEnd, Bound;
    if IsSpace(s[p]) {
      RunStep(s, p, Space);
    } else if IsAlpha(s[p]) || s[p] == '_' {
      RunStep(s, p, Word);
    } else if IsDigit(s[p]) {
      RunStep(s, p, Number);
    } else if p + 1 < |s| && s[p] == '\\' && s[p + 1] == '"' {
      PairStep(s, p);
    } else {
      SymbolStep(s, p);
    }
  }

  lemma CleanStart(s: string)
    ensures Clean(s, 0)
  {
  }

  // ---- runs

  // What the character at a position is part of: a run, or a token that is not one
  datatype Part = Of(run: Run) | Single

  // The character that the reader takes along with an escaped double quote before it
  predicate Glued(s: string, i: nat)
    requires i < |s|
  {
    PairsAtEnd(s[..i]) % 2 == 1
  }

  function PartAt(s: string, i: nat): Part
    requires i < |s|
    decreases i, 1
  {
    if Continues(s, i) then PartAt(s, i - 1)
    else if Glued(s, i) then Single
    else if IsSpace(s[i]) then Of(Space)
    else if IsAlpha(s[i]) || s[i] == '_' then Of(Word)
    else if IsDigit(s[i]) then Of(Number)
    else Single
  }

  // The run that the character before is part of goes on.
  predicate Continues(s: string, i: nat)
    requires i < |s|
    decreases i, 0
  {
    i > 0 && PartAt(s, i - 1).Of? && InRun(PartAt(s, i - 1).run, s[i])
  }

  // A token starts at position i.
  predicate Starts(s: string, i: nat)
    requires i < |s|
  {
    !Continues(s, i) && !Glued(s, i) && (IsSymbol(s[i]) ==> Own(s, i))
  }

  lemma CleanStarts(s: string, p: nat)
    requires p < |s| && Clean(s, p) && !Continues(s, p)
    ensures Starts(s, p)
  {
    hide PairsAtEnd, Bound, PartAt, Continues;
    CleanIsOwn(s, p);
  }

  lemma {:induction false} RunParts(s: string, p: nat, q: nat, k: Run)
    requires p < q <= |s| && PartAt(s, p) == Of(k) && forall i :: p <= i < q ==> InRun(k, s[i])
    ensures PartAt(s, q - 1) == Of(k) && forall i :: p < i < q ==> Continues(s, i)
  {
    if p + 1 < q { RunParts(s, p, q - 1, k); }
  }

  // The next token starts right after a run.
  lemma RunEnds(s: string, p: nat, k: Run)
    requires p < |s| && Clean(s, p) && !Continues(s, p)
    requires match k
             case Space => IsSpace(s[p])
             case Word => IsAlpha(s[p]) || s[p] == '_'
             case Number => IsDigit(s[p])
    ensures var q := p + TokenLength(s[p..]);
      && p < q <= |s| && (q < |s| ==> !Continues(s, q))
      && forall i :: p < i < q ==> !Starts(s, i)
  {
    hide PairsAtEnd, Own, Bound;
    RunInside(s, p, k);
    RunMaximal(s, p, k);
    hide TokenLength;
    assert PartAt(s, p) == Of(k);
    RunParts(s, p, p + TokenLength(s[p..]), k);
  }

  lemma RunMaximal(s: string, p: nat, k: Run)
    requires p < |s|
    requires match k
             case Space => IsSpace(s[p])
             case Word => IsAlpha(s[p]) || s[p] == '_'
             case Number => IsDigit(s[p])
    ensures var q := p + TokenLength(s[p..]);
      q < |s| ==> !InRun(k, s[q])
  {
    var n := TokenLength(s[p..]);
    assert s[p..][0] == s[p] && (p + n < |s| ==> s[p..][n] == s[p + n]);
  }

  // A symbol of two characters, or any other single character, is part of no run.
  lemma SymbolParts(s: string, g: nat)
    requires g < |s| && PartAt(s, g) == Single
    ensures var q := g + SymbolLength(s[g..]);
      q <= |s| && PartAt(s, q - 1) == Single && (q < |s| ==> !Continues(s, q))
  {
    hide SymbolLength, Glued;
    SymbolAt(s, g);
  }

  lemma OtherEnds(s: string, p: nat)
    requires p < |s| && Clean(s, p) && !Continues(s, p) && !IsSpace(s[p]) && !InWord(s[p])
    ensures var q := p + TokenLength(s[p..]);
      && p < q <= |s| && (q < |s| ==> !Continues(s, q))
      && forall i :: p < i < q ==> !Starts(s, i)
  {
    hide TokenLength, SymbolLength, PairsAtEnd, Own, Clean, Glued;
    assert PartAt(s, p) == Single;
    OtherLength(s, p);
    TokenStep(s, p);
    SymbolAt(s, p);
    SymbolParts(s, p);
    if p + 1 < |s| && s[p] == '\\' && s[p + 1] == '"' { PairParts(s, p); }
  }

  lemma PairParts(s: string, p: nat)
    requires p + 1 < |s| && Clean(s, p) && PartAt(s, p) == Single && s[p] == '\\' && s[p + 1] == '"'
    ensures var q := p + TokenLength(s[p..]);
      && p < q <= |s| && (q < |s| ==> !Continues(s, q))
      && forall i :: p < i < q ==> !Starts(s, i)
  {
    hide TokenLength, SymbolLength, PairsAtEnd, Own;
    OtherLength(s, p);
    TokenStep(s, p);
    PairsStep(s, p + 1);
    assert PartAt(s, p + 1) == Single;
    if p + 2 < |s| {
      assert Glued(s, p + 2) && PartAt(s, p + 2) == Single;
      hide Glued, PartAt;
      SymbolAt(s, p + 2);
      SymbolParts(s, p + 2);
    }
  }

  // One token: past its start, no token starts before it ends, and there one does.
  lemma NextStart(s: string, p: nat)
    requires p < |s| && Clean(s, p) && !Continues(s, p)
    ensures var q := p + TokenLength(s[p..]);
      && p < q <= |s| && Clean(s, q) && (q < |s| ==> !Continues(s, q))
      && forall i :: p < i < q ==> !Starts(s, i)
  {
    hide TokenLength, Clean, Starts, Continues;
    TokenStep(s, p);
    if IsSpace(s[p]) {
      RunEnds(s, p, Space);
    } else if IsAlpha(s[p]) || s[p] == '_' {
      RunEnds(s, p, Word);
    } else if IsDigit(s[p]) {
      RunEnds(s, p, Number);
    } else {
      OtherEnds(s, p);
    }
  }

  lemma {:induction false} StartsExactly(s: string, p: nat, i: nat)
    requires p <= i < |s| && Clean(s, p) && !Continues(s, p)
    ensures StartsFrom(s, p, i) <==> Starts(s, i)
    decreases i - p
  {
    hide TokenLength, Clean, Starts, Continues;
    if p == i {
      CleanStarts(s, p);
    } else {
      NextStart(s, p);
      var q := p + TokenLength(s[p..]);
      if q <= i { StartsExactly(s, q, i); } else { NotPast(s, q, i); }
    }
  }

  lemma {:induction false} NotPast(s: string, q: nat, i: nat)
    requires i < q <= |s|
    ensures !StartsFrom(s, q, i)
  {
  }

  // ---- tokens of the whole text

  lemma StartOfTokens(s: string, i: nat)
    requires i < |s|
    ensures StartsFrom(s, 0, i) <==> Starts(s, i)
  {
    CleanStart(s);
    StartsExactly(s, 0, i);
  }

  // A double quote, slash or star starts a token exactly when it is its own.
  lemma SymbolTokens(s: string, i: nat)
    requires i < |s| && IsSymbol(s[i])
    ensures StartsFrom(s, 0, i) <==> Own(s, i)
  {
    hide PartAt, StartsFrom, Own, Glued;
    StartOfTokens(s, i);
    if Own(s, i) { OwnNotGlued(s, i); }
  }

  lemma OwnNotGlued(s: string, i: nat)
    requires i < |s| && IsSymbol(s[i]) && Own(s, i)
    ensures !Glued(s, i)
  {
    if i > 0 { PairsStep(s, i - 1); }
  }

  // The word at position i is a token of its own.
  predicate WordAt(s: string, i: nat, word: string) {
    && i + |word| <= |s| && s[i..i + |word|] == word != ""
    && Starts(s, i)
    && (i + |word| < |s| ==> !InWord(s[i + |word|]))
  }

  predicate IsWord(w: string) {
    w != "" && !IsDigit(w[0]) && forall i :: 0 <= i < |w| ==> InWord(w[i])
  }

  lemma WordToken(s: string, i: nat, word: string)
    requires i < |s| && IsWord(word)
    ensures Token(s[i..]) == word
       <==> i + |word| <= |s| && s[i..i + |word|] == word && (i + |word| < |s| ==> !InWord(s[i + |word|]))
  {
    var r, n := s[i..], |word|;
    assert r[0] == s[i] && (i + n <= |s| ==> r[..n] == s[i..i + n]) && (i + n < |s| ==> r[n] == s[i + n]);
    if Token(r) == word {
      assert Token(r)[0] == r[0];
    } else if i + n <= |s| && s[i..i + n] == word && (i + n < |s| ==> !InWord(s[i + n])) {
      assert word[0] == r[0] && forall k :: 0 <= k < n ==> r[k] == word[k];
      SpanIs(Word, r, n);
    }
  }

  // Which words the reader yields, and where: also one glued to a number before it, never
  // part of a longer word, nor with its first letter taken along with an escaped quote.
  lemma WordTokens(s: string, i: nat, word: string)
    requires i < |s| && IsWord(word)
    ensures StartsFrom(s, 0, i) && Token(s[i..]) == word <==> WordAt(s, i, word)
  {
    hide Token, Starts;
    StartOfTokens(s, i);
    WordToken(s, i, word);
  }
}
