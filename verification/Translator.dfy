// The translator's reader and its copying loop. A program without extended keywords comes
// out as it went in, after the header line.

module TranslatorLoop {
  import opened TextModes
  import opened TokenStarts
  import opened Tokens

  const HEADER := "// Translated from an .exp source file.\n"

  // The indentation after a token: what follows the last newline of a blank stretch
  function Indented(indent: string, track: bool, tok: string): (string, bool) {
    if tok == "" then (indent, track)
    else
      var (i, t) := Indented(indent, track, tok[..|tok| - 1]);
      var c := tok[|tok| - 1];
      if c == '\n' then ("", true) else (if t then i + [c] else i, t)
  }

  // A blank stretch with a newline in it leaves exactly what stands after the newline.
  lemma {:induction false} IndentIsLineStart(indent: string, track: bool, before: string, blanks: string)
    requires '\n' !in blanks
    ensures Indented(indent, track, before + "\n" + blanks) == (blanks, true)
  {
    var tok := before + "\n" + blanks;
    if blanks == "" {
      assert tok[|tok| - 1] == '\n';
    } else {
      var less := blanks[..|blanks| - 1];
      assert tok[..|tok| - 1] == before + "\n" + less;
      IndentIsLineStart(indent, track, before, less);
      assert less + [blanks[|blanks| - 1]] == blanks;
    }
  }

  // One without a newline is added to the indentation, if that is being tracked.
  lemma {:induction false} IndentGoesOn(indent: string, track: bool, blanks: string)
    requires '\n' !in blanks
    ensures Indented(indent, track, blanks) == (if track then indent + blanks else indent, track)
  {
    if blanks != "" {
      var less := blanks[..|blanks| - 1];
      IndentGoesOn(indent, track, less);
      assert indent + blanks == indent + less + [blanks[|blanks| - 1]];
    } else {
      assert indent + "" == indent;
    }
  }

  class Translator {
    const text: string       // the input file
    var pos: nat
    var good: bool           // no read has failed yet
    var indent: string
    var trackIndent: bool
    var out: string          // the output file

    ghost predicate Valid()
      reads this`pos, this`good
    {
      pos <= |text| && (!good ==> pos == |text|)
    }

    constructor (text: string)
      ensures Valid() && this.text == text && pos == 0 && out == ""
    {
      this.text := text;
      pos, good, indent, trackIndent, out := 0, true, "", true, "";
    }

    method Get() returns (ch: char)
      requires Valid()
      modifies this`pos, this`good
      ensures Valid()
      ensures if old(pos) < |text| then good && pos == old(pos) + 1 && ch == text[old(pos)]
              else !good && ch == EOF_CHAR
    {
      if pos < |text| {
        ch := text[pos];
        pos := pos + 1;
      } else {
        good := false;
        ch := EOF_CHAR;
      }
    }

    // Nothing is put back once a read has failed.
    method PutBack(ch: char)
      requires Valid() && (good ==> pos > 0 && text[pos - 1] == ch)
      modifies this`pos
      ensures Valid() && pos == if good then old(pos) - 1 else old(pos)
    {
      if good { pos := pos - 1; }
    }

    // Where the reader stands when it has just got the character at position p
    ghost predicate Got(p: nat, ch: char)
      reads this`pos, this`good
    {
      if p < |text| then pos == p + 1 && ch == text[p]
      else !good && p == pos == |text| && ch == EOF_CHAR
    }

    // Reads on to the end of the run, the first character having been read.
    method ReadRun(k: Run, first: char, ghost start: nat) returns (tok: string)
      requires Valid() && good && start < |text| && Got(start, first) && InRun(k, first)
      modifies this`pos, this`good, this`indent, this`trackIndent
      ensures Valid() && start <= pos && tok == text[start..pos] && pos == start + Span(k, text[start..])
      ensures (indent, trackIndent) ==
        if k == Space then Indented(old(indent), old(trackIndent), tok) else (old(indent), old(trackIndent))
    {
      hide Span, Indented, InRun;
      var ch := first;
      tok := "";
      NoRunAtEnd(k);
      NoIndent(indent, trackIndent);
      while InRun(k, ch)
        invariant start + |tok| <= |text| && tok == text[start..start + |tok|]
        invariant Valid() && Got(start + |tok|, ch) && (start + |tok| < |text| ==> good)
        invariant forall i :: 0 <= i < |tok| ==> InRun(k, tok[i])
        invariant (indent, trackIndent) ==
          if k == Space then Indented(old(indent), old(trackIndent), tok) else (old(indent), old(trackIndent))
        decreases |text| - |tok|
      {
        IndentMore(old(indent), old(trackIndent), tok, ch);
        OneMore(text, start, |tok|);
        tok := tok + [ch];
        if k == Space {
          if ch == '\n' {
            indent, trackIndent := "", true;
          } else if trackIndent {
            indent := indent + [ch];
          }
        }
        ch := Get();
      }
      PutBack(ch);
      RunIsSpan(k, text, start, tok);
    }

    // The rest of a token that starts with the symbol ch at position p
    method ReadSymbol(ch: char, ghost p: nat) returns (tok: string)
      requires Valid() && Got(p, ch)
      modifies this`pos, this`good
      ensures Valid()
      ensures if p < |text| then pos == p + SymbolLength(text[p..]) && tok == text[p..pos]
              else pos == |text| && tok == [EOF_CHAR]
    {
      if ch == '\'' {
        var ch2 := Get();
        if ch2 == '"' { return [ch, ch2]; }
        PutBack(ch2);
      }
      if ch == '/' || ch == '*' {
        var ch2 := Get();
        if ch2 == '/' || (ch == '/' && ch2 == '*') { return [ch, ch2]; }
        PutBack(ch2);
      }
      tok := [ch];
    }

    method GetToken() returns (more: bool, tok: string)
      requires Valid()
      modifies this`pos, this`good, this`indent, this`trackIndent
      ensures Valid() && (more <==> old(pos) < |text|)
      ensures more ==> pos == old(pos) + TokenLength(text[old(pos)..]) && tok == Token(text[old(pos)..])
      ensures !more ==> pos == |text| && tok == ""
      ensures more ==> ((indent, trackIndent) ==
        if IsSpace(text[old(pos)]) then Indented(old(indent), old(trackIndent), tok) else (old(indent), false))
    {
      hide Span, Indented, TokenLength, Token;
      ghost var p := pos;
      var ch := Get();
      if !good { return false, ""; }
      if IsSpace(ch) {
        RunToken(text, p, Space);
        tok := ReadRun(Space, ch, p);
        return true, tok;
      }
      trackIndent := false;
      if IsAlpha(ch) || ch == '_' {
        RunToken(text, p, Word);
        tok := ReadRun(Word, ch, p);
        return true, tok;
      }
      if IsDigit(ch) {
        RunToken(text, p, Number);
        tok := ReadRun(Number, ch, p);
        return true, tok;
      }
      tok := ReadOther(ch, p);
      return true, tok;
    }

    // A token that is not a run
    method ReadOther(ch: char, ghost p: nat) returns (tok: string)
      requires Valid() && good && p < |text| && Got(p, ch) && !IsSpace(ch) && !InWord(ch)
      modifies this`pos, this`good
      ensures Valid() && pos == p + TokenLength(text[p..]) && tok == Token(text[p..])
    {
      hide SymbolLength, TokenLength, Token, IsSpace, InWord;
      SymbolToken(text, p);
      if ch == '\\' {
        var ch2 := Get();
        if ch2 == '"' {
          var ch3 := Get();
          var rest := ReadSymbol(ch3, p + 2);
          return [ch, ch2] + rest;
        }
        PutBack(ch2);
      }
      tok := ReadSymbol(ch, p);
    }

    // The reader stands where a token starts, with these characters emitted, or about to be.
    ghost predicate Copied(emitted: string, mode: Mode)
      reads this`pos
    {
      && Reached(text, pos, mode)
      && emitted + Joined(AllTokens(text[pos..])) == HEADER + Joined(AllTokens(text))
    }

    method Next(ghost mode: Mode) returns (more: bool, tok: string)
      requires Valid() && Copied(out, mode)
      modifies this`pos, this`good, this`indent, this`trackIndent
      ensures Valid() && (more <==> old(pos) < pos)
      ensures !more ==> pos == |text| && Copied(out, mode)
      ensures more && mode == Top && IsKeyword(tok) ==>
        FirstKeyword(text, old(pos), tok) && out == HEADER + text[..old(pos)]
      ensures more && !(mode == Top && IsKeyword(tok)) ==> Copied(out + tok, After(mode, tok))
    {
      hide AllTokens, Joined, Token, TokenLength, Indented, IsKeyword, After, Reached, FirstKeyword;
      ghost var p := pos;
      more, tok := GetToken();
      if more {
        NextToken(text, p);
        ReachedNext(text, p, mode);
        CopiedSoFar(text, p, mode, out);
        Regroup(out, tok, Joined(AllTokens(text[pos..])));
      }
    }

    method Copy(tok: string, ghost mode: Mode)
      requires Valid() && Copied(out + tok, mode)
      modifies this`out
      ensures Valid() && Copied(out, mode)
    {
      out := out + tok;
    }

    // The main loop: the whole text, from its beginning
    method Translate() returns (outcome: Outcome)
      requires Valid() && pos == 0 && out == ""
      modifies this
      ensures outcome == Ending(Top, AllTokens(text))
      ensures forall kw :: outcome == Extended(kw) <==> exists i :: FirstKeyword(text, i, kw)
      ensures outcome == Done <==> NoKeywordIn(text, 0, |text|) && ModeAt(text, |text|) == Top
      ensures !outcome.Extended? ==>
        out == "// Translated from an .exp source file.\n" + text
               + if PairsAtEnd(text) % 2 == 1 then [255 as char] else ""
      ensures outcome.Extended? ==> exists i ::
        0 <= i <= |text| && FirstKeyword(text, i, outcome.keyword) && out == HEADER + text[..i]
    {
      hide Ending, AllTokens, Joined, PairsAtEnd, Copied, ModeAt, NoKeywordIn, FirstKeyword;
      OpeningsAreNoKeywords();
      EndsInTop(text);
      out := out + HEADER;
      AtStart();
      while true
        invariant Valid() && Copied(out, Top)
        decreases |text| - pos
      {
        ghost var p := pos;
        var more, tok := Next(Top);
        if !more { break; }
        if tok == "//" || tok == "/*" || tok == "\"" {
          var closed := CopyThrough(tok, After(Top, tok));
          if !closed {
            CopyOfText(text, out);
            return Endless;
          }
        } else if IsKeyword(tok) {
          return Extended(tok);
        } else {
          Copy(tok, Top);
        }
      }
      AtEnd(Top);
      CopyOfText(text, out);
      return Done;
    }

    lemma AtStart()
      requires pos == 0 && out == HEADER
      ensures Copied(out, Top)
    {
      ReachedStart(text);
      assert text[0..] == text;
    }

    lemma AtEnd(mode: Mode)
      requires pos == |text| && Copied(out, mode)
      ensures out == HEADER + Joined(AllTokens(text))
      ensures Ending(Top, AllTokens(text)) == if mode == Top then Done else Endless
    {
      hide Ending;
      NoToken(text);
      EndsInTop(text);
      assert out + "" == out;
    }

    // Copies a comment or a string, its opening token having been read. The result is
    // false where the source copies nothing for ever, at the end of the text.
    method CopyThrough(opening: string, mode: Mode) returns (closed: bool)
      requires Valid() && mode != Top && Copied(out + opening, mode)
      modifies this
      ensures Valid() && pos >= old(pos)
      ensures closed ==> Copied(out, Top)
      ensures !closed ==> Ending(Top, AllTokens(text)) == Endless && out == HEADER + Joined(AllTokens(text))
    {
      hide Ending, AllTokens, Joined, Copied, After;
      Copy(opening, mode);
      var tok := opening;
      while true
        invariant Valid() && pos >= old(pos) && Copied(out, mode)
        decreases |text| - pos
      {
        var more;
        more, tok := Next(mode);
        if !more {
          AtEnd(mode);
          return false;
        }
        if After(mode, tok) == Top {
          Copy(tok, Top);
          return true;
        }
        AfterStays(mode, tok);
        Copy(tok, mode);
      }
    }
  }

  lemma Regroup(a: string, b: string, c: string)
    ensures a + (b + c) == a + b + c
  {
  }

  // A comment or a string goes on or is over.
  lemma AfterStays(mode: Mode, tok: string)
    requires mode != Top
    ensures After(mode, tok) == Top || After(mode, tok) == mode
  {
  }

  lemma NextToken(text: string, p: nat)
    requires p < |text|
    ensures var t, q := Token(text[p..]), p + TokenLength(text[p..]);
      && p < q <= |text|
      && Joined(AllTokens(text[p..])) == t + Joined(AllTokens(text[q..]))
  {
    hide Token, TokenLength;
    assert text[p..][TokenLength(text[p..])..] == text[p + TokenLength(text[p..])..];
  }

  lemma OpeningsAreNoKeywords()
    ensures !IsKeyword("//") && !IsKeyword("/*") && !IsKeyword("\"")
  {
  }

  lemma CopyOfText(text: string, out: string)
    requires out == HEADER + Joined(AllTokens(text))
    ensures out == HEADER + text + if PairsAtEnd(text) % 2 == 1 then [EOF_CHAR] else ""
  {
    hide AllTokens, Joined, PairsAtEnd;
    TokensJoin(text);
    var more := if PairsAtEnd(text) % 2 == 1 then [EOF_CHAR] else "";
    assert HEADER + (text + more) == HEADER + text + more;
  }

  lemma NoToken(text: string)
    ensures text[|text|..] == ""
    ensures Joined(AllTokens("")) == ""
  {
  }

  // Where a token starts, exactly the text before it has been emitted: the rest ends in as
  // many pairs as all of it, but for an even number.
  lemma CopiedSoFar(text: string, p: nat, mode: Mode, out: string)
    requires p < |text| && Reached(text, p, mode)
    requires out + Joined(AllTokens(text[p..])) == HEADER + Joined(AllTokens(text))
    ensures out == HEADER + text[..p]
  {
    hide *;
    TokensJoin(text);
    TokensJoin(text[p..]);
    ReachedIsClean(text, p, mode);
    RestParity(text, p);
    FrontOf(out, HEADER, text, p, if PairsAtEnd(text) % 2 == 1 then [EOF_CHAR] else "");
  }

  lemma ReachedIsClean(text: string, p: nat, mode: Mode)
    requires Reached(text, p, mode)
    ensures p <= |text| && Clean(text, p)
  {
    hide Clean;
  }

  lemma FrontOf(out: string, header: string, text: string, p: nat, more: string)
    requires p <= |text| && out + (text[p..] + more) == header + (text + more)
    ensures out == header + text[..p]
  {
    SameFront(out, header + text[..p], text[p..] + more);
    assert text == text[..p] + text[p..];
    assert header + (text + more) == header + text[..p] + (text[p..] + more);
  }

  lemma RestParity(text: string, p: nat)
    requires p < |text| && Clean(text, p)
    ensures PairsAtEnd(text[p..]) % 2 == PairsAtEnd(text) % 2
  {
    hide PairsAtEnd, Bound;
    if p > 0 {
      CutAt(text, p);
      PairsStep(text, p);
      PartParity(text[..p], text[p..]);
    } else {
      assert text[p..] == text;
    }
  }

  lemma PartParity(t: string, r: string)
    requires t != "" && r != "" && PairsAtEnd(t) % 2 == 0
    requires t[|t| - 1] == '\\' && r[0] == '"' ==> (1 + PairsAtEnd(t[..|t| - 1])) % 2 == 0
    ensures PairsAtEnd(r) % 2 == PairsAtEnd(t + r) % 2
  {
    hide *;
    PairsBefore(t, r);
    EvenAdded(PairsAtEnd(r), PairsAtEnd(t + r) - PairsAtEnd(r));
  }

  lemma EvenAdded(a: int, b: int)
    requires b % 2 == 0
    ensures a % 2 == (a + b) % 2
  {
  }

  lemma CutAt(s: string, p: nat)
    requires 0 < p < |s|
    ensures s == s[..p] + s[p..] && s[p..][0] == s[p]
    ensures s[..p][|s[..p]| - 1] == s[p - 1] && s[..p][..|s[..p]| - 1] == s[..p - 1]
  {
  }

  lemma SameFront(a: string, b: string, c: string)
    ensures a + c == b + c ==> a == b
  {
    if a + c == b + c {
      assert |a| == |b|;
      forall i | 0 <= i < |a| ensures a[i] == b[i] { assert (a + c)[i] == (b + c)[i]; }
    }
  }

  lemma RunToken(text: string, p: nat, k: Run)
    requires p < |text|
    requires match k
             case Space => IsSpace(text[p])
             case Word => IsAlpha(text[p]) || text[p] == '_'
             case Number => IsDigit(text[p])
    ensures TokenLength(text[p..]) == Span(k, text[p..])
    ensures Token(text[p..]) == text[p..p + Span(k, text[p..])]
  {
    hide Span;
    assert text[p..][0] == text[p];
  }

  lemma SymbolToken(text: string, p: nat)
    requires p < |text| && !IsSpace(text[p]) && !InWord(text[p])
    ensures var pair := p + 1 < |text| && text[p] == '\\' && text[p + 1] == '"';
      && (!pair ==> TokenLength(text[p..]) == SymbolLength(text[p..]))
      && (!pair ==> Token(text[p..]) == text[p..p + SymbolLength(text[p..])])
      && (pair && p + 2 == |text| ==> TokenLength(text[p..]) == 2 && Token(text[p..]) == "\\\"" + [EOF_CHAR])
      && (pair && p + 2 < |text| ==> TokenLength(text[p..]) == 2 + SymbolLength(text[p + 2..]))
      && (pair && p + 2 < |text| ==>
            Token(text[p..]) == "\\\"" + text[p + 2..p + 2 + SymbolLength(text[p + 2..])])
  {
    hide SymbolLength, Span;
    assert text[p..][0] == text[p] && (p + 1 < |text| ==> text[p..][1] == text[p + 1]);
    if p + 2 < |text| {
      var n := SymbolLength(text[p + 2..]);
      assert text[p..][2..] == text[p + 2..];
      assert text[p..][..2 + n] == text[p..][..2] + text[p + 2..][..n];
    }
  }

  lemma OneMore(s: string, i: nat, n: nat)
    requires i + n < |s|
    ensures s[i..i + n] + [s[i + n]] == s[i..i + n + 1]
  {
  }

  lemma RunIsSpan(k: Run, s: string, i: nat, tok: string)
    requires i + |tok| <= |s| && tok == s[i..i + |tok|] && forall j :: 0 <= j < |tok| ==> InRun(k, tok[j])
    requires i + |tok| < |s| ==> !InRun(k, s[i + |tok|])
    ensures Span(k, s[i..]) == |tok|
  {
    hide InRun, Span;
    var r := s[i..];
    forall j | 0 <= j < |tok| ensures InRun(k, r[j]) { assert r[j] == tok[j]; }
    SpanIs(k, r, |tok|);
  }

  lemma NoRunAtEnd(k: Run)
    ensures !InRun(k, EOF_CHAR)
  {
  }

  lemma NoIndent(indent: string, track: bool)
    ensures Indented(indent, track, "") == (indent, track)
  {
  }

  lemma IndentMore(indent: string, track: bool, tok: string, c: char)
    ensures Indented(indent, track, tok + [c]) ==
      var (i, t) := Indented(indent, track, tok);
      if c == '\n' then ("", true) else (if t then i + [c] else i, t)
  {
    assert (tok + [c])[..|tok|] == tok;
  }
}
