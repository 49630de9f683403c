// What the counts of a trie mean: how often each prefix was inserted as a word, and how
// many inserted words go on beyond it.

module TrieCounts {
  // Words of 7-bit characters without the terminator
  predicate IsWord(w: string) {
    forall i :: 0 <= i < |w| ==> 0 < w[i] as int < 128
  }

  // The word goes on beyond the prefix.
  predicate GoesBeyond(w: string, p: string) {
    |p| < |w| && w[..|p|] == p
  }

  // How often the prefix was itself inserted
  function CountOf(words: seq<string>, p: string): nat {
    if words == [] then 0
    else CountOf(words[..|words| - 1], p) + if words[|words| - 1] == p then 1 else 0
  }

  // How many inserted words properly extend it
  function PassOf(words: seq<string>, p: string): nat {
    if words == [] then 0
    else PassOf(words[..|words| - 1], p) + if GoesBeyond(words[|words| - 1], p) then 1 else 0
  }

  // In numbers: how many times the word is among these, and at how many places stands one
  // that has the prefix and at least one character more.
  lemma {:induction false} CountsInNumbers(words: seq<string>, p: string)
    ensures CountOf(words, p) == multiset(words)[p]
    ensures PassOf(words, p) == |Extending(words, p)|
  {
    if words == [] {
      assert Extending(words, p) == {};
    } else {
      var n := |words| - 1;
      CountsInNumbers(words[..n], p);
      assert words == words[..n] + [words[n]];
      var less, more := Extending(words[..n], p), Extending(words, p);
      assert forall i :: i in less <==> i in more && i < n;
      if n in more { assert more == less + {n}; } else { assert more == less; }
    }
  }

  // The places of the words that properly extend the prefix
  function Extending(words: seq<string>, p: string): set<nat> {
    set i | 0 <= i < |words| && |words[i]| > |p| && forall k :: 0 <= k < |p| ==> words[i][k] == p[k]
  }

  // Some inserted word has the prefix.
  predicate Used(words: seq<string>, p: string) {
    exists i :: 0 <= i < |words| && |p| <= |words[i]| && words[i][..|p|] == p
  }

  lemma {:induction false} UnusedCountsNothing(words: seq<string>, p: string)
    requires !Used(words, p)
    ensures CountOf(words, p) == 0 && PassOf(words, p) == 0
  {
    if words != [] {
      var n := |words| - 1;
      assert words[n][..|words[n]|] == words[n];
      UnusedCountsNothing(words[..n], p);
    }
  }

  lemma OneMoreWord(words: seq<string>, w: string, p: string)
    ensures CountOf(words + [w], p) == CountOf(words, p) + if w == p then 1 else 0
    ensures PassOf(words + [w], p) == PassOf(words, p) + if GoesBeyond(w, p) then 1 else 0
    ensures Used(words + [w], p) <==> Used(words, p) || (|p| <= |w| && w[..|p|] == p)
  {
    var more := words + [w];
    assert more[..|words|] == words && more[|words|] == w;
    if Used(words, p) {
      var i :| 0 <= i < |words| && |p| <= |words[i]| && words[i][..|p|] == p;
      assert more[i] == words[i];
    }
  }

  lemma OneMoreForAll(words: seq<string>, w: string)
    ensures forall p :: CountOf(words + [w], p) == CountOf(words, p) + if w == p then 1 else 0
    ensures forall p :: PassOf(words + [w], p) == PassOf(words, p) + if GoesBeyond(w, p) then 1 else 0
    ensures forall p :: Used(words + [w], p) <==> Used(words, p) || (|p| <= |w| && w[..|p|] == p)
  {
    forall p
      ensures CountOf(words + [w], p) == CountOf(words, p) + if w == p then 1 else 0
      ensures PassOf(words + [w], p) == PassOf(words, p) + if GoesBeyond(w, p) then 1 else 0
      ensures Used(words + [w], p) <==> Used(words, p) || (|p| <= |w| && w[..|p|] == p)
    {
      OneMoreWord(words, w, p);
    }
  }

  // The non-empty words among these: inserting an empty one does nothing
  function NonEmpty(words: seq<string>): seq<string> {
    if words == [] then []
    else NonEmpty(words[..|words| - 1]) + if words[|words| - 1] == "" then [] else [words[|words| - 1]]
  }

  // The prefix one character longer
  function Ext(p: string, c: char): (q: string)
    ensures |q| == |p| + 1 && q[..|p|] == p && q[|p|] == c
  {
    p + [c]
  }

  lemma ExtIsPrefix(w: string, i: nat)
    requires i < |w|
    ensures Ext(w[..i], w[i]) == w[..i + 1]
  {
  }

  lemma ExtInjective(p: string, c: char, q: string, d: char)
    ensures Ext(p, c) == Ext(q, d) <==> p == q && c == d
  {
    if Ext(p, c) == Ext(q, d) {
      assert Ext(p, c)[..|p|] == Ext(q, d)[..|q|];
    }
  }

  // ---- an insertion under way

  // The pass count of p once `word` has been followed for its first i characters
  function PassWhile(words: seq<string>, word: string, i: nat, p: string): nat
    requires i <= |word|
  {
    PassOf(words, p) + if |p| < i && word[..|p|] == p then 1 else 0
  }

  // The prefixes that have nodes by then
  ghost predicate PrefixesOk(keys: set<string>, words: seq<string>, word: string, i: nat)
    requires i <= |word|
  {
    forall p :: p != "" ==> (p in keys <==> Used(words, p) || (|p| <= i && word[..|p|] == p))
  }

  lemma StartOfWord(keys: set<string>, words: seq<string>, word: string)
    requires PrefixesOk(keys, words, "", 0)
    ensures PrefixesOk(keys, words, word, 0)
    ensures forall p :: PassWhile(words, word, 0, p) == PassOf(words, p) == PassWhile(words, "", 0, p)
  {
  }

  // Following the word's next character: the node there passes it on, and the next prefix
  // has a node, with counts of zero if it is new.
  lemma NextOfWord(keys: set<string>, words: seq<string>, word: string, i: nat)
    requires i < |word| && PrefixesOk(keys, words, word, i)
    ensures forall p ::
      PassWhile(words, word, i + 1, p) == PassWhile(words, word, i, p) + if p == word[..i] then 1 else 0
    ensures PrefixesOk(keys + {word[..i + 1]}, words, word, i + 1)
    ensures word[..i + 1] !in keys ==>
      CountOf(words, word[..i + 1]) == 0 && PassWhile(words, word, i + 1, word[..i + 1]) == 0
  {
    hide CountOf, PassOf, Used;
    var next := word[..i + 1];
    if next !in keys { UnusedCountsNothing(words, next); }
    forall p
      ensures PassWhile(words, word, i + 1, p) == PassWhile(words, word, i, p) + if p == word[..i] then 1 else 0
    {
      PassesOn(words, word, i, p);
    }
    forall p | p != ""
      ensures p in keys + {next} <==> Used(words, p) || (|p| <= i + 1 && word[..|p|] == p)
    {
    }
  }

  lemma PassesOn(words: seq<string>, word: string, i: nat, p: string)
    requires i < |word|
    ensures PassWhile(words, word, i + 1, p) == PassWhile(words, word, i, p) + if p == word[..i] then 1 else 0
  {
    hide PassOf;
  }

  lemma EndOfWord(keys: set<string>, words: seq<string>, word: string)
    requires word != "" && PrefixesOk(keys, words, word, |word|)
    ensures PrefixesOk(keys, words + [word], "", 0)
    ensures forall p :: CountOf(words + [word], p) == CountOf(words, p) + if p == word then 1 else 0
    ensures forall p :: PassWhile(words + [word], "", 0, p) == PassWhile(words, word, |word|, p)
  {
    OneMoreForAll(words, word);
  }
}
