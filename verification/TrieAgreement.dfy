// The two layouts agree: after the same insertions, both say of every non-empty prefix how
// often it was inserted and how many inserted words go on beyond it.

module TrieAgreement {
  import opened TrieCounts
  import ArrayTrie
  import ListTrie

  lemma ArrayCounts(trie: ArrayTrie.Trie, p: string)
    requires trie.Valid() && p != ""
    ensures trie.Counts(p) == (CountOf(trie.words, p), PassOf(trie.words, p))
  {
    hide Used, CountOf, PassOf;
    if p !in trie.at { UnusedCountsNothing(trie.words, p); }
  }

  lemma ListCounts(trie: ListTrie.Trie, p: string)
    requires trie.Valid() && p != ""
    ensures trie.Counts(p) == (CountOf(trie.words, p), PassOf(trie.words, p))
  {
    hide Used, CountOf, PassOf;
    if p !in trie.at { UnusedCountsNothing(trie.words, p); }
  }

  lemma SameCounts(a: ArrayTrie.Trie, l: ListTrie.Trie)
    requires a.Valid() && l.Valid() && a.words == l.words
    ensures forall p :: p != "" ==>
      a.Counts(p) == l.Counts(p) == (CountOf(a.words, p), PassOf(a.words, p))
  {
    hide *;
    forall p | p != ""
      ensures a.Counts(p) == l.Counts(p) == (CountOf(a.words, p), PassOf(a.words, p))
    {
      ArrayCounts(a, p);
      ListCounts(l, p);
    }
  }

  // Any run of insertions into both
  method InsertAll(words: seq<string>) returns (a: ArrayTrie.Trie, l: ListTrie.Trie)
    requires forall i :: 0 <= i < |words| ==> IsWord(words[i])
    ensures forall p :: p != "" ==>
      a.Counts(p) == l.Counts(p) == (CountOf(words, p), PassOf(words, p))
  {
    hide *;
    a := new ArrayTrie.Trie();
    l := new ListTrie.Trie();
    NoWordsYet(words);
    for i := 0 to |words|
      invariant a.Valid() && l.Valid()
      invariant a.words == l.words == NonEmpty(words[..i])
      invariant fresh(a) && fresh(l) && fresh(l.root) && fresh(a.at.Values) && fresh(l.at.Values)
    {
      NonEmptyNext(words, i);
      a.Insert(words[i]);
      l.Insert(words[i]);
    }
    assert words[..|words|] == words;
    SameCounts(a, l);
    forall p | p != ""
      ensures CountOf(NonEmpty(words), p) == CountOf(words, p) && PassOf(NonEmpty(words), p) == PassOf(words, p)
    {
      EmptyWordsCountNothing(words, p);
    }
  }

  lemma NonEmptyNext(words: seq<string>, i: nat)
    requires i < |words|
    ensures NonEmpty(words[..i + 1]) == NonEmpty(words[..i]) + if words[i] == "" then [] else [words[i]]
  {
    assert words[..i + 1][..i] == words[..i];
  }

  lemma {:induction false} EmptyWordsCountNothing(words: seq<string>, p: string)
    requires p != ""
    ensures CountOf(NonEmpty(words), p) == CountOf(words, p)
    ensures PassOf(NonEmpty(words), p) == PassOf(words, p)
  {
    if words != [] {
      var init, last := words[..|words| - 1], words[|words| - 1];
      EmptyWordsCountNothing(init, p);
      if last == "" {
        assert NonEmpty(words) == NonEmpty(init);
      } else {
        assert NonEmpty(words) == NonEmpty(init) + [last];
        OneMoreWord(NonEmpty(init), last, p);
      }
    }
  }

  lemma NoWordsYet(words: seq<string>)
    ensures NonEmpty(words[..0]) == []
  {
  }
}
