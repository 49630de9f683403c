// The trie whose nodes have one slot for each of 256 characters.

module ArrayTrie {
  import opened TrieCounts

  const TREE_WIDTH := 256

  class Node {
    var count: nat
    var pass: nat
    var next: seq<Node?>         // the inline array next[TREE_WIDTH]
    ghost const prefix: string   // the characters that lead here

    constructor (ghost prefix: string)
      ensures count == 0 && pass == 0 && next == seq(256, i => null) && this.prefix == prefix
    {
      count, pass, next := 0, 0, seq(TREE_WIDTH, i => null);
      this.prefix := prefix;
    }
  }

  class Trie {
    const root: Node
    ghost var at: map<string, Node>    // the node of each prefix
    ghost var words: seq<string>       // the non-empty words inserted

    // The nodes are those of the prefixes, and each slot leads to the longer prefix's node.
    ghost predicate Shape()
      reads this, at.Values
    {
      && "" in at && at[""] == root
      && (forall p :: p in at ==> at[p].prefix == p && |at[p].next| == TREE_WIDTH)
      && (forall p :: p in at ==> SlotsOk(at[p]))
      && (forall p, c :: Ext(p, c) in at ==> p in at)
    }

    ghost predicate SlotsOk(n: Node)
      reads this`at, n`next
    {
      |n.next| == TREE_WIDTH &&
      forall c: char :: c as int < TREE_WIDTH ==>
        n.next[c as int] == if Ext(n.prefix, c) in at then at[Ext(n.prefix, c)] else null
    }

    // The counts while `word` has been followed for its first i characters
    ghost predicate CountsWhile(word: string, i: nat)
      reads this, at.Values
      requires i <= |word|
    {
      && (forall p :: p in at ==> at[p].count == CountOf(words, p) && at[p].pass == PassWhile(words, word, i, p))
      && PrefixesOk(at.Keys, words, word, i)
    }

    ghost predicate Valid()
      reads this, at.Values
    {
      Shape() && CountsWhile("", 0)
    }

    // What the trie says of a prefix
    ghost function Counts(p: string): (int, int)
      reads this, at.Values
    {
      if p in at then (at[p].count, at[p].pass) else (0, 0)
    }

    constructor ()
      ensures Valid() && words == [] && fresh(root) && at.Values == {root}
    {
      root := new Node("");
      new;
      at, words := map["" := root], [];
    }

    method Insert(word: string)
      requires Valid() && IsWord(word)
      modifies this`at, this`words, at.Values
      ensures Valid() && words == old(words) + (if word == "" then [] else [word])
      ensures fresh(at.Values - old(at.Values))
    {
      hide CountOf, PassOf, PassWhile, PrefixesOk, Used, SlotsOk;
      if |word| == 0 { return; }
      StartOfWord(at.Keys, words, word);
      var current := Follow(word);
      Finish(current, word);
    }

    // The loop: follows the word to its node, making the missing ones.
    method Follow(word: string) returns (current: Node)
      requires IsWord(word) && "" in at && at[""] == root
      requires Shape() && CountsWhile(word, 0)
      modifies this`at, at.Values
      ensures word in at && current == at[word]
      ensures Shape() && CountsWhile(word, |word|)
      ensures fresh(at.Values - old(at.Values))
    {
      hide *;
      current := root;
      var i := 0;
      assert word[..0] == "";
      while i < |word|
        invariant 0 <= i <= |word|
        invariant word[..i] in at && current == at[word[..i]]
        invariant Shape() && CountsWhile(word, i)
        invariant fresh(at.Values - old(at.Values))
      {
        current := Step(current, word, i);
        i := i + 1;
      }
      assert word[..i] == word;
    }

    // The word ends at this node.
    method Finish(current: Node, word: string)
      requires word != "" && word in at && current == at[word]
      requires Shape() && CountsWhile(word, |word|)
      modifies this`words, current
      ensures Valid() && words == old(words) + [word]
    {
      hide CountOf, PassOf, PassWhile, PrefixesOk, Used, SlotsOk;
      current.count := current.count + 1;
      EndOfWord(at.Keys, words, word);
      words := words + [word];
    }

    // One turn of the loop: the node passes the word on to its child, made if missing.
    method Step(current: Node, word: string, i: nat) returns (child: Node)
      requires i < |word| && IsWord(word)
      requires word[..i] in at && current == at[word[..i]]
      requires Shape() && CountsWhile(word, i)
      modifies this`at, current
      ensures word[..i + 1] in at && child == at[word[..i + 1]]
      ensures Shape() && CountsWhile(word, i + 1)
      ensures fresh(at.Values - old(at.Values)) && old(at.Values) <= at.Values
    {
      hide CountOf, PassOf, PassWhile, PrefixesOk, Used, SlotsOk;
      ExtIsPrefix(word, i);
      NextOfWord(at.Keys, words, word, i);
      current.pass := current.pass + 1;
      child := Child(current, word[i]);
      assert at.Keys == old(at.Keys) + {word[..i + 1]};
    }

    // The node's child for the character, made and put in its slot if missing
    method Child(current: Node, c: char) returns (child: Node)
      requires c as int < TREE_WIDTH && current.prefix in at && current == at[current.prefix]
      requires Shape()
      modifies this`at, current`next
      ensures Shape() && at == old(at)[Ext(current.prefix, c) := child]
      ensures Ext(current.prefix, c) !in old(at) ==> fresh(child) && child.count == 0 && child.pass == 0
      ensures Ext(current.prefix, c) in old(at) ==> at == old(at)
    {
      ghost var q := Ext(current.prefix, c);
      assert SlotsOk(current);
      if current.next[c as int] == null {
        var node := new Node(q);
        current.next := current.next[c as int := node];
        at := at[q := node];
        NewSlots(current.prefix, c);
        forall p | p in at ensures SlotsOk(at[p]) {
          if p in old(at) { assert old(SlotsOk(at[p])); } else { assert p == q; }
        }
      }
      child := current.next[c as int];
    }

    // Adding a node changes only its parent's slot.
    lemma NewSlots(p: string, c: char)
      ensures forall q, d :: Ext(q, d) == Ext(p, c) <==> q == p && d == c
    {
      forall q, d ensures Ext(q, d) == Ext(p, c) <==> q == p && d == c { ExtInjective(q, d, p, c); }
    }
  }
}
