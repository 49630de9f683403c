// The trie whose nodes link to a first child and a next sibling. The root only heads the
// list of first characters.

module ListTrie {
  import opened TrieCounts

  class Node {
    var count: nat
    var pass: nat
    const arc: char
    var child: Node?
    var sibling: Node?
    ghost const parent: string   // the characters before this node's own
    ghost const prefix: string   // and with it
    ghost const place: nat       // where it stands in its list

    constructor (arc: char, ghost parent: string, ghost place: nat)
      ensures count == 0 && pass == 0 && child == null && sibling == null
      ensures this.arc == arc && this.parent == parent && prefix == Ext(parent, arc) && this.place == place
    {
      count, pass, child, sibling := 0, 0, null, null;
      this.arc, this.parent, this.prefix, this.place := arc, parent, Ext(parent, arc), place;
    }
  }

  // Where the nodes stand: `at` has the node of each non-empty prefix, `kids` the nodes
  // one character beyond each prefix, in list order.
  ghost predicate Belongs(n: Node, kids: map<string, seq<Node>>) {
    && n.prefix == Ext(n.parent, n.arc) && n.arc != 0 as char
    && n.parent in kids && n.place < |kids[n.parent]| && kids[n.parent][n.place] == n
  }

  ghost predicate Listed(at: map<string, Node>, p: string, list: seq<Node>) {
    forall k {:trigger list[k]} :: 0 <= k < |list| ==>
      && list[k].parent == p && list[k].place == k
      && list[k].prefix in at && at[list[k].prefix] == list[k]
  }

  ghost predicate Standing(root: Node, at: map<string, Node>, kids: map<string, seq<Node>>) {
    && root.arc == 0 as char && root !in at.Values
    && "" in kids && "" !in at
    && (forall p :: p in kids <==> p == "" || p in at)
    && (forall p :: p in at ==> at[p].prefix == p && Belongs(at[p], kids))
    && (forall p :: p in kids ==> Listed(at, p, kids[p]))
  }

  // The k-th node of a list, null past the last
  ghost function Nth(list: seq<Node>, k: nat): Node? {
    if k < |list| then list[k] else null
  }

  // A node's links lead to the first node of its own list and to the next one of the list
  // it is in.
  ghost predicate Linked(n: Node, child: Node?, sibling: Node?, kids: map<string, seq<Node>>) {
    && n.prefix in kids && child == Nth(kids[n.prefix], 0)
    && n.parent in kids && sibling == Nth(kids[n.parent], n.place + 1)
  }

  // A node not standing anywhere yet, which is to stand at the end of its list
  ghost predicate IsNew(node: Node, root: Node, at: map<string, Node>, kids: map<string, seq<Node>>) {
    && node != root && node !in at.Values && node.arc != 0 as char
    && node.prefix == Ext(node.parent, node.arc) && node.prefix !in at
    && node.parent in kids && node.place == |kids[node.parent]|
  }

  lemma NotInList(root: Node, at: map<string, Node>, kids: map<string, seq<Node>>, p: string, c: char)
    requires Standing(root, at, kids) && p in kids
    requires forall k :: 0 <= k < |kids[p]| ==> kids[p][k].arc != c
    ensures Ext(p, c) !in at
  {
    if Ext(p, c) in at {
      var n := at[Ext(p, c)];
      assert Belongs(n, kids);
      ExtInjective(n.parent, n.arc, p, c);
    }
  }

  lemma AtItsPlace(root: Node, at: map<string, Node>, kids: map<string, seq<Node>>, p: string, k: nat)
    requires Standing(root, at, kids) && p in kids && k < |kids[p]|
    ensures Ext(p, kids[p][k].arc) in at && at[Ext(p, kids[p][k].arc)] == kids[p][k]
  {
    hide Ext;
    assert Listed(at, p, kids[p]);
    var n := kids[p][k];
    assert at[n.prefix] == n;
    assert Belongs(n, kids);
  }

  function WithKid(kids: map<string, seq<Node>>, node: Node, p: string, r: string): map<string, seq<Node>>
    requires p in kids
  {
    kids[p := kids[p] + [node]][r := []]
  }

  lemma BelongsStill(n: Node, kids: map<string, seq<Node>>, node: Node)
    requires Belongs(n, kids) && node.parent in kids && node.prefix !in kids
    ensures Belongs(n, WithKid(kids, node, node.parent, node.prefix))
  {
  }

  lemma ListedStill(at: map<string, Node>, p: string, list: seq<Node>, node: Node)
    requires Listed(at, p, list) && node.prefix !in at
    ensures Listed(at[node.prefix := node], p, list)
    ensures node.parent == p && node.place == |list| ==> Listed(at[node.prefix := node], p, list + [node])
  {
  }

  // A new node stands at the end of its list, with no nodes beyond it.
  lemma NodeAdded(root: Node, at: map<string, Node>, kids: map<string, seq<Node>>, node: Node)
    requires Standing(root, at, kids) && IsNew(node, root, at, kids)
    ensures node.prefix != node.parent && node.prefix !in kids
    ensures Standing(root, at[node.prefix := node], WithKid(kids, node, node.parent, node.prefix))
  {
    var p, r := node.parent, node.prefix;
    var at', kids' := at[r := node], WithKid(kids, node, p, r);
    assert |r| > 0 && r != p && r !in kids;
    assert root !in at'.Values;
    forall q | q in at' ensures at'[q].prefix == q && Belongs(at'[q], kids') {
      if q in at {
        BelongsStill(at[q], kids, node);
      } else {
        NewBelongs(kids, node);
      }
    }
    forall q | q in kids' ensures Listed(at', q, kids'[q]) {
      hide Belongs, Listed, Ext;
      if q in kids {
        ListedStill(at, q, kids[q], node);
      } else {
        NoneListed(at', q);
      }
    }
  }

  lemma NewBelongs(kids: map<string, seq<Node>>, node: Node)
    requires node.prefix == Ext(node.parent, node.arc) && node.arc != 0 as char
    requires node.parent in kids && node.prefix !in kids && node.place == |kids[node.parent]|
    ensures Belongs(node, WithKid(kids, node, node.parent, node.prefix))
  {
  }

  lemma NoneListed(at: map<string, Node>, p: string)
    ensures Listed(at, p, [])
  {
  }

  // Only an empty list of first characters is led to by the root.
  lemma OnlyRootFirst(root: Node, at: map<string, Node>, kids: map<string, seq<Node>>, p: string, prev: Node)
    requires Standing(root, at, kids) && p in kids
    requires if kids[p] == [] then p == "" && prev == root else prev == kids[p][|kids[p]| - 1]
    ensures prev == root <==> kids[p] == []
  {
    if kids[p] != [] { LastOf(root, at, kids, p); }
  }

  lemma NodesApart(root: Node, at: map<string, Node>, kids: map<string, seq<Node>>)
    requires Standing(root, at, kids)
    ensures forall q :: q in at ==> at[q].prefix == q
  {
  }

  // What one node stands for
  lemma OneStanding(root: Node, at: map<string, Node>, kids: map<string, seq<Node>>, p: string)
    requires Standing(root, at, kids) && p in at
    ensures p != "" && p in kids && at[p] != root && at[p].prefix == p
    ensures at[p].parent in kids && at[p].place < |kids[at[p].parent]|
  {
    assert Belongs(at[p], kids);
  }

  // Only two links change: the child of the list's owner if the list was empty, else the
  // sibling of its last node.
  lemma LinkedStill(n: Node, child: Node?, sibling: Node?, kids: map<string, seq<Node>>, node: Node)
    requires Linked(n, child, sibling, kids) && n.place < |kids[n.parent]|
    requires node.parent in kids && node.prefix !in kids && node.place == |kids[node.parent]|
    ensures Linked(n,
              if n.prefix == node.parent && node.place == 0 then node else child,
              if n.parent == node.parent && n.place + 1 == node.place then node else sibling,
              WithKid(kids, node, node.parent, node.prefix))
  {
  }

  lemma LinkedNew(kids: map<string, seq<Node>>, node: Node)
    requires node.parent in kids && node.prefix !in kids && node.place == |kids[node.parent]|
    ensures Linked(node, null, null, WithKid(kids, node, node.parent, node.prefix))
  {
  }

  lemma RootStill(kids: map<string, seq<Node>>, node: Node)
    requires node.parent in kids && node.prefix !in kids && "" in kids && node.place == |kids[node.parent]|
    ensures "" in WithKid(kids, node, node.parent, node.prefix)
    ensures Nth(WithKid(kids, node, node.parent, node.prefix)[""], 0)
      == if node.parent == "" && node.place == 0 then node else Nth(kids[""], 0)
  {
  }

  // The last node of a list is the one whose place is the last.
  lemma LastOf(root: Node, at: map<string, Node>, kids: map<string, seq<Node>>, p: string)
    requires Standing(root, at, kids) && p in kids && kids[p] != []
    ensures var prev := kids[p][|kids[p]| - 1];
      prev in at.Values && forall q :: q in at ==>
        (at[q] == prev <==> at[q].parent == p && at[q].place + 1 == |kids[p]|)
  {
    var prev := kids[p][|kids[p]| - 1];
    assert Listed(at, p, kids[p]);
    forall q | q in at ensures at[q] == prev <==> at[q].parent == p && at[q].place + 1 == |kids[p]| {
      assert Belongs(at[q], kids);
    }
  }

  class Trie {
    const root: Node
    ghost var at: map<string, Node>
    ghost var kids: map<string, seq<Node>>
    ghost var words: seq<string>           // the non-empty words inserted

    ghost predicate Links()
      reads this`at, this`kids, root`sibling, at.Values`child, at.Values`sibling
    {
      && "" in kids && root.sibling == Nth(kids[""], 0)
      && (forall p :: p in at ==> Linked(at[p], at[p].child, at[p].sibling, kids))
    }

    ghost predicate Shape()
      reads this`at, this`kids, root`sibling, at.Values`child, at.Values`sibling
    {
      Standing(root, at, kids) && Links()
    }

    // The counts while `word` has been followed for its first i characters and passed on
    // by the nodes of its prefixes shorter than j
    ghost predicate CountsWhile(word: string, i: nat, j: nat)
      reads this`at, this`words, at.Values`count, at.Values`pass
      requires i <= |word| && j <= |word|
    {
      && (forall p :: p in at ==> at[p].count == CountOf(words, p) && at[p].pass == PassWhile(words, word, j, p))
      && PrefixesOk(at.Keys, words, word, i)
    }

    ghost predicate Valid()
      reads this, root, at.Values
    {
      Shape() && CountsWhile("", 0, 0)
    }

    // What the trie says of a non-empty prefix
    ghost function Counts(p: string): (int, int)
      reads this`at, at.Values`count, at.Values`pass
    {
      if p in at then (at[p].count, at[p].pass) else (0, 0)
    }

    constructor ()
      ensures Valid() && words == [] && fresh(root) && at == map[]
    {
      root := new Node(0 as char, "", 0);
      new;
      at, kids, words := map[], map["" := []], [];
    }

    ghost method Stand(node: Node)
      requires Standing(root, at, kids) && IsNew(node, root, at, kids)
      modifies this`at, this`kids
      ensures Standing(root, at, kids) && at == old(at)[node.prefix := node]
      ensures kids == WithKid(old(kids), node, node.parent, node.prefix)
      ensures node.prefix != node.parent && node.prefix !in old(kids)
    {
      NodeAdded(root, at, kids, node);
      hide *;
      kids := WithKid(kids, node, node.parent, node.prefix);
      at := at[node.prefix := node];
    }

    // prev->child = node, the first after its prefix
    method AddFirst(prev: Node, node: Node)
      requires Shape() && node.parent in at && prev == at[node.parent] && kids[node.parent] == []
      requires IsNew(node, root, at, kids) && node.child == null && node.sibling == null
      modifies this`at, this`kids, prev`child
      ensures Shape() && at == old(at)[node.prefix := node]
    {
      hide Standing, Belongs, Listed, Ext, Linked, WithKid;
      OneStanding(root, at, kids, node.parent);
      prev.child := node;
      Stand(node);
      forall q | q in at ensures Linked(at[q], at[q].child, at[q].sibling, kids) {
        if q in old(at) {
          var n := old(at[q]);
          OneStanding(root, old(at), old(kids), q);
          LinkedStill(n, old(n.child), n.sibling, old(kids), node);
        } else {
          LinkedNew(old(kids), node);
        }
      }
      RootStill(old(kids), node);
    }

    // prev->sibling = node, after the last node of its list, or the root
    method AddLast(prev: Node, node: Node)
      requires Shape() && node.parent in kids
      requires var list := kids[node.parent];
        if list == [] then node.parent == "" && prev == root else prev == list[|list| - 1]
      requires IsNew(node, root, at, kids) && node.child == null && node.sibling == null
      modifies this`at, this`kids, prev`sibling
      ensures Shape() && at == old(at)[node.prefix := node]
    {
      hide Standing, Belongs, Listed, Ext, Linked, WithKid;
      if prev != root { LastOf(root, at, kids, node.parent); }
      OnlyRootFirst(root, at, kids, node.parent, prev);
      prev.sibling := node;
      Stand(node);
      forall q | q in at ensures Linked(at[q], at[q].child, at[q].sibling, kids) {
        if q in old(at) {
          var n := old(at[q]);
          OneStanding(root, old(at), old(kids), q);
          LinkedStill(n, n.child, old(n.sibling), old(kids), node);
        } else {
          LinkedNew(old(kids), node);
        }
      }
      RootStill(old(kids), node);
    }

    // What the links say of the list after a prefix
    lemma ListIsLinked(p: string)
      requires Shape() && p in kids
      ensures if p == "" then root.sibling == Nth(kids[p], 0) && root.arc == 0 as char
              else p in at && at[p].child == Nth(kids[p], 0)
      ensures forall k: nat {:trigger kids[p][k]} :: k < |kids[p]| ==>
        kids[p][k].sibling == Nth(kids[p], k + 1)
    {
      hide Ext, Nth;
      assert Listed(at, p, kids[p]);
      if p != "" { assert Linked(at[p], at[p].child, at[p].sibling, kids); }
      forall k: nat | k < |kids[p]| ensures kids[p][k].sibling == Nth(kids[p], k + 1) {
        var n := kids[p][k];
        assert at[n.prefix] == n;
        assert Linked(n, n.child, n.sibling, kids);
      }
    }

    // The inner loop: along the list, from the root itself for a first character
    method Search(current0: Node, prev0: Node, c: char, ghost p: string) returns (current: Node?, prev: Node)
      requires Shape() && p in kids && c != 0 as char
      requires current0 == if p == "" then root else at[p].child
      requires p == "" ==> prev0 == root
      ensures current != null ==> Ext(p, c) in at && current == at[Ext(p, c)]
      ensures current == null ==> Ext(p, c) !in at
      ensures current == null ==>
        if kids[p] == [] then p == "" && prev == root else prev == kids[p][|kids[p]| - 1]
      ensures current == null ==> prev == root || prev in at.Values
    {
      hide Standing, Links, Linked, Ext, Listed;
      ListIsLinked(p);
      current, prev := current0, prev0;
      ghost var k := if p == "" then -1 else 0;
      while current != null && current.arc != c
        invariant -1 <= k <= |kids[p]| && (k == -1 ==> p == "")
        invariant current == if k == -1 then root else Nth(kids[p], k)
        invariant k <= 0 && p == "" ==> prev == root
        invariant k > 0 ==> prev == kids[p][k - 1]
        invariant forall m :: 0 <= m < k ==> kids[p][m].arc != c
        decreases |kids[p]| - k
      {
        prev := current;
        current := current.sibling;
        k := k + 1;
      }
      if current == null {
        NotInList(root, at, kids, p, c);
        if kids[p] != [] { LastOf(root, at, kids, p); }
      } else {
        AtItsPlace(root, at, kids, p, k);
      }
    }

    // The node after the prefix p for the character, made and linked in if missing.
    // `current0` is the first candidate and `prev0` the node whose link led to it.
    method Child(current0: Node?, prev0: Node, c: char, ghost p: string) returns (child: Node)
      requires Shape() && p in kids && c != 0 as char
      requires if p == "" then prev0 == root && current0 == root
               else prev0 == at[p] && current0 == prev0.child
      modifies this`at, this`kids, root`sibling, at.Values`child, at.Values`sibling
      ensures Shape() && at == old(at)[Ext(p, c) := child]
      ensures Ext(p, c) !in old(at) ==> fresh(child) && child.count == 0 && child.pass == 0
      ensures Ext(p, c) in old(at) ==> at == old(at)
    {
      hide Standing, Links, Linked, Ext, Listed;
      var current, prev := current0, prev0;
      if current == null {
        ListIsLinked(p);
        NotInList(root, at, kids, p, c);
        child := new Node(c, p, 0);
        AddFirst(prev, child);
        return;
      }
      current, prev := Search(current, prev, c, p);
      if current == null {
        child := new Node(c, p, |kids[p]|);
        AddLast(prev, child);
      } else {
        child := current;
      }
    }

    method Insert(word: string)
      requires Valid() && IsWord(word)
      modifies this, root, at.Values
      ensures Valid() && words == old(words) + (if word == "" then [] else [word])
      ensures fresh(at.Values - old(at.Values))
    {
      hide CountOf, PassOf, PassWhile, PrefixesOk, Used, Standing, Links;
      if |word| == 0 { return; }
      StartCounts(word);
      var node := Follow(word);
      Finish(node, word);
    }

    // The loop: follows the word to its node, making the missing ones.
    method Follow(word: string) returns (node: Node)
      requires word != "" && IsWord(word)
      requires Shape() && CountsWhile(word, 0, 1)
      modifies this`at, this`kids, root`sibling, at.Values
      ensures word in at && node == at[word]
      ensures Shape() && CountsWhile(word, |word|, |word|)
      ensures fresh(at.Values - old(at.Values))
    {
      hide *;
      var current: Node?, prev, i := root, root, 0;
      while true
        invariant i < |word| && Shape() && CountsWhile(word, i, i + 1)
        invariant i == 0 ==> prev == root && current == root
        invariant i > 0 ==> word[..i] in at && prev == at[word[..i]] && current == prev.child
        invariant fresh(at.Values - old(at.Values))
        decreases |word| - i
      {
        node := Step(current, prev, word, i);
        i := i + 1;
        if i == |word| {
          assert word[..i] == word;
          break;
        }
        PassOn(node, word, i);
        prev := node;
        current := node.child;
      }
    }

    // The node after the first i characters for the next one
    method Step(current: Node?, prev: Node, word: string, i: nat) returns (node: Node)
      requires i < |word| && IsWord(word) && Shape() && CountsWhile(word, i, i + 1)
      requires if i == 0 then prev == root && current == root
               else word[..i] in at && prev == at[word[..i]] && current == prev.child
      modifies this`at, this`kids, root`sibling, at.Values`child, at.Values`sibling
      ensures word[..i + 1] in at && node == at[word[..i + 1]]
      ensures Shape() && CountsWhile(word, i + 1, i + 1)
      ensures fresh(at.Values - old(at.Values)) && old(at.Values) <= at.Values
    {
      hide CountOf, PassOf, PassWhile, PrefixesOk, Used, Standing, Links;
      ExtIsPrefix(word, i);
      NextOfWord(at.Keys, words, word, i);
      HasList(word[..i]);
      node := Child(current, prev, word[i], word[..i]);
      assert at.Keys == old(at.Keys) + {word[..i + 1]};
    }

    // The node passes the word on.
    method PassOn(node: Node, word: string, i: nat)
      requires 0 < i < |word| && word[..i] in at && node == at[word[..i]]
      requires Shape() && CountsWhile(word, i, i)
      modifies node`pass
      ensures Shape() && CountsWhile(word, i, i + 1)
    {
      hide CountOf, PassOf, PassWhile, PrefixesOk, Used, Links, Standing;
      NodesApart(root, at, kids);
      NextOfWord(at.Keys, words, word, i);
      node.pass := node.pass + 1;
    }

    // The word ends at this node.
    method Finish(node: Node, word: string)
      requires word != "" && word in at && node == at[word]
      requires Shape() && CountsWhile(word, |word|, |word|)
      modifies this`words, node`count
      ensures Valid() && words == old(words) + [word]
    {
      hide CountOf, PassOf, PassWhile, PrefixesOk, Used, Links, Standing;
      NodesApart(root, at, kids);
      node.count := node.count + 1;
      EndOfWord(at.Keys, words, word);
      words := words + [word];
    }

    lemma HasList(p: string)
      requires Shape() && (p == "" || p in at)
      ensures p in kids
    {
    }

    // The root passes nothing on: it stands for no prefix.
    lemma StartCounts(word: string)
      requires word != "" && Shape() && CountsWhile("", 0, 0)
      ensures CountsWhile(word, 0, 1)
    {
      StartOfWord(at.Keys, words, word);
      assert word[..0] == "";
    }
  }
}
