/**
 * The prefix tree used for tag completion (macos/Thoughts/Utilities/Trie.swift).
 *
 * The tree is made of heap nodes with mutable child maps and end-of-word
 * flags, as in the source. A ghost map `nodeAt` names the node reached by
 * every string from the root; `Valid()` ties it to the child maps, and the
 * set of words stored is the set of strings whose node is flagged.
 */
module Tries {

  /** The path one character further down. */
  function Extend(p: string, c: char): (r: string)
    ensures |r| == |p| + 1 && r[..|p|] == p && r[|p|] == c
  {
    p + [c]
  }

  /** `p + [c]` starts `w` exactly when `p` does and `w` goes on with `c`. */
  lemma ExtendedPrefix(p: string, c: char, w: string)
    ensures Extend(p, c) <= w <==> p <= w && w != p && w[|p|] == c
  {
    if p <= w && w != p && w[|p|] == c {
      assert w[..|p| + 1] == Extend(p, c);
    }
  }

  /** No string occurs twice. */
  ghost predicate Distinct(s: seq<string>)
  {
    forall i, j :: 0 <= i < j < |s| ==> s[i] != s[j]
  }

  lemma DistinctConcat(a: seq<string>, b: seq<string>)
    requires Distinct(a) && Distinct(b)
    requires forall w :: w in a ==> w !in b
    ensures Distinct(a + b)
  {
    forall i, j | 0 <= i < j < |a + b|
      ensures (a + b)[i] != (a + b)[j]
    {
      if i < |a| && j >= |a| {
        assert (a + b)[i] in a && (a + b)[j] in b;
      }
    }
  }

  /** `TrieNode`. */
  class TrieNode {
    var children: map<char, TrieNode>
    var isEndOfWord: bool

    constructor ()
      ensures children == map[] && !isEndOfWord
    {
      children := map[];
      isEndOfWord := false;
    }
  }

  /** `Trie`. */
  class Trie {
    var root: TrieNode
    /** The node each string leads to from the root, for the strings that lead anywhere. */
    ghost var nodeAt: map<string, TrieNode>

    ghost predicate Valid()
      reads this, nodeAt.Values
    {
      && "" in nodeAt && nodeAt[""] == root
      // every path that leads somewhere leads there one character at a time,
      && (forall p, c {:trigger Extend(p, c)} :: Extend(p, c) in nodeAt ==> p in nodeAt && c in nodeAt[p].children)
      // every child edge extends the path by its character,
      && (forall p, c :: p in nodeAt && c in nodeAt[p].children ==>
            Extend(p, c) in nodeAt && nodeAt[p].children[c] == nodeAt[Extend(p, c)])
      // and no node is reached by two paths.
      && (forall p, q :: p in nodeAt && q in nodeAt && p != q ==> nodeAt[p] != nodeAt[q])
    }

    /** The words stored: the strings whose node ends a word. */
    ghost function Words(): set<string>
      reads this, nodeAt.Values
      requires Valid()
    {
      set p | p in nodeAt && nodeAt[p].isEndOfWord
    }

    /** The paths below `p`, including `p`; the measure of `CollectWords`. */
    ghost function Below(p: string): set<string>
      reads this
    {
      set q | q in nodeAt && p <= q
    }

    /** `init(words:)`: an empty root, then every word inserted in turn. */
    constructor (words: seq<string>)
      ensures Valid()
      ensures Words() == set w | w in words
      ensures fresh(nodeAt.Values)
    {
      var node := new TrieNode();
      root := node;
      nodeAt := map["" := node];
      new;
      var i := 0;
      while i < |words|
        invariant 0 <= i <= |words|
        invariant Valid()
        invariant Words() == set w | w in words[..i]
        invariant fresh(nodeAt.Values)
      {
        Insert(words[i]);
        assert words[..i + 1] == words[..i] + [words[i]];
        i := i + 1;
      }
      assert words[..i] == words;
    }

    /** Every prefix of a path that leads somewhere leads somewhere. */
    lemma PrefixesPresent(w: string, k: nat)
      requires Valid() && k <= |w|
      ensures w in nodeAt ==> w[..k] in nodeAt
      decreases |w| - k
    {
      if k < |w| {
        PrefixesPresent(w, k + 1);
        assert w[..k + 1] == Extend(w[..k], w[k]);
      } else {
        assert w[..k] == w;
      }
    }

    /** A path one character past `p` leads somewhere exactly when `p`'s node has that child. */
    lemma StepAbsent(p: string, c: char, w: string)
      requires Valid() && p in nodeAt && c !in nodeAt[p].children
      requires p + [c] <= w
      ensures w !in nodeAt
    {
      PrefixesPresent(w, |p| + 1);
      assert w[..|p| + 1] == Extend(p, c);
    }

    /** A child edge frees up the child's strings from the parent's measure. */
    lemma BelowShrinks(p: string, c: char)
      requires Valid() && p in nodeAt && c in nodeAt[p].children
      ensures |Below(Extend(p, c))| < |Below(p)|
    {
      var inner, outer := Below(Extend(p, c)), Below(p);
      assert inner <= outer;
      assert p in outer && p !in inner;
      assert outer == inner + (outer - inner);
      assert |outer - inner| >= 1;
    }

    /** The helper `insert` uses to hang a fresh node under `current`. */
    method AddChild(p: string, current: TrieNode, c: char)
      requires Valid() && p in nodeAt && current == nodeAt[p] && c !in current.children
      modifies this, current
      ensures Valid()
      ensures c in current.children && nodeAt == old(nodeAt)[Extend(p, c) := current.children[c]]
      ensures fresh(current.children[c])
      ensures root == old(root) && Words() == old(Words())
    {
      StepAbsent(p, c, Extend(p, c));
      var node := new TrieNode();
      current.children := current.children[c := node];
      nodeAt := nodeAt[Extend(p, c) := node];
    }

    /** `insert(_:)`. */
    method Insert(word: string)
      requires Valid()
      modifies this, nodeAt.Values
      ensures Valid()
      ensures Words() == old(Words()) + {word}
      ensures root == old(root)
      ensures fresh(nodeAt.Values - old(nodeAt.Values))
    {
      var current := root;
      var i := 0;
      while i < |word|
        invariant 0 <= i <= |word|
        invariant Valid()
        invariant word[..i] in nodeAt && current == nodeAt[word[..i]]
        invariant root == old(root) && Words() == old(Words())
        invariant fresh(nodeAt.Values - old(nodeAt.Values))
      {
        var c := word[i];
        if c !in current.children {
          AddChild(word[..i], current, c);
        }
        assert word[..i + 1] == Extend(word[..i], c);
        current := current.children[c];
        i := i + 1;
      }
      assert word[..i] == word;
      current.isEndOfWord := true;
      assert forall q :: q in nodeAt && q != word ==> nodeAt[q] != current;
    }

    /** `contains(_:)`. */
    method Contains(word: string) returns (found: bool)
      requires Valid()
      ensures found <==> word in Words()
    {
      var current := root;
      var i := 0;
      while i < |word|
        invariant 0 <= i <= |word|
        invariant word[..i] in nodeAt && current == nodeAt[word[..i]]
      {
        var c := word[i];
        if c in current.children {
          assert word[..i + 1] == Extend(word[..i], c);
          current := current.children[c];
        } else {
          assert word[..i] + [c] <= word;
          StepAbsent(word[..i], c, word);
          return false;
        }
        i := i + 1;
      }
      assert word[..i] == word;
      return current.isEndOfWord;
    }

    /** `words(prefix:)`: every stored word that starts with `prefix`, each once. */
    method WordsWithPrefix(prefix: string) returns (results: seq<string>)
      requires Valid()
      ensures forall w :: w in results <==> w in Words() && prefix <= w
      ensures Distinct(results)
    {
      var current := root;
      var i := 0;
      while i < |prefix|
        invariant 0 <= i <= |prefix|
        invariant prefix[..i] in nodeAt && current == nodeAt[prefix[..i]]
      {
        var c := prefix[i];
        if c in current.children {
          assert prefix[..i + 1] == Extend(prefix[..i], c);
          current := current.children[c];
        } else {
          forall w | prefix <= w ensures w !in nodeAt {
            assert prefix[..i] + [c] <= w;
            StepAbsent(prefix[..i], c, w);
          }
          return [];
        }
        i := i + 1;
      }
      assert prefix[..i] == prefix;
      results := CollectWords(current, prefix);
    }

    /** One child of `prefix` collected: the words gathered so far now cover that child too, still each once. */
    lemma CollectStep(prefix: string, keys: set<char>, remaining: set<char>, c: char,
                      results: seq<string>, found: seq<string>)
      requires Valid() && c in remaining && remaining <= keys
      requires forall w :: w in results <==>
        w in Words() && prefix <= w && (w == prefix || w[|prefix|] in keys - remaining)
      requires forall w :: w in found <==> w in Words() && Extend(prefix, c) <= w
      requires Distinct(results) && Distinct(found)
      ensures forall w :: w in results + found <==>
        w in Words() && prefix <= w && (w == prefix || w[|prefix|] in keys - (remaining - {c}))
      ensures Distinct(results + found)
    {
      forall w
        ensures w in found <==> w in Words() && prefix <= w && w != prefix && w[|prefix|] == c
      {
        ExtendedPrefix(prefix, c, w);
      }
      DistinctConcat(results, found);
    }

    /** Every stored word strictly below `prefix` goes on with one of its node's child characters. */
    lemma WordsBelowChildren(prefix: string)
      requires Valid() && prefix in nodeAt
      ensures forall w :: w in Words() && prefix <= w && w != prefix ==> w[|prefix|] in nodeAt[prefix].children.Keys
    {
      forall w | w in Words() && prefix <= w && w != prefix
        ensures w[|prefix|] in nodeAt[prefix].children.Keys
      {
        PrefixesPresent(w, |prefix| + 1);
        assert w[..|prefix| + 1] == Extend(prefix, w[|prefix|]);
      }
    }

    /** `collectWords(node:prefix:)`. */
    method CollectWords(node: TrieNode, prefix: string) returns (results: seq<string>)
      requires Valid() && prefix in nodeAt && node == nodeAt[prefix]
      ensures forall w :: w in results <==> w in Words() && prefix <= w
      ensures Distinct(results)
      decreases |Below(prefix)|
    {
      results := if node.isEndOfWord then [prefix] else [];
      var remaining := node.children.Keys;
      while remaining != {}
        invariant remaining <= node.children.Keys
        invariant forall w :: w in results <==>
          w in Words() && prefix <= w && (w == prefix || w[|prefix|] in node.children.Keys - remaining)
        invariant Distinct(results)
        decreases remaining
      {
        var c :| c in remaining;
        BelowShrinks(prefix, c);
        var found := CollectWords(node.children[c], Extend(prefix, c));
        CollectStep(prefix, node.children.Keys, remaining, c, results, found);
        results := results + found;
        remaining := remaining - {c};
      }
      WordsBelowChildren(prefix);
    }
  }
}
