/**
 * The generator's in-memory trie: one node per prefix of an inserted
 * headword, children keyed by code point, and at each node the list of
 * global meaning indices whose headword ends there.
 */
module Trie {
  import opened Wrappers

  /** A reference from a node to a global meaning record, with the "preferred reading" hint. */
  datatype NodeMeaning = NodeMeaning(meaning: nat, preferred: bool)

  datatype Node = Node(next: map<int, Node>, meaning: seq<NodeMeaning>)

  /** A freshly allocated node: no children and no meanings. */
  const Empty: Node := Node(map[], [])

  /** The node reached from `n` by following the edges labelled `path`, if they all exist. */
  function Find(n: Node, path: seq<int>): Option<Node>
    decreases |path|
  {
    if path == [] then Some(n)
    else if path[0] in n.next then Find(n.next[path[0]], path[1..])
    else None
  }

  /** The meaning list of the node at `path`; a missing node has none. */
  function MeaningsAt(n: Node, path: seq<int>): seq<NodeMeaning>
  {
    match Find(n, path)
    case Some(t) => t.meaning
    case None => []
  }

  /** Every code point that labels an edge somewhere below `n`. */
  function EdgeLabels(n: Node): set<int>
    decreases n
  {
    n.next.Keys + (set k, x | k in n.next && x in EdgeLabels(n.next[k]) :: x)
  }

  lemma {:induction false} EmptyHasNoMeanings(path: seq<int>)
    ensures MeaningsAt(Empty, path) == []
  {
  }

  /**
   * `node.Insert`: follow or create one child per code point of `text` and
   * append the meaning reference at the node the word ends on.
   */
  function Insert(n: Node, text: seq<int>, meaning: nat, preferred: bool): (r: Node)
    ensures Find(r, text).Some?
    ensures MeaningsAt(r, text) == MeaningsAt(n, text) + [NodeMeaning(meaning, preferred)]
    decreases |text|
  {
    if text == [] then
      n.(meaning := n.meaning + [NodeMeaning(meaning, preferred)])
    else
      var child := if text[0] in n.next then n.next[text[0]] else Empty;
      EmptyHasNoMeanings(text[1..]);
      var r := n.(next := n.next[text[0] := Insert(child, text[1..], meaning, preferred)]);
      assert Find(r, text) == Find(r.next[text[0]], text[1..]);
      r
  }

  /** Insertion creates exactly the missing prefixes of the word: a path exists afterwards iff it existed before or is a prefix of the word. */
  lemma {:induction false} InsertPaths(n: Node, text: seq<int>, meaning: nat, preferred: bool, q: seq<int>)
    ensures Find(Insert(n, text, meaning, preferred), q).Some? <==> Find(n, q).Some? || q <= text
    decreases |text|
  {
    var r := Insert(n, text, meaning, preferred);
    if q != [] && text != [] {
      var child := if text[0] in n.next then n.next[text[0]] else Empty;
      assert Find(r, q) == (if q[0] in r.next then Find(r.next[q[0]], q[1..]) else None);
      if q[0] == text[0] {
        InsertPaths(child, text[1..], meaning, preferred, q[1..]);
        assert q <= text <==> q[1..] <= text[1..];
        if text[0] !in n.next {
          EmptyPaths(q[1..]);
        }
      }
    }
  }

  lemma {:induction false} EmptyPaths(q: seq<int>)
    ensures Find(Empty, q).Some? <==> q == []
  {
  }

  /** Insertion appends to the meaning list of the word's own node and leaves every other node's list unchanged. */
  lemma {:induction false} InsertMeanings(n: Node, text: seq<int>, meaning: nat, preferred: bool, q: seq<int>)
    ensures MeaningsAt(Insert(n, text, meaning, preferred), q) ==
            if q == text then MeaningsAt(n, q) + [NodeMeaning(meaning, preferred)] else MeaningsAt(n, q)
    decreases |text|
  {
    var r := Insert(n, text, meaning, preferred);
    if q != text && q != [] && text != [] {
      var child := if text[0] in n.next then n.next[text[0]] else Empty;
      assert Find(r, q) == (if q[0] in r.next then Find(r.next[q[0]], q[1..]) else None);
      if q[0] == text[0] {
        InsertMeanings(child, text[1..], meaning, preferred, q[1..]);
        if text[0] !in n.next {
          EmptyHasNoMeanings(q[1..]);
        }
      }
    }
  }

  /** The labels below the new trie are the old ones plus the code points of the word. */
  lemma {:induction false} InsertLabels(n: Node, text: seq<int>, meaning: nat, preferred: bool)
    ensures EdgeLabels(Insert(n, text, meaning, preferred)) == EdgeLabels(n) + set c | c in text
    decreases |text|
  {
    if text != [] {
      var child := if text[0] in n.next then n.next[text[0]] else Empty;
      var r := Insert(n, text, meaning, preferred);
      InsertLabels(child, text[1..], meaning, preferred);
      assert EdgeLabels(Empty) == {};
      forall x
        ensures x in EdgeLabels(r) <==> x in EdgeLabels(n) + set c | c in text
      {
        if x in EdgeLabels(r) && x !in r.next.Keys {
          var k :| k in r.next && x in EdgeLabels(r.next[k]);
          if k != text[0] {
            assert x in EdgeLabels(n);
          }
        }
        if x in EdgeLabels(n) && x !in n.next.Keys {
          var k :| k in n.next && x in EdgeLabels(n.next[k]);
          if k != text[0] {
            assert r.next[k] == n.next[k];
            assert k in r.next && x in EdgeLabels(r.next[k]);
          } else {
            assert x in EdgeLabels(r.next[k]);
          }
        }
        if x in text {
          if x != text[0] {
            assert x in text[1..];
            assert x in EdgeLabels(r.next[text[0]]);
          }
        }
      }
    }
  }

  /** The code points of any existing path label edges of the trie. */
  lemma {:induction false} PathLabels(n: Node, path: seq<int>)
    requires Find(n, path).Some?
    ensures forall c :: c in path ==> c in EdgeLabels(n)
    decreases |path|
  {
    if path != [] {
      PathLabels(n.next[path[0]], path[1..]);
      forall c | c in path
        ensures c in EdgeLabels(n)
      {
        if c != path[0] {
          assert c in path[1..];
        }
      }
    }
  }

  /** The labels below a child are labels below its parent. */
  lemma {:induction false} ChildLabels(n: Node, k: int)
    requires k in n.next
    ensures EdgeLabels(n.next[k]) <= EdgeLabels(n)
  {
    forall x | x in EdgeLabels(n.next[k])
      ensures x in EdgeLabels(n)
    {
      assert k in n.next && x in EdgeLabels(n.next[k]);
    }
  }

  /** The labels below a node reached by a path are labels below the start node. */
  lemma {:induction false} FoundLabels(n: Node, path: seq<int>)
    requires Find(n, path).Some?
    ensures EdgeLabels(Find(n, path).value) <= EdgeLabels(n)
    decreases |path|
  {
    if path != [] {
      FoundLabels(n.next[path[0]], path[1..]);
      ChildLabels(n, path[0]);
    }
  }
}
