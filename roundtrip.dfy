/**
 * The generator's blob read back by the reader: the trie records the
 * generator lays out satisfy the reader's navigation invariant, walking any
 * inserted headword reaches its node, and that node's meanings decode to
 * the entries inserted under the headword.
 */
module RoundTrip {
  import opened Wrappers
  import opened Bytes
  import opened Search
  import opened Cedict
  import opened Trie
  import G = GenDict
  import D = Dict
  import L = Layout

  // ---------------------------------------------------------------------
  // Trie records

  /** The record `node.binary` writes for `n` at offset `off` stands there in the blob. */
  ghost predicate Placed(blob: seq<byte>, n: Node, off: nat, runes: seq<int>)
  {
    G.NodeBinary(n, off, runes).Ok? && SubAt(blob, off, G.NodeBinary(n, off, runes).value)
  }

  /** Every meaning list below `n` fits the count byte the generator narrows it to. */
  ghost predicate CountsFit(n: Node)
  {
    forall w :: |MeaningsAt(n, w)| < 256
  }

  lemma {:induction false} ChildCountsFit(n: Node, k: int)
    requires CountsFit(n) && k in n.next
    ensures CountsFit(n.next[k]) && |n.next[k].meaning| < 256
  {
    var child := n.next[k];
    forall w ensures |MeaningsAt(child, w)| < 256 {
      assert ([k] + w)[1..] == w;
      assert MeaningsAt(n, [k] + w) == MeaningsAt(child, w);
    }
    assert MeaningsAt(child, []) == child.meaning;
  }

  /** One iteration of the children loop. */
  lemma {:induction false} ChildBinariesUnfold(n: Node, keys: seq<int>, idxs: seq<int>, i: nat, blockOff: nat, runes: seq<int>)
    requires |idxs| == |keys| && i < |keys|
    requires forall j :: 0 <= j < |keys| ==> keys[j] in n.next
    requires forall j :: 0 <= j < |idxs| ==> idxs[j] >= 0
    requires G.ChildBinaries(n, keys, idxs, i, blockOff, runes).Ok?
    ensures idxs[i] <= 0xFFFF && blockOff <= 0xFF_FFFF
    ensures G.ContentBlock(n.next[keys[i]], blockOff, runes).Ok?
    ensures var block := G.ContentBlock(n.next[keys[i]], blockOff, runes).value;
      && G.ChildBinaries(n, keys, idxs, i + 1, blockOff + |block|, runes).Ok?
      && var rest := G.ChildBinaries(n, keys, idxs, i + 1, blockOff + |block|, runes).value;
      G.ChildBinaries(n, keys, idxs, i, blockOff, runes).value == (U16(idxs[i]) + U24(blockOff) + rest.0, block + rest.1)
  {
  }

  /** `node.binary` once unfolded: the edge count, the edges, the content blocks. */
  ghost predicate NodeUnfolded(n: Node, off: nat, runes: seq<int>)
  {
    var keys := Ascending(n.next.Keys);
    && |keys| == |n.next| <= 0xFFFF
    && G.EdgeRuneIndices(keys, runes, 0).Ok?
    && var idxs := G.EdgeRuneIndices(keys, runes, 0).value;
    && G.ChildBinaries(n, keys, idxs, 0, off + 2 + 5 * |keys|, runes).Ok?
    && var body := G.ChildBinaries(n, keys, idxs, 0, off + 2 + 5 * |keys|, runes).value;
    && G.NodeBinary(n, off, runes).Ok?
    && G.NodeBinary(n, off, runes).value == U16(|n.next|) + body.0 + body.1
  }

  lemma {:induction false} NodeBinaryUnfold(n: Node, off: nat, runes: seq<int>)
    requires G.NodeBinary(n, off, runes).Ok?
    ensures NodeUnfolded(n, off, runes)
  {
  }

  /** A content block once unfolded: the count byte, the meaning indices, the child's record. */
  lemma {:induction false} ContentBlockUnfold(child: Node, bo: nat, runes: seq<int>)
    requires G.ContentBlock(child, bo, runes).Ok?
    ensures var ms := G.PreferredFirst(child.meaning);
      && G.MeaningIndexBytes(ms).Ok?
      && |G.MeaningIndexBytes(ms).value| == 3 * |child.meaning|
      && G.NodeBinary(child, bo + 1 + 3 * |child.meaning|, runes).Ok?
      && G.ContentBlock(child, bo, runes).value
         == [Low8(|child.meaning|)] + G.MeaningIndexBytes(ms).value + G.NodeBinary(child, bo + 1 + 3 * |child.meaning|, runes).value
  {
  }

  /** The edge part of the children loop is five bytes per child. */
  lemma {:induction false} ChildEdgesLength(n: Node, keys: seq<int>, idxs: seq<int>, i: nat, blockOff: nat, runes: seq<int>)
    requires |idxs| == |keys| && i <= |keys|
    requires forall j :: 0 <= j < |keys| ==> keys[j] in n.next
    requires forall j :: 0 <= j < |idxs| ==> idxs[j] >= 0
    requires G.ChildBinaries(n, keys, idxs, i, blockOff, runes).Ok?
    ensures |G.ChildBinaries(n, keys, idxs, i, blockOff, runes).value.0| == 5 * (|keys| - i)
    decreases |keys| - i
  {
    if i < |keys| {
      ChildBinariesUnfold(n, keys, idxs, i, blockOff, runes);
      var block := G.ContentBlock(n.next[keys[i]], blockOff, runes).value;
      ChildEdgesLength(n, keys, idxs, i + 1, blockOff + |block|, runes);
    }
  }

  /**
   * Child `j` of the children loop: its edge holds its code-point index and
   * the offset of its content block, which stands at that offset.
   */
  lemma {:induction false} ChildAt(blob: seq<byte>, n: Node, keys: seq<int>, idxs: seq<int>, i: nat, blockOff: nat,
                                   runes: seq<int>, es: nat, j: nat, pos: nat)
    requires |idxs| == |keys| && i <= j < |keys|
    requires forall j :: 0 <= j < |keys| ==> keys[j] in n.next
    requires forall j :: 0 <= j < |idxs| ==> idxs[j] >= 0
    requires G.ChildBinaries(n, keys, idxs, i, blockOff, runes).Ok?
    requires SubAt(blob, es, G.ChildBinaries(n, keys, idxs, i, blockOff, runes).value.0)
    requires SubAt(blob, blockOff, G.ChildBinaries(n, keys, idxs, i, blockOff, runes).value.1)
    requires pos == es + 5 * (j - i)
    ensures pos + 5 <= |blob|
    ensures Uint16At(blob, pos) == idxs[j]
    ensures var bo := Uint24At(blob, pos + 2);
      && blockOff <= bo
      && G.ContentBlock(n.next[keys[j]], bo, runes).Ok?
      && SubAt(blob, bo, G.ContentBlock(n.next[keys[j]], bo, runes).value)
    decreases j - i
  {
    ChildBinariesUnfold(n, keys, idxs, i, blockOff, runes);
    var block := G.ContentBlock(n.next[keys[i]], blockOff, runes).value;
    var rest := G.ChildBinaries(n, keys, idxs, i + 1, blockOff + |block|, runes).value;
    SubAtSplit3(blob, es, U16(idxs[i]), U24(blockOff), rest.0);
    SubAtSplit(blob, blockOff, block, rest.1);
    if j == i {
      SubAtMove(blob, es, pos, U16(idxs[i]));
      SubAtU16(blob, pos, idxs[i]);
      SubAtMove(blob, es + |U16(idxs[i])|, pos + 2, U24(blockOff));
      SubAtU24(blob, pos + 2, blockOff);
    } else {
      ghost var es' := es + 5;
      SubAtMove(blob, es + |U16(idxs[i])| + |U24(blockOff)|, es', rest.0);
      ChildAt(blob, n, keys, idxs, i + 1, blockOff + |block|, runes, es', j, pos);
    }
  }

  /** The meaning list of `t` stands at `list`: its count byte, then one 3-byte meaning index per entry, preferred first. */
  ghost predicate ListAt(blob: seq<byte>, list: int, t: Node)
  {
    && 0 <= list < |blob| && blob[list] as int == |t.meaning|
    && G.MeaningIndexBytes(G.PreferredFirst(t.meaning)).Ok?
    && SubAt(blob, list + 1, G.MeaningIndexBytes(G.PreferredFirst(t.meaning)).value)
  }

  /** A placed content block: the meaning count, the meaning indices, then the child's own record. */
  lemma {:induction false} ContentAt(blob: seq<byte>, child: Node, bo: nat, co: nat, runes: seq<int>)
    requires G.ContentBlock(child, bo, runes).Ok? && SubAt(blob, bo, G.ContentBlock(child, bo, runes).value)
    requires |child.meaning| < 256 && co == bo + 1 + 3 * |child.meaning|
    ensures ListAt(blob, bo, child)
    ensures Placed(blob, child, co, runes)
  {
    ContentBlockUnfold(child, bo, runes);
    var mb := G.MeaningIndexBytes(G.PreferredFirst(child.meaning)).value;
    var cb := G.NodeBinary(child, bo + 1 + 3 * |child.meaning|, runes).value;
    SubAtSplit3(blob, bo, [Low8(|child.meaning|)], mb, cb);
    SubAtByte(blob, bo, Low8(|child.meaning|));
  }

  /** A placed record starts with its edge count, followed by five bytes per edge. */
  lemma {:induction false} NodeHeader(blob: seq<byte>, n: Node, off: nat, runes: seq<int>)
    requires Placed(blob, n, off, runes)
    ensures |Ascending(n.next.Keys)| == |n.next|
    ensures off + 2 + 5 * |n.next| <= |blob|
    ensures D.EdgeCount(blob, off) == |n.next|
  {
    NodeBinaryUnfold(n, off, runes);
    var keys := Ascending(n.next.Keys);
    var idxs := G.EdgeRuneIndices(keys, runes, 0).value;
    var body := G.ChildBinaries(n, keys, idxs, 0, off + 2 + 5 * |keys|, runes).value;
    SubAtSplit3(blob, off, U16(|n.next|), body.0, body.1);
    SubAtU16(blob, off, |n.next|);
    ChildEdgesLength(n, keys, idxs, 0, off + 2 + 5 * |keys|, runes);
  }

  /** The edges and content blocks of a placed record, named. */
  ghost predicate EdgesPlaced(blob: seq<byte>, n: Node, off: nat, runes: seq<int>, keys: seq<int>, idxs: seq<int>,
                              body: (seq<byte>, seq<byte>))
  {
    && |keys| == |n.next| && |idxs| == |keys|
    && (forall j :: 0 <= j < |keys| ==> keys[j] in n.next)
    && (forall j :: 0 <= j < |idxs| ==> 0 <= idxs[j] < |runes| && runes[idxs[j]] == keys[j])
    && G.ChildBinaries(n, keys, idxs, 0, off + 2 + 5 * |keys|, runes) == Ok(body)
    && SubAt(blob, off + 2, body.0)
    && SubAt(blob, off + 2 + 5 * |keys|, body.1)
  }

  /** The edge bytes and the content blocks of the record for `n` at `off`, each at its place. */
  ghost predicate EdgesAt(blob: seq<byte>, n: Node, off: nat, runes: seq<int>)
  {
    var keys := Ascending(n.next.Keys);
    && G.EdgeRuneIndices(keys, runes, 0).Ok?
    && var idxs := G.EdgeRuneIndices(keys, runes, 0).value;
    && G.ChildBinaries(n, keys, idxs, 0, off + 2 + 5 * |keys|, runes).Ok?
    && SubAt(blob, off + 2, G.ChildBinaries(n, keys, idxs, 0, off + 2 + 5 * |keys|, runes).value.0)
    && SubAt(blob, off + 2 + 5 * |keys|, G.ChildBinaries(n, keys, idxs, 0, off + 2 + 5 * |keys|, runes).value.1)
  }

  lemma {:induction false} PlacedEdges(blob: seq<byte>, n: Node, off: nat, runes: seq<int>)
    requires Placed(blob, n, off, runes)
    ensures EdgesAt(blob, n, off, runes)
  {
    NodeBinaryUnfold(n, off, runes);
    var keys := Ascending(n.next.Keys);
    var idxs := G.EdgeRuneIndices(keys, runes, 0).value;
    var body := G.ChildBinaries(n, keys, idxs, 0, off + 2 + 5 * |keys|, runes).value;
    ChildEdgesLength(n, keys, idxs, 0, off + 2 + 5 * |keys|, runes);
    HeadSplit(blob, off, G.NodeBinary(n, off, runes).value, |n.next|, body.0, body.1, |keys|);
  }

  /** A record's bytes split at its two-byte edge count and its `k` five-byte edges. */
  lemma {:induction false} HeadSplit(blob: seq<byte>, off: nat, v: seq<byte>, count: int, e: seq<byte>, c: seq<byte>, k: nat)
    requires 0 <= count <= 0xFFFF && SubAt(blob, off, v) && v == U16(count) + e + c && |e| == 5 * k
    ensures SubAt(blob, off + 2, e) && SubAt(blob, off + 2 + 5 * k, c)
  {
    SubAtSplit3(blob, off, U16(count), e, c);
  }

  /** Edge `p` names the code point of the p-th key. */
  lemma {:induction false} EdgeLabel(blob: seq<byte>, n: Node, off: nat, runes: seq<int>, keys: seq<int>, idxs: seq<int>,
                                     body: (seq<byte>, seq<byte>), p: nat)
    requires EdgesPlaced(blob, n, off, runes, keys, idxs, body) && L.RunesAt(blob, runes)
    requires p < |n.next|
    ensures off + 2 + 5 * p + 5 <= |blob|
    ensures D.EdgeRuneIndex(blob, off, p) == idxs[p] < |runes|
    ensures D.DecodeRune(blob, idxs[p]) == keys[p]
  {
    ghost var pos := off + 2 + 5 * p;
    ChildAt(blob, n, keys, idxs, 0, off + 2 + 5 * |keys|, runes, off + 2, p, pos);
  }

  /** Edge `p` leads to the content block of the p-th key's child. */
  lemma {:induction false} EdgeChild(blob: seq<byte>, n: Node, off: nat, runes: seq<int>, keys: seq<int>, idxs: seq<int>,
                                     body: (seq<byte>, seq<byte>), p: nat)
    requires EdgesPlaced(blob, n, off, runes, keys, idxs, body)
    requires p < |n.next|
    ensures off + 2 + 5 * p + 5 <= |blob|
    ensures var bo := D.EdgeTarget(blob, off, p);
      && off + 2 + 5 * |n.next| <= bo
      && G.ContentBlock(n.next[keys[p]], bo, runes).Ok? && SubAt(blob, bo, G.ContentBlock(n.next[keys[p]], bo, runes).value)
  {
    ghost var pos := off + 2 + 5 * p;
    ChildAt(blob, n, keys, idxs, 0, off + 2 + 5 * |keys|, runes, off + 2, p, pos);
  }

  /** Edge `p` of a placed record: labelled with the p-th smallest key, leading to that child's content block. */
  lemma {:induction false} NodeEdge(blob: seq<byte>, n: Node, off: nat, runes: seq<int>, p: nat)
    requires Placed(blob, n, off, runes) && L.RunesAt(blob, runes)
    requires p < |n.next|
    ensures |Ascending(n.next.Keys)| == |n.next|
    ensures off + 2 + 5 * p + 5 <= |blob|
    ensures 6 + 3 * D.EdgeRuneIndex(blob, off, p) <= |blob|
    ensures D.DecodeRune(blob, D.EdgeRuneIndex(blob, off, p)) == Ascending(n.next.Keys)[p]
    ensures var bo := D.EdgeTarget(blob, off, p);
      var child := n.next[Ascending(n.next.Keys)[p]];
      && off + 2 + 5 * |n.next| <= bo
      && G.ContentBlock(child, bo, runes).Ok? && SubAt(blob, bo, G.ContentBlock(child, bo, runes).value)
  {
    PlacedEdges(blob, n, off, runes);
    var keys := Ascending(n.next.Keys);
    var idxs := G.EdgeRuneIndices(keys, runes, 0).value;
    var body := G.ChildBinaries(n, keys, idxs, 0, off + 2 + 5 * |keys|, runes).value;
    EdgeLabel(blob, n, off, runes, keys, idxs, body, p);
    EdgeChild(blob, n, off, runes, keys, idxs, body, p);
  }

  /** A placement at one offset is a placement at any equal offset. */
  lemma {:induction false} PlacedMove(blob: seq<byte>, n: Node, o1: nat, o2: nat, runes: seq<int>)
    requires Placed(blob, n, o1, runes)
    requires o1 == o2
    ensures Placed(blob, n, o2, runes)
  {
  }

  /** A placed content block is followed by its node's placed record, which ends within the blob. */
  lemma {:induction false} ChildPlaced(blob: seq<byte>, child: Node, bo: nat, co: nat, runes: seq<int>)
    requires G.ContentBlock(child, bo, runes).Ok? && SubAt(blob, bo, G.ContentBlock(child, bo, runes).value)
    requires |child.meaning| < 256 && co == bo + 1 + 3 * |child.meaning|
    ensures bo < |blob| && blob[bo] as int == |child.meaning|
    ensures co + 2 <= |blob|
    ensures Placed(blob, child, co, runes)
  {
    ContentAt(blob, child, bo, co, runes);
    NodeHeader(blob, child, co, runes);
  }

  /** What the reader finds on edge `p` of a placed record: its code point and a content block within the blob. */
  lemma {:induction false} EdgeFacts(blob: seq<byte>, n: Node, off: nat, runes: seq<int>, p: nat)
    requires Placed(blob, n, off, runes) && L.RunesAt(blob, runes) && CountsFit(n)
    requires p < |n.next|
    ensures |Ascending(n.next.Keys)| == |n.next|
    ensures off + 2 + 5 * |n.next| <= |blob| && D.EdgeCount(blob, off) == |n.next|
    ensures 6 + 3 * D.EdgeRuneIndex(blob, off, p) <= |blob|
    ensures D.DecodeRune(blob, D.EdgeRuneIndex(blob, off, p)) == Ascending(n.next.Keys)[p]
    ensures D.EdgeTarget(blob, off, p) < |blob|
  {
    NodeHeader(blob, n, off, runes);
    NodeEdge(blob, n, off, runes, p);
    var keys := Ascending(n.next.Keys);
    var child := n.next[keys[p]];
    ChildCountsFit(n, keys[p]);
    ghost var bo := D.EdgeTarget(blob, off, p);
    ContentAt(blob, child, bo, bo + 1 + 3 * |child.meaning|, runes);
  }

  /** The child record edge `p` leads to is placed where the reader computes it, after its parent. */
  lemma {:induction false} EdgeChildPlaced(blob: seq<byte>, n: Node, off: nat, runes: seq<int>, p: nat)
    requires Placed(blob, n, off, runes) && L.RunesAt(blob, runes) && CountsFit(n)
    requires D.EdgesReadable(blob, off) && p < D.EdgeCount(blob, off) == |n.next|
    ensures |Ascending(n.next.Keys)| == |n.next|
    ensures off < D.ChildIndex(blob, off, p) <= |blob|
    ensures Placed(blob, n.next[Ascending(n.next.Keys)[p]], D.ChildIndex(blob, off, p), runes)
    ensures CountsFit(n.next[Ascending(n.next.Keys)[p]])
  {
    NodeEdge(blob, n, off, runes, p);
    var keys := Ascending(n.next.Keys);
    var child := n.next[keys[p]];
    ChildCountsFit(n, keys[p]);
    ghost var bo := D.EdgeTarget(blob, off, p);
    ghost var co := bo + 1 + 3 * |child.meaning|;
    ChildPlaced(blob, child, bo, co, runes);
    PlacedMove(blob, child, co, D.ChildIndex(blob, off, p), runes);
  }

  /** Every record the generator lays out satisfies the reader's navigation invariant. */
  lemma {:induction false} NodePlacedOk(blob: seq<byte>, n: Node, off: nat, runes: seq<int>)
    requires Placed(blob, n, off, runes) && L.RunesAt(blob, runes) && CountsFit(n)
    ensures D.NodeOk(blob, off)
    decreases n
  {
    NodeHeader(blob, n, off, runes);
    var keys := Ascending(n.next.Keys);
    forall p | 0 <= p < |n.next|
      ensures 6 + 3 * D.EdgeRuneIndex(blob, off, p) <= |blob| && D.EdgeTarget(blob, off, p) < |blob|
      ensures D.DecodeRune(blob, D.EdgeRuneIndex(blob, off, p)) == keys[p]
    {
      EdgeFacts(blob, n, off, runes, p);
    }
    assert D.EdgesReadable(blob, off);
    forall p, q | 0 <= p < q < |n.next|
      ensures D.EdgeRune(blob, off, p) < D.EdgeRune(blob, off, q)
    {
    }
    forall p | 0 <= p < |n.next|
      ensures off < D.ChildIndex(blob, off, p) <= |blob| && D.NodeOk(blob, D.ChildIndex(blob, off, p))
    {
      EdgeChildPlaced(blob, n, off, runes, p);
      NodePlacedOk(blob, n.next[keys[p]], D.ChildIndex(blob, off, p), runes);
    }
  }

  /** The content block edge `p` leads to starts with the child's meaning list. */
  lemma {:induction false} EdgeList(blob: seq<byte>, n: Node, off: nat, runes: seq<int>, p: nat)
    requires Placed(blob, n, off, runes) && L.RunesAt(blob, runes) && CountsFit(n)
    requires p < |n.next|
    ensures |Ascending(n.next.Keys)| == |n.next|
    ensures off + 2 + 5 * p + 5 <= |blob|
    ensures ListAt(blob, D.EdgeTarget(blob, off, p), n.next[Ascending(n.next.Keys)[p]])
  {
    NodeEdge(blob, n, off, runes, p);
    var keys := Ascending(n.next.Keys);
    var child := n.next[keys[p]];
    ChildCountsFit(n, keys[p]);
    ghost var bo := D.EdgeTarget(blob, off, p);
    ContentAt(blob, child, bo, bo + 1 + 3 * |child.meaning|, runes);
  }

  /** Consuming the label of an edge of a placed record moves the reader to that child's list and record. */
  lemma {:induction false} EdgeStep(blob: seq<byte>, n: Node, cur: D.Cursor, runes: seq<int>, k: int)
    requires cur.At? && -1 <= cur.meanings < |blob| && cur.index >= 0
    requires Placed(blob, n, cur.index, runes) && L.RunesAt(blob, runes) && CountsFit(n)
    requires k in n.next
    ensures D.CursorOk(blob, cur)
    ensures D.Step(blob, cur, k).Some?
    ensures Placed(blob, n.next[k], D.Step(blob, cur, k).value.index, runes)
    ensures ListAt(blob, D.Step(blob, cur, k).value.meanings, n.next[k])
    ensures CountsFit(n.next[k])
  {
    NodePlacedOk(blob, n, cur.index, runes);
    var keys := Ascending(n.next.Keys);
    assert k in keys;
    var p :| 0 <= p < |keys| && keys[p] == k;
    EdgeFacts(blob, n, cur.index, runes, p);
    assert D.EdgeRune(blob, cur.index, p) == k;
    D.StepFindsEdge(blob, cur, k);
    EdgeChildPlaced(blob, n, cur.index, runes, p);
    EdgeList(blob, n, cur.index, runes, p);
  }

  /**
   * Walking a headword inserted below a placed record succeeds, and a
   * nonempty walk ends on the meaning list of the headword's node.
   */
  lemma {:induction false} WalkPlaced(blob: seq<byte>, n: Node, cur: D.Cursor, runes: seq<int>, w: seq<int>)
    requires cur.At? && -1 <= cur.meanings < |blob| && cur.index >= 0
    requires Placed(blob, n, cur.index, runes) && L.RunesAt(blob, runes) && CountsFit(n)
    requires Find(n, w).Some?
    ensures D.CursorOk(blob, cur)
    ensures D.Walk(blob, cur, w).Some?
    ensures w != [] ==> ListAt(blob, D.Walk(blob, cur, w).value.meanings, Find(n, w).value)
    decreases |w|
  {
    NodePlacedOk(blob, n, cur.index, runes);
    if w != [] {
      EdgeStep(blob, n, cur, runes, w[0]);
      var next := D.Step(blob, cur, w[0]).value;
      assert D.Walk(blob, cur, w) == D.Walk(blob, next, w[1..]);
      if w[1..] != [] {
        WalkPlaced(blob, n.next[w[0]], next, runes, w[1..]);
      }
    }
  }

  // ---------------------------------------------------------------------
  // The entry loop

  /** Meaning `j` of the table is entry `j`, with its HSK level and its variants. */
  lemma {:induction false} CollectTable(entries: seq<Entry>, hsk: map<seq<int>, byte>, prefered: map<int, u16>)
    requires G.Collect(entries, hsk, prefered).Ok?
    ensures Tabled(G.Collect(entries, hsk, prefered).value.1, entries, hsk)
    decreases |entries|
  {
    if entries != [] {
      var i := |entries| - 1;
      CollectTable(entries[..i], hsk, prefered);
      CollectStep(entries, hsk, prefered);
      TabledSnoc(G.Collect(entries[..i], hsk, prefered).value.1, G.Collect(entries, hsk, prefered).value.1, entries, hsk);
    }
  }

  /** The table half of one step of `collect`: the last entry's meaning is appended. */
  lemma {:induction false} CollectStep(entries: seq<Entry>, hsk: map<seq<int>, byte>, prefered: map<int, u16>)
    requires entries != [] && G.Collect(entries, hsk, prefered).Ok?
    ensures var i := |entries| - 1; var e := entries[i];
      && G.Collect(entries[..i], hsk, prefered).Ok?
      && G.GetVariant(e.traditional, e.simplified).Ok?
      && G.Collect(entries, hsk, prefered).value.1
         == G.Collect(entries[..i], hsk, prefered).value.1
            + [G.Meaning(e.pinyin, e.meaning, G.HskLevel(hsk, e.simplified), G.GetVariant(e.traditional, e.simplified).value)]
  {
  }

  /** Appending the last entry's meaning to a table of the others gives a table of all. */
  lemma {:induction false} TabledSnoc(ms: seq<G.Meaning>, ms': seq<G.Meaning>, entries: seq<Entry>, hsk: map<seq<int>, byte>)
    requires entries != [] && Tabled(ms, entries[..|entries| - 1], hsk)
    requires var e := entries[|entries| - 1];
      && G.GetVariant(e.traditional, e.simplified).Ok?
      && ms' == ms + [G.Meaning(e.pinyin, e.meaning, G.HskLevel(hsk, e.simplified), G.GetVariant(e.traditional, e.simplified).value)]
    ensures Tabled(ms', entries, hsk)
  {
    var i := |entries| - 1;
    forall j | 0 <= j < i ensures entries[..i][j] == entries[j] {
    }
  }


  /** Every meaning the trie holds under `w` is the index of an entry spelt `w`. */
  lemma {:induction false} CollectSound(entries: seq<Entry>, hsk: map<seq<int>, byte>, prefered: map<int, u16>,
                                        w: seq<int>, x: NodeMeaning)
    requires G.Collect(entries, hsk, prefered).Ok?
    requires x in MeaningsAt(G.Collect(entries, hsk, prefered).value.0, w)
    ensures x.meaning < |entries|
    ensures w == entries[x.meaning].traditional || w == entries[x.meaning].simplified
    decreases |entries|
  {
    var i := |entries| - 1;
    if entries == [] {
      EmptyHasNoMeanings(w);
    } else {
      var prev := G.Collect(entries[..i], hsk, prefered).value;
      var e := entries[i];
      var variants := G.GetVariant(e.traditional, e.simplified).value;
      var g1 := Insert(prev.0, e.traditional, i, G.IsPreferred(prefered, e.traditional, e.pinyin));
      InsertMeanings(prev.0, e.traditional, i, G.IsPreferred(prefered, e.traditional, e.pinyin), w);
      if |variants| != 0 {
        InsertMeanings(g1, e.simplified, i, G.IsPreferred(prefered, e.simplified, e.pinyin), w);
      }
      if x in MeaningsAt(prev.0, w) {
        CollectSound(entries[..i], hsk, prefered, w, x);
      }
    }
  }

  /** Some meaning of the list `s` carries the global index `j`. */
  ghost predicate Holds(s: seq<NodeMeaning>, j: nat)
  {
    exists q :: 0 <= q < |s| && s[q].meaning == j
  }

  lemma {:induction false} HoldsAppend(s: seq<NodeMeaning>, x: NodeMeaning, j: nat)
    requires Holds(s, j) || x.meaning == j
    ensures Holds(s + [x], j)
  {
    if x.meaning == j {
      assert (s + [x])[|s|] == x;
    } else {
      var q :| 0 <= q < |s| && s[q].meaning == j;
      assert (s + [x])[q] == s[q];
    }
  }

  /** Inserting a meaning keeps every index a list held and adds the inserted one under its path. */
  lemma {:induction false} InsertHolds(n: Node, text: seq<int>, i: nat, preferred: bool, w: seq<int>, j: nat)
    requires Holds(MeaningsAt(n, w), j) || (w == text && i == j)
    ensures Holds(MeaningsAt(Insert(n, text, i, preferred), w), j)
  {
    InsertMeanings(n, text, i, preferred, w);
    if w == text {
      HoldsAppend(MeaningsAt(n, w), NodeMeaning(i, preferred), j);
    }
  }

  /** Entry `j` is held under its traditional spelling and under its simplified one. */
  lemma {:induction false} CollectComplete(entries: seq<Entry>, hsk: map<seq<int>, byte>, prefered: map<int, u16>,
                                           j: nat, w: seq<int>)
    requires G.Collect(entries, hsk, prefered).Ok?
    requires j < |entries| && |entries[j].traditional| <= 256
    requires w == entries[j].traditional || w == entries[j].simplified
    ensures Holds(MeaningsAt(G.Collect(entries, hsk, prefered).value.0, w), j)
    decreases |entries|
  {
    var i := |entries| - 1;
    var e := entries[i];
    CollectNodeStep(entries, hsk, prefered);
    var prev := G.Collect(entries[..i], hsk, prefered).value;
    var variants := G.GetVariant(e.traditional, e.simplified).value;
    var p1 := G.IsPreferred(prefered, e.traditional, e.pinyin);
    var p2 := G.IsPreferred(prefered, e.simplified, e.pinyin);
    if j < i {
      assert entries[..i][j] == entries[j];
      CollectComplete(entries[..i], hsk, prefered, j, w);
      StepKeeps(prev.0, e, i, p1, p2, |variants| != 0, w, j);
    } else {
      if |variants| == 0 {
        G.GetVariantCorrect(e.traditional, e.simplified);
        assert e.traditional == e.simplified by {
          forall k | 0 <= k < |e.traditional| ensures e.traditional[k] == e.simplified[k] {
          }
        }
      }
      StepAdds(prev.0, e, i, p1, p2, |variants| != 0, w);
    }
  }

  /** The trie half of one step of `collect`: the traditional headword, then the simplified one when it differs. */
  ghost function Step(n: Node, e: Entry, i: nat, p1: bool, p2: bool, both: bool): Node
  {
    var g1 := Insert(n, e.traditional, i, p1);
    if both then Insert(g1, e.simplified, i, p2) else g1
  }

  lemma {:induction false} CollectNodeStep(entries: seq<Entry>, hsk: map<seq<int>, byte>, prefered: map<int, u16>)
    requires entries != [] && G.Collect(entries, hsk, prefered).Ok?
    ensures var i := |entries| - 1; var e := entries[i];
      && G.Collect(entries[..i], hsk, prefered).Ok?
      && G.GetVariant(e.traditional, e.simplified).Ok?
      && G.Collect(entries, hsk, prefered).value.0
         == Step(G.Collect(entries[..i], hsk, prefered).value.0, e, i,
                 G.IsPreferred(prefered, e.traditional, e.pinyin), G.IsPreferred(prefered, e.simplified, e.pinyin),
                 |G.GetVariant(e.traditional, e.simplified).value| != 0)
  {
  }

  /** A step of `collect` keeps every meaning already listed under a word. */
  lemma {:induction false} StepKeeps(n: Node, e: Entry, i: nat, p1: bool, p2: bool, both: bool, w: seq<int>, j: nat)
    requires Holds(MeaningsAt(n, w), j)
    ensures Holds(MeaningsAt(Step(n, e, i, p1, p2, both), w), j)
  {
    InsertHolds(n, e.traditional, i, p1, w, j);
    if both {
      InsertHolds(Insert(n, e.traditional, i, p1), e.simplified, i, p2, w, j);
    }
  }

  /** A step of `collect` lists its entry under the headwords it inserts. */
  lemma {:induction false} StepAdds(n: Node, e: Entry, i: nat, p1: bool, p2: bool, both: bool, w: seq<int>)
    requires w == e.traditional || (both && w == e.simplified)
    ensures Holds(MeaningsAt(Step(n, e, i, p1, p2, both), w), i)
  {
    var g1 := Insert(n, e.traditional, i, p1);
    if w == e.traditional {
      InsertHolds(n, e.traditional, i, p1, w, i);
    }
    if both {
      InsertHolds(g1, e.simplified, i, p2, w, i);
    }
  }


  // ---------------------------------------------------------------------
  // The meaning table

  /** A placement at one offset is a placement at any equal offset. */
  lemma {:induction false} SubAtMove(blob: seq<byte>, a: int, b: int, s: seq<byte>)
    requires SubAt(blob, a, s)
    requires a == b
    ensures SubAt(blob, b, s)
  {
  }

  /** The table loop over records already serialised: the offsets, relative to the region, and the records. */
  ghost function Table(recs: seq<seq<byte>>, oi: nat): Option<(seq<byte>, seq<byte>)>
    decreases |recs|
  {
    if recs == [] then Some(([], []))
    else if oi > 0xFF_FFFF then None
    else
      match Table(recs[1..], oi + |recs[0]|)
      case None => None
      case Some(rest) => Some((U24(oi) + rest.0, recs[0] + rest.1))
  }

  /** The records `MeaningTable` writes from entry `i` on. */
  ghost function Records(ms: seq<G.Meaning>, runes: seq<int>, i: nat): (r: seq<seq<byte>>)
    requires i <= |ms|
    ensures |r| == |ms| - i
    decreases |ms| - i
  {
    if i == |ms| then []
    else
      var rec := if G.RecordBytes(ms[i], runes).Ok? then G.RecordBytes(ms[i], runes).value else [];
      [rec] + Records(ms, runes, i + 1)
  }

  /** `MeaningTable` succeeds only when every record does. */
  lemma {:induction false} TableRecordsOk(ms: seq<G.Meaning>, runes: seq<int>, i: nat, oi: nat)
    requires i <= |ms| && G.MeaningTable(ms, runes, i, oi).Ok?
    ensures forall k :: i <= k < |ms| ==> G.RecordBytes(ms[k], runes).Ok?
    decreases |ms| - i
  {
    if i < |ms| {
      TableStep(ms, runes, i, oi);
      ghost var oi' := oi + |G.RecordBytes(ms[i], runes).value|;
      TableRecordsOk(ms, runes, i + 1, oi');
      forall k | i <= k < |ms| ensures G.RecordBytes(ms[k], runes).Ok? {
        if k > i {
          assert i + 1 <= k < |ms|;
        }
      }
    }
  }

  /** Once every record succeeds, `Records` lists them. */
  lemma {:induction false} RecordsAt(ms: seq<G.Meaning>, runes: seq<int>, i: nat, k: nat)
    requires i <= k < |ms| && G.RecordBytes(ms[k], runes).Ok?
    ensures Records(ms, runes, i)[k - i] == G.RecordBytes(ms[k], runes).value
    decreases k - i
  {
    if i < k {
      RecordsAt(ms, runes, i + 1, k);
      assert Records(ms, runes, i)[k - i] == Records(ms, runes, i + 1)[k - (i + 1)];
    }
  }

  /** One step of the table loop: the first offset and record, then the rest. */
  lemma {:induction false} TableStep(ms: seq<G.Meaning>, runes: seq<int>, i: nat, oi: nat)
    requires i < |ms| && G.MeaningTable(ms, runes, i, oi).Ok?
    ensures oi <= 0xFF_FFFF && G.RecordBytes(ms[i], runes).Ok?
    ensures Records(ms, runes, i) == [G.RecordBytes(ms[i], runes).value] + Records(ms, runes, i + 1)
    ensures G.MeaningTable(ms, runes, i + 1, oi + |G.RecordBytes(ms[i], runes).value|).Ok?
    ensures G.MeaningTable(ms, runes, i, oi).value
         == (U24(oi) + G.MeaningTable(ms, runes, i + 1, oi + |G.RecordBytes(ms[i], runes).value|).value.0,
             G.RecordBytes(ms[i], runes).value + G.MeaningTable(ms, runes, i + 1, oi + |G.RecordBytes(ms[i], runes).value|).value.1)
  {
  }

  /** The offsets part holds one 3-byte offset per record. */
  lemma {:induction false} TableOffsetsLength(ms: seq<G.Meaning>, runes: seq<int>, i: nat, oi: nat)
    requires i <= |ms| && G.MeaningTable(ms, runes, i, oi).Ok?
    ensures |G.MeaningTable(ms, runes, i, oi).value.0| == 3 * (|ms| - i)
    decreases |ms| - i
  {
    if i < |ms| {
      TableStep(ms, runes, i, oi);
      TableOffsetsLength(ms, runes, i + 1, oi + |G.RecordBytes(ms[i], runes).value|);
    }
  }

  /** `MeaningTable` lays out the table of the records it serialises. */
  lemma {:induction false} TableRecords(ms: seq<G.Meaning>, runes: seq<int>, i: nat, oi: nat)
    requires i <= |ms| && G.MeaningTable(ms, runes, i, oi).Ok?
    ensures Table(Records(ms, runes, i), oi) == Some(G.MeaningTable(ms, runes, i, oi).value)
    decreases |ms| - i
  {
    if i < |ms| {
      TableStep(ms, runes, i, oi);
      var rec := G.RecordBytes(ms[i], runes).value;
      TableRecords(ms, runes, i + 1, oi + |rec|);
      TableCons(rec, Records(ms, runes, i + 1), oi);
    }
  }

  lemma {:induction false} TableCons(rec: seq<byte>, recs: seq<seq<byte>>, oi: nat)
    requires oi <= 0xFF_FFFF && Table(recs, oi + |rec|).Some?
    ensures Table([rec] + recs, oi) == Some((U24(oi) + Table(recs, oi + |rec|).value.0, rec + Table(recs, oi + |rec|).value.1))
  {
    assert ([rec] + recs)[1..] == recs;
  }

  /**
   * Entry `j` of a placed table: its 3-byte offset, relative to the region
   * start `region`, leads to record `j`.
   */
  lemma {:induction false} TableAt(blob: seq<byte>, recs: seq<seq<byte>>, oi: nat, es: nat, rs: nat, region: nat,
                                   j: nat, pos: nat)
    requires j < |recs| && Table(recs, oi).Some?
    requires SubAt(blob, es, Table(recs, oi).value.0) && SubAt(blob, rs, Table(recs, oi).value.1)
    requires rs == region + oi && pos == es + 3 * j
    ensures pos + 3 <= |blob|
    ensures SubAt(blob, region + Uint24At(blob, pos), recs[j])
    decreases j
  {
    var rest := Table(recs[1..], oi + |recs[0]|).value;
    SubAtSplit(blob, es, U24(oi), rest.0);
    SubAtSplit(blob, rs, recs[0], rest.1);
    if j == 0 {
      SubAtU24(blob, es, oi);
      SubAtMove(blob, rs, region + Uint24At(blob, pos), recs[0]);
    } else {
      ghost var es' := es + 3;
      ghost var rs' := rs + |recs[0]|;
      SubAtMove(blob, es + |U24(oi)|, es', rest.0);
      SubAtMove(blob, rs + |recs[0]|, rs', rest.1);
      TableAt(blob, recs[1..], oi + |recs[0]|, es', rs', region, j - 1, pos);
    }
  }

  /** The meaning indices of a placed list, index by index. */
  lemma {:induction false} IndexAt(blob: seq<byte>, s: seq<NodeMeaning>, p: nat, q: nat, pos: nat)
    requires G.MeaningIndexBytes(s).Ok? && SubAt(blob, p, G.MeaningIndexBytes(s).value)
    requires q < |s| && pos == p + 3 * q
    ensures pos + 3 <= |blob|
    ensures Uint24At(blob, pos) == s[q].meaning
    decreases q
  {
    var t := G.MeaningIndexBytes(s[1..]).value;
    SubAtSplit(blob, p, U24(s[0].meaning), t);
    if q == 0 {
      SubAtMove(blob, p, pos, U24(s[0].meaning));
      SubAtU24(blob, pos, s[0].meaning);
    } else {
      ghost var p' := p + 3;
      SubAtMove(blob, p + |U24(s[0].meaning)|, p', t);
      IndexAt(blob, s[1..], p', q - 1, pos);
    }
  }


  // ---------------------------------------------------------------------
  // The whole blob

  /**
   * The blob `createBinaryDict` writes, as the reader sees it: the
   * code-point table, the root record where `Begin` points, and the meaning
   * table at `region`, its offsets first and its records after them.
   */
  ghost predicate Laid(blob: seq<byte>, root: Node, ms: seq<G.Meaning>, runes: seq<int>, region: nat)
  {
    && |blob| >= 3 && Uint24At(blob, 0) == |runes|
    && L.RunesAt(blob, runes)
    && Placed(blob, root, D.Begin(blob).index, runes)
    && D.MeaningRegion(blob) == Some(region)
    && TableLaid(blob, ms, runes, region)
  }

  /** The meaning table `MeaningTable` writes stands at `region`: its offsets, then its records. */
  ghost predicate TableLaid(blob: seq<byte>, ms: seq<G.Meaning>, runes: seq<int>, region: nat)
  {
    && G.MeaningTable(ms, runes, 0, 3 * |ms|).Ok?
    && SubAt(blob, region, G.MeaningTable(ms, runes, 0, 3 * |ms|).value.0)
    && SubAt(blob, region + 3 * |ms|, G.MeaningTable(ms, runes, 0, 3 * |ms|).value.1)
  }

  /** Where the meaning region starts: after the code-point table, the two size fields and the trie. */
  ghost function RegionOf(root: Node, runes: seq<int>): nat
  {
    var trie := G.NodeBinary(root, 6 + 3 * |runes|, runes);
    if trie.Ok? then 6 + 3 * |runes| + |trie.value| else 0
  }

  lemma {:induction false} DictLaid(root: Node, ms: seq<G.Meaning>, runes: seq<int>)
    requires G.CreateBinaryDict(root, ms, runes).Ok?
    ensures Laid(G.CreateBinaryDict(root, ms, runes).value, root, ms, runes, RegionOf(root, runes))
  {
    ghost var off := 6 + 3 * |runes|;
    DictParts(root, ms, runes, off);
    var trie := G.NodeBinary(root, off, runes).value;
    var table := G.MeaningTable(ms, runes, 0, 3 * |ms|).value;
    BlobLaid(G.CreateBinaryDict(root, ms, runes).value, root, ms, runes, off, trie, table, RegionOf(root, runes));
  }

  /** `createBinaryDict` concatenates the table size, the code points, the trie size, the trie and the meaning table. */
  lemma {:induction false} DictParts(root: Node, ms: seq<G.Meaning>, runes: seq<int>, off: nat)
    requires G.CreateBinaryDict(root, ms, runes).Ok? && off == 6 + 3 * |runes|
    ensures G.RuneBytes(runes).Ok? && |runes| <= 0xFF_FFFF
    ensures G.NodeBinary(root, off, runes).Ok? && |G.NodeBinary(root, off, runes).value| <= 0xFF_FFFF
    ensures G.MeaningTable(ms, runes, 0, 3 * |ms|).Ok?
    ensures G.CreateBinaryDict(root, ms, runes).value
         == U24(|runes|) + G.RuneBytes(runes).value + U24(|G.NodeBinary(root, off, runes).value|)
            + G.NodeBinary(root, off, runes).value
            + G.MeaningTable(ms, runes, 0, 3 * |ms|).value.0 + G.MeaningTable(ms, runes, 0, 3 * |ms|).value.1
  {
    ghost var off' := 3 + |runes| * 3 + 3;
    assert off' == off;
    assert G.NodeBinary(root, off', runes) == G.NodeBinary(root, off, runes);
  }

  /** The blob `createBinaryDict` writes, from its parts. */
  lemma {:induction false} BlobLaid(blob: seq<byte>, root: Node, ms: seq<G.Meaning>, runes: seq<int>,
                                    off: nat, trie: seq<byte>, table: (seq<byte>, seq<byte>), region: nat)
    requires G.RuneBytes(runes).Ok? && |runes| <= 0xFF_FFFF && off == 6 + 3 * |runes|
    requires G.NodeBinary(root, off, runes) == Ok(trie) && |trie| <= 0xFF_FFFF
    requires G.MeaningTable(ms, runes, 0, 3 * |ms|) == Ok(table)
    requires blob == U24(|runes|) + G.RuneBytes(runes).value + U24(|trie|) + trie + table.0 + table.1
    requires region == off + |trie|
    ensures Laid(blob, root, ms, runes, region)
  {
    TableOffsetsLength(ms, runes, 0, 3 * |ms|);
    BlobParts(blob, runes, G.RuneBytes(runes).value, off, trie, table.0, table.1, |ms|, region);
    PartsLaid(blob, root, ms, runes, off, trie, region);
  }

  /** The placed parts make up the layout the reader decodes. */
  lemma {:induction false} PartsLaid(blob: seq<byte>, root: Node, ms: seq<G.Meaning>, runes: seq<int>,
                                     off: nat, trie: seq<byte>, region: nat)
    requires G.NodeBinary(root, off, runes) == Ok(trie) && G.MeaningTable(ms, runes, 0, 3 * |ms|).Ok?
    requires |blob| >= 3 && Uint24At(blob, 0) == |runes| && L.RunesAt(blob, runes)
    requires D.Begin(blob).index == off && SubAt(blob, off, trie)
    requires D.MeaningRegion(blob) == Some(region)
    requires SubAt(blob, region, G.MeaningTable(ms, runes, 0, 3 * |ms|).value.0)
    requires SubAt(blob, region + 3 * |ms|, G.MeaningTable(ms, runes, 0, 3 * |ms|).value.1)
    ensures Laid(blob, root, ms, runes, region)
  {
    assert Placed(blob, root, off, runes);
    PlacedMove(blob, root, off, D.Begin(blob).index, runes);
  }

  /** The parts of the blob, each where the reader looks for it. */
  lemma {:induction false} BlobParts(blob: seq<byte>, runes: seq<int>, rb: seq<byte>, off: nat, trie: seq<byte>,
                                     offsets: seq<byte>, records: seq<byte>, count: nat, region: nat)
    requires G.RuneBytes(runes).Ok? && rb == G.RuneBytes(runes).value && |runes| <= 0xFF_FFFF
    requires off == 6 + 3 * |runes| && |trie| <= 0xFF_FFFF && region == off + |trie| && |offsets| == 3 * count
    requires blob == U24(|runes|) + rb + U24(|trie|) + trie + offsets + records
    ensures |blob| >= 3 && Uint24At(blob, 0) == |runes| && L.RunesAt(blob, runes)
    ensures D.Begin(blob).index == off && SubAt(blob, off, trie)
    ensures D.MeaningRegion(blob) == Some(region)
    ensures SubAt(blob, region, offsets) && SubAt(blob, region + 3 * count, records)
  {
    L.RuneBytesLength(runes);
    ghost var tp := 3 + 3 * |runes|;
    SplitSix(blob, U24(|runes|), rb, U24(|trie|), trie, offsets, records, 3, tp, off, region, region + 3 * count);
    SubAtU24(blob, 0, |runes|);
    SubAtU24(blob, tp, |trie|);
    RunesLaid(blob, runes);
    RegionLaid(blob, |runes|, |trie|, region);
  }

  /** The first part of a concatenation stands at its start. */
  lemma {:induction false} PrefixAt(b: seq<byte>, x: seq<byte>, y: seq<byte>)
    requires b == x + y
    ensures SubAt(b, 0, x)
  {
    forall i | 0 <= i < |x| ensures b[0 + i] == x[i] {
      assert b[i] == (x + y)[i];
    }
  }

  /** The second part of a concatenation stands after the first. */
  lemma {:induction false} AppendAt(b: seq<byte>, x: seq<byte>, y: seq<byte>, p: nat)
    requires b == x + y && p == |x|
    ensures SubAt(b, p, y)
  {
    forall i | 0 <= i < |y| ensures b[p + i] == y[i] {
      assert b[p + i] == (x + y)[|x| + i];
    }
  }

  /** The middle part of a three-way concatenation stands after the first. */
  lemma {:induction false} MiddleAt(b: seq<byte>, x: seq<byte>, y: seq<byte>, z: seq<byte>, p: nat)
    requires b == x + y + z && p == |x|
    ensures SubAt(b, p, y)
  {
    forall i | 0 <= i < |y| ensures b[p + i] == y[i] {
      assert b[p + i] == (x + y)[|x| + i];
    }
  }

  /** A part of a prefix is a part of the whole. */
  lemma {:induction false} InPrefix(b: seq<byte>, x: seq<byte>, y: seq<byte>, p: nat, s: seq<byte>)
    requires b == x + y && SubAt(x, p, s)
    ensures SubAt(b, p, s)
  {
    forall i | 0 <= i < |s| ensures b[p + i] == s[i] {
      assert b[p + i] == x[p + i];
    }
  }

  /** Six parts written one after another, each at the offset the lengths before it add up to. */
  lemma {:induction false} SplitSix(b: seq<byte>, s1: seq<byte>, s2: seq<byte>, s3: seq<byte>,
                                    s4: seq<byte>, s5: seq<byte>, s6: seq<byte>,
                                    p2: nat, p3: nat, p4: nat, p5: nat, p6: nat)
    requires b == s1 + s2 + s3 + s4 + s5 + s6
    requires p2 == |s1| && p3 == p2 + |s2| && p4 == p3 + |s3| && p5 == p4 + |s4| && p6 == p5 + |s5|
    ensures SubAt(b, 0, s1) && SubAt(b, p2, s2) && SubAt(b, p3, s3)
    ensures SubAt(b, p4, s4) && SubAt(b, p5, s5) && SubAt(b, p6, s6)
  {
    var x2 := s1 + s2;
    var x3 := x2 + s3;
    var x4 := x3 + s4;
    var x5 := x4 + s5;
    AppendAt(b, x5, s6, p6);
    MiddleAt(b, x4, s5, s6, p5);
    MiddleAt(x5, x3, s4, s5, p4);
    InPrefix(b, x5, s6, p4, s4);
    MiddleAt(x4, x2, s3, s4, p3);
    InPrefix(x5, x4, s5, p3, s3);
    InPrefix(b, x5, s6, p3, s3);
    MiddleAt(x3, s1, s2, s3, p2);
    InPrefix(x4, x3, s4, p2, s2);
    InPrefix(x5, x4, s5, p2, s2);
    InPrefix(b, x5, s6, p2, s2);
    PrefixAt(x2, s1, s2);
    InPrefix(x3, x2, s3, 0, s1);
    InPrefix(x4, x3, s4, 0, s1);
    InPrefix(x5, x4, s5, 0, s1);
    InPrefix(b, x5, s6, 0, s1);
  }

  /** The code-point table written from byte 3 on decodes to the runes. */
  lemma {:induction false} RunesLaid(blob: seq<byte>, runes: seq<int>)
    requires G.RuneBytes(runes).Ok? && SubAt(blob, 3, G.RuneBytes(runes).value)
    requires 6 + 3 * |runes| <= |blob|
    ensures L.RunesAt(blob, runes)
  {
    forall x | 0 <= x < |runes| ensures D.DecodeRune(blob, x) == runes[x] {
      L.RuneBytesAt(blob, 3, runes, x);
    }
  }

  /** The meaning region starts after the trie, whose size follows the code-point table. */
  lemma {:induction false} RegionLaid(blob: seq<byte>, n: nat, t: nat, region: nat)
    requires 6 + 3 * n <= |blob| && Uint24At(blob, 0) == n && Uint24At(blob, 3 + 3 * n) == t
    requires region == 6 + 3 * n + t
    ensures D.MeaningRegion(blob) == Some(region)
  {
  }

  // ---------------------------------------------------------------------
  // Reading the meanings back

  /** An entry the reader reproduces: a headword within the 256 positions a variant records, and syllables that fit. */
  ghost predicate EntryFits(e: Entry)
  {
    && |e.traditional| <= 256 && |e.pinyin| < 256
    && forall k :: 0 <= k < |e.pinyin| ==> L.PinyinFits(e.pinyin[k])
  }

  /** Meaning `j` of the table is entry `j`, with its HSK level and its variants. */
  ghost predicate Tabled(ms: seq<G.Meaning>, entries: seq<Entry>, hsk: map<seq<int>, byte>)
  {
    && |ms| == |entries|
    && forall j :: 0 <= j < |entries| ==>
      && G.GetVariant(entries[j].traditional, entries[j].simplified).Ok?
      && ms[j] == G.Meaning(entries[j].pinyin, entries[j].meaning, G.HskLevel(hsk, entries[j].simplified),
                            G.GetVariant(entries[j].traditional, entries[j].simplified).value)
  }

  /** Entry `j` exists, fits, and is spelt `word` in one of its two forms. */
  ghost predicate Spelt(entries: seq<Entry>, j: nat, word: seq<int>)
  {
    j < |entries| && EntryFits(entries[j]) && (word == entries[j].traditional || word == entries[j].simplified)
  }

  ghost predicate AllSpelt(entries: seq<Entry>, s: seq<NodeMeaning>, word: seq<int>)
  {
    forall q :: 0 <= q < |s| ==> Spelt(entries, s[q].meaning, word)
  }

  /**
   * What the reader returns for entry `e`: its syllables, glosses and HSK
   * level, and both spellings when they differ (none when they agree).
   */
  ghost function Entered(e: Entry, hsk: map<seq<int>, byte>): D.Meaning
  {
    var vs := G.GetVariant(e.traditional, e.simplified);
    var differ := vs.Ok? && vs.value != [];
    D.Meaning(e.pinyin, e.meaning, G.HskLevel(hsk, e.simplified),
              if differ then e.simplified else [], if differ then e.traditional else [])
  }

  /** The entries a meaning list refers to, in list order. */
  ghost function EnteredList(entries: seq<Entry>, hsk: map<seq<int>, byte>, s: seq<NodeMeaning>): (r: seq<D.Meaning>)
    requires forall q :: 0 <= q < |s| ==> s[q].meaning < |entries|
    ensures |r| == |s|
    ensures forall q :: 0 <= q < |s| ==> r[q] == Entered(entries[s[q].meaning], hsk)
    decreases |s|
  {
    if s == [] then []
    else EnteredList(entries, hsk, s[..|s| - 1]) + [Entered(entries[s[|s| - 1].meaning], hsk)]
  }

  /** Offset `j` of the placed meaning table leads to record `j`. */
  lemma {:induction false} RecordAt(blob: seq<byte>, ms: seq<G.Meaning>, runes: seq<int>, region: nat, j: nat, pos: nat)
    requires TableLaid(blob, ms, runes, region)
    requires j < |ms| && pos == region + 3 * j
    ensures pos + 3 <= |blob| && G.RecordBytes(ms[j], runes).Ok?
    ensures SubAt(blob, region + Uint24At(blob, pos), G.RecordBytes(ms[j], runes).value)
  {
    TableRecords(ms, runes, 0, 3 * |ms|);
    TableRecordsOk(ms, runes, 0, 3 * |ms|);
    RecordsAt(ms, runes, 0, j);
    ghost var rs := region + 3 * |ms|;
    TableAt(blob, Records(ms, runes, 0), 3 * |ms|, region, rs, region, j, pos);
  }

  /** What the reader makes of meaning `m` looked up by `word`. */
  ghost function ReadBack(m: G.Meaning, word: seq<int>): Option<D.Meaning>
  {
    match D.Spellings(word, L.AsDiffs(m.variant))
    case None => None
    case Some(sp) => Some(D.Meaning(m.pinyin, m.meaning, m.hskLevel, sp.0, sp.1))
  }

  /** Record `j` of a placed meaning table reads back as meaning `j`. */
  lemma {:induction false} RecordRead(blob: seq<byte>, ms: seq<G.Meaning>, runes: seq<int>, region: nat,
                                      word: seq<int>, j: nat, pos: nat)
    requires L.RunesAt(blob, runes) && |runes| <= 0x1_0000 && TableLaid(blob, ms, runes, region)
    requires j < |ms| && L.MeaningFits(ms[j]) && pos == region + 3 * j
    ensures pos + 3 <= |blob|
    ensures D.ReadRecord(blob, region + Uint24At(blob, pos), word) == ReadBack(ms[j], word)
  {
    RecordAt(blob, ms, runes, region, j, pos);
    L.ReadRecordBytes(blob, region + Uint24At(blob, pos), ms[j], runes, word);
  }

  /** Record `q` of a placed index list `s` is the table's record for the index `s` holds there. */
  lemma {:induction false} ListedRecord(blob: seq<byte>, region: nat, list: nat, s: seq<NodeMeaning>, word: seq<int>,
                                        q: nat, tpos: nat)
    requires G.MeaningIndexBytes(s).Ok? && SubAt(blob, list + 1, G.MeaningIndexBytes(s).value) && q < |s|
    requires tpos == region + 3 * s[q].meaning && tpos + 3 <= |blob|
    ensures D.ReadListed(blob, region, list, word, q) == D.ReadRecord(blob, region + Uint24At(blob, tpos), word)
  {
    ghost var ipos := list + 1 + 3 * q;
    IndexAt(blob, s, list + 1, q, ipos);
    ListedIndex(blob, region, list, word, q, s[q].meaning, tpos);
  }

  /** Record `q` of an index list whose q-th index is `idx`. */
  lemma {:induction false} ListedIndex(blob: seq<byte>, region: nat, list: nat, word: seq<int>, q: nat, idx: nat, tpos: nat)
    requires list + 1 + 3 * q + 3 <= |blob| && Uint24At(blob, list + 1 + 3 * q) == idx
    requires tpos == region + 3 * idx && tpos + 3 <= |blob|
    ensures D.ReadListed(blob, region, list, word, q) == D.ReadRecord(blob, region + Uint24At(blob, tpos), word)
  {
  }

  /** Meaning `j` read back by one of entry `j`'s spellings is the entry. */
  lemma {:induction false} ReadBackEntry(ms: seq<G.Meaning>, entries: seq<Entry>, hsk: map<seq<int>, byte>,
                                         j: nat, word: seq<int>)
    requires Tabled(ms, entries, hsk) && Spelt(entries, j, word)
    ensures L.MeaningFits(ms[j])
    ensures ReadBack(ms[j], word) == Some(Entered(entries[j], hsk))
  {
    var e := entries[j];
    L.SpellingsRestored(e.traditional, e.simplified, word);
  }

  /** The first `n` records of a placed index list `s` read back as the entries its indices name. */
  lemma {:induction false} ListRead(blob: seq<byte>, ms: seq<G.Meaning>, runes: seq<int>, region: nat,
                                    entries: seq<Entry>, hsk: map<seq<int>, byte>, list: nat, s: seq<NodeMeaning>,
                                    word: seq<int>, n: nat)
    requires L.RunesAt(blob, runes) && |runes| <= 0x1_0000 && TableLaid(blob, ms, runes, region)
    requires Tabled(ms, entries, hsk)
    requires G.MeaningIndexBytes(s).Ok? && SubAt(blob, list + 1, G.MeaningIndexBytes(s).value) && n <= |s|
    requires AllSpelt(entries, s, word)
    ensures D.ReadList(blob, region, list, word, n) == Some(EnteredList(entries, hsk, s[..n]))
    decreases n
  {
    if n > 0 {
      ListRead(blob, ms, runes, region, entries, hsk, list, s, word, n - 1);
      var j := s[n - 1].meaning;
      ReadBackEntry(ms, entries, hsk, j, word);
      ghost var tpos := region + 3 * j;
      RecordRead(blob, ms, runes, region, word, j, tpos);
      ListedRecord(blob, region, list, s, word, n - 1, tpos);
      ListSnoc(blob, region, list, word, entries, hsk, s, n);
    }
  }

  /** One more record read onto a list read so far. */
  lemma {:induction false} ListSnoc(blob: seq<byte>, region: nat, list: nat, word: seq<int>,
                                    entries: seq<Entry>, hsk: map<seq<int>, byte>, s: seq<NodeMeaning>, n: nat)
    requires 0 < n <= |s| && forall q :: 0 <= q < |s| ==> s[q].meaning < |entries|
    requires D.ReadList(blob, region, list, word, n - 1) == Some(EnteredList(entries, hsk, s[..n - 1]))
    requires D.ReadListed(blob, region, list, word, n - 1) == Some(Entered(entries[s[n - 1].meaning], hsk))
    ensures D.ReadList(blob, region, list, word, n) == Some(EnteredList(entries, hsk, s[..n]))
  {
    assert s[..n][..n - 1] == s[..n - 1];
  }

  /** The meanings read at a placed list whose indices all name entries spelt `w`. */
  lemma {:induction false} DecodeLaid(blob: seq<byte>, ms: seq<G.Meaning>, runes: seq<int>, region: nat,
                                      entries: seq<Entry>, hsk: map<seq<int>, byte>, cur: D.Cursor,
                                      s: seq<NodeMeaning>, w: seq<int>)
    requires L.RunesAt(blob, runes) && |runes| <= 0x1_0000 && TableLaid(blob, ms, runes, region)
    requires D.MeaningRegion(blob) == Some(region) && Tabled(ms, entries, hsk)
    requires cur.At? && 0 <= cur.meanings < |blob| && blob[cur.meanings] as int == |s|
    requires G.MeaningIndexBytes(s).Ok? && SubAt(blob, cur.meanings + 1, G.MeaningIndexBytes(s).value)
    requires AllSpelt(entries, s, w)
    ensures D.DecodeMeanings(blob, cur, w) == Some(EnteredList(entries, hsk, s))
  {
    if |s| > 0 {
      ListRead(blob, ms, runes, region, entries, hsk, cur.meanings, s, w, |s|);
      DecodeList(blob, cur, w, region, entries, hsk, s, EnteredList(entries, hsk, s[..|s|]), EnteredList(entries, hsk, s));
    }
  }

  /** A non-empty meaning list decodes to what its records read. */
  lemma {:induction false} DecodeList(blob: seq<byte>, cur: D.Cursor, w: seq<int>, region: nat,
                                      entries: seq<Entry>, hsk: map<seq<int>, byte>, s: seq<NodeMeaning>,
                                      r: seq<D.Meaning>, r': seq<D.Meaning>)
    requires cur.At? && 0 <= cur.meanings < |blob| && blob[cur.meanings] as int == |s| > 0
    requires D.MeaningRegion(blob) == Some(region)
    requires D.ReadList(blob, region, cur.meanings, w, |s|) == Some(r)
    requires forall q :: 0 <= q < |s| ==> s[q].meaning < |entries|
    requires r == EnteredList(entries, hsk, s[..|s|]) && r' == EnteredList(entries, hsk, s)
    ensures D.DecodeMeanings(blob, cur, w) == Some(r')
  {
    assert s[..|s|] == s;
  }


  // ---------------------------------------------------------------------
  // The round trip

  /** The bounds the round trip needs: entries that fit, code-point indices within 16 bits, meaning counts within a byte. */
  ghost predicate Fits(entries: seq<Entry>, hsk: map<seq<int>, byte>, prefered: map<int, u16>)
  {
    && (forall k :: 0 <= k < |entries| ==> EntryFits(entries[k]))
    && G.Collect(entries, hsk, prefered).Ok?
    && |Ascending(EdgeLabels(G.Collect(entries, hsk, prefered).value.0))| <= 0x1_0000
    && CountsFit(G.Collect(entries, hsk, prefered).value.0)
  }

  lemma {:induction false} BuiltLaid(entries: seq<Entry>, hsk: map<seq<int>, byte>, prefered: map<int, u16>)
    requires G.Build(entries, hsk, prefered).Ok?
    ensures G.Collect(entries, hsk, prefered).Ok?
    ensures var c := G.Collect(entries, hsk, prefered).value;
      var runes := Ascending(EdgeLabels(c.0));
      Laid(G.Build(entries, hsk, prefered).value, c.0, c.1, runes, RegionOf(c.0, runes))
  {
    var c := G.Collect(entries, hsk, prefered).value;
    DictLaid(c.0, c.1, Ascending(EdgeLabels(c.0)));
  }

  /** Walking a nonempty path of the trie in its laid blob ends on the path's meaning list. */
  lemma {:induction false} WalkLaid(blob: seq<byte>, root: Node, ms: seq<G.Meaning>, runes: seq<int>, region: nat,
                                    w: seq<int>)
    requires Laid(blob, root, ms, runes, region) && CountsFit(root)
    requires w != [] && Find(root, w).Some?
    ensures D.WellFormed(blob) && D.Walk(blob, D.Begin(blob), w).Some?
    ensures ListAt(blob, D.Reached(blob, w).meanings, Find(root, w).value)
  {
    NodePlacedOk(blob, root, D.Begin(blob).index, runes);
    WalkPlaced(blob, root, D.Begin(blob), runes, w);
  }

  /** A nonempty path whose node holds meanings is a word of the laid blob. */
  lemma {:induction false} WordLaid(blob: seq<byte>, root: Node, ms: seq<G.Meaning>, runes: seq<int>, region: nat,
                                    w: seq<int>)
    requires Laid(blob, root, ms, runes, region) && CountsFit(root)
    requires w != [] && Find(root, w).Some? && |Find(root, w).value.meaning| > 0
    ensures D.WellFormed(blob) && D.WordAt(blob, w, |w|)
    ensures D.Reached(blob, w).At? && ListAt(blob, D.Reached(blob, w).meanings, Find(root, w).value)
  {
    WalkLaid(blob, root, ms, runes, region, w);
    assert w[..|w|] == w;
  }

  /**
   * What the entry loop leaves behind, as the round trip uses it: the
   * table holds entry `j` at `j`, every index held under `w` names an entry
   * spelt `w`, and every entry is held under both its spellings.
   */
  ghost predicate Collected(root: Node, ms: seq<G.Meaning>, entries: seq<Entry>, hsk: map<seq<int>, byte>)
  {
    && Tabled(ms, entries, hsk)
    && (forall w, x :: x in MeaningsAt(root, w) ==>
          x.meaning < |entries| && (w == entries[x.meaning].traditional || w == entries[x.meaning].simplified))
    && (forall k: nat, w ::
          (k < |entries| && |entries[k].traditional| <= 256
           && (w == entries[k].traditional || w == entries[k].simplified)) ==> Holds(MeaningsAt(root, w), k))
  }

  lemma {:induction false} CollectCollected(entries: seq<Entry>, hsk: map<seq<int>, byte>, prefered: map<int, u16>)
    requires G.Collect(entries, hsk, prefered).Ok?
    ensures Collected(G.Collect(entries, hsk, prefered).value.0, G.Collect(entries, hsk, prefered).value.1, entries, hsk)
  {
    var root := G.Collect(entries, hsk, prefered).value.0;
    CollectTable(entries, hsk, prefered);
    forall w, x | x in MeaningsAt(root, w)
      ensures x.meaning < |entries| && (w == entries[x.meaning].traditional || w == entries[x.meaning].simplified)
    {
      CollectSound(entries, hsk, prefered, w, x);
    }
    forall k: nat, w | k < |entries| && |entries[k].traditional| <= 256
        && (w == entries[k].traditional || w == entries[k].simplified)
      ensures Holds(MeaningsAt(root, w), k)
    {
      CollectComplete(entries, hsk, prefered, k, w);
    }
  }

  /** Every meaning held under `w`, in written order, names a fitting entry spelt `w`. */
  lemma {:induction false} CollectSpelt(root: Node, ms: seq<G.Meaning>, entries: seq<Entry>, hsk: map<seq<int>, byte>,
                                        w: seq<int>)
    requires Collected(root, ms, entries, hsk)
    requires forall k :: 0 <= k < |entries| ==> EntryFits(entries[k])
    requires Find(root, w).Some?
    ensures AllSpelt(entries, G.PreferredFirst(Find(root, w).value.meaning), w)
  {
    var t := Find(root, w).value;
    var s := G.PreferredFirst(t.meaning);
    forall q | 0 <= q < |s| ensures Spelt(entries, s[q].meaning, w) {
      assert s[q] in multiset(s);
      assert s[q] in MeaningsAt(root, w);
    }
  }

  /** An index some list holds is read back from any reordering of it. */
  lemma {:induction false} HeldIn(entries: seq<Entry>, hsk: map<seq<int>, byte>, s: seq<NodeMeaning>,
                                  t: seq<NodeMeaning>, j: nat)
    requires multiset(s) == multiset(t) && Holds(t, j) && j < |entries|
    requires forall q :: 0 <= q < |s| ==> s[q].meaning < |entries|
    ensures Entered(entries[j], hsk) in EnteredList(entries, hsk, s)
  {
    var q0 :| 0 <= q0 < |t| && t[q0].meaning == j;
    assert t[q0] in multiset(s);
    var q :| 0 <= q < |s| && s[q] == t[q0];
    assert EnteredList(entries, hsk, s)[q] == Entered(entries[j], hsk);
  }

  /** The node of a nonempty headword with meanings: its walk, and its list read back in written order. */
  lemma {:induction false} LaidList(blob: seq<byte>, root: Node, ms: seq<G.Meaning>, runes: seq<int>, region: nat,
                                    entries: seq<Entry>, hsk: map<seq<int>, byte>, w: seq<int>)
    requires Laid(blob, root, ms, runes, region) && |runes| <= 0x1_0000 && CountsFit(root)
    requires Collected(root, ms, entries, hsk) && forall k :: 0 <= k < |entries| ==> EntryFits(entries[k])
    requires w != [] && Find(root, w).Some? && |Find(root, w).value.meaning| > 0
    ensures D.WellFormed(blob)
    ensures D.WordAt(blob, w, |w|)
    ensures AllSpelt(entries, G.PreferredFirst(Find(root, w).value.meaning), w)
    ensures D.DecodeMeanings(blob, D.Reached(blob, w), w)
         == Some(EnteredList(entries, hsk, G.PreferredFirst(Find(root, w).value.meaning)))
  {
    WordLaid(blob, root, ms, runes, region, w);
    LaidSpelt(blob, root, ms, runes, region, entries, hsk, D.Reached(blob, w), w);
  }

  /** The meaning list reached for an inserted headword holds entries spelt that way, and decodes to them. */
  lemma {:induction false} LaidSpelt(blob: seq<byte>, root: Node, ms: seq<G.Meaning>, runes: seq<int>, region: nat,
                                     entries: seq<Entry>, hsk: map<seq<int>, byte>, cur: D.Cursor, w: seq<int>)
    requires L.RunesAt(blob, runes) && |runes| <= 0x1_0000 && TableLaid(blob, ms, runes, region)
    requires D.MeaningRegion(blob) == Some(region)
    requires Collected(root, ms, entries, hsk) && forall k :: 0 <= k < |entries| ==> EntryFits(entries[k])
    requires Find(root, w).Some? && cur.At? && ListAt(blob, cur.meanings, Find(root, w).value)
    ensures AllSpelt(entries, G.PreferredFirst(Find(root, w).value.meaning), w)
    ensures D.DecodeMeanings(blob, cur, w) == Some(EnteredList(entries, hsk, G.PreferredFirst(Find(root, w).value.meaning)))
  {
    var t := Find(root, w).value;
    CollectSpelt(root, ms, entries, hsk, w);
    DecodeLaid(blob, ms, runes, region, entries, hsk, cur, G.PreferredFirst(t.meaning), w);
  }

  /**
   * The entries a node's list names, read back preferred first: every
   * entry spelt `w` is among them, and each of them is such an entry.
   */
  lemma {:induction false} ListMembers(entries: seq<Entry>, hsk: map<seq<int>, byte>, t: seq<NodeMeaning>, w: seq<int>)
    requires AllSpelt(entries, G.PreferredFirst(t), w)
    requires forall k :: 0 <= k < |entries| && (w == entries[k].traditional || w == entries[k].simplified) ==> Holds(t, k)
    ensures forall k :: 0 <= k < |entries| && (w == entries[k].traditional || w == entries[k].simplified) ==>
      Entered(entries[k], hsk) in EnteredList(entries, hsk, G.PreferredFirst(t))
    ensures forall x :: x in EnteredList(entries, hsk, G.PreferredFirst(t)) ==>
      exists k :: 0 <= k < |entries| && (w == entries[k].traditional || w == entries[k].simplified)
                  && x == Entered(entries[k], hsk)
  {
    var s := G.PreferredFirst(t);
    var r := EnteredList(entries, hsk, s);
    forall k | 0 <= k < |entries| && (w == entries[k].traditional || w == entries[k].simplified)
      ensures Entered(entries[k], hsk) in r
    {
      HeldIn(entries, hsk, s, t, k);
    }
    forall x | x in r
      ensures exists k :: 0 <= k < |entries| && (w == entries[k].traditional || w == entries[k].simplified)
                          && x == Entered(entries[k], hsk)
    {
      var q :| 0 <= q < |r| && r[q] == x;
      assert Spelt(entries, s[q].meaning, w);
    }
  }

  /** The round trip on a laid blob: see `LookupRoundTrip`. */
  lemma {:induction false} LaidLookup(blob: seq<byte>, root: Node, ms: seq<G.Meaning>, runes: seq<int>, region: nat,
                                      entries: seq<Entry>, hsk: map<seq<int>, byte>, j: nat, w: seq<int>)
    requires Laid(blob, root, ms, runes, region) && |runes| <= 0x1_0000 && CountsFit(root)
    requires Collected(root, ms, entries, hsk) && forall k :: 0 <= k < |entries| ==> EntryFits(entries[k])
    requires j < |entries| && w != [] && (w == entries[j].traditional || w == entries[j].simplified)
    ensures D.WellFormed(blob) && D.WordAt(blob, w, |w|)
    ensures D.DecodeMeanings(blob, D.Reached(blob, w), w).Some?
    ensures forall k :: 0 <= k < |entries| && (w == entries[k].traditional || w == entries[k].simplified) ==>
      Entered(entries[k], hsk) in D.DecodeMeanings(blob, D.Reached(blob, w), w).value
    ensures forall x :: x in D.DecodeMeanings(blob, D.Reached(blob, w), w).value ==>
      exists k :: 0 <= k < |entries| && (w == entries[k].traditional || w == entries[k].simplified)
                  && x == Entered(entries[k], hsk)
  {
    assert Holds(MeaningsAt(root, w), j);
    var t := Find(root, w).value;
    LaidList(blob, root, ms, runes, region, entries, hsk, w);
    forall k | 0 <= k < |entries| && (w == entries[k].traditional || w == entries[k].simplified)
      ensures Holds(t.meaning, k)
    {
      assert Holds(MeaningsAt(root, w), k);
    }
    ListMembers(entries, hsk, t.meaning, w);
  }

  /**
   * Looking a headword up in the blob the generator builds: the blob is
   * navigable, the headword is a word of it, and the meanings read where
   * its walk ends are exactly the entries spelt that way, each with its
   * syllables, glosses, HSK level and spellings.
   */
  lemma {:induction false} LookupRoundTrip(entries: seq<Entry>, hsk: map<seq<int>, byte>, prefered: map<int, u16>,
                                           j: nat, w: seq<int>)
    requires G.Build(entries, hsk, prefered).Ok? && Fits(entries, hsk, prefered)
    requires j < |entries| && w != [] && (w == entries[j].traditional || w == entries[j].simplified)
    ensures D.WellFormed(G.Build(entries, hsk, prefered).value)
    ensures D.WordAt(G.Build(entries, hsk, prefered).value, w, |w|)
    ensures var blob := G.Build(entries, hsk, prefered).value;
      D.DecodeMeanings(blob, D.Reached(blob, w), w).Some?
    ensures var blob := G.Build(entries, hsk, prefered).value;
      forall k :: 0 <= k < |entries| && (w == entries[k].traditional || w == entries[k].simplified) ==>
        Entered(entries[k], hsk) in D.DecodeMeanings(blob, D.Reached(blob, w), w).value
    ensures var blob := G.Build(entries, hsk, prefered).value;
      forall x :: x in D.DecodeMeanings(blob, D.Reached(blob, w), w).value ==>
        exists k :: 0 <= k < |entries| && (w == entries[k].traditional || w == entries[k].simplified)
                    && x == Entered(entries[k], hsk)
  {
    var c := G.Collect(entries, hsk, prefered).value;
    var runes := Ascending(EdgeLabels(c.0));
    BuiltLaid(entries, hsk, prefered);
    CollectCollected(entries, hsk, prefered);
    LaidLookup(G.Build(entries, hsk, prefered).value, c.0, c.1, runes, RegionOf(c.0, runes), entries, hsk, j, w);
  }
}
