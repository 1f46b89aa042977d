/**
 * The reader of the binary dictionary: a cursor that walks the trie records
 * by binary search over their edges, the decoder of the meaning records,
 * and the longest-prefix segmentation `Lookup` with its two extra rules
 * (no boundary inside a run of Latin letters, and the soft-match override
 * for 不, 在, 有 and 没).
 *
 * Navigation requires a well-formed blob (`WellFormed`, which the
 * generator's output satisfies); the meaning decoder checks every read and
 * answers None where the source would index out of range.
 */
module Dict {
  import opened Wrappers
  import opened Bytes
  import opened Search
  import opened Cedict

  /** One decoded dictionary meaning. */
  datatype Meaning = Meaning(
    pinyin: seq<Pinyin>,
    meanings: seq<seq<byte>>,
    hskLevel: byte,
    simplified: seq<int>,
    traditional: seq<int>)

  /**
   * The cursor `Lookup`: Zero is the zero value (no blob); otherwise
   * `meanings` is the offset of the current node's meaning-count byte (-1
   * before the first character) and `index` the offset of its trie record.
   */
  datatype Cursor = Zero | At(meanings: int, index: int) {
    predicate IsZero() { Zero? }
  }

  /** Entry `x` of the code-point table: a rune read from three bytes, so never negative. */
  function DecodeRune(blob: seq<byte>, x: nat): (r: int)
    requires 6 + 3 * x <= |blob|
    ensures 0 <= r <= 0xFF_FFFF
  {
    Uint24At(blob, 3 + 3 * x)
  }

  /** The cursor positioned on the root record, just past the table and the trie-size field. */
  function Begin(blob: seq<byte>): (cur: Cursor)
    requires |blob| >= 3
    ensures cur.At? && cur.meanings == -1
    ensures cur.index == 6 + 3 * Uint24At(blob, 0)
  {
    At(-1, 6 + 3 * Uint24At(blob, 0))
  }

  // ---------------------------------------------------------------------
  // Trie records: a 2-byte edge count, then per edge a 2-byte index into
  // the code-point table and the 3-byte offset of the child's meaning-count
  // byte; the child's record follows its 3-byte meaning indices.
  // ---------------------------------------------------------------------

  function EdgeCount(blob: seq<byte>, index: int): nat
    requires 0 <= index && index + 2 <= |blob|
  {
    Uint16At(blob, index)
  }

  function EdgeRuneIndex(blob: seq<byte>, index: int, p: nat): nat
    requires 0 <= index && index + 2 + 5 * p + 2 <= |blob|
  {
    Uint16At(blob, index + 2 + 5 * p)
  }

  function EdgeTarget(blob: seq<byte>, index: int, p: nat): nat
    requires 0 <= index && index + 2 + 5 * p + 5 <= |blob|
  {
    Uint24At(blob, index + 2 + 5 * p + 2)
  }

  /** Every field of the record at `index` and of its edges can be read. */
  ghost predicate EdgesReadable(blob: seq<byte>, index: int)
  {
    && 0 <= index
    && index + 2 <= |blob|
    && index + 2 + 5 * EdgeCount(blob, index) <= |blob|
    && forall p :: 0 <= p < EdgeCount(blob, index) ==>
         6 + 3 * EdgeRuneIndex(blob, index, p) <= |blob| && EdgeTarget(blob, index, p) < |blob|
  }

  function EdgeRune(blob: seq<byte>, index: int, p: nat): int
    requires EdgesReadable(blob, index) && p < EdgeCount(blob, index)
  {
    DecodeRune(blob, EdgeRuneIndex(blob, index, p))
  }

  /** The record of the child that edge `p` leads to. */
  function ChildIndex(blob: seq<byte>, index: int, p: nat): int
    requires EdgesReadable(blob, index) && p < EdgeCount(blob, index)
  {
    var t := EdgeTarget(blob, index, p);
    t + 1 + 3 * (blob[t] as int)
  }

  /**
   * The record at `index`, and every record below it, is readable, has its
   * edges in strictly ascending code-point order, and each child record
   * lies after its parent.
   */
  ghost predicate NodeOk(blob: seq<byte>, index: int)
    decreases |blob| - index
  {
    && EdgesReadable(blob, index)
    && (forall p, q :: 0 <= p < q < EdgeCount(blob, index) ==> EdgeRune(blob, index, p) < EdgeRune(blob, index, q))
    && (forall p :: 0 <= p < EdgeCount(blob, index) ==>
          index < ChildIndex(blob, index, p) <= |blob| && NodeOk(blob, ChildIndex(blob, index, p)))
  }

  ghost predicate CursorOk(blob: seq<byte>, cur: Cursor)
  {
    cur.At? && -1 <= cur.meanings < |blob| && NodeOk(blob, cur.index)
  }

  /** A blob the reader can navigate: its root record and all below it are well formed. */
  ghost predicate WellFormed(blob: seq<byte>)
  {
    |blob| >= 3 && NodeOk(blob, Begin(blob).index)
  }

  /** The first edge at or after `p` whose code point is at least `c`. */
  ghost function FirstAtLeast(blob: seq<byte>, index: int, c: int, p: nat): (k: nat)
    requires EdgesReadable(blob, index) && p <= EdgeCount(blob, index)
    ensures p <= k <= EdgeCount(blob, index)
    ensures forall q :: p <= q < k ==> EdgeRune(blob, index, q) < c
    ensures k < EdgeCount(blob, index) ==> EdgeRune(blob, index, k) >= c
    decreases EdgeCount(blob, index) - p
  {
    if p == EdgeCount(blob, index) || EdgeRune(blob, index, p) >= c then p
    else FirstAtLeast(blob, index, c, p + 1)
  }

  /** What consuming `c` does: follow the edge labelled `c`, if there is one. */
  ghost function Step(blob: seq<byte>, cur: Cursor, c: int): (r: Option<Cursor>)
    requires CursorOk(blob, cur)
    ensures r.Some? ==> CursorOk(blob, r.value)
  {
    var p := FirstAtLeast(blob, cur.index, c, 0);
    if p < EdgeCount(blob, cur.index) && EdgeRune(blob, cur.index, p) == c then
      Some(At(EdgeTarget(blob, cur.index, p), ChildIndex(blob, cur.index, p)))
    else None
  }

  /** A step succeeds exactly when some edge of the record is labelled `c`, and then it follows that edge. */
  lemma {:induction false} StepFindsEdge(blob: seq<byte>, cur: Cursor, c: int)
    requires CursorOk(blob, cur)
    ensures Step(blob, cur, c).Some? <==>
      exists p :: 0 <= p < EdgeCount(blob, cur.index) && EdgeRune(blob, cur.index, p) == c
    ensures forall p :: 0 <= p < EdgeCount(blob, cur.index) && EdgeRune(blob, cur.index, p) == c ==>
      Step(blob, cur, c) == Some(At(EdgeTarget(blob, cur.index, p), ChildIndex(blob, cur.index, p)))
  {
    var k := FirstAtLeast(blob, cur.index, c, 0);
    forall p | 0 <= p < EdgeCount(blob, cur.index) && EdgeRune(blob, cur.index, p) == c
      ensures k == p
    {
    }
  }

  /** The binary-search predicate of `Consume`: the code point of edge `p` is at least `c`. */
  function EdgeAtLeast(blob: seq<byte>, index: int, c: int, p: int): bool
  {
    if 0 <= p && 0 <= index && index + 2 + 5 * p + 2 <= |blob|
       && 6 + 3 * Uint16At(blob, index + 2 + 5 * p) <= |blob|
    then DecodeRune(blob, Uint16At(blob, index + 2 + 5 * p)) >= c
    else true
  }

  /**
   * `Lookup.Consume`: binary search for the edge labelled `c`; on success
   * the cursor moves to the child, on failure it is unchanged.
   */
  method Consume(blob: seq<byte>, cur: Cursor, c: int) returns (ok: bool, next: Cursor)
    requires CursorOk(blob, cur)
    ensures ok <==> Step(blob, cur, c).Some?
    ensures next == if ok then Step(blob, cur, c).value else cur
    ensures CursorOk(blob, next)
  {
    var l := Uint16At(blob, cur.index);
    ghost var k := FirstAtLeast(blob, cur.index, c, 0);
    assert forall p :: 0 <= p < l ==> EdgeAtLeast(blob, cur.index, c, p) == (EdgeRune(blob, cur.index, p) >= c);
    var f := p => EdgeAtLeast(blob, cur.index, c, p);
    var idx := SortSearch(l, f);
    assert k < l ==> f(k);
    assert idx < l ==> EdgeRune(blob, cur.index, idx) >= c;
    assert idx == k;
    if idx >= l {
      return false, cur;
    }
    var r := DecodeRune(blob, Uint16At(blob, cur.index + 2 + idx * 5));
    if r != c {
      return false, cur;
    }
    var newMeanings := Uint24At(blob, cur.index + 2 + idx * 5 + 2);
    var lenMeanings := blob[newMeanings];
    var newIndex := newMeanings + 1 + (lenMeanings as int) * 3;
    return true, At(newMeanings, newIndex);
  }

  /** `IsWord`: the cursor has entered a node whose meaning count is nonzero. */
  predicate IsWord(blob: seq<byte>, cur: Cursor)
    requires cur.At? ==> -1 <= cur.meanings < |blob|
  {
    if cur.Zero? || cur.meanings == -1 then false
    else blob[cur.meanings] > 0
  }

  /** The cursor after consuming every character of `s`, if each step succeeds. */
  ghost function Walk(blob: seq<byte>, cur: Cursor, s: seq<int>): (r: Option<Cursor>)
    requires CursorOk(blob, cur)
    ensures r.Some? ==> CursorOk(blob, r.value)
    decreases |s|
  {
    if s == [] then Some(cur)
    else
      match Step(blob, cur, s[0])
      case None => None
      case Some(next) => Walk(blob, next, s[1..])
  }

  /** Walking one character further is one more step. */
  lemma {:induction false} WalkSnoc(blob: seq<byte>, cur: Cursor, s: seq<int>, c: int)
    requires CursorOk(blob, cur)
    ensures Walk(blob, cur, s + [c]) ==
      match Walk(blob, cur, s)
      case None => None
      case Some(w) => Step(blob, w, c)
    decreases |s|
  {
    if s == [] {
      assert [c][1..] == [];
    } else {
      assert (s + [c])[1..] == s[1..] + [c];
      match Step(blob, cur, s[0])
      case None =>
      case Some(next) => WalkSnoc(blob, next, s[1..], c);
    }
  }

  /** Walking one more character of `s` is one more step. */
  lemma {:induction false} WalkPrefix(blob: seq<byte>, cur: Cursor, s: seq<int>, k: nat)
    requires CursorOk(blob, cur) && k < |s|
    ensures Walk(blob, cur, s[..k + 1]) ==
      match Walk(blob, cur, s[..k])
      case None => None
      case Some(w) => Step(blob, w, s[k])
  {
    assert s[..k + 1] == s[..k] + [s[k]];
    WalkSnoc(blob, cur, s[..k], s[k]);
  }

  /** Once a walk fails, every longer walk fails too. */
  lemma {:induction false} WalkFailsBeyond(blob: seq<byte>, cur: Cursor, s: seq<int>, k: nat, m: nat)
    requires CursorOk(blob, cur)
    requires k <= m <= |s| && Walk(blob, cur, s[..k]).None?
    ensures Walk(blob, cur, s[..m]).None?
    decreases m - k
  {
    if k < m {
      WalkPrefix(blob, cur, s, k);
      WalkFailsBeyond(blob, cur, s, k + 1, m);
    }
  }

  // ---------------------------------------------------------------------
  // Meaning records
  // ---------------------------------------------------------------------

  /** One syllable: a byte above 127 starts a 15-bit code, otherwise it is the length of a literal. */
  function ReadPinyin(blob: seq<byte>, pos: nat): (r: Option<(Pinyin, nat)>)
    ensures r.Some? ==> pos < r.value.1 <= |blob|
  {
    if pos >= |blob| then None
    else if blob[pos] > 127 then
      if pos + 2 > |blob| then None
      else Some((Pinyin(Uint16At(blob, pos) % 0x8000, []), pos + 2))
    else if pos + 1 + blob[pos] > |blob| then None
    else Some((Pinyin(0, blob[pos + 1..pos + 1 + blob[pos]]), pos + 1 + blob[pos]))
  }

  /** One gloss: a 2-byte length and that many bytes. */
  function ReadGloss(blob: seq<byte>, pos: nat): (r: Option<(seq<byte>, nat)>)
    ensures r.Some? ==> pos < r.value.1 <= |blob|
  {
    if pos + 2 > |blob| then None
    else
      var l := Uint16At(blob, pos);
      if pos + 2 + l > |blob| then None
      else Some((blob[pos + 2..pos + 2 + l], pos + 2 + l))
  }

  /** A decoded spelling difference: at `pos` the traditional and simplified code points. */
  datatype Diff = Diff(pos: byte, traditional: int, simplified: int)

  /** One variant: a position byte and the table indices of both code points. */
  function ReadDiff(blob: seq<byte>, pos: nat): (r: Option<(Diff, nat)>)
    ensures r.Some? ==> pos < r.value.1 <= |blob|
  {
    if pos + 5 > |blob| then None
    else
      var t := Uint16At(blob, pos + 1);
      var s := Uint16At(blob, pos + 3);
      if 6 + 3 * t > |blob| || 6 + 3 * s > |blob| then None
      else Some((Diff(blob[pos], DecodeRune(blob, t), DecodeRune(blob, s)), pos + 5))
  }

  /** `acc` in front of the items of a successful read. */
  function Prepend<T>(acc: seq<T>, r: Option<(seq<T>, nat)>): Option<(seq<T>, nat)>
  {
    match r
    case None => None
    case Some(rest) => Some((acc + rest.0, rest.1))
  }

  lemma {:induction false} PrependNothing<T>(r: Option<(seq<T>, nat)>)
    ensures Prepend([], r) == r
  {
    if r.Some? {
      assert [] + r.value.0 == r.value.0;
    }
  }

  lemma {:induction false} PrependTwice<T>(a: seq<T>, b: seq<T>, r: Option<(seq<T>, nat)>)
    ensures Prepend(a, Prepend(b, r)) == Prepend(a + b, r)
  {
    if r.Some? {
      assert a + (b + r.value.0) == (a + b) + r.value.0;
    }
  }

  /** `n` syllables from `pos` on, and the position after them. */
  function Pinyins(blob: seq<byte>, pos: nat, n: nat): (r: Option<(seq<Pinyin>, nat)>)
    ensures r.Some? ==> |r.value.0| == n
    decreases n
  {
    if n == 0 then Some(([], pos))
    else
      match ReadPinyin(blob, pos)
      case None => None
      case Some(first) => Prepend([first.0], Pinyins(blob, first.1, n - 1))
  }

  /** `n` glosses from `pos` on, and the position after them. */
  function Glosses(blob: seq<byte>, pos: nat, n: nat): (r: Option<(seq<seq<byte>>, nat)>)
    ensures r.Some? ==> |r.value.0| == n
    decreases n
  {
    if n == 0 then Some(([], pos))
    else
      match ReadGloss(blob, pos)
      case None => None
      case Some(first) => Prepend([first.0], Glosses(blob, first.1, n - 1))
  }

  /** `n` variant diffs from `pos` on, and the position after them. */
  function Diffs(blob: seq<byte>, pos: nat, n: nat): (r: Option<(seq<Diff>, nat)>)
    ensures r.Some? ==> |r.value.0| == n
    decreases n
  {
    if n == 0 then Some(([], pos))
    else
      match ReadDiff(blob, pos)
      case None => None
      case Some(first) => Prepend([first.0], Diffs(blob, first.1, n - 1))
  }

  /** The positions the diffs write to. */
  ghost predicate WritesAt(ds: seq<Diff>, k: int)
  {
    exists j :: 0 <= j < |ds| && ds[j].pos == k
  }

  /** One spelling rebuilt from the matched word: each diff overwrites one position. */
  function Patch(word: seq<int>, ds: seq<Diff>, traditional: bool): (r: Option<seq<int>>)
    ensures r.Some? ==> |r.value| == |word|
    decreases |ds|
  {
    if ds == [] then Some(word)
    else
      var t :- Patch(word, ds[..|ds| - 1], traditional);
      var d := ds[|ds| - 1];
      if d.pos < |t| then Some(t[d.pos := if traditional then d.traditional else d.simplified])
      else None
  }

  /**
   * Patching succeeds exactly when every position lies inside the word; the
   * result agrees with the word where no diff writes and holds a diff's
   * code point where it is the last diff writing there.
   */
  lemma {:induction false} PatchSpec(word: seq<int>, ds: seq<Diff>, traditional: bool)
    ensures Patch(word, ds, traditional).Some? <==> forall j :: 0 <= j < |ds| ==> ds[j].pos < |word|
    ensures Patch(word, ds, traditional).Some? ==>
      forall k :: 0 <= k < |word| && !WritesAt(ds, k) ==> Patch(word, ds, traditional).value[k] == word[k]
    ensures Patch(word, ds, traditional).Some? ==>
      forall j :: 0 <= j < |ds| && (forall i :: j < i < |ds| ==> ds[i].pos != ds[j].pos) ==>
        Patch(word, ds, traditional).value[ds[j].pos] ==
          (if traditional then ds[j].traditional else ds[j].simplified)
    decreases |ds|
  {
    if ds != [] {
      var init := ds[..|ds| - 1];
      var d := ds[|ds| - 1];
      PatchSpec(word, init, traditional);
      forall j | 0 <= j < |ds| - 1 ensures ds[j] == init[j] { }
      if forall j :: 0 <= j < |ds| ==> ds[j].pos < |word| {
        assert forall j :: 0 <= j < |init| ==> init[j].pos < |word| by {
          forall j | 0 <= j < |init| ensures init[j].pos < |word| {
            assert init[j] == ds[j];
          }
        }
      } else {
        var j :| 0 <= j < |ds| && ds[j].pos >= |word|;
        if j < |init| {
          assert init[j] == ds[j];
        }
      }
    }
  }

  /** The variant part of a record: with no diffs both spellings are empty, otherwise patched copies of the word. */
  function Spellings(word: seq<int>, ds: seq<Diff>): Option<(seq<int>, seq<int>)>
  {
    if ds == [] then Some(([], []))
    else
      var simp :- Patch(word, ds, false);
      var trad :- Patch(word, ds, true);
      Some((simp, trad))
  }

  /** The meaning record at `pos`, read as the reader does: HSK level, syllables, glosses, variants. */
  function ReadRecord(blob: seq<byte>, pos: nat, word: seq<int>): Option<Meaning>
  {
    if pos + 2 > |blob| then None
    else
      var pins :- Pinyins(blob, pos + 2, blob[pos + 1]);
      if pins.1 >= |blob| then None
      else
        var glosses :- Glosses(blob, pins.1 + 1, blob[pins.1]);
        if glosses.1 >= |blob| then None
        else
          var diffs :- Diffs(blob, glosses.1 + 1, blob[glosses.1]);
          var sp :- Spellings(word, diffs.0);
          Some(Meaning(pins.0, glosses.0, blob[pos], sp.0, sp.1))
  }

  /** A record whose three lists decode reads as the HSK byte, those lists and the spellings the diffs give. */
  lemma {:induction false} ReadRecordParts(blob: seq<byte>, pos: nat, word: seq<int>, n1: nat, ps: seq<Pinyin>, p1: nat,
                                           n2: nat, gs: seq<seq<byte>>, p2: nat, n3: nat, ds: seq<Diff>, end: nat)
    requires pos + 2 <= |blob| && blob[pos + 1] == n1 && Pinyins(blob, pos + 2, n1) == Some((ps, p1))
    requires p1 < |blob| && blob[p1] == n2 && Glosses(blob, p1 + 1, n2) == Some((gs, p2))
    requires p2 < |blob| && blob[p2] == n3 && Diffs(blob, p2 + 1, n3) == Some((ds, end))
    ensures ReadRecord(blob, pos, word) ==
      match Spellings(word, ds)
      case None => None
      case Some(sp) => Some(Meaning(ps, gs, blob[pos], sp.0, sp.1))
  {
  }

  /** Start of the meaning-offset array: the 3-byte trie size plus the header before it. */
  function MeaningRegion(blob: seq<byte>): Option<nat>
  {
    if |blob| < 3 then None
    else
      var n := Uint24At(blob, 0);
      if 6 + 3 * n > |blob| then None
      else Some(Uint24At(blob, 3 + 3 * n) + 6 + 3 * n)
  }

  /** Record `i` of the node whose meaning list starts at `list`: found through its global meaning index. */
  function ReadListed(blob: seq<byte>, region: nat, list: nat, word: seq<int>, i: nat): Option<Meaning>
  {
    if list + 1 + 3 * i + 3 > |blob| then None
    else
      var idx := Uint24At(blob, list + 1 + 3 * i);
      if region + 3 * idx + 3 > |blob| then None
      else ReadRecord(blob, region + Uint24At(blob, region + 3 * idx), word)
  }

  /** The first `n` records of a node's meaning list. */
  function ReadList(blob: seq<byte>, region: nat, list: nat, word: seq<int>, n: nat): (r: Option<seq<Meaning>>)
    ensures r.Some? ==> |r.value| == n
    decreases n
  {
    if n == 0 then Some([])
    else
      var ms :- ReadList(blob, region, list, word, n - 1);
      var m :- ReadListed(blob, region, list, word, n - 1);
      Some(ms + [m])
  }

  /**
   * What `Lookup.Meanings(word)` returns: nothing for the zero cursor, the
   * root or a node without meanings, otherwise one decoded record per
   * meaning index; None where the source would read out of range.
   */
  function DecodeMeanings(blob: seq<byte>, cur: Cursor, word: seq<int>): (r: Option<seq<Meaning>>)
    ensures cur.Zero? || cur.meanings == -1 ==> r == Some([])
    ensures r.Some? && cur.At? && 0 <= cur.meanings < |blob| ==> |r.value| == blob[cur.meanings] as int
  {
    if cur.Zero? || cur.meanings == -1 then Some([])
    else if !(0 <= cur.meanings < |blob|) then None
    else if blob[cur.meanings] == 0 then Some([])
    else
      var region :- MeaningRegion(blob);
      ReadList(blob, region, cur.meanings, word, blob[cur.meanings])
  }

  /**
   * The spellings of a decoded meaning fit the word it was looked up by:
   * both empty when the record has no diffs, otherwise both as long as the
   * word.
   */
  ghost predicate Respelt(m: Meaning, word: seq<int>)
  {
    |m.simplified| == |m.traditional| && (|m.simplified| == 0 || |m.simplified| == |word|)
  }

  lemma {:induction false} RecordRespelt(blob: seq<byte>, pos: nat, word: seq<int>)
    requires ReadRecord(blob, pos, word).Some?
    ensures Respelt(ReadRecord(blob, pos, word).value, word)
  {
  }

  lemma {:induction false} ListRespelt(blob: seq<byte>, region: nat, list: nat, word: seq<int>, n: nat)
    requires ReadList(blob, region, list, word, n).Some?
    ensures forall q :: 0 <= q < n ==> Respelt(ReadList(blob, region, list, word, n).value[q], word)
    decreases n
  {
    if n > 0 {
      ListRespelt(blob, region, list, word, n - 1);
      var idx := Uint24At(blob, list + 1 + 3 * (n - 1));
      RecordRespelt(blob, region + Uint24At(blob, region + 3 * idx), word);
    }
  }

  /**
   * Every meaning `Meanings(word)` returns respells the whole word or
   * nothing: the simplified spelling `simplified.ToInplace` copies over the
   * matched runes is empty or exactly as long as the match.
   */
  lemma {:induction false} DecodedRespelt(blob: seq<byte>, cur: Cursor, word: seq<int>)
    requires DecodeMeanings(blob, cur, word).Some?
    ensures forall q :: 0 <= q < |DecodeMeanings(blob, cur, word).value| ==>
      Respelt(DecodeMeanings(blob, cur, word).value[q], word)
  {
    if cur.At? && 0 <= cur.meanings < |blob| && blob[cur.meanings] != 0 {
      ListRespelt(blob, MeaningRegion(blob).value, cur.meanings, word, blob[cur.meanings]);
    }
  }

  /** The syllable loop of `Meanings`. */
  method ReadPinyins(blob: seq<byte>, pos: nat, n: nat) returns (r: Option<(seq<Pinyin>, nat)>)
    ensures r == Pinyins(blob, pos, n)
  {
    var pinyins: seq<Pinyin> := [];
    var p: nat := pos;
    var j: nat := 0;
    PrependNothing(Pinyins(blob, pos, n));
    while j < n
      invariant 0 <= j <= n
      invariant Pinyins(blob, pos, n) == Prepend(pinyins, Pinyins(blob, p, n - j))
    {
      if p >= |blob| {
        return None;
      }
      var b := blob[p];
      var x: Pinyin;
      var next: nat;
      if b > 127 {
        if p + 2 > |blob| {
          return None;
        }
        x, next := Pinyin(Uint16At(blob, p) % 0x8000, []), p + 2;
      } else {
        if p + 1 + b > |blob| {
          return None;
        }
        x, next := Pinyin(0, blob[p + 1..p + 1 + b]), p + 1 + b;
      }
      assert ReadPinyin(blob, p) == Some((x, next));
      PrependTwice(pinyins, [x], Pinyins(blob, next, n - j - 1));
      pinyins, p, j := pinyins + [x], next, j + 1;
    }
    assert pinyins + [] == pinyins;
    return Some((pinyins, p));
  }

  /** The gloss loop of `Meanings`. */
  method ReadGlosses(blob: seq<byte>, pos: nat, n: nat) returns (r: Option<(seq<seq<byte>>, nat)>)
    ensures r == Glosses(blob, pos, n)
  {
    var means: seq<seq<byte>> := [];
    var p: nat := pos;
    var j: nat := 0;
    PrependNothing(Glosses(blob, pos, n));
    while j < n
      invariant 0 <= j <= n
      invariant Glosses(blob, pos, n) == Prepend(means, Glosses(blob, p, n - j))
    {
      if p + 2 > |blob| {
        return None;
      }
      var l := Uint16At(blob, p);
      if p + 2 + l > |blob| {
        return None;
      }
      var x := blob[p + 2..p + 2 + l];
      assert ReadGloss(blob, p) == Some((x, p + 2 + l));
      PrependTwice(means, [x], Glosses(blob, p + 2 + l, n - j - 1));
      means, p, j := means + [x], p + 2 + l, j + 1;
    }
    assert means + [] == means;
    return Some((means, p));
  }

  /** The variant loop of `Meanings`: both spellings start as copies of the word and each diff overwrites one position. */
  method ApplyVariants(blob: seq<byte>, pos: nat, n: nat, word: seq<int>) returns (r: Option<(seq<int>, seq<int>)>)
    ensures r == (match Diffs(blob, pos, n)
                  case None => None
                  case Some(ds) => Spellings(word, ds.0))
  {
    var simp: seq<int> := [];
    var trad: seq<int> := [];
    if n != 0 {
      simp := word;
      trad := word;
    }
    ghost var ds: seq<Diff> := [];
    var p: nat := pos;
    var j: nat := 0;
    PrependNothing(Diffs(blob, pos, n));
    while j < n
      invariant 0 <= j <= n && |ds| == j
      invariant n == 0 ==> simp == [] && trad == []
      invariant Diffs(blob, pos, n) == Prepend(ds, Diffs(blob, p, n - j))
      invariant n != 0 ==> Patch(word, ds, false) == Some(simp) && Patch(word, ds, true) == Some(trad)
    {
      if p + 5 > |blob| {
        return None;
      }
      var cpos := blob[p];
      var t := Uint16At(blob, p + 1);
      var s := Uint16At(blob, p + 3);
      if 6 + 3 * t > |blob| || 6 + 3 * s > |blob| {
        return None;
      }
      var d := Diff(cpos, DecodeRune(blob, t), DecodeRune(blob, s));
      assert ReadDiff(blob, p) == Some((d, p + 5));
      PrependTwice(ds, [d], Diffs(blob, p + 5, n - j - 1));
      assert (ds + [d])[..|ds + [d]| - 1] == ds;
      if cpos >= |trad| {
        PatchOutside(word, ds + [d], |ds|, Diffs(blob, p + 5, n - j - 1));
        return None;
      }
      trad := trad[cpos := d.traditional];
      simp := simp[cpos := d.simplified];
      ds, p, j := ds + [d], p + 5, j + 1;
    }
    assert ds + [] == ds;
    return Some((simp, trad));
  }

  /** A diff that lies outside the word makes the variant part fail, whatever diffs follow it. */
  lemma {:induction false} PatchOutside(word: seq<int>, ds: seq<Diff>, j: nat, rest: Option<(seq<Diff>, nat)>)
    requires j < |ds| && ds[j].pos >= |word|
    ensures match Prepend(ds, rest)
            case None => true
            case Some(all) => Spellings(word, all.0).None?
  {
    if rest.Some? {
      var all := ds + rest.value.0;
      assert all[j] == ds[j];
      PatchSpec(word, all, false);
    }
  }

  /** The body of the record loop of `Meanings`: one record decoded at `pos`. */
  method DecodeRecord(blob: seq<byte>, pos: nat, word: seq<int>) returns (m: Option<Meaning>)
    ensures m == ReadRecord(blob, pos, word)
  {
    if pos + 2 > |blob| {
      return None;
    }
    var hsk := blob[pos];
    var pinSz := blob[pos + 1];
    var pins := ReadPinyins(blob, pos + 2, pinSz);
    if pins.None? || pins.value.1 >= |blob| {
      return None;
    }
    var p := pins.value.1;
    var meansSize := blob[p];
    var glosses := ReadGlosses(blob, p + 1, meansSize);
    if glosses.None? || glosses.value.1 >= |blob| {
      return None;
    }
    p := glosses.value.1;
    var varSize := blob[p];
    var spellings := ApplyVariants(blob, p + 1, varSize, word);
    if spellings.None? {
      return None;
    }
    return Some(Meaning(pins.value.0, glosses.value.0, hsk, spellings.value.0, spellings.value.1));
  }

  /** One pass of the record loop of `Meanings`: look up the record offset of meaning `i`, then decode it. */
  method DecodeListed(blob: seq<byte>, offset: nat, list: nat, word: seq<int>, i: nat) returns (m: Option<Meaning>)
    ensures m == ReadListed(blob, offset, list, word, i)
  {
    if list + 1 + i * 3 + 3 > |blob| {
      return None;
    }
    var idx := Uint24At(blob, list + 1 + i * 3);
    if offset + idx * 3 + 3 > |blob| {
      return None;
    }
    var meaningOffset := Uint24At(blob, offset + idx * 3);
    m := DecodeRecord(blob, offset + meaningOffset, word);
  }

  /** `Lookup.Meanings`: decode every meaning of the node the cursor stands on. */
  method Meanings(blob: seq<byte>, cur: Cursor, word: seq<int>) returns (r: Option<seq<Meaning>>)
    ensures r == DecodeMeanings(blob, cur, word)
  {
    if cur.Zero? || cur.meanings == -1 {
      return Some([]);
    }
    if !(0 <= cur.meanings < |blob|) {
      return None;
    }
    var lenMeanings := blob[cur.meanings];
    if lenMeanings == 0 {
      return Some([]);
    }
    var region := MeaningRegion(blob);
    if region.None? {
      return None;
    }
    var offset := region.value;
    var meanings: seq<Meaning> := [];
    var i: nat := 0;
    while i < lenMeanings
      invariant 0 <= i <= lenMeanings
      invariant ReadList(blob, offset, cur.meanings, word, i) == Some(meanings)
    {
      var m := DecodeListed(blob, offset, cur.meanings, word, i);
      if m.None? {
        ReadListFails(blob, offset, cur.meanings, word, i + 1, lenMeanings);
        return None;
      }
      meanings := meanings + [m.value];
      i := i + 1;
    }
    return Some(meanings);
  }

  lemma {:induction false} ReadListFails(blob: seq<byte>, region: nat, list: nat, word: seq<int>, k: nat, n: nat)
    requires k <= n && ReadList(blob, region, list, word, k).None?
    ensures ReadList(blob, region, list, word, n).None?
    decreases n - k
  {
    if k < n {
      ReadListFails(blob, region, list, word, k, n - 1);
    }
  }

  // ---------------------------------------------------------------------
  // Segmentation
  // ---------------------------------------------------------------------

  /** `isSoftMatch`: the characters that may stand alone before a longer word. */
  predicate IsSoftMatch(r: int)
  {
    r == '不' as int || r == '在' as int || r == '有' as int || r == '没' as int
  }

  /** The cursor reached by walking `s` from the root, or the zero cursor if the walk fails. */
  ghost function Reached(blob: seq<byte>, s: seq<int>): Cursor
    requires WellFormed(blob)
  {
    match Walk(blob, Begin(blob), s)
    case None => Zero
    case Some(c) => c
  }

  /** The first `k` characters of `str` spell a word of the dictionary. */
  ghost predicate WordAt(blob: seq<byte>, str: seq<int>, k: int)
    requires WellFormed(blob)
  {
    0 <= k <= |str| && Walk(blob, Begin(blob), str[..k]).Some? && IsWord(blob, Reached(blob, str[..k]))
  }

  /** `k` is a word boundary: a word ends there and it does not split a run of Latin letters. */
  ghost predicate Boundary(blob: seq<byte>, latin: set<int>, str: seq<int>, k: int)
    requires WellFormed(blob)
  {
    1 <= k <= |str| && WordAt(blob, str, k) && !(str[k - 1] in latin && k < |str| && str[k] in latin)
  }

  /** The largest boundary not beyond `k`, or 0. */
  ghost function Longest(blob: seq<byte>, latin: set<int>, str: seq<int>, k: nat): (n: nat)
    requires WellFormed(blob) && k <= |str|
    ensures n <= k
    ensures n > 0 ==> Boundary(blob, latin, str, n)
    ensures forall j :: n < j <= k ==> !Boundary(blob, latin, str, j)
  {
    if k == 0 then 0
    else if Boundary(blob, latin, str, k) then k
    else Longest(blob, latin, str, k - 1)
  }

  /**
   * The rescan finds a word in `str[1..]` ending at `j + 1` that is not
   * skipped and reaches past a match of length `longest`.
   */
  ghost predicate SoftHit(blob: seq<byte>, latin: set<int>, str: seq<int>, longest: nat, j: int)
    requires WellFormed(blob) && |str| >= 1
  {
    && 0 <= j < |str| - 1
    && WordAt(blob, str[1..], j + 1)
    && !(str[1..][j] in latin && j + 1 < |str| && str[j + 1] in latin)
    && j >= longest - 1
  }

  /** The soft-match rule applies: `str[0]` is a soft character and a word on its own, and the rescan hits. */
  ghost predicate SoftOverride(blob: seq<byte>, latin: set<int>, str: seq<int>)
    requires WellFormed(blob)
  {
    && |str| >= 1
    && IsSoftMatch(str[0])
    && Boundary(blob, latin, str, 1)
    && exists j :: SoftHit(blob, latin, str, Longest(blob, latin, str, |str|), j)
  }

  /**
   * The rescan's Latin test reads `str[j + 1]`, which in the coordinates of
   * `str[1..]` is the current character itself: every Latin character of the
   * rescan is skipped, whatever follows it.
   */
  lemma {:induction false} SoftRescanSkipsLatin(blob: seq<byte>, latin: set<int>, str: seq<int>, longest: nat, j: int)
    requires WellFormed(blob) && 1 <= |str| && 0 <= j < |str| - 1
    ensures str[1..][j] in latin ==> !SoftHit(blob, latin, str, longest, j)
  {
  }

  /** After a successful step to `l`, position `i + 1` is a boundary exactly when `l` is a word and no Latin run continues. */
  lemma {:induction false} BoundaryAfterStep(blob: seq<byte>, latin: set<int>, str: seq<int>, i: nat, l: Cursor)
    requires WellFormed(blob) && i < |str|
    requires Walk(blob, Begin(blob), str[..i + 1]) == Some(l)
    ensures Reached(blob, str[..i + 1]) == l
    ensures Boundary(blob, latin, str, i + 1) <==>
      IsWord(blob, l) && !(str[i] in latin && i + 1 < |str| && str[i + 1] in latin)
  {
  }

  /**
   * What the first loop of `Dict.Lookup` knows after `i` characters: the walk
   * reached `l`, `lastWordLen` is the longest boundary so far with `lastWord`
   * its node, and `softMatch` is set once the soft-match case was seen.
   */
  ghost predicate ScanState(blob: seq<byte>, latin: set<int>, str: seq<int>, i: nat, l: Cursor,
                            lastWordLen: nat, lastWord: Cursor, softMatch: Cursor)
    requires WellFormed(blob)
  {
    && i <= |str|
    && Walk(blob, Begin(blob), str[..i]) == Some(l)
    && lastWordLen == Longest(blob, latin, str, i)
    && lastWord == (if lastWordLen > 0 then Reached(blob, str[..lastWordLen]) else Zero)
    && softMatch == if i >= 1 && IsSoftMatch(str[0]) && Boundary(blob, latin, str, 1)
                    then Reached(blob, str[..1]) else Zero
  }

  /**
   * One more character consumed: the boundary `i + 1` is recorded unless it
   * splits a Latin run or reaches no word, and the soft match is recorded
   * when it is the first character.
   */
  lemma {:induction false} ScanAdvance(blob: seq<byte>, latin: set<int>, str: seq<int>, i: nat, l: Cursor,
                                       lastWordLen: nat, lastWord: Cursor, softMatch: Cursor, next: Cursor,
                                       newLen: nat, newWord: Cursor, newSoft: Cursor)
    requires WellFormed(blob) && i < |str| && ScanState(blob, latin, str, i, l, lastWordLen, lastWord, softMatch)
    requires Step(blob, l, str[i]) == Some(next)
    requires var hit := IsWord(blob, next) && !(str[i] in latin && i + 1 < |str| && str[i + 1] in latin);
      && newLen == (if hit then i + 1 else lastWordLen)
      && newWord == (if hit then next else lastWord)
      && newSoft == (if hit && i == 0 && IsSoftMatch(str[0]) then next else softMatch)
    ensures ScanState(blob, latin, str, i + 1, next, newLen, newWord, newSoft)
  {
    WalkPrefix(blob, Begin(blob), str, i);
    BoundaryAfterStep(blob, latin, str, i, next);
  }

  /** When the walk stops at character `i`, what the loop has found is final. */
  lemma {:induction false} ScanStops(blob: seq<byte>, latin: set<int>, str: seq<int>, i: nat, l: Cursor,
                                     lastWordLen: nat, lastWord: Cursor, softMatch: Cursor)
    requires WellFormed(blob) && i < |str| && ScanState(blob, latin, str, i, l, lastWordLen, lastWord, softMatch)
    requires Step(blob, l, str[i]).None?
    ensures lastWordLen == Longest(blob, latin, str, |str|)
    ensures lastWord == if lastWordLen > 0 then Reached(blob, str[..lastWordLen]) else Zero
    ensures softMatch == if |str| >= 1 && IsSoftMatch(str[0]) && Boundary(blob, latin, str, 1)
                         then Reached(blob, str[..1]) else Zero
  {
    WalkPrefix(blob, Begin(blob), str, i);
    forall k | i < k <= |str|
      ensures !Boundary(blob, latin, str, k)
    {
      WalkFailsBeyond(blob, Begin(blob), str, i + 1, k);
    }
    if i == 0 {
      assert !Boundary(blob, latin, str, 1);
    }
  }

  /** Before the first loop of `Dict.Lookup` nothing is consumed and nothing found. */
  lemma {:induction false} ScanStart(blob: seq<byte>, latin: set<int>, str: seq<int>)
    requires WellFormed(blob)
    ensures ScanState(blob, latin, str, 0, Begin(blob), 0, Zero, Zero)
  {
    assert str[..0] == [];
  }

  /** When the whole of `str` was consumed, what the loop has found is final. */
  lemma {:induction false} ScanDone(blob: seq<byte>, latin: set<int>, str: seq<int>, l: Cursor,
                                    lastWordLen: nat, lastWord: Cursor, softMatch: Cursor)
    requires WellFormed(blob) && ScanState(blob, latin, str, |str|, l, lastWordLen, lastWord, softMatch)
    ensures lastWordLen == Longest(blob, latin, str, |str|)
    ensures lastWord == if lastWordLen > 0 then Reached(blob, str[..lastWordLen]) else Zero
    ensures softMatch == if |str| >= 1 && IsSoftMatch(str[0]) && Boundary(blob, latin, str, 1)
                         then Reached(blob, str[..1]) else Zero
  {
  }

  /**
   * One pass of the first loop of `Dict.Lookup`: consume `str[i]`; unless
   * that splits a Latin run, a word reached here becomes the longest match,
   * and on the first character a soft character also becomes the soft match.
   * `ok` is false, and nothing changes, when the character cannot be consumed.
   */
  method ScanStep(blob: seq<byte>, latin: set<int>, str: seq<int>, i: nat, l: Cursor,
                  lastWordLen: nat, lastWord: Cursor, softMatch: Cursor)
    returns (ok: bool, l': Cursor, lastWordLen': nat, lastWord': Cursor, softMatch': Cursor)
    requires WellFormed(blob) && i < |str| && ScanState(blob, latin, str, i, l, lastWordLen, lastWord, softMatch)
    ensures ok ==> ScanState(blob, latin, str, i + 1, l', lastWordLen', lastWord', softMatch')
    ensures !ok ==> Step(blob, l, str[i]).None?
  {
    var next;
    ok, next := Consume(blob, l, str[i]);
    l', lastWordLen', lastWord', softMatch' := next, lastWordLen, lastWord, softMatch;
    if !ok {
      return;
    }
    ghost var hit := IsWord(blob, next) && !(str[i] in latin && i + 1 < |str| && str[i + 1] in latin);
    ScanAdvance(blob, latin, str, i, l, lastWordLen, lastWord, softMatch, next,
                if hit then i + 1 else lastWordLen, if hit then next else lastWord,
                if hit && i == 0 && IsSoftMatch(str[0]) then next else softMatch);
    if str[i] in latin && i + 1 < |str| && str[i + 1] in latin {
      return;
    }
    if IsWord(blob, l') {
      lastWordLen' := i + 1;
      lastWord' := l';
      if i == 0 && IsSoftMatch(str[i]) {
        softMatch' := l';
      }
    }
  }

  /**
   * The first loop of `Dict.Lookup`: walk `str` while consuming succeeds,
   * remembering the last boundary passed and, when the first character is a
   * soft character and a word on its own, the cursor after it.
   */
  method ScanLongest(blob: seq<byte>, latin: set<int>, str: seq<int>) returns (lastWordLen: nat, lastWord: Cursor, softMatch: Cursor)
    requires WellFormed(blob)
    ensures lastWordLen == Longest(blob, latin, str, |str|)
    ensures lastWord == if lastWordLen > 0 then Reached(blob, str[..lastWordLen]) else Zero
    ensures softMatch == if |str| >= 1 && IsSoftMatch(str[0]) && Boundary(blob, latin, str, 1)
                         then Reached(blob, str[..1]) else Zero
  {
    lastWordLen := 0;
    softMatch := Zero;
    lastWord := Zero;
    var l := Begin(blob);
    var i: nat := 0;
    ScanStart(blob, latin, str);
    while i < |str|
      invariant ScanState(blob, latin, str, i, l, lastWordLen, lastWord, softMatch)
    {
      var ok, l', len', word', soft' := ScanStep(blob, latin, str, i, l, lastWordLen, lastWord, softMatch);
      if !ok {
        ScanStops(blob, latin, str, i, l, lastWordLen, lastWord, softMatch);
        return;
      }
      l, lastWordLen, lastWord, softMatch := l', len', word', soft';
      i := i + 1;
    }
    ScanDone(blob, latin, str, l, lastWordLen, lastWord, softMatch);
  }

  /** No position below `i` is a soft hit. */
  ghost predicate NoSoftHitBefore(blob: seq<byte>, latin: set<int>, str: seq<int>, longest: nat, i: nat)
    requires WellFormed(blob) && |str| >= 1
  {
    i == 0 || (NoSoftHitBefore(blob, latin, str, longest, i - 1) && !SoftHit(blob, latin, str, longest, i - 1))
  }

  lemma {:induction false} NoSoftHitBeforeAll(blob: seq<byte>, latin: set<int>, str: seq<int>, longest: nat, i: nat)
    requires WellFormed(blob) && |str| >= 1 && NoSoftHitBefore(blob, latin, str, longest, i)
    ensures forall j :: 0 <= j < i ==> !SoftHit(blob, latin, str, longest, j)
  {
    if i > 0 {
      NoSoftHitBeforeAll(blob, latin, str, longest, i - 1);
    }
  }

  /**
   * What the second loop of `Dict.Lookup` knows after `i` characters of
   * `str[1..]`: the walk reached `l` and no earlier position was a soft hit.
   */
  ghost predicate RescanState(blob: seq<byte>, latin: set<int>, str: seq<int>, longest: nat, i: nat, l: Cursor)
    requires WellFormed(blob) && |str| >= 1
  {
    && i <= |str| - 1
    && Walk(blob, Begin(blob), str[1..][..i]) == Some(l)
    && NoSoftHitBefore(blob, latin, str, longest, i)
  }

  lemma {:induction false} RescanStart(blob: seq<byte>, latin: set<int>, str: seq<int>, longest: nat)
    requires WellFormed(blob) && |str| >= 1
    ensures RescanState(blob, latin, str, longest, 0, Begin(blob))
  {
    assert str[1..][..0] == [];
  }

  /**
   * After a successful step to `next`, position `i` is a soft hit exactly
   * when `next` is a word, no Latin run continues and the match is long
   * enough; when it is not, the loop carries on from `next`.
   */
  lemma {:induction false} RescanAdvance(blob: seq<byte>, latin: set<int>, str: seq<int>, longest: nat, i: nat,
                                         l: Cursor, next: Cursor)
    requires WellFormed(blob) && |str| >= 1 && i < |str| - 1 && RescanState(blob, latin, str, longest, i, l)
    requires Step(blob, l, str[1..][i]) == Some(next)
    ensures SoftHit(blob, latin, str, longest, i) <==>
      && IsWord(blob, next)
      && !(str[1..][i] in latin && i + 1 < |str| && str[i + 1] in latin)
      && i >= longest - 1
    ensures !SoftHit(blob, latin, str, longest, i) ==> RescanState(blob, latin, str, longest, i + 1, next)
  {
    WalkPrefix(blob, Begin(blob), str[1..], i);
  }

  /** Once the walk along `str[1..]` fails, there is no soft hit at all. */
  lemma {:induction false} RescanStops(blob: seq<byte>, latin: set<int>, str: seq<int>, longest: nat, i: nat, l: Cursor)
    requires WellFormed(blob) && |str| >= 1 && i < |str| - 1 && RescanState(blob, latin, str, longest, i, l)
    requires Step(blob, l, str[1..][i]).None?
    ensures !exists j :: SoftHit(blob, latin, str, longest, j)
  {
    WalkPrefix(blob, Begin(blob), str[1..], i);
    NoSoftHitBeforeAll(blob, latin, str, longest, i);
    forall j | i <= j < |str| - 1
      ensures !SoftHit(blob, latin, str, longest, j)
    {
      WalkFailsBeyond(blob, Begin(blob), str[1..], i + 1, j + 1);
    }
  }

  /** When all of `str[1..]` was consumed without a hit, there is none. */
  lemma {:induction false} RescanDone(blob: seq<byte>, latin: set<int>, str: seq<int>, longest: nat, l: Cursor)
    requires WellFormed(blob) && |str| >= 1 && RescanState(blob, latin, str, longest, |str| - 1, l)
    ensures !exists j :: SoftHit(blob, latin, str, longest, j)
  {
    NoSoftHitBeforeAll(blob, latin, str, longest, |str| - 1);
  }

  /**
   * The second loop of `Dict.Lookup`: walk `str[1..]` looking for a word that
   * ends no earlier than the longest match.
   */
  method SoftRescan(blob: seq<byte>, latin: set<int>, str: seq<int>, lastWordLen: nat) returns (hit: bool)
    requires WellFormed(blob) && |str| >= 1
    ensures hit <==> exists j :: SoftHit(blob, latin, str, lastWordLen, j)
  {
    var rest := str[1..];
    var l := Begin(blob);
    var i: nat := 0;
    RescanStart(blob, latin, str, lastWordLen);
    while i < |rest|
      invariant RescanState(blob, latin, str, lastWordLen, i, l)
    {
      var ok, next := Consume(blob, l, rest[i]);
      if !ok {
        RescanStops(blob, latin, str, lastWordLen, i, l);
        return false;
      }
      RescanAdvance(blob, latin, str, lastWordLen, i, l, next);
      l := next;
      if rest[i] in latin && i + 1 < |str| && str[i + 1] in latin {
        i := i + 1;
        continue;
      }
      if IsWord(blob, l) && i >= lastWordLen - 1 {
        return true;
      }
      i := i + 1;
    }
    RescanDone(blob, latin, str, lastWordLen, l);
    return false;
  }

  /**
   * `Dict.Lookup`: the length of the word at the start of `str` and its
   * meanings. The length is the longest boundary, or 1 when the soft-match
   * rule overrides it; the meanings are those of the node reached.
   */
  method Lookup(blob: seq<byte>, latin: set<int>, str: seq<int>) returns (n: nat, ms: Option<seq<Meaning>>)
    requires WellFormed(blob)
    ensures n == if SoftOverride(blob, latin, str) then 1 else Longest(blob, latin, str, |str|)
    ensures n <= |str|
    ensures n == 0 <==> forall k :: !Boundary(blob, latin, str, k)
    ensures n > 0 ==> Boundary(blob, latin, str, n)
    ensures ms == DecodeMeanings(blob, Reached(blob, str[..n]), str[..n])
    ensures n == 0 ==> ms == Some([])
    ensures n > 0 && ms.Some? ==> |ms.value| > 0
  {
    var lastWordLen, lastWord, softMatch := ScanLongest(blob, latin, str);
    if !softMatch.IsZero() {
      var hit := SoftRescan(blob, latin, str, lastWordLen);
      if hit {
        n := 1;
        ms := Meanings(blob, softMatch, str[..1]);
        return;
      }
    }
    n := lastWordLen;
    ms := Meanings(blob, lastWord, str[..lastWordLen]);
    assert str[..0] == [];
  }
}
