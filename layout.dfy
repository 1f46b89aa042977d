/**
 * The generator and the reader agree on the flat parts of the blob: the
 * code-point table, the meaning-offset array and the meaning records. Each
 * lemma takes bytes the generator produced, placed somewhere in a blob, and
 * shows what the reader's decoder returns there.
 */
module Layout {
  import opened Wrappers
  import opened Bytes
  import opened Cedict
  import G = GenDict
  import D = Dict

  // ---------------------------------------------------------------------
  // The code-point table

  /** The code-point table of the blob holds `runes`: entry x decodes to runes[x]. */
  ghost predicate RunesAt(blob: seq<byte>, runes: seq<int>)
  {
    && 6 + 3 * |runes| <= |blob|
    && forall x {:trigger D.DecodeRune(blob, x)} :: 0 <= x < |runes| ==> D.DecodeRune(blob, x) == runes[x]
  }

  /** The table bytes the generator writes from position `p` on decode, entry by entry, to the table. */
  lemma {:induction false} RuneBytesAt(blob: seq<byte>, p: nat, runes: seq<int>, x: nat)
    requires G.RuneBytes(runes).Ok? && SubAt(blob, p, G.RuneBytes(runes).value)
    requires x < |runes|
    ensures |G.RuneBytes(runes).value| == 3 * |runes|
    ensures Uint24At(blob, p + 3 * x) == runes[x]
    decreases |runes|
  {
    var h := G.PutUint24(runes[0]).value;
    var t := G.RuneBytes(runes[1..]).value;
    SubAtSplit(blob, p, h, t);
    if x == 0 {
      SubAtU24(blob, p, runes[0]);
      RuneBytesLength(runes[1..]);
    } else {
      RuneBytesAt(blob, p + 3, runes[1..], x - 1);
    }
  }

  lemma {:induction false} RuneBytesLength(runes: seq<int>)
    requires G.RuneBytes(runes).Ok?
    ensures |G.RuneBytes(runes).value| == 3 * |runes|
    decreases |runes|
  {
    if runes != [] {
      RuneBytesLength(runes[1..]);
    }
  }

  // ---------------------------------------------------------------------
  // Syllables

  /** A syllable the reader reproduces: a code below 0x8000, and code 0 beside a literal. */
  predicate PinyinFits(p: Pinyin)
  {
    p.code < 0x8000 && (p.literal != [] ==> p.code == 0)
  }

  lemma {:induction false} ReadPinyinBytes(blob: seq<byte>, pos: nat, p: Pinyin)
    requires PinyinFits(p) && G.PinyinBytes(p).Ok? && SubAt(blob, pos, G.PinyinBytes(p).value)
    ensures D.ReadPinyin(blob, pos) == Some((p, pos + |G.PinyinBytes(p).value|))
  {
    var b := G.PinyinBytes(p).value;
    if p.literal == [] {
      assert p.code % 0x8000 == p.code;
      assert b == U16(p.code + 0x8000);
      SubAtU16(blob, pos, p.code + 0x8000);
      SubAtSplit(blob, pos, [b[0]], [b[1]]);
      assert b[0] == (p.code + 0x8000) / 256 >= 128;
      SubAtByte(blob, pos, b[0]);
      assert (p.code + 0x8000) % 0x8000 == p.code;
    } else {
      SubAtSplit(blob, pos, [|p.literal|], p.literal);
      SubAtByte(blob, pos, |p.literal|);
      SubAtSlice(blob, pos + 1, p.literal);
    }
  }

  lemma {:induction false} ReadPinyinList(blob: seq<byte>, pos: nat, ps: seq<Pinyin>)
    requires forall k :: 0 <= k < |ps| ==> PinyinFits(ps[k])
    requires G.PinyinList(ps).Ok? && SubAt(blob, pos, G.PinyinList(ps).value)
    ensures D.Pinyins(blob, pos, |ps|) == Some((ps, pos + |G.PinyinList(ps).value|))
    decreases |ps|
  {
    if ps != [] {
      var h := G.PinyinBytes(ps[0]).value;
      var t := G.PinyinList(ps[1..]).value;
      SubAtSplit(blob, pos, h, t);
      ReadPinyinBytes(blob, pos, ps[0]);
      ReadPinyinList(blob, pos + |h|, ps[1..]);
      assert [ps[0]] + ps[1..] == ps;
    }
  }

  // ---------------------------------------------------------------------
  // Glosses

  lemma {:induction false} ReadGlossList(blob: seq<byte>, pos: nat, ms: seq<seq<byte>>)
    requires G.GlossList(ms).Ok? && SubAt(blob, pos, G.GlossList(ms).value)
    ensures D.Glosses(blob, pos, |ms|) == Some((ms, pos + |G.GlossList(ms).value|))
    decreases |ms|
  {
    if ms != [] {
      var t := G.GlossList(ms[1..]).value;
      SubAtSplit3(blob, pos, U16(|ms[0]|), ms[0], t);
      SubAtU16(blob, pos, |ms[0]|);
      SubAtSlice(blob, pos + 2, ms[0]);
      assert D.ReadGloss(blob, pos) == Some((ms[0], pos + 2 + |ms[0]|));
      ReadGlossList(blob, pos + 2 + |ms[0]|, ms[1..]);
      assert [ms[0]] + ms[1..] == ms;
    }
  }

  // ---------------------------------------------------------------------
  // Variants

  /** The reader's view of the generator's variants. */
  function AsDiffs(vs: seq<G.Variant>): (ds: seq<D.Diff>)
    ensures |ds| == |vs|
  {
    if vs == [] then [] else [D.Diff(vs[0].pos, vs[0].traditional, vs[0].simplified)] + AsDiffs(vs[1..])
  }

  lemma {:induction false} AsDiffsAt(vs: seq<G.Variant>, k: nat)
    requires k < |vs|
    ensures AsDiffs(vs)[k] == D.Diff(vs[k].pos, vs[k].traditional, vs[k].simplified)
    decreases k
  {
    if k > 0 {
      AsDiffsAt(vs[1..], k - 1);
    }
  }

  /** The index `EncodeRune` writes for `c` decodes back to `c`. */
  lemma {:induction false} DecodeEncoded(blob: seq<byte>, runes: seq<int>, c: int)
    requires RunesAt(blob, runes) && |runes| <= 0x1_0000
    requires G.EncodeRune(c, runes).Ok?
    ensures 6 + 3 * G.EncodeRune(c, runes).value <= |blob|
    ensures D.DecodeRune(blob, G.EncodeRune(c, runes).value) == c
  {
  }

  /** The first diff of a nonempty variant list: position byte, then both code-point indices. */
  lemma {:induction false} VariantListHead(vs: seq<G.Variant>, runes: seq<int>)
    requires vs != [] && G.VariantList(vs, runes).Ok?
    ensures G.EncodeRune(vs[0].traditional, runes).Ok? && G.EncodeRune(vs[0].simplified, runes).Ok?
    ensures G.VariantList(vs[1..], runes).Ok?
    ensures G.VariantList(vs, runes).value ==
      ([vs[0].pos] + U16(G.EncodeRune(vs[0].traditional, runes).value) + U16(G.EncodeRune(vs[0].simplified, runes).value))
      + G.VariantList(vs[1..], runes).value
  {
  }

  lemma {:induction false} ReadOneVariant(blob: seq<byte>, pos: nat, v: G.Variant, runes: seq<int>)
    requires RunesAt(blob, runes) && |runes| <= 0x1_0000
    requires G.EncodeRune(v.traditional, runes).Ok? && G.EncodeRune(v.simplified, runes).Ok?
    requires SubAt(blob, pos, [v.pos] + U16(G.EncodeRune(v.traditional, runes).value) + U16(G.EncodeRune(v.simplified, runes).value))
    ensures D.ReadDiff(blob, pos) == Some((D.Diff(v.pos, v.traditional, v.simplified), pos + 5))
  {
    var t := G.EncodeRune(v.traditional, runes).value;
    var s := G.EncodeRune(v.simplified, runes).value;
    SubAtSplit3(blob, pos, [v.pos], U16(t), U16(s));
    SubAtByte(blob, pos, v.pos);
    SubAtU16(blob, pos + 1, t);
    SubAtU16(blob, pos + 3, s);
    DecodeEncoded(blob, runes, v.traditional);
    DecodeEncoded(blob, runes, v.simplified);
  }

  /** A placed variant list: its first diff, then the rest five bytes later. */
  lemma {:induction false} VariantListAt(blob: seq<byte>, pos: nat, vs: seq<G.Variant>, runes: seq<int>)
    requires vs != [] && G.VariantList(vs, runes).Ok? && SubAt(blob, pos, G.VariantList(vs, runes).value)
    ensures G.EncodeRune(vs[0].traditional, runes).Ok? && G.EncodeRune(vs[0].simplified, runes).Ok?
    ensures SubAt(blob, pos, [vs[0].pos] + U16(G.EncodeRune(vs[0].traditional, runes).value) + U16(G.EncodeRune(vs[0].simplified, runes).value))
    ensures G.VariantList(vs[1..], runes).Ok? && SubAt(blob, pos + 5, G.VariantList(vs[1..], runes).value)
    ensures |G.VariantList(vs, runes).value| == 5 + |G.VariantList(vs[1..], runes).value|
  {
    VariantListHead(vs, runes);
    var head := [vs[0].pos] + U16(G.EncodeRune(vs[0].traditional, runes).value) + U16(G.EncodeRune(vs[0].simplified, runes).value);
    SubAtSplit(blob, pos, head, G.VariantList(vs[1..], runes).value);
  }

  /** Diff `k` of `vs` stands five bytes per diff after `pos` and reads back. */
  ghost predicate DiffAt(blob: seq<byte>, pos: nat, vs: seq<G.Variant>, k: nat)
  {
    && k < |vs|
    && D.ReadDiff(blob, pos + 5 * k) == Some((D.Diff(vs[k].pos, vs[k].traditional, vs[k].simplified), pos + 5 * k + 5))
  }

  /** A placed variant list: five bytes per variant, each of which reads back. */
  lemma {:induction false} ReadVariantList(blob: seq<byte>, pos: nat, vs: seq<G.Variant>, runes: seq<int>, bytes: seq<byte>)
    requires RunesAt(blob, runes) && |runes| <= 0x1_0000
    requires G.VariantList(vs, runes) == Ok(bytes) && SubAt(blob, pos, bytes)
    ensures |bytes| == 5 * |vs|
    ensures forall k :: 0 <= k < |vs| ==> DiffAt(blob, pos, vs, k)
    decreases |vs|
  {
    if vs != [] {
      ghost var next := pos + 5;
      VariantTail(blob, pos, vs, runes, bytes, next);
      var rest := G.VariantList(vs[1..], runes).value;
      ReadVariantList(blob, next, vs[1..], runes, rest);
      VariantFirst(blob, pos, vs, runes);
      forall k | 0 < k < |vs| ensures DiffAt(blob, pos, vs, k) {
        DiffShift(blob, pos, next, vs, k - 1);
      }
    }
  }

  /** The rest of a placed variant list stands five bytes after its start. */
  lemma {:induction false} VariantTail(blob: seq<byte>, pos: nat, vs: seq<G.Variant>, runes: seq<int>, bytes: seq<byte>, next: nat)
    requires vs != [] && G.VariantList(vs, runes) == Ok(bytes) && SubAt(blob, pos, bytes) && next == pos + 5
    ensures G.VariantList(vs[1..], runes).Ok? && SubAt(blob, next, G.VariantList(vs[1..], runes).value)
    ensures |bytes| == 5 + |G.VariantList(vs[1..], runes).value|
  {
    VariantListAt(blob, pos, vs, runes);
  }

  /** The first variant of a placed list reads back. */
  lemma {:induction false} VariantFirst(blob: seq<byte>, pos: nat, vs: seq<G.Variant>, runes: seq<int>)
    requires RunesAt(blob, runes) && |runes| <= 0x1_0000
    requires vs != [] && G.VariantList(vs, runes).Ok? && SubAt(blob, pos, G.VariantList(vs, runes).value)
    ensures DiffAt(blob, pos, vs, 0)
  {
    VariantListAt(blob, pos, vs, runes);
    ReadOneVariant(blob, pos, vs[0], runes);
  }

  /** Diff `k` of the rest, five bytes on, is diff `k + 1` of the whole list, and back. */
  lemma {:induction false} DiffShift(blob: seq<byte>, pos: nat, next: nat, vs: seq<G.Variant>, k: nat)
    requires next == pos + 5 && k + 1 < |vs|
    ensures DiffAt(blob, next, vs[1..], k) <==> DiffAt(blob, pos, vs, k + 1)
  {
    assert vs[1..][k] == vs[k + 1];
    assert next + 5 * k == pos + 5 * (k + 1);
  }

  /** The diff loop over diffs that each read back: all of them, ending five bytes per diff on. */
  lemma {:induction false} DiffsRead(blob: seq<byte>, pos: nat, vs: seq<G.Variant>, n: nat, ds: seq<D.Diff>, end: nat)
    requires n == |vs| && ds == AsDiffs(vs) && end == pos + 5 * n
    requires forall k :: 0 <= k < n ==> DiffAt(blob, pos, vs, k)
    ensures D.Diffs(blob, pos, n) == Some((ds, end))
    decreases n
  {
    if n > 0 {
      ghost var next := pos + 5;
      forall k | 0 <= k < n - 1 ensures DiffAt(blob, next, vs[1..], k) {
        DiffShift(blob, pos, next, vs, k);
      }
      ghost var end' := next + 5 * (n - 1);
      DiffsRead(blob, next, vs[1..], n - 1, AsDiffs(vs[1..]), end');
      assert DiffAt(blob, pos, vs, 0);
      DiffsStep(blob, pos, n, D.Diff(vs[0].pos, vs[0].traditional, vs[0].simplified), next, AsDiffs(vs[1..]), end');
    }
  }

  /** One step of the diff loop: the first diff, then the rest from where it ends. */
  lemma {:induction false} DiffsStep(blob: seq<byte>, pos: nat, n: nat, d: D.Diff, next: nat, rest: seq<D.Diff>, end: nat)
    requires n > 0 && D.ReadDiff(blob, pos) == Some((d, next)) && D.Diffs(blob, next, n - 1) == Some((rest, end))
    ensures D.Diffs(blob, pos, n) == Some(([d] + rest, end))
  {
  }

  // ---------------------------------------------------------------------
  // Records

  /** A meaning the reader reproduces: fewer than 256 syllables, each of which fits. */
  predicate MeaningFits(m: G.Meaning)
  {
    |m.pinyin| < 256 && forall k :: 0 <= k < |m.pinyin| ==> PinyinFits(m.pinyin[k])
  }

  /** A record's placed syllable part: the count byte after the HSK byte at `pos`, then syllables the reader decodes back. */
  lemma {:induction false} PinyinsAt(blob: seq<byte>, pos: nat, ps: seq<Pinyin>)
    requires |ps| < 256 && forall k :: 0 <= k < |ps| ==> PinyinFits(ps[k])
    requires G.PinyinsBytes(ps).Ok? && SubAt(blob, pos + 1, G.PinyinsBytes(ps).value)
    ensures pos + 1 < |blob| && blob[pos + 1] == |ps|
    ensures D.Pinyins(blob, pos + 2, |ps|) == Some((ps, pos + 1 + |G.PinyinsBytes(ps).value|))
  {
    SubAtCons(blob, pos + 1, |ps|, G.PinyinList(ps).value);
    ReadPinyinList(blob, pos + 2, ps);
  }

  /** A placed gloss part: the count byte, then glosses the reader decodes back. */
  lemma {:induction false} GlossesAt(blob: seq<byte>, q: nat, ms: seq<seq<byte>>)
    requires G.GlossesBytes(ms).Ok? && SubAt(blob, q, G.GlossesBytes(ms).value)
    ensures q < |blob| && blob[q] == |ms|
    ensures D.Glosses(blob, q + 1, |ms|) == Some((ms, q + |G.GlossesBytes(ms).value|))
  {
    SubAtCons(blob, q, |ms|, G.GlossList(ms).value);
    ReadGlossList(blob, q + 1, ms);
  }

  /** A placed variant part: the count byte, then diffs the reader decodes back. */
  lemma {:induction false} VariantsAt(blob: seq<byte>, q: nat, vs: seq<G.Variant>, runes: seq<int>)
    requires RunesAt(blob, runes) && |runes| <= 0x1_0000
    requires G.VariantsBytes(vs, runes).Ok? && SubAt(blob, q, G.VariantsBytes(vs, runes).value)
    ensures q < |blob| && blob[q] == |vs|
    ensures D.Diffs(blob, q + 1, |vs|) == Some((AsDiffs(vs), q + |G.VariantsBytes(vs, runes).value|))
  {
    var body := G.VariantList(vs, runes).value;
    SubAtCons(blob, q, |vs|, body);
    ReadVariantList(blob, q + 1, vs, runes, body);
    DiffsRead(blob, q + 1, vs, |vs|, AsDiffs(vs), q + 1 + 5 * |vs|);
  }

  /** A placed record: the HSK byte, then the syllable, gloss and variant parts one after another. */
  lemma {:induction false} RecordSplit(blob: seq<byte>, pos: nat, m: G.Meaning, runes: seq<int>)
    requires G.RecordBytes(m, runes).Ok? && SubAt(blob, pos, G.RecordBytes(m, runes).value)
    ensures G.PinyinsBytes(m.pinyin).Ok? && G.GlossesBytes(m.meaning).Ok? && G.VariantsBytes(m.variant, runes).Ok?
    ensures var p := G.PinyinsBytes(m.pinyin).value;
            var g := G.GlossesBytes(m.meaning).value;
            var v := G.VariantsBytes(m.variant, runes).value;
            && pos < |blob| && blob[pos] == m.hskLevel
            && SubAt(blob, pos + 1, p) && SubAt(blob, pos + 1 + |p|, g) && SubAt(blob, pos + 1 + |p| + |g|, v)
            && |G.RecordBytes(m, runes).value| == 1 + |p| + |g| + |v|
  {
    var p := G.PinyinsBytes(m.pinyin).value;
    var g := G.GlossesBytes(m.meaning).value;
    var v := G.VariantsBytes(m.variant, runes).value;
    SubAtSplit3(blob, pos, [m.hskLevel] + p, g, v);
    SubAtCons(blob, pos, m.hskLevel, p);
  }

  /** The syllables of a placed record decode right after its HSK and count bytes. */
  lemma {:induction false} RecordPinyins(blob: seq<byte>, pos: nat, m: G.Meaning, runes: seq<int>) returns (p1: nat)
    requires MeaningFits(m)
    requires G.RecordBytes(m, runes).Ok? && SubAt(blob, pos, G.RecordBytes(m, runes).value)
    ensures pos + 2 <= |blob| && blob[pos] == m.hskLevel && blob[pos + 1] == |m.pinyin|
    ensures D.Pinyins(blob, pos + 2, |m.pinyin|) == Some((m.pinyin, p1))
  {
    RecordSplit(blob, pos, m, runes);
    PinyinsAt(blob, pos, m.pinyin);
    p1 := pos + 1 + |G.PinyinsBytes(m.pinyin).value|;
  }

  /** The glosses of a placed record decode after its syllables, ending where its variant part begins. */
  lemma {:induction false} RecordGlosses(blob: seq<byte>, pos: nat, m: G.Meaning, runes: seq<int>, p1: nat) returns (p2: nat)
    requires MeaningFits(m)
    requires G.RecordBytes(m, runes).Ok? && SubAt(blob, pos, G.RecordBytes(m, runes).value)
    requires D.Pinyins(blob, pos + 2, |m.pinyin|) == Some((m.pinyin, p1))
    ensures G.PinyinsBytes(m.pinyin).Ok? && G.GlossesBytes(m.meaning).Ok?
    ensures p1 < |blob| && blob[p1] == |m.meaning| && D.Glosses(blob, p1 + 1, |m.meaning|) == Some((m.meaning, p2))
    ensures p2 == pos + 1 + |G.PinyinsBytes(m.pinyin).value| + |G.GlossesBytes(m.meaning).value|
  {
    RecordSplit(blob, pos, m, runes);
    PinyinsAt(blob, pos, m.pinyin);
    GlossesAt(blob, p1, m.meaning);
    p2 := p1 + |G.GlossesBytes(m.meaning).value|;
  }

  /** The diffs of a placed record decode after its glosses, up to the end of the record. */
  lemma {:induction false} RecordVariants(blob: seq<byte>, pos: nat, m: G.Meaning, runes: seq<int>, p2: nat) returns (end: nat)
    requires RunesAt(blob, runes) && |runes| <= 0x1_0000
    requires G.RecordBytes(m, runes).Ok? && SubAt(blob, pos, G.RecordBytes(m, runes).value)
    requires G.PinyinsBytes(m.pinyin).Ok? && G.GlossesBytes(m.meaning).Ok?
    requires p2 == pos + 1 + |G.PinyinsBytes(m.pinyin).value| + |G.GlossesBytes(m.meaning).value|
    ensures p2 < |blob| && blob[p2] == |m.variant| && D.Diffs(blob, p2 + 1, |m.variant|) == Some((AsDiffs(m.variant), end))
    ensures end == pos + |G.RecordBytes(m, runes).value|
  {
    RecordSplit(blob, pos, m, runes);
    VariantsAt(blob, p2, m.variant, runes);
    end := p2 + |G.VariantsBytes(m.variant, runes).value|;
  }

  /** The record the generator writes decodes to the same HSK level, syllables and glosses, and the diffs applied to `word`. */
  lemma {:induction false} ReadRecordBytes(blob: seq<byte>, pos: nat, m: G.Meaning, runes: seq<int>, word: seq<int>)
    requires RunesAt(blob, runes) && |runes| <= 0x1_0000 && MeaningFits(m)
    requires G.RecordBytes(m, runes).Ok? && SubAt(blob, pos, G.RecordBytes(m, runes).value)
    ensures D.ReadRecord(blob, pos, word) ==
      match D.Spellings(word, AsDiffs(m.variant))
      case None => None
      case Some(sp) => Some(D.Meaning(m.pinyin, m.meaning, m.hskLevel, sp.0, sp.1))
  {
    var p1 := RecordPinyins(blob, pos, m, runes);
    var p2 := RecordGlosses(blob, pos, m, runes, p1);
    var end := RecordVariants(blob, pos, m, runes, p2);
    D.ReadRecordParts(blob, pos, word, |m.pinyin|, m.pinyin, p1, |m.meaning|, m.meaning, p2,
                      |m.variant|, AsDiffs(m.variant), end);
  }


  /**
   * Diffs at ascending positions inside the word, each carrying the target's
   * code point and covering every position where the word and the target
   * differ, patch the word into the target.
   */
  lemma {:induction false} PatchReaches(word: seq<int>, target: seq<int>, ds: seq<D.Diff>, traditional: bool)
    requires |target| == |word|
    requires forall j :: 0 <= j < |ds| ==> ds[j].pos < |word|
    requires forall j :: 0 <= j < |ds| ==> (if traditional then ds[j].traditional else ds[j].simplified) == target[ds[j].pos]
    requires forall j, i :: 0 <= j < i < |ds| ==> ds[j].pos < ds[i].pos
    requires forall k :: 0 <= k < |word| && word[k] != target[k] ==> D.WritesAt(ds, k)
    ensures D.Patch(word, ds, traditional) == Some(target)
  {
    D.PatchSpec(word, ds, traditional);
    var r := D.Patch(word, ds, traditional).value;
    forall k | 0 <= k < |word| ensures r[k] == target[k] {
      if D.WritesAt(ds, k) {
        var j :| 0 <= j < |ds| && ds[j].pos == k;
        assert forall i :: j < i < |ds| ==> ds[i].pos != ds[j].pos;
      }
    }
    assert r == target;
  }

  /** The reader's view of the diffs `getVariant` finds: inside the word, ascending, with both code points. */
  lemma {:induction false} VariantDiffs(traditional: seq<int>, simplified: seq<int>)
    requires |traditional| == |simplified| <= 256
    ensures G.GetVariant(traditional, simplified).Ok?
    ensures var ds := AsDiffs(G.GetVariant(traditional, simplified).value);
            && (forall j :: 0 <= j < |ds| ==> ds[j].pos < |traditional|)
            && (forall j :: 0 <= j < |ds| ==> ds[j].traditional == traditional[ds[j].pos] && ds[j].simplified == simplified[ds[j].pos])
            && (forall j, i :: 0 <= j < i < |ds| ==> ds[j].pos < ds[i].pos)
            && (forall k :: 0 <= k < |traditional| && traditional[k] != simplified[k] ==> D.WritesAt(ds, k))
  {
    G.GetVariantCorrect(traditional, simplified);
    var vs := G.GetVariant(traditional, simplified).value;
    var ds := AsDiffs(vs);
    forall j | 0 <= j < |ds|
      ensures ds[j] == D.Diff(vs[j].pos, vs[j].traditional, vs[j].simplified)
    {
      AsDiffsAt(vs, j);
    }
    forall k | 0 <= k < |traditional| && traditional[k] != simplified[k]
      ensures D.WritesAt(ds, k)
    {
      var j :| 0 <= j < |vs| && vs[j].pos == k;
      assert ds[j].pos == k;
    }
  }

  /**
   * With the variants `getVariant` found, patching either spelling of the
   * headword reproduces both spellings; with no variants both are empty.
   */
  lemma {:induction false} SpellingsRestored(traditional: seq<int>, simplified: seq<int>, word: seq<int>)
    requires |traditional| == |simplified| <= 256
    requires word == traditional || word == simplified
    ensures D.Spellings(word, AsDiffs(G.GetVariant(traditional, simplified).value)) ==
      Some(if G.GetVariant(traditional, simplified).value == [] then ([], []) else (simplified, traditional))
  {
    VariantDiffs(traditional, simplified);
    var ds := AsDiffs(G.GetVariant(traditional, simplified).value);
    if ds != [] {
      PatchReaches(word, simplified, ds, false);
      PatchReaches(word, traditional, ds, true);
    }
  }
}
