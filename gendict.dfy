/**
 * The dictionary generator: per-position spelling variants, the meaning
 * table, and the serialisation of the trie into the binary blob.
 *
 * Blob layout (big-endian): a 3-byte count N, N 3-byte code points in
 * ascending order, a 3-byte trie-region size, the trie records (root first),
 * an array of 3-byte meaning-record offsets relative to the start of that
 * array, and the variable-length meaning records.
 */
module GenDict {
  import opened Wrappers
  import opened Bytes
  import opened Search
  import opened Cedict
  import opened Trie

  /** The conditions under which the generator panics. */
  datatype BuildError =
    | NotEqualLength        // getVariant: the two spellings differ in length
    | TooManyRunes          // more than 0xFFFFFF distinct code points
    | Uint24OutOfBounds     // putUint24 given a value outside 24 bits
    | MeaningsOffsetTooBig  // the trie region is larger than 0xFFFFFF bytes
    | OffsetIndexTooBig     // a meaning record starts beyond 0xFFFFFF
    | LiteralTooLong        // a literal syllable longer than 127 bytes
    | TooManyMeanings       // more than 255 glosses
    | MeaningTooLarge       // a gloss longer than 0xFFFF bytes
    | RuneIndexNotFound     // a code point missing from the code-point table
    | TooManyVariants       // more than 255 variant positions
    | TooManySuccessors     // a node with more than 0xFFFF children
    | RuneTooBig            // a code-point index above 0xFFFF
    | NodeOffsetTooLarge    // a child content block starting beyond 0xFFFFFF
    | MeaningIndexTooLarge  // a global meaning index above 0xFFFFFF

  /** One position where the traditional and simplified spellings differ; `pos` is narrowed to a byte. */
  datatype Variant = Variant(pos: byte, traditional: int, simplified: int)

  /** One entry of the global meaning table. */
  datatype Meaning = Meaning(pinyin: seq<Pinyin>, meaning: seq<seq<byte>>, hskLevel: byte, variant: seq<Variant>)

  /** `putUint24`: three big-endian bytes, or a panic for values outside 24 bits. */
  function PutUint24(v: int): (r: Result<seq<byte>, BuildError>)
    ensures r.Ok? <==> 0 <= v <= 0xFF_FFFF
    ensures r.Ok? ==> |r.value| == 3 && Uint24At(r.value, 0) == v
  {
    if v < 0 || v > 0xFF_FFFF then Err(Uint24OutOfBounds) else Ok(U24(v))
  }

  // ---------------------------------------------------------------------
  // Spelling variants

  /** `getVariant`: the positions where the two spellings differ, with both code points. */
  function GetVariant(traditional: seq<int>, simplified: seq<int>): (r: Result<seq<Variant>, BuildError>)
    ensures r.Err? <==> |traditional| != |simplified|
  {
    if |traditional| != |simplified| then Err(NotEqualLength)
    else Ok(DiffsFrom(traditional, simplified, 0))
  }

  function DiffsFrom(traditional: seq<int>, simplified: seq<int>, i: nat): (r: seq<Variant>)
    requires |traditional| == |simplified| && i <= |traditional|
    decreases |traditional| - i
  {
    if i == |traditional| then []
    else if traditional[i] == simplified[i] then DiffsFrom(traditional, simplified, i + 1)
    else [Variant(i % 256, traditional[i], simplified[i])] + DiffsFrom(traditional, simplified, i + 1)
  }

  /** Every listed diff is a real difference at a position from `from` on, with both code points. */
  ghost predicate DiffsSound(traditional: seq<int>, simplified: seq<int>, vs: seq<Variant>, from: nat)
    requires |traditional| == |simplified|
  {
    forall k :: 0 <= k < |vs| ==>
      && from <= vs[k].pos < |traditional|
      && traditional[vs[k].pos] != simplified[vs[k].pos]
      && vs[k].traditional == traditional[vs[k].pos]
      && vs[k].simplified == simplified[vs[k].pos]
  }

  /** The diff positions are strictly ascending. */
  ghost predicate DiffsAscending(vs: seq<Variant>)
  {
    forall k, l :: 0 <= k < l < |vs| ==> vs[k].pos < vs[l].pos
  }

  /** Every differing position from `from` on is listed. */
  ghost predicate DiffsComplete(traditional: seq<int>, simplified: seq<int>, vs: seq<Variant>, from: nat)
    requires |traditional| == |simplified|
  {
    forall i :: from <= i < |traditional| && traditional[i] != simplified[i] ==>
      exists k :: 0 <= k < |vs| && vs[k].pos == i
  }

  /** A diff list starting at `i` is the diff at `i`, if there is one, followed by the list from `i + 1`. */
  lemma {:induction false} DiffsFromStep(traditional: seq<int>, simplified: seq<int>, i: nat)
    requires |traditional| == |simplified| <= 256 && i < |traditional|
    ensures DiffsFrom(traditional, simplified, i) ==
      if traditional[i] == simplified[i] then DiffsFrom(traditional, simplified, i + 1)
      else [Variant(i, traditional[i], simplified[i])] + DiffsFrom(traditional, simplified, i + 1)
  {
  }

  lemma {:induction false} DiffsFromSound(traditional: seq<int>, simplified: seq<int>, i: nat)
    requires |traditional| == |simplified| <= 256 && i <= |traditional|
    ensures DiffsSound(traditional, simplified, DiffsFrom(traditional, simplified, i), i)
    ensures DiffsAscending(DiffsFrom(traditional, simplified, i))
    decreases |traditional| - i
  {
    if i < |traditional| {
      DiffsFromSound(traditional, simplified, i + 1);
      DiffsFromStep(traditional, simplified, i);
      var rest := DiffsFrom(traditional, simplified, i + 1);
      if traditional[i] != simplified[i] {
        var vs := [Variant(i, traditional[i], simplified[i])] + rest;
        forall k | 1 <= k < |vs|
          ensures vs[k] == rest[k - 1] && vs[k].pos > i
        {
        }
        assert DiffsSound(traditional, simplified, vs, i);
      }
    }
  }

  lemma {:induction false} DiffsFromComplete(traditional: seq<int>, simplified: seq<int>, i: nat)
    requires |traditional| == |simplified| <= 256 && i <= |traditional|
    ensures DiffsComplete(traditional, simplified, DiffsFrom(traditional, simplified, i), i)
    decreases |traditional| - i
  {
    if i < |traditional| {
      DiffsFromComplete(traditional, simplified, i + 1);
      var rest := DiffsFrom(traditional, simplified, i + 1);
      var vs := DiffsFrom(traditional, simplified, i);
      forall j | i <= j < |traditional| && traditional[j] != simplified[j]
        ensures exists k :: 0 <= k < |vs| && vs[k].pos == j
      {
        if j == i {
          assert vs[0].pos == j;
        } else {
          var k :| 0 <= k < |rest| && rest[k].pos == j;
          if traditional[i] != simplified[i] {
            assert vs[k + 1].pos == j;
          } else {
            assert vs[k].pos == j;
          }
        }
      }
    }
  }

  /**
   * For headwords of at most 256 code points, getVariant succeeds on equal
   * lengths and lists, in ascending order, exactly the differing positions
   * with both code points.
   */
  lemma {:induction false} GetVariantCorrect(traditional: seq<int>, simplified: seq<int>)
    requires |traditional| == |simplified| <= 256
    ensures GetVariant(traditional, simplified).Ok?
    ensures DiffsSound(traditional, simplified, GetVariant(traditional, simplified).value, 0)
    ensures DiffsAscending(GetVariant(traditional, simplified).value)
    ensures DiffsComplete(traditional, simplified, GetVariant(traditional, simplified).value, 0)
  {
    DiffsFromSound(traditional, simplified, 0);
    DiffsFromComplete(traditional, simplified, 0);
  }

  /** Identical spellings produce no diff at all. */
  lemma {:induction false} NoDiffsWhenEqual(w: seq<int>, i: nat)
    requires i <= |w|
    ensures DiffsFrom(w, w, i) == []
    decreases |w| - i
  {
    if i < |w| {
      NoDiffsWhenEqual(w, i + 1);
    }
  }

  // ---------------------------------------------------------------------
  // Meaning records

  /** `binaryPinyin`: a code with the high bit set, or a length byte below 128 and the literal bytes. */
  function PinyinBytes(p: Pinyin): (r: Result<seq<byte>, BuildError>)
    ensures r.Err? <==> |p.literal| > 127
    ensures r.Ok? && p.literal == [] ==> |r.value| == 2 && r.value[0] >= 128
    ensures r.Ok? && p.literal != [] ==> r.value == [|p.literal|] + p.literal && |p.literal| < 128
  {
    if p.literal == [] then Ok(U16(p.code % 0x8000 + 0x8000))
    else if |p.literal| > 127 then Err(LiteralTooLong)
    else Ok([|p.literal|] + p.literal)
  }

  function PinyinList(ps: seq<Pinyin>): Result<seq<byte>, BuildError>
  {
    if ps == [] then Ok([])
    else
      var h :- PinyinBytes(ps[0]);
      var t :- PinyinList(ps[1..]);
      Ok(h + t)
  }

  /** `binaryPinyins`: the syllable count narrowed to a byte without a check, then each syllable. */
  function PinyinsBytes(ps: seq<Pinyin>): Result<seq<byte>, BuildError>
  {
    var body :- PinyinList(ps);
    Ok([Low8(|ps|)] + body)
  }

  function GlossList(ms: seq<seq<byte>>): Result<seq<byte>, BuildError>
  {
    if ms == [] then Ok([])
    else if |ms[0]| > 0xFFFF then Err(MeaningTooLarge)
    else
      var t :- GlossList(ms[1..]);
      Ok(U16(|ms[0]|) + ms[0] + t)
  }

  /** `binaryMeanings`: a count byte, then each gloss as a 2-byte length and its bytes. */
  function GlossesBytes(ms: seq<seq<byte>>): Result<seq<byte>, BuildError>
  {
    if |ms| > 255 then Err(TooManyMeanings)
    else
      var body :- GlossList(ms);
      Ok([|ms|] + body)
  }

  /** `encodeRune`: the code-point table index of `c`, narrowed to 16 bits; a panic when `c` is absent. */
  function EncodeRune(c: int, runes: seq<int>): (r: Result<int, BuildError>)
    ensures r.Ok? ==> 0 <= r.value <= 0xFFFF
    ensures StrictlyAscending(runes) ==> (r.Ok? <==> c in runes)
    ensures r.Ok? && |runes| <= 0x1_0000 ==> r.value < |runes| && runes[r.value] == c
  {
    var idx := LowerBound(runes, c);
    if idx >= |runes| || runes[idx] != c then
      LowerBoundMisses(runes, c);
      Err(RuneIndexNotFound)
    else Ok(idx % 0x1_0000)
  }

  function VariantList(vs: seq<Variant>, runes: seq<int>): Result<seq<byte>, BuildError>
  {
    if vs == [] then Ok([])
    else
      var t :- EncodeRune(vs[0].traditional, runes);
      var s :- EncodeRune(vs[0].simplified, runes);
      var rest :- VariantList(vs[1..], runes);
      Ok([vs[0].pos] + U16(t) + U16(s) + rest)
  }

  /** `binaryVariants`: a count byte, then position byte and the two code-point indices per diff. */
  function VariantsBytes(vs: seq<Variant>, runes: seq<int>): Result<seq<byte>, BuildError>
  {
    if |vs| > 0xFF then Err(TooManyVariants)
    else
      var body :- VariantList(vs, runes);
      Ok([|vs|] + body)
  }

  /** One meaning record as the loop body of `createBinaryDict` writes it. */
  function RecordBytes(m: Meaning, runes: seq<int>): Result<seq<byte>, BuildError>
  {
    var p :- PinyinsBytes(m.pinyin);
    var g :- GlossesBytes(m.meaning);
    var v :- VariantsBytes(m.variant, runes);
    Ok([m.hskLevel] + p + g + v)
  }

  /**
   * The meaning region from record `i` on: the 3-byte offsets (relative to
   * the start of the region) and the records themselves; `offsetIndex` is
   * where record `i` starts.
   */
  function MeaningTable(ms: seq<Meaning>, runes: seq<int>, i: nat, offsetIndex: nat): Result<(seq<byte>, seq<byte>), BuildError>
    requires i <= |ms|
    decreases |ms| - i
  {
    if i == |ms| then Ok(([], []))
    else if offsetIndex > 0xFF_FFFF then Err(OffsetIndexTooBig)
    else
      var rec :- RecordBytes(ms[i], runes);
      var rest :- MeaningTable(ms, runes, i + 1, offsetIndex + |rec|);
      Ok((U24(offsetIndex) + rest.0, rec + rest.1))
  }

  // ---------------------------------------------------------------------
  // The limits of the meaning encoders

  /** Every syllable literal fits the 7-bit length byte. */
  ghost predicate PinyinsEncodable(ps: seq<Pinyin>)
  {
    forall k :: 0 <= k < |ps| ==> |ps[k].literal| <= 127
  }

  /** `binaryPinyins` panics exactly on a literal over 127 bytes. */
  lemma {:induction false} PinyinsBytesOk(ps: seq<Pinyin>)
    ensures PinyinList(ps).Ok? <==> PinyinsEncodable(ps)
    ensures PinyinsBytes(ps).Ok? <==> PinyinsEncodable(ps)
    decreases |ps|
  {
    if ps != [] {
      PinyinsBytesOk(ps[1..]);
      assert PinyinsEncodable(ps) <==> |ps[0].literal| <= 127 && PinyinsEncodable(ps[1..]) by {
        forall k | 1 <= k < |ps| ensures ps[1..][k - 1] == ps[k] { }
      }
    }
  }

  /** Every gloss fits the 2-byte length field. */
  ghost predicate GlossesFit(ms: seq<seq<byte>>)
  {
    forall k :: 0 <= k < |ms| ==> |ms[k]| <= 0xFFFF
  }

  /** `binaryMeanings` panics exactly on more than 255 glosses or a gloss over 0xFFFF bytes. */
  lemma {:induction false} GlossesBytesOk(ms: seq<seq<byte>>)
    ensures GlossList(ms).Ok? <==> GlossesFit(ms)
    ensures GlossesBytes(ms).Ok? <==> |ms| <= 255 && GlossesFit(ms)
    decreases |ms|
  {
    if ms != [] {
      GlossesBytesOk(ms[1..]);
      assert GlossesFit(ms) <==> |ms[0]| <= 0xFFFF && GlossesFit(ms[1..]) by {
        forall k | 1 <= k < |ms| ensures ms[1..][k - 1] == ms[k] { }
      }
    }
  }

  /** Both code points of every diff are in the code-point table. */
  ghost predicate VariantsFound(vs: seq<Variant>, runes: seq<int>)
  {
    forall k :: 0 <= k < |vs| ==> vs[k].traditional in runes && vs[k].simplified in runes
  }

  /**
   * On an ascending table, `binaryVariants` panics exactly on more than 255
   * diffs or a code point `encodeRune` cannot find.
   */
  lemma {:induction false} VariantsBytesOk(vs: seq<Variant>, runes: seq<int>)
    requires StrictlyAscending(runes)
    ensures VariantList(vs, runes).Ok? <==> VariantsFound(vs, runes)
    ensures VariantsBytes(vs, runes).Ok? <==> |vs| <= 255 && VariantsFound(vs, runes)
    decreases |vs|
  {
    if vs != [] {
      VariantsBytesOk(vs[1..], runes);
      assert VariantsFound(vs, runes) <==>
        vs[0].traditional in runes && vs[0].simplified in runes && VariantsFound(vs[1..], runes) by {
        forall k | 1 <= k < |vs| ensures vs[1..][k - 1] == vs[k] { }
      }
    }
  }

  /** A meaning record the generator can write: all three parts within their limits. */
  ghost predicate RecordEncodable(m: Meaning, runes: seq<int>)
  {
    && PinyinsEncodable(m.pinyin)
    && |m.meaning| <= 255 && GlossesFit(m.meaning)
    && |m.variant| <= 255 && VariantsFound(m.variant, runes)
  }

  /** On an ascending table, one record is written exactly when its parts are within their limits. */
  lemma {:induction false} RecordBytesOk(m: Meaning, runes: seq<int>)
    requires StrictlyAscending(runes)
    ensures RecordBytes(m, runes).Ok? <==> RecordEncodable(m, runes)
  {
    PinyinsBytesOk(m.pinyin);
    GlossesBytesOk(m.meaning);
    VariantsBytesOk(m.variant, runes);
  }

  /** Every record from `i` on can be written. */
  ghost predicate RecordsOk(ms: seq<Meaning>, runes: seq<int>, i: nat)
  {
    forall k :: i <= k < |ms| ==> RecordBytes(ms[k], runes).Ok?
  }

  /** The total size of records `i` to `j - 1`. */
  ghost function RecordsSize(ms: seq<Meaning>, runes: seq<int>, i: nat, j: nat): nat
    requires i <= j <= |ms| && RecordsOk(ms, runes, i)
    decreases j - i
  {
    if i == j then 0 else |RecordBytes(ms[i], runes).value| + RecordsSize(ms, runes, i + 1, j)
  }

  /**
   * The meaning loop of `createBinaryDict` panics exactly when a record
   * cannot be written or the offset of the last record, the largest one,
   * exceeds 24 bits.
   */
  lemma {:induction false} MeaningTableOk(ms: seq<Meaning>, runes: seq<int>, i: nat, offsetIndex: nat)
    requires i <= |ms|
    ensures MeaningTable(ms, runes, i, offsetIndex).Ok? <==> TableFits(ms, runes, i, offsetIndex)
    decreases |ms| - i
  {
    var ok, next := MeaningTableCase(ms, runes, i, offsetIndex);
    if ok {
      MeaningTableOk(ms, runes, i + 1, next);
    }
  }

  /**
   * One step of the meaning loop: either both sides are decided at record
   * `i`, or both sides carry on from record `i + 1` at offset `next`.
   */
  lemma {:induction false} MeaningTableCase(ms: seq<Meaning>, runes: seq<int>, i: nat, offsetIndex: nat)
    returns (ok: bool, next: nat)
    requires i <= |ms|
    ensures !ok ==> (MeaningTable(ms, runes, i, offsetIndex).Ok? <==> TableFits(ms, runes, i, offsetIndex))
    ensures ok ==> i < |ms|
    ensures ok ==>
      ((MeaningTable(ms, runes, i + 1, next).Ok? <==> TableFits(ms, runes, i + 1, next)) ==>
       (MeaningTable(ms, runes, i, offsetIndex).Ok? <==> TableFits(ms, runes, i, offsetIndex)))
  {
    if i == |ms| {
      ok, next := false, 0;
    } else if offsetIndex > 0xFF_FFFF || RecordBytes(ms[i], runes).Err? {
      MeaningTableFails(ms, runes, i, offsetIndex);
      ok, next := false, 0;
    } else {
      var rec := RecordBytes(ms[i], runes).value;
      ok, next := true, offsetIndex + |rec|;
      MeaningTableStep(ms, runes, i, offsetIndex, rec, next);
    }
  }

  /** A record offset beyond 24 bits or an unwritable record fails the loop. */
  lemma {:induction false} MeaningTableFails(ms: seq<Meaning>, runes: seq<int>, i: nat, offsetIndex: nat)
    requires i < |ms| && (offsetIndex > 0xFF_FFFF || RecordBytes(ms[i], runes).Err?)
    ensures MeaningTable(ms, runes, i, offsetIndex).Err? && !TableFits(ms, runes, i, offsetIndex)
  {
    if RecordBytes(ms[i], runes).Err? {
      assert !RecordsOk(ms, runes, i);
    }
  }

  /** A written record passes both sides on to the records after it. */
  lemma {:induction false} MeaningTableStep(ms: seq<Meaning>, runes: seq<int>, i: nat, offsetIndex: nat, rec: seq<byte>,
                                            next: nat)
    requires i < |ms| && offsetIndex <= 0xFF_FFFF && RecordBytes(ms[i], runes) == Ok(rec) && next == offsetIndex + |rec|
    ensures MeaningTable(ms, runes, i, offsetIndex).Ok? <==> MeaningTable(ms, runes, i + 1, next).Ok?
    ensures TableFits(ms, runes, i, offsetIndex) <==> TableFits(ms, runes, i + 1, next)
  {
    RecordsSizeUnfold(ms, runes, i);
  }

  /** Every record from `i` on can be written, and the last one starts within 24 bits. */
  ghost predicate TableFits(ms: seq<Meaning>, runes: seq<int>, i: nat, offsetIndex: nat)
    requires i <= |ms|
  {
    && RecordsOk(ms, runes, i)
    && (i == |ms| || offsetIndex + RecordsSize(ms, runes, i, |ms| - 1) <= 0xFF_FFFF)
  }

  /** Records from `i` on: record `i`, then those from `i + 1`, and their sizes add up. */
  lemma {:induction false} RecordsSizeUnfold(ms: seq<Meaning>, runes: seq<int>, i: nat)
    requires i < |ms|
    ensures RecordsOk(ms, runes, i) <==> RecordBytes(ms[i], runes).Ok? && RecordsOk(ms, runes, i + 1)
    ensures RecordsOk(ms, runes, i) && i + 1 < |ms| ==>
      RecordsSize(ms, runes, i, |ms| - 1) == |RecordBytes(ms[i], runes).value| + RecordsSize(ms, runes, i + 1, |ms| - 1)
  {
  }

  // ---------------------------------------------------------------------
  // Trie records

  /**
   * The order `sort.Slice` with the "preferred first" comparator leaves a
   * meaning list in: Go sorts lists of up to 12 elements by insertion, and
   * since `less(x, y)` only asks whether x is preferred, every preferred
   * element is swapped to the front as it is reached.
   */
  function PreferredFirst(ms: seq<NodeMeaning>): (r: seq<NodeMeaning>)
    ensures multiset(r) == multiset(ms)
    ensures |r| == |ms|
    ensures forall i, j :: 0 <= i < j < |r| && r[j].preferred ==> r[i].preferred
    decreases |ms|
  {
    if ms == [] then []
    else
      var last := ms[|ms| - 1];
      var sorted := PreferredFirst(ms[..|ms| - 1]);
      assert ms == ms[..|ms| - 1] + [last];
      if last.preferred then [last] + sorted else sorted + [last]
  }

  /** Each global meaning index of a node, as 3 bytes; a panic for an index beyond 24 bits. */
  function MeaningIndexBytes(ms: seq<NodeMeaning>): (r: Result<seq<byte>, BuildError>)
    ensures r.Ok? ==> |r.value| == 3 * |ms|
  {
    if ms == [] then Ok([])
    else if ms[0].meaning > 0xFF_FFFF then Err(MeaningIndexTooLarge)
    else
      var t :- MeaningIndexBytes(ms[1..]);
      Ok(U24(ms[0].meaning) + t)
  }

  /**
   * The first loop of `node.binary`: the code-point index of each sorted
   * key, found by searching the window `runes[offset:]`; after each hit the
   * window restarts at the RELATIVE hit position plus one.
   */
  function EdgeRuneIndices(keys: seq<int>, runes: seq<int>, offset: nat): (r: Result<seq<int>, BuildError>)
    requires offset <= |runes|
    ensures r.Ok? ==> |r.value| == |keys|
    ensures r.Ok? ==> forall j :: 0 <= j < |keys| ==> 0 <= r.value[j] < |runes| && runes[r.value[j]] == keys[j]
    decreases |keys|
  {
    if keys == [] then Ok([])
    else
      var idx := LowerBound(runes[offset..], keys[0]);
      if idx >= |runes| - offset || runes[offset + idx] != keys[0] then Err(RuneIndexNotFound)
      else
        var rest :- EdgeRuneIndices(keys[1..], runes, idx + 1);
        Ok([offset + idx] + rest)
  }

  /**
   * The relative restart of the window never loses a key: on an ascending
   * table holding every key, with every entry before the window below the
   * first key, the search finds each ascending key. The restart position is
   * at most the absolute hit plus one, so the window only starts earlier.
   */
  lemma {:induction false} EdgeRuneIndicesSucceed(keys: seq<int>, runes: seq<int>, offset: nat)
    requires StrictlyAscending(runes) && StrictlyAscending(keys) && offset <= |runes|
    requires forall j :: 0 <= j < |keys| ==> keys[j] in runes
    requires |keys| > 0 ==> forall i :: 0 <= i < offset ==> runes[i] < keys[0]
    ensures EdgeRuneIndices(keys, runes, offset).Ok?
    decreases |keys|
  {
    if keys != [] {
      var a :| 0 <= a < |runes| && runes[a] == keys[0];
      ghost var idx := a - offset;
      ghost var next := idx + 1;
      WindowHit(runes, offset, a, idx);
      RestKeys(keys, runes, a, next);
      EdgeRuneIndicesSucceed(keys[1..], runes, next);
      EdgeRuneIndicesStep(keys, runes, offset, idx, next);
    }
  }

  /** Searching the window from `offset` for an entry at or after it lands on that entry. */
  lemma {:induction false} WindowHit(runes: seq<int>, offset: nat, a: nat, idx: int)
    requires StrictlyAscending(runes) && offset <= a < |runes| && idx == a - offset
    ensures LowerBound(runes[offset..], runes[a]) == idx
  {
    var window := runes[offset..];
    assert window[idx] == runes[a];
    LowerBoundFinds(window, idx);
  }

  /** After the hit at `a`, the keys that follow still meet the search's preconditions from `next`. */
  lemma {:induction false} RestKeys(keys: seq<int>, runes: seq<int>, a: nat, next: nat)
    requires StrictlyAscending(runes) && StrictlyAscending(keys) && keys != []
    requires forall j :: 0 <= j < |keys| ==> keys[j] in runes
    requires a < |runes| && runes[a] == keys[0] && next <= a + 1
    ensures StrictlyAscending(keys[1..])
    ensures forall j :: 0 <= j < |keys[1..]| ==> keys[1..][j] in runes
    ensures |keys[1..]| > 0 ==> forall i :: 0 <= i < next ==> runes[i] < keys[1..][0]
  {
    forall j | 0 <= j < |keys[1..]| ensures keys[1..][j] in runes {
      assert keys[1..][j] == keys[j + 1];
    }
    if |keys| > 1 {
      forall i | 0 <= i < next ensures runes[i] < keys[1..][0] {
        assert runes[i] <= keys[0] < keys[1];
      }
    }
  }

  /** A hit on the first key and a successful search for the rest make the whole search succeed. */
  lemma {:induction false} EdgeRuneIndicesStep(keys: seq<int>, runes: seq<int>, offset: nat, idx: nat, next: nat)
    requires keys != [] && offset + idx < |runes| && next == idx + 1
    requires LowerBound(runes[offset..], keys[0]) == idx && runes[offset + idx] == keys[0]
    requires EdgeRuneIndices(keys[1..], runes, next).Ok?
    ensures EdgeRuneIndices(keys, runes, offset).Ok?
  {
  }

  /** Every child of a node whose labels the table holds gets its code-point index. */
  lemma {:induction false} NodeEdgesFound(n: Node, runes: seq<int>)
    requires StrictlyAscending(runes) && forall k :: k in n.next ==> k in runes
    ensures EdgeRuneIndices(Ascending(n.next.Keys), runes, 0).Ok?
  {
    var keys := Ascending(n.next.Keys);
    forall j | 0 <= j < |keys| ensures keys[j] in runes {
      assert keys[j] in n.next.Keys;
    }
    EdgeRuneIndicesSucceed(keys, runes, 0);
  }

  /**
   * On a table holding every edge label of the trie, the edge search of
   * `node.binary` succeeds at every node of the trie.
   */
  lemma {:induction false} TrieEdgesFound(root: Node, runes: seq<int>, path: seq<int>)
    requires StrictlyAscending(runes) && forall c :: c in EdgeLabels(root) ==> c in runes
    requires Find(root, path).Some?
    ensures EdgeRuneIndices(Ascending(Find(root, path).value.next.Keys), runes, 0).Ok?
  {
    var t := Find(root, path).value;
    FoundLabels(root, path);
    forall k | k in t.next ensures k in runes {
      assert k in EdgeLabels(t);
    }
    NodeEdgesFound(t, runes);
  }

  /**
   * `node.binary`: the record of node `n` placed at absolute offset `off`:
   * a 2-byte child count, then per child (ascending by code point) a 2-byte
   * code-point index and the 3-byte absolute offset of its content block,
   * then the content blocks.
   */
  function NodeBinary(n: Node, off: nat, runes: seq<int>): Result<seq<byte>, BuildError>
    decreases n, 1
  {
    var keys := Ascending(n.next.Keys);
    var idxs :- EdgeRuneIndices(keys, runes, 0);
    if |n.next| > 0xFFFF then Err(TooManySuccessors)
    else
      var body :- ChildBinaries(n, keys, idxs, 0, off + 2 + 5 * |keys|, runes);
      Ok(U16(|n.next|) + body.0 + body.1)
  }

  /**
   * The content block of a child whose block starts at absolute `blockOff`:
   * the meaning count narrowed to a byte without a check, the 3-byte meaning
   * indices (preferred first), and the child's own record.
   */
  function ContentBlock(child: Node, blockOff: nat, runes: seq<int>): Result<seq<byte>, BuildError>
    decreases child, 2
  {
    var ms := PreferredFirst(child.meaning);
    var mb :- MeaningIndexBytes(ms);
    var cb :- NodeBinary(child, blockOff + 1 + |mb|, runes);
    Ok([Low8(|ms|)] + mb + cb)
  }

  /**
   * The loop of `node.binary` from child `i` on: its edge records and its
   * content blocks, the block of child `i` starting at absolute `blockOff`.
   */
  function ChildBinaries(n: Node, keys: seq<int>, idxs: seq<int>, i: nat, blockOff: nat, runes: seq<int>)
    : Result<(seq<byte>, seq<byte>), BuildError>
    requires |idxs| == |keys| && i <= |keys|
    requires forall j :: 0 <= j < |keys| ==> keys[j] in n.next
    requires forall j :: 0 <= j < |idxs| ==> idxs[j] >= 0
    decreases n, 0, |keys| - i
  {
    if i == |keys| then Ok(([], []))
    else if idxs[i] > 0xFFFF then Err(RuneTooBig)
    else if blockOff > 0xFF_FFFF then Err(NodeOffsetTooLarge)
    else
      var block :- ContentBlock(n.next[keys[i]], blockOff, runes);
      var rest :- ChildBinaries(n, keys, idxs, i + 1, blockOff + |block|, runes);
      Ok((U16(idxs[i]) + U24(blockOff) + rest.0, block + rest.1))
  }

  /**
   * `node.binary` panics on a node with more than 0xFFFF children, and when
   * the search for a child's code point fails.
   */
  lemma {:induction false} NodeBinaryLimits(n: Node, off: nat, runes: seq<int>)
    ensures |n.next| > 0xFFFF ==> NodeBinary(n, off, runes).Err?
    ensures EdgeRuneIndices(Ascending(n.next.Keys), runes, 0).Err? ==> NodeBinary(n, off, runes).Err?
  {
  }

  function RuneBytes(runes: seq<int>): Result<seq<byte>, BuildError>
  {
    if runes == [] then Ok([])
    else
      var h :- PutUint24(runes[0]);
      var t :- RuneBytes(runes[1..]);
      Ok(h + t)
  }

  /** `createBinaryDict`: the whole blob. */
  function CreateBinaryDict(root: Node, meanings: seq<Meaning>, runes: seq<int>): Result<seq<byte>, BuildError>
  {
    if |runes| > 0xFF_FFFF then Err(TooManyRunes)
    else
      var rb :- RuneBytes(runes);
      var idxOffset := 3 + |runes| * 3;
      var trie :- NodeBinary(root, idxOffset + 3, runes);
      if |trie| > 0xFF_FFFF then Err(MeaningsOffsetTooBig)
      else
        var table :- MeaningTable(meanings, runes, 0, 3 * |meanings|);
        Ok(U24(|runes|) + rb + U24(|trie|) + trie + table.0 + table.1)
  }

  /** The code-point table is written exactly when every code point fits 24 bits. */
  lemma {:induction false} RuneBytesOk(runes: seq<int>)
    ensures RuneBytes(runes).Ok? <==> forall k :: 0 <= k < |runes| ==> 0 <= runes[k] <= 0xFF_FFFF
    decreases |runes|
  {
    if runes != [] {
      RuneBytesOk(runes[1..]);
      forall k | 1 <= k < |runes| ensures runes[1..][k - 1] == runes[k] { }
    }
  }

  /**
   * `createBinaryDict` panics exactly when the table has more than 0xFFFFFF
   * entries or a code point beyond 24 bits, the trie cannot be written or
   * exceeds 24 bits, a record cannot be written, or a record offset
   * exceeds 24 bits.
   */
  lemma {:induction false} CreateBinaryDictOk(root: Node, meanings: seq<Meaning>, runes: seq<int>)
    ensures CreateBinaryDict(root, meanings, runes).Ok? <==>
      && |runes| <= 0xFF_FFFF
      && (forall k :: 0 <= k < |runes| ==> 0 <= runes[k] <= 0xFF_FFFF)
      && NodeBinary(root, TrieOffset(runes), runes).Ok?
      && |NodeBinary(root, TrieOffset(runes), runes).value| <= 0xFF_FFFF
      && TableFits(meanings, runes, 0, 3 * |meanings|)
  {
    RuneBytesOk(runes);
    MeaningTableOk(meanings, runes, 0, 3 * |meanings|);
    CreateBinaryDictUnfold(root, meanings, runes);
  }

  /** Where the root record starts: after the 3-byte count, the code points and the 3-byte trie size. */
  function TrieOffset(runes: seq<int>): nat
  {
    6 + 3 * |runes|
  }

  /** `createBinaryDict` succeeds exactly when each of its parts does. */
  lemma {:induction false} CreateBinaryDictUnfold(root: Node, meanings: seq<Meaning>, runes: seq<int>)
    ensures CreateBinaryDict(root, meanings, runes).Ok? <==>
      && |runes| <= 0xFF_FFFF
      && RuneBytes(runes).Ok?
      && NodeBinary(root, TrieOffset(runes), runes).Ok?
      && |NodeBinary(root, TrieOffset(runes), runes).value| <= 0xFF_FFFF
      && MeaningTable(meanings, runes, 0, 3 * |meanings|).Ok?
  {
    assert 3 + |runes| * 3 + 3 == TrieOffset(runes);
  }

  // ---------------------------------------------------------------------
  // The code-point table

  /**
   * The sorted insertion that builds the code-point table from the edge
   * labels in the order the trie walk visits them: a binary search for the
   * position, then an append, a shift to the right and a store, unless the
   * code point is already present.
   */
  method RuneTable(visited: seq<int>) returns (allRunes: seq<int>)
    ensures StrictlyAscending(allRunes)
    ensures forall x :: x in allRunes <==> x in visited
    ensures allRunes == Ascending(set x | x in visited)
  {
    allRunes := [];
    var v := 0;
    while v < |visited|
      invariant 0 <= v <= |visited|
      invariant StrictlyAscending(allRunes)
      invariant forall x :: x in allRunes <==> x in visited[..v]
    {
      var r := visited[v];
      var table := allRunes;
      var f := i => if 0 <= i < |table| then table[i] >= r else true;
      var idx := SortSearch(|table|, f);
      forall j | 0 <= j < idx ensures table[j] < r {
        assert !f(j);
      }
      assert idx < |table| ==> f(idx);
      if idx >= |allRunes| {
        InsertAscending(table, idx, r);
        assert table[..idx] + [r] + table[idx..] == table + [r];
        allRunes := allRunes + [r];
      } else if allRunes[idx] != r {
        InsertAscending(table, idx, r);
        allRunes := allRunes + [0];
        allRunes := allRunes[..idx + 1] + allRunes[idx..|allRunes| - 1];
        allRunes := allRunes[idx := r];
        assert allRunes == table[..idx] + [r] + table[idx..];
      } else {
        assert r in table;
      }
      assert visited[..v + 1] == visited[..v] + [r];
      v := v + 1;
    }
    assert visited[..v] == visited;
    AscendingUnique(allRunes, Ascending(set x | x in visited));
  }

  // ---------------------------------------------------------------------
  // The build driver

  /** `isPrefered`: a one-character word whose one syllable is that character's preferred reading. */
  function IsPreferred(prefered: map<int, u16>, word: seq<int>, pin: seq<Pinyin>): bool
  {
    |word| == 1 && |pin| == 1 && pin[0].literal == [] && word[0] in prefered && pin[0].code == prefered[word[0]]
  }

  /** The HSK level of a simplified headword; 0 for a word in no HSK list. */
  function HskLevel(hsk: map<seq<int>, byte>, simplified: seq<int>): byte
  {
    if simplified in hsk then hsk[simplified] else 0
  }

  /**
   * The entry loop of the generator: entry i is inserted under its
   * traditional spelling, and under its simplified spelling too when the two
   * differ, with global meaning index i.
   */
  function Collect(entries: seq<Entry>, hsk: map<seq<int>, byte>, prefered: map<int, u16>)
    : Result<(Node, seq<Meaning>), BuildError>
    decreases |entries|
  {
    if entries == [] then Ok((Empty, []))
    else
      var i := |entries| - 1;
      var prev :- Collect(entries[..i], hsk, prefered);
      var e := entries[i];
      var variants :- GetVariant(e.traditional, e.simplified);
      var g1 := Insert(prev.0, e.traditional, i, IsPreferred(prefered, e.traditional, e.pinyin));
      var g2 := if |variants| != 0 then Insert(g1, e.simplified, i, IsPreferred(prefered, e.simplified, e.pinyin)) else g1;
      Ok((g2, prev.1 + [Meaning(e.pinyin, e.meaning, HskLevel(hsk, e.simplified), variants)]))
  }

  /** The whole generator after parsing: collect, build the code-point table, serialise. */
  function Build(entries: seq<Entry>, hsk: map<seq<int>, byte>, prefered: map<int, u16>): Result<seq<byte>, BuildError>
  {
    var c :- Collect(entries, hsk, prefered);
    CreateBinaryDict(c.0, c.1, Ascending(EdgeLabels(c.0)))
  }
}
