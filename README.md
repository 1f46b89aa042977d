# hanyu core, modelled in Dafny

This project models the core of `hanyu`, a Go toolkit for Chinese text. It has five parts:

- **The dictionary generator** (`cmd/gen-dict`). It inserts every CC-CEDICT headword into an
  in-memory trie and builds a sorted code-point table of all edge labels. It computes the
  positions where the traditional and simplified spellings differ. It then serialises all of
  this into one big-endian blob:
  - a 3-byte count N, then N 3-byte code points;
  - a 3-byte trie-region size, then the trie records. Each record is a 2-byte edge count, then
    edges of a 2-byte code-point index and a 3-byte absolute offset. Each child's content block
    is a meaning-count byte, 3-byte meaning indices, and the child's own record;
  - an array of 3-byte meaning-record offsets, then the variable-length meaning records (HSK
    level, syllables, glosses, spelling diffs).
- **The dictionary reader** (`dict`):
  - `Begin` and `Consume` walk the trie by binary search over the sorted edges.
  - `Meanings` decodes the meaning records of a node.
  - `Lookup` does longest-prefix segmentation. It never cuts inside a run of Latin letters, and
    it has a soft-match override for 不/在/有/没.
- **Chinese numerals** (`numbers`): a three-field state machine that accumulates the value of
  a numeral one character at a time.
- **Pinyin** (`pinyin`):
  - sound/tone packing;
  - tone-mark placement and diacritic rendering;
  - a per-syllable parser over the generated state machine, with a longest-prefix driver.
- **Simplification** (`simplified`): rewrites a rune buffer in place. Each dictionary word
  becomes its simplified spelling, and each remaining character goes through a replacement
  table.

The central theorem, `RoundTrip.LookupRoundTrip`, joins the two halves. Build the blob from
a list of entries, then look up any headword from that list with the reader. The walk
succeeds, the headword is a word, and the meanings read back are exactly the entries spelt
that way.

## Files

| file | module | contents |
|---|---|---|
| `wrappers.dfy` | `Wrappers` | `Option`, `Result` |
| `bytes.dfy` | `Bytes` | octets, 16/24-bit big-endian fields and their decoders, byte placement in a blob |
| `search.dfy` | `Search` | `sort.Search` as a lower bound and as a method, ascending enumeration of a finite set |
| `cedict.dfy` | `Cedict` | the parsed dictionary entry and syllable records |
| `trie.dfy` | `Trie` | the generator's trie and `node.Insert` |
| `gendict.dfy` | `GenDict` | spelling variants, the record encoders, `node.binary`, `createBinaryDict`, the code-point table, the entry loop |
| `dict.dfy` | `Dict` | the reader: cursor navigation, meaning decoding, segmentation |
| `layout.dfy` | `Layout` | the generator's bytes decoded by the reader: code-point table, records, spellings |
| `roundtrip.dfy` | `RoundTrip` | the whole blob read back: trie navigation, the meaning table, lookup of every headword |
| `numbers.dfy` | `Numbers` | the numeral parser |
| `pinyin.dfy` | `Pinyin` | packing, tone placement, rendering, parsing |
| `simplified.dfy` | `Simplified` | `ToInplace` and `To` |

## Model

Pure computations are modelled as functions, and state changed in place as methods. Each
method is proved against a specification function, and the properties of that function are
proved as lemmas.

| member | source | states |
|---|---|---|
| Bytes.Low8 | cmd/gen-dict/main.go:274 | narrowing a count to a byte keeps it when it is below 256 |
| Bytes.U16 | cmd/gen-dict/main.go:374-378 | the 2-byte big-endian encoding decodes back to the value |
| Bytes.U24 | cmd/gen-dict/main.go:365-372 | the 3-byte big-endian encoding decodes back, through the reader's `uint24`, to the value |
| Bytes.Uint24At | dict/dict.go:33-37 | the reader's 3-byte decoder yields a value within 24 bits |
| Bytes.SubAtSlice | cmd/gen-dict/main.go:171-238 | bytes placed at an offset of the blob are exactly the slice found there |
| GenDict.PutUint24 | cmd/gen-dict/main.go:365-372 | succeeds exactly for values within 24 bits, and then writes 3 bytes that decode to the value |
| GenDict.GetVariant | cmd/gen-dict/main.go:494-497 | fails exactly when the two spellings differ in length |
| GenDict.DiffsFromStep | cmd/gen-dict/main.go:499-508 | one loop step: a differing position adds one diff in front of the diffs that follow |
| GenDict.DiffsFromSound | cmd/gen-dict/main.go:499-508 | every listed diff is a real difference carrying both code points, and positions ascend |
| GenDict.DiffsFromComplete | cmd/gen-dict/main.go:499-508 | every differing position is listed |
| GenDict.GetVariantCorrect | cmd/gen-dict/main.go:494-510 | for equal-length spellings of at most 256 code points: exactly the differing positions, ascending, with both code points |
| GenDict.NoDiffsWhenEqual | cmd/gen-dict/main.go:494-510 | identical spellings give no diff |
| GenDict.PinyinBytes | cmd/gen-dict/main.go:240-266 | fails exactly for a literal over 127 bytes; a coded syllable is 2 bytes with the high bit set; a literal is its length byte and its bytes |
| GenDict.EncodeRune | cmd/gen-dict/main.go:326-334 | on an ascending table: succeeds exactly when the code point is present; the result is the index narrowed to 16 bits, which is the code point's own index when the table has at most 65536 entries |
| GenDict.PreferredFirst | cmd/gen-dict/main.go:452-457 | the sorted meaning list is a permutation of the node's list, with every preferred meaning before every non-preferred one |
| GenDict.MeaningIndexBytes | cmd/gen-dict/main.go:458-466 | three bytes per meaning index |
| GenDict.EdgeRuneIndices | cmd/gen-dict/main.go:401-410 | a successful search gives each sorted edge key the index of that key in the code-point table, even though the search window restarts at a relative position |
| GenDict.EdgeRuneIndicesSucceed | cmd/gen-dict/main.go:400-410 | the search never fails on ascending keys that an ascending table holds: the window restarts at the relative hit plus one, which is no later than the absolute hit plus one |
| GenDict.NodeEdgesFound | cmd/gen-dict/main.go:397-410 | every child of a node whose labels the table holds gets its code-point index |
| GenDict.TrieEdgesFound | cmd/gen-dict/main.go:397-410 | on a table holding every edge label of the trie, the edge search succeeds at every node of the trie |
| GenDict.NodeBinaryLimits | cmd/gen-dict/main.go:400-416 | `node.binary` fails on a node with more than 0xFFFF children, and when a child's code point is not found |
| GenDict.PinyinsBytesOk | cmd/gen-dict/main.go:240-287 | the syllable part fails exactly when some literal is over 127 bytes |
| GenDict.GlossesBytesOk | cmd/gen-dict/main.go:289-324 | the gloss part fails exactly on more than 255 glosses or a gloss over 0xFFFF bytes |
| GenDict.VariantsBytesOk | cmd/gen-dict/main.go:326-363 | on an ascending table, the variant part fails exactly on more than 255 diffs or a code point missing from the table |
| GenDict.RecordBytesOk | cmd/gen-dict/main.go:216-235 | on an ascending table, a record fails exactly when one of its three parts exceeds its limit |
| GenDict.MeaningTableOk | cmd/gen-dict/main.go:205-236 | the meaning loop fails exactly when a record fails or the last record's offset, the largest, exceeds 24 bits |
| GenDict.RuneBytesOk | cmd/gen-dict/main.go:185-190 | the code-point table is written exactly when every code point fits 24 bits |
| GenDict.CreateBinaryDictOk | cmd/gen-dict/main.go:171-238 | the blob is written exactly when the table has at most 0xFFFFFF entries of 24 bits, the trie is written within 24 bits, and the meaning loop succeeds |
| GenDict.RuneTable | cmd/gen-dict/main.go:92-104 | the table built by sorted insertion is strictly ascending, holds exactly the visited code points, and equals their ascending enumeration |
| Trie.Insert | cmd/gen-dict/main.go:153-169 | the word's node exists afterwards, and the new meaning reference is appended to its list |
| Trie.InsertPaths | cmd/gen-dict/main.go:153-169 | a path exists after insertion exactly when it existed before or is a prefix of the word |
| Trie.InsertMeanings | cmd/gen-dict/main.go:153-169 | only the word's own node gains a meaning; every other node's list is unchanged |
| Trie.InsertLabels | cmd/gen-dict/main.go:153-169 | the edge labels after insertion are the old ones plus the word's code points |
| Trie.PathLabels | cmd/gen-dict/main.go:481-486 | every code point of an existing path is an edge label collected for the table |
| Trie.ChildLabels | cmd/gen-dict/main.go:481-486 | labels below a child are labels below its parent |
| Trie.FoundLabels | cmd/gen-dict/main.go:481-486 | the labels below any node of the trie are among the labels `collectRunes` visits from the root |
| Trie.EmptyHasNoMeanings | cmd/gen-dict/main.go:160-166 | a freshly created node has no meanings on any path |
| Search.LowerBound | cmd/gen-dict/main.go:94-96 | the first position holding a value at least `r` |
| Search.LowerBoundFinds | cmd/gen-dict/main.go:326-334 | on a strictly ascending table, the search for a member lands on its index |
| Search.LowerBoundMisses | cmd/gen-dict/main.go:330 | a search that does not land on `r` means `r` is absent |
| Search.SortSearch | dict/dict.go:119-123 | the binary search returns the least index at which the monotone predicate holds |
| Search.InsertAscending | cmd/gen-dict/main.go:97-103 | inserting at the lower bound keeps the table strictly ascending |
| Search.Ascending | cmd/gen-dict/main.go:397-399 | sorting unique keys gives the strictly ascending list of exactly those keys |
| Search.AscendingUnique | cmd/gen-dict/main.go:397-399 | that order is unique |
| Layout.RuneBytesAt | cmd/gen-dict/main.go:185-190 | entry x of the code-point table the generator writes decodes to `runes[x]` |
| Layout.DecodeEncoded | dict/dict.go:39-42 | the index `encodeRune` writes for a code point decodes back to that code point |
| Layout.ReadPinyinBytes | dict/dict.go:174-188 | one syllable the generator writes decodes back to the same code or literal |
| Layout.ReadPinyinList | dict/dict.go:168-189 | the generator's syllable list decodes back to the same syllables |
| Layout.ReadGlossList | dict/dict.go:190-202 | the generator's gloss list decodes back to the same glosses |
| Layout.VariantListHead | cmd/gen-dict/main.go:350-360 | a diff is its position byte and the two 2-byte code-point indices |
| Layout.VariantListAt | cmd/gen-dict/main.go:336-363 | a placed variant list is its first diff, then the rest 5 bytes later |
| Layout.ReadVariantList | dict/dict.go:203-214 | the generator's variant list is one diff every 5 bytes, each decoding back to the same position and code points |
| Layout.DiffsRead | dict/dict.go:203-214 | diffs standing every 5 bytes decode, as a list of their count, to exactly those diffs |
| Layout.PinyinsAt | cmd/gen-dict/main.go:268-287 | a placed syllable part is its count byte, then syllables the reader decodes back |
| Layout.GlossesAt | cmd/gen-dict/main.go:289-324 | a placed gloss part is its count byte, then glosses the reader decodes back |
| Layout.VariantsAt | cmd/gen-dict/main.go:336-363 | a placed variant part is its count byte, then diffs the reader decodes back |
| Layout.RecordSplit | cmd/gen-dict/main.go:208-236 | a record is the HSK byte, then the syllable, gloss and variant parts back to back |
| Layout.RecordPinyins | dict/dict.go:165-189 | a record's syllables decode right after its HSK and count bytes |
| Layout.RecordGlosses | dict/dict.go:190-202 | its glosses decode after the syllables, ending where the variants begin |
| Layout.RecordVariants | dict/dict.go:203-214 | its diffs decode after the glosses, up to the record's end |
| Layout.ReadRecordBytes | dict/dict.go:147-224 | a record the generator writes decodes to the same HSK level, syllables and glosses, and to the spellings its diffs give |
| Layout.PatchReaches | dict/dict.go:215-219 | ascending diffs that cover every differing position turn the word into the target spelling |
| Layout.VariantDiffs | cmd/gen-dict/main.go:494-510 | the diffs, as the reader sees them, lie inside the word, ascend, carry both code points, and cover every difference |
| Layout.SpellingsRestored | dict/dict.go:203-221 | patching the headword with the generator's diffs restores both spellings; with no diffs both are empty |
| RoundTrip.NodePlacedOk | cmd/gen-dict/main.go:380-478 | every record `node.binary` writes meets the reader's navigation invariant: its edges are readable, their code points strictly ascend, and each child record lies after it and meets the invariant too |
| RoundTrip.EdgeStep | dict/dict.go:116-137 | on a written record, consuming the label of an edge succeeds and lands on that child's meaning list and record |
| RoundTrip.WalkPlaced | dict/dict.go:116-137 | walking any path of the trie from its written record succeeds, and a nonempty walk ends on the meaning list of the path's node |
| RoundTrip.CollectTable | cmd/gen-dict/main.go:63-90 | meaning `j` of the entry loop's table is entry `j`, with its syllables, glosses, HSK level and variants |
| RoundTrip.CollectSound | cmd/gen-dict/main.go:72-82 | every meaning held under a path names an entry spelt that way, traditionally or simplified |
| RoundTrip.CollectComplete | cmd/gen-dict/main.go:72-82 | every entry is held under its traditional spelling and under its simplified one |
| RoundTrip.CollectCollected | cmd/gen-dict/main.go:63-90 | the entry loop leaves the table, the soundness and the completeness facts together |
| RoundTrip.TableAt | cmd/gen-dict/main.go:205-236 | offset `j` of the written offset array, added to the region start, leads to record `j` |
| RoundTrip.IndexAt | cmd/gen-dict/main.go:458-466 | the `q`-th 3-byte field of a written meaning list reads back as the `q`-th meaning index |
| RoundTrip.DictLaid | cmd/gen-dict/main.go:171-238 | the blob `createBinaryDict` writes holds the code-point table, the root record where `Begin` points, and the meaning table where the reader computes the region |
| RoundTrip.BuiltLaid | cmd/gen-dict/main.go:91-112 | the blob built from the entries is laid out over the trie and the table the entry loop made, with the ascending code-point table |
| RoundTrip.ListRead | dict/dict.go:161-222 | the records a written meaning list names read back as those entries, in list order |
| RoundTrip.DecodeLaid | dict/dict.go:147-224 | `Meanings` at a written list whose indices name entries spelt `w` returns those entries, in list order |
| Dict.IsWord | dict/dict.go:139-145 | definition: the cursor has entered a node whose meaning count is nonzero, so the root is never a word; RoundTrip.WordLaid and Dict.BoundaryAfterStep state what it means for the built blob and the scan |
| RoundTrip.WordLaid | dict/dict.go:139-145 | a nonempty path whose node holds meanings is a word of the blob, and its walk ends on that node's list |
| RoundTrip.LaidSpelt | dict/dict.go:147-224 | the list reached for a headword names only entries spelt that way, and decodes to them in preferred-first order |
| RoundTrip.ListMembers | cmd/gen-dict/main.go:452-466 | the preferred-first list read back contains every entry spelt `w`, and nothing else |
| RoundTrip.LaidLookup | dict/dict.go:96-224 | on a laid blob, a headword is a word, and its meanings decode to exactly the entries spelt that way |
| RoundTrip.LookupRoundTrip | cmd/gen-dict/main.go:63-112 | looking up any headword in the generated blob: the blob is navigable, the headword is a word, and the meanings read contain every entry spelt that way and only those, each with its syllables, glosses, HSK level and spellings |
| Dict.DecodeRune | dict/dict.go:39-42 | entry `x` of the code-point table, a rune below 2^24; Layout.DecodeEncoded shows it inverts `encodeRune` |
| Dict.Cursor.IsZero | dict/dict.go:112-114 | definition: the zero cursor, which `Begin` and a successful step never give (Dict.Begin, Dict.Step); Dict.Lookup states the soft-match override it guards |
| Dict.Begin | dict/dict.go:96-104 | the cursor starts at byte 6 + 3N, the first trie record, with no meanings |
| Dict.FirstAtLeast | dict/dict.go:119-126 | the first edge whose code point is at least `c` |
| Dict.StepFindsEdge | dict/dict.go:116-137 | a step succeeds exactly when the node has an edge labelled `c`, and then moves to that edge's child |
| Dict.Step | dict/dict.go:116-137 | a successful step gives a well-formed cursor; Dict.StepFindsEdge states when it succeeds and which child it moves to |
| Dict.Consume | dict/dict.go:116-137 | succeeds exactly when an edge labelled `c` exists; moves to the child on success, leaves the cursor unchanged on failure |
| Dict.WalkSnoc | dict/dict.go:116-137 | walking a word one code point longer is one more `Consume` |
| Dict.WalkPrefix | dict/dict.go:50-53 | the walk over a prefix one longer is one step past the shorter prefix |
| Dict.WalkFailsBeyond | dict/dict.go:51-53 | once a prefix cannot be walked, no longer prefix can |
| Dict.ReadPinyin | dict/dict.go:174-188 | a syllable decode consumes at least one byte inside the blob |
| Dict.ReadGloss | dict/dict.go:196-201 | a gloss decode consumes at least one byte inside the blob |
| Dict.ReadDiff | dict/dict.go:212-219 | a diff decode consumes at least one byte inside the blob |
| Dict.Pinyins | dict/dict.go:168-189 | a syllable list decodes to exactly its count of syllables |
| Dict.Glosses | dict/dict.go:190-202 | a gloss list decodes to exactly its count of glosses |
| Dict.Diffs | dict/dict.go:203-214 | a variant list decodes to exactly its count of diffs |
| Dict.Patch | dict/dict.go:215-219 | patching keeps the word's length |
| Dict.PatchSpec | dict/dict.go:203-221 | patching succeeds exactly when every diff is inside the word; positions no diff writes keep the word's rune; a position gets the last diff written there |
| Dict.ReadRecordParts | dict/dict.go:147-224 | a record decodes to its HSK byte, syllables and glosses, with the spellings from its diffs |
| Dict.ReadList | dict/dict.go:161-222 | a node's meaning list decodes to exactly as many meanings as its count byte |
| Dict.DecodeMeanings | dict/dict.go:147-160 | no current node means no meanings; otherwise as many meanings as the count byte |
| Dict.ReadPinyins | dict/dict.go:168-189 | the syllable loop computes the syllable list specification |
| Dict.ReadGlosses | dict/dict.go:190-202 | the gloss loop computes the gloss list specification |
| Dict.ApplyVariants | dict/dict.go:203-221 | the variant loop computes the spellings the decoded diffs give |
| Dict.PatchOutside | dict/dict.go:215-219 | a diff outside the word makes the record undecodable |
| Dict.DecodeRecord | dict/dict.go:165-222 | decoding one record computes its specification |
| Dict.DecodeListed | dict/dict.go:161-164 | the record is found through the offset array |
| Dict.Meanings | dict/dict.go:147-224 | `Meanings` computes the decoding specification of the cursor's meaning list |
| Dict.ReadListFails | dict/dict.go:161-222 | one undecodable record makes the whole list undecodable |
| Dict.Longest | dict/dict.go:50-67 | the longest boundary: no later position is a boundary |
| Dict.IsSoftMatch | dict/dict.go:88-94 | definition of the four characters 不, 在, 有 and 没 that may stand alone before a longer word; Dict.Lookup states the override they allow, and Dict.SoftRescanSkipsLatin the rescan's Latin test |
| Dict.SoftRescanSkipsLatin | dict/dict.go:74-77 | the rescan's Latin test reads the current character, so a Latin character never gives a soft hit |
| Dict.BoundaryAfterStep | dict/dict.go:54-59 | a position is a boundary exactly when a word ends there and it does not split two Latin letters |
| Dict.ScanAdvance | dict/dict.go:50-67 | one step of the first loop keeps the scan invariant |
| Dict.ScanStops | dict/dict.go:51-53 | when a step fails, the recorded match is already the longest |
| Dict.ScanStart | dict/dict.go:44-49 | the scan invariant holds at the start |
| Dict.ScanDone | dict/dict.go:50-67 | at the end the recorded length is the longest boundary |
| Dict.ScanStep | dict/dict.go:51-66 | one iteration either keeps the invariant or reports a failed step |
| Dict.ScanLongest | dict/dict.go:50-67 | the first loop finds the longest boundary, the cursor there, and the soft-match cursor after one character |
| Dict.NoSoftHitBeforeAll | dict/dict.go:70-83 | no soft hit before the rescan position |
| Dict.RescanStart | dict/dict.go:68-70 | the rescan invariant holds at the start |
| Dict.RescanAdvance | dict/dict.go:70-83 | a soft hit is exactly a word ending late enough and not splitting Latin letters; otherwise the invariant advances |
| Dict.RescanStops | dict/dict.go:71-73 | a failed step ends the rescan with no hit |
| Dict.RescanDone | dict/dict.go:70-84 | the finished rescan found no hit |
| Dict.SoftRescan | dict/dict.go:68-84 | the rescan reports a hit exactly when some soft hit exists |
| Dict.Lookup | dict/dict.go:44-86 | the length is 1 under the soft-match override, else the longest boundary; it is at most the input length, and 0 exactly when no boundary exists; the meanings are those of the matched prefix, and a match has at least one |
| Dict.RecordRespelt | dict/dict.go:203-221 | a decoded record's two spellings are both empty or both as long as the word |
| Dict.ListRespelt | dict/dict.go:161-222 | every meaning of a decoded list respells the whole word or nothing |
| Dict.DecodedRespelt | dict/dict.go:147-224 | every meaning `Meanings(word)` returns has a simplified spelling that is empty or exactly as long as the word |
| Numbers.Next | numbers/numbers.go:16-54 | definition of one `Consume` call: the table lookup, then `Feed`; UnknownRejected states the lookup's failure |
| Numbers.Feed | numbers/numbers.go:21-54 | definition of `Consume` on a table value; DigitAppends, DigitBeforeMultiplier, DigitAfterMultiplier and Multiplier state its cases |
| Numbers.UnknownRejected | numbers/numbers.go:17-20 | a character outside the table is rejected |
| Numbers.DigitAppends | numbers/numbers.go:22-25 | in digit mode a digit appends a decimal place |
| Numbers.DigitBeforeMultiplier | numbers/numbers.go:33-39 | before any multiplier, a digit after a nonzero place switches to digit mode, else adds |
| Numbers.DigitAfterMultiplier | numbers/numbers.go:26-32 | after a multiplier a zero is ignored, and a nonzero digit is accepted only on an empty last place |
| Numbers.Multiplier | numbers/numbers.go:41-53 | a multiplier is rejected in digit mode; otherwise it rescales the value and sets positional mode |
| Numbers.DigitRun | numbers/numbers.go:22-25 | a run of digits in digit mode appends its decimal value |
| Numbers.Parser.constructor | numbers/numbers.go:8-12 | a new parser is in the start state |
| Numbers.Parser.Consume | numbers/numbers.go:16-55 | accepts exactly when the transition exists; then the state is the transition's, otherwise unchanged |
| Numbers.Parser.Value | numbers/numbers.go:57-59 | returns the accumulated value |
| Numbers.ExampleTable | numbers/gen.go:6-81 | the table value of every digit character in the test numerals |
| Numbers.ExampleMultipliers | numbers/gen.go:6-81 | the table value of every multiplier character in the test numerals: 十 = 10 up to 兆 = 10^12 |
| Numbers.NumeralTests | numbers/numbers_test.go:5-93 | each of the 17 test numerals is accepted rune by rune from a zero parser and reads as its listed value, 五 = 5 to 十二兆三千四百五十六亿七千八百九十万二千三百四十五 = 12345678902345 |
| Pinyin.New | pinyin/pinyin.go:34-36 | packs sound·5 + tone when that fits 16 bits |
| Pinyin.Decode | pinyin/pinyin.go:39-41 | unpacks a tone at most 4, and the packing is restored |
| Pinyin.DecodeNew | pinyin/pinyin.go:34-41 | decoding a packed syllable gives back its sound and tone |
| Pinyin.NewDecode | pinyin/pinyin.go:34-41 | packing a decoded syllable gives it back |
| Pinyin.FirstVowel | pinyin/pinyin.go:52-80 | the first vowel's position, or the length when there is none |
| Pinyin.TonePos | pinyin/pinyin.go:49-85 | the mark goes inside a nonempty syllable on a vowel, or at 0 when there is no vowel |
| Pinyin.TonePosPrefersAE | pinyin/pinyin.go:54-55 | an a or e at the first vowel or right after it takes the mark |
| Pinyin.TonePosExamples | pinyin/pinyin_test.go:1-81 | tuan, tiao, lü, pie, mei and n place the mark as the tests expect |
| Pinyin.TonePosition | pinyin/pinyin.go:49-85 | the scan with flag variables computes the tone position |
| Pinyin.MarkUnmark | pinyin/pinyin.go:87-180 | a toned letter is a vowel or n, and unmarking it gives back letter and tone |
| Pinyin.Render | pinyin/pinyin.go:87-180 | the rendering is "?" (not special) or exactly as long as the sound's spelling; Pinyin.RenderMarksOneLetter states which letter changes |
| Pinyin.RenderMarksOneLetter | pinyin/pinyin.go:87-180 | a neutral tone leaves the spelling unchanged; otherwise exactly the letter at the tone position is marked, or the result is "?" when that letter has no toned form |
| Pinyin.RenderExamples | pinyin/pinyin_test.go:1-81 | a3 → ǎ, tuan4 → tuàn, r5 → r and the other test vectors |
| Pinyin.RenderMany | pinyin/pinyin.go:419-445 | the loop computes the concatenated rendering |
| Pinyin.RenderedApostrophe | pinyin/pinyin.go:429-434 | an apostrophe goes before a later syllable exactly when its rendering is special |
| Pinyin.Step | pinyin/pinyin.go:196-367 | definition of one `Advance` call; Pinyin.StepAfterDone, StepCloses, ToneOnce and Parser.Advance state its properties |
| Pinyin.StepAfterDone | pinyin/pinyin.go:197-199 | once done, every rune is rejected and nothing changes |
| Pinyin.StepCloses | pinyin/pinyin.go:202-204 | an apostrophe or a tone digit closes the syllable |
| Pinyin.ToneOnce | pinyin/pinyin.go:188-194 | a second tone is rejected and the first is kept |
| Pinyin.WalkTone | pinyin/pinyin.go:188-194 | a recorded tone is at most 4 |
| Pinyin.WalkAfterDone | pinyin/pinyin.go:196-204 | nothing can follow a closed syllable |
| Pinyin.WalkFailsOn | pinyin/pinyin.go:384-388 | once a prefix is rejected, every longer prefix is too |
| Pinyin.ResultDecodes | pinyin/pinyin.go:369-375 | a result decodes to the machine's sound and the recorded tone |
| Pinyin.LastValid | pinyin/pinyin.go:384-394 | the last prefix length at which a result was valid |
| Pinyin.ParseSpec | pinyin/pinyin.go:380-399 | fails exactly when no nonempty prefix is valid; otherwise the rest is a proper suffix |
| Pinyin.Parser.constructor | pinyin/pinyin.go:381 | the zero parser is the initial state |
| Pinyin.Parser.SetTone | pinyin/pinyin.go:188-194 | succeeds exactly while no tone is recorded, and otherwise leaves the tone unchanged |
| Pinyin.Parser.Advance | pinyin/pinyin.go:196-367 | the mutation is the specified transition |
| Pinyin.Parser.Result | pinyin/pinyin.go:369-375 | valid exactly when the state ends a sound, with the packed syllable |
| Pinyin.WalkStep | pinyin/pinyin.go:384-388 | the walk over one more rune is one more `Advance` |
| Pinyin.NoValidAfterFailure | pinyin/pinyin.go:386-388 | breaking out of the loop loses no valid prefix |
| Pinyin.LastValidUpTo | pinyin/pinyin.go:384-394 | no valid prefix in a range leaves the last valid one unchanged |
| Pinyin.LastValidNext | pinyin/pinyin.go:389-393 | a valid result at i + 1 becomes the last valid one, with its syllable |
| Pinyin.Parse | pinyin/pinyin.go:380-399 | returns the syllable of the longest valid prefix and the suffix after it, or false with an empty rest |
| Pinyin.ParseManyLosesRest | pinyin/pinyin.go:403-416 | as written, the returned rest is always empty |
| Pinyin.ParseManyDigitOne | pinyin/pinyin.go:409-411 | on "1" nothing parses, yet the result equals that of the empty input |
| Pinyin.ParseManyIntendedRest | pinyin/pinyin.go:401-416 | the intended rest is a suffix that is empty or does not start with a syllable |
| Pinyin.ParseMany | pinyin/pinyin.go:403-416 | the loop computes the as-written specification |
| Simplified.Len | simplified/simplified.go:23 | the matched word fits in the remaining input |
| Simplified.Respelling | simplified/simplified.go:33 | a simplified spelling is either empty or as long as the word |
| Simplified.Convert | simplified/simplified.go:20-42 | the rewritten buffer keeps its length |
| Simplified.UnchangedWhenNotReplaced | simplified/simplified.go:41 | when nothing was replaced the buffer is unchanged |
| Simplified.NoWordAtStart | simplified/simplified.go:24-31 | with no word, only the first rune may change, and only to its replacement |
| Simplified.WordAtStart | simplified/simplified.go:33-39 | with a word, exactly its runes are overwritten by the nonempty simplified spelling, or kept |
| Simplified.NothingToDo | simplified/simplified.go:20-42 | with no respelling and no replacement, the buffer is unchanged and false is returned |
| Simplified.SpliceAt | simplified/simplified.go:34-36 | overwriting changes only the written positions |
| Simplified.LoopNext | simplified/simplified.go:22-40 | one iteration carries the rest of the loop |
| Simplified.StepConverts | simplified/simplified.go:22-40 | one iteration preserves the loop's relation to the whole conversion |
| Simplified.Loop | simplified/simplified.go:20-42 | the loop keeps the buffer's length; Simplified.LoopConverts shows it computes `Convert` |
| Simplified.LoopConverts | simplified/simplified.go:22-40 | the loop from any position completes the conversion |
| Simplified.LoopIsConvert | simplified/simplified.go:20-42 | the loop from the start is the conversion |
| Simplified.Overwrite | simplified/simplified.go:34-36 | the inner loop writes the spelling at the position and nothing else |
| Simplified.Pass | simplified/simplified.go:23-39 | one iteration in place is the specified step |
| Simplified.ToInplace | simplified/simplified.go:20-42 | the buffer becomes the conversion, and the flag says whether anything was written |
| Simplified.To | simplified/simplified.go:10-16 | the returned string is the conversion, so the input itself when nothing was replaced |

## Left out

- The builder's trie and serialiser are modelled on values. `node.Insert`'s in-place updates through references
  become a pure `Trie.Insert` on a tree of maps, where no node is shared. `node.binary`,
  `createBinaryDict` and the `binary*` helpers become functions that return the bytes they
  write. A `WriterAt` write at an offset becomes concatenation, because every region is
  written once, contiguously, in order.
- `GenDict.PinyinsBytes`, `GlossesBytes`, `VariantsBytes`, `RecordBytes`, `MeaningTable`,
  `NodeBinary`, `ContentBlock`, `ChildBinaries`, `CreateBinaryDict`, `Collect` and `Build`
  carry no contract of their own. The `Layout` and `RoundTrip` lemmas state the bytes they
  produce. The `...Ok` lemmas state exactly when the encoders fail.
- GenDict.NodeBinaryLimits states only two of `node.binary`'s failures: more than 0xFFFF
  children, and a code point the search does not find. `TrieEdgesFound` shows the second cannot
  happen on the generated table. A code-point index above 0xFFFF, a content-block offset beyond
  24 bits and a meaning index beyond 24 bits are modelled as failures too. No lemma says when they
  occur, because that depends on the sizes of all earlier blocks.
- RoundTrip.LookupRoundTrip requires `Fits`: every headword has at most 256 code points,
  because a diff records its position in one byte; every entry has fewer than 256 syllables,
  each within the bounds of its encoding; the code-point table has at most 65536 entries,
  because an edge stores a 2-byte index; and every node holds fewer than 256 meanings, because
  the count is one byte. The builder's own limits are part of the `Ok?` of `Build`: more than
  255 glosses or diffs, a gloss over 0xFFFF bytes, more than 0xFFFF children, and offsets or
  indices beyond 24 bits.
  Beyond these bounds Go writes truncated fields, and the round trip is not claimed.
- RoundTrip.LookupRoundTrip states membership both ways, not the order of the returned
  meanings. The order is stated by `RoundTrip.LaidSpelt`: preferred meanings first, in the
  order `PreferredFirst` models.
- Looking up a word that no entry is spelt as is not characterised. The model proves neither
  that such a walk fails nor that it reaches an empty list.
- GenDict.PreferredFirst models `sort.Slice` for meaning lists of at most 12 elements, where Go
  sorts by insertion. Longer lists go through pdqsort, whose order under this non-strict
  comparator is not modelled. All the model keeps is "preferred first, same multiset".
- Go's map iteration order in `collectRunes` and over `n.Next` is not modelled. Children are
  visited in ascending key order, and `RuneTable` takes the visiting order as a parameter.
- `main`'s file handling, gzip and text scanning, `getHSK`, the CC-CEDICT parser (`cedict`)
  and the Unihan reader (`unihan`) are not part of this model. The entry list, the HSK map
  and the preferred-reading map are parameters.
- `unicode.Is(unicode.Latin, …)` is a set parameter `latin`.
- The generated pinyin state machine (`State.next`, `State.Sound`, `Sound.String`) and
  `unicode.ToLower` are the `Machine` parameter.
- The generated `Replacements` table is a map parameter. `dict.Main.Lookup`, as
  `simplified` uses it, is the `Lookup` function parameter: the matched length and the
  simplified spelling of each meaning.
- Simplified.ToInplace requires (`Shape`) that a matched word's simplified spelling is empty
  or exactly as long as the word. For the dictionary's lookup, `Dict.DecodedRespelt` proves this
  of every decoded meaning. `Dict.Lookup` proves the rest of `Shape`: the length is at most the
  input's, and a match has a meaning. Go would panic or misplace runes otherwise.
- Pinyin.Render requires `Renderable`, which excludes a toned syllable whose sound has an
  empty spelling. Go's `render` would index past the end of the spelling there and panic.
- Strings are modelled as sequences of code points. Go's `[]rune(str)` and `string(runes)`
  decode and encode UTF-8 and map invalid bytes to U+FFFD. `Simplified.To`, the entry list and
  every word the reader takes start from code points instead.
- Panics on malformed input are error results (`Result`/`Option`) in the builder and the
  reader, rather than aborts.
- Dict.Lookup: the reader's cursor is the value datatype `Cursor`, like Go's value type
  `Lookup`.
- `go:embed` and the global `Main` are not modelled; the blob is a parameter.
- `RenderManyWriter`'s `io.Writer` and its error paths are not modelled. `RenderMany` builds
  the string.
- Numbers.Parser.Consume uses unbounded integers; the `int64` overflow of very long numerals
  is not modelled.

## Findings

| source | as written | input that shows it | evidently intended | confidence | as-written member | corrected member |
|---|---|---|---|---|---|---|
| pinyin/pinyin.go:409-411 | when `Parse` fails, `ParseMany` returns the `rest` that `Parse` returned, which is always nil on failure, so an unparsed suffix looks like a fully consumed input | "1": the tone digit closes an empty syllable, nothing parses, and the result equals that of "" | return the unparsed suffix `str` | high, not executed | Pinyin.ParseManyAsWritten, Pinyin.ParseManyLosesRest, Pinyin.ParseManyDigitOne | Pinyin.ParseManyIntended, Pinyin.ParseManyIntendedRest |
