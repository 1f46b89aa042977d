/**
 * The shapes the dictionary source parser produces; the parser itself
 * (gzip stream, regular expressions) is not part of this model.
 */
module Cedict {
  import opened Bytes

  /**
   * One syllable of a pronunciation: the packed sound-and-tone `code`, or,
   * when `literal` is nonempty, the raw token the pinyin parser rejected.
   */
  datatype Pinyin = Pinyin(code: u16, literal: seq<byte>)

  /** One dictionary line: both spellings as code points, the syllables and the glosses. */
  datatype Entry = Entry(
    traditional: seq<int>,
    simplified: seq<int>,
    pinyin: seq<Pinyin>,
    meaning: seq<seq<byte>>)
}
