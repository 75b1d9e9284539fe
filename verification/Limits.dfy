// Sizes that several parts share.

module Limits {
  // kMaxLemmaSize
  const MAX_LEMMA_SIZE := 8

  // kMaxPinyinSize
  const MAX_PINYIN_SIZE := 6

  // MatrixSearch's kMaxRowNum
  const MAX_ROW_NUM := 40
}
