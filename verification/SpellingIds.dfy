// Spelling ids: half ids stand for an initial letter or Zh/Ch/Sh, full ids for whole spellings.

module SpellingIds {
  const HALF_NUM := 29
  const FULL_START := HALF_NUM + 1

  // The letter of each half id; a small letter stands for Zh, Ch or Sh.
  const HALF_CHARS := "0ABCcDEFGHIJKLMNOPQRSsTUVWXYZz"

  predicate IsHalf(id: nat) { 0 < id < FULL_START }

  predicate IsYunmuChar(ch: char) { ch == 'A' || ch == 'E' || ch == 'O' }

  predicate IsHalfYunmu(id: nat) {
    IsHalf(id) && HALF_CHARS[id] < 'a' && IsYunmuChar(HALF_CHARS[id])
  }

  // A full id, or the full ids of a half id.
  datatype Range = Range(start: nat, num: nat)

  predicate In(x: nat, r: Range) { r.start <= x < r.start + r.num }

  // h2f_start_ and h2f_num_.
  datatype Halves = Halves(start: seq<nat>, num: seq<nat>)

  predicate OkHalves(h: Halves) { |h.start| == |h.num| == FULL_START }

  function RangeOf(h: Halves, id: nat): Range
    requires OkHalves(h)
  {
    if IsHalf(id) then Range(h.start[id], h.num[id]) else Range(id, 1)
  }
}
