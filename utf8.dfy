/** Well-formed UTF-8, the condition `String::from_utf8` checks: the byte
    sequences of table 3-7 ("Well-Formed UTF-8 Byte Sequences") of the
    Unicode Standard, chapter 3, which exclude overlong forms, surrogates
    and code points above U+10FFFF. */
module Utf8 {

  import opened LittleEndian

  predicate Continuation(b: u8) {
    0x80 <= b <= 0xBF
  }

  /** The length of the well-formed sequence `s` starts with, or 0 when its
      first bytes are not one. */
  function LeadWidth(s: seq<u8>): (w: nat)
    requires s != []
    ensures w <= 4 && w <= |s|
    ensures w == 1 <==> s[0] < 0x80
  {
    var b0 := s[0];
    if b0 < 0x80 then 1
    else if 0xC2 <= b0 <= 0xDF then
      if 2 <= |s| && Continuation(s[1]) then 2 else 0
    else if b0 == 0xE0 then
      if 3 <= |s| && 0xA0 <= s[1] <= 0xBF && Continuation(s[2]) then 3 else 0
    else if 0xE1 <= b0 <= 0xEC || 0xEE <= b0 <= 0xEF then
      if 3 <= |s| && Continuation(s[1]) && Continuation(s[2]) then 3 else 0
    else if b0 == 0xED then
      if 3 <= |s| && 0x80 <= s[1] <= 0x9F && Continuation(s[2]) then 3 else 0
    else if b0 == 0xF0 then
      if 4 <= |s| && 0x90 <= s[1] <= 0xBF && Continuation(s[2]) && Continuation(s[3]) then 4 else 0
    else if 0xF1 <= b0 <= 0xF3 then
      if 4 <= |s| && Continuation(s[1]) && Continuation(s[2]) && Continuation(s[3]) then 4 else 0
    else if b0 == 0xF4 then
      if 4 <= |s| && 0x80 <= s[1] <= 0x8F && Continuation(s[2]) && Continuation(s[3]) then 4 else 0
    else 0
  }

  /** `s` is a concatenation of well-formed UTF-8 sequences. */
  predicate Valid(s: seq<u8>)
    decreases |s|
  {
    s == [] || (LeadWidth(s) > 0 && Valid(s[LeadWidth(s)..]))
  }
}
