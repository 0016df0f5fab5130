/**
 The two characters the menu shows for an edited variable: the tens digit
 `'0' + v / 10` followed by the units digit `'0' + v % 10`. The display
 calls themselves are not modelled.
 */
module Digits {
  import opened Uint8
  import opened Options

  predicate IsDigit(c: char) { '0' <= c <= '9' }

  function DigitValue(c: char): int
    requires IsDigit(c)
  {
    c as int - '0' as int
  }

  /** The text written for the value `v`. */
  function Render(v: u8): (r: seq<char>)
    ensures |r| == 2
    ensures v <= 99 ==> IsDigit(r[0]) && IsDigit(r[1])
    ensures v <= 99 ==> 10 * DigitValue(r[0]) + DigitValue(r[1]) == v
  {
    [('0' as int + v / 10) as char, ('0' as int + v % 10) as char]
  }

  /** Reads two decimal digits back; anything else is not a rendering. */
  function Parse(s: seq<char>): (r: Option<u8>)
    ensures r.Some? <==> |s| == 2 && IsDigit(s[0]) && IsDigit(s[1])
    ensures r.Some? ==> r.value <= 99
  {
    if |s| == 2 && IsDigit(s[0]) && IsDigit(s[1]) then
      Some(10 * DigitValue(s[0]) + DigitValue(s[1]))
    else
      None
  }

  /** Every value 0..99 is read back from its rendering. */
  lemma ParseRender(v: u8)
    requires v <= 99
    ensures Parse(Render(v)) == Some(v)
  {
  }

  /** Every two-digit text is the rendering of the value it reads as. */
  lemma RenderParse(s: seq<char>)
    requires Parse(s).Some?
    ensures Render(Parse(s).value) == s
  {
  }
}
