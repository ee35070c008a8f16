/**
  JavaScript strings as the source sees them: sequences of UTF-16 code
  units. Paths are kept in this form, because percent-decoding can produce
  any code unit, a lone surrogate included.
 */
module Js {
  import Text

  /** A UTF-16 code unit. */
  type Unit = u: int | 0 <= u < 0x10000

  type JsString = seq<Unit>

  const Slash: Unit := 47

  /** An ASCII literal as code units. */
  function Ascii(s: string): (r: JsString)
    requires forall i :: 0 <= i < |s| ==> s[i] as int < 0x80
    ensures |r| == |s| && forall i :: 0 <= i < |s| ==> r[i] == s[i] as int
  {
    seq(|s|, i requires 0 <= i < |s| => s[i] as int)
  }

  /** `toLowerCase` on one code unit, ASCII letters only, as `Text.LowerChar` is on characters. */
  function LowerUnit(u: Unit): (v: Unit)
    ensures u < 0x80 ==> v < 0x80 && v as char == Text.LowerChar(u as char)
  {
    if 65 <= u <= 90 then u + 32 else u
  }

  /** `toUpperCase` on one code unit, ASCII letters only. */
  function UpperUnit(u: Unit): (v: Unit)
    ensures LowerUnit(v) == LowerUnit(u)
  {
    if 97 <= u <= 122 then u - 32 else u
  }

  function LowerUnits(s: JsString): (r: JsString)
    ensures |r| == |s| && forall i :: 0 <= i < |s| ==> r[i] == LowerUnit(s[i])
  {
    seq(|s|, i requires 0 <= i < |s| => LowerUnit(s[i]))
  }

  function UpperUnits(s: JsString): (r: JsString)
    ensures |r| == |s| && forall i :: 0 <= i < |s| ==> r[i] == UpperUnit(s[i])
  {
    seq(|s|, i requires 0 <= i < |s| => UpperUnit(s[i]))
  }
}
