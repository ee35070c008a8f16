/**
  lib/decode.js: percent-decoding of a path (section 2.1 of RFC 3986) with
  strict UTF-8 validation (section 3 of RFC 3629). Every `%HH` escape is
  decoded except `%2F`, which stays encoded (upper-cased), and any invalid
  input decodes to the empty string.

  `Decoded` is the decoding as a definition over the input; the class
  `Decoder` is the source's byte-level state machine, driven once per escape
  by `str.replace`, and `Decoder.Decode` is proved to compute `Decoding`.
 */
module PercentDecode {
  import opened Wrappers
  import opened Js
  import Text

  /** A character the escape pattern `%[\dA-F][\dA-F]` (case-insensitive) accepts as a hex digit. */
  predicate IsHexDigit(u: int)
  {
    48 <= u <= 57 || 65 <= u <= 70 || 97 <= u <= 102
  }

  /** The digit for value `v`, in lower or upper case. */
  function HexDigit(v: nat, lower: bool): (d: Unit)
    requires v < 16
    ensures IsHexDigit(d)
  {
    if v < 10 then 48 + v else if lower then 87 + v else 55 + v
  }

  /** `hexCharToNumber`: the value of a hex digit of either case. */
  function HexCharToNumber(c: Unit): (v: nat)
    requires IsHexDigit(c)
    ensures v < 16 && (c == HexDigit(v, true) || c == HexDigit(v, false))
  {
    c - (if c < 58 then 48 else if c < 91 then 55 else 87)
  }

  /** An escape `%HH` starts at `i`. */
  predicate EscapeAt(s: JsString, i: nat)
  {
    i + 3 <= |s| && s[i] == 37 && IsHexDigit(s[i + 1]) && IsHexDigit(s[i + 2])
  }

  /** The byte the escape at `i` denotes. */
  function ByteAt(s: JsString, i: nat): (b: nat)
    requires EscapeAt(s, i)
    ensures b < 256
  {
    HexCharToNumber(s[i + 1]) * 16 + HexCharToNumber(s[i + 2])
  }

  /**
    How a decoded code point becomes code units: `String.fromCharCode`, as
    the source calls it (lib/decode.js:54), keeps the low 16 bits; a UTF-16
    encoder writes a surrogate pair above 0xFFFF.
   */
  datatype Emission = Truncating | SurrogatePairs

  /** The code point a one- or two-unit UTF-16 sequence stands for. */
  function CodePointOf(u: JsString): int
  {
    if |u| == 1 then u[0]
    else if |u| == 2 then 0x10000 + (u[0] as int - 0xD800) * 0x400 + (u[1] as int - 0xDC00)
    else -1
  }

  /** The code units written for code point `cp`. */
  function Emit(cp: nat, mode: Emission): (u: JsString)
    requires cp <= 0x10FFFF
    ensures mode == Truncating ==> |u| == 1 && u[0] == cp % 0x10000
    ensures mode == SurrogatePairs ==> CodePointOf(u) == cp
    ensures mode == SurrogatePairs && cp >= 0x80 ==> Slash !in u
  {
    if mode == Truncating || cp < 0x10000 then [cp % 0x10000]
    else [0xD800 + (cp - 0x10000) / 0x400, 0xDC00 + (cp - 0x10000) % 0x400]
  }

  function Prepend(a: JsString, o: Option<JsString>): Option<JsString>
  {
    if o.Some? then Some(a + o.value) else None
  }

  lemma PrependTwice(a: JsString, b: JsString, o: Option<JsString>)
    ensures Prepend(a, Prepend(b, o)) == Prepend(a + b, o)
    ensures Prepend([], o) == o
  {
    if o.Some? {
      assert a + (b + o.value) == (a + b) + o.value;
      assert [] + o.value == o.value;
    }
  }

  /**
    The decoding of `s[i..]`, or `None` when it is invalid: text outside
    escapes is kept, an escape below 0x80 is that character (`%2F` kept as
    the text `%2F`), a lead byte is followed by its continuation escapes, and
    anything else is invalid.
   */
  function Decoded(s: JsString, i: nat, mode: Emission): Option<JsString>
    requires i <= |s|
    decreases |s| - i, 0
  {
    if i == |s| then Some([])
    else if !EscapeAt(s, i) then Prepend([s[i]], Decoded(s, i + 1, mode))
    else
      var b := ByteAt(s, i);
      if b < 0x80 then Prepend(if b == 0x2F then Ascii("%2F") else [b], Decoded(s, i + 3, mode))
      else if 0xC0 <= b < 0xE0 then Sequence(s, i + 3, 1, b % 0x20, 0x80, mode)
      else if 0xE0 <= b < 0xF0 then Sequence(s, i + 3, 2, b % 0x10, 0x800, mode)
      else if 0xF0 <= b < 0xF8 then Sequence(s, i + 3, 3, b % 0x08, 0x10000, mode)
      else None
  }

  /**
    The rest of a multi-byte sequence: `k` continuation escapes must follow
    at `j` with nothing between them, and the code point `cp` they complete
    must be at least `min` (no overlong form) and at most 0x10FFFF.
   */
  function Sequence(s: JsString, j: nat, k: nat, cp: nat, min: nat, mode: Emission): Option<JsString>
    requires j <= |s|
    decreases |s| - j, 1
  {
    if k == 0 then
      if min <= cp <= 0x10FFFF then Prepend(Emit(cp, mode), Decoded(s, j, mode)) else None
    else if EscapeAt(s, j) && 0x80 <= ByteAt(s, j) < 0xC0 then
      Sequence(s, j + 3, k - 1, cp * 64 + ByteAt(s, j) % 64, min, mode)
    else None
  }

  /** The exported `decode`: the decoding, or `''` when the input is invalid. */
  function Decoding(s: JsString, mode: Emission): JsString
  {
    match Decoded(s, 0, mode)
    case None => []
    case Some(r) => r
  }

  function Pow2(n: nat): (p: nat)
    ensures p >= 1
  {
    if n == 0 then 1 else 2 * Pow2(n - 1)
  }

  /** The bitwise or of two natural numbers (`|`). */
  function BitOr(a: nat, b: nat): nat
    decreases a + b
  {
    if a == 0 then b
    else if b == 0 then a
    else 2 * BitOr(a / 2, b / 2) + (if a % 2 == 1 || b % 2 == 1 then 1 else 0)
  }

  /** Or-ing a number below `Pow2(n)` into a multiple of `Pow2(n)` is adding it. */
  lemma {:induction false} BitOrDisjoint(q: nat, b: nat, n: nat)
    requires b < Pow2(n)
    ensures BitOr(q * Pow2(n), b) == q * Pow2(n) + b
    decreases n
  {
    var a := q * Pow2(n);
    if n > 0 && a != 0 && b != 0 {
      var h := q * Pow2(n - 1);
      assert a == 2 * h;
      assert a / 2 == h && a % 2 == 0;
      assert b / 2 < Pow2(n - 1);
      BitOrDisjoint(q, b / 2, n - 1);
      assert BitOr(a, b) == 2 * (h + b / 2) + b % 2;
    }
  }

  lemma Pow2Values()
    ensures Pow2(0) == 1 && Pow2(6) == 64 && Pow2(12) == 4096 && Pow2(18) == 262144
  {
    assert Pow2(6) == 64;
    assert Pow2(12) == 64 * 64 by {
      assert Pow2(12) == 2 * 2 * 2 * 2 * 2 * 2 * Pow2(6);
    }
    assert Pow2(18) == 4096 * 64 by {
      assert Pow2(18) == 2 * 2 * 2 * 2 * 2 * 2 * Pow2(12);
    }
  }

  /** The `(shift, state)` pairs of an open sequence: the state is the least code point it may encode. */
  predicate OpenSequence(shift: int, state: int)
  {
    || (state == 0x80 && shift == 0)
    || (state == 0x800 && (shift == 0 || shift == 6))
    || (state == 0x10000 && (shift == 0 || shift == 6 || shift == 12))
  }

  /**
    The machine state between two escapes, as the source keeps it in
    `state`, `shift`, `carry` and `prev`, is on track for the decoding `goal`
    of `s` with `out` produced so far and position `i` reached:
    - `state` 0: the goal is `out` followed by the decoding of the rest;
    - `state` positive with `shift` not negative: a sequence is open, `carry`
      holds its code point so far above the bits still due, and either the
      next escape follows the last one directly or the goal is invalid;
    - any other state (`-1`, or a sequence whose check failed): invalid.
   */
  ghost predicate OnTrack(state: int, shift: int, carry: nat, prev: int,
                          s: JsString, i: nat, out: JsString, goal: Option<JsString>, mode: Emission)
    requires i <= |s|
  {
    && (state == 0 ==> Prepend(out, Decoded(s, i, mode)) == goal)
    && (state > 0 && shift >= 0 ==>
          && OpenSequence(shift, state)
          && 0 <= prev && prev + 3 <= i
          && carry % Pow2(shift + 6) == 0
          && (prev + 3 == i ==> Prepend(out, Sequence(s, i, shift / 6 + 1, carry / Pow2(shift + 6), state, mode)) == goal)
          && (prev + 3 < i ==> goal == None))
    && (state < 0 || (state > 0 && shift < 0) ==> goal == None)
  }

  /** Text outside an escape is copied, and keeps the machine on track. */
  lemma LiteralStep(state: int, shift: int, carry: nat, prev: int,
                    s: JsString, i: nat, out: JsString, goal: Option<JsString>, mode: Emission)
    requires i < |s| && !EscapeAt(s, i) && OnTrack(state, shift, carry, prev, s, i, out, goal, mode)
    ensures OnTrack(state, shift, carry, prev, s, i + 1, out + [s[i]], goal, mode)
  {
    if state > 0 && shift >= 0 && prev + 3 == i {
      var k := shift / 6 + 1;
      assert Sequence(s, i, k, carry / Pow2(shift + 6), state, mode) == None;
    }
    if state == 0 {
      PrependTwice(out, [s[i]], Decoded(s, i + 1, mode));
    }
  }

  /** Nothing pending at the end of the input: an open sequence makes the goal invalid. */
  lemma Finish(state: int, shift: int, carry: nat, prev: int, s: JsString, out: JsString, goal: Option<JsString>, mode: Emission)
    requires OnTrack(state, shift, carry, prev, s, |s|, out, goal, mode)
    ensures goal == if state == 0 then Some(out) else None
  {
    if state > 0 && shift >= 0 && prev + 3 == |s| {
      assert Sequence(s, |s|, shift / 6 + 1, carry / Pow2(shift + 6), state, mode) == None;
    }
    if state == 0 {
      assert out + [] == out;
    }
  }

  /**
    The module-level variables of lib/decode.js and the `replacer` callback
    that updates them, one escape at a time.
   */
  class Decoder {
    var state: int
    var shift: int
    var carry: nat
    var prev: int

    /** The variables as the module initialises them. */
    constructor()
      ensures state == 0 && shift == 0 && carry == 0 && prev == 0
    {
      state, shift, carry, prev := 0, 0, 0, 0;
    }

    /**
      `replacer`: the text that replaces the escape at `pos`, updating the
      state machine; it keeps the machine on track for any goal.
     */
    method Replacer(s: JsString, pos: nat, mode: Emission, ghost out: JsString, ghost goal: Option<JsString>)
        returns (r: JsString)
      requires EscapeAt(s, pos)
      requires OnTrack(state, shift, carry, prev, s, pos, out, goal, mode)
      modifies this
      ensures prev == pos
      ensures OnTrack(state, shift, carry, prev, s, pos + 3, out + r, goal, mode)
    {
      var u8 := HexCharToNumber(s[pos + 1]) * 16 + HexCharToNumber(s[pos + 2]);
      assert u8 == ByteAt(s, pos);
      if state == 0 {
        r := Idle(s, pos, u8, mode, out, goal);
      } else {
        r := Pending(s, pos, u8, mode, out, goal);
      }
    }

    /** The replacer with no sequence open: a single byte, a lead byte, or an invalid one. */
    method Idle(s: JsString, pos: nat, u8: nat, mode: Emission, ghost out: JsString, ghost goal: Option<JsString>)
        returns (r: JsString)
      requires EscapeAt(s, pos) && u8 == ByteAt(s, pos) && state == 0
      requires OnTrack(state, shift, carry, prev, s, pos, out, goal, mode)
      modifies this
      ensures prev == pos
      ensures OnTrack(state, shift, carry, prev, s, pos + 3, out + r, goal, mode)
    {
      prev := pos;
      if u8 < 0x80 {
        r := if u8 == 0x2F then UpperUnits(s[pos..pos + 3]) else [u8];
        SingleByte(s, pos, r, out, goal, mode);
        return;
      }
      if 0xC0 <= u8 < 0xF8 {
        var cp, min, sh;
        if u8 < 0xE0 {
          cp, min, sh := u8 % 0x20, 0x80, 0;
        } else if u8 < 0xF0 {
          cp, min, sh := u8 % 0x10, 0x800, 6;
        } else {
          cp, min, sh := u8 % 0x08, 0x10000, 12;
        }
        Lead(s, pos, sh, cp, min, out, goal, mode);
        state, shift, carry := min, sh, cp * Pow2(sh + 6);
        return [];
      }
      assert Decoded(s, pos, mode) == None;
      state := -1;
      return [];
    }

    /** The replacer with a sequence open or broken: a continuation byte directly after the last escape goes on. */
    method Pending(s: JsString, pos: nat, u8: nat, mode: Emission, ghost out: JsString, ghost goal: Option<JsString>)
        returns (r: JsString)
      requires EscapeAt(s, pos) && u8 == ByteAt(s, pos) && state != 0
      requires OnTrack(state, shift, carry, prev, s, pos, out, goal, mode)
      modifies this
      ensures prev == pos
      ensures OnTrack(state, shift, carry, prev, s, pos + 3, out + r, goal, mode)
    {
      var movedBy := pos - prev;
      if state > 0 && 0x80 <= u8 < 0xC0 && movedBy == 3 {
        r := Proceed(s, pos, u8, mode, out, goal);
        return;
      }
      Broken(s, pos, state, shift, carry, prev, out, goal, mode);
      state, prev := -1, pos;
      return [];
    }

    /** A continuation byte directly after the last escape: its bits are or-ed in, and the last one emits the checked code point. */
    method Proceed(s: JsString, pos: nat, u8: nat, mode: Emission, ghost out: JsString, ghost goal: Option<JsString>)
        returns (r: JsString)
      requires EscapeAt(s, pos) && u8 == ByteAt(s, pos) && state > 0 && 0x80 <= u8 < 0xC0 && pos - prev == 3
      requires OnTrack(state, shift, carry, prev, s, pos, out, goal, mode)
      modifies this
      ensures prev == pos
      ensures OnTrack(state, shift, carry, prev, s, pos + 3, out + r, goal, mode)
    {
      var c := BitOr(carry, (u8 % 64) * Pow2(shift % 32));
      if shift == 0 && c <= 0x10FFFF && c >= state {
        Completed(s, pos, shift, carry, state, prev, c, out, goal, mode);
        r := Emit(c, mode);
        state, carry, prev := 0, c, pos;
      } else {
        Continued(s, pos, shift, carry, state, prev, c, out, goal, mode);
        assert out + [] == out;
        r := [];
        shift, carry, prev := shift - 6, c, pos;
      }
    }

    /**
      The exported `decode`: resets `state`, lets `str.replace` call the
      replacer on every escape from left to right while copying the text
      between them, and keeps the result only when no sequence is left open
      or broken. The result is `Decoding`, whatever earlier calls left behind.
     */
    method Decode(str: JsString, mode: Emission) returns (r: JsString)
      modifies this
      ensures r == Decoding(str, mode)
    {
      ghost var goal := Decoded(str, 0, mode);
      PrependTwice([], [], goal);
      state := 0;
      var out: JsString := [];
      var i := 0;
      while i < |str|
        invariant i <= |str|
        invariant OnTrack(state, shift, carry, prev, str, i, out, goal, mode)
      {
        if EscapeAt(str, i) {
          var piece := Replacer(str, i, mode, out, goal);
          out := out + piece;
          i := i + 3;
        } else {
          LiteralStep(state, shift, carry, prev, str, i, out, goal, mode);
          out := out + [str[i]];
          i := i + 1;
        }
      }
      Finish(state, shift, carry, prev, str, out, goal, mode);
      r := if state == 0 then out else [];
    }
  }

  /** An escape below 0x80 in the idle state: the character, or `%2F` upper-cased. */
  lemma SingleByte(s: JsString, pos: nat, r: JsString, out: JsString, goal: Option<JsString>, mode: Emission)
    requires EscapeAt(s, pos) && ByteAt(s, pos) < 0x80
    requires r == if ByteAt(s, pos) == 0x2F then UpperUnits(s[pos..pos + 3]) else [ByteAt(s, pos)]
    requires Prepend(out, Decoded(s, pos, mode)) == goal
    ensures Prepend(out + r, Decoded(s, pos + 3, mode)) == goal
  {
    if ByteAt(s, pos) == 0x2F {
      assert HexCharToNumber(s[pos + 1]) == 2 && HexCharToNumber(s[pos + 2]) == 15;
      assert s[pos + 1] == 50 && (s[pos + 2] == 70 || s[pos + 2] == 102);
      assert r == [37, 50, 70] == Ascii("%2F");
    }
    PrependTwice(out, r, Decoded(s, pos + 3, mode));
  }

  /** A lead byte in the idle state opens a sequence with its bits in `carry`. */
  lemma Lead(s: JsString, pos: nat, shift: nat, cp: nat, min: nat, out: JsString, goal: Option<JsString>, mode: Emission)
    requires EscapeAt(s, pos) && Prepend(out, Decoded(s, pos, mode)) == goal
    requires var b := ByteAt(s, pos);
      || (shift == 0 && min == 0x80 && 0xC0 <= b < 0xE0 && cp == b % 0x20)
      || (shift == 6 && min == 0x800 && 0xE0 <= b < 0xF0 && cp == b % 0x10)
      || (shift == 12 && min == 0x10000 && 0xF0 <= b < 0xF8 && cp == b % 0x08)
    ensures OnTrack(min, shift, cp * Pow2(shift + 6), pos, s, pos + 3, out + [], goal, mode)
  {
    assert Decoded(s, pos, mode) == Sequence(s, pos + 3, shift / 6 + 1, cp, min, mode);
    MultipleOf(cp, shift);
    assert out + [] == out;
  }

  /** A lead byte's bits, moved above the 6, 12 or 18 bits still due, divide back out. */
  lemma MultipleOf(q: nat, shift: nat)
    requires shift == 0 || shift == 6 || shift == 12
    ensures (q * Pow2(shift + 6)) % Pow2(shift + 6) == 0 && (q * Pow2(shift + 6)) / Pow2(shift + 6) == q
  {
    Pow2Values();
  }

  /** The last continuation escape of a sequence whose code point passes the checks: the code point is emitted and the machine is idle again. */
  lemma Completed(s: JsString, pos: nat, shift: int, carry: nat, state: int, prev: int, c: nat,
                  out: JsString, goal: Option<JsString>, mode: Emission)
    requires EscapeAt(s, pos) && 0x80 <= ByteAt(s, pos) < 0xC0
    requires state > 0 && prev + 3 == pos && shift == 0
    requires c == BitOr(carry, (ByteAt(s, pos) % 64) * Pow2(shift % 32)) && c <= 0x10FFFF && c >= state
    requires OnTrack(state, shift, carry, prev, s, pos, out, goal, mode)
    ensures OnTrack(0, shift, c, pos, s, pos + 3, out + Emit(c, mode), goal, mode)
  {
    LastContinuation(s, pos, carry, state, out, goal, mode);
  }

  /**
    Any other continuation escape directly after the previous escape: its
    bits are or-ed in and the sequence goes on, or the goal is invalid (a
    code point out of range or overlong, or a sequence already broken).
   */
  lemma Continued(s: JsString, pos: nat, shift: int, carry: nat, state: int, prev: int, c: nat,
                  out: JsString, goal: Option<JsString>, mode: Emission)
    requires EscapeAt(s, pos) && 0x80 <= ByteAt(s, pos) < 0xC0
    requires state > 0 && prev + 3 == pos
    requires c == BitOr(carry, (ByteAt(s, pos) % 64) * Pow2(shift % 32)) && !(shift == 0 && c <= 0x10FFFF && c >= state)
    requires OnTrack(state, shift, carry, prev, s, pos, out, goal, mode)
    ensures OnTrack(state, shift - 6, c, pos, s, pos + 3, out, goal, mode)
  {
    if shift < 0 {
      assert goal == None;
    } else if shift == 0 {
      LastContinuation(s, pos, carry, state, out, goal, mode);
    } else {
      NextContinuation(s, pos, shift, carry, state, out, goal, mode);
      assert (shift - 6) / 6 + 1 == shift / 6 && shift - 6 + 6 == shift;
    }
  }

  /** The last continuation escape completes the code point, which is checked and emitted. */
  lemma LastContinuation(s: JsString, pos: nat, carry: nat, state: int, out: JsString, goal: Option<JsString>, mode: Emission)
    requires EscapeAt(s, pos) && 0x80 <= ByteAt(s, pos) < 0xC0
    requires state > 0 && carry % Pow2(6) == 0 && Prepend(out, Sequence(s, pos, 1, carry / Pow2(6), state, mode)) == goal
    ensures var c := BitOr(carry, (ByteAt(s, pos) % 64) * Pow2(0));
      if c <= 0x10FFFF && c >= state then Prepend(out + Emit(c, mode), Decoded(s, pos + 3, mode)) == goal
      else goal == None
  {
    var x := ByteAt(s, pos) % 64;
    var c := BitOr(carry, x * Pow2(0));
    CarryStep(carry, x, 0);
    var cp := carry / Pow2(6) * 64 + x;
    assert c == cp;
    assert Sequence(s, pos, 1, carry / Pow2(6), state, mode) == Sequence(s, pos + 3, 0, cp, state, mode);
    if cp <= 0x10FFFF && cp >= state {
      PrependTwice(out, Emit(cp, mode), Decoded(s, pos + 3, mode));
    }
  }

  /** A continuation escape that is not the last moves its bits into the code point so far. */
  lemma NextContinuation(s: JsString, pos: nat, shift: nat, carry: nat, state: int, out: JsString, goal: Option<JsString>, mode: Emission)
    requires EscapeAt(s, pos) && 0x80 <= ByteAt(s, pos) < 0xC0 && (shift == 6 || shift == 12) && state > 0
    requires carry % Pow2(shift + 6) == 0
    requires Prepend(out, Sequence(s, pos, shift / 6 + 1, carry / Pow2(shift + 6), state, mode)) == goal
    ensures var c := BitOr(carry, (ByteAt(s, pos) % 64) * Pow2(shift % 32));
      && c % Pow2(shift) == 0
      && Prepend(out, Sequence(s, pos + 3, shift / 6, c / Pow2(shift), state, mode)) == goal
  {
    var x := ByteAt(s, pos) % 64;
    CarryStep(carry, x, shift);
    var cp := carry / Pow2(shift + 6) * 64 + x;
    assert Sequence(s, pos, shift / 6 + 1, carry / Pow2(shift + 6), state, mode) == Sequence(s, pos + 3, shift / 6, cp, state, mode);
  }

  /** Or-ing six continuation bits below an open carry appends them to its code point. */
  lemma CarryStep(carry: nat, x: nat, shift: nat)
    requires x < 64 && (shift == 0 || shift == 6 || shift == 12) && carry % Pow2(shift + 6) == 0
    ensures var cp := carry / Pow2(shift + 6) * 64 + x;
      var c := BitOr(carry, x * Pow2(shift % 32));
      c % Pow2(shift) == 0 && c / Pow2(shift) == cp
  {
    Pow2Values();
    if shift == 0 {
      BitOrDisjoint(carry / 64, x, 6);
      assert BitOr(carry, x * 1) == carry + x;
    } else if shift == 6 {
      BitOrDisjoint(carry / 4096, x * 64, 12);
      assert BitOr(carry, x * 64) == carry + x * 64;
    } else {
      BitOrDisjoint(carry / 262144, x * 4096, 18);
      assert BitOr(carry, x * 4096) == carry + x * 4096;
    }
  }

  /** Any other escape breaks the decoding: a stray or misplaced byte, or a sequence cut short. */
  lemma Broken(s: JsString, pos: nat, state: int, shift: int, carry: nat, prev: int,
               out: JsString, goal: Option<JsString>, mode: Emission)
    requires EscapeAt(s, pos) && OnTrack(state, shift, carry, prev, s, pos, out, goal, mode)
    requires var b := ByteAt(s, pos);
      && !(state == 0 && (b < 0x80 || 0xC0 <= b < 0xF8))
      && !(state > 0 && 0x80 <= b < 0xC0 && pos - prev == 3)
    ensures goal == None
  {
    if state == 0 {
      assert Decoded(s, pos, mode) == None;
    } else if state > 0 && shift >= 0 && prev + 3 == pos {
      assert Sequence(s, pos, shift / 6 + 1, carry / Pow2(shift + 6), state, mode) == None;
    }
  }

  // What the decoding promises.

  /** Text without escapes decodes to itself. */
  lemma {:induction false} PlainText(s: JsString, i: nat, mode: Emission)
    requires i <= |s| && forall j :: i <= j < |s| ==> !EscapeAt(s, j)
    ensures Decoded(s, i, mode) == Some(s[i..])
    decreases |s| - i
  {
    if i < |s| {
      PlainText(s, i + 1, mode);
      assert s[i..] == [s[i]] + s[i + 1..];
    } else {
      assert s[i..] == [];
    }
  }

  /** The exported `decode` leaves a string without escapes unchanged. */
  lemma DecodePlain(s: JsString, mode: Emission)
    requires forall j :: 0 <= j < |s| ==> !EscapeAt(s, j)
    ensures Decoding(s, mode) == s
  {
    PlainText(s, 0, mode);
  }

  lemma EscapeHasNoSlash(s: JsString, i: nat)
    requires EscapeAt(s, i)
    ensures Text.Count(s[i..], Slash) == Text.Count(s[i + 3..], Slash)
  {
    assert s[i..] == s[i..i + 3] + s[i + 3..];
    Text.CountAppend(s[i..i + 3], s[i + 3..], Slash);
    assert Slash !in s[i..i + 3];
    Text.CountAbsent(s[i..i + 3], Slash);
  }

  /**
    With surrogate pairs for code points above 0xFFFF, decoding neither adds
    nor removes a `/`: the slashes of the result are those of the input.
   */
  lemma {:induction false} DecodedSlashes(s: JsString, i: nat)
    requires i <= |s| && Decoded(s, i, SurrogatePairs).Some?
    ensures Text.Count(Decoded(s, i, SurrogatePairs).value, Slash) == Text.Count(s[i..], Slash)
    decreases |s| - i, 0
  {
    if i < |s| {
      if !EscapeAt(s, i) {
        DecodedSlashes(s, i + 1);
        assert s[i..] == [s[i]] + s[i + 1..];
        Text.CountAppend([s[i]], s[i + 1..], Slash);
        Text.CountAppend([s[i]], Decoded(s, i + 1, SurrogatePairs).value, Slash);
      } else {
        EscapeHasNoSlash(s, i);
        var b := ByteAt(s, i);
        if b < 0x80 {
          var lit: JsString := if b == 0x2F then Ascii("%2F") else [b];
          assert Decoded(s, i, SurrogatePairs) == Prepend(lit, Decoded(s, i + 3, SurrogatePairs));
          DecodedSlashes(s, i + 3);
          assert Slash !in lit by {
            if b == 0x2F {
              assert lit == [37, 50, 70];
            }
          }
          Text.CountAbsent(lit, Slash);
          Text.CountAppend(lit, Decoded(s, i + 3, SurrogatePairs).value, Slash);
        } else if 0xC0 <= b < 0xE0 {
          SequenceSlashes(s, i + 3, 1, b % 0x20, 0x80);
        } else if 0xE0 <= b < 0xF0 {
          SequenceSlashes(s, i + 3, 2, b % 0x10, 0x800);
        } else {
          SequenceSlashes(s, i + 3, 3, b % 0x08, 0x10000);
        }
      }
    }
  }

  lemma {:induction false} SequenceSlashes(s: JsString, j: nat, k: nat, cp: nat, min: nat)
    requires j <= |s| && min >= 0x80 && Sequence(s, j, k, cp, min, SurrogatePairs).Some?
    ensures Text.Count(Sequence(s, j, k, cp, min, SurrogatePairs).value, Slash) == Text.Count(s[j..], Slash)
    decreases |s| - j, 1
  {
    if k == 0 {
      DecodedSlashes(s, j);
      var e := Emit(cp, SurrogatePairs);
      Text.CountAbsent(e, Slash);
      Text.CountAppend(e, Decoded(s, j, SurrogatePairs).value, Slash);
    } else {
      EscapeHasNoSlash(s, j);
      SequenceSlashes(s, j + 3, k - 1, cp * 64 + ByteAt(s, j) % 64, min);
    }
  }

  /** The exported `decode`, with surrogate pairs, never changes the number of `/`. */
  lemma DecodeKeepsSlashes(s: JsString)
    ensures Decoding(s, SurrogatePairs) == [] || Text.Count(Decoding(s, SurrogatePairs), Slash) == Text.Count(s, Slash)
  {
    if Decoded(s, 0, SurrogatePairs).Some? {
      DecodedSlashes(s, 0);
      assert s[0..] == s;
    }
  }

  /**
    `String.fromCharCode` keeps the low 16 bits of U+1002F, so the valid
    4-byte escape `%F0%90%80%AF`, which holds no `/`, decodes to `/` as
    written.
   */
  lemma TruncationMakesSlash(s: JsString)
    requires s == Ascii("%F0%90%80%AF")
    ensures Text.Count(s, Slash) == 0
    ensures Decoding(s, Truncating) == [Slash]
  {
    assert s == [37, 70, 48, 37, 57, 48, 37, 56, 48, 37, 65, 70];
    Text.CountAbsent(s, Slash);
    FourBytes(s, Truncating);
    assert Emit(0x1002F, Truncating) == [Slash];
    assert [Slash] + [] == [Slash];
  }

  /** With surrogate pairs the same escape decodes to U+1002F, and no `/` appears. */
  lemma PairForFourBytes(s: JsString)
    requires s == Ascii("%F0%90%80%AF")
    ensures Decoding(s, SurrogatePairs) == [0xD800, 0xDC2F]
  {
    assert s == [37, 70, 48, 37, 57, 48, 37, 56, 48, 37, 65, 70];
    FourBytes(s, SurrogatePairs);
    assert Emit(0x1002F, SurrogatePairs) == [0xD800, 0xDC2F];
    assert [0xD800, 0xDC2F] + [] == [0xD800, 0xDC2F];
  }

  /** `%F0%90%80%AF` is the four-byte sequence of U+1002F. */
  lemma FourBytes(s: JsString, mode: Emission)
    requires s == [37, 70, 48, 37, 57, 48, 37, 56, 48, 37, 65, 70]
    ensures Decoded(s, 0, mode) == Prepend(Emit(0x1002F, mode), Some([]))
  {
    assert EscapeAt(s, 0) && ByteAt(s, 0) == 0xF0;
    assert Decoded(s, 0, mode) == Sequence(s, 3, 3, 0, 0x10000, mode);
    assert EscapeAt(s, 3) && ByteAt(s, 3) == 0x90;
    assert Sequence(s, 3, 3, 0, 0x10000, mode) == Sequence(s, 6, 2, 16, 0x10000, mode);
    assert EscapeAt(s, 6) && ByteAt(s, 6) == 0x80;
    assert Sequence(s, 6, 2, 16, 0x10000, mode) == Sequence(s, 9, 1, 1024, 0x10000, mode);
    assert EscapeAt(s, 9) && ByteAt(s, 9) == 0xAF;
    assert Sequence(s, 9, 1, 1024, 0x10000, mode) == Sequence(s, 12, 0, 0x1002F, 0x10000, mode);
    assert Decoded(s, 12, mode) == Some([]);
  }

  // Decoding of concrete inputs, one escape at a time.

  /** An overlong two-byte form of `/` is invalid. */
  lemma OverlongSlash(mode: Emission)
    ensures Decoding(Ascii("%C0%AF"), mode) == []
  {
    var a := Ascii("%C0%AF");
    assert a == [37, 67, 48, 37, 65, 70];
    OverlongSlashBytes(a, mode);
  }

  lemma OverlongSlashBytes(a: JsString, mode: Emission)
    requires a == [37, 67, 48, 37, 65, 70]
    ensures Decoded(a, 0, mode) == None
  {
    assert EscapeAt(a, 0) && ByteAt(a, 0) == 0xC0 && EscapeAt(a, 3) && ByteAt(a, 3) == 0xAF;
    assert Sequence(a, 3, 1, 0, 0x80, mode) == Sequence(a, 6, 0, 0x2F, 0x80, mode) == None;
  }

  /** An overlong three-byte form is invalid. */
  lemma OverlongThreeBytes(mode: Emission)
    ensures Decoding(Ascii("%E0%80%AF"), mode) == []
  {
    var b := Ascii("%E0%80%AF");
    assert b == [37, 69, 48, 37, 56, 48, 37, 65, 70];
    OverlongThreeBytesAt(b, mode);
  }

  lemma OverlongThreeBytesAt(b: JsString, mode: Emission)
    requires b == [37, 69, 48, 37, 56, 48, 37, 65, 70]
    ensures Decoded(b, 0, mode) == None
  {
    assert EscapeAt(b, 0) && ByteAt(b, 0) == 0xE0;
    assert Decoded(b, 0, mode) == Sequence(b, 3, 2, 0, 0x800, mode);
    assert EscapeAt(b, 3) && ByteAt(b, 3) == 0x80;
    assert Sequence(b, 3, 2, 0, 0x800, mode) == Sequence(b, 6, 1, 0, 0x800, mode);
    assert EscapeAt(b, 6) && ByteAt(b, 6) == 0xAF;
    assert Sequence(b, 6, 1, 0, 0x800, mode) == Sequence(b, 9, 0, 0x2F, 0x800, mode) == None;
  }

  /** A code point above 0x10FFFF is invalid. */
  lemma BeyondUnicode(mode: Emission)
    ensures Decoding(Ascii("%F4%90%80%80"), mode) == []
  {
    var c := Ascii("%F4%90%80%80");
    assert c == [37, 70, 52, 37, 57, 48, 37, 56, 48, 37, 56, 48];
    BeyondUnicodeAt(c, mode);
  }

  lemma BeyondUnicodeAt(c: JsString, mode: Emission)
    requires c == [37, 70, 52, 37, 57, 48, 37, 56, 48, 37, 56, 48]
    ensures Decoded(c, 0, mode) == None
  {
    assert EscapeAt(c, 0) && ByteAt(c, 0) == 0xF4;
    assert Decoded(c, 0, mode) == Sequence(c, 3, 3, 4, 0x10000, mode);
    assert EscapeAt(c, 3) && ByteAt(c, 3) == 0x90;
    assert Sequence(c, 3, 3, 4, 0x10000, mode) == Sequence(c, 6, 2, 0x110, 0x10000, mode);
    assert EscapeAt(c, 6) && ByteAt(c, 6) == 0x80;
    assert Sequence(c, 6, 2, 0x110, 0x10000, mode) == Sequence(c, 9, 1, 0x4400, 0x10000, mode);
    assert EscapeAt(c, 9) && ByteAt(c, 9) == 0x80;
    assert Sequence(c, 9, 1, 0x4400, 0x10000, mode) == Sequence(c, 12, 0, 0x110000, 0x10000, mode) == None;
  }

  /** A continuation byte with no lead, a lead with no continuation, and a lead split from its continuation are invalid. */
  lemma StrayBytes(mode: Emission)
    ensures Decoding(Ascii("%A9"), mode) == []
    ensures Decoding(Ascii("%C3"), mode) == []
    ensures Decoding(Ascii("%C3x%A9"), mode) == []
    ensures Decoding(Ascii("%F8%80"), mode) == []
  {
    var d := Ascii("%A9");
    assert d == [37, 65, 57] && EscapeAt(d, 0) && ByteAt(d, 0) == 0xA9;
    var e := Ascii("%C3");
    assert e == [37, 67, 51] && EscapeAt(e, 0) && ByteAt(e, 0) == 0xC3;
    assert Sequence(e, 3, 1, 3, 0x80, mode) == None;
    var f := Ascii("%C3x%A9");
    assert f == [37, 67, 51, 120, 37, 65, 57] && EscapeAt(f, 0) && ByteAt(f, 0) == 0xC3 && !EscapeAt(f, 3);
    assert Sequence(f, 3, 1, 3, 0x80, mode) == None;
    var g := Ascii("%F8%80");
    assert g == [37, 70, 56, 37, 56, 48] && EscapeAt(g, 0) && ByteAt(g, 0) == 0xF8;
  }

  /** A two-byte sequence decodes to its code point. */
  lemma TwoByteExample(mode: Emission)
    ensures Decoding(Ascii("%C3%A9"), mode) == [0xE9]
  {
    var a := Ascii("%C3%A9");
    assert a == [37, 67, 51, 37, 65, 57];
    TwoBytesAt(a, mode);
  }

  lemma TwoBytesAt(a: JsString, mode: Emission)
    requires a == [37, 67, 51, 37, 65, 57]
    ensures Decoded(a, 0, mode) == Some([0xE9])
  {
    assert EscapeAt(a, 0) && ByteAt(a, 0) == 0xC3 && EscapeAt(a, 3) && ByteAt(a, 3) == 0xA9;
    assert Decoded(a, 0, mode) == Sequence(a, 3, 1, 3, 0x80, mode);
    assert Decoded(a, 6, mode) == Some([]);
    assert Emit(0xE9, mode) == [0xE9];
    assert Sequence(a, 3, 1, 3, 0x80, mode) == Sequence(a, 6, 0, 0xE9, 0x80, mode);
    assert [0xE9] + [] == [0xE9];
  }

  /** `%2f` comes back as the text `%2F`. */
  lemma SlashEscapeExample(mode: Emission)
    ensures Decoding(Ascii("a%2fb"), mode) == Ascii("a%2Fb")
  {
    var b := Ascii("a%2fb");
    assert b == [97, 37, 50, 102, 98] && !EscapeAt(b, 0) && EscapeAt(b, 1) && ByteAt(b, 1) == 0x2F;
    assert !EscapeAt(b, 4) && Decoded(b, 5, mode) == Some([]);
    assert Decoded(b, 4, mode) == Prepend([98], Some([]));
    assert [98] + [] == [98];
    assert Ascii("%2F") == [37, 50, 70];
    assert Decoded(b, 1, mode) == Prepend([37, 50, 70], Some([98]));
    assert [37, 50, 70] + [98] == [37, 50, 70, 98];
    assert Decoded(b, 0, mode) == Prepend([97], Some([37, 50, 70, 98]));
    assert [97] + [37, 50, 70, 98] == [97, 37, 50, 70, 98];
    assert Ascii("a%2Fb") == [97, 37, 50, 70, 98];
  }

  /** An ASCII escape decodes, and a `%` without two hex digits is kept. */
  lemma AsciiExample(mode: Emission)
    ensures Decoding(Ascii("%41%"), mode) == Ascii("A%")
  {
    var c := Ascii("%41%");
    assert c == [37, 52, 49, 37] && EscapeAt(c, 0) && ByteAt(c, 0) == 0x41 && !EscapeAt(c, 3);
    assert Decoded(c, 4, mode) == Some([]);
    assert Decoded(c, 3, mode) == Prepend([37], Some([]));
    assert [37] + [] == [37];
    assert Decoded(c, 0, mode) == Prepend([65], Some([37]));
    assert [65] + [37] == [65, 37];
    assert Ascii("A%") == [65, 37];
  }
}
