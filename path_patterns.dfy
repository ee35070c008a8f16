/**
  The pathname patterns both path routers accept (lib/routers/path-router.js
  and lib/path-router.js declare the same `validRoute`, `getDynamicKeys` and
  `noSlash`), the parameter names a pattern declares, and the trie route a
  normalised pattern becomes. Pathnames are sequences of UTF-16 code units.
 */
module PathPatterns {
  import opened Wrappers
  import opened Js
  import MatchEngine
  import PercentDecode
  import Text

  function Code(c: char): Unit
    requires c as int < 0x80
  {
    c as int
  }

  predicate IsLetter(u: Unit) { 65 <= u <= 90 || 97 <= u <= 122 }

  predicate IsDecimal(u: Unit) { 48 <= u <= 57 }

  /** `[\w.~:@!$&'()*+,;=-]`: the characters a literal segment may hold outside escapes. */
  predicate IsPathChar(u: Unit)
  {
    IsLetter(u) || IsDecimal(u) || u == Code('_')
    || u == Code('.') || u == Code('~') || u == Code(':') || u == Code('@') || u == Code('!')
    || u == Code('$') || u == Code('&') || u == Code('\'') || u == Code('(') || u == Code(')')
    || u == Code('*') || u == Code('+') || u == Code(',') || u == Code(';') || u == Code('=')
    || u == Code('-')
  }

  /** `(?:[\w.~:@!$&'()*+,;=-]|%[\da-f]{2})*` over `s[i..]`. */
  predicate LiteralRun(s: JsString, i: nat)
    requires i <= |s|
    decreases |s| - i
  {
    if i == |s| then true
    else if s[i] == Code('%') then PercentDecode.EscapeAt(s, i) && LiteralRun(s, i + 3)
    else IsPathChar(s[i]) && LiteralRun(s, i + 1)
  }

  /** `[a-z_$]` and `[a-z_$\d]`, case-insensitive. */
  predicate IsNameStart(u: Unit) { IsLetter(u) || u == Code('_') || u == Code('$') }

  predicate IsNamePart(u: Unit) { IsNameStart(u) || IsDecimal(u) }

  /** One segment: pchars and escapes not starting with `:`, or `:` and a parameter name. */
  predicate Segment(seg: JsString)
  {
    && |seg| > 0
    && if seg[0] == Code(':') then
         |seg| >= 2 && IsNameStart(seg[1]) && forall j :: 2 <= j < |seg| ==> IsNamePart(seg[j])
       else LiteralRun(seg, 0)
  }

  /**
    `validRoute`: `/`, `*`, or 1 to 2048 characters of `/`-prefixed
    non-empty segments with an optional trailing `/`.
   */
  predicate ValidRoute(s: JsString)
  {
    && 1 <= |s| <= 2048
    && (s == [Slash] || s == [Code('*')]
        || (s[0] == Slash
            && var body := if |s| > 1 && s[|s| - 1] == Slash then s[1..|s| - 1] else s[1..];
               forall seg <- Text.Split(body, Slash) :: Segment(seg)))
  }

  /** The parameter name a pattern segment declares: what follows a leading `:`, else empty. */
  function ParamName(seg: JsString): JsString
  {
    if |seg| > 0 && seg[0] == Code(':') then seg[1..] else []
  }

  /** `pathname.slice(1).split('/').map(...)`: the parameter name of every segment, in order. */
  function Params(pattern: JsString): (params: seq<JsString>)
    requires |pattern| >= 1
    ensures |params| == |Text.Split(pattern[1..], Slash)|
  {
    var segs := Text.Split(pattern[1..], Slash);
    seq(|segs|, i requires 0 <= i < |segs| => ParamName(segs[i]))
  }

  /** `params.every(p => !p)`: a pattern without parameters is a static route. */
  predicate IsStatic(params: seq<JsString>)
  {
    forall i :: 0 <= i < |params| ==> params[i] == []
  }

  /**
    The trie route of a normalised pathname `key`: its segments, each one at
    a parameter position becoming a parameter (`undefined`).
   */
  function DynamicParts(key: JsString, params: seq<JsString>): (parts: seq<MatchEngine.Part<Unit>>)
    requires |key| >= 1
    ensures |parts| == |Text.Split(key[1..], Slash)|
    ensures forall i :: 0 <= i < |parts| ==>
      parts[i] == if i < |params| && params[i] != [] then None else Some(Text.Split(key[1..], Slash)[i])
  {
    var segs := Text.Split(key[1..], Slash);
    seq(|segs|, i requires 0 <= i < |segs| => if i < |params| && params[i] != [] then None else Some(segs[i]))
  }

  /** The `{ name, index }` list `wrapWithParams` gets: each named parameter with its position in the raw pathname. */
  function ParamIndexes(params: seq<JsString>, from: nat): seq<(JsString, nat)>
    decreases |params|
  {
    if params == [] then []
    else if params[0] != [] then [(params[0], from + 1)] + ParamIndexes(params[1..], from + 1)
    else ParamIndexes(params[1..], from + 1)
  }

  /** A pair is listed exactly when its position holds that non-empty name. */
  lemma {:induction false} ParamIndexesListed(params: seq<JsString>, from: nat, name: JsString, index: nat)
    ensures (name, index) in ParamIndexes(params, from)
        <==> from + 1 <= index <= from + |params| && name != [] && params[index - 1 - from] == name
    decreases |params|
  {
    if params != [] {
      ParamIndexesListed(params[1..], from + 1, name, index);
      if index >= from + 2 && index <= from + |params| {
        assert params[1..][index - 1 - (from + 1)] == params[index - 1 - from];
      }
    }
  }

  /** `noSlash`: one trailing `/` removed from a string longer than one character. */
  function NoSlash(s: JsString): (r: JsString)
    ensures r == s || (|s| > 1 && s == r + [Slash])
    ensures r != s <==> |s| > 1 && s[|s| - 1] == Slash
    ensures |s| >= 1 ==> |r| >= 1 && r[0] == s[0]
  {
    if |s| > 1 && s[|s| - 1] == Slash then s[..|s| - 1] else s
  }

  /** `getDynamicKeys`: none for a one-character key (`/` or `*`), else the segments after the leading character. */
  function DynamicKeys(key: JsString): (keys: Option<seq<JsString>>)
    ensures keys.None? <==> |key| == 1
  {
    if |key| == 1 then None else Some(Text.Split(if key == [] then [] else key[1..], Slash))
  }

  /**
    Parameter positions come from the raw pattern and parts from its
    normalised form; they line up segment for segment, with one part more or
    fewer for each `/` the normalisation added or removed. The routers decode
    as lib/decode.js does, which turns some four-byte escapes into a `/`
    (`PercentDecode.TruncationMakesSlash`) and so shifts the parameters that
    follow; the corrected decoding keeps every `/`
    (`PercentDecode.DecodeKeepsSlashes`), and with it and a normalisation that
    keeps them too the route has exactly one part per parameter slot.
   */
  lemma PartsAlign(pattern: JsString, key: JsString)
    requires |pattern| >= 1 && |key| >= 1 && pattern[0] == Slash && key[0] == Slash
    ensures |DynamicParts(key, Params(pattern))| + Text.Count(pattern, Slash)
         == |Params(pattern)| + Text.Count(key, Slash)
  {
    Text.SplitCount(pattern[1..], Slash);
    Text.SplitCount(key[1..], Slash);
    assert pattern == [pattern[0]] + pattern[1..];
    assert key == [key[0]] + key[1..];
    Text.CountAppend([pattern[0]], pattern[1..], Slash);
    Text.CountAppend([key[0]], key[1..], Slash);
  }

  /** Stripping the trailing `/` removes exactly one `/`. */
  lemma NoSlashCount(s: JsString)
    ensures Text.Count(NoSlash(s), Slash) + (if NoSlash(s) != s then 1 else 0) == Text.Count(s, Slash)
  {
    if NoSlash(s) != s {
      Text.CountAppend(NoSlash(s), [Slash], Slash);
    }
  }
}
