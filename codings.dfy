/**
  The request-body decoding plan of the `decompress` and `decode` plugins.
  Both read the request's Content-Encoding and Transfer-Encoding fields,
  answer 415 (section 3.1.2.2 of RFC 7231) for a content coding they do not
  know, 501 (section 3.3.1 of RFC 7230) for a transfer coding they do not
  know or a `chunked` that is not last, and otherwise store the list of
  decompressors to apply, last-listed coding first.

  The zlib streams are tags (`Gunzip`, `Inflate`); the stream plumbing that
  applies them is not modelled.
 */
module ContentCodings {
  import opened Wrappers
  import opened JsValues
  import Text
  import FieldMaps

  datatype Decoder = Gunzip | Inflate

  /** `{ decoders, options }`, as stored in `req.meta`. */
  datatype Plan = Plan(decoders: seq<Decoder>, options: map<string, Value>)

  const ContentNames: set<string> := {"gzip", "deflate", "identity"}
  const TransferNames: set<string> := {"gzip", "deflate", "identity", "chunked"}

  /** `[ \t]` */
  predicate IsBlank(c: char)
  {
    c == ' ' || c == '\t'
  }

  /** Number of leading blanks. */
  function LeadBlanks(p: string): (n: nat)
    ensures n <= |p| && forall i :: 0 <= i < n ==> IsBlank(p[i])
    ensures n < |p| ==> !IsBlank(p[n])
  {
    if p != [] && IsBlank(p[0]) then 1 + LeadBlanks(p[1..]) else 0
  }

  /** Number of trailing blanks. */
  function TrailBlanks(p: string): (n: nat)
    ensures n <= |p| && forall i :: |p| - n <= i < |p| ==> IsBlank(p[i])
    ensures n < |p| ==> !IsBlank(p[|p| - 1 - n])
  {
    if p != [] && IsBlank(p[|p| - 1]) then 1 + TrailBlanks(p[..|p| - 1]) else 0
  }

  /**
    One comma-separated piece of a coding list as the grammar reads it:
    blanks, a coding name in any case, blanks; no blanks before the first
    piece's name or after the last piece's.
   */
  predicate PieceOk(p: string, first: bool, last: bool, names: set<string>)
  {
    var lead, trail := LeadBlanks(p), TrailBlanks(p);
    && lead + trail <= |p|
    && (first ==> lead == 0)
    && (last ==> trail == 0)
    && Text.Lower(p[lead..|p| - trail]) in names
  }

  /** `/^(?:gzip|deflate|identity)(?:[ \t]*,[ \t]*(?:gzip|deflate|identity))*$/i` */
  predicate ContentCodingsValid(h: string)
  {
    var pieces := Text.Split(h, ',');
    forall i :: 0 <= i < |pieces| ==> PieceOk(pieces[i], i == 0, i == |pieces| - 1, ContentNames)
  }

  /** The same list grammar with `chunked` also allowed, but only at the very end (`chunked$`). */
  predicate TransferCodingsValid(h: string)
  {
    var pieces := Text.Split(h, ',');
    forall i :: 0 <= i < |pieces| ==>
      PieceOk(pieces[i], i == 0, i == |pieces| - 1, if i == |pieces| - 1 then TransferNames else ContentNames)
  }

  /** The decompressor one listed coding adds, after `trim().toLowerCase()`. */
  function DecoderOf(encoding: string): Option<Decoder>
  {
    var e := Text.Lower(Text.Trim(encoding));
    if e == "gzip" then Some(Gunzip) else if e == "deflate" then Some(Inflate) else None
  }

  /** The decompressors of a list of codings, in listing order. */
  function DecodersOf(encodings: seq<string>): seq<Decoder>
  {
    if encodings == [] then []
    else
      var d := DecoderOf(encodings[|encodings| - 1]);
      DecodersOf(encodings[..|encodings| - 1]) + (if d.Some? then [d.value] else [])
  }

  lemma {:induction false} DecodersOfAppend(a: seq<string>, b: seq<string>)
    ensures DecodersOf(a + b) == DecodersOf(a) + DecodersOf(b)
    decreases |b|
  {
    if b == [] {
      assert a + b == a;
    } else {
      assert (a + b)[..|a + b| - 1] == a + b[..|b| - 1];
      DecodersOfAppend(a, b[..|b| - 1]);
    }
  }

  /** Reversing the decompressors is the same as reading the codings from the last one back. */
  lemma {:induction false} PlanIsReversedListing(encodings: seq<string>)
    ensures Text.Reverse(DecodersOf(encodings)) == DecodersOf(Text.Reverse(encodings))
    decreases |encodings|
  {
    if encodings != [] {
      var init := encodings[..|encodings| - 1];
      var last := encodings[|encodings| - 1];
      var tail := DecodersOf([last]);
      assert encodings == init + [last];
      DecodersOfAppend(init, [last]);
      OneDecoder(last);
      Text.ReverseAppend(DecodersOf(init), tail);
      Text.ReverseShort(tail);
      PlanIsReversedListing(init);
      Text.ReverseAppend(init, [last]);
      Text.ReverseShort([last]);
      DecodersOfAppend([last], Text.Reverse(init));
    }
  }

  /** One listed coding adds at most one decompressor. */
  lemma OneDecoder(e: string)
    ensures |DecodersOf([e])| <= 1
  {
    assert [e][..0] == [];
  }

  /** Lists made only of `identity` and `chunked` add no decompressor. */
  lemma {:induction false} NoDecoderForOthers(encodings: seq<string>)
    requires forall i :: 0 <= i < |encodings| ==> Text.Lower(Text.Trim(encodings[i])) !in {"gzip", "deflate"}
    ensures DecodersOf(encodings) == []
    decreases |encodings|
  {
    if encodings != [] {
      NoDecoderForOthers(encodings[..|encodings| - 1]);
    }
  }

  /** A valid piece trims and lowercases to its coding name, so the loop reads exactly the names the grammar accepted. */
  lemma PieceName(p: string, first: bool, last: bool, names: set<string>)
    requires PieceOk(p, first, last, names)
    requires names <= TransferNames
    ensures Text.Lower(Text.Trim(p)) in names
  {
    var lead, trail := LeadBlanks(p), TrailBlanks(p);
    var core := p[lead..|p| - trail];
    var name := Text.Lower(core);
    NamesUnspaced(name);
    LowerUnspaced(core[0]);
    LowerUnspaced(core[|core| - 1]);
    Surround(p, lead, |p| - trail);
    TrimAround(p[..lead], core, p[|p| - trail..]);
  }

  /** Every coding name is non-empty and neither starts nor ends with white space. */
  lemma NamesUnspaced(name: string)
    requires name in TransferNames
    ensures |name| > 0 && !Text.IsJsSpace(name[0]) && !Text.IsJsSpace(name[|name| - 1])
  {
    if name == "gzip" {
    } else if name == "deflate" {
    } else if name == "identity" {
    } else {
      assert name == "chunked";
    }
  }

  /** Lowercasing never turns white space into something else. */
  lemma LowerUnspaced(c: char)
    requires !Text.IsJsSpace(Text.LowerChar(c))
    ensures !Text.IsJsSpace(c)
  {
  }

  /** A string is its head, its middle `p[i..j]` and its tail. */
  lemma Surround(p: string, i: nat, j: nat)
    requires i <= j <= |p|
    ensures p == p[..i] + p[i..j] + p[j..]
  {
    assert p == p[..i] + p[i..];
    assert p[i..] == p[i..j] + p[j..];
  }

  /** `trim` removes blanks around a word that neither starts nor ends with white space. */
  lemma TrimAround(lead: string, core: string, trail: string)
    requires forall i :: 0 <= i < |lead| ==> IsBlank(lead[i])
    requires forall i :: 0 <= i < |trail| ==> IsBlank(trail[i])
    requires core != [] && !Text.IsJsSpace(core[0]) && !Text.IsJsSpace(core[|core| - 1])
    ensures Text.Trim(lead + core + trail) == core
  {
    TrimStartBlanks(lead, core + trail);
    assert lead + core + trail == lead + (core + trail);
    TrimEndBlanks(core, trail);
  }

  lemma {:induction false} TrimStartBlanks(lead: string, rest: string)
    requires forall i :: 0 <= i < |lead| ==> IsBlank(lead[i])
    requires rest != [] && !Text.IsJsSpace(rest[0])
    ensures Text.TrimStart(lead + rest) == rest
    decreases |lead|
  {
    if lead == [] {
      assert lead + rest == rest;
    } else {
      assert (lead + rest)[1..] == lead[1..] + rest;
      TrimStartBlanks(lead[1..], rest);
    }
  }

  lemma {:induction false} TrimEndBlanks(rest: string, trail: string)
    requires forall i :: 0 <= i < |trail| ==> IsBlank(trail[i])
    requires rest != [] && !Text.IsJsSpace(rest[|rest| - 1])
    ensures Text.TrimEnd(rest + trail) == rest
    decreases |trail|
  {
    if trail == [] {
      assert rest + trail == rest;
    } else {
      assert (rest + trail)[..|rest + trail| - 1] == rest + trail[..|trail| - 1];
      TrimEndBlanks(rest, trail[..|trail| - 1]);
    }
  }

  /** In a valid Transfer-Encoding, `chunked` can only be the last coding. */
  lemma ChunkedOnlyLast(h: string, i: nat)
    requires TransferCodingsValid(h)
    requires i < |Text.Split(h, ',')| - 1
    ensures Text.Lower(Text.Trim(Text.Split(h, ',')[i])) in ContentNames
  {
    var pieces := Text.Split(h, ',');
    assert PieceOk(pieces[i], i == 0, false, ContentNames);
    PieceName(pieces[i], i == 0, false, ContentNames);
  }

  /** `Object.assign({}, options, { info: false })` */
  function PluginOptions(options: map<string, Value>): (r: map<string, Value>)
    ensures "info" in r && r["info"] == Boolean(false)
    ensures forall k :: k in r <==> k in options || k == "info"
    ensures forall k :: k in options && k != "info" ==> r[k] == options[k]
  {
    options["info" := Boolean(false)]
  }

  /** What a request's `meta` record holds for the two plugins, each under its own symbol. */
  class Meta {
    var decompressPlan: Option<Plan>
    var decodePlan: Option<Plan>

    constructor()
      ensures decompressPlan == None && decodePlan == None
    {
      decompressPlan := None;
      decodePlan := None;
    }
  }

  /** The header's value when it is present and not empty (`if (header)`). */
  function Listed(headers: FieldMaps.Fields, name: string): (r: Option<string>)
    reads headers
    ensures r.Some? ==> r.value != ""
  {
    var v := headers.Get(Str(name)).value;
    if v.Some? && v.value != "" then v else None
  }

  /**
    The status the plugins answer, or the plan they compute: 415 first, then
    501, then the decompressors of every listed coding in reverse order, or
    no plan when neither header lists anything.
   */
  datatype Outcome = Reject(status: int) | Store(plan: Plan) | Nothing

  /** The codings the two headers list, Content-Encoding first. */
  function Listing(ce: Option<string>, te: Option<string>): seq<string>
  {
    (if ce.Some? then Text.Split(ce.value, ',') else []) + (if te.Some? then Text.Split(te.value, ',') else [])
  }

  /** The outcome for the listed header values (`None` for a missing or empty field). */
  function Expected(ce: Option<string>, te: Option<string>, options: map<string, Value>): (o: Outcome)
    ensures o == Reject(415) <==> ce.Some? && !ContentCodingsValid(ce.value)
    ensures o == Reject(501) <==> (ce.None? || ContentCodingsValid(ce.value)) && te.Some? && !TransferCodingsValid(te.value)
    ensures o.Reject? ==> o.status == 415 || o.status == 501
    ensures o.Nothing? <==> ce.None? && te.None?
    ensures o.Store? ==> o.plan.options == options && o.plan.decoders == DecodersOf(Text.Reverse(Listing(ce, te)))
  {
    if ce.Some? && !ContentCodingsValid(ce.value) then Reject(415)
    else if te.Some? && !TransferCodingsValid(te.value) then Reject(501)
    else if ce.None? && te.None? then Nothing
    else
      PlanIsReversedListing(Listing(ce, te));
      Store(Plan(Text.Reverse(DecodersOf(Listing(ce, te))), options))
  }

  /** The transfer codings, applied last by the sender, are undone first. */
  lemma TransferUndoneFirst(ce: Option<string>, te: Option<string>, options: map<string, Value>)
    requires Expected(ce, te, options).Store?
    ensures Expected(ce, te, options).plan.decoders
      == Text.Reverse(DecodersOf(Listing(None, te))) + Text.Reverse(DecodersOf(Listing(ce, None)))
  {
    var c := if ce.Some? then Text.Split(ce.value, ',') else [];
    var t := if te.Some? then Text.Split(te.value, ',') else [];
    assert Listing(ce, te) == c + t;
    assert Listing(None, te) == [] + t && [] + t == t;
    assert Listing(ce, None) == c + [] && c + [] == c;
    DecodersOfAppend(c, t);
    Text.ReverseAppend(DecodersOf(c), DecodersOf(t));
    PlanIsReversedListing(c + t);
  }

  /** The body both plugins share: collect the codings, then the decompressors in a loop, then reverse them. */
  method CollectPlan(headers: FieldMaps.Fields, options: map<string, Value>) returns (o: Outcome)
    ensures o == Expected(Listed(headers, "content-encoding"), Listed(headers, "transfer-encoding"), options)
  {
    var encodings: seq<string> := [];
    var ce := Listed(headers, "content-encoding");
    if ce.Some? {
      if !ContentCodingsValid(ce.value) {
        return Reject(415);
      }
      encodings := encodings + Text.Split(ce.value, ',');
    }
    var te := Listed(headers, "transfer-encoding");
    if te.Some? {
      if !TransferCodingsValid(te.value) {
        return Reject(501);
      }
      encodings := encodings + Text.Split(te.value, ',');
    }
    assert encodings == Listing(ce, te);
    if |encodings| == 0 {
      return Nothing;
    }
    var decoders := Decompressors(encodings);
    decoders := Text.Reverse(decoders);
    return Store(Plan(decoders, options));
  }

  /** The loop over the listed codings: one decompressor per `gzip` or `deflate`, in listing order. */
  method Decompressors(encodings: seq<string>) returns (decoders: seq<Decoder>)
    ensures decoders == DecodersOf(encodings)
  {
    decoders := [];
    for i := 0 to |encodings|
      invariant decoders == DecodersOf(encodings[..i])
    {
      assert encodings[..i + 1][..i] == encodings[..i];
      var encoding := Text.Lower(Text.Trim(encodings[i]));
      if encoding == "gzip" {
        decoders := decoders + [Gunzip];
      } else if encoding == "deflate" {
        decoders := decoders + [Inflate];
      }
    }
    assert encodings[..|encodings|] == encodings;
  }

  /** The `decompress` plugin's handler: an error status, or the plan stored under its own symbol. */
  method Decompress(options: map<string, Value>, headers: FieldMaps.Fields, meta: Meta) returns (status: Option<int>)
    modifies meta
    ensures var o := Expected(Listed(headers, "content-encoding"), Listed(headers, "transfer-encoding"), PluginOptions(options));
      && (status.Some? <==> o.Reject?)
      && (o.Reject? ==> status == Some(o.status))
      && meta.decompressPlan == (if o.Store? then Some(o.plan) else old(meta.decompressPlan))
      && meta.decodePlan == old(meta.decodePlan)
  {
    var o := CollectPlan(headers, PluginOptions(options));
    if o.Reject? {
      return Some(o.status);
    }
    if o.Store? {
      meta.decompressPlan := Some(o.plan);
    }
    return None;
  }

  /** The `decode` plugin's `before` hook: the same plan, stored under the other symbol. */
  method DecodeBefore(options: map<string, Value>, headers: FieldMaps.Fields, meta: Meta) returns (status: Option<int>)
    modifies meta
    ensures var o := Expected(Listed(headers, "content-encoding"), Listed(headers, "transfer-encoding"), PluginOptions(options));
      && (status.Some? <==> o.Reject?)
      && (o.Reject? ==> status == Some(o.status))
      && meta.decodePlan == (if o.Store? then Some(o.plan) else old(meta.decodePlan))
      && meta.decompressPlan == old(meta.decompressPlan)
  {
    var o := CollectPlan(headers, PluginOptions(options));
    if o.Reject? {
      return Some(o.status);
    }
    if o.Store? {
      meta.decodePlan := Some(o.plan);
    }
    return None;
  }
}
