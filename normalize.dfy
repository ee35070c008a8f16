/**
  The response normaliser of lib/normalize.js: given the request's method
  and HTTP version and a response's code, message, headers, body and
  trailers, it rewrites the `date`, `connection`, `transfer-encoding`,
  `content-length` and `trailer` headers so that the response is framed as
  RFC 7230 requires, and decides whether a body and trailers are sent.

  Header and trailer lists are the entries of the source's `Map`s, in
  insertion order and with distinct (lower-case) names. Date parsing and
  formatting is a parameter (`parseDate`, `None` for an invalid date).
 */
module ResponseNormalization {
  import opened Wrappers
  import Text

  type Entries = seq<(string, string)>

  /** A response body: none, a buffer, a promise, or a river (stream). */
  datatype Body = NoBody | Bytes | Promised | Stream

  /** What the normaliser returns; `trailers` is absent when no trailers are sent. */
  datatype Normalized = Normalized(code: int, message: string, headers: map<string, string>, body: Body, trailers: Option<map<string, string>>)

  /** Assigning a string to this property of a JavaScript object stores nothing. */
  const Proto: string := "__proto__"

  /** `toObject` as a value: each entry assigned in turn, later entries overriding earlier ones. */
  function ObjectOf(entries: Entries): map<string, string>
    decreases |entries|
  {
    if entries == [] then map[]
    else
      var m := ObjectOf(entries[..|entries| - 1]);
      var e := entries[|entries| - 1];
      if e.0 == Proto then m else m[e.0 := e.1]
  }

  predicate DistinctNames(entries: Entries)
  {
    forall i, j :: 0 <= i < j < |entries| ==> entries[i].0 != entries[j].0
  }

  /**
    The object holds every entry's name but `__proto__`, and, the names
    being distinct, the entry's own value.
   */
  lemma {:induction false} ObjectOfLookup(entries: Entries, name: string)
    ensures name in ObjectOf(entries) <==> name != Proto && exists i :: 0 <= i < |entries| && entries[i].0 == name
    ensures DistinctNames(entries) ==>
      forall i :: 0 <= i < |entries| && entries[i].0 == name && name != Proto ==> ObjectOf(entries)[name] == entries[i].1
    decreases |entries|
  {
    if entries != [] {
      var init := entries[..|entries| - 1];
      ObjectOfLookup(init, name);
      assert forall i :: 0 <= i < |init| ==> init[i] == entries[i];
      if name != Proto && exists i :: 0 <= i < |entries| && entries[i].0 == name {
        var i :| 0 <= i < |entries| && entries[i].0 == name;
        if i < |init| {
          assert init[i].0 == name;
        }
      }
    }
  }

  /** `toObject`: the loop copying a `Map`'s entries onto a fresh object. */
  method ToObject(entries: Entries) returns (obj: map<string, string>)
    ensures obj == ObjectOf(entries)
  {
    obj := map[];
    var k := 0;
    while k < |entries|
      invariant k <= |entries|
      invariant obj == ObjectOf(entries[..k])
    {
      assert entries[..k + 1][..k] == entries[..k];
      var name, value := entries[k].0, entries[k].1;
      if name != Proto {
        obj := obj[name := value];
      }
      k := k + 1;
    }
    assert entries[..k] == entries;
  }

  /** `Object.keys` of `toObject(entries)`: the names in insertion order, `__proto__` left out. */
  function Names(entries: Entries): seq<string>
  {
    if entries == [] then []
    else (if entries[0].0 == Proto then [] else [entries[0].0]) + Names(entries[1..])
  }

  /** `normalizeOption`: trimmed and lower-cased. */
  function NormalizeOption(s: string): string
  {
    Text.Lower(Text.Trim(s))
  }

  /** A comma-separated header value split into normalised options. */
  function Options(value: string): seq<string>
  {
    NormalizeAll(Text.Split(value, ','))
  }

  /** `.map(normalizeOption)`. */
  function NormalizeAll(parts: seq<string>): (opts: seq<string>)
    ensures |opts| == |parts|
  {
    if parts == [] then [] else [NormalizeOption(parts[0])] + NormalizeAll(parts[1..])
  }

  /** `.filter(identity)`: the non-empty options, in order. */
  function NonEmpty(opts: seq<string>): (r: seq<string>)
    ensures forall x :: x in r <==> x in opts && x != []
  {
    if opts == [] then []
    else (if opts[0] != [] then [opts[0]] else []) + NonEmpty(opts[1..])
  }

  /**
    `filterConnectionOption`, as intended: a non-empty option is kept when it
    is `close` or, outside HTTP/1.0, the name of a header the response has.
   */
  predicate KeepOption(option: string, legacy: bool, present: map<string, string>)
  {
    option != [] && (option == "close" || (!legacy && option in present))
  }

  /**
    `filterConnectionOption` as written: the lookup `this[option]` also finds
    what every object inherits, and `constructor` and `__proto__` are the
    inherited names a lower-cased option can spell.
   */
  predicate KeepOptionAsWritten(option: string, legacy: bool, present: map<string, string>)
  {
    option != [] && (option == "close" || (!legacy && option in present) || option == "constructor" || option == Proto)
  }

  function Kept(opts: seq<string>, legacy: bool, present: map<string, string>): seq<string>
  {
    if opts == [] then []
    else (if KeepOption(opts[0], legacy, present) then [opts[0]] else []) + Kept(opts[1..], legacy, present)
  }

  function KeptAsWritten(opts: seq<string>, legacy: bool, present: map<string, string>): seq<string>
  {
    if opts == [] then []
    else (if KeepOptionAsWritten(opts[0], legacy, present) then [opts[0]] else []) + KeptAsWritten(opts[1..], legacy, present)
  }

  /** The options that survive are exactly those the filter accepts, both ways. */
  lemma {:induction false} KeptExactly(opts: seq<string>, legacy: bool, present: map<string, string>, x: string)
    ensures x in Kept(opts, legacy, present) <==> x in opts && KeepOption(x, legacy, present)
  {
    if opts != [] {
      KeptExactly(opts[1..], legacy, present, x);
      assert opts == [opts[0]] + opts[1..];
    }
  }

  /** The options that survive the filter as written are exactly those it accepts, both ways. */
  lemma {:induction false} KeptAsWrittenExactly(opts: seq<string>, legacy: bool, present: map<string, string>, x: string)
    ensures x in KeptAsWritten(opts, legacy, present) <==> x in opts && KeepOptionAsWritten(x, legacy, present)
  {
    if opts != [] {
      KeptAsWrittenExactly(opts[1..], legacy, present, x);
      assert opts == [opts[0]] + opts[1..];
    }
  }

  /** The intended `connection` value, `""` meaning that the header is removed. */
  function ConnectionValue(value: string, legacy: bool, present: map<string, string>): string
  {
    Text.Join(Kept(Options(value), legacy, present), ',')
  }

  /** The `connection` value the normaliser writes back, `""` meaning that the header is removed. */
  function ConnectionValueAsWritten(value: string, legacy: bool, present: map<string, string>): string
  {
    Text.Join(KeptAsWritten(Options(value), legacy, present), ',')
  }

  /**
    Over HTTP/1.0 no header is named in `connection` but `close`; as
    written, `constructor` is kept all the same.
   */
  lemma InheritedOptionKept(value: string, present: map<string, string>)
    requires value == "constructor"
    ensures ConnectionValueAsWritten(value, true, present) == value
    ensures ConnectionValue(value, true, present) == ""
  {
    assert ',' !in value;
    assert Text.Split(value, ',') == [value];
    assert Text.TrimStart(value) == value;
    assert Text.TrimEnd(value) == value;
    assert Text.Lower(value) == value;
    assert Options(value) == [value];
    assert KeptAsWritten([value], true, present) == [value] + KeptAsWritten([], true, present);
    assert Kept([value], true, present) == [] + Kept([], true, present);
  }

  /**
    Each option left in the intended `connection` value is a non-empty,
    normalised option of the original value that is `close` or, outside
    HTTP/1.0, names a present header; so over HTTP/1.0 only `close` is left.
   */
  lemma ConnectionOptionsAllowed(value: string, legacy: bool, present: map<string, string>)
    ensures var kept := Kept(Options(value), legacy, present);
      && (forall x :: x in kept <==> x in Options(value) && KeepOption(x, legacy, present))
      && (legacy ==> forall x :: x in kept ==> x == "close")
  {
    var kept := Kept(Options(value), legacy, present);
    forall x ensures x in kept <==> x in Options(value) && KeepOption(x, legacy, present) {
      KeptExactly(Options(value), legacy, present, x);
    }
  }

  /**
    Each option left in the `connection` value as written is a non-empty,
    normalised option of the original value that is `close`, `constructor`,
    `__proto__` or, outside HTTP/1.0, names a present header; so over
    HTTP/1.0 only those three names are left.
   */
  lemma ConnectionOptionsAsWritten(value: string, legacy: bool, present: map<string, string>)
    ensures var kept := KeptAsWritten(Options(value), legacy, present);
      && (forall x :: x in kept <==> x in Options(value) && KeepOptionAsWritten(x, legacy, present))
      && (legacy ==> forall x :: x in kept ==> x == "close" || x == "constructor" || x == Proto)
  {
    var kept := KeptAsWritten(Options(value), legacy, present);
    forall x ensures x in kept <==> x in Options(value) && KeepOptionAsWritten(x, legacy, present) {
      KeptAsWrittenExactly(Options(value), legacy, present, x);
    }
  }

  /** The number of `chunked` entries at the end of a list of codings. */
  function TrailingChunked(list: seq<string>): (k: nat)
    ensures k <= |list|
  {
    if list == [] || list[|list| - 1] != "chunked" then 0
    else 1 + TrailingChunked(list[..|list| - 1])
  }

  /** The run counted is all `chunked` and, unless it is the whole list, preceded by another coding. */
  lemma {:induction false} TrailingChunkedRun(list: seq<string>)
    ensures var k := TrailingChunked(list);
      && (forall i :: |list| - k <= i < |list| ==> list[i] == "chunked")
      && (k < |list| ==> list[|list| - 1 - k] != "chunked")
  {
    if list != [] && list[|list| - 1] == "chunked" {
      var init := list[..|list| - 1];
      TrailingChunkedRun(init);
      assert forall i :: 0 <= i < |init| ==> init[i] == list[i];
    }
  }

  /** `findIndex(notChunked)`: the first index whose coding is not `chunked`, or -1. */
  function FirstNotChunked(list: seq<string>): int
  {
    if list == [] then -1
    else if list[0] != "chunked" then 0
    else var r := FirstNotChunked(list[1..]); if r == -1 then -1 else r + 1
  }

  /** `Array.prototype.splice(start, deleteCount)` on a list, negative start counting from the end. */
  function Splice<T>(s: seq<T>, start: int, deleteCount: int): seq<T>
  {
    var from := if start < 0 then (if |s| + start < 0 then 0 else |s| + start) else (if start > |s| then |s| else start);
    var count := if deleteCount < 0 then 0 else if deleteCount > |s| - from then |s| - from else deleteCount;
    s[..from] + s[from + count..]
  }

  /** Searching the reversed list from its start finds the end of the trailing `chunked` run. */
  lemma {:induction false} FirstNotChunkedReversed(list: seq<string>)
    ensures FirstNotChunked(Text.Reverse(list)) == if TrailingChunked(list) == |list| then -1 else TrailingChunked(list)
    decreases |list|
  {
    if list != [] {
      var init, last := list[..|list| - 1], list[|list| - 1];
      assert list == init + [last];
      Text.ReverseAppend(init, [last]);
      assert Text.Reverse([last]) == [last];
      assert Text.Reverse(list) == [last] + Text.Reverse(init);
      assert Text.Reverse(list)[1..] == Text.Reverse(init);
      if last == "chunked" {
        FirstNotChunkedReversed(init);
      }
    }
  }

  /**
    The codings the normaliser keeps from a `transfer-encoding` value: the
    non-empty options are reversed, searched for the first that is not
    `chunked`, reversed back and spliced.
   */
  function Codings(value: string, head: bool): seq<string>
  {
    CodingsOf(NonEmpty(Options(value)), head)
  }

  function CodingsOf(list: seq<string>, head: bool): seq<string>
  {
    var encodings := Text.Reverse(list);
    var index := FirstNotChunked(encodings);
    if index != -1 then
      var adjustment := if head then 1 else 0;
      Splice(Text.Reverse(encodings), adjustment - index, index - adjustment)
    else if head && |encodings| > 0 then ["chunked"]
    else []
  }

  /** The `transfer-encoding` value the normaliser computes, `""` when it removes the header. */
  function TransferEncoding(value: string, head: bool): string
  {
    Text.Join(Codings(value, head), ',')
  }

  /**
    The splice against the count of trailing `chunked` entries: a list with
    a real coding loses the whole run, or all of it but one for HEAD; an
    all-`chunked` list becomes `chunked` for HEAD and nothing otherwise.
   */
  lemma CodingsTrimmed(list: seq<string>, head: bool)
    ensures var k := TrailingChunked(list);
      CodingsOf(list, head) == if k < |list| then list[..|list| - k + (if head && k > 0 then 1 else 0)]
                               else if head && list != [] then ["chunked"] else []
  {
    var k := TrailingChunked(list);
    FirstNotChunkedReversed(list);
    if k < |list| {
      Text.ReverseReverse(list);
      CodingsSplice(list, head, k);
      SpliceTail(list, k, head);
    }
  }

  /** `CodingsOf` once the search has found the coding at index `k` of the reversed list. */
  lemma CodingsSplice(list: seq<string>, head: bool, k: nat)
    requires FirstNotChunked(Text.Reverse(list)) == k && Text.Reverse(Text.Reverse(list)) == list
    ensures var adjustment := if head then 1 else 0;
      CodingsOf(list, head) == Splice(list, adjustment - k, k - adjustment)
  {
  }

  /** The splice the normaliser performs, for `k` trailing `chunked` entries after a real coding. */
  lemma SpliceTail(list: seq<string>, k: nat, head: bool)
    requires k < |list|
    ensures var adjustment := if head then 1 else 0;
      Splice(list, adjustment - k, k - adjustment) == list[..|list| - k + (if head && k > 0 then 1 else 0)]
  {
    var adjustment := if head then 1 else 0;
    var r := Splice(list, adjustment - k, k - adjustment);
    if k == 0 {
      assert r == list[..adjustment] + list[adjustment..];
    } else if head && k == 1 {
      assert r == list[..0] + list[0..];
    } else if head {
      assert r == list[..|list| + 1 - k] + list[|list|..];
    } else {
      assert r == list[..|list| - k] + list[|list|..];
    }
  }

  /** Outside HEAD the kept codings are the list without its trailing `chunked` run. */
  lemma CodingsOfGet(list: seq<string>)
    ensures CodingsOf(list, false) == list[..|list| - TrailingChunked(list)]
  {
    CodingsTrimmed(list, false);
    assert list[..0] == [];
  }

  /** Outside HEAD, the kept codings never end in `chunked`, and none of them is empty. */
  lemma CodingsEndUnchunked(value: string)
    ensures var c := Codings(value, false);
      (c == [] || c[|c| - 1] != "chunked") && forall i :: 0 <= i < |c| ==> c[i] != []
  {
    var list := NonEmpty(Options(value));
    var k := TrailingChunked(list);
    CodingsOfGet(list);
    TrailingChunkedRun(list);
    var c := Codings(value, false);
    assert c == list[..|list| - k];
    forall i | 0 <= i < |c| ensures c[i] != [] {
      assert c[i] == list[i] && list[i] in list;
    }
  }

  /** Normalising an option never introduces a comma. */
  lemma NormalizeOptionNoComma(s: string)
    requires ',' !in s
    ensures ',' !in NormalizeOption(s)
  {
    Text.TrimStartSuffix(s);
    var t := Text.TrimStart(s);
    Text.TrimEndPrefix(t);
    var u := Text.TrimEnd(t);
    assert forall i :: 0 <= i < |u| ==> u[i] == s[|s| - |t| + i];
  }

  /** No normalised option holds a comma. */
  lemma {:induction false} OptionsNoComma(parts: seq<string>)
    requires forall i :: 0 <= i < |parts| ==> ',' !in parts[i]
    ensures forall x :: x in NormalizeAll(parts) ==> ',' !in x
  {
    if parts != [] {
      NormalizeOptionNoComma(parts[0]);
      OptionsNoComma(parts[1..]);
    }
  }

  /**
    A streamed HTTP/1.1 response's `transfer-encoding` lists the kept
    codings followed by exactly one `chunked`: the kept codings never end
    in `chunked`, so the one appended is the last and only final one.
   */
  lemma ChunkedExactlyOnceAtEnd(value: string)
    ensures var te := TransferEncoding(value, false);
      var header := if te != [] then te + ",chunked" else "chunked";
      var parts := Text.Split(header, ',');
      && parts == Codings(value, false) + ["chunked"]
      && (|parts| == 1 || parts[|parts| - 2] != "chunked")
  {
    CodingsClean(value);
    ChunkedLine(Codings(value, false));
  }

  /** `ChunkedExactlyOnceAtEnd` for any comma-free, non-empty codings that do not end in `chunked`. */
  lemma ChunkedLine(c: seq<string>)
    requires c == [] || c[|c| - 1] != "chunked"
    requires forall i :: 0 <= i < |c| ==> ',' !in c[i] && c[i] != []
    ensures var te := Text.Join(c, ',');
      var header := if te != [] then te + ",chunked" else "chunked";
      var parts := Text.Split(header, ',');
      && parts == c + ["chunked"]
      && (|parts| == 1 || parts[|parts| - 2] != "chunked")
  {
    var te := Text.Join(c, ',');
    CommaChunked(te);
    ChunkedHeader(c, "chunked");
    if te != [] {
      assert te + ",chunked" == te + [','] + "chunked";
    }
  }

  /** `chunked` holds no comma, and the text `,chunked` is a comma and then `chunked`. */
  lemma CommaChunked(te: string)
    ensures ',' !in "chunked"
    ensures te + ",chunked" == te + [','] + "chunked"
  {
    assert ",chunked" == [','] + "chunked";
  }

  /** Comma-free, non-empty codings not ending in `x`, followed by `,` and the comma-free `x`, split back into those codings and one final `x`. */
  lemma ChunkedHeader(c: seq<string>, x: string)
    requires ',' !in x && (c == [] || c[|c| - 1] != x)
    requires forall i :: 0 <= i < |c| ==> ',' !in c[i] && c[i] != []
    ensures var te := Text.Join(c, ',');
      var parts := Text.Split(if te != [] then te + [','] + x else x, ',');
      && parts == c + [x]
      && (|parts| == 1 || parts[|parts| - 2] != x)
  {
    ChunkedAppended(c, x);
    LastBeforeAppended(c, x);
  }

  lemma LastBeforeAppended(c: seq<string>, x: string)
    requires c == [] || c[|c| - 1] != x
    ensures var parts := c + [x]; |parts| == 1 || parts[|parts| - 2] != x
  {
  }

  /** The codings left for a GET response are non-empty, comma-free, and do not end in `chunked`. */
  lemma CodingsClean(value: string)
    ensures var c := Codings(value, false);
      && (c == [] || c[|c| - 1] != "chunked")
      && forall i :: 0 <= i < |c| ==> ',' !in c[i] && c[i] != []
  {
    var c := Codings(value, false);
    var list := NonEmpty(Options(value));
    CodingsEndUnchunked(value);
    CodingsTrimmed(list, false);
    OptionsNoComma(Text.Split(value, ','));
    assert forall x :: x in c ==> x in list;
  }

  /** Appending `,chunked` to the join of comma-free, non-empty codings splits back into those codings and `chunked`. */
  lemma ChunkedAppended(c: seq<string>, chunked: string)
    requires ',' !in chunked
    requires forall i :: 0 <= i < |c| ==> ',' !in c[i] && c[i] != []
    ensures var te := Text.Join(c, ',');
      Text.Split(if te != [] then te + [','] + chunked else chunked, ',') == c + [chunked]
  {
    var te := Text.Join(c, ',');
    if c == [] {
      Text.SplitJoin([chunked], ',');
    } else {
      assert |te| >= |c[0]| > 0 by {
        if |c| > 1 {
          assert te == c[0] + [','] + Text.Join(c[1..], ',');
        }
      }
      Text.JoinAppend(c, chunked, ',');
      Text.SplitJoin(c + [chunked], ',');
    }
  }

  /** A value parsed by the `date` parameter, or `None` when the header is to be dropped. */
  function FixDate(h: map<string, string>, parseDate: string -> Option<string>): map<string, string>
  {
    if "date" !in h then h
    else match parseDate(h["date"])
      case None => h - {"date"}
      case Some(d) => h["date" := d]
  }

  /** The `connection` step: any value but `close` is filtered as written (inherited names kept), and removed when nothing is left. */
  function FixConnection(h: map<string, string>, legacy: bool): map<string, string>
  {
    if "connection" !in h || h["connection"] == "close" then h
    else
      var c := ConnectionValueAsWritten(h["connection"], legacy, h);
      if c != [] then h["connection" := c] else h - {"connection"}
  }

  /** The headers after the `date` and `connection` steps, which every response goes through. */
  function Prelude(entries: Entries, legacy: bool, parseDate: string -> Option<string>): map<string, string>
  {
    FixConnection(FixDate(ObjectOf(entries), parseDate), legacy)
  }

  /** The headers the later steps may change. */
  const Framing: set<string> := {"trailer", "transfer-encoding", "content-length"}

  /** The header names the normaliser owns are distinct (their lengths differ). */
  lemma OwnedNamesDistinct()
    ensures "trailer" != "transfer-encoding" && "trailer" != "content-length" && "trailer" != "connection"
    ensures "transfer-encoding" != "content-length" && "transfer-encoding" != "connection"
    ensures "content-length" != "connection" && "date" != "connection"
    ensures Framing - {"trailer"} == {"transfer-encoding", "content-length"}
  {
    assert |"trailer"| == 7 && |"transfer-encoding"| == 17 && |"content-length"| == 14 && |"connection"| == 10 && |"date"| == 4;
  }

  /** The computed `transfer-encoding`, `""` when the response has none or it is removed. */
  function Te(h: map<string, string>, head: bool): string
  {
    if "transfer-encoding" in h then TransferEncoding(h["transfer-encoding"], head) else ""
  }

  /** The headers once a `transfer-encoding` that computes to nothing is removed. */
  function TeKept(h: map<string, string>, head: bool): map<string, string>
  {
    if "transfer-encoding" in h && Te(h, head) == [] then h - {"transfer-encoding"} else h
  }

  /** Responses without a body: 204, 304, and HEAD over HTTP/1.0. */
  predicate Bodiless(code: int, head: bool, legacy: bool)
  {
    code == 204 || code == 304 || (head && legacy)
  }

  /** A response that is not sent with `content-length: 0`: a river, trailers outside HTTP/1.0, or transfer codings. */
  predicate Streamed(body: Body, trailerCount: nat, legacy: bool, te: string)
  {
    body.Stream? || (trailerCount > 0 && !legacy) || te != []
  }

  /** `toObject` and the `date` and `connection` steps. */
  method FixHeaders(headerEntries: Entries, legacy: bool, parseDate: string -> Option<string>) returns (headers: map<string, string>)
    ensures headers == Prelude(headerEntries, legacy, parseDate)
  {
    OwnedNamesDistinct();
    headers := ToObject(headerEntries);
    if "date" in headers {
      var date := parseDate(headers["date"]);
      if date.Some? {
        headers := headers["date" := date.value];
      } else {
        headers := headers - {"date"};
      }
    }
    assert headers == FixDate(ObjectOf(headerEntries), parseDate);
    if "connection" in headers && headers["connection"] != "close" {
      var connection := ConnectionValueAsWritten(headers["connection"], legacy, headers);
      if connection != [] {
        headers := headers["connection" := connection];
      } else {
        headers := headers - {"connection"};
      }
    }
  }

  /** The framing headers of a response without a body. */
  method BodilessHeaders(h: map<string, string>, code: int) returns (headers: map<string, string>)
    ensures "trailer" !in headers && "transfer-encoding" !in headers
    ensures "content-length" in headers <==> "content-length" in h && code != 204 && code != 304 && Text.IsDigits(h["content-length"])
    ensures headers - {"content-length"} == h - Framing
    ensures "content-length" in headers ==> headers["content-length"] == h["content-length"]
  {
    OwnedNamesDistinct();
    headers := h - {"trailer", "transfer-encoding"};
    if "content-length" in headers && (code == 204 || code == 304 || !Text.IsDigits(headers["content-length"])) {
      headers := headers - {"content-length"};
    }
  }

  /** The framing headers of a HEAD response over HTTP/1.1, given the computed `transfer-encoding`. */
  method HeadHeaders(h: map<string, string>, te: string) returns (headers: map<string, string>)
    ensures "content-length" in headers <==> "content-length" in h && Text.IsDigits(h["content-length"])
    ensures "content-length" in headers ==> headers["content-length"] == h["content-length"]
    ensures "transfer-encoding" in headers <==> te != [] && "content-length" !in headers
    ensures "transfer-encoding" in headers ==> headers["transfer-encoding"] == te
    ensures var trailer := if "trailer" in h then Text.Join(NonEmpty(Options(h["trailer"])), ',') else [];
      && ("trailer" in headers <==> trailer != [])
      && ("trailer" in headers ==> headers["trailer"] == trailer)
    ensures headers - Framing == h - Framing
  {
    OwnedNamesDistinct();
    headers := if te == [] then h - {"transfer-encoding"} else h;
    if "trailer" in headers {
      var trailer := Text.Join(NonEmpty(Options(headers["trailer"])), ',');
      if trailer != [] {
        headers := headers["trailer" := trailer];
      } else {
        headers := headers - {"trailer"};
      }
    }
    if "content-length" in headers && !Text.IsDigits(headers["content-length"]) {
      headers := headers - {"content-length"};
    }
    if te != [] {
      if "content-length" in headers {
        headers := headers - {"transfer-encoding"};
      } else {
        headers := headers["transfer-encoding" := te];
      }
    }
  }

  /** The framing headers of a streamed HTTP/1.1 response: chunked, with `trailer` naming the trailers. */
  method ChunkedHeaders(h: map<string, string>, te: string, trailerEntries: Entries) returns (headers: map<string, string>)
    ensures "content-length" !in headers && "transfer-encoding" in headers
    ensures headers["transfer-encoding"] == if te != [] then te + ",chunked" else "chunked"
    ensures "trailer" in headers <==> |trailerEntries| > 0
    ensures |trailerEntries| > 0 ==> headers["trailer"] == Text.Join(Names(trailerEntries), ',')
    ensures headers - Framing == h - Framing
  {
    OwnedNamesDistinct();
    headers := h - {"content-length"};
    if |trailerEntries| > 0 {
      headers := headers["trailer" := Text.Join(Names(trailerEntries), ',')];
    } else {
      headers := headers - {"trailer"};
    }
    headers := headers["transfer-encoding" := if te != [] then te + ",chunked" else "chunked"];
  }

  /**
    The exported normaliser. Responses that carry no body (204, 304, and
    HEAD over HTTP/1.0) lose `trailer` and `transfer-encoding`, and keep a
    digit-only `content-length` only when not 204 or 304. Other HEAD
    responses keep a normalised `trailer`, a digit-only `content-length`, and
    the computed `transfer-encoding` unless a `content-length` remains. A
    buffered body without transfer codings (and without trailers, outside
    HTTP/1.0) gets `content-length: 0`; anything else is streamed: over
    HTTP/1.0 with `connection: close`, no `content-length` and `trailer`
    left as it was, over HTTP/1.1 chunked, with `trailer` naming the
    trailers. No header outside the framing ones and `connection` is touched
    after the `date` step.
   */
  method Normalize(requestMethod: string, major: int, minor: int, code: int, message: string,
                   headerEntries: Entries, body: Body, trailerEntries: Entries,
                   parseDate: string -> Option<string>) returns (r: Normalized)
    ensures r.code == code && r.message == message
    ensures var legacy := major != 1 || minor == 0;
      r.headers - Framing - {"connection"} == Prelude(headerEntries, legacy, parseDate) - Framing - {"connection"}
    ensures var head, legacy := requestMethod == "HEAD", major != 1 || minor == 0;
      var h := Prelude(headerEntries, legacy, parseDate);
      Bodiless(code, head, legacy) ==>
        && r.body == NoBody && r.trailers == None
        && "trailer" !in r.headers && "transfer-encoding" !in r.headers
        && ("content-length" in r.headers <==> "content-length" in h && code != 204 && code != 304 && Text.IsDigits(h["content-length"]))
        && r.headers - {"content-length"} == h - Framing
        && ("content-length" in r.headers ==> r.headers["content-length"] == h["content-length"])
    ensures var head, legacy := requestMethod == "HEAD", major != 1 || minor == 0;
      var h := Prelude(headerEntries, legacy, parseDate);
      var te := Te(h, head);
      !Bodiless(code, head, legacy) && head ==>
        && r.body == NoBody && r.trailers == None
        && ("content-length" in r.headers <==> "content-length" in h && Text.IsDigits(h["content-length"]))
        && ("transfer-encoding" in r.headers <==> te != [] && "content-length" !in r.headers)
        && ("transfer-encoding" in r.headers ==> r.headers["transfer-encoding"] == te)
        && ("content-length" in r.headers ==> r.headers["content-length"] == h["content-length"])
        && (var trailer := if "trailer" in h then Text.Join(NonEmpty(Options(h["trailer"])), ',') else [];
            && ("trailer" in r.headers <==> trailer != [])
            && ("trailer" in r.headers ==> r.headers["trailer"] == trailer))
        && r.headers - Framing == h - Framing
    ensures var head, legacy := requestMethod == "HEAD", major != 1 || minor == 0;
      var h := Prelude(headerEntries, legacy, parseDate);
      var te := Te(h, head);
      !Bodiless(code, head, legacy) && !head && !Streamed(body, |trailerEntries|, legacy, te) ==>
        && r.body == body && r.trailers == None
        && r.headers == (TeKept(h, head) - {"trailer"})["content-length" := "0"]
    ensures var head, legacy := requestMethod == "HEAD", major != 1 || minor == 0;
      var h := Prelude(headerEntries, legacy, parseDate);
      var te := Te(h, head);
      !Bodiless(code, head, legacy) && !head && Streamed(body, |trailerEntries|, legacy, te) && legacy ==>
        && r.body == Stream && r.trailers == None
        && "content-length" !in r.headers && "connection" in r.headers && r.headers["connection"] == "close"
        && ("transfer-encoding" in r.headers <==> te != [])
        && (te != [] ==> r.headers["transfer-encoding"] == te)
        && ("trailer" in r.headers <==> "trailer" in h)
        && ("trailer" in h ==> r.headers["trailer"] == h["trailer"])
        && r.headers - Framing - {"connection"} == h - Framing - {"connection"}
    ensures var head, legacy := requestMethod == "HEAD", major != 1 || minor == 0;
      var h := Prelude(headerEntries, legacy, parseDate);
      var te := Te(h, head);
      !Bodiless(code, head, legacy) && !head && Streamed(body, |trailerEntries|, legacy, te) && !legacy ==>
        && r.body == Stream && r.trailers == Some(ObjectOf(trailerEntries))
        && "content-length" !in r.headers && "transfer-encoding" in r.headers
        && r.headers["transfer-encoding"] == (if te != [] then te + ",chunked" else "chunked")
        && ("trailer" in r.headers <==> |trailerEntries| > 0)
        && (|trailerEntries| > 0 ==> r.headers["trailer"] == Text.Join(Names(trailerEntries), ','))
        && r.headers - Framing == h - Framing
  {
    var head := requestMethod == "HEAD";
    var legacy := major != 1 || minor == 0;
    var headers := FixHeaders(headerEntries, legacy, parseDate);
    if code == 204 || code == 304 || (head && legacy) {
      headers := BodilessHeaders(headers, code);
      return Normalized(code, message, headers, NoBody, None);
    }
    var transferEncoding := "";
    if "transfer-encoding" in headers {
      transferEncoding := TransferEncoding(headers["transfer-encoding"], head);
    }
    if head {
      headers := HeadHeaders(headers, transferEncoding);
      return Normalized(code, message, headers, NoBody, None);
    }
    r := WithBody(headers, transferEncoding, legacy, code, message, body, trailerEntries);
  }

  /**
    The rest of the normaliser for a response that has a body: `h` are the
    headers after the `date` and `connection` steps and `te` the computed
    `transfer-encoding`.
   */
  method WithBody(h: map<string, string>, te: string, legacy: bool, code: int, message: string,
                  body: Body, trailerEntries: Entries) returns (r: Normalized)
    ensures r.code == code && r.message == message
    ensures r.headers - Framing - {"connection"} == h - Framing - {"connection"}
    ensures !Streamed(body, |trailerEntries|, legacy, te) ==>
      && r.body == body && r.trailers == None
      && r.headers == ((if "transfer-encoding" in h && te == [] then h - {"transfer-encoding"} else h) - {"trailer"})["content-length" := "0"]
    ensures Streamed(body, |trailerEntries|, legacy, te) && legacy ==>
      && r.body == Stream && r.trailers == None
      && "content-length" !in r.headers && "connection" in r.headers && r.headers["connection"] == "close"
      && ("transfer-encoding" in r.headers <==> te != [])
      && (te != [] ==> r.headers["transfer-encoding"] == te)
      && ("trailer" in r.headers <==> "trailer" in h)
      && ("trailer" in h ==> r.headers["trailer"] == h["trailer"])
    ensures Streamed(body, |trailerEntries|, legacy, te) && !legacy ==>
      && r.body == Stream && r.trailers == Some(ObjectOf(trailerEntries))
      && "content-length" !in r.headers && "transfer-encoding" in r.headers
      && r.headers["transfer-encoding"] == (if te != [] then te + ",chunked" else "chunked")
      && ("trailer" in r.headers <==> |trailerEntries| > 0)
      && (|trailerEntries| > 0 ==> r.headers["trailer"] == Text.Join(Names(trailerEntries), ','))
      && r.headers - Framing == h - Framing
  {
    OwnedNamesDistinct();
    var headers := h;
    if te == [] {
      headers := headers - {"transfer-encoding"};
    }
    var streamBody := body;
    if !body.Stream? {
      if (|trailerEntries| == 0 || legacy) && te == [] {
        headers := headers - {"trailer"};
        headers := headers["content-length" := "0"];
        return Normalized(code, message, headers, body, None);
      }
      streamBody := Stream;
    }
    if legacy {
      headers := headers - {"content-length"};
      if te != [] {
        headers := headers["transfer-encoding" := te];
      }
      headers := headers["connection" := "close"];
      return Normalized(code, message, headers, streamBody, None);
    }
    var trailers := ToObject(trailerEntries);
    headers := ChunkedHeaders(headers, te, trailerEntries);
    return Normalized(code, message, headers, streamBody, Some(trailers));
  }
}
