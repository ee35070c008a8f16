/**
  The mutable response object handed to application code. It is built from
  a status code or from an array `[code, message?, headers?, [body,
  trailers?]?]`, and afterwards only its code, message and body change,
  each through a validating setter, so that it stays well formed.

  The status-code table (Node's `http.STATUS_CODES`) is a parameter:
  `statusCodes`, from code to default reason phrase; only codes of at
  least 200 are usable.
 */
module ResponseState {
  import opened Wrappers
  import opened JsValues
  import HeaderMaps
  import ResponseNormalization
  import Text

  type Body = ResponseNormalization.Body

  /** `codes[code]` is a non-empty text: the code is in the table and at least 200. */
  predicate Known(statusCodes: map<int, string>, code: int)
  {
    code >= 200 && code in statusCodes && statusCodes[code] != ""
  }

  /** `/^[\x20-\x7e\x09]*$/`: printable ASCII and horizontal tab only. */
  predicate IsStatusMessage(s: string)
  {
    forall i :: 0 <= i < |s| ==> ' ' <= s[i] <= '~' || s[i] == '\t'
  }

  /** `normalizeCode` */
  function NormalizeCode(statusCodes: map<int, string>, value: Value): (r: Result<int, Thrown>)
    ensures r.Success? <==> value.Number? && Known(statusCodes, value.n)
    ensures r.Success? ==> r.value == value.n && r.value >= 200
    ensures r.Failure? && TypeOf(value) != "number" ==> r.error == TypeError("Expected response code to be a number")
    ensures r.Failure? && TypeOf(value) == "number" ==> r.error.RangeError?
  {
    if !(value.Number? || value.OtherNumber?) then Failure(TypeError("Expected response code to be a number"))
    else if !(value.Number? && Known(statusCodes, value.n)) then Failure(RangeError("Invalid response code: " + NumberText(value)))
    else Success(value.n)
  }

  /** `normalizeMessage`: a valid string is kept, `null`/`undefined` means the code's default text. */
  function NormalizeMessage(statusCodes: map<int, string>, value: Value, code: int): (r: Result<string, Thrown>)
    requires Known(statusCodes, code)
    ensures r.Success? <==> (value.Str? && IsStatusMessage(value.s)) || IsNullish(value)
    ensures r.Success? ==> r.value == if value.Str? then value.s else statusCodes[code]
    ensures r.Failure? && value.Str? ==> r.error == TypeError("Invalid response message: " + value.s)
    ensures r.Failure? && !value.Str? ==> r.error == TypeError("Expected response message to be a string")
  {
    if value.Str? then
      if IsStatusMessage(value.s) then Success(value.s) else Failure(TypeError("Invalid response message: " + value.s))
    else if IsNullish(value) then Success(statusCodes[code])
    else Failure(TypeError("Expected response message to be a string"))
  }

  /** `normalizeBody`: `null`/`undefined` means no body; otherwise a buffer, a promise or a river. */
  function NormalizeBody(value: Value): (r: Result<Body, Thrown>)
    ensures r.Success? <==> IsNullish(value) || value.Buffer? || value.Promise?
    ensures r.Success? ==> (r.value.NoBody? <==> IsNullish(value))
    ensures r.Success? ==> (r.value.Stream? <==> value.Promise? && value.river)
    ensures r.Failure? ==> r.error == TypeError("Expected response body to be a buffer, promise, river, or null")
  {
    if IsNullish(value) then Success(ResponseNormalization.NoBody)
    else if value.Buffer? then Success(ResponseNormalization.Bytes)
    else if value.Promise? then Success(if value.river then ResponseNormalization.Stream else ResponseNormalization.Promised)
    else Failure(TypeError("Expected response body to be a buffer, promise, river, or null"))
  }

  /** What `parseArray` takes out of the array before building the maps. */
  datatype Layout = Layout(code: int, message: string, headers: Value, body: Value, trailers: Value)

  /** The slot-shifting part of `parseArray`, up to the check for extra elements. */
  function ParseLayout(statusCodes: map<int, string>, elements: seq<Value>): (r: Result<Layout, Thrown>)
    ensures r.Success? ==> At(elements, 0) == Number(r.value.code) && Known(statusCodes, r.value.code)
    ensures r.Success? ==> |elements| <= 4 && !r.value.headers.Array?
    ensures r.Success? && IsObject(At(elements, 1)) ==> |elements| <= 3 && r.value.message == statusCodes[r.value.code]
    ensures r.Success? && !IsObject(At(elements, 1)) ==> IsStatusMessage(r.value.message) || r.value.message == statusCodes[r.value.code]
  {
    var code := NormalizeCode(statusCodes, At(elements, 0));
    if code.Failure? then Failure(code.error)
    else
      var shifted := IsObject(At(elements, 1));
      var message := if shifted then Success(statusCodes[code.value]) else NormalizeMessage(statusCodes, At(elements, 1), code.value);
      if message.Failure? then Failure(message.error)
      else
        var headers := if shifted then At(elements, 1) else At(elements, 2);
        var body := if shifted then At(elements, 2) else At(elements, 3);
        var index := if shifted then 3 else 4;
        if headers.Array? then
          if |elements| > index - 1 then Failure(TypeError("Unexpected value at response array[" + IntText(index - 1) + "]"))
          else Success(Layout(code.value, message.value, Undefined, At(headers.elements, 0), At(headers.elements, 1)))
        else if body.Array? then
          if |elements| > index then Failure(TypeError("Unexpected value at response array[" + IntText(index) + "]"))
          else Success(Layout(code.value, message.value, headers, At(body.elements, 0), At(body.elements, 1)))
        else if !IsNullish(body) then Failure(TypeError("Expected response body to be nested within another array"))
        else if |elements| > index then Failure(TypeError("Unexpected value at response array[" + IntText(index) + "]"))
        else Success(Layout(code.value, message.value, headers, body, Undefined))
  }

  /**
    Every optional slot can be left out: with or without the message, with or
    without the headers, with or without the body pair, the same response
    comes out.
   */
  lemma LayoutOmissions(statusCodes: map<int, string>, code: int, message: string, headers: Value, body: Value, trailers: Value)
    requires Known(statusCodes, code) && IsStatusMessage(message)
    requires IsObject(headers) && !headers.Array?
    ensures ParseLayout(statusCodes, [Number(code), Str(message), headers, Array([body, trailers])])
      == Success(Layout(code, message, headers, body, trailers))
    ensures ParseLayout(statusCodes, [Number(code), headers, Array([body, trailers])])
      == Success(Layout(code, statusCodes[code], headers, body, trailers))
    ensures ParseLayout(statusCodes, [Number(code), Array([body, trailers])])
      == Success(Layout(code, statusCodes[code], Undefined, body, trailers))
    ensures ParseLayout(statusCodes, [Number(code), Str(message)])
      == Success(Layout(code, message, Undefined, Undefined, Undefined))
    ensures ParseLayout(statusCodes, [Number(code)])
      == Success(Layout(code, statusCodes[code], Undefined, Undefined, Undefined))
  {
  }

  /** A body that is not wrapped in its own array, and any element past the last slot, are rejected. */
  lemma LayoutRejections(statusCodes: map<int, string>, code: int, message: string, headers: Value, body: Value, extra: Value)
    requires Known(statusCodes, code) && IsStatusMessage(message)
    requires IsObject(headers) && !headers.Array?
    ensures !IsNullish(body) && !body.Array? ==>
      ParseLayout(statusCodes, [Number(code), Str(message), headers, body])
        == Failure(TypeError("Expected response body to be nested within another array"))
    ensures ParseLayout(statusCodes, [Number(code), Str(message), headers, Array([]), extra])
      == Failure(TypeError("Unexpected value at response array[4]"))
    ensures ParseLayout(statusCodes, [Number(code), headers, Array([]), extra])
      == Failure(TypeError("Unexpected value at response array[3]"))
  {
    assert Text.DecimalText(4) == "4" && Text.DecimalText(3) == "3";
    assert "Unexpected value at response array[" + "4" + "]" == "Unexpected value at response array[4]";
    assert "Unexpected value at response array[" + "3" + "]" == "Unexpected value at response array[3]";
  }

  class Response {
    /** The status-code table the response validates against. */
    const statusCodes: map<int, string>
    const headers: HeaderMaps.Headers
    const trailers: HeaderMaps.Headers
    var code: int
    var message: string
    var body: Body

    /** A known code, and a message that is either valid text or the code's default. */
    ghost predicate Valid()
      reads this
    {
      && Known(statusCodes, code)
      && (IsStatusMessage(message) || message == statusCodes[code])
      && headers.kind == HeaderMaps.HeaderKind
      && trailers.kind == HeaderMaps.TrailerKind
    }

    /** Stores the validated parts (`this.headers = …; this[mut] = {code, message, body}`). */
    constructor(statusCodes: map<int, string>, code: int, message: string, body: Body, headers: HeaderMaps.Headers, trailers: HeaderMaps.Headers)
      requires Known(statusCodes, code) && (IsStatusMessage(message) || message == statusCodes[code])
      requires headers.kind == HeaderMaps.HeaderKind && trailers.kind == HeaderMaps.TrailerKind
      ensures Valid()
      ensures this.statusCodes == statusCodes && this.code == code && this.message == message && this.body == body
      ensures this.headers == headers && this.trailers == trailers
    {
      this.statusCodes := statusCodes;
      this.code := code;
      this.message := message;
      this.body := body;
      this.headers := headers;
      this.trailers := trailers;
    }

    /**
      `set code`: an invalid code throws and changes nothing; a message that
      was the old code's default text becomes the new code's.
     */
    method SetCode(value: Value) returns (thrown: Option<Thrown>)
      requires Valid()
      modifies this
      ensures Valid()
      ensures body == old(body)
      ensures var r := NormalizeCode(statusCodes, value);
        && (r.Failure? ==> thrown == Some(r.error) && code == old(code) && message == old(message))
        && (r.Success? ==>
              && thrown == None && code == value.n
              && message == if old(message) == statusCodes[old(code)] then statusCodes[code] else old(message))
    {
      var r := NormalizeCode(statusCodes, value);
      if r.Failure? {
        return Some(r.error);
      }
      if message == statusCodes[code] {
        message := statusCodes[r.value];
      }
      code := r.value;
      return None;
    }

    /** `set message`: valid text is stored, `null`/`undefined` restores the default, anything else throws. */
    method SetMessage(value: Value) returns (thrown: Option<Thrown>)
      requires Valid()
      modifies this
      ensures Valid()
      ensures code == old(code) && body == old(body)
      ensures var r := NormalizeMessage(statusCodes, value, code);
        && (r.Failure? ==> thrown == Some(r.error) && message == old(message))
        && (r.Success? ==> thrown == None && message == r.value)
    {
      var r := NormalizeMessage(statusCodes, value, code);
      if r.Failure? {
        return Some(r.error);
      }
      message := r.value;
      return None;
    }

    /** `set body`: `null` is stored as no body; anything but a buffer, a promise or a river throws. */
    method SetBody(value: Value) returns (thrown: Option<Thrown>)
      requires Valid()
      modifies this
      ensures Valid()
      ensures code == old(code) && message == old(message)
      ensures var r := NormalizeBody(value);
        && (r.Failure? ==> thrown == Some(r.error) && body == old(body))
        && (r.Success? ==> thrown == None && body == r.value)
    {
      var r := NormalizeBody(value);
      if r.Failure? {
        return Some(r.error);
      }
      body := r.value;
      return None;
    }
  }

  /** `new Response(value)`: from a known status code, or from a response array. */
  method Construct(statusCodes: map<int, string>, value: Value) returns (r: Result<Response, Thrown>)
    ensures r.Success? ==> fresh(r.value) && fresh(r.value.headers) && fresh(r.value.trailers) && r.value.Valid()
    ensures r.Success? ==> r.value.statusCodes == statusCodes
    ensures (value.Number? || value.OtherNumber?) ==>
      && (r.Success? <==> value.Number? && Known(statusCodes, value.n))
      && (r.Failure? ==> r.error == RangeError("Invalid response code: " + NumberText(value)))
      && (r.Success? ==> && r.value.code == value.n && r.value.message == statusCodes[value.n]
                         && r.value.body.NoBody? && r.value.headers.entries == map[] && r.value.trailers.entries == map[])
    ensures value.Array? ==> var layout := ParseLayout(statusCodes, value.elements);
      && (layout.Failure? ==> r == Failure(layout.error))
      && (r.Success? ==> && layout.Success?
                         && r.value.code == layout.value.code && r.value.message == layout.value.message
                         && NormalizeBody(layout.value.body) == Success(r.value.body))
    ensures !(value.Number? || value.OtherNumber? || value.Array?) ==>
      r == Failure(TypeError("Expected response to be a number or array (got " + TypeOf(value) + ")"))
  {
    if value.Number? || value.OtherNumber? {
      if !(value.Number? && Known(statusCodes, value.n)) {
        return Failure(RangeError("Invalid response code: " + NumberText(value)));
      }
      var headers := new HeaderMaps.Headers(HeaderMaps.HeaderKind);
      var trailers := new HeaderMaps.Headers(HeaderMaps.TrailerKind);
      var response := new Response(statusCodes, value.n, statusCodes[value.n], ResponseNormalization.NoBody, headers, trailers);
      return Success(response);
    }
    if !value.Array? {
      return Failure(TypeError("Expected response to be a number or array (got " + TypeOf(value) + ")"));
    }
    r := ParseArray(statusCodes, value.elements);
  }

  /** `parseArray`: the layout, then the header map, the trailer map and the body, in that order. */
  method ParseArray(statusCodes: map<int, string>, elements: seq<Value>) returns (r: Result<Response, Thrown>)
    ensures r.Success? ==> fresh(r.value) && fresh(r.value.headers) && fresh(r.value.trailers) && r.value.Valid()
    ensures r.Success? ==> r.value.statusCodes == statusCodes
    ensures var layout := ParseLayout(statusCodes, elements);
      && (layout.Failure? ==> r == Failure(layout.error))
      && (r.Success? ==> && layout.Success?
                         && r.value.code == layout.value.code && r.value.message == layout.value.message
                         && NormalizeBody(layout.value.body) == Success(r.value.body))
    ensures var layout := ParseLayout(statusCodes, elements);
      layout.Success? ==>
        var h := HeaderMaps.Filled(HeaderMaps.HeaderKind, layout.value.headers);
        var t := HeaderMaps.Filled(HeaderMaps.TrailerKind, layout.value.trailers);
        var b := NormalizeBody(layout.value.body);
        && (h.Failure? ==> r == Failure(h.error))
        && (h.Success? && t.Failure? ==> r == Failure(t.error))
        && (h.Success? && t.Success? && b.Failure? ==> r == Failure(b.error))
        && (h.Success? && t.Success? && b.Success? ==>
              && r.Success? && r.value.body == b.value
              && r.value.headers.entries == h.value && r.value.trailers.entries == t.value)
  {
    var layout := ParseLayout(statusCodes, elements);
    if layout.Failure? {
      return Failure(layout.error);
    }
    var headers := new HeaderMaps.Headers(HeaderMaps.HeaderKind);
    var thrown := headers.Fill(layout.value.headers);
    if thrown.Some? {
      return Failure(thrown.value);
    }
    var trailers := new HeaderMaps.Headers(HeaderMaps.TrailerKind);
    thrown := trailers.Fill(layout.value.trailers);
    if thrown.Some? {
      return Failure(thrown.value);
    }
    var body := NormalizeBody(layout.value.body);
    if body.Failure? {
      return Failure(body.error);
    }
    var response := new Response(statusCodes, layout.value.code, layout.value.message, body.value, headers, trailers);
    return Success(response);
  }
}
