/**
  The stand-alone response-array parser: `[code, message?, headers?, [body,
  trailers?]?]` to a plain record. Unlike the response object's parser it
  does not check the message text, the header object or extra elements,
  and its errors name the offending array index.
 */
module ResponseArray {
  import opened Wrappers
  import opened JsValues
  import ResponseState
  import Text

  /** The returned `{code, message, headers, body, trailers}`. */
  datatype Parsed = Parsed(code: int, message: string, headers: Value, body: Value, trailers: Value)

  /** `"response[" + index + "]"` as the error messages spell it. */
  function Slot(index: nat): string
  {
    "response[" + IntText(index) + "]"
  }

  /** The exported parser: the status code is checked, then the remaining slots go through the three stages below. */
  function Parse(statusCodes: map<int, string>, elements: seq<Value>): (r: Result<Parsed, Thrown>)
    ensures r.Success? ==> At(elements, 0) == Number(r.value.code) && ResponseState.Known(statusCodes, r.value.code)
    ensures r.Success? ==> r.value.message != ""
    ensures r.Success? ==> IsNullish(r.value.headers) || (IsObject(r.value.headers) && !r.value.headers.Array?)
    ensures r.Success? ==> IsNullish(r.value.trailers) || IsObject(r.value.trailers)
  {
    var code := At(elements, 0);
    if !(code.Number? || code.OtherNumber?) then Failure(TypeError("Expected " + Slot(0) + " to be a number: " + TypeOf(code)))
    else if !(code.Number? && ResponseState.Known(statusCodes, code.n)) then Failure(RangeError("Invalid status code: " + NumberText(code)))
    else Shift(code.n, statusCodes[code.n], At(elements, 1), At(elements, 2), At(elements, 3))
  }

  /**
    A message slot holding an object moves every later slot one place to the
    front (the message is then left out); otherwise the headers slot must be
    an object, an array, `null` or `undefined`.
   */
  function Shift(code: int, defaultMessage: string, message: Value, headers: Value, body: Value): (r: Result<Parsed, Thrown>)
    ensures r.Success? ==> r.value.code == code
    ensures r.Success? && defaultMessage != "" ==> r.value.message != ""
    ensures r.Success? ==> IsNullish(r.value.headers) || (IsObject(r.value.headers) && !r.value.headers.Array?)
    ensures r.Success? ==> IsNullish(r.value.trailers) || IsObject(r.value.trailers)
    ensures !IsNullish(message) && !message.Str? && !IsObject(message) ==>
      r == Failure(TypeError("Expected " + Slot(1) + " to be a string, object, or array: " + TypeOf(message)))
    ensures (IsNullish(message) || message.Str?) && !IsNullish(headers) && !IsObject(headers) ==>
      r == Failure(TypeError("Expected " + Slot(2) + " to be an object or array: " + TypeOf(headers)))
  {
    if !IsNullish(message) && !message.Str? then
      if !IsObject(message) then Failure(TypeError("Expected " + Slot(1) + " to be a string, object, or array: " + TypeOf(message)))
      else Unwrap(code, defaultMessage, 2, Undefined, message, headers)
    else if !IsNullish(headers) && !IsObject(headers) then
      Failure(TypeError("Expected " + Slot(2) + " to be an object or array: " + TypeOf(headers)))
    else Unwrap(code, defaultMessage, 3, message, headers, body)
  }

  /**
    An array where the headers belong is the body pair (the headers are then
    left out, and errors name the slot before); otherwise the body slot must
    hold an array, `null` or `undefined`. `index` is the body's slot.
   */
  function Unwrap(code: int, defaultMessage: string, index: nat, message: Value, headers: Value, body: Value): (r: Result<Parsed, Thrown>)
    requires index >= 1 && (IsNullish(message) || message.Str?)
    ensures r.Success? ==> r.value.code == code
    ensures r.Success? && defaultMessage != "" ==> r.value.message != ""
    ensures r.Success? && (IsNullish(headers) || IsObject(headers)) ==>
      IsNullish(r.value.headers) || (IsObject(r.value.headers) && !r.value.headers.Array?)
    ensures r.Success? ==> IsNullish(r.value.trailers) || IsObject(r.value.trailers)
    ensures !headers.Array? && !IsNullish(body) && !body.Array? ==>
      r == Failure(TypeError("Expected " + Slot(index) + " to be an array: " + TypeOf(body)))
    ensures headers.Array? ==> r == Finish(code, defaultMessage, index - 1, message, Undefined, headers)
    ensures !headers.Array? && (IsNullish(body) || body.Array?) ==> r == Finish(code, defaultMessage, index, message, headers, body)
  {
    if headers.Array? then Finish(code, defaultMessage, index - 1, message, Undefined, headers)
    else if !IsNullish(body) && !body.Array? then Failure(TypeError("Expected " + Slot(index) + " to be an array: " + TypeOf(body)))
    else Finish(code, defaultMessage, index, message, headers, body)
  }

  /**
    A body pair is taken apart into the body and the trailers, which must be
    an object, `null` or `undefined`; an empty or missing message becomes the
    status code's default text.
   */
  function Finish(code: int, defaultMessage: string, index: nat, message: Value, headers: Value, body: Value): (r: Result<Parsed, Thrown>)
    requires (IsNullish(message) || message.Str?) && (IsNullish(body) || body.Array?)
    ensures r.Success? ==> r.value.code == code && r.value.headers == headers
    ensures r.Success? ==> r.value.message == if Truthy(message) then message.s else defaultMessage
    ensures r.Success? ==> IsNullish(r.value.trailers) || IsObject(r.value.trailers)
    ensures r.Failure? <==> body.Array? && !IsNullish(At(body.elements, 1)) && !IsObject(At(body.elements, 1))
    ensures r.Failure? ==> r.error == TypeError("Expected " + Slot(index) + "[1] to be an object: " + TypeOf(At(body.elements, 1)))
    ensures r.Success? && body.Array? ==> r.value.body == At(body.elements, 0) && r.value.trailers == At(body.elements, 1)
    ensures IsNullish(body) ==> r.Success? && r.value.body == body && r.value.trailers == Undefined
  {
    var trailers := if body.Array? then At(body.elements, 1) else Undefined;
    var body := if body.Array? then At(body.elements, 0) else body;
    if !IsNullish(trailers) && !IsObject(trailers) then
      Failure(TypeError("Expected " + Slot(index) + "[1] to be an object: " + TypeOf(trailers)))
    else
      var message := if Truthy(message) then message.s else defaultMessage;
      Success(Parsed(code, message, headers, body, trailers))
  }

  /** The optional slots can be left out, and an empty or missing message becomes the default text. */
  lemma ParseOmissions(statusCodes: map<int, string>, code: int, message: string, headers: Value, body: Value, trailers: Value)
    requires ResponseState.Known(statusCodes, code)
    requires IsObject(headers) && !headers.Array?
    requires IsNullish(trailers) || IsObject(trailers)
    ensures var m := if message == "" then statusCodes[code] else message;
      Parse(statusCodes, [Number(code), Str(message), headers, Array([body, trailers])])
        == Success(Parsed(code, m, headers, body, trailers))
    ensures Parse(statusCodes, [Number(code), headers, Array([body, trailers])])
      == Success(Parsed(code, statusCodes[code], headers, body, trailers))
    ensures Parse(statusCodes, [Number(code), Array([body, trailers])])
      == Success(Parsed(code, statusCodes[code], Undefined, body, trailers))
    ensures Parse(statusCodes, [Number(code)])
      == Success(Parsed(code, statusCodes[code], Undefined, Undefined, Undefined))
  {
  }

  /** The slot names the error texts use for slots 1 to 3. */
  lemma SlotTexts()
    ensures Slot(1) == "response[1]" && Slot(2) == "response[2]" && Slot(3) == "response[3]"
  {
    assert Text.DecimalText(1) == "1" && Text.DecimalText(2) == "2" && Text.DecimalText(3) == "3";
  }

  /** A body slot holding neither an array nor `null`/`undefined` is reported at its own index. */
  lemma UnwrappedBodySlot(statusCodes: map<int, string>, code: int, message: string, headers: Value, body: Value)
    requires ResponseState.Known(statusCodes, code)
    requires IsObject(headers) && !headers.Array?
    requires !IsNullish(body) && !body.Array?
    ensures Parse(statusCodes, [Number(code), Str(message), headers, body])
      == Failure(TypeError("Expected " + Slot(3) + " to be an array: " + TypeOf(body)))
  {
    var e := [Number(code), Str(message), headers, body];
    assert Parse(statusCodes, e) == Shift(code, statusCodes[code], Str(message), headers, body);
    assert Shift(code, statusCodes[code], Str(message), headers, body) == Unwrap(code, statusCodes[code], 3, Str(message), headers, body);
  }

  /** With the message left out, the same body is reported one index earlier. */
  lemma ShiftedBodySlot(statusCodes: map<int, string>, code: int, headers: Value, body: Value)
    requires ResponseState.Known(statusCodes, code)
    requires IsObject(headers) && !headers.Array?
    requires !IsNullish(body) && !body.Array?
    ensures Parse(statusCodes, [Number(code), headers, body])
      == Failure(TypeError("Expected " + Slot(2) + " to be an array: " + TypeOf(body)))
  {
    var e := [Number(code), headers, body];
    assert Parse(statusCodes, e) == Shift(code, statusCodes[code], headers, body, Undefined);
    assert Shift(code, statusCodes[code], headers, body, Undefined) == Unwrap(code, statusCodes[code], 2, Undefined, headers, body);
  }

  /** Trailers that are neither an object nor `null`/`undefined` are reported as element 1 of the pair's slot. */
  lemma BadTrailersSlot(statusCodes: map<int, string>, code: int, body: Value, trailers: Value)
    requires ResponseState.Known(statusCodes, code)
    requires !IsNullish(trailers) && !IsObject(trailers)
    ensures Parse(statusCodes, [Number(code), Array([body, trailers])])
      == Failure(TypeError("Expected " + Slot(1) + "[1] to be an object: " + TypeOf(trailers)))
  {
    var pair := Array([body, trailers]);
    var e := [Number(code), pair];
    assert Parse(statusCodes, e) == Shift(code, statusCodes[code], pair, Undefined, Undefined);
    assert Shift(code, statusCodes[code], pair, Undefined, Undefined) == Unwrap(code, statusCodes[code], 2, Undefined, pair, Undefined);
    assert At(pair.elements, 1) == trailers;
  }

  /**
    Where the response object's parser accepts an array and builds its maps
    from objects, this parser accepts it too and finds the same parts; only
    an empty message differs, which this parser replaces by the default text.
   */
  lemma ParsersAgree(statusCodes: map<int, string>, elements: seq<Value>)
    requires ResponseState.ParseLayout(statusCodes, elements).Success?
    requires var l := ResponseState.ParseLayout(statusCodes, elements).value;
      && (IsNullish(l.headers) || IsObject(l.headers))
      && (IsNullish(l.trailers) || IsObject(l.trailers))
    ensures var l := ResponseState.ParseLayout(statusCodes, elements).value;
      var r := Parse(statusCodes, elements);
      && r.Success?
      && r.value.code == l.code && r.value.headers == l.headers
      && r.value.body == l.body && r.value.trailers == l.trailers
      && r.value.message == if l.message == "" then statusCodes[l.code] else l.message
  {
    if IsObject(At(elements, 1)) {
      AgreeShifted(statusCodes, elements);
    } else {
      AgreeInPlace(statusCodes, elements);
    }
  }

  /** `ParsersAgree` when the message slot holds an object: the message is the default text. */
  lemma AgreeShifted(statusCodes: map<int, string>, elements: seq<Value>)
    requires ResponseState.ParseLayout(statusCodes, elements).Success? && IsObject(At(elements, 1))
    requires var l := ResponseState.ParseLayout(statusCodes, elements).value;
      && (IsNullish(l.headers) || IsObject(l.headers))
      && (IsNullish(l.trailers) || IsObject(l.trailers))
    ensures var l := ResponseState.ParseLayout(statusCodes, elements).value;
      var r := Parse(statusCodes, elements);
      && r.Success?
      && r.value.code == l.code && r.value.headers == l.headers
      && r.value.body == l.body && r.value.trailers == l.trailers
      && r.value.message == l.message
  {
    var l := ResponseState.ParseLayout(statusCodes, elements).value;
    assert Parse(statusCodes, elements) == Unwrap(l.code, statusCodes[l.code], 2, Undefined, At(elements, 1), At(elements, 2));
  }

  /** `ParsersAgree` when the message slot holds no object. */
  lemma AgreeInPlace(statusCodes: map<int, string>, elements: seq<Value>)
    requires ResponseState.ParseLayout(statusCodes, elements).Success? && !IsObject(At(elements, 1))
    requires var l := ResponseState.ParseLayout(statusCodes, elements).value;
      && (IsNullish(l.headers) || IsObject(l.headers))
      && (IsNullish(l.trailers) || IsObject(l.trailers))
    ensures var l := ResponseState.ParseLayout(statusCodes, elements).value;
      var r := Parse(statusCodes, elements);
      && r.Success?
      && r.value.code == l.code && r.value.headers == l.headers
      && r.value.body == l.body && r.value.trailers == l.trailers
      && r.value.message == if l.message == "" then statusCodes[l.code] else l.message
  {
    var l := ResponseState.ParseLayout(statusCodes, elements).value;
    assert Parse(statusCodes, elements) == Unwrap(l.code, statusCodes[l.code], 3, At(elements, 1), At(elements, 2), At(elements, 3));
  }
}
