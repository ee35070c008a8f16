/**
  The response header and trailer maps (`Headers`, and `Trailers`, which
  extends it): string-keyed maps whose every operation lowercases the name,
  so that all case variants of a name address one entry. A trailer value
  may also be a promise; `Trailers.set` then stores it under the name as
  given, not lowercased.
 */
module HeaderMaps {
  import opened Wrappers
  import opened JsValues
  import Text

  /** Which class the map is: the word its error messages use. */
  datatype Kind = HeaderKind | TrailerKind

  function Noun(kind: Kind): string
  {
    if kind == HeaderKind then "header" else "trailer"
  }

  /** A stored value: a string, or (in trailers only) a promise of one. */
  datatype Field = Literal(text: string) | Pending

  /** `isPlain`: the prototype is `Object.prototype` or `null`. */
  predicate IsPlain(v: Value)
  {
    v.Object? && (v.proto.ObjectPrototype? || v.proto.NullPrototype?)
  }

  /** `getClass`: the class name reported for an object that is not plain. */
  function ClassName(v: Value): (name: string)
    requires IsObject(v)
    ensures name != []
  {
    match v
    case Array(_) => "Array"
    case Buffer => "Buffer"
    case Promise(river) => if river then "River" else "Promise"
    case Object(proto, _) =>
      match proto
      case NullPrototype => "Object"
      case ObjectPrototype => "Object"
      case NoConstructor => "unknown class"
      case ClassPrototype(name) => if name == "" then "anonymous class" else name
  }

  /** The entry a name addresses: the one stored under its lowercase form. */
  function Lookup(entries: map<string, Field>, name: string): Option<Field>
  {
    var key := Text.Lower(name);
    if key in entries then Some(entries[key]) else None
  }

  /** The entries a new map ends up with, or the error its constructor throws, for the initial value `init`. */
  function Filled(kind: Kind, init: Value): Result<map<string, Field>, Thrown>
  {
    if IsNullish(init) then Success(map[])
    else if !IsObject(init) then Failure(TypeError("Expected response " + Noun(kind) + "s to be an object"))
    else if !IsPlain(init) then Failure(TypeError("Expected response " + Noun(kind) + "s to be a plain object (got " + ClassName(init) + ")"))
    else Populated(kind, map[], init.props)
  }

  /** String values sit under lowercase keys; only a trailer map holds promises, under the name as given. */
  ghost predicate WellKeyed(kind: Kind, entries: map<string, Field>)
  {
    forall k :: k in entries ==>
      if entries[k].Literal? then Text.Lower(k) == k else kind == TrailerKind
  }

  /** One `set(name, value)` applied to the entries, or the error it throws. */
  function SetEntry(kind: Kind, entries: map<string, Field>, name: Value, value: Value): Result<map<string, Field>, Thrown>
  {
    if !name.Str? then Failure(TypeError("Expected response " + Noun(kind) + " name to be a string"))
    else if kind == TrailerKind && value.Promise? then
      Success(entries[Text.Lower(name.s) := Literal("")][name.s := Pending])
    else if !value.Str? then Failure(TypeError("Expected response " + Noun(kind) + " value to be a string"))
    else Success(entries[Text.Lower(name.s) := Literal(value.s)])
  }

  /** The constructor's loop over the own keys: each `set` in turn, stopping at the first that throws. */
  function Populated(kind: Kind, entries: map<string, Field>, props: seq<(string, Value)>): Result<map<string, Field>, Thrown>
    decreases |props|
  {
    if props == [] then Success(entries)
    else
      var step := SetEntry(kind, entries, Str(props[0].0), props[0].1);
      if step.Failure? then step else Populated(kind, step.value, props[1..])
  }

  /** A set keeps the keys well formed. */
  lemma SetEntryWellKeyed(kind: Kind, entries: map<string, Field>, name: Value, value: Value)
    requires WellKeyed(kind, entries)
    ensures var r := SetEntry(kind, entries, name, value); r.Success? ==> WellKeyed(kind, r.value)
  {
    if name.Str? {
      Text.LowerIdempotent(name.s);
    }
  }

  /** After a successful `set`, every case variant of the name reads the new value, and every other name reads what it read before. */
  lemma LookupAfterSet(kind: Kind, entries: map<string, Field>, name: string, value: string, other: string)
    ensures var r := SetEntry(kind, entries, Str(name), Str(value));
      && r.Success?
      && Lookup(r.value, other) == (if Text.Lower(other) == Text.Lower(name) then Some(Literal(value)) else Lookup(entries, other))
  {
  }

  /**
    After a successful population from plain string values, a key reads the
    value of the last own key with the same lowercase form.
   */
  lemma {:induction false} PopulatedLookup(kind: Kind, entries: map<string, Field>, props: seq<(string, Value)>, i: nat)
    requires forall j :: 0 <= j < |props| ==> props[j].1.Str?
    requires i < |props|
    requires forall j :: i < j < |props| ==> Text.Lower(props[j].0) != Text.Lower(props[i].0)
    ensures var r := Populated(kind, entries, props);
      r.Success? && Lookup(r.value, props[i].0) == Some(Literal(props[i].1.s))
    decreases |props|
  {
    var step := SetEntry(kind, entries, Str(props[0].0), props[0].1);
    assert step.Success?;
    if i == 0 {
      PopulatedKeeps(kind, step.value, props[1..], Text.Lower(props[0].0));
    } else {
      PopulatedLookup(kind, step.value, props[1..], i - 1);
    }
  }

  /** Keys no later string-valued property lowers to keep their entries. */
  lemma {:induction false} PopulatedKeeps(kind: Kind, entries: map<string, Field>, props: seq<(string, Value)>, key: string)
    requires forall j :: 0 <= j < |props| ==> props[j].1.Str? && Text.Lower(props[j].0) != key
    ensures var r := Populated(kind, entries, props);
      r.Success? && (key in r.value <==> key in entries) && (key in entries ==> r.value[key] == entries[key])
    decreases |props|
  {
    if props != [] {
      var step := SetEntry(kind, entries, Str(props[0].0), props[0].1);
      PopulatedKeeps(kind, step.value, props[1..], key);
    }
  }

  /** A population fails exactly at the first property whose value is not a string (or, in trailers, a promise). */
  lemma {:induction false} PopulatedFails(kind: Kind, entries: map<string, Field>, props: seq<(string, Value)>)
    ensures var r := Populated(kind, entries, props);
      r.Failure? <==> exists j :: 0 <= j < |props| && !props[j].1.Str? && !(kind == TrailerKind && props[j].1.Promise?)
    ensures Populated(kind, entries, props).Failure? ==>
      Populated(kind, entries, props).error == TypeError("Expected response " + Noun(kind) + " value to be a string")
    decreases |props|
  {
    if props != [] {
      var step := SetEntry(kind, entries, Str(props[0].0), props[0].1);
      if step.Success? {
        PopulatedFails(kind, step.value, props[1..]);
        if Populated(kind, entries, props).Failure? {
          var j :| 0 <= j < |props[1..]| && !props[1..][j].1.Str? && !(kind == TrailerKind && props[1..][j].1.Promise?);
          assert props[j + 1] == props[1..][j];
        } else {
          forall j | 0 <= j < |props|
            ensures props[j].1.Str? || (kind == TrailerKind && props[j].1.Promise?)
          {
            if j > 0 {
              assert props[j] == props[1..][j - 1];
            }
          }
        }
      }
    }
  }

  class Headers {
    const kind: Kind
    var entries: map<string, Field>

    ghost predicate Valid()
      reads this
    {
      WellKeyed(kind, entries)
    }

    /** `super()`: an empty map; the constructor body is `Fill`. */
    constructor(kind: Kind)
      ensures this.kind == kind && entries == map[] && Valid()
    {
      this.kind := kind;
      entries := map[];
    }

    /** The rest of the constructor: `null`/`undefined` leaves the map empty; otherwise a plain object whose own keys are `set` in turn. */
    method Fill(init: Value) returns (thrown: Option<Thrown>)
      requires Valid() && entries == map[]
      modifies this
      ensures Valid()
      ensures var f := Filled(kind, init);
        && (thrown.None? <==> f.Success?)
        && (f.Success? ==> entries == f.value)
        && (f.Failure? ==> thrown == Some(f.error))
      ensures IsNullish(init) ==> thrown == None && entries == map[]
      ensures !IsNullish(init) && !IsObject(init) ==>
        thrown == Some(TypeError("Expected response " + Noun(kind) + "s to be an object"))
      ensures IsObject(init) && !IsPlain(init) ==>
        thrown == Some(TypeError("Expected response " + Noun(kind) + "s to be a plain object (got " + ClassName(init) + ")"))
      ensures IsPlain(init) ==>
        var r := Populated(kind, map[], init.props);
        (thrown == None <==> r.Success?) && (r.Success? ==> entries == r.value) && (r.Failure? ==> thrown == Some(r.error))
    {
      if IsNullish(init) {
        return None;
      }
      if !IsObject(init) {
        return Some(TypeError("Expected response " + Noun(kind) + "s to be an object"));
      }
      if !IsPlain(init) {
        return Some(TypeError("Expected response " + Noun(kind) + "s to be a plain object (got " + ClassName(init) + ")"));
      }
      var props := init.props;
      var i := 0;
      while i < |props|
        invariant 0 <= i <= |props| && Valid()
        invariant Populated(kind, map[], props) == Populated(kind, entries, props[i..])
      {
        assert props[i..][1..] == props[i + 1..];
        var t := Set(Str(props[i].0), props[i].1);
        if t.Some? {
          return t;
        }
        i := i + 1;
      }
      return None;
    }

    /** `get(name)`: the entry stored under the lowercase name. */
    function Get(name: Value): (r: Result<Option<Field>, Thrown>)
      reads this
      ensures r.Success? <==> name.Str?
      ensures r.Failure? ==> r.error == TypeError("Expected response " + Noun(kind) + " name to be a string")
      ensures name.Str? ==> (r.value.Some? <==> Text.Lower(name.s) in entries)
    {
      if !name.Str? then Failure(TypeError("Expected response " + Noun(kind) + " name to be a string"))
      else Success(Lookup(entries, name.s))
    }

    /** `has(name)` */
    function Has(name: Value): (r: Result<bool, Thrown>)
      reads this
      ensures r.Success? <==> name.Str?
      ensures name.Str? ==> (r.value <==> Get(name).value.Some?)
    {
      if !name.Str? then Failure(TypeError("Expected response " + Noun(kind) + " name to be a string"))
      else Success(Text.Lower(name.s) in entries)
    }

    /** `set(name, value)`: a non-string name or value throws and changes nothing. */
    method Set(name: Value, value: Value) returns (thrown: Option<Thrown>)
      requires Valid()
      modifies this
      ensures Valid()
      ensures !name.Str? ==> thrown == Some(TypeError("Expected response " + Noun(kind) + " name to be a string"))
      ensures name.Str? && value.Str? ==> thrown == None && entries == old(entries)[Text.Lower(name.s) := Literal(value.s)]
      ensures name.Str? && value.Promise? && kind == TrailerKind ==>
        thrown == None && entries == old(entries)[Text.Lower(name.s) := Literal("")][name.s := Pending]
      ensures name.Str? && !value.Str? && !(value.Promise? && kind == TrailerKind) ==>
        thrown == Some(TypeError("Expected response " + Noun(kind) + " value to be a string"))
      ensures thrown.Some? ==> entries == old(entries)
      ensures thrown.None? <==> SetEntry(kind, old(entries), name, value).Success?
    {
      var r := SetEntry(kind, entries, name, value);
      SetEntryWellKeyed(kind, entries, name, value);
      if r.Failure? {
        return Some(r.error);
      }
      entries := r.value;
      return None;
    }

    /** `delete(name)`: removes the lowercase name and says whether it was there. */
    method Delete(name: Value) returns (r: Result<bool, Thrown>)
      requires Valid()
      modifies this
      ensures Valid()
      ensures r.Success? <==> name.Str?
      ensures r.Failure? ==> r.error == TypeError("Expected response " + Noun(kind) + " name to be a string") && entries == old(entries)
      ensures r.Success? ==>
        (r.value <==> Text.Lower(name.s) in old(entries)) && entries == old(entries) - {Text.Lower(name.s)}
    {
      if !name.Str? {
        return Failure(TypeError("Expected response " + Noun(kind) + " name to be a string"));
      }
      var key := Text.Lower(name.s);
      r := Success(key in entries);
      entries := entries - {key};
    }
  }
}
