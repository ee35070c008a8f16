/**
  The request header and trailer maps (`Fields`): filled once from the
  parsed message, with every value trimmed, then read-only. Queries lowercase
  the name; construction does not lowercase the keys it is given.
 */
module FieldMaps {
  import opened Wrappers
  import opened JsValues
  import Text

  /** The constructor's loop as a value: each own key mapped to its trimmed value, a later key overriding. */
  function Trimmed(fields: seq<(string, string)>): map<string, string>
  {
    if fields == [] then map[]
    else Trimmed(fields[..|fields| - 1])[fields[|fields| - 1].0 := Text.Trim(fields[|fields| - 1].1)]
  }

  /** The map holds exactly the given keys, each with the trimmed value of its last listing. */
  lemma {:induction false} TrimmedLookup(fields: seq<(string, string)>, i: nat)
    requires i < |fields|
    requires forall j :: i < j < |fields| ==> fields[j].0 != fields[i].0
    ensures fields[i].0 in Trimmed(fields) && Trimmed(fields)[fields[i].0] == Text.Trim(fields[i].1)
    decreases |fields|
  {
    if i < |fields| - 1 {
      TrimmedLookup(fields[..|fields| - 1], i);
    }
  }

  lemma {:induction false} TrimmedKeys(fields: seq<(string, string)>, key: string)
    ensures key in Trimmed(fields) <==> exists i :: 0 <= i < |fields| && fields[i].0 == key
    decreases |fields|
  {
    if fields != [] {
      var init := fields[..|fields| - 1];
      TrimmedKeys(init, key);
      if key in Trimmed(init) {
        var i :| 0 <= i < |init| && init[i].0 == key;
        assert fields[i].0 == key;
      }
      if exists i :: 0 <= i < |fields| && fields[i].0 == key {
        var i :| 0 <= i < |fields| && fields[i].0 == key;
        if i < |init| {
          assert init[i].0 == key;
        }
      }
    }
  }

  class Fields {
    const entries: map<string, string>

    /** Copies every own key of the parsed headers, trimming each value. */
    constructor(fields: seq<(string, string)>)
      ensures entries == Trimmed(fields)
    {
      var m := map[];
      var i := 0;
      while i < |fields|
        invariant 0 <= i <= |fields|
        invariant m == Trimmed(fields[..i])
      {
        assert fields[..i + 1][..i] == fields[..i];
        m := m[fields[i].0 := Text.Trim(fields[i].1)];
        i := i + 1;
      }
      assert fields[..|fields|] == fields;
      entries := m;
    }

    /** `get(name)`: the value under the lowercase name. */
    function Get(name: Value): (r: Result<Option<string>, Thrown>)
      reads this
      ensures r.Success? <==> name.Str?
      ensures r.Failure? ==> r.error == TypeError("Expected field name to be a string")
      ensures name.Str? ==> (r.value.Some? <==> Text.Lower(name.s) in entries)
    {
      if !name.Str? then Failure(TypeError("Expected field name to be a string"))
      else
        var key := Text.Lower(name.s);
        Success(if key in entries then Some(entries[key]) else None)
    }

    /** `has(name)` */
    function Has(name: Value): (r: Result<bool, Thrown>)
      reads this
      ensures r.Success? <==> name.Str?
      ensures r.Failure? ==> r.error == TypeError("Expected field name to be a string")
      ensures name.Str? ==> (r.value <==> Get(name).value.Some?)
    {
      if !name.Str? then Failure(TypeError("Expected field name to be a string"))
      else Success(Text.Lower(name.s) in entries)
    }

    /** `set`, `delete` and `clear` always throw; the map never changes. */
    method Set(name: Value, value: Value) returns (thrown: Thrown)
      ensures thrown == TypeError("This map object is read-only")
    {
      thrown := TypeError("This map object is read-only");
    }

    method Delete(name: Value) returns (thrown: Thrown)
      ensures thrown == TypeError("This map object is read-only")
    {
      thrown := TypeError("This map object is read-only");
    }

    method Clear() returns (thrown: Thrown)
      ensures thrown == TypeError("This map object is read-only")
    {
      thrown := TypeError("This map object is read-only");
    }
  }

  /** Every case variant of a name reads the same entry. */
  lemma CaseVariantsAgree(f: Fields, name: string, other: string)
    requires Text.Lower(name) == Text.Lower(other)
    ensures f.Get(Str(name)) == f.Get(Str(other))
  {
  }

  /**
    A key given at construction with an upper-case letter is never found:
    no query name lowercases to it.
   */
  lemma MixedCaseUnreachable(f: Fields, key: string)
    requires Text.Lower(key) != key
    ensures forall name :: Text.Lower(name) != key
  {
    forall name
      ensures Text.Lower(name) != key
    {
      Text.LowerIdempotent(name);
    }
  }

  /** A lowercase key listed last is read back with its value trimmed, through any case variant of the name. */
  lemma GetTrimmed(fields: seq<(string, string)>, f: Fields, i: nat, query: string)
    requires f.entries == Trimmed(fields)
    requires i < |fields| && Text.Lower(fields[i].0) == fields[i].0
    requires forall j :: i < j < |fields| ==> fields[j].0 != fields[i].0
    requires Text.Lower(query) == fields[i].0
    ensures f.Get(Str(query)) == Success(Some(Text.Trim(fields[i].1)))
  {
    TrimmedLookup(fields, i);
  }
}
