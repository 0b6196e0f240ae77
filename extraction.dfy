/** Typed access to the untyped request (retrieveObjectAs and castTo). */
module Extraction {
  import opened Results
  import opened ScriptValues

  function TypeMismatchMessage(key: string): string {
    "Invalid JSON. Object associated with key '" + key + "' does not have required type."
  }

  function CastFailureMessage(k: Kind): string {
    "Invalid JSON. Failed to cast an object to required type (" + k.ClassName() + ")."
  }

  /** A slot that reads as Java null: a missing property or an explicit null. */
  predicate IsAbsent(o: Option<Value>) {
    o.None? || o.value.Null?
  }

  /** retrieveObjectAs: read `key` from `source` as a value of kind `k`.
      A missing or null property is absent (`Ok(None)`); a property of any
      other kind fails with a message that names the key. An empty key is
      refused with the same message. */
  function RetrieveObjectAs(k: Kind, source: seq<Field>, key: string): (r: Result<Option<Value>>)
    ensures r == Ok(None) <==> key != "" && IsAbsent(Lookup(source, key))
    ensures r.Ok? && r.value.Some? ==>
              key != "" && HasKind(r.value.value, k) && Lookup(source, key) == r.value
    ensures r.Err? <==> key == "" || (!IsAbsent(Lookup(source, key)) && !HasKind(Lookup(source, key).value, k))
    ensures r.Err? ==> r.error == ScriptError(TypeMismatchMessage(key))
  {
    if key != "" && IsAbsent(Lookup(source, key)) then Ok(None)
    else if key != "" && HasKind(Lookup(source, key).value, k) then Ok(Lookup(source, key))
    else Err(ScriptError(TypeMismatchMessage(key)))
  }

  /** castTo: absent stays absent, a value of kind `k` passes, anything else
      fails with a message naming the Java class that was required. */
  function CastTo(k: Kind, o: Option<Value>): (r: Result<Option<Value>>)
    ensures r == Ok(None) <==> IsAbsent(o)
    ensures r.Ok? && r.value.Some? ==> HasKind(r.value.value, k) && r.value == o
    ensures r.Err? <==> !IsAbsent(o) && !HasKind(o.value, k)
    ensures r.Err? ==> r.error == ScriptError(CastFailureMessage(k))
  {
    if IsAbsent(o) then Ok(None)
    else if HasKind(o.value, k) then Ok(o)
    else Err(ScriptError(CastFailureMessage(k)))
  }

  /** `part` occurs in `text` starting at index `i`. */
  predicate OccursAt(text: string, part: string, i: int) {
    0 <= i <= |text| - |part| && text[i..i + |part|] == part
  }

  /** The diagnostic for a wrongly typed property quotes the property's key. */
  lemma MismatchMessageNamesKey(key: string)
    ensures exists i :: OccursAt(TypeMismatchMessage(key), key, i)
  {
    var prefix := "Invalid JSON. Object associated with key '";
    var m := TypeMismatchMessage(key);
    assert m == prefix + key + "' does not have required type.";
    assert m[|prefix|..|prefix| + |key|] == key;
    assert OccursAt(m, key, |prefix|);
  }

  // Helpers that unwrap a value whose kind a successful retrieval guarantees.

  function StringOf(o: Option<Value>): Option<string>
    requires o.Some? ==> o.value.Str?
  {
    if o.Some? then Some(o.value.s) else None
  }

  function ItemsOf(o: Option<Value>): Option<seq<Value>>
    requires o.Some? ==> o.value.Arr?
  {
    if o.Some? then Some(o.value.items) else None
  }

  function FieldsOf(o: Option<Value>): Option<seq<Field>>
    requires o.Some? ==> o.value.Obj?
  {
    if o.Some? then Some(o.value.fields) else None
  }
}
