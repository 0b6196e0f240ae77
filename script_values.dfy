/** The untyped request as the embedding script runtime hands it over:
    a tree of script values. Objects keep their entries in insertion order,
    which is the order in which the custom-header loop visits them. */
module ScriptValues {
  import opened Results

  datatype Value =
    | Null
    | Str(s: string)
    | Arr(items: seq<Value>)
    | Obj(fields: seq<Field>)
    /** The script's `undefined`; a hole in an array reads as this too. */
    | Undefined
    /** Any other script value (number, boolean, ...), with its text form. */
    | Other(text: string)

  datatype Field = Field(key: string, value: Value)

  /** Java class a value is cast to by the extension. */
  datatype Kind = StringKind | ArrayKind | ObjectKind {
    function ClassName(): string {
      match this
      case StringKind => "java.lang.String"
      case ArrayKind => "org.mozilla.javascript.NativeArray"
      case ObjectKind => "org.mozilla.javascript.NativeObject"
    }
  }

  predicate HasKind(v: Value, k: Kind) {
    match k
    case StringKind => v.Str?
    case ArrayKind => v.Arr?
    case ObjectKind => v.Obj?
  }

  predicate HasKey(fields: seq<Field>, key: string) {
    exists i :: 0 <= i < |fields| && fields[i].key == key
  }

  /** Property lookup: `None` stands for the runtime's NOT_FOUND marker.
      Script objects have unique keys; with duplicates the first one wins. */
  /** What an element looks like through the java.util.List and
      java.util.Map views of script arrays and objects (List.get, the values
      of Map.entrySet): `undefined` comes out as Java null, every other value
      as itself. Property reads through the script interface do not do this. */
  function JavaView(v: Value): (r: Value)
    ensures r.Null? <==> v.Null? || v.Undefined?
    ensures !r.Null? ==> r == v
  {
    if v.Undefined? then Null else v
  }

  function Lookup(fields: seq<Field>, key: string): (r: Option<Value>)
    ensures r.None? <==> !HasKey(fields, key)
    ensures r.Some? ==> exists i :: 0 <= i < |fields| && fields[i] == Field(key, r.value)
  {
    if |fields| == 0 then None
    else if fields[0].key == key then Some(fields[0].value)
    else
      var r := Lookup(fields[1..], key);
      assert forall i :: 0 < i < |fields| ==> fields[i] == fields[1..][i - 1];
      r
  }
}
