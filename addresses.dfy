/** Address resolution: turning `{address, name}` records into mailboxes
    (parseJsonAsInternetAddress and getInternetAddresses). */
module Addresses {
  import opened Results
  import opened ScriptValues
  import opened Extraction

  /** A display name: the text given by the caller and its header form. */
  datatype DisplayName = DisplayName(text: string, encoded: string)

  /** A parsed mailbox, as javax.mail's InternetAddress holds it. */
  datatype Mailbox = Mailbox(address: string, personal: Option<DisplayName>)

  /** Result of encoding text for a header in a given charset. `cause` is
      opaque text: where the failure surfaces as a MessagingException (the
      subject), it is that exception's message, which wraps the encoding
      failure. */
  datatype Encoding = Encoded(text: string) | Unsupported(cause: string)

  /** The collaborators this model does not re-implement, passed in as values:
      - parseMailbox: the strict RFC 822 parser behind `new InternetAddress(s, true)`;
        `None` is its AddressException;
      - encode: encoded-word encoding of a text in a charset; `Unsupported` is
        its UnsupportedEncodingException;
      - scriptText: the Java `toString` of a script value that is not a string. */
  datatype MailLib = MailLib(
    parseMailbox: string -> Option<Mailbox>,
    encode: (string, string) -> Encoding,
    scriptText: Value -> string)

  const AddressMissingMessage := "'address' field is not specified or empty."
  const InvalidAddressMessage := "Invalid mail address is detected."
  const UnsupportedEncodingMessage := "Unsupported encoding is specified for mail display name."
  const NullPointerException := "java.lang.NullPointerException"

  /** A slot that castTo accepts as a string: absent, null or a string. */
  predicate StringOrAbsent(o: Option<Value>) {
    IsAbsent(o) || o.value.Str?
  }

  /** A slot holding a string other than "". */
  predicate NonEmptyString(o: Option<Value>) {
    o.Some? && o.value.Str? && o.value.s != ""
  }

  /** The checks of parseJsonAsInternetAddress once both fields are read as
      strings: the address is checked for presence before it is parsed, and
      the display name is attached, encoded in `charset`, only when it is not
      empty. */
  function MailboxFor(lib: MailLib, address: Option<string>, name: Option<string>, charset: string): (r: Result<Mailbox>)
    // a missing or empty address fails whatever the parser would say
    ensures address.None? || address.value == "" ==> r == Err(ScriptError(AddressMissingMessage))
    // an address the parser rejects fails with the invalid-address message
    ensures address.Some? && address.value != "" && lib.parseMailbox(address.value).None? ==>
              r == Err(ScriptError(InvalidAddressMessage))
    // on success: the parsed mailbox, with the name attached iff it is non-empty
    ensures r.Ok? ==> address.Some? && lib.parseMailbox(address.value).Some?
    ensures r.Ok? ==> r.value.address == lib.parseMailbox(address.value).value.address
    ensures r.Ok? && name.Some? && name.value != "" ==>
              lib.encode(name.value, charset).Encoded? &&
              r.value.personal == Some(DisplayName(name.value, lib.encode(name.value, charset).text))
    ensures r.Ok? && (name.None? || name.value == "") ==> r.value == lib.parseMailbox(address.value).value
    // the only failure left is a display name the charset cannot encode
    ensures r.Err? && address.Some? && address.value != "" && lib.parseMailbox(address.value).Some? ==>
              && name.Some? && name.value != ""
              && lib.encode(name.value, charset).Unsupported?
              && r.error == ScriptError(UnsupportedEncodingMessage)
  {
    if address.None? || address.value == "" then
      Err(ScriptError(AddressMissingMessage))
    else
      match lib.parseMailbox(address.value)
      case None => Err(ScriptError(InvalidAddressMessage))
      case Some(mailbox) =>
        if name.Some? && name.value != "" then
          match lib.encode(name.value, charset)
          case Unsupported(_) => Err(ScriptError(UnsupportedEncodingMessage))
          case Encoded(text) => Ok(mailbox.(personal := Some(DisplayName(name.value, text))))
        else
          Ok(mailbox)
  }

  /** parseJsonAsInternetAddress: one `{address, name}` record. Both fields
      are cast to strings first, so a field of the wrong type fails before
      any of the checks of MailboxFor. */
  function ParseAddressRecord(lib: MailLib, record: seq<Field>, charset: string): (r: Result<Mailbox>)
    ensures !StringOrAbsent(Lookup(record, "address")) ==>
              r == Err(ScriptError(CastFailureMessage(StringKind)))
    ensures StringOrAbsent(Lookup(record, "address")) && !StringOrAbsent(Lookup(record, "name")) ==>
              r == Err(ScriptError(CastFailureMessage(StringKind)))
    // with both fields strings (or absent): a missing, null or empty address
    // is reported as missing, one the parser rejects as invalid
    ensures StringOrAbsent(Lookup(record, "name")) &&
            (IsAbsent(Lookup(record, "address")) || Lookup(record, "address") == Some(Str(""))) ==>
              r == Err(ScriptError(AddressMissingMessage))
    ensures StringOrAbsent(Lookup(record, "name")) && NonEmptyString(Lookup(record, "address")) &&
            lib.parseMailbox(Lookup(record, "address").value.s).None? ==>
              r == Err(ScriptError(InvalidAddressMessage))
    ensures r.Ok? ==>
              NonEmptyString(Lookup(record, "address")) && lib.parseMailbox(Lookup(record, "address").value.s).Some?
  {
    var address :- CastTo(StringKind, Lookup(record, "address"));
    var name :- CastTo(StringKind, Lookup(record, "name"));
    MailboxFor(lib, StringOf(address), StringOf(name), charset)
  }

  /** One element of an address list, as the list view hands it over:
      castTo(NativeObject) and then parseJsonAsInternetAddress. A null or
      undefined element is cast to Java null and then dereferenced, so it
      escapes as a NullPointerException. */
  function ResolveElement(lib: MailLib, v: Value, charset: string): Result<Mailbox>
  {
    var record :- CastTo(ObjectKind, Some(JavaView(v)));
    if record.None? then Err(Uncaught(NullPointerException))
    else ParseAddressRecord(lib, record.value.fields, charset)
  }

  /** The three cases of a list element: a null or undefined element escapes as a
      NullPointerException, a record is parsed, and anything else fails the
      cast to an object. */
  lemma ResolveElementCases(lib: MailLib, v: Value, charset: string)
    ensures v.Null? || v.Undefined? ==> ResolveElement(lib, v, charset) == Err(Uncaught(NullPointerException))
    ensures v.Obj? ==> ResolveElement(lib, v, charset) == ParseAddressRecord(lib, v.fields, charset)
    ensures !v.Null? && !v.Undefined? && !v.Obj? ==>
              ResolveElement(lib, v, charset) == Err(ScriptError(CastFailureMessage(ObjectKind)))
  {
  }

  /** Every element of `items` resolves, in order, or the first failure aborts. */
  function ResolveAll(lib: MailLib, items: seq<Value>, charset: string): (r: Result<seq<Mailbox>>)
    ensures r.Ok? <==> forall i :: 0 <= i < |items| ==> ResolveElement(lib, items[i], charset).Ok?
    ensures r.Ok? ==> |r.value| == |items|
    ensures r.Ok? ==> forall i :: 0 <= i < |items| ==> ResolveElement(lib, items[i], charset) == Ok(r.value[i])
  {
    if |items| == 0 then Ok([])
    else
      var first :- ResolveElement(lib, items[0], charset);
      var rest :- ResolveAll(lib, items[1..], charset);
      assert forall i :: 1 <= i < |items| ==> items[i] == items[1..][i - 1];
      Ok([first] + rest)
  }

  /** The first element that fails decides the error of the whole list. */
  lemma {:induction false} ResolveAllFirstError(lib: MailLib, items: seq<Value>, charset: string, k: nat)
    requires k < |items|
    requires forall j :: 0 <= j < k ==> ResolveElement(lib, items[j], charset).Ok?
    requires ResolveElement(lib, items[k], charset).Err?
    ensures ResolveAll(lib, items, charset) == Err(ResolveElement(lib, items[k], charset).error)
  {
    var first := ResolveElement(lib, items[0], charset);
    if k == 0 {
      assert first.Err?;
    } else {
      assert first.Ok?;
      var rest := items[1..];
      assert forall j :: 0 <= j < k - 1 ==> rest[j] == items[j + 1];
      assert rest[k - 1] == items[k];
      ResolveAllFirstError(lib, rest, charset, k - 1);
    }
  }

  /** getInternetAddresses as a value: an absent or empty list gives no
      addresses (Java null) rather than an empty array. */
  function InternetAddresses(lib: MailLib, list: Option<seq<Value>>, charset: string): (r: Result<Option<seq<Mailbox>>>)
    ensures list.None? || list.value == [] ==> r == Ok(None)
    ensures r.Ok? && r.value.Some? ==> list.Some? && |r.value.value| == |list.value| > 0
    ensures r.Ok? && r.value.Some? ==>
              forall i :: 0 <= i < |list.value| ==> ResolveElement(lib, list.value[i], charset) == Ok(r.value.value[i])
    ensures list.Some? && list.value != [] && r.Ok? ==> r.value.Some?
    ensures list.Some? && list.value != [] ==>
              (r.Ok? <==> forall i :: 0 <= i < |list.value| ==> ResolveElement(lib, list.value[i], charset).Ok?)
  {
    if list.None? || |list.value| == 0 then Ok(None)
    else
      var addresses :- ResolveAll(lib, list.value, charset);
      Ok(Some(addresses))
  }

  /** getInternetAddresses: the loop that resolves each element and appends it. */
  method GetInternetAddresses(lib: MailLib, list: Option<seq<Value>>, charset: string)
      returns (r: Result<Option<seq<Mailbox>>>)
    ensures r == InternetAddresses(lib, list, charset)
  {
    if list.None? || |list.value| == 0 {
      return Ok(None);
    }
    var items := list.value;
    var result: seq<Mailbox> := [];
    var i := 0;
    while i < |items|
      invariant 0 <= i <= |items|
      invariant |result| == i
      invariant forall j :: 0 <= j < i ==> ResolveElement(lib, items[j], charset) == Ok(result[j])
    {
      var address := ResolveElement(lib, items[i], charset);
      if address.Err? {
        ResolveAllFirstError(lib, items, charset, i);
        return Err(address.error);
      }
      result := result + [address.value];
      i := i + 1;
    }
    var all := ResolveAll(lib, items, charset);
    assert all.Ok? && all.value == result;
    r := Ok(Some(result));
  }
}
