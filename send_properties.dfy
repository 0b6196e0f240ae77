/** Properties of `send` as a whole: the order of its checks, and what the
    assembled message holds before saveChanges. */
module SendProperties {
  import opened Results
  import opened ScriptValues
  import opened Extraction
  import opened Addresses
  import opened Validation
  import opened Assembly
  import opened MailSender

  /** A request that meets every validation rule. */
  predicate Validated(req: MailRequest) {
    && 0 < RecipientCount(req.to, req.cc, req.bcc) <= MaxRecipients
    && 0 < Count(req.replyTo) <= MaxReplyTo
    && req.from.Some? && NonEmpty(req.subject) && NonEmpty(req.text)
  }

  /** No applied custom header names the field `name`. */
  predicate NotOverridden(headers: Option<seq<Field>>, name: string) {
    headers.Some? ==>
      forall j :: 0 <= j < |headers.value| && Applied(headers.value[j]) ==> Fold(headers.value[j].key) != Fold(name)
  }

  /** The charset of a request that reads cleanly: the one given, or
      ISO-2022-JP when the field is absent, null or empty. */
  lemma RequestCharset(lib: MailLib, fields: seq<Field>)
    requires ReadRequest(lib, fields).Ok?
    ensures IsAbsent(Lookup(fields, "charset")) || Lookup(fields, "charset") == Some(Str("")) ==>
              ReadRequest(lib, fields).value.charset == "ISO-2022-JP"
    ensures forall c :: Lookup(fields, "charset") == Some(Str(c)) && c != "" ==>
              ReadRequest(lib, fields).value.charset == c
  {
    assert ReadString(fields, "charset").Ok?;
  }

  /** A missing or empty SMTP host fails every call, whatever the request. */
  lemma HostCheckedFirst(lib: MailLib, host: Option<string>, port: string, request: Option<seq<Field>>)
    requires host.None? || host.value == ""
    ensures Prepare(lib, host, port, request) == Err(ScriptError(HostMissingMessage))
  {
  }

  /** With a host configured, a null request is rejected before anything is read. */
  lemma NullRequestRejected(lib: MailLib, host: Option<string>, port: string)
    requires host.Some? && host.value != ""
    ensures Prepare(lib, host, port, None) == Err(ScriptError(NullRequestMessage))
  {
  }

  /** Every field is read and every address resolved before any policy is
      checked: a reading failure is reported even when validation would fail too. */
  lemma ReadFailureReported(lib: MailLib, host: Option<string>, port: string, fields: seq<Field>)
    requires host.Some? && host.value != ""
    requires ReadRequest(lib, fields).Err?
    ensures Prepare(lib, host, port, Some(fields)) == Err(ReadRequest(lib, fields).error)
  {
  }

  /** A request that reads cleanly but breaks a rule fails with that rule's message. */
  lemma ValidationFailureReported(lib: MailLib, host: Option<string>, port: string, fields: seq<Field>, req: MailRequest)
    requires host.Some? && host.value != ""
    requires ReadRequest(lib, fields) == Ok(req)
    requires Validate(req.to, req.cc, req.bcc, req.replyTo, req.from, req.subject, req.text).Fail?
    ensures Prepare(lib, host, port, Some(fields)) ==
              Err(Validate(req.to, req.cc, req.bcc, req.replyTo, req.from, req.subject, req.text).error)
  {
  }

  /** A request that reads cleanly and meets every rule is assembled. */
  lemma PreparedIsAssembled(lib: MailLib, host: Option<string>, port: string, fields: seq<Field>, req: MailRequest)
    requires host.Some? && host.value != ""
    requires ReadRequest(lib, fields) == Ok(req)
    requires Validated(req)
    ensures Prepare(lib, host, port, Some(fields)) == Assemble(lib, host.value, port, req)
  {
    ValidatePassesIff(req.to, req.cc, req.bcc, req.replyTo, req.from, req.subject, req.text);
  }

  /** A request that reads cleanly reaches the transport exactly when it meets
      every rule and its subject can be encoded in its charset. */
  lemma PreparedIff(lib: MailLib, host: Option<string>, port: string, fields: seq<Field>, req: MailRequest)
    requires host.Some? && host.value != ""
    requires ReadRequest(lib, fields) == Ok(req)
    ensures Prepare(lib, host, port, Some(fields)).Ok? <==>
              Validated(req) && lib.encode(req.subject.value, req.charset).Encoded?
  {
    ValidatePassesIff(req.to, req.cc, req.bcc, req.replyTo, req.from, req.subject, req.text);
  }

  /** A subject the charset cannot encode is reported as invalid content, with its cause. */
  lemma SubjectEncodingFailure(lib: MailLib, host: Option<string>, port: string, fields: seq<Field>, req: MailRequest)
    requires host.Some? && host.value != ""
    requires ReadRequest(lib, fields) == Ok(req)
    requires Validated(req) && lib.encode(req.subject.value, req.charset).Unsupported?
    ensures Prepare(lib, host, port, Some(fields)) ==
              Err(ScriptError(InvalidContentMessage(lib.encode(req.subject.value, req.charset).cause)))
  {
    PreparedIsAssembled(lib, host, port, fields, req);
  }

  /** The session of an assembled message: the configured host and port, and
      the envelope sender exactly when a non-empty one was requested; the body
      is the requested text in the request's charset. */
  lemma AssembledSession(lib: MailLib, host: string, port: string, req: MailRequest)
    requires Assemblable(req) && lib.encode(req.subject.value, req.charset).Encoded?
    ensures var out := Assemble(lib, host, port, req);
            && out.Ok?
            && SmtpHostKey in out.value.session && out.value.session[SmtpHostKey] == host
            && SmtpPortKey in out.value.session && out.value.session[SmtpPortKey] == port
    ensures var out := Assemble(lib, host, port, req).value;
            SmtpFromKey in out.session <==> req.envelopeFrom.Some? && req.envelopeFrom.value != ""
    ensures var out := Assemble(lib, host, port, req).value;
            SmtpFromKey in out.session ==> out.session[SmtpFromKey] == req.envelopeFrom.value
    ensures Assemble(lib, host, port, req).value.body == Body(req.text.value, req.charset)
  {
  }

  /** The header fields of an assembled message that no custom header names:
      each address list exactly when it is non-empty, the sender, and the
      subject as encoded in the request's charset. */
  lemma AssembledSystemHeaders(lib: MailLib, host: string, port: string, req: MailRequest)
    requires Assemblable(req) && lib.encode(req.subject.value, req.charset).Encoded?
    ensures var h := Assemble(lib, host, port, req).value.headers;
            NotOverridden(req.headers, ToHeader) ==>
              && (Fold(ToHeader) in h <==> req.to.Some? && req.to.value != [])
              && (Fold(ToHeader) in h ==> h[Fold(ToHeader)] == AddressList(req.to.value))
    ensures var h := Assemble(lib, host, port, req).value.headers;
            NotOverridden(req.headers, CcHeader) ==>
              && (Fold(CcHeader) in h <==> req.cc.Some? && req.cc.value != [])
              && (Fold(CcHeader) in h ==> h[Fold(CcHeader)] == AddressList(req.cc.value))
    ensures var h := Assemble(lib, host, port, req).value.headers;
            NotOverridden(req.headers, BccHeader) ==>
              && (Fold(BccHeader) in h <==> req.bcc.Some? && req.bcc.value != [])
              && (Fold(BccHeader) in h ==> h[Fold(BccHeader)] == AddressList(req.bcc.value))
    ensures var h := Assemble(lib, host, port, req).value.headers;
            NotOverridden(req.headers, ReplyToHeader) ==>
              && (Fold(ReplyToHeader) in h <==> req.replyTo.Some? && req.replyTo.value != [])
              && (Fold(ReplyToHeader) in h ==> h[Fold(ReplyToHeader)] == AddressList(req.replyTo.value))
    ensures var h := Assemble(lib, host, port, req).value.headers;
            NotOverridden(req.headers, FromHeader) ==>
              Fold(FromHeader) in h && h[Fold(FromHeader)] == AddressList([req.from.value])
    ensures var h := Assemble(lib, host, port, req).value.headers;
            NotOverridden(req.headers, SubjectHeader) ==>
              && Fold(SubjectHeader) in h
              && h[Fold(SubjectHeader)] == Text(lib.encode(req.subject.value, req.charset).text)
  {
    var system := SystemHeaders(req.to, req.cc, req.bcc, req.replyTo, req.from.value,
                                lib.encode(req.subject.value, req.charset).text);
    SystemHeadersFields(req.to, req.cc, req.bcc, req.replyTo, req.from.value,
                        lib.encode(req.subject.value, req.charset).text);
    if req.headers.Some? {
      var entries := req.headers.value;
      var names := [ToHeader, CcHeader, BccHeader, ReplyToHeader, FromHeader, SubjectHeader];
      forall n | n in names && NotOverridden(req.headers, n)
        ensures Fold(n) in ApplyCustomHeaders(lib, system, entries) <==> Fold(n) in system
        ensures Fold(n) in system ==> ApplyCustomHeaders(lib, system, entries)[Fold(n)] == system[Fold(n)]
      {
        CustomHeaderUntouched(lib, system, entries, Fold(n));
      }
    }
  }

  /** A custom header decides its field, over the system headers and over any
      earlier custom header of the same name. */
  lemma AssembledCustomHeader(lib: MailLib, host: string, port: string, req: MailRequest, k: int)
    requires Assemblable(req) && lib.encode(req.subject.value, req.charset).Encoded?
    requires req.headers.Some? && 0 <= k < |req.headers.value| && Applied(req.headers.value[k])
    requires forall j :: k < j < |req.headers.value| && Applied(req.headers.value[j]) ==>
               Fold(req.headers.value[j].key) != Fold(req.headers.value[k].key)
    ensures var h := Assemble(lib, host, port, req).value.headers;
            && Fold(req.headers.value[k].key) in h
            && h[Fold(req.headers.value[k].key)] == Text(HeaderText(lib, req.headers.value[k].value))
  {
    var system := SystemHeaders(req.to, req.cc, req.bcc, req.replyTo, req.from.value,
                                lib.encode(req.subject.value, req.charset).text);
    CustomHeaderLastWins(lib, system, req.headers.value, k);
  }

  /** An element of an address list (`to`, `cc`, `bcc` or `reply-to`, the
      n-th list read) that fails to resolve, after the earlier lists and the
      earlier elements of its own list resolved, is what send reports: nothing
      after it is read and no policy is checked. */
  lemma ListElementFailureReported(lib: MailLib, host: Option<string>, port: string, fields: seq<Field>,
                                   n: nat, items: seq<Value>, k: nat)
    requires host.Some? && host.value != ""
    requires ReadString(fields, "charset").Ok?
    requires n < 4 && ListsRead(lib, fields, EffectiveCharset(ReadString(fields, "charset").value), n)
    requires Lookup(fields, AddressKey(n)) == Some(Arr(items))
    requires k < |items|
    requires forall j :: 0 <= j < k ==>
               ResolveElement(lib, items[j], EffectiveCharset(ReadString(fields, "charset").value)).Ok?
    requires ResolveElement(lib, items[k], EffectiveCharset(ReadString(fields, "charset").value)).Err?
    ensures Prepare(lib, host, port, Some(fields)) ==
              Err(ResolveElement(lib, items[k], EffectiveCharset(ReadString(fields, "charset").value)).error)
  {
    var charset := EffectiveCharset(ReadString(fields, "charset").value);
    ListElementFailure(lib, fields, AddressKey(n), charset, items, k);
    PrepareStopsAtList(lib, host, port, fields, n);
  }

  /** A list field whose element k fails to resolve, after the earlier
      elements resolved, fails to read with that element's error. */
  lemma ListElementFailure(lib: MailLib, fields: seq<Field>, key: string, charset: string, items: seq<Value>, k: nat)
    requires key != "" && Lookup(fields, key) == Some(Arr(items))
    requires k < |items|
    requires forall j :: 0 <= j < k ==> ResolveElement(lib, items[j], charset).Ok?
    requires ResolveElement(lib, items[k], charset).Err?
    ensures ReadAddressList(lib, fields, key, charset) == Err(ResolveElement(lib, items[k], charset).error)
  {
    ResolveAllFirstError(lib, items, charset, k);
    assert RetrieveObjectAs(ArrayKind, fields, key) == Ok(Some(Arr(items)));
  }

  /** The element checks of getInternetAddresses and parseJsonAsInternetAddress
      as send reports them, for any list and any position: a null or undefined
      element escapes as a NullPointerException; a record without a usable
      address is reported as missing; one whose address the parser rejects,
      as invalid. */
  lemma RecipientAddressChecked(lib: MailLib, host: Option<string>, port: string, fields: seq<Field>,
                                n: nat, items: seq<Value>, k: nat)
    requires host.Some? && host.value != ""
    requires ReadString(fields, "charset").Ok?
    requires n < 4 && ListsRead(lib, fields, EffectiveCharset(ReadString(fields, "charset").value), n)
    requires Lookup(fields, AddressKey(n)) == Some(Arr(items))
    requires k < |items|
    requires forall j :: 0 <= j < k ==>
               ResolveElement(lib, items[j], EffectiveCharset(ReadString(fields, "charset").value)).Ok?
    ensures items[k].Null? || items[k].Undefined? ==>
              Prepare(lib, host, port, Some(fields)) == Err(Uncaught(NullPointerException))
    ensures items[k].Obj? && StringOrAbsent(Lookup(items[k].fields, "name")) &&
            (IsAbsent(Lookup(items[k].fields, "address")) || Lookup(items[k].fields, "address") == Some(Str(""))) ==>
              Prepare(lib, host, port, Some(fields)) == Err(ScriptError(AddressMissingMessage))
    ensures items[k].Obj? && StringOrAbsent(Lookup(items[k].fields, "name")) &&
            NonEmptyString(Lookup(items[k].fields, "address")) &&
            lib.parseMailbox(Lookup(items[k].fields, "address").value.s).None? ==>
              Prepare(lib, host, port, Some(fields)) == Err(ScriptError(InvalidAddressMessage))
  {
    var charset := EffectiveCharset(ReadString(fields, "charset").value);
    ResolveElementCases(lib, items[k], charset);
    if ResolveElement(lib, items[k], charset).Err? {
      ListElementFailureReported(lib, host, port, fields, n, items, k);
    }
  }

  /** The same checks on the `from` record, once the four lists are read. */
  lemma SenderAddressChecked(lib: MailLib, host: Option<string>, port: string, fields: seq<Field>, record: seq<Field>)
    requires host.Some? && host.value != ""
    requires ReadString(fields, "charset").Ok?
    requires ListsRead(lib, fields, EffectiveCharset(ReadString(fields, "charset").value), 4)
    requires Lookup(fields, "from") == Some(Obj(record))
    ensures StringOrAbsent(Lookup(record, "name")) &&
            (IsAbsent(Lookup(record, "address")) || Lookup(record, "address") == Some(Str(""))) ==>
              Prepare(lib, host, port, Some(fields)) == Err(ScriptError(AddressMissingMessage))
    ensures StringOrAbsent(Lookup(record, "name")) && NonEmptyString(Lookup(record, "address")) &&
            lib.parseMailbox(Lookup(record, "address").value.s).None? ==>
              Prepare(lib, host, port, Some(fields)) == Err(ScriptError(InvalidAddressMessage))
  {
    var charset := EffectiveCharset(ReadString(fields, "charset").value);
    if ParseAddressRecord(lib, record, charset).Err? {
      SenderFailure(lib, fields, record, charset);
      ReadStopsAtFrom(lib, fields, charset);
      PrepareStopsAtRest(lib, host, port, fields);
    }
  }

  /** A `from` record that fails to parse makes the sender fail to read, with
      the parser's error. */
  lemma SenderFailure(lib: MailLib, fields: seq<Field>, record: seq<Field>, charset: string)
    requires Lookup(fields, "from") == Some(Obj(record))
    requires ParseAddressRecord(lib, record, charset).Err?
    ensures ReadFrom(lib, fields, charset) == Err(ParseAddressRecord(lib, record, charset).error)
  {
    assert RetrieveObjectAs(ObjectKind, fields, "from") == Ok(Some(Obj(record)));
  }

  /** The smallest instance: a request whose only field is a `to` list holding
      one record with an address the parser rejects. */
  lemma InvalidRecipientRejected(lib: MailLib, host: Option<string>, port: string, address: string)
    requires host.Some? && host.value != ""
    requires address != "" && lib.parseMailbox(address).None?
    ensures Prepare(lib, host, port, Some([Field("to", Arr([Obj([Field("address", Str(address))])]))])) ==
              Err(ScriptError(InvalidAddressMessage))
  {
    var record := [Field("address", Str(address))];
    var fields := [Field("to", Arr([Obj(record)]))];
    assert ReadString(fields, "charset") == Ok(None) by {
      assert Lookup(fields, "charset") == None;
    }
    assert Lookup(fields, AddressKey(0)) == Some(Arr([Obj(record)]));
    assert Lookup(record, "address") == Some(Str(address)) && Lookup(record, "name") == None;
    RecipientAddressChecked(lib, host, port, fields, 0, [Obj(record)], 0);
  }
}
