/** The `send` operation of the MailSender extension: request parsing,
    address resolution, policy validation and message assembly, up to the
    point where the message is handed to the SMTP transport. */
module MailSender {
  import opened Results
  import opened ScriptValues
  import opened Extraction
  import opened Addresses
  import opened Validation
  import opened Assembly

  const DefaultSmtpPort := "25"
  const DefaultCharset := "ISO-2022-JP"

  const HostMissingMessage := "smtp host is not specified in configuration."
  const NullRequestMessage := "Invalid argument for send method.: null."

  /** The error for a MessagingException during assembly; `cause` is that
      exception's message, taken as opaque text. */
  function InvalidContentMessage(cause: string): string {
    "Invalid message content/configuration were detected. Cause: [" + cause + "]"
  }

  /** The request once every field has been read and every address resolved. */
  datatype MailRequest = MailRequest(
    charset: string,
    to: Option<seq<Mailbox>>,
    cc: Option<seq<Mailbox>>,
    bcc: Option<seq<Mailbox>>,
    replyTo: Option<seq<Mailbox>>,
    from: Option<Mailbox>,
    subject: Option<string>,
    text: Option<string>,
    envelopeFrom: Option<string>,
    headers: Option<seq<Field>>)

  /** An absent or empty charset falls back to the default one. */
  function EffectiveCharset(given: Option<string>): string {
    if given.None? || given.value == "" then DefaultCharset else given.value
  }

  /** The `from` record, when present, is resolved like any other address. */
  function ResolveFrom(lib: MailLib, from: Option<Value>, charset: string): Result<Option<Mailbox>>
    requires from.Some? ==> from.value.Obj?
  {
    if from.None? then Ok(None)
    else
      var mailbox :- ParseAddressRecord(lib, from.value.fields, charset);
      Ok(Some(mailbox))
  }

  /** A string field: absent stays absent. */
  function ReadString(fields: seq<Field>, key: string): Result<Option<string>> {
    var v :- RetrieveObjectAs(StringKind, fields, key);
    Ok(StringOf(v))
  }

  /** An address-list field, resolved in `charset`. */
  function ReadAddressList(lib: MailLib, fields: seq<Field>, key: string, charset: string): Result<Option<seq<Mailbox>>> {
    var v :- RetrieveObjectAs(ArrayKind, fields, key);
    InternetAddresses(lib, ItemsOf(v), charset)
  }

  /** The `from` field, resolved in `charset` when present. */
  function ReadFrom(lib: MailLib, fields: seq<Field>, charset: string): Result<Option<Mailbox>> {
    var v :- RetrieveObjectAs(ObjectKind, fields, "from");
    ResolveFrom(lib, v, charset)
  }

  /** The `headers` field: the entries of an object, in order. */
  function ReadHeaders(fields: seq<Field>): Result<Option<seq<Field>>> {
    var v :- RetrieveObjectAs(ObjectKind, fields, "headers");
    Ok(FieldsOf(v))
  }

  /** The reading half of `send`, in the order in which it reads the request. */
  function ReadRequest(lib: MailLib, fields: seq<Field>): Result<MailRequest>
  {
    var charset :- ReadString(fields, "charset");
    ReadRest(lib, fields, EffectiveCharset(charset))
  }

  /** The fields after the charset, every address resolved in that charset. */
  function ReadRest(lib: MailLib, fields: seq<Field>, charset: string): (r: Result<MailRequest>)
    ensures r.Ok? ==> r.value.charset == charset
  {
    var to :- ReadAddressList(lib, fields, "to", charset);
    var cc :- ReadAddressList(lib, fields, "cc", charset);
    var bcc :- ReadAddressList(lib, fields, "bcc", charset);
    var replyTo :- ReadAddressList(lib, fields, "reply-to", charset);
    var from :- ReadFrom(lib, fields, charset);
    var subject :- ReadString(fields, "subject");
    var text :- ReadString(fields, "text");
    var envelopeFrom :- ReadString(fields, "envelope-from");
    var headers :- ReadHeaders(fields);
    Ok(MailRequest(charset, to, cc, bcc, replyTo, from, subject, text, envelopeFrom, headers))
  }

  /** The address-list fields, in the order in which they are read. */
  function AddressKey(n: nat): string
    requires n < 4
  {
    if n == 0 then "to" else if n == 1 then "cc" else if n == 2 then "bcc" else "reply-to"
  }

  /** The string fields read after the sender, in order. */
  function TextKey(n: nat): string
    requires n < 3
  {
    if n == 0 then "subject" else if n == 1 then "text" else "envelope-from"
  }

  /** The first `n` address lists all resolve. */
  predicate ListsRead(lib: MailLib, fields: seq<Field>, charset: string, n: nat) {
    && (0 < n ==> ReadAddressList(lib, fields, "to", charset).Ok?)
    && (1 < n ==> ReadAddressList(lib, fields, "cc", charset).Ok?)
    && (2 < n ==> ReadAddressList(lib, fields, "bcc", charset).Ok?)
    && (3 < n ==> ReadAddressList(lib, fields, "reply-to", charset).Ok?)
  }

  /** The first `n` string fields after the sender all read. */
  predicate TextsRead(fields: seq<Field>, n: nat) {
    && (0 < n ==> ReadString(fields, "subject").Ok?)
    && (1 < n ==> ReadString(fields, "text").Ok?)
    && (2 < n ==> ReadString(fields, "envelope-from").Ok?)
  }

  /** Reading stops at the first address list that cannot be read or resolved,
      with that list's error. */
  lemma ReadStopsAtList(lib: MailLib, fields: seq<Field>, charset: string, n: nat)
    requires n < 4 && ListsRead(lib, fields, charset, n)
    requires ReadAddressList(lib, fields, AddressKey(n), charset).Err?
    ensures ReadRest(lib, fields, charset) == Err(ReadAddressList(lib, fields, AddressKey(n), charset).error)
  {
    if n == 0 {
    } else if n == 1 {
    } else if n == 2 {
    } else {
    }
  }

  /** With every list resolved, reading stops at a sender that cannot be read
      or resolved. */
  lemma ReadStopsAtFrom(lib: MailLib, fields: seq<Field>, charset: string)
    requires ListsRead(lib, fields, charset, 4)
    requires ReadFrom(lib, fields, charset).Err?
    ensures ReadRest(lib, fields, charset) == Err(ReadFrom(lib, fields, charset).error)
  {
  }

  /** With the lists and the sender read, reading stops at the first string
      field of the wrong type. */
  lemma ReadStopsAtText(lib: MailLib, fields: seq<Field>, charset: string, n: nat)
    requires ListsRead(lib, fields, charset, 4) && ReadFrom(lib, fields, charset).Ok?
    requires n < 3 && TextsRead(fields, n)
    requires ReadString(fields, TextKey(n)).Err?
    ensures ReadRest(lib, fields, charset) == Err(ReadString(fields, TextKey(n)).error)
  {
    if n == 0 {
    } else if n == 1 {
    } else {
    }
  }

  /** With everything else read, a `headers` field that is not an object ends reading. */
  lemma ReadStopsAtHeaders(lib: MailLib, fields: seq<Field>, charset: string)
    requires ListsRead(lib, fields, charset, 4) && ReadFrom(lib, fields, charset).Ok? && TextsRead(fields, 3)
    requires ReadHeaders(fields).Err?
    ensures ReadRest(lib, fields, charset) == Err(ReadHeaders(fields).error)
  {
  }

  /** When every field reads, the request holds each field's value and the charset. */
  lemma ReadCompletes(lib: MailLib, fields: seq<Field>, charset: string)
    requires ListsRead(lib, fields, charset, 4) && ReadFrom(lib, fields, charset).Ok? && TextsRead(fields, 3)
    requires ReadHeaders(fields).Ok?
    ensures ReadRest(lib, fields, charset) == Ok(MailRequest(
              charset,
              ReadAddressList(lib, fields, "to", charset).value,
              ReadAddressList(lib, fields, "cc", charset).value,
              ReadAddressList(lib, fields, "bcc", charset).value,
              ReadAddressList(lib, fields, "reply-to", charset).value,
              ReadFrom(lib, fields, charset).value,
              ReadString(fields, "subject").value,
              ReadString(fields, "text").value,
              ReadString(fields, "envelope-from").value,
              ReadHeaders(fields).value))
  {
  }

  /** What validation guarantees to the assembling half: a sender, a subject and a body. */
  predicate Assemblable(req: MailRequest) {
    req.from.Some? && req.subject.Some? && req.text.Some?
  }

  /** The assembling half of `send`, for a validated request. */
  function Assemble(lib: MailLib, host: string, port: string, req: MailRequest): Result<Outbound>
    requires Assemblable(req)
  {
    match lib.encode(req.subject.value, req.charset)
    case Unsupported(cause) => Err(ScriptError(InvalidContentMessage(cause)))
    case Encoded(subjectText) =>
      var system := SystemHeaders(req.to, req.cc, req.bcc, req.replyTo, req.from.value, subjectText);
      var headers := if req.headers.Some? then ApplyCustomHeaders(lib, system, req.headers.value) else system;
      Ok(Outbound(SessionProperties(host, port, req.envelopeFrom), headers, Body(req.text.value, req.charset)))
  }

  /** `send` up to the hand-over to the transport, as a value. */
  function Prepare(lib: MailLib, host: Option<string>, port: string, request: Option<seq<Field>>): Result<Outbound>
  {
    if host.None? || host.value == "" then Err(ScriptError(HostMissingMessage))
    else if request.None? then Err(ScriptError(NullRequestMessage))
    else
      var req :- ReadRequest(lib, request.value);
      var verdict := Validate(req.to, req.cc, req.bcc, req.replyTo, req.from, req.subject, req.text);
      if verdict.Fail? then Err(verdict.error)
      else
        ValidatePassesIff(req.to, req.cc, req.bcc, req.replyTo, req.from, req.subject, req.text);
        Assemble(lib, host.value, port, req)
  }

  /** A failure after the charset was read is what `send` reports. */
  lemma PrepareStopsAtRest(lib: MailLib, host: Option<string>, port: string, fields: seq<Field>)
    requires host.Some? && host.value != ""
    requires ReadString(fields, "charset").Ok?
    requires ReadRest(lib, fields, EffectiveCharset(ReadString(fields, "charset").value)).Err?
    ensures Prepare(lib, host, port, Some(fields))
            == Err(ReadRest(lib, fields, EffectiveCharset(ReadString(fields, "charset").value)).error)
  {
  }

  /** An address list that fails to read, after the earlier lists were read,
      is what `send` reports. */
  lemma PrepareStopsAtList(lib: MailLib, host: Option<string>, port: string, fields: seq<Field>, n: nat)
    requires host.Some? && host.value != ""
    requires ReadString(fields, "charset").Ok?
    requires n < 4 && ListsRead(lib, fields, EffectiveCharset(ReadString(fields, "charset").value), n)
    requires ReadAddressList(lib, fields, AddressKey(n), EffectiveCharset(ReadString(fields, "charset").value)).Err?
    ensures Prepare(lib, host, port, Some(fields))
            == Err(ReadAddressList(lib, fields, AddressKey(n), EffectiveCharset(ReadString(fields, "charset").value)).error)
  {
    ReadStopsAtList(lib, fields, EffectiveCharset(ReadString(fields, "charset").value), n);
    PrepareStopsAtRest(lib, host, port, fields);
  }

  /** After the charset, reading goes on in the effective charset. */
  lemma ReadRequestAfterCharset(lib: MailLib, fields: seq<Field>)
    requires ReadString(fields, "charset").Ok?
    ensures ReadRequest(lib, fields) == ReadRest(lib, fields, EffectiveCharset(ReadString(fields, "charset").value))
  {
  }

  /** The extension object: its SMTP endpoint is fixed when it is constructed. */
  class MailSenderExtension {
    const smtpHost: Option<string>
    const smtpPort: string

    /** The settings are passed in; a missing port setting means port 25. */
    constructor (hostSetting: Option<string>, portSetting: Option<string>)
      ensures smtpHost == hostSetting
      ensures smtpPort == if portSetting.Some? then portSetting.value else DefaultSmtpPort
    {
      smtpHost := hostSetting;
      smtpPort := if portSetting.Some? then portSetting.value else DefaultSmtpPort;
    }

    /** send: rejects a missing configuration or request, then reads the
        request field by field (resolving each address list as soon as it is
        read), validates it and builds the message. */
    method Send(lib: MailLib, request: Option<seq<Field>>) returns (r: Result<Outbound>)
      ensures r == Prepare(lib, smtpHost, smtpPort, request)
    {
      if smtpHost.None? || smtpHost.value == "" {
        return Err(ScriptError(HostMissingMessage));
      }
      if request.None? {
        return Err(ScriptError(NullRequestMessage));
      }
      var reqJson := request.value;

      var charsetField :- ReadString(reqJson, "charset");
      var charset := EffectiveCharset(charsetField);

      var to := RetrieveAddresses(lib, reqJson, "to", charset);
      if to.Err? {
        PrepareStopsAtList(lib, smtpHost, smtpPort, reqJson, 0);
        return Err(to.error);
      }
      var cc := RetrieveAddresses(lib, reqJson, "cc", charset);
      if cc.Err? {
        PrepareStopsAtList(lib, smtpHost, smtpPort, reqJson, 1);
        return Err(cc.error);
      }
      var bcc := RetrieveAddresses(lib, reqJson, "bcc", charset);
      if bcc.Err? {
        PrepareStopsAtList(lib, smtpHost, smtpPort, reqJson, 2);
        return Err(bcc.error);
      }
      var replyTo := RetrieveAddresses(lib, reqJson, "reply-to", charset);
      if replyTo.Err? {
        PrepareStopsAtList(lib, smtpHost, smtpPort, reqJson, 3);
        return Err(replyTo.error);
      }

      var from := RetrieveObjectAs(ObjectKind, reqJson, "from");
      if from.Err? {
        ReadStopsAtFrom(lib, reqJson, charset);
        PrepareStopsAtRest(lib, smtpHost, smtpPort, reqJson);
        return Err(from.error);
      }
      var fromAddress: Option<Mailbox> := None;
      if from.value.Some? {
        var mailbox := ParseAddressRecord(lib, from.value.value.fields, charset);
        if mailbox.Err? {
          ReadStopsAtFrom(lib, reqJson, charset);
          PrepareStopsAtRest(lib, smtpHost, smtpPort, reqJson);
          return Err(mailbox.error);
        }
        fromAddress := Some(mailbox.value);
      }
      assert ReadFrom(lib, reqJson, charset) == Ok(fromAddress);

      var subject := ReadString(reqJson, "subject");
      if subject.Err? {
        ReadStopsAtText(lib, reqJson, charset, 0);
        PrepareStopsAtRest(lib, smtpHost, smtpPort, reqJson);
        return Err(subject.error);
      }
      var mailBody := ReadString(reqJson, "text");
      if mailBody.Err? {
        ReadStopsAtText(lib, reqJson, charset, 1);
        PrepareStopsAtRest(lib, smtpHost, smtpPort, reqJson);
        return Err(mailBody.error);
      }
      var envelopeFrom := ReadString(reqJson, "envelope-from");
      if envelopeFrom.Err? {
        ReadStopsAtText(lib, reqJson, charset, 2);
        PrepareStopsAtRest(lib, smtpHost, smtpPort, reqJson);
        return Err(envelopeFrom.error);
      }

      var headers := RetrieveObjectAs(ObjectKind, reqJson, "headers");
      if headers.Err? {
        ReadStopsAtHeaders(lib, reqJson, charset);
        PrepareStopsAtRest(lib, smtpHost, smtpPort, reqJson);
        return Err(headers.error);
      }

      var req := MailRequest(charset, to.value, cc.value, bcc.value, replyTo.value,
                             fromAddress, subject.value, mailBody.value, envelopeFrom.value, FieldsOf(headers.value));
      ReadCompletes(lib, reqJson, charset);
      ReadRequestAfterCharset(lib, reqJson);
      r := ValidateAndBuild(lib, smtpHost.value, smtpPort, reqJson, req);
    }
  }

  /** One recipient field of send: the property read as an array, then its
      elements resolved by getInternetAddresses. A property of another type is
      rejected by name; an absent, null or empty array gives no list; otherwise
      the list holds one address per element, in order, or reading fails. */
  method RetrieveAddresses(lib: MailLib, fields: seq<Field>, key: string, charset: string)
      returns (r: Result<Option<seq<Mailbox>>>)
    ensures r == ReadAddressList(lib, fields, key, charset)
    ensures RetrieveObjectAs(ArrayKind, fields, key).Err? ==> r == Err(ScriptError(TypeMismatchMessage(key)))
    ensures key != "" && (IsAbsent(Lookup(fields, key)) || Lookup(fields, key) == Some(Arr([]))) ==> r == Ok(None)
    ensures var found := Lookup(fields, key);
            key != "" && found.Some? && found.value.Arr? && found.value.items != [] ==>
              (r.Ok? <==> forall i :: 0 <= i < |found.value.items| ==> ResolveElement(lib, found.value.items[i], charset).Ok?)
    ensures var found := Lookup(fields, key);
            r.Ok? && r.value.Some? ==>
              found.Some? && found.value.Arr? && |r.value.value| == |found.value.items| &&
              forall i :: 0 <= i < |found.value.items| ==> ResolveElement(lib, found.value.items[i], charset) == Ok(r.value.value[i])
  {
    var list :- RetrieveObjectAs(ArrayKind, fields, key);
    r := GetInternetAddresses(lib, ItemsOf(list), charset);
  }

  /** The second half of send: the policy check on the request that was read,
      then the message. */
  method ValidateAndBuild(lib: MailLib, smtpHost: string, smtpPort: string, reqJson: seq<Field>, req: MailRequest)
      returns (r: Result<Outbound>)
    requires smtpHost != "" && ReadRequest(lib, reqJson) == Ok(req)
    ensures r == Prepare(lib, Some(smtpHost), smtpPort, Some(reqJson))
  {
    var verdict := ValidateRequests(req.to, req.cc, req.bcc, req.replyTo, req.from, req.subject, req.text);
    if verdict.Fail? {
      return Err(verdict.error);
    }
    ValidatePassesIff(req.to, req.cc, req.bcc, req.replyTo, req.from, req.subject, req.text);
    r := BuildMessage(lib, smtpHost, smtpPort, req);
  }

  /** The message construction of send: session properties, then the
      MimeMessage filled in step by step, custom headers last. */
  method BuildMessage(lib: MailLib, smtpHost: string, smtpPort: string, req: MailRequest) returns (r: Result<Outbound>)
    requires Assemblable(req)
    ensures r == Assemble(lib, smtpHost, smtpPort, req)
  {
    var prop: map<string, string> := map[];
    prop := prop[SmtpHostKey := smtpHost];
    prop := prop[SmtpPortKey := smtpPort];
    if req.envelopeFrom.Some? && req.envelopeFrom.value != "" {
      prop := prop[SmtpFromKey := req.envelopeFrom.value];
    }
    assert prop == SessionProperties(smtpHost, smtpPort, req.envelopeFrom);

    var message := new MimeMessage();
    var encodedSubject := SetStandardFields(lib, message, req);
    if encodedSubject.Unsupported? {
      return Err(ScriptError(InvalidContentMessage(encodedSubject.cause)));
    }
    if req.headers.Some? {
      SetCustomHeaders(lib, message, req.headers.value);
    }
    r := Ok(Outbound(prop, message.headers, message.content.value));
  }

  /** The custom-header loop of send: entries with a null value are skipped,
      the others are set in order, replacing a field of the same name. */
  method SetCustomHeaders(lib: MailLib, message: MimeMessage, entries: seq<Field>)
    modifies message
    ensures message.headers == ApplyCustomHeaders(lib, old(message.headers), entries)
    ensures message.content == old(message.content)
  {
    var i := 0;
    while i < |entries|
      invariant 0 <= i <= |entries|
      invariant message.headers == ApplyCustomHeaders(lib, old(message.headers), entries[..i])
      invariant message.content == old(message.content)
    {
      var entry := entries[i];
      if Applied(entry) {
        message.SetHeader(entry.key, Text(HeaderText(lib, entry.value)));
      }
      assert entries[..i + 1][..i] == entries[..i];
      i := i + 1;
    }
    assert entries[..|entries|] == entries;
  }

  /** The standard fields of the message: recipients (only non-empty lists),
      reply-to, from, the subject encoded in the request's charset, and the body.
      When the subject cannot be encoded the message keeps the address
      fields only: no subject and no body. */
  method SetStandardFields(lib: MailLib, message: MimeMessage, req: MailRequest) returns (encodedSubject: Encoding)
    requires Assemblable(req)
    requires message.headers == map[] && message.content == None
    modifies message
    ensures encodedSubject == lib.encode(req.subject.value, req.charset)
    ensures encodedSubject.Encoded? ==>
              && message.headers == SystemHeaders(req.to, req.cc, req.bcc, req.replyTo, req.from.value, encodedSubject.text)
              && message.content == Some(Body(req.text.value, req.charset))
    ensures encodedSubject.Unsupported? ==>
              && message.headers == AddressHeaders(req.to, req.cc, req.bcc, req.replyTo, req.from.value)
              && message.content == None
  {
    ghost var h0 := message.headers;
    if req.to.Some? && 0 < |req.to.value| {
      message.SetRecipients(RecipientType.To, req.to.value);
    }
    ghost var h1 := message.headers;
    assert h1 == PutAddressList(h0, ToHeader, req.to);
    if req.cc.Some? && 0 < |req.cc.value| {
      message.SetRecipients(RecipientType.Cc, req.cc.value);
    }
    ghost var h2 := message.headers;
    assert h2 == PutAddressList(h1, CcHeader, req.cc);
    if req.bcc.Some? && 0 < |req.bcc.value| {
      message.SetRecipients(RecipientType.Bcc, req.bcc.value);
    }
    ghost var h3 := message.headers;
    assert h3 == PutAddressList(h2, BccHeader, req.bcc);
    if req.replyTo.Some? && 0 < |req.replyTo.value| {
      message.SetReplyTo(req.replyTo.value);
    }
    assert message.headers == PutAddressList(h3, ReplyToHeader, req.replyTo);
    message.SetFrom(req.from);
    encodedSubject := message.SetSubject(lib, req.subject.value, req.charset);
    if encodedSubject.Encoded? {
      message.SetText(req.text.value, req.charset);
    }
  }
}
