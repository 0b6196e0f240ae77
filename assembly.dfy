/** The outbound message and the steps that fill it in: the part of `send`
    between the session properties and saveChanges. */
module Assembly {
  import opened Results
  import opened ScriptValues
  import opened Addresses

  const SmtpHostKey := "mail.smtp.host"
  const SmtpPortKey := "mail.smtp.port"
  const SmtpFromKey := "mail.smtp.from"

  const ToHeader := "To"
  const CcHeader := "Cc"
  const BccHeader := "Bcc"
  const ReplyToHeader := "Reply-To"
  const FromHeader := "From"
  const SubjectHeader := "Subject"

  /** Message.RecipientType */
  datatype RecipientType = To | Cc | Bcc {
    function HeaderName(): string {
      match this
      case To => ToHeader
      case Cc => CcHeader
      case Bcc => BccHeader
    }
  }

  /** The value of a header field: a list of mailboxes or plain text. */
  datatype HeaderValue = AddressList(mailboxes: seq<Mailbox>) | Text(text: string)

  /** The message text together with the charset it is declared in. */
  datatype Body = Body(text: string, charset: string)

  /** The message as assembled, before saveChanges adds the headers it
      derives (MIME-Version, Message-ID, content headers): the session
      properties, the header fields (keyed by folded name) and the body. */
  datatype Outbound = Outbound(session: map<string, string>, headers: map<string, HeaderValue>, body: Body)

  function LowerChar(c: char): char {
    if 'A' <= c <= 'Z' then (c as int + 32) as char else c
  }

  /** Header names match without regard to (ASCII) case. */
  function Fold(name: string): (r: string)
    ensures |r| == |name|
  {
    seq(|name|, i requires 0 <= i < |name| => LowerChar(name[i]))
  }

  /** The six header fields the extension itself sets are six different fields. */
  lemma SystemHeaderNamesDistinct()
    ensures var names := [Fold(ToHeader), Fold(CcHeader), Fold(BccHeader),
                          Fold(ReplyToHeader), Fold(FromHeader), Fold(SubjectHeader)];
            forall i, j :: 0 <= i < j < |names| ==> names[i] != names[j]
  {
    assert Fold(ToHeader)[0] == 't';
    assert Fold(CcHeader)[0] == 'c';
  }

  /** A mutable MIME message, reduced to its header fields and its content. */
  class MimeMessage {
    var headers: map<string, HeaderValue>
    var content: Option<Body>

    constructor ()
      ensures headers == map[] && content == None
    {
      headers := map[];
      content := None;
    }

    /** setHeader: replaces every field of that name, or adds one. */
    method SetHeader(name: string, value: HeaderValue)
      modifies this
      ensures headers == old(headers)[Fold(name) := value]
      ensures content == old(content)
    {
      headers := headers[Fold(name) := value];
    }

    method RemoveHeader(name: string)
      modifies this
      ensures headers == old(headers) - {Fold(name)}
      ensures content == old(content)
    {
      headers := headers - {Fold(name)};
    }

    /** setRecipients: an empty list removes the field. */
    method SetRecipients(kind: RecipientType, mailboxes: seq<Mailbox>)
      modifies this
      ensures headers == if mailboxes == [] then old(headers) - {Fold(kind.HeaderName())}
                         else old(headers)[Fold(kind.HeaderName()) := AddressList(mailboxes)]
      ensures content == old(content)
    {
      if mailboxes == [] {
        RemoveHeader(kind.HeaderName());
      } else {
        SetHeader(kind.HeaderName(), AddressList(mailboxes));
      }
    }

    /** setReplyTo: an empty list removes the field. */
    method SetReplyTo(mailboxes: seq<Mailbox>)
      modifies this
      ensures headers == if mailboxes == [] then old(headers) - {Fold(ReplyToHeader)}
                         else old(headers)[Fold(ReplyToHeader) := AddressList(mailboxes)]
      ensures content == old(content)
    {
      if mailboxes == [] {
        RemoveHeader(ReplyToHeader);
      } else {
        SetHeader(ReplyToHeader, AddressList(mailboxes));
      }
    }

    /** setFrom: a null address removes the field. */
    method SetFrom(from: Option<Mailbox>)
      modifies this
      ensures headers == if from.None? then old(headers) - {Fold(FromHeader)}
                         else old(headers)[Fold(FromHeader) := AddressList([from.value])]
      ensures content == old(content)
    {
      if from.None? {
        RemoveHeader(FromHeader);
      } else {
        SetHeader(FromHeader, AddressList([from.value]));
      }
    }

    /** setSubject(subject, charset): the subject is encoded first; when the
        charset cannot encode it nothing changes and the failure is returned. */
    method SetSubject(lib: MailLib, subject: string, charset: string) returns (e: Encoding)
      modifies this
      ensures e == lib.encode(subject, charset)
      ensures headers == if e.Unsupported? then old(headers)
                         else old(headers)[Fold(SubjectHeader) := Text(e.text)]
      ensures content == old(content)
    {
      e := lib.encode(subject, charset);
      if e.Encoded? {
        SetHeader(SubjectHeader, Text(e.text));
      }
    }

    /** setText(text, charset) */
    method SetText(text: string, charset: string)
      modifies this
      ensures headers == old(headers)
      ensures content == Some(Body(text, charset))
    {
      content := Some(Body(text, charset));
    }
  }

  /** A recipient-type field is set only for a non-empty list. */
  function PutAddressList(h: map<string, HeaderValue>, name: string, list: Option<seq<Mailbox>>): map<string, HeaderValue> {
    if list.Some? && 0 < |list.value| then h[Fold(name) := AddressList(list.value)] else h
  }

  /** The address fields the extension sets, in order: the recipient lists,
      reply-to and the sender. */
  function AddressHeaders(to: Option<seq<Mailbox>>, cc: Option<seq<Mailbox>>, bcc: Option<seq<Mailbox>>,
                          replyTo: Option<seq<Mailbox>>, from: Mailbox): map<string, HeaderValue>
  {
    var h := PutAddressList(map[], ToHeader, to);
    var h := PutAddressList(h, CcHeader, cc);
    var h := PutAddressList(h, BccHeader, bcc);
    var h := PutAddressList(h, ReplyToHeader, replyTo);
    h[Fold(FromHeader) := AddressList([from])]
  }

  /** The header fields the extension sets before the custom headers: the
      address fields, then the encoded subject. */
  function SystemHeaders(to: Option<seq<Mailbox>>, cc: Option<seq<Mailbox>>, bcc: Option<seq<Mailbox>>,
                         replyTo: Option<seq<Mailbox>>, from: Mailbox, subjectText: string): map<string, HeaderValue>
  {
    AddressHeaders(to, cc, bcc, replyTo, from)[Fold(SubjectHeader) := Text(subjectText)]
  }

  /** What the system headers hold: each address list exactly when it is
      non-empty, the sender and the encoded subject always, and nothing else. */
  lemma SystemHeadersFields(to: Option<seq<Mailbox>>, cc: Option<seq<Mailbox>>, bcc: Option<seq<Mailbox>>,
                            replyTo: Option<seq<Mailbox>>, from: Mailbox, subjectText: string)
    ensures var h := SystemHeaders(to, cc, bcc, replyTo, from, subjectText);
            && (Fold(ToHeader) in h <==> to.Some? && to.value != [])
            && (Fold(ToHeader) in h ==> h[Fold(ToHeader)] == AddressList(to.value))
    ensures var h := SystemHeaders(to, cc, bcc, replyTo, from, subjectText);
            && (Fold(CcHeader) in h <==> cc.Some? && cc.value != [])
            && (Fold(CcHeader) in h ==> h[Fold(CcHeader)] == AddressList(cc.value))
    ensures var h := SystemHeaders(to, cc, bcc, replyTo, from, subjectText);
            && (Fold(BccHeader) in h <==> bcc.Some? && bcc.value != [])
            && (Fold(BccHeader) in h ==> h[Fold(BccHeader)] == AddressList(bcc.value))
    ensures var h := SystemHeaders(to, cc, bcc, replyTo, from, subjectText);
            && (Fold(ReplyToHeader) in h <==> replyTo.Some? && replyTo.value != [])
            && (Fold(ReplyToHeader) in h ==> h[Fold(ReplyToHeader)] == AddressList(replyTo.value))
    ensures var h := SystemHeaders(to, cc, bcc, replyTo, from, subjectText);
            && Fold(FromHeader) in h && h[Fold(FromHeader)] == AddressList([from])
            && Fold(SubjectHeader) in h && h[Fold(SubjectHeader)] == Text(subjectText)
    ensures SystemHeaders(to, cc, bcc, replyTo, from, subjectText).Keys <=
              {Fold(ToHeader), Fold(CcHeader), Fold(BccHeader), Fold(ReplyToHeader), Fold(FromHeader), Fold(SubjectHeader)}
  {
    SystemHeaderNamesDistinct();
    var to', cc', bcc', replyTo', from', subject' :=
      Fold(ToHeader), Fold(CcHeader), Fold(BccHeader), Fold(ReplyToHeader), Fold(FromHeader), Fold(SubjectHeader);
    var names := [to', cc', bcc', replyTo', from', subject'];
    assert names[0] != names[1] && names[0] != names[2] && names[0] != names[3] && names[0] != names[4] && names[0] != names[5];
    assert names[1] != names[2] && names[1] != names[3] && names[1] != names[4] && names[1] != names[5];
    assert names[2] != names[3] && names[2] != names[4] && names[2] != names[5];
    assert names[3] != names[4] && names[3] != names[5] && names[4] != names[5];
  }

  /** The text a custom header value is written as (its `toString`). */
  function HeaderText(lib: MailLib, v: Value): string {
    match v
    case Str(s) => s
    case Other(t) => t
    case _ => lib.scriptText(v)
  }

  /** A custom-header entry is applied unless its value, as the Map view of
      the object returns it, is null: a null or an undefined value is skipped.
      Keys of script objects are never null, so the key test of the loop never
      fires. */
  predicate Applied(e: Field) {
    !JavaView(e.value).Null?
  }

  /** The custom headers applied, in order, on top of `h`. */
  function ApplyCustomHeaders(lib: MailLib, h: map<string, HeaderValue>, entries: seq<Field>): map<string, HeaderValue>
    decreases |entries|
  {
    if |entries| == 0 then h
    else
      var before := ApplyCustomHeaders(lib, h, entries[..|entries| - 1]);
      var e := entries[|entries| - 1];
      if Applied(e) then before[Fold(e.key) := Text(HeaderText(lib, e.value))] else before
  }

  /** The last applied custom header of a given name decides that field,
      whatever the system (or an earlier custom header) had put there. */
  lemma {:induction false} CustomHeaderLastWins(lib: MailLib, h: map<string, HeaderValue>, entries: seq<Field>, k: int)
    requires 0 <= k < |entries| && Applied(entries[k])
    requires forall j :: k < j < |entries| && Applied(entries[j]) ==> Fold(entries[j].key) != Fold(entries[k].key)
    ensures Fold(entries[k].key) in ApplyCustomHeaders(lib, h, entries)
    ensures ApplyCustomHeaders(lib, h, entries)[Fold(entries[k].key)] == Text(HeaderText(lib, entries[k].value))
  {
    var last := |entries| - 1;
    if k < last {
      var init := entries[..last];
      assert forall j :: k < j < |init| ==> init[j] == entries[j];
      CustomHeaderLastWins(lib, h, init, k);
    }
  }

  /** A field that no applied custom header names keeps its system value, and
      is present exactly when the system set it. */
  lemma {:induction false} CustomHeaderUntouched(lib: MailLib, h: map<string, HeaderValue>, entries: seq<Field>, name: string)
    requires forall j :: 0 <= j < |entries| && Applied(entries[j]) ==> Fold(entries[j].key) != name
    ensures name in ApplyCustomHeaders(lib, h, entries) <==> name in h
    ensures name in h ==> ApplyCustomHeaders(lib, h, entries)[name] == h[name]
  {
    if |entries| > 0 {
      var init := entries[..|entries| - 1];
      assert forall j :: 0 <= j < |init| ==> init[j] == entries[j];
      CustomHeaderUntouched(lib, h, init, name);
    }
  }

  /** The session properties: host and port always, the envelope sender only
      when a non-empty `envelope-from` was given. */
  function SessionProperties(host: string, port: string, envelopeFrom: Option<string>): map<string, string>
  {
    var p := map[SmtpHostKey := host, SmtpPortKey := port];
    if envelopeFrom.Some? && envelopeFrom.value != "" then p[SmtpFromKey := envelopeFrom.value] else p
  }
}
