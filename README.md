# MailSender extension: request checking and message assembly

This project models the `send` operation of the Personium engine's MailSender
extension (`Ext_MailSender`). A server-side script calls `send` with a
request object (recipients, sender, subject, body, charset, envelope sender,
custom headers). The extension then does the following, in order:

- checks its SMTP configuration;
- reads the request field by field, resolving every address in the request's charset;
- applies seven policy rules in a fixed order;
- builds the session properties and the MIME message for the SMTP transport.

The model stops where the message would be handed to the transport.

The modules follow the structure of the Java class:

- `ScriptValues`: the script value a request is made of. It is `Null`, `Undefined`, a string, an array, an object (entries in order) or any other value. `JavaView` is what the `java.util.List`/`java.util.Map` views of arrays and objects return: `undefined` comes out as Java null there.
- `Extraction`: `retrieveObjectAs` and `castTo`. Each is a function returning a `Result` that says "absent", "present and of the required kind", or gives the exact diagnostic.
- `Addresses`: `parseJsonAsInternetAddress` and `getInternetAddresses`. The second is both a function on values and the imperative loop of the source, proved equal to the function.
  - The address parser of the mail library and the charset encoder are parameters (`MailLib`). They are never re-implemented.
- `Validation`: `validateRequests`, modelled in two forms proved equal:
  - as an ordered list of rules, where the first violated rule decides;
  - as the source's imperative counting method.
- `Assembly`: the message under construction. `MimeMessage` is a class whose setters change its header map and its content, plus the custom-header rule.
- `MailSender`: the extension object. Its `smtpHost`/`smtpPort` are fixed by the constructor. `Send` reads the request field by field as the source does. It calls the `getInternetAddresses` loop for each address list and is proved equal to the value-level `Prepare`. The stage lemmas (`ReadStopsAtList` and the others) state where reading stops.
- `SendProperties`: lemmas about `send` as a whole. They cover:
  - the order of the checks;
  - the charset default;
  - which address check fails `send`, for any list, any element and the sender;
  - what the assembled message holds before `saveChanges`;
  - that custom headers override system headers.

A failure is a `Failure` value:
- `ScriptError(message)` is the script-visible error the extension throws. The extension's own messages are given exactly. The text after "Cause: [" in the invalid-content message is the caught exception's message, and the model takes it as opaque text.
- `Uncaught(exception)` is a Java exception that escapes the extension.

## Model

| member | source | states |
|---|---|---|
| ScriptValues.Lookup | src/main/java/io/personium/engine/extension/mailsender/Ext_MailSender.java:343-344 | a property read finds nothing exactly when no entry has the key; otherwise the value of an entry with that key |
| ScriptValues.JavaView | src/main/java/io/personium/engine/extension/mailsender/Ext_MailSender.java:304 | through the List and Map views, `undefined` (and an array hole) reads as Java null and every other value as itself |
| Extraction.RetrieveObjectAs | src/main/java/io/personium/engine/extension/mailsender/Ext_MailSender.java:341-355 | absent exactly for a non-empty key whose property is missing or null; a present result has the required kind and is the property's value; an error exactly for an empty key or a wrong-kind value (`undefined` included), and the error is the key-naming type-mismatch message |
| Extraction.MismatchMessageNamesKey | src/main/java/io/personium/engine/extension/mailsender/Ext_MailSender.java:351-352 | the type-mismatch diagnostic contains the offending key |
| Extraction.CastTo | src/main/java/io/personium/engine/extension/mailsender/Ext_MailSender.java:357-369 | null or missing stays absent; a value of the required kind passes unchanged; anything else fails with the message naming the required Java class |
| Addresses.MailboxFor | src/main/java/io/personium/engine/extension/mailsender/Ext_MailSender.java:318-337 | a missing or empty address fails with the missing-address message before any parsing; an address the parser rejects fails with "Invalid mail address is detected."; on success the parsed address, with the display name attached (encoded in the charset) exactly when the name is non-empty; the only other failure is an unencodable name, with its own message |
| Addresses.ParseAddressRecord | src/main/java/io/personium/engine/extension/mailsender/Ext_MailSender.java:313-336 | a non-string `address` or `name` fails with the cast message for java.lang.String, before the address checks; with both fields strings or absent, a missing, null or empty address fails with the missing-address message and one the parser rejects with the invalid-address message; success needs a non-empty address the parser accepts |
| Addresses.ResolveElementCases | src/main/java/io/personium/engine/extension/mailsender/Ext_MailSender.java:304-305 | `ResolveElement`, one list element: a null or undefined element escapes as a NullPointerException; a record is parsed as an address; any other element fails the cast to NativeObject |
| Addresses.ResolveAll | src/main/java/io/personium/engine/extension/mailsender/Ext_MailSender.java:302-310 | the list resolves exactly when every element does; the result then has the input's length and holds each element's address at the element's position |
| Addresses.ResolveAllFirstError | src/main/java/io/personium/engine/extension/mailsender/Ext_MailSender.java:303-305 | when the first failing element is at position k, the whole list fails with that element's error |
| Addresses.InternetAddresses | src/main/java/io/personium/engine/extension/mailsender/Ext_MailSender.java:297-311 | an absent or empty list gives no array (Java null); a non-empty list gives an array exactly when every element resolves, of the same length and in the same order |
| Addresses.GetInternetAddresses | src/main/java/io/personium/engine/extension/mailsender/Ext_MailSender.java:297-311 | the append loop computes the list resolution, stopping at the first failing element |
| Validation.FirstViolation | src/main/java/io/personium/engine/extension/mailsender/Ext_MailSender.java:257-294 | passes exactly when every rule holds; otherwise fails with the message of a rule that is violated while every earlier one holds |
| Validation.FirstViolationAt | src/main/java/io/personium/engine/extension/mailsender/Ext_MailSender.java:257-294 | the first violated rule decides the failure message |
| Validation.ValidateFailsAt | src/main/java/io/personium/engine/extension/mailsender/Ext_MailSender.java:247-294 | `Validate` on the source's ordered `Rules`: validation of a request fails with the message of its first violated rule |
| Validation.ValidateRecipientRules | src/main/java/io/personium/engine/extension/mailsender/Ext_MailSender.java:247-266 | the recipient count is \|to\|+\|cc\|+\|bcc\| with absent lists as 0; above 50 fails with the limit message whatever else is wrong, and 0 fails with the no-recipients message |
| Validation.ValidateReplyToRules | src/main/java/io/personium/engine/extension/mailsender/Ext_MailSender.java:268-277 | once the recipient count is acceptable, an absent or empty reply-to list fails, and more than 50 reply-to addresses fail, each with its own message |
| Validation.ValidateRequiredFields | src/main/java/io/personium/engine/extension/mailsender/Ext_MailSender.java:279-294 | once recipients and reply-to are acceptable: missing sender, then empty subject, then empty body, each with its own message; otherwise validation passes |
| Validation.ValidateRequests | src/main/java/io/personium/engine/extension/mailsender/Ext_MailSender.java:235-295 | the imperative check, which accumulates the address count, gives the ordered-rule verdict |
| Validation.ValidatePassesIff | src/main/java/io/personium/engine/extension/mailsender/Ext_MailSender.java:247-294 | `Validate` passes exactly when 1 to 50 recipients, 1 to 50 reply-to addresses, a sender, a non-empty subject and a non-empty body are all present (so exactly 50 recipients pass) |
| Assembly.SystemHeaderNamesDistinct | src/main/java/io/personium/engine/extension/mailsender/Ext_MailSender.java:169-188 | To, Cc, Bcc, Reply-To, From and Subject are six different fields even without regard to case |
| Assembly.MimeMessage.constructor | src/main/java/io/personium/engine/extension/mailsender/Ext_MailSender.java:165 | a new message has no header fields and no content |
| Assembly.MimeMessage.SetHeader | src/main/java/io/personium/engine/extension/mailsender/Ext_MailSender.java:200 | the field of that name (case-insensitively) is replaced or added; nothing else changes |
| Assembly.MimeMessage.SetRecipients | src/main/java/io/personium/engine/extension/mailsender/Ext_MailSender.java:169-179 | the To/Cc/Bcc field holds the list; nothing else changes (the removal for an empty list is library behaviour that send never reaches) |
| Assembly.MimeMessage.SetReplyTo | src/main/java/io/personium/engine/extension/mailsender/Ext_MailSender.java:181-183 | the Reply-To field holds the list; nothing else changes (the removal for an empty list is never reached by send) |
| Assembly.MimeMessage.SetFrom | src/main/java/io/personium/engine/extension/mailsender/Ext_MailSender.java:186 | the From field holds the sender (the removal for a null sender is never reached by send, whose validation demands a sender) |
| Assembly.MimeMessage.SetSubject | src/main/java/io/personium/engine/extension/mailsender/Ext_MailSender.java:188 | the Subject field holds the subject encoded in the charset; an unencodable subject leaves the message unchanged and reports the failure |
| Assembly.MimeMessage.SetText | src/main/java/io/personium/engine/extension/mailsender/Ext_MailSender.java:191 | the content becomes the body in the charset; the header fields are unchanged |
| Assembly.SystemHeadersFields | src/main/java/io/personium/engine/extension/mailsender/Ext_MailSender.java:169-188 | `SystemHeaders`: each of To, Cc, Bcc and Reply-To is present exactly when its list is non-empty and then holds that list; From holds the sender; Subject holds the encoded subject; no other field is set |
| Assembly.CustomHeaderLastWins | src/main/java/io/personium/engine/extension/mailsender/Ext_MailSender.java:195-202 | `ApplyCustomHeaders`: a custom header whose value is not null or undefined, and that no later applied header names, decides its field over whatever was there before, with the value's text (`HeaderText`: a string as itself, any other value as its `toString`) |
| Assembly.CustomHeaderUntouched | src/main/java/io/personium/engine/extension/mailsender/Ext_MailSender.java:195-202 | `ApplyCustomHeaders`: a field no applied custom header names keeps its presence and its value |
| MailSender.ReadStopsAtList | src/main/java/io/personium/engine/extension/mailsender/Ext_MailSender.java:124-134 | `ReadRequest` after the charset: reading stops at the first of to, cc, bcc, reply-to that cannot be read or resolved, with that list's error |
| MailSender.ReadStopsAtFrom | src/main/java/io/personium/engine/extension/mailsender/Ext_MailSender.java:136-140 | with the four lists read, reading stops at a sender that cannot be read or parsed, with its error |
| MailSender.ReadStopsAtText | src/main/java/io/personium/engine/extension/mailsender/Ext_MailSender.java:142-144 | with the lists and the sender read, reading stops at the first of subject, text, envelope-from that is not a string |
| MailSender.ReadStopsAtHeaders | src/main/java/io/personium/engine/extension/mailsender/Ext_MailSender.java:147 | with everything else read, a `headers` field that is not an object ends reading with its error |
| MailSender.ReadCompletes | src/main/java/io/personium/engine/extension/mailsender/Ext_MailSender.java:118-147 | when every field reads, the request holds each field's value, every address resolved in the request's charset |
| MailSender.ReadRequestAfterCharset | src/main/java/io/personium/engine/extension/mailsender/Ext_MailSender.java:119-122 | after a readable charset field, the rest is read in `EffectiveCharset` of it |
| MailSender.PrepareStopsAtList | src/main/java/io/personium/engine/extension/mailsender/Ext_MailSender.java:124-134 | a list that fails to read or resolve, after the earlier lists were read, is the failure `send` reports |
| MailSender.PrepareStopsAtRest | src/main/java/io/personium/engine/extension/mailsender/Ext_MailSender.java:124-149 | any reading failure after the charset is the failure `send` reports, before validation |
| MailSender.MailSenderExtension.constructor | src/main/java/io/personium/engine/extension/mailsender/Ext_MailSender.java:76-85 | the host setting is kept as given; a missing port setting becomes port 25 |
| MailSender.MailSenderExtension.Send | src/main/java/io/personium/engine/extension/mailsender/Ext_MailSender.java:104-206 | the step-by-step operation, reading the request field by field, produces exactly the value-level outcome `Prepare`: checks, reading, validation and assembly, in the source's order |
| MailSender.RetrieveAddresses | src/main/java/io/personium/engine/extension/mailsender/Ext_MailSender.java:124-134 | one recipient field: a property of another type fails with the key-naming mismatch message; an absent, null or empty array gives no list; otherwise the list succeeds exactly when every element resolves and then holds one address per element, in order |
| MailSender.ValidateAndBuild | src/main/java/io/personium/engine/extension/mailsender/Ext_MailSender.java:149-206 | after a clean read, the policy check and then the assembly give the value-level outcome |
| MailSender.BuildMessage | src/main/java/io/personium/engine/extension/mailsender/Ext_MailSender.java:152-206 | the session properties and the message filled in step by step equal the value-level `Assemble`, including the invalid-content error for an unencodable subject |
| MailSender.SetCustomHeaders | src/main/java/io/personium/engine/extension/mailsender/Ext_MailSender.java:195-202 | the loop applies the entries in order, skipping null and undefined values; the content is untouched |
| MailSender.SetStandardFields | src/main/java/io/personium/engine/extension/mailsender/Ext_MailSender.java:165-191 | starting from an empty message, the headers become the system headers and the content the body; when the subject cannot be encoded the failure is reported, the headers are the address fields alone (no Subject) and no body is set |
| SendProperties.RequestCharset | src/main/java/io/personium/engine/extension/mailsender/Ext_MailSender.java:119-122 | `EffectiveCharset`: an absent, null or empty charset becomes ISO-2022-JP; a non-empty one is used as given |
| SendProperties.HostCheckedFirst | src/main/java/io/personium/engine/extension/mailsender/Ext_MailSender.java:106-110 | `Prepare`: a missing or empty SMTP host fails with the configuration message, whatever the request |
| SendProperties.NullRequestRejected | src/main/java/io/personium/engine/extension/mailsender/Ext_MailSender.java:112-116 | `Prepare`: with a host configured, a null request fails with the invalid-argument message |
| SendProperties.ReadFailureReported | src/main/java/io/personium/engine/extension/mailsender/Ext_MailSender.java:118-149 | `Prepare`: a failure while reading or resolving is reported before any policy rule is checked |
| SendProperties.ValidationFailureReported | src/main/java/io/personium/engine/extension/mailsender/Ext_MailSender.java:149 | `Prepare`: a request that reads cleanly but breaks a rule fails with that rule's message |
| SendProperties.PreparedIsAssembled | src/main/java/io/personium/engine/extension/mailsender/Ext_MailSender.java:149-206 | `Prepare`: a request that reads cleanly and meets every rule is assembled into a message (`Assemble`) |
| SendProperties.PreparedIff | src/main/java/io/personium/engine/extension/mailsender/Ext_MailSender.java:104-214 | `Prepare`: a request that reads cleanly reaches the transport exactly when it meets every rule and its subject can be encoded |
| SendProperties.SubjectEncodingFailure | src/main/java/io/personium/engine/extension/mailsender/Ext_MailSender.java:208-213 | an unencodable subject fails with the invalid-content message carrying the caught exception's message |
| SendProperties.AssembledSession | src/main/java/io/personium/engine/extension/mailsender/Ext_MailSender.java:152-159 | `Assemble` and `SessionProperties`: the session holds the configured host and port; it holds the envelope sender exactly when a non-empty envelope-from was given; the body is the text in the request's charset |
| SendProperties.AssembledSystemHeaders | src/main/java/io/personium/engine/extension/mailsender/Ext_MailSender.java:169-188 | `Assemble`, before `saveChanges`: for a field no custom header names, To, Cc, Bcc and Reply-To are present exactly for non-empty lists, From is the sender, Subject is the encoded subject |
| SendProperties.AssembledCustomHeader | src/main/java/io/personium/engine/extension/mailsender/Ext_MailSender.java:195-202 | `Assemble`, before `saveChanges`: the last applied custom header of a name decides that field, over the system headers |
| SendProperties.ListElementFailureReported | src/main/java/io/personium/engine/extension/mailsender/Ext_MailSender.java:124-134 | an element of any address list that fails to resolve, after the earlier lists and elements resolved, is the failure `send` reports |
| SendProperties.ListElementFailure | src/main/java/io/personium/engine/extension/mailsender/Ext_MailSender.java:302-306 | a list field whose element k is the first to fail reads as that element's error |
| SendProperties.RecipientAddressChecked | src/main/java/io/personium/engine/extension/mailsender/Ext_MailSender.java:297-336 | for any list and any element position after resolving ones: a null or undefined element fails `send` with a NullPointerException; a record without a usable address fails with the missing-address message; an address the parser rejects fails with "Invalid mail address is detected." |
| SendProperties.SenderFailure | src/main/java/io/personium/engine/extension/mailsender/Ext_MailSender.java:136-140 | a `from` record that fails to parse makes the sender fail to read with the parser's error |
| SendProperties.SenderAddressChecked | src/main/java/io/personium/engine/extension/mailsender/Ext_MailSender.java:136-140 | once the lists are read, a `from` record without a usable address fails `send` with the missing-address message, and one the parser rejects with the invalid-address message |
| SendProperties.InvalidRecipientRejected | src/main/java/io/personium/engine/extension/mailsender/Ext_MailSender.java:104-149 | the request whose only field is a `to` list with one address the parser rejects fails `send` with "Invalid mail address is detected.", although it would also fail validation (no reply-to) |

## Left out

- `Transport.send` and its two failure messages ("Message could not be sent to some recipients.", "Failed to send message."): network I/O. The model ends at the message handed to the transport.
- The RFC 822 address parser inside the mail library's `InternetAddress(address, true)` is the parameter `MailLib.parseMailbox`. Its `None` stands for the `AddressException`.
- The RFC 2047 encoding of display names and subject is the parameter `MailLib.encode`. Its `Unsupported(cause)` stands for the `UnsupportedEncodingException`. For the subject, `setSubject` wraps it in a `MessagingException`, and `cause` stands for that wrapper's message, which the model does not spell out.
- The string form of a non-string custom header value (`toString` of a script object or array) is the parameter `MailLib.scriptText`.
- `saveChanges` (line 206) is not modelled. The header map is the message before it. `saveChanges` sets MIME-Version and Message-ID, whatever was there, and updates the content headers (Content-Type, Content-Transfer-Encoding) from the body. So a custom MIME-Version or Message-ID header never reaches the transport, and a custom content header may not either. The `Date` header (`setSentDate`) and the `Session` object are also left out. The model records only the session properties, the header fields and the body with its charset.
- Assembly.MimeMessage: header fields are a map keyed by the name folded to lower case (ASCII only). The model does not keep their order or their capitalisation as written, and does not fold non-ASCII letters.
- The constructor does not read the configuration file: the host and port settings are its parameters. It does not log the missing-host warning. No logger call is modelled.
- Rhino's `NativeObject`/`NativeArray` are the `Value` tree. An array hole is written as `Undefined`. Symbols and numeric keys are not distinguished from other values and string keys.
- The custom-header loop's test for a null key never fires: keys of script objects are strings. Only the skip of a null value, which a null or undefined value gives through the Map view, is modelled.
- Assembly.MimeMessage.RemoveHeader: the library's removal of a field, used by the setters for an empty list or a null sender. These are paths `send` never takes.
