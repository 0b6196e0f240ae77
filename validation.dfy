/** The ordered request policy (validateRequests). */
module Validation {
  import opened Results
  import opened Addresses

  const MaxRecipients := 50
  const MaxReplyTo := 50

  const RecipientLimitMessage := "Number of recipients exceeds the limit(50)."
  const NoRecipientsMessage := "No mail recipients are specified in request."
  const ReplyToRequiredMessage := "At least one reply-to address is required."
  const ReplyToLimitMessage := "Number of reply-to addresses exceeds the limitation(50)"
  const FromMissingMessage := "From address is not specified."
  const EmptySubjectMessage := "Empty subject is not permitted."
  const EmptyBodyMessage := "Empty mail body is not permitted."

  /** Number of addresses in a resolved list; an absent list counts 0. */
  function Count(list: Option<seq<Mailbox>>): nat {
    if list.Some? then |list.value| else 0
  }

  function RecipientCount(to: Option<seq<Mailbox>>, cc: Option<seq<Mailbox>>, bcc: Option<seq<Mailbox>>): nat {
    Count(to) + Count(cc) + Count(bcc)
  }

  predicate NonEmpty(s: Option<string>) {
    s.Some? && s.value != ""
  }

  /** A policy rule: whether it holds and the message reported when it does not. */
  datatype Rule = Rule(holds: bool, message: string)

  /** The seven rules, in the order in which they are checked. */
  function Rules(to: Option<seq<Mailbox>>, cc: Option<seq<Mailbox>>, bcc: Option<seq<Mailbox>>,
                 replyTo: Option<seq<Mailbox>>, from: Option<Mailbox>,
                 subject: Option<string>, body: Option<string>): seq<Rule>
  {
    var n := RecipientCount(to, cc, bcc);
    [ Rule(n <= MaxRecipients, RecipientLimitMessage),
      Rule(n != 0, NoRecipientsMessage),
      Rule(Count(replyTo) != 0, ReplyToRequiredMessage),
      Rule(Count(replyTo) <= MaxReplyTo, ReplyToLimitMessage),
      Rule(from.Some?, FromMissingMessage),
      Rule(NonEmpty(subject), EmptySubjectMessage),
      Rule(NonEmpty(body), EmptyBodyMessage) ]
  }

  /** The first rule that does not hold wins. */
  function FirstViolation(rules: seq<Rule>): (r: Outcome)
    ensures r.Pass? <==> forall i :: 0 <= i < |rules| ==> rules[i].holds
    ensures r.Fail? ==> exists i :: 0 <= i < |rules| && ViolatedFirst(rules, i) &&
                                    r.error == ScriptError(rules[i].message)
  {
    if |rules| == 0 then Pass
    else if !rules[0].holds then
      assert ViolatedFirst(rules, 0);
      Fail(ScriptError(rules[0].message))
    else
      var r := FirstViolation(rules[1..]);
      assert forall i :: 1 <= i < |rules| ==> rules[i] == rules[1..][i - 1];
      if r.Fail? then
        var i :| 0 <= i < |rules[1..]| && ViolatedFirst(rules[1..], i) && r.error == ScriptError(rules[1..][i].message);
        assert ViolatedFirst(rules, i + 1);
        r
      else r
  }

  /** Rule `i` is the first rule that does not hold. */
  predicate ViolatedFirst(rules: seq<Rule>, i: int) {
    0 <= i < |rules| && !rules[i].holds && forall j :: 0 <= j < i ==> rules[j].holds
  }

  /** Whichever rule is the first one violated decides the failure. */
  lemma {:induction false} FirstViolationAt(rules: seq<Rule>, i: int)
    requires ViolatedFirst(rules, i)
    ensures FirstViolation(rules) == Fail(ScriptError(rules[i].message))
  {
    if i > 0 {
      assert forall j :: 0 <= j < i - 1 ==> rules[1..][j] == rules[j + 1];
      FirstViolationAt(rules[1..], i - 1);
    }
  }

  /** validateRequests as a value. */
  function Validate(to: Option<seq<Mailbox>>, cc: Option<seq<Mailbox>>, bcc: Option<seq<Mailbox>>,
                    replyTo: Option<seq<Mailbox>>, from: Option<Mailbox>,
                    subject: Option<string>, body: Option<string>): Outcome
  {
    FirstViolation(Rules(to, cc, bcc, replyTo, from, subject, body))
  }

  /** When rule `k` is the first one violated, Validate reports rule `k`'s message. */
  lemma ValidateFailsAt(to: Option<seq<Mailbox>>, cc: Option<seq<Mailbox>>, bcc: Option<seq<Mailbox>>,
                        replyTo: Option<seq<Mailbox>>, from: Option<Mailbox>,
                        subject: Option<string>, body: Option<string>, k: int, message: string)
    requires ViolatedFirst(Rules(to, cc, bcc, replyTo, from, subject, body), k)
    requires Rules(to, cc, bcc, replyTo, from, subject, body)[k].message == message
    ensures Validate(to, cc, bcc, replyTo, from, subject, body) == Fail(ScriptError(message))
  {
    FirstViolationAt(Rules(to, cc, bcc, replyTo, from, subject, body), k);
  }

  /** The recipient rules decide first. */
  lemma ValidateRecipientRules(to: Option<seq<Mailbox>>, cc: Option<seq<Mailbox>>, bcc: Option<seq<Mailbox>>,
                        replyTo: Option<seq<Mailbox>>, from: Option<Mailbox>,
                        subject: Option<string>, body: Option<string>)
    ensures var n := RecipientCount(to, cc, bcc);
            && (MaxRecipients < n ==> Validate(to, cc, bcc, replyTo, from, subject, body) == Fail(ScriptError(RecipientLimitMessage)))
            && (n == 0 ==> Validate(to, cc, bcc, replyTo, from, subject, body) == Fail(ScriptError(NoRecipientsMessage)))
  {
    var n := RecipientCount(to, cc, bcc);
    if MaxRecipients < n {
      ValidateFailsAt(to, cc, bcc, replyTo, from, subject, body, 0, RecipientLimitMessage);
    } else if n == 0 {
      ValidateFailsAt(to, cc, bcc, replyTo, from, subject, body, 1, NoRecipientsMessage);
    }
  }

  /** Once the recipient rules hold, the reply-to rules decide next. */
  lemma ValidateReplyToRules(to: Option<seq<Mailbox>>, cc: Option<seq<Mailbox>>, bcc: Option<seq<Mailbox>>,
                        replyTo: Option<seq<Mailbox>>, from: Option<Mailbox>,
                        subject: Option<string>, body: Option<string>)
    requires 0 < RecipientCount(to, cc, bcc) <= MaxRecipients
    ensures Count(replyTo) == 0 ==> Validate(to, cc, bcc, replyTo, from, subject, body) == Fail(ScriptError(ReplyToRequiredMessage))
    ensures MaxReplyTo < Count(replyTo) ==> Validate(to, cc, bcc, replyTo, from, subject, body) == Fail(ScriptError(ReplyToLimitMessage))
  {
    if Count(replyTo) == 0 {
      ValidateFailsAt(to, cc, bcc, replyTo, from, subject, body, 2, ReplyToRequiredMessage);
    } else if MaxReplyTo < Count(replyTo) {
      ValidateFailsAt(to, cc, bcc, replyTo, from, subject, body, 3, ReplyToLimitMessage);
    }
  }

  /** Once recipients and reply-to are acceptable, the required fields decide. */
  lemma ValidateRequiredFields(to: Option<seq<Mailbox>>, cc: Option<seq<Mailbox>>, bcc: Option<seq<Mailbox>>,
                        replyTo: Option<seq<Mailbox>>, from: Option<Mailbox>,
                        subject: Option<string>, body: Option<string>)
    requires 0 < RecipientCount(to, cc, bcc) <= MaxRecipients
    requires 0 < Count(replyTo) <= MaxReplyTo
    ensures from.None? ==> Validate(to, cc, bcc, replyTo, from, subject, body) == Fail(ScriptError(FromMissingMessage))
    ensures from.Some? && !NonEmpty(subject) ==> Validate(to, cc, bcc, replyTo, from, subject, body) == Fail(ScriptError(EmptySubjectMessage))
    ensures from.Some? && NonEmpty(subject) && !NonEmpty(body) ==>
              Validate(to, cc, bcc, replyTo, from, subject, body) == Fail(ScriptError(EmptyBodyMessage))
    ensures from.Some? && NonEmpty(subject) && NonEmpty(body) ==> Validate(to, cc, bcc, replyTo, from, subject, body) == Pass
  {
    if from.None? {
      ValidateFailsAt(to, cc, bcc, replyTo, from, subject, body, 4, FromMissingMessage);
    } else if !NonEmpty(subject) {
      ValidateFailsAt(to, cc, bcc, replyTo, from, subject, body, 5, EmptySubjectMessage);
    } else if !NonEmpty(body) {
      ValidateFailsAt(to, cc, bcc, replyTo, from, subject, body, 6, EmptyBodyMessage);
    }
  }

  /** validateRequests: accumulates the recipient count, then checks each rule in turn. */
  method ValidateRequests(to: Option<seq<Mailbox>>, cc: Option<seq<Mailbox>>, bcc: Option<seq<Mailbox>>,
                          replyTo: Option<seq<Mailbox>>, from: Option<Mailbox>,
                          subject: Option<string>, body: Option<string>) returns (r: Outcome)
    ensures r == Validate(to, cc, bcc, replyTo, from, subject, body)
  {
    ValidateRecipientRules(to, cc, bcc, replyTo, from, subject, body);
    var addressCount := 0;
    if to.Some? {
      addressCount := addressCount + |to.value|;
    }
    if cc.Some? {
      addressCount := addressCount + |cc.value|;
    }
    if bcc.Some? {
      addressCount := addressCount + |bcc.value|;
    }
    if MaxRecipients < addressCount {
      return Fail(ScriptError(RecipientLimitMessage));
    }
    if addressCount == 0 {
      return Fail(ScriptError(NoRecipientsMessage));
    }
    ValidateReplyToRules(to, cc, bcc, replyTo, from, subject, body);
    if replyTo.None? || |replyTo.value| == 0 {
      return Fail(ScriptError(ReplyToRequiredMessage));
    }
    if MaxReplyTo < |replyTo.value| {
      return Fail(ScriptError(ReplyToLimitMessage));
    }
    ValidateRequiredFields(to, cc, bcc, replyTo, from, subject, body);
    if from.None? {
      return Fail(ScriptError(FromMissingMessage));
    }
    if subject.None? || subject.value == "" {
      return Fail(ScriptError(EmptySubjectMessage));
    }
    if body.None? || body.value == "" {
      return Fail(ScriptError(EmptyBodyMessage));
    }
    r := Pass;
  }

  /** Validation succeeds exactly when all seven rules hold. */
  lemma ValidatePassesIff(to: Option<seq<Mailbox>>, cc: Option<seq<Mailbox>>, bcc: Option<seq<Mailbox>>,
                          replyTo: Option<seq<Mailbox>>, from: Option<Mailbox>,
                          subject: Option<string>, body: Option<string>)
    ensures Validate(to, cc, bcc, replyTo, from, subject, body) == Pass <==>
              && 0 < RecipientCount(to, cc, bcc) <= MaxRecipients
              && 0 < Count(replyTo) <= MaxReplyTo
              && from.Some? && NonEmpty(subject) && NonEmpty(body)
  {
    var rules := Rules(to, cc, bcc, replyTo, from, subject, body);
    assert Validate(to, cc, bcc, replyTo, from, subject, body) == Pass <==>
           forall i :: 0 <= i < |rules| ==> rules[i].holds;
    assert (forall i :: 0 <= i < |rules| ==> rules[i].holds) <==>
           rules[0].holds && rules[1].holds && rules[2].holds && rules[3].holds &&
           rules[4].holds && rules[5].holds && rules[6].holds;
  }
}
