/**
 * `getErrorMessage` of App.tsx: turns whatever a failed request threw into one
 * of eight fixed sentences, by testing the lower-cased message against a list
 * of patterns in order; the first rule that fires decides.
 */
module ErrorMessages {
  import opened JsString

  /** What a `catch` clause receives: an `Error` carrying a message, or any other thrown value. */
  datatype Thrown = ErrorObj(message: string) | NonError

  const AuthMessage := "Authentication Error: The provided API key is not valid. Please ensure it is configured correctly."
  const QuotaMessage := "Quota Exceeded: You have exceeded your API usage limit. Please check your plan and billing details."
  const BlockedMessage := "Content Blocked: The model's response was blocked due to safety settings. This may be due to the video content or your prompt."
  const TimeoutMessage := "Request Timeout: The request took too long to process. Please try again."
  const ExhaustedMessage := "Resource Exhausted: You have exceeded your API quota. Please check your account limits."
  const ApiMessage := "API Error: An issue occurred while communicating with the AI service. Please try again later."
  const UnexpectedMessage := "An unexpected error occurred. Please check the console for more details."
  const UnknownMessage := "An unknown error occurred."

  /** Every sentence the classifier can produce. */
  const Sentences: seq<string> :=
    [AuthMessage, QuotaMessage, BlockedMessage, TimeoutMessage, ExhaustedMessage, ApiMessage,
     UnexpectedMessage, UnknownMessage]

  /**
   * The classifier as it is written: `toLowerCase`, then a chain of `includes`
   * tests; an `Error` that no test recognises gets the generic sentence, any
   * other thrown value the "unknown" one.
   */
  function GetErrorMessage(e: Thrown): (r: string)
    ensures r in Sentences
    ensures r == UnknownMessage <==> e.NonError?
    ensures e.ErrorObj? ==> r == FirstFiring(ToLowerAscii(e.message), 0)
  {
    match e
    case NonError => UnknownMessage
    case ErrorObj(m) =>
      var message := ToLowerAscii(m);
      var r :=
        if Includes(message, "api key not valid") then AuthMessage
        else if Includes(message, "quota") then QuotaMessage
        else if Includes(message, "blocked") && Includes(message, "safety") then BlockedMessage
        else if Includes(message, "timed out") || Includes(message, "deadline_exceeded") then TimeoutMessage
        else if Includes(message, "resource has been exhausted") then ExhaustedMessage
        else if Includes(message, "google.api") then ApiMessage
        else UnexpectedMessage;
      TableAgrees(message);
      r
  }

  // ---------------------------------------------------------------------------
  // The same classification as a table of rules read top to bottom.
  // ---------------------------------------------------------------------------

  /** A rule fires when all patterns of one of its groups occur in the lower-cased message. */
  datatype Rule = Rule(groups: seq<seq<string>>, sentence: string)

  predicate Fires(rule: Rule, lowered: string) {
    exists g :: 0 <= g < |rule.groups| && forall p :: 0 <= p < |rule.groups[g]| ==> Includes(lowered, rule.groups[g][p])
  }

  const Rules: seq<Rule> := [
    Rule([["api key not valid"]], AuthMessage),
    Rule([["quota"]], QuotaMessage),
    Rule([["blocked", "safety"]], BlockedMessage),
    Rule([["timed out"], ["deadline_exceeded"]], TimeoutMessage),
    Rule([["resource has been exhausted"]], ExhaustedMessage),
    Rule([["google.api"]], ApiMessage)
  ]

  /** The sentence of the first rule from `i` on that fires, else the generic sentence. */
  function FirstFiring(lowered: string, i: nat): (r: string)
    requires i <= |Rules|
    ensures r == UnexpectedMessage <==> forall j :: i <= j < |Rules| ==> !Fires(Rules[j], lowered)
    ensures forall j :: i <= j < |Rules| && Fires(Rules[j], lowered)
                        && (forall j' :: i <= j' < j ==> !Fires(Rules[j'], lowered))
                        ==> r == Rules[j].sentence
    decreases |Rules| - i
  {
    if i == |Rules| then UnexpectedMessage
    else if Fires(Rules[i], lowered) then Rules[i].sentence
    else FirstFiring(lowered, i + 1)
  }

  /** The `if` chain and the rule table agree. */
  lemma TableAgrees(message: string)
    ensures FirstFiring(message, 0) ==
      if Includes(message, "api key not valid") then AuthMessage
      else if Includes(message, "quota") then QuotaMessage
      else if Includes(message, "blocked") && Includes(message, "safety") then BlockedMessage
      else if Includes(message, "timed out") || Includes(message, "deadline_exceeded") then TimeoutMessage
      else if Includes(message, "resource has been exhausted") then ExhaustedMessage
      else if Includes(message, "google.api") then ApiMessage
      else UnexpectedMessage
  {
    FiresOne(Rules[0], message);
    FiresOne(Rules[1], message);
    assert Fires(Rules[2], message) <==> Includes(message, "blocked") && Includes(message, "safety") by {
      var g := Rules[2].groups[0];
      assert |Rules[2].groups| == 1 && |g| == 2 && g[0] == "blocked" && g[1] == "safety";
    }
    assert Fires(Rules[3], message) <==> Includes(message, "timed out") || Includes(message, "deadline_exceeded") by {
      var gs := Rules[3].groups;
      assert |gs| == 2 && gs[0] == ["timed out"] && gs[1] == ["deadline_exceeded"];
      assert |gs[0]| == 1 && |gs[1]| == 1;
      assert Includes(message, "timed out") ==> forall p :: 0 <= p < |gs[0]| ==> Includes(message, gs[0][p]);
      assert Includes(message, "deadline_exceeded") ==> forall p :: 0 <= p < |gs[1]| ==> Includes(message, gs[1][p]);
      if Fires(Rules[3], message) {
        var g :| 0 <= g < |gs| && forall p :: 0 <= p < |gs[g]| ==> Includes(message, gs[g][p]);
        assert Includes(message, gs[g][0]);
      }
    }
    FiresOne(Rules[4], message);
    FiresOne(Rules[5], message);
  }

  /** A rule with a single one-pattern group fires exactly when that pattern occurs. */
  lemma FiresOne(rule: Rule, lowered: string)
    requires |rule.groups| == 1 && |rule.groups[0]| == 1
    ensures Fires(rule, lowered) <==> Includes(lowered, rule.groups[0][0])
  {
    if Includes(lowered, rule.groups[0][0]) {
      assert forall p :: 0 <= p < |rule.groups[0]| ==> Includes(lowered, rule.groups[0][p]);
    }
  }

  // ---------------------------------------------------------------------------
  // Properties of the classification.
  // ---------------------------------------------------------------------------

  /** The eight sentences are pairwise different, so a sentence tells which rule decided. */
  lemma SentencesDistinct()
    ensures forall i, j :: 0 <= i < j < |Sentences| ==> Sentences[i] != Sentences[j]
  {
    // The lengths differ, except for the timeout and generic sentences ("again." against "details.").
    assert TimeoutMessage[70] == 'n' && UnexpectedMessage[70] == 's';
  }

  /**
   * Exactly when each sentence is chosen, for a thrown `Error` whose message
   * lower-cases to `lowered`: the rule's own patterns occur and no earlier
   * rule's do. An earlier rule therefore shadows a later one ("quota" before
   * "resource has been exhausted", "api key not valid" before everything).
   */
  lemma Classification(m: string)
    ensures var lowered := ToLowerAscii(m);
      var api := Includes(lowered, "api key not valid");
      var quota := Includes(lowered, "quota");
      var blocked := Includes(lowered, "blocked") && Includes(lowered, "safety");
      var timeout := Includes(lowered, "timed out") || Includes(lowered, "deadline_exceeded");
      var exhausted := Includes(lowered, "resource has been exhausted");
      var google := Includes(lowered, "google.api");
      var r := GetErrorMessage(ErrorObj(m));
      && (r == AuthMessage <==> api)
      && (r == QuotaMessage <==> !api && quota)
      && (r == BlockedMessage <==> !api && !quota && blocked)
      && (r == TimeoutMessage <==> !api && !quota && !blocked && timeout)
      && (r == ExhaustedMessage <==> !api && !quota && !blocked && !timeout && exhausted)
      && (r == ApiMessage <==> !api && !quota && !blocked && !timeout && !exhausted && google)
      && (r == UnexpectedMessage <==> !api && !quota && !blocked && !timeout && !exhausted && !google)
  {
    SentencesDistinct();
    TableAgrees(ToLowerAscii(m));
  }

  /** Only the ASCII case of the message matters: two messages that differ in case classify alike. */
  lemma CaseInsensitive(a: string, b: string)
    requires SameIgnoringCase(a, b)
    ensures GetErrorMessage(ErrorObj(a)) == GetErrorMessage(ErrorObj(b))
  {
    LowerOfCaseVariants(a, b);
  }

  /** A message opening with the service's reply to a rejected key is reported as an authentication error. */
  lemma InvalidKeyExample(rest: string)
    ensures GetErrorMessage(ErrorObj("API key not valid" + rest)) == AuthMessage
  {
    IncludesLowered("API key not valid" + rest, "api key not valid", 0);
  }

  /**
   * The service's rate-limit reply mentions "quota" as well as the exhausted
   * resource, so the earlier quota rule decides.
   */
  lemma ExhaustedWithQuotaExample()
    ensures GetErrorMessage(ErrorObj("Resource has been exhausted " + "(e.g. check quota).")) == QuotaMessage
  {
    var m := "Resource has been exhausted " + "(e.g. check quota).";
    MentionsQuota();
    LacksKeyPhrase();
    Classification(m);
  }

  lemma MentionsQuota()
    ensures Includes(ToLowerAscii("Resource has been exhausted " + "(e.g. check quota)."), "quota")
  {
    IncludesLowered("Resource has been exhausted " + "(e.g. check quota).", "quota", 40);
  }

  lemma LacksKeyPhrase()
    ensures !Includes(ToLowerAscii("Resource has been exhausted " + "(e.g. check quota)."), "api key not valid")
  {
    var head, tail := "Resource has been exhausted ", "(e.g. check quota).";
    assert 'y' !in head && 'Y' !in head;
    assert 'y' !in tail && 'Y' !in tail;
    AbsentLowered(head + tail, "api key not valid", 6);
  }
}
