/**
 * The first revision of the dialogue controller: an inquiry turn that
 * answers one template with a weekend note substituted in, and a feedback
 * turn that branches three ways on the classified intent.
 */
module App {
  import opened Text
  import opened Twiml
  import opened Webhook

  const Welcome := "Hello! Welcome to Wise Customer Support. How can I help you today? You can ask, for example, When will my money arrive?"
  const WeekendClause := " Please note, since it's the weekend, transfers may only be processed on the next working day."
  const Placeholder := "{weekend_note}"
  const TemplateKey := "when_money_arrives"
  const ThankYou := "I'm glad I could help! Thank you for calling Wise. Have a wonderful day!"
  const UnderstandPrefix := "I understand. "
  const NotCaughtPrefix := "I'm sorry, I didn't quite catch that. "

  type Templates = map<string, string>

  /** A day of the week as datetime.weekday() gives it: Monday is 0, Sunday is 6. */
  type Weekday = d: int | 0 <= d <= 6

  /** The greeting: listen for an inquiry, and start over when nothing is heard. */
  function Voice(): seq<Verb> {
    [Gather(InquiryRoute, map[], [Welcome]), Redirect(VoiceRoute)]
  }

  function WeekendNote(today: Weekday): string {
    if today in [5, 6] then WeekendClause else ""
  }

  /** The money-arrival template with every placeholder replaced by the weekend note. */
  function FinalResponse(responses: Templates, today: Weekday): string {
    ReplaceAll(Get(responses, TemplateKey, ""), Placeholder, WeekendNote(today))
  }

  /** The inquiry turn (handle_inquiry). */
  function InquiryTurn(responses: Templates, today: Weekday, req: Request): seq<Verb> {
    [Say(FinalResponse(responses, today)), Gather(FeedbackRoute, map[], [])]
  }

  /** The feedback turn (handle_feedback). */
  function FeedbackTurn(classify: Classifier, req: Request): seq<Verb> {
    var queryResult := classify(SessionId(req), Speech(req));
    var intent := Lower(queryResult.displayName);
    if intent == "satisfied" then
      [Say(ThankYou), Hangup]
    else if intent in ["followup", "clarification"] then
      [Say(UnderstandPrefix + queryResult.fulfillmentText), Gather(FeedbackRoute, map[], [])]
    else
      [Say(NotCaughtPrefix + queryResult.fulfillmentText), Gather(FeedbackRoute, map[], [])]
  }

  /** handle_inquiry, building the response verb by verb. */
  method HandleInquiry(responses: Templates, today: Weekday, req: Request) returns (verbs: seq<Verb>)
    ensures verbs == InquiryTurn(responses, today, req)
  {
    var resp := new VoiceResponse();
    var weekendNote := if today in [5, 6] then WeekendClause else "";
    var baseResponse := Get(responses, TemplateKey, "");
    var finalResponse := ReplaceAll(baseResponse, Placeholder, weekendNote);
    resp.Say(finalResponse);
    resp.Append(Gather(FeedbackRoute, map[], []));
    verbs := resp.verbs;
  }

  /** handle_feedback, building the response verb by verb. */
  method HandleFeedback(classify: Classifier, req: Request) returns (verbs: seq<Verb>)
    ensures verbs == FeedbackTurn(classify, req)
  {
    var resp := new VoiceResponse();
    var feedback := Speech(req);
    var sessionId := SessionId(req);
    var queryResult := classify(sessionId, feedback);
    var intentDisplayName := Lower(queryResult.displayName);
    var fulfillmentText := queryResult.fulfillmentText;
    if intentDisplayName == "satisfied" {
      resp.Say(ThankYou);
      resp.Hangup();
      assert resp.verbs == [Say(ThankYou), Hangup];
    } else if intentDisplayName in ["followup", "clarification"] {
      resp.Say(UnderstandPrefix + fulfillmentText);
      resp.Append(Gather(FeedbackRoute, map[], []));
      assert resp.verbs == [Say(UnderstandPrefix + fulfillmentText), Gather(FeedbackRoute, map[], [])];
    } else {
      resp.Say(NotCaughtPrefix + fulfillmentText);
      resp.Append(Gather(FeedbackRoute, map[], []));
      assert resp.verbs == [Say(NotCaughtPrefix + fulfillmentText), Gather(FeedbackRoute, map[], [])];
    }
    verbs := resp.verbs;
  }

  // ---------------------------------------------------------------------------
  // Properties
  // ---------------------------------------------------------------------------

  /** The weekend clause is added exactly on Saturday and Sunday. */
  lemma WeekendNoteIff(today: Weekday)
    ensures WeekendNote(today) == WeekendClause <==> today == 5 || today == 6
    ensures WeekendNote(today) == "" <==> today < 5
  {
  }

  /** The inquiry answer does not depend on what the caller said. */
  lemma InquiryIgnoresTranscript(responses: Templates, today: Weekday, req1: Request, req2: Request)
    ensures InquiryTurn(responses, today, req1) == InquiryTurn(responses, today, req2)
  {
  }

  /** An inquiry says the substituted template, then listens for feedback without hanging up. */
  lemma InquiryAwaitsFeedback(responses: Templates, today: Weekday, req: Request)
    ensures var out := InquiryTurn(responses, today, req);
      && Spoken(out) == [FinalResponse(responses, today)]
      && Hangup !in out
      && GatherCount(out) == 1
      && out[|out| - 1] == Gather(FeedbackRoute, map[], [])
      && NextState(out) == AwaitingFeedback
  {
    var out := InquiryTurn(responses, today, req);
    SpokenPair(out[0], out[1]);
    assert out[1..] == [Gather(FeedbackRoute, map[], [])];
  }

  /** Without a money-arrival template the inquiry says the empty string, on every day. */
  lemma InquiryWithoutTemplate(responses: Templates, today: Weekday, req: Request)
    requires TemplateKey !in responses
    ensures Spoken(InquiryTurn(responses, today, req)) == [""]
  {
    InquiryAwaitsFeedback(responses, today, req);
  }

  /** A template without the placeholder is said unchanged, whatever the day. */
  lemma InquiryTemplateWithoutPlaceholder(responses: Templates, today: Weekday, req: Request)
    requires TemplateKey in responses
    requires forall i :: !OccursAt(responses[TemplateKey], Placeholder, i)
    ensures Spoken(InquiryTurn(responses, today, req)) == [responses[TemplateKey]]
  {
    ReplaceWithoutOccurrence(responses[TemplateKey], Placeholder, WeekendNote(today));
    InquiryAwaitsFeedback(responses, today, req);
  }

  /**
   * A template that ends in the placeholder, with no brace before it, gets
   * the weekend clause in its place on weekends and nothing on weekdays.
   */
  lemma InquiryTrailingPlaceholder(responses: Templates, today: Weekday, req: Request, body: string)
    requires forall j :: 0 <= j < |body| ==> body[j] != '{'
    requires TemplateKey in responses && responses[TemplateKey] == body + Placeholder
    ensures Spoken(InquiryTurn(responses, today, req)) ==
      [if today == 5 || today == 6 then body + WeekendClause else body]
  {
    NoOccurrenceBefore(body, Placeholder, "");
    ReplaceFirstOccurrence(body, Placeholder, "", WeekendNote(today));
    assert body + Placeholder + "" == body + Placeholder;
    assert ReplaceAll("", Placeholder, WeekendNote(today)) == "";
    assert body + WeekendNote(today) + "" == body + WeekendNote(today);
    assert FinalResponse(responses, today) == body + WeekendNote(today);
    WeekendNoteIff(today);
    assert body + "" == body;
    InquiryAwaitsFeedback(responses, today, req);
  }

  /** The call ends after feedback exactly when the intent is satisfied; otherwise it listens again. */
  lemma FeedbackEndsIffSatisfied(classify: Classifier, req: Request)
    ensures var out := FeedbackTurn(classify, req);
      var intent := Lower(classify(SessionId(req), Speech(req)).displayName);
      && (NextState(out) == Terminated <==> intent == "satisfied")
      && (NextState(out) == AwaitingFeedback <==> intent != "satisfied")
      && (Hangup in out <==> intent == "satisfied")
  {
    var out := FeedbackTurn(classify, req);
    assert out[1..] == [out[1]];
  }

  /** What a feedback turn says, branch by branch. */
  lemma FeedbackSpeech(classify: Classifier, req: Request)
    ensures var out := FeedbackTurn(classify, req);
      var queryResult := classify(SessionId(req), Speech(req));
      var intent := Lower(queryResult.displayName);
      && (intent == "satisfied" ==> Spoken(out) == [ThankYou])
      && (intent == "followup" || intent == "clarification" ==>
            Spoken(out) == ["I understand. " + queryResult.fulfillmentText])
      && (intent !in ["satisfied", "followup", "clarification"] ==>
            Spoken(out) == ["I'm sorry, I didn't quite catch that. " + queryResult.fulfillmentText])
  {
    var out := FeedbackTurn(classify, req);
    SpokenPair(out[0], out[1]);
  }

  /** The greeting waits for an inquiry, and starts over when nothing is heard. */
  lemma WelcomeAwaitsInquiry()
    ensures Spoken(Voice()) == [Welcome]
    ensures NextState(Voice()) == AwaitingInquiry
    ensures Voice()[|Voice()| - 1] == Redirect(VoiceRoute) && RouteState(VoiceRoute) == AwaitingInquiry
    ensures Hangup !in Voice()
  {
    SpokenPair(Voice()[0], Voice()[1]);
  }
}
