/** How the two revisions of the feedback turn differ on an intent neither recognises. */
module Revisions {
  import opened Text
  import opened Twiml
  import opened Webhook
  import App
  import AppV2

  /**
   * On an unrecognised intent the first revision apologises and listens
   * again, while the second apologises and hangs up.
   */
  lemma DefaultBranchDiffers(responses: AppV2.Templates, classify: Classifier, req: Request)
    requires AppV2.Intent(classify, req) !in AppV2.LoopBackIntents
    requires AppV2.Intent(classify, req) !in ["satisfied", "followup", "unclear", "clarification"]
    ensures NextState(App.FeedbackTurn(classify, req)) == AwaitingFeedback
    ensures var out := AppV2.FeedbackTurn(responses, classify, req);
      out.Success? && NextState(out.value) == Terminated
  {
    AppV2.NormalizeIntentSpec(classify(SessionId(req), Speech(req)).displayName);
    App.FeedbackEndsIffSatisfied(classify, req);
    AppV2.FeedbackHandsOff(responses, classify, req);
  }
}
