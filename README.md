# IVR dialogue controller — a Dafny model

This project models the decision logic of a telephone support line's webhook
service. A telephony provider posts the caller's speech to the service. An
intent classifier turns the speech into an intent name. The dialogue
controller then decides what the caller hears next, whether to listen again
(and where to post the next speech), and whether to hang up.

Two revisions of the controller are modelled:

- `app_v2.py` (module `AppV2`). The inquiry turn answers from a template map
  keyed by the lower-cased intent. Six FAQ intents get a follow-up question.
  The turn always listens for feedback and carries the reply forward as the
  `LastResponse` parameter. The feedback turn is an ordered table:
  1. the FAQ list plus `check_options` loops back to the inquiry;
  2. `satisfied` and `followup` say their template and hang up;
  3. `unclear` re-states `LastResponse` and listens again;
  4. anything else apologises and hangs up.
- `app.py` (module `App`). The inquiry turn says the money-arrival template
  with `{weekend_note}` replaced by a weekend clause on Saturday and Sunday.
  The feedback turn hangs up on `satisfied`. Every other intent is answered
  with a prefix plus the classifier's fulfillment text, and the turn listens
  again.

A response is a sequence of verbs (`Twiml.Verb`: `Say`, `Gather` with its
action and round-trip parameters, `Redirect`, `Hangup`). It is built by
appending to a `Twiml.VoiceResponse` object, as the handlers do. Each handler
is a method that builds the response and is proved equal to a specification
function (`InquiryTurn`, `FeedbackTurn`); the lemmas state the properties of
those functions. `Webhook.NextState` reads off where the call goes next
(`AwaitingInquiry`, `AwaitingFeedback` or `Terminated`). `Webhook.NextRequest`
is the request the provider posts back, echoing the gather's parameters.

The following are inputs:

- The classifier is a parameter `classify(sessionId, text)`.
- The day of the week is a parameter `today` (0 = Monday … 6 = Sunday).
- The template map is a parameter `responses`.

In `app_v2.py` the template lookup at line 54 is unguarded. An intent with no
template is therefore the error outcome `Failure(KeyError(intent))`, and there
is no fallback. The docstring of `handle_inquiry` (app_v2.py:42-47) promises a
fallback to the fulfillment text. The code has none, and the model follows
the code. The clarification suffix is the code's `". Was that audible?"`
(app_v2.py:120).

## Model

| member | source | states |
|---|---|---|
| `Text.LowerChar` | app_v2.py:52 | the result is never an upper-case ASCII letter; an upper-case letter moves to its lower-case form, any other character is kept |
| `Text.Lower` | app_v2.py:52 | lower-casing keeps the length of the intent name |
| `Text.LowerAt` | app_v2.py:52 | lower-casing works character by character |
| `Text.LowerHasNoUpper` | app_v2.py:52 | a lower-cased name contains no upper-case letter |
| `Text.LowerFixedIff` | app_v2.py:52 | a name is its own lower-case form if and only if it has no upper-case letter |
| `Text.LowerIdempotent` | app_v2.py:90 | lower-casing twice equals lower-casing once |
| `Text.TrimStartSpec` | app_v2.py:87 | stripping the start removes exactly a whitespace prefix and leaves a result that starts with a non-space |
| `Text.TrimEndSpec` | app_v2.py:87 | stripping the end removes exactly a whitespace suffix and leaves a result that ends with a non-space |
| `Text.TrimEndKeepsStart` | app_v2.py:87 | stripping the end keeps a non-space first character |
| `Text.StripUnchanged` | app_v2.py:49 | a transcript with no surrounding whitespace is left unchanged |
| `Text.StripEnds` | app_v2.py:87 | the stripped transcript neither starts nor ends with whitespace |
| `Text.StripIdempotent` | app_v2.py:107-108 | stripping the already-stripped feedback again changes nothing, so the loop-back inquiry sees the same text |
| `Text.ReplaceWithoutOccurrence` | app.py:85 | a template in which the placeholder never occurs comes back unchanged |
| `Text.ReplaceBySelf` | app.py:85 | replacing the placeholder by itself is the identity |
| `Text.ReplaceFirstOccurrence` | app.py:85 | the leftmost occurrence is replaced and the left-to-right scan resumes after it |
| `Text.NoOccurrenceBefore` | app.py:85 | text without the placeholder's first character holds no occurrence of the placeholder |
| `Twiml.VoiceResponse.constructor` | app_v2.py:48 | a new response has no verbs |
| `Twiml.VoiceResponse.Say` | app_v2.py:65 | saying appends one Say verb and changes nothing else |
| `Twiml.VoiceResponse.Append` | app_v2.py:74 | appending adds the given verb at the end |
| `Twiml.VoiceResponse.Hangup` | app_v2.py:114 | hanging up appends one Hangup verb |
| `Twiml.SpokenConcat` | app_v2.py:65-66 | what a response says, and how often it listens, are those of its parts in order |
| `Twiml.SpokenSingle` | app_v2.py:69 | a one-verb response says what the verb says |
| `Twiml.SpokenPair` | app_v2.py:113-114 | a two-verb response says what each verb says, in order |
| `Webhook.NextRequest` | app_v2.py:72-73 | the next request carries the new speech, the same call id, and every echoed gather parameter unchanged |
| `AppV2.HandleInquiry` | app_v2.py:48-76 | the response built with say/append equals the inquiry turn, the key-error outcome included |
| `AppV2.HandleFeedback` | app_v2.py:86-128 | the response built by the handler, loop-back call included, equals the feedback turn |
| `AppV2.NormalizeIntentSpec` | app_v2.py:52 | the normalised intent is "" exactly when the display name is empty; otherwise it is the name's lower-case form, character by character, and normalising again does not change it |
| `AppV2.LoopBackIntentsSpec` | app_v2.py:93-101 | the seven loop-back intents are the six FAQ intents plus check_options, and check_options is not an FAQ intent |
| `AppV2.InquiryFailsIffNoTemplate` | app_v2.py:54 | an inquiry fails if and only if its intent has no template, and the error names that intent |
| `AppV2.InquirySpeech` | app_v2.py:55-69 | a successful inquiry says the template reply, followed by the follow-up question exactly for the six FAQ intents |
| `AppV2.InquiryAwaitsFeedback` | app_v2.py:72-74 | an inquiry never hangs up; it ends with its only gather, which posts to /handle_feedback with LastResponse equal to the reply |
| `AppV2.FeedbackLoopsBack` | app_v2.py:104-109 | a feedback intent in the loop-back list produces exactly the inquiry turn on the same request |
| `AppV2.FeedbackEndsCall` | app_v2.py:112-117 | satisfied and followup say their own template and hang up without a gather |
| `AppV2.FeedbackUnclearRepeats` | app_v2.py:118-123 | unclear says the last response plus ". Was that audible?", does not hang up, and listens for feedback carrying the last response unchanged; with no LastResponse parameter it says the default "I'm sorry, I didn't understand that." followed by the suffix, so the text holds two periods in a row |
| `AppV2.FeedbackHandsOff` | app_v2.py:124-126 | any other intent, the empty one included, says the human-agent apology and hangs up without a gather |
| `AppV2.FeedbackFailsOnlyOnLoopBack` | app_v2.py:104-126 | a feedback turn fails if and only if it loops back to an inquiry whose intent has no template |
| `AppV2.UnclearRunKeepsCarry` | app_v2.py:118-123 | any number of consecutive unclear turns keeps re-stating the same last response and carrying it unchanged |
| `AppV2.WelcomeAwaitsInquiry` | app_v2.py:29-38 | the greeting says the welcome, listens for an inquiry, and on silence redirects to the greeting |
| `App.HandleInquiry` | app.py:77-91 | the response built with say/append equals the inquiry turn |
| `App.HandleFeedback` | app.py:99-126 | the response built by the handler equals the feedback turn |
| `App.WeekendNoteIff` | app.py:81-82 | the weekend clause is chosen exactly on weekday 5 or 6, and "" exactly on days 0 to 4 |
| `App.InquiryIgnoresTranscript` | app.py:78-87 | the inquiry response does not depend on the request |
| `App.InquiryAwaitsFeedback` | app.py:87-90 | an inquiry says the substituted template only, never hangs up, and ends with its only gather, to /handle_feedback |
| `App.InquiryWithoutTemplate` | app.py:84-85 | without a when_money_arrives template the inquiry says "" on every day |
| `App.InquiryTemplateWithoutPlaceholder` | app.py:85 | a template without {weekend_note} is said unchanged on every day |
| `App.InquiryTrailingPlaceholder` | app.py:81-85 | a template ending in {weekend_note}, with no `{` before it, gets the weekend clause in its place on Saturday and Sunday, and nothing on other days |
| `App.FeedbackEndsIffSatisfied` | app.py:113-125 | a feedback turn hangs up if and only if the lower-cased intent is satisfied; every other intent listens for feedback again |
| `App.FeedbackSpeech` | app.py:113-125 | satisfied says the thank-you; followup and clarification say "I understand. " plus the fulfillment text; any other intent says the not-caught prefix plus the fulfillment text |
| `App.WelcomeAwaitsInquiry` | app.py:44-50 | the greeting says the welcome, listens for an inquiry, and on silence redirects to the greeting |
| `Revisions.DefaultBranchDiffers` | app.py:122-125 | on an intent neither revision recognises, app.py listens again while app_v2.py (lines 124-126) hangs up |

## Left out

- The classifier call `detect_intent_texts` (app_v2.py:20-26, app.py:22-34) is network I/O. It is the parameter `classify`, a function from session id and text to a display name and fulfillment text.
- `AppV2.FeedbackLoopsBack`: the loop-back calls the classifier a second time on the same text. The model assumes the classifier gives the same answer both times. A real classifier keeps per-session state and might not.
- Flask routing, `Response` objects and HTTP status codes are not modelled. A `KeyError` is the outcome `Failure(KeyError(intent))`; the HTTP 500 that Flask sends and what the provider then plays are not modelled.
- The copy-and-overwrite of `request.values` (app_v2.py:107-108) is a new `Request` value passed to the inquiry handler.
- TwiML serialisation is not modelled. Neither are the `voice`, `language`, `input`, `method` and `timeout` attributes. In app_v2.py every Say carries the same voice and language, and every Gather the same input, method and timeout. In app.py only the greeting's prompt (app.py:46) sets voice and language, so later prompts use the provider's default voice. None of these attributes changes which verbs are emitted or what they say.
- Assigning `gather.params` is modelled as a round-trip parameter that the next request echoes. The comment at app_v2.py:71 stores the reply for later repetition, and app_v2.py:119 reads it back. Whether the provider's helper library serialises that attribute is not part of this model.
- The next request carries only `SpeechResult`, `CallSid` and the echoed parameters. The provider's other form fields are not read by the core.
- Silence at a gather needs provider behaviour. The provider then plays the next verb or ends the call. `NextState` follows only the path where the caller speaks. The greeting's redirect on silence is stated by `WelcomeAwaitsInquiry`.
- `Webhook.NextState`: a route other than the app's three is read as the end of the call. The app posts to no other route.
- `responses.get("satisfied")` and `responses.get("followup")` give `None` when the key is missing. The model says `""` there, because a Say with no text is rendered empty.
- Template values are assumed to be strings, as the JSON files are expected to hold.
- JSON template loading, environment variables and credentials are process setup. `datetime.today()` is an ambient clock and is the parameter `today`.
- `Text.Lower`: lower-cases ASCII letters only. Python's `str.lower` also maps non-ASCII letters; intent names are ASCII identifiers.
- `Text.ReplaceAll`: models `str.replace` without its optional count argument, which the source never passes.
- The commented-out `process_speech` (app.py:52-68) is dead code.
- twilio_init.py only places an outbound call through the provider's REST client and has no decision logic.
