/**
 * The abstract voice markup a handler returns to the telephony provider:
 * a sequence of verbs, assembled by appending to a response object.
 */
module Twiml {

  datatype Verb =
    | Say(text: string)
      /** Listen for caller speech and post it to `action`, echoing `params`;
          `prompts` are spoken while listening. */
    | Gather(action: string, params: map<string, string>, prompts: seq<string>)
    | Redirect(url: string)
    | Hangup

  /** The response under construction (VoiceResponse): verbs are only ever appended. */
  class VoiceResponse {
    var verbs: seq<Verb>

    constructor ()
      ensures verbs == []
    {
      verbs := [];
    }

    method Say(text: string)
      modifies this
      ensures verbs == old(verbs) + [Verb.Say(text)]
    {
      verbs := verbs + [Verb.Say(text)];
    }

    method Append(verb: Verb)
      modifies this
      ensures verbs == old(verbs) + [verb]
    {
      verbs := verbs + [verb];
    }

    method Hangup()
      modifies this
      ensures verbs == old(verbs) + [Verb.Hangup]
    {
      verbs := verbs + [Verb.Hangup];
    }
  }

  function SpokenBy(v: Verb): seq<string> {
    match v
    case Say(t) => [t]
    case Gather(_, _, prompts) => prompts
    case _ => []
  }

  /** The texts the caller hears, in order. */
  function Spoken(verbs: seq<Verb>): seq<string>
    decreases |verbs|
  {
    if verbs == [] then [] else SpokenBy(verbs[0]) + Spoken(verbs[1..])
  }

  /** How many times the response listens for speech. */
  function GatherCount(verbs: seq<Verb>): nat
    decreases |verbs|
  {
    if verbs == [] then 0 else (if verbs[0].Gather? then 1 else 0) + GatherCount(verbs[1..])
  }

  /** What a response says is what its parts say, in order. */
  lemma {:induction false} SpokenConcat(a: seq<Verb>, b: seq<Verb>)
    ensures Spoken(a + b) == Spoken(a) + Spoken(b)
    ensures GatherCount(a + b) == GatherCount(a) + GatherCount(b)
    decreases |a|
  {
    if a != [] {
      assert (a + b)[1..] == a[1..] + b;
      SpokenConcat(a[1..], b);
    } else {
      assert a + b == b;
    }
  }

  lemma SpokenSingle(v: Verb)
    ensures Spoken([v]) == SpokenBy(v)
    ensures GatherCount([v]) == if v.Gather? then 1 else 0
  {
    assert [v][1..] == [];
  }

  /** A two-verb response says what each verb says, in order. */
  lemma SpokenPair(v: Verb, w: Verb)
    ensures Spoken([v, w]) == SpokenBy(v) + SpokenBy(w)
    ensures GatherCount([v, w]) == (if v.Gather? then 1 else 0) + (if w.Gather? then 1 else 0)
  {
    assert [v, w] == [v] + [w];
    SpokenConcat([v], [w]);
    SpokenSingle(v);
    SpokenSingle(w);
  }
}
