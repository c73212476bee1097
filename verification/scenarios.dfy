/** Worked runs of the signer flow from the plugin's initial state. */
module Scenarios {
  import opened Wrappers
  import opened Channel
  import opened Request
  import opened ResolverProbe
  import opened RequestCodes
  import opened Plugin
  import opened Lifecycle

  /** A platform whose resolver finds no row and whose launcher starts the signer. */
  const QuietEnv := Env(q => NoRow, i => Started, {}, "14")

  /** A signer call with `uri_data` only; every other field defaults to "". */
  const SignCall := Call(SignerMethod, ArgMap(map[KeyUriData := ArgString("abc")]))

  /** The signer's OK answer: a signature and an event, no id. */
  const Answer: Extras := map[KeySignature := StrExtra("sig1"), KeyEvent := StrExtra("{}")]

  /** With an activity present, the quiet signer call waits under the next code, and nothing is posted. */
  lemma SignCallWaits(s: State)
    requires s.hasActivity
    ensures var code := IncrementAndGet(s.counter);
      OnMethodCall(s, SignCall, QuietEnv)
        == Created(s).(counter := code, pending := s.pending[code := s.sinks])
  {
  }

  /** The caller receives exactly the fields the answer carries. */
  lemma AnswerFields()
    ensures ResponseReply(ResultOk, Some(Answer))
      == Success(FieldMap(map[KeySignature := Some("sig1"), KeyEvent := Some("{}")]))
  {
  }

  /** The state after attaching and making the quiet signer call. */
  lemma WaitingAfterCall()
    ensures Run(Init, [AttachedToActivity, MethodCall(SignCall, QuietEnv)])
      == State(1001, map[1001 := 0], {}, 1, [], true)
  {
    var es := [AttachedToActivity, MethodCall(SignCall, QuietEnv)];
    var s1 := OnAttachedToActivity(Init);
    SignCallWaits(s1);
    assert es[1..][1..] == [];
    assert Run(Init, es) == Run(s1, es[1..]);
  }

  /**
   * The probe finds nothing, so the request waits under code 1001; the
   * signer answers OK with a signature and an event, and the caller
   * receives exactly those two fields (no `id`), with the table empty again.
   */
  lemma DispatchThenAnswer()
    ensures var h := OnActivityResult(Run(Init, [AttachedToActivity, MethodCall(SignCall, QuietEnv)]),
                                      1001, ResultOk, Some(Answer));
      && h.handled
      && h.state.pending == map[]
      && h.state.log == [Delivery(0, Success(FieldMap(map[KeySignature := Some("sig1"), KeyEvent := Some("{}")])))]
  {
    WaitingAfterCall();
    AnswerFields();
  }

  /** The activity detaches before the signer answers: the caller receives ACTIVITY_DETACHED. */
  lemma DispatchThenDetach()
    ensures var t := OnDetachedFromActivity(Run(Init, [AttachedToActivity, MethodCall(SignCall, QuietEnv)]));
      t.pending == map[] && t.log == [Delivery(0, DetachedReply)]
  {
    WaitingAfterCall();
    var s2 := State(1001, map[1001 := 0], {}, 1, [], true);
    var t := OnDetachedFromActivity(s2);
    assert |t.log| == 1 && OnlyDetachedTo(t.log, 0, {0}) by {
      DetachNotifiesPending(s2);
      assert s2.pending.Values == {0};
    }
  }

  /** A platform whose resolver already holds a signature. */
  const ProbeEnv := Env(q => Row(map[ColumnSignature := Some("sig0")]), i => Started, {}, "14")

  /** The probe answers with a signature: the caller receives it at once and no code is issued. */
  lemma ProbeAnswersAtOnce()
    ensures var t := OnMethodCall(Init, SignCall, ProbeEnv);
      && t.counter == 1000 && t.pending == map[]
      && t.log == [Delivery(0, Success(FieldMap(map[ColumnSignature := Some("sig0")])))]
  {
  }
}
