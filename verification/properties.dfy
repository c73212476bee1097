/**
 * The promises of the signer flow, one callback or one short sequence of
 * callbacks at a time.
 */
module Properties {
  import opened Wrappers
  import opened Channel
  import opened Request
  import opened ResolverProbe
  import opened RequestCodes
  import opened Plugin
  import opened Lifecycle

  /**
   * Arguments that are null or not a map get INVALID_ARGUMENTS on the
   * call's own wrapper; no code is allocated and the table is unchanged.
   */
  lemma InvalidArgumentsAllocateNothing(s: State, args: Arguments, env: Env)
    requires !args.ArgMap?
    ensures var t := OnMethodCall(s, Call(SignerMethod, args), env);
      && t.counter == s.counter && t.pending == s.pending
      && t.log == s.log + [Delivery(s.sinks, Error(InvalidArguments, NullParamsMessage))]
  {
  }

  /**
   * A non-empty probe answer is delivered as a success at once, and the
   * counter, the table and the launcher are left alone.
   */
  lemma ProbeAnswerBypassesDispatch(s: State, args: Arguments, env: Env)
    requires ParseSignRequest(args).Some?
    requires Answered(SyncAnswer(ParseSignRequest(args).value, env))
    ensures var t := OnMethodCall(s, Call(SignerMethod, args), env);
      && t.counter == s.counter && t.pending == s.pending && t.hasActivity == s.hasActivity
      && t.log == s.log + [Delivery(s.sinks, Success(FieldMap(SyncAnswer(ParseSignRequest(args).value, env).value)))]
  {
  }

  /**
   * The asynchronous path before the counter wraps: the next code is fresh,
   * and the table gains exactly that code, mapped to this call's wrapper,
   * with nothing posted; if the launch throws, the entry is removed again,
   * the table is as before, and ACTIVITY_ERROR is the only thing posted.
   */
  lemma DispatchRegistersFreshCode(s: State, args: Arguments, env: Env)
    requires Inv(s) && s.counter < MaxInt32
    requires ParseSignRequest(args).Some?
    requires !Answered(SyncAnswer(ParseSignRequest(args).value, env))
    ensures var t := OnMethodCall(s, Call(SignerMethod, args), env);
      var code := s.counter + 1;
      var launch := LaunchResult(s.hasActivity, ParseSignRequest(args).value, code, env);
      && code !in s.pending
      && t.counter == code
      && (launch.None? || launch.value.Started? ==>
            t.pending == s.pending[code := s.sinks] && t.log == s.log)
      && (launch.Some? && launch.value.LaunchFault? ==>
            t.pending == s.pending
            && t.log == s.log + [Delivery(s.sinks, LaunchFaultReply(launch.value.message))])
  {
  }

  /**
   * The signer's answer for a pending code reaches the waiting wrapper
   * once: the entry is removed and the reply posted; a duplicate answer
   * for the same code is refused and changes nothing.
   */
  lemma ResponseDeliveredOnce(s: State, code: int32, resultCode: int32, data: Option<Extras>,
                              resultCode': int32, data': Option<Extras>)
    requires Parked(s) && code in s.pending
    ensures var h := OnActivityResult(s, code, resultCode, data);
      && h.handled
      && h.state.pending == s.pending - {code}
      && h.state.log == s.log + [Delivery(s.pending[code], ResponseReply(resultCode, data))]
      && OnActivityResult(h.state, code, resultCode', data') == Handled(h.state, false)
  {
  }

  /** Once the activity has detached, an answer arriving late for any code is refused and changes nothing. */
  lemma LateResponseIgnored(s: State, code: int32, resultCode: int32, data: Option<Extras>)
    ensures var t := OnDetachedFromActivity(s);
      OnActivityResult(t, code, resultCode, data) == Handled(t, false)
  {
  }

  /**
   * In every reachable state (`Parked` holds there, whatever the counter
   * does), detaching the activity gives every pending wrapper
   * ACTIVITY_DETACHED exactly once, one post per pending code and nothing
   * else, and leaves the table empty.
   */
  lemma DetachAnswersEveryPending(s: State)
    requires Parked(s)
    ensures var t := OnDetachedFromActivity(s);
      && t.pending == map[]
      && |t.log| == |s.log| + |s.pending|
      && OnlyDetachedTo(t.log, |s.log|, s.pending.Values)
      && OncePerSink(t.log, |s.log|)
      && ReachesAll(t.log, |s.log|, s.pending.Values)
      && (forall k :: k in s.pending.Values ==> k in t.replied)
  {
    DetachNotifiesPending(s);
    assert s.pending.Values - s.replied == s.pending.Values;
  }

  /** A wrapper that exists, has not replied and waits under no code. */
  predicate Stranded(s: State, k: SinkId)
  {
    k < s.sinks && k !in s.replied && k !in s.pending.Values
  }

  /** No callback can reach a stranded wrapper: outcomes only go to pending wrappers or the call's own. */
  lemma StrandedStays(s: State, e: Event, k: SinkId)
    requires Stranded(s, k)
    ensures Stranded(Apply(s, e), k)
  {
    match e
    case MethodCall(call, env) =>
      if call.name == SignerMethod {
        match ParseSignRequest(call.arguments)
        case None =>
        case Some(req) =>
          if !Answered(SyncAnswer(req, env)) {
            var code := IncrementAndGet(s.counter);
            assert Apply(s, e) == Dispatch(Created(s), s.sinks, req, env);
            assert k !in s.pending[code := s.sinks].Values;
          }
      }
    case ActivityResult(code, resultCode, data) =>
      if code in s.pending {
        assert k !in (s.pending - {code}).Values;
      }
    case DetachedFromActivity =>
      DetachNotifiesPending(s);
    case _ =>
  }

  lemma {:induction false} StrandedForever(s: State, es: seq<Event>, k: SinkId)
    requires Stranded(s, k)
    ensures Stranded(Run(s, es), k)
    decreases |es|
  {
    if es != [] {
      StrandedStays(s, es[0], k);
      StrandedForever(Apply(s, es[0]), es[1..], k);
    }
  }

  /**
   * `onDetachedFromEngine` clears the table without answering: every
   * request pending at that moment never receives an outcome, whatever
   * callbacks follow.
   */
  lemma EngineDetachStrandsPending(s: State, es: seq<Event>)
    requires Parked(s)
    ensures forall k :: k in s.pending.Values ==> k !in Run(OnDetachedFromEngine(s), es).replied
  {
    forall k | k in s.pending.Values
      ensures k !in Run(OnDetachedFromEngine(s), es).replied
    {
      StrandedForever(OnDetachedFromEngine(s), es, k);
    }
  }
}
