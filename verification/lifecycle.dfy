/**
 * Runs of the plugin: any interleaving of method calls, activity results and
 * lifecycle callbacks, and the invariants every such run keeps.
 */
module Lifecycle {
  import opened Wrappers
  import opened Channel
  import opened Request
  import opened ResolverProbe
  import opened RequestCodes
  import opened Plugin

  /** One callback the host makes into the plugin. */
  datatype Event =
    | MethodCall(call: Call, env: Env)
    | ActivityResult(requestCode: int32, resultCode: int32, data: Option<Extras>)
    | AttachedToActivity
    | DetachedFromActivityForConfigChanges
    | DetachedFromActivity
    | DetachedFromEngine

  /** The state after one callback. */
  function Apply(s: State, e: Event): (t: State)
  {
    match e
    case MethodCall(call, env) => OnMethodCall(s, call, env)
    case ActivityResult(code, resultCode, data) => OnActivityResult(s, code, resultCode, data).state
    case AttachedToActivity => OnAttachedToActivity(s)
    case DetachedFromActivityForConfigChanges => OnDetachedFromActivityForConfigChanges(s)
    case DetachedFromActivity => OnDetachedFromActivity(s)
    case DetachedFromEngine => OnDetachedFromEngine(s)
  }

  /** The state after the callbacks `es`, in order. */
  function Run(s: State, es: seq<Event>): (t: State)
    decreases |es|
  {
    if es == [] then s else Run(Apply(s, es[0]), es[1..])
  }

  /** The wrappers that appear in `log`. */
  function Logged(log: seq<Delivery>): (sinks: set<SinkId>)
  {
    set i | 0 <= i < |log| :: log[i].sink
  }

  /**
   * The invariant of every reachable state, whatever the counter does:
   * every wrapper in the log or in the table has been created, a wrapper
   * has replied exactly when it appears in the log, and it appears there
   * at most once.
   */
  predicate SingleFire(s: State)
  {
    && (forall k :: k in s.replied ==> k < s.sinks)
    && (forall c :: c in s.pending ==> s.pending[c] < s.sinks)
    && s.replied == Logged(s.log)
    && OncePerSink(s.log, 0)
  }

  /**
   * `SingleFire` plus the table's bookkeeping, which also holds in every
   * reachable state: a pending wrapper has not replied, and it waits under
   * one code only.
   */
  predicate Parked(s: State)
  {
    && SingleFire(s)
    && (forall c :: c in s.pending ==> s.pending[c] !in s.replied)
    && Distinct(s.pending.Keys, s.pending)
  }

  /**
   * The stronger invariant of every state reached before the counter
   * wraps: on top of `Parked`, pending codes were issued by the counter.
   */
  predicate Inv(s: State)
  {
    && Parked(s)
    && InitialCounter <= s.counter
    && (forall c :: c in s.pending ==> InitialCounter < c <= s.counter)
  }

  lemma InitInv()
    ensures Inv(Init)
  {
  }

  /** Appending one delivery for a wrapper not yet in the log keeps every wrapper at most once. */
  lemma AppendFresh(log: seq<Delivery>, d: Delivery)
    requires OncePerSink(log, 0) && d.sink !in Logged(log)
    ensures OncePerSink(log + [d], 0)
    ensures Logged(log + [d]) == Logged(log) + {d.sink}
  {
    var log' := log + [d];
    forall i | 0 <= i < |log|
      ensures log'[i].sink != d.sink
    {
      assert log[i].sink in Logged(log);
    }
    forall k | k in Logged(log')
      ensures k in Logged(log) + {d.sink}
    {
      var i :| 0 <= i < |log'| && log'[i].sink == k;
      if i < |log| {
        assert log[i].sink == k;
      }
    }
    forall k | k in Logged(log) + {d.sink}
      ensures k in Logged(log')
    {
      if k == d.sink {
        assert log'[|log|].sink == k;
      } else {
        var i :| 0 <= i < |log| && log[i].sink == k;
        assert log'[i].sink == k;
      }
    }
  }

  /** Posting to a wrapper the invariant says has not replied keeps the log's bookkeeping. */
  lemma PostFresh(s: State, sink: SinkId, r: Reply)
    requires s.replied == Logged(s.log) && OncePerSink(s.log, 0) && sink !in s.replied
    ensures var t := Post(s, sink, r);
      t.replied == Logged(t.log) && OncePerSink(t.log, 0)
  {
    AppendFresh(s.log, Delivery(sink, r));
  }

  /** Answering the call's own new wrapper at once keeps the invariant. */
  lemma AnswerAtOnceInv(s: State, r: Reply)
    requires Inv(s)
    ensures Inv(Post(Created(s), s.sinks, r))
  {
    assert Created(s).replied == s.replied;
    PostFresh(Created(s), s.sinks, r);
  }

  /** The asynchronous path keeps the invariant: the next code is above every pending one. */
  lemma DispatchInv(s: State, req: SignRequest, env: Env)
    requires Inv(s) && s.counter < MaxInt32
    ensures Inv(Dispatch(Created(s), s.sinks, req, env))
  {
    var created := Created(s);
    assert created.replied == s.replied;
    var code := IncrementAndGet(s.counter);
    assert code !in s.pending;
    match LaunchResult(s.hasActivity, req, code, env)
    case None =>
    case Some(Started) =>
    case Some(LaunchFault(message)) =>
      var registered := created.(counter := code, pending := created.pending[code := s.sinks]);
      assert registered.pending - {code} == s.pending;
      PostFresh(registered.(pending := s.pending), s.sinks, LaunchFaultReply(message));
  }

  /** Every transition keeps the invariant, given the counter has not reached the largest Int. */
  lemma MethodCallInv(s: State, call: Call, env: Env)
    requires Inv(s) && s.counter < MaxInt32
    ensures Inv(OnMethodCall(s, call, env))
  {
    if call.name == SignerMethod {
      match ParseSignRequest(call.arguments)
      case None =>
        AnswerAtOnceInv(s, Error(InvalidArguments, NullParamsMessage));
      case Some(req) =>
        var data := SyncAnswer(req, env);
        if Answered(data) {
          AnswerAtOnceInv(s, Success(FieldMap(data.value)));
        } else {
          DispatchInv(s, req, env);
        }
    } else {
      AnswerAtOnceInv(s, DirectReply(call, env));
    }
  }

  lemma ActivityResultInv(s: State, requestCode: int32, resultCode: int32, data: Option<Extras>)
    requires Inv(s)
    ensures Inv(OnActivityResult(s, requestCode, resultCode, data).state)
  {
    if requestCode in s.pending {
      PostFresh(s.(pending := s.pending - {requestCode}), s.pending[requestCode], ResponseReply(resultCode, data));
    }
  }

  /**
   * Extending a log by entries for wrappers not yet in it, each at most
   * once and together reaching all of `added`, keeps every wrapper at most
   * once and adds exactly `added` to the wrappers logged.
   */
  lemma ExtendFresh(log: seq<Delivery>, log': seq<Delivery>, added: set<SinkId>)
    requires OncePerSink(log, 0)
    requires |log| <= |log'| && log'[..|log|] == log
    requires added !! Logged(log)
    requires OnlyDetachedTo(log', |log|, added) && OncePerSink(log', |log|) && ReachesAll(log', |log|, added)
    ensures OncePerSink(log', 0)
    ensures Logged(log') == Logged(log) + added
  {
  }

  lemma DetachedFromActivityInv(s: State)
    requires Inv(s)
    ensures Inv(OnDetachedFromActivity(s))
  {
    DetachedFromActivitySingleFire(s);
  }

  /** One callback keeps the invariant and moves the counter by at most one code. */
  lemma ApplyInv(s: State, e: Event)
    requires Inv(s) && s.counter < MaxInt32
    ensures Inv(Apply(s, e))
  {
    match e
    case MethodCall(call, env) => MethodCallInv(s, call, env);
    case ActivityResult(code, resultCode, data) => ActivityResultInv(s, code, resultCode, data);
    case DetachedFromActivity => DetachedFromActivityInv(s);
    case _ =>
  }

  /**
   * A callback that issues no code keeps the invariant whatever the
   * counter: the asynchronous path always moves the counter, so only the
   * answers at once, activity results and detaches remain.
   */
  lemma ApplyIdleInv(s: State, e: Event)
    requires Inv(s) && Apply(s, e).counter == s.counter
    ensures Inv(Apply(s, e))
  {
    match e
    case MethodCall(call, env) =>
      if call.name == SignerMethod {
        match ParseSignRequest(call.arguments)
        case None =>
          AnswerAtOnceInv(s, Error(InvalidArguments, NullParamsMessage));
        case Some(req) =>
          var data := SyncAnswer(req, env);
          if Answered(data) {
            AnswerAtOnceInv(s, Success(FieldMap(data.value)));
          }
      } else {
        AnswerAtOnceInv(s, DirectReply(call, env));
      }
    case ActivityResult(code, resultCode, data) => ActivityResultInv(s, code, resultCode, data);
    case DetachedFromActivity => DetachedFromActivityInv(s);
    case _ =>
  }

  /** A callback either leaves the counter alone or advances it by one `incrementAndGet`. */
  lemma ApplyCounter(s: State, e: Event)
    ensures Apply(s, e).counter == s.counter || Apply(s, e).counter == IncrementAndGet(s.counter)
  {
  }

  /** The codes issued during a run, in the order they were issued. */
  function Issued(s: State, es: seq<Event>): (codes: seq<int32>)
    decreases |es|
  {
    if es == [] then []
    else
      var t := Apply(s, es[0]);
      (if t.counter != s.counter then [t.counter] else []) + Issued(t, es[1..])
  }

  /**
   * Whatever the callbacks, the codes a run issues are exactly the
   * generator's next codes, one per issue, and the counter ends on the last.
   */
  lemma {:induction false} IssuedFollowGenerator(s: State, es: seq<Event>)
    ensures |Issued(s, es)| <= |es|
    ensures Issued(s, es) == Codes(s.counter, |Issued(s, es)|)
    ensures Issued(s, es) == [] ==> Run(s, es).counter == s.counter
    ensures Issued(s, es) != [] ==> Run(s, es).counter == Issued(s, es)[|Issued(s, es)| - 1]
    decreases |es|
  {
    if es != [] {
      var t := Apply(s, es[0]);
      ApplyCounter(s, es[0]);
      IssuedFollowGenerator(t, es[1..]);
    }
  }

  /**
   * While a run issues no more codes than the counter has room for, its
   * codes strictly increase from one past the starting counter, so no code
   * is issued twice; from the initial state the first code is 1001.
   */
  lemma CodesNeverReused(s: State, es: seq<Event>)
    requires s.counter + |Issued(s, es)| <= MaxInt32
    ensures forall i, j :: 0 <= i < j < |Issued(s, es)| ==> Issued(s, es)[i] < Issued(s, es)[j]
    ensures forall i :: 0 <= i < |Issued(s, es)| ==> s.counter < Issued(s, es)[i] <= Run(s, es).counter
    ensures s == Init && Issued(s, es) != [] ==> Issued(s, es)[0] == 1001
  {
    IssuedFollowGenerator(s, es);
    CodesConsecutive(s.counter, |Issued(s, es)|);
  }

  /**
   * The invariant holds along any run that issues no more codes than the
   * counter has room for, however many callbacks issue none.
   */
  lemma {:induction false} RunInv(s: State, es: seq<Event>)
    requires Inv(s) && s.counter + |Issued(s, es)| <= MaxInt32
    ensures Inv(Run(s, es))
    decreases |es|
  {
    if es != [] {
      var t := Apply(s, es[0]);
      ApplyCounter(s, es[0]);
      if t.counter == s.counter {
        ApplyIdleInv(s, es[0]);
      } else {
        ApplyInv(s, es[0]);
      }
      RunInv(t, es[1..]);
    }
  }

  /** Answering the call's own new wrapper at once keeps `SingleFire`. */
  lemma AnswerAtOnceSingleFire(s: State, r: Reply)
    requires SingleFire(s)
    ensures SingleFire(Post(Created(s), s.sinks, r))
  {
    assert Created(s).replied == s.replied;
    PostFresh(Created(s), s.sinks, r);
  }

  /** The asynchronous path keeps `SingleFire`, even when the code it registers is already in the table. */
  lemma DispatchSingleFire(s: State, req: SignRequest, env: Env)
    requires SingleFire(s)
    ensures SingleFire(Dispatch(Created(s), s.sinks, req, env))
  {
    var created := Created(s);
    assert created.replied == s.replied;
    var code := IncrementAndGet(s.counter);
    var registered := created.(counter := code, pending := created.pending[code := s.sinks]);
    assert forall c :: c in registered.pending ==> registered.pending[c] < registered.sinks;
    match LaunchResult(s.hasActivity, req, code, env)
    case None =>
    case Some(Started) =>
    case Some(LaunchFault(message)) =>
      PostFresh(registered.(pending := registered.pending - {code}), s.sinks, LaunchFaultReply(message));
  }

  lemma MethodCallSingleFire(s: State, call: Call, env: Env)
    requires SingleFire(s)
    ensures SingleFire(OnMethodCall(s, call, env))
  {
    if call.name == SignerMethod {
      match ParseSignRequest(call.arguments)
      case None =>
        AnswerAtOnceSingleFire(s, Error(InvalidArguments, NullParamsMessage));
      case Some(req) =>
        var data := SyncAnswer(req, env);
        if Answered(data) {
          AnswerAtOnceSingleFire(s, Success(FieldMap(data.value)));
        } else {
          DispatchSingleFire(s, req, env);
        }
    } else {
      AnswerAtOnceSingleFire(s, DirectReply(call, env));
    }
  }

  /** Answering a pending wrapper keeps `SingleFire`; one that had replied already is not posted to again. */
  lemma ActivityResultSingleFire(s: State, requestCode: int32, resultCode: int32, data: Option<Extras>)
    requires SingleFire(s)
    ensures SingleFire(OnActivityResult(s, requestCode, resultCode, data).state)
  {
    if requestCode in s.pending && s.pending[requestCode] !in s.replied {
      PostFresh(s.(pending := s.pending - {requestCode}), s.pending[requestCode], ResponseReply(resultCode, data));
    }
  }

  /** Detaching the activity keeps `SingleFire`: it posts only to pending wrappers that had not replied, once each. */
  lemma DetachedFromActivitySingleFire(s: State)
    requires SingleFire(s)
    ensures SingleFire(OnDetachedFromActivity(s))
  {
    var t := OnDetachedFromActivity(s);
    var added := s.pending.Values - s.replied;
    assert t.replied == s.replied + s.pending.Values
        && OnlyDetachedTo(t.log, |s.log|, added)
        && OncePerSink(t.log, |s.log|)
        && ReachesAll(t.log, |s.log|, added)
    by {
      DetachNotifiesPending(s);
    }
    assert OncePerSink(t.log, 0) && Logged(t.log) == s.replied + added by {
      assert added !! Logged(s.log);
      ExtendFresh(s.log, t.log, added);
    }
    assert s.replied + added == t.replied;
    assert forall k :: k in t.replied ==> k < t.sinks;
  }

  /** Every callback keeps `SingleFire`, with no condition on the counter. */
  lemma ApplySingleFire(s: State, e: Event)
    requires SingleFire(s)
    ensures SingleFire(Apply(s, e))
  {
    match e
    case MethodCall(call, env) => MethodCallSingleFire(s, call, env);
    case ActivityResult(code, resultCode, data) => ActivityResultSingleFire(s, code, resultCode, data);
    case DetachedFromActivity => DetachedFromActivitySingleFire(s);
    case _ =>
  }

  lemma {:induction false} RunSingleFire(s: State, es: seq<Event>)
    requires SingleFire(s)
    ensures SingleFire(Run(s, es))
    decreases |es|
  {
    if es != [] {
      ApplySingleFire(s, es[0]);
      RunSingleFire(Apply(s, es[0]), es[1..]);
    }
  }

  /** Answering the call's own new wrapper at once keeps `Parked`. */
  lemma AnswerAtOnceParked(s: State, r: Reply)
    requires Parked(s)
    ensures Parked(Post(Created(s), s.sinks, r))
  {
    AnswerAtOnceSingleFire(s, r);
  }

  /**
   * The asynchronous path keeps `Parked` whatever the counter: when the new
   * code is already pending its old wrapper is dropped from the table, and
   * the new wrapper differs from every other pending one.
   */
  lemma DispatchParked(s: State, req: SignRequest, env: Env)
    requires Parked(s)
    ensures Parked(Dispatch(Created(s), s.sinks, req, env))
  {
    DispatchSingleFire(s, req, env);
    var created := Created(s);
    assert created.replied == s.replied;
    var code := IncrementAndGet(s.counter);
    var table := s.pending[code := s.sinks];
    assert Distinct(table.Keys, table) by {
      forall c | c in table && c != code
        ensures table[c] != s.sinks
      {
        assert c in s.pending;
      }
    }
  }

  lemma MethodCallParked(s: State, call: Call, env: Env)
    requires Parked(s)
    ensures Parked(OnMethodCall(s, call, env))
  {
    if call.name == SignerMethod {
      match ParseSignRequest(call.arguments)
      case None =>
        AnswerAtOnceParked(s, Error(InvalidArguments, NullParamsMessage));
      case Some(req) =>
        var data := SyncAnswer(req, env);
        if Answered(data) {
          AnswerAtOnceParked(s, Success(FieldMap(data.value)));
        } else {
          DispatchParked(s, req, env);
        }
    } else {
      AnswerAtOnceParked(s, DirectReply(call, env));
    }
  }

  /** Answering a pending wrapper keeps `Parked`: the only wrapper that replies leaves the table with its code. */
  lemma ActivityResultParked(s: State, requestCode: int32, resultCode: int32, data: Option<Extras>)
    requires Parked(s)
    ensures Parked(OnActivityResult(s, requestCode, resultCode, data).state)
  {
    ActivityResultSingleFire(s, requestCode, resultCode, data);
  }

  /** Every callback keeps `Parked`, with no condition on the counter. */
  lemma ApplyParked(s: State, e: Event)
    requires Parked(s)
    ensures Parked(Apply(s, e))
  {
    match e
    case MethodCall(call, env) => MethodCallParked(s, call, env);
    case ActivityResult(code, resultCode, data) => ActivityResultParked(s, code, resultCode, data);
    case DetachedFromActivity => DetachedFromActivitySingleFire(s);
    case _ =>
  }

  /** From any `Parked` state, `Parked` holds along every run, however long. */
  lemma {:induction false} RunParked(s: State, es: seq<Event>)
    requires Parked(s)
    ensures Parked(Run(s, es))
    decreases |es|
  {
    if es != [] {
      ApplyParked(s, es[0]);
      RunParked(Apply(s, es[0]), es[1..]);
    }
  }

  /** `Parked` holds in every state reachable from the initial state, however long the run. */
  lemma ParkedOnEveryRun(es: seq<Event>)
    ensures Parked(Run(Init, es))
  {
    InitInv();
    RunParked(Init, es);
  }

  /**
   * Single-fire for the whole plugin: along any run from the plugin's
   * initial state, however long, no wrapper ever has two outcomes posted,
   * and a wrapper counts as replied exactly when its outcome is in the log.
   */
  lemma SingleFireOnEveryRun(es: seq<Event>)
    ensures OncePerSink(Run(Init, es).log, 0)
    ensures Run(Init, es).replied == Logged(Run(Init, es).log)
  {
    assert SingleFire(Init);
    RunSingleFire(Init, es);
  }
}
