/**
 * AmberflutterPlugin as one sequential state machine: the request-code
 * counter, the table of pending results, the wrappers' `hasReplied` flags,
 * and the log of outcomes posted to the main looper. Every callback of the
 * plugin is one atomic transition.
 */
module Plugin {
  import opened Wrappers
  import opened Channel
  import opened Request
  import opened ResolverProbe
  import opened RequestCodes
  import ResultWrapper

  /**
   * - `counter`: `_requestCodeGenerator`
   * - `pending`: `_pendingResults`, request code to the wrapper waiting for it
   * - `replied`: the wrappers whose `hasReplied` is set
   * - `sinks`: wrappers created so far; wrapper `k` belongs to the `k`-th method call
   * - `log`: every outcome posted downstream, in order
   * - `hasActivity`: `_activity != null`
   */
  datatype State = State(
    counter: int32,
    pending: map<int32, SinkId>,
    replied: set<SinkId>,
    sinks: nat,
    log: seq<Delivery>,
    hasActivity: bool)

  /** The plugin as constructed: counter at 1000, nothing pending, no activity yet. */
  const Init := State(InitialCounter, map[], {}, 0, [], false)

  /** What `startActivityForResult` did: started the signer, or threw (with a nullable message). */
  datatype Launch = Started | LaunchFault(message: Option<string>)

  /**
   * The platform services the plugin calls out to: the content resolver, the
   * activity launcher, the installed packages and the OS release string.
   */
  datatype Env = Env(
    resolver: Query -> Cursor,
    launcher: Intent -> Launch,
    installed: set<string>,
    release: string)

  /** An incoming method call. */
  datatype Call = Call(name: string, arguments: Arguments)

  /**
   * Hands `r` to wrapper `sink`: the wrapper's check-and-set decides whether
   * anything is posted. A wrapper that already replied changes nothing.
   */
  function Post(s: State, sink: SinkId, r: Reply): (t: State)
    ensures sink in s.replied ==> t == s
    ensures sink !in s.replied ==> t == s.(replied := s.replied + {sink}, log := s.log + [Delivery(sink, r)])
  {
    var step := ResultWrapper.Respond(ResultWrapper.Wrapper(sink in s.replied), r);
    s.(replied := if step.next.hasReplied then s.replied + {sink} else s.replied,
       log := if step.posted.Some? then s.log + [Delivery(sink, step.posted.value)] else s.log)
  }

  /** The probe's answer for `req`, asking the resolver of `env`. */
  function SyncAnswer(req: SignRequest, env: Env): (r: Option<Fields>)
  {
    Probe(env.resolver(ProbeQuery(req)))
  }

  /**
   * What the launch did: None when there is no activity, so `_activity?.`
   * skips the call; otherwise whatever the launcher does with the launch
   * intent, which carries `code` as its REQUEST_CODE extra.
   */
  function LaunchResult(hasActivity: bool, req: SignRequest, code: int32, env: Env): (r: Option<Launch>)
    ensures r.None? <==> !hasActivity
    ensures hasActivity ==> r == Some(env.launcher(LaunchIntent(req, code)))
  {
    if hasActivity then Some(env.launcher(LaunchIntent(req, code))) else None
  }

  /** The ACTIVITY_ERROR message; a null exception message prints as "null". */
  function LaunchFaultReply(message: Option<string>): (r: Reply)
  {
    Error(ActivityError, LaunchFailedPrefix + message.GetOr("null"))
  }

  /**
   * The asynchronous path: allocate the next code, register the wrapper
   * under it, and launch. Without an activity, or when the launch starts,
   * the entry stays pending; when the launch throws, the entry is removed
   * again and ACTIVITY_ERROR is delivered.
   */
  function Dispatch(s: State, sink: SinkId, req: SignRequest, env: Env): (t: State)
    requires sink !in s.replied
    ensures t.counter == IncrementAndGet(s.counter)
    ensures t.sinks == s.sinks && t.hasActivity == s.hasActivity
    ensures var launch := LaunchResult(s.hasActivity, req, t.counter, env);
      launch.None? || launch.value.Started? ==>
        t.pending == s.pending[t.counter := sink] && t.replied == s.replied && t.log == s.log
    ensures var launch := LaunchResult(s.hasActivity, req, t.counter, env);
      launch.Some? && launch.value.LaunchFault? ==>
        && t.pending == s.pending - {t.counter}
        && t.replied == s.replied + {sink}
        && t.log == s.log + [Delivery(sink, LaunchFaultReply(launch.value.message))]
  {
    var code := IncrementAndGet(s.counter);
    var registered := s.(counter := code, pending := s.pending[code := sink]);
    match LaunchResult(s.hasActivity, req, code, env)
    case None => registered
    case Some(Started) => registered
    case Some(LaunchFault(message)) =>
      Post(registered.(pending := registered.pending - {code}), sink, LaunchFaultReply(message))
  }

  /**
   * The signer branch of `onMethodCall` for a fresh wrapper `sink`:
   * INVALID_ARGUMENTS when the arguments are not a map; a success carrying
   * the probe's answer when it is non-empty; the asynchronous path otherwise.
   */
  function Sign(s: State, sink: SinkId, args: Arguments, env: Env): (t: State)
    requires sink !in s.replied
    ensures t.sinks == s.sinks && t.hasActivity == s.hasActivity
    ensures ParseSignRequest(args).None? ==>
      t == s.(replied := s.replied + {sink},
               log := s.log + [Delivery(sink, Error(InvalidArguments, NullParamsMessage))])
    ensures ParseSignRequest(args).Some? && Answered(SyncAnswer(ParseSignRequest(args).value, env)) ==>
      t == s.(replied := s.replied + {sink},
               log := s.log + [Delivery(sink, Success(FieldMap(SyncAnswer(ParseSignRequest(args).value, env).value)))])
    ensures ParseSignRequest(args).Some? && !Answered(SyncAnswer(ParseSignRequest(args).value, env)) ==>
      t == Dispatch(s, sink, ParseSignRequest(args).value, env)
  {
    match ParseSignRequest(args)
    case None => Post(s, sink, Error(InvalidArguments, NullParamsMessage))
    case Some(req) =>
      var data := SyncAnswer(req, env);
      if Answered(data) then Post(s, sink, Success(FieldMap(data.value)))
      else Dispatch(s, sink, req, env)
  }

  /**
   * The reply of the branches that answer the raw result directly:
   * `isAppInstalled` (with its two INVALID_ARGUMENTS cases),
   * `getPlatformVersion`, and notImplemented for any other method.
   */
  function DirectReply(call: Call, env: Env): (r: Reply)
    requires call.name != SignerMethod
    ensures call.name == IsAppInstalledMethod && !call.arguments.ArgMap? ==>
      r == Error(InvalidArguments, NullParamsMessage)
    ensures call.name == IsAppInstalledMethod && call.arguments.ArgMap? ==>
      var m := call.arguments.entries;
      (KeyPackageName in m && m[KeyPackageName].ArgString? ==> r == Success(Bool(m[KeyPackageName].s in env.installed)))
      && (KeyPackageName !in m || !m[KeyPackageName].ArgString? ==> r == Error(InvalidArguments, PackageNameMessage))
    ensures call.name == PlatformVersionMethod ==> r == Success(Text("Android " + env.release))
    ensures call.name !in {IsAppInstalledMethod, PlatformVersionMethod} ==> r == NotImplemented
  {
    if call.name == IsAppInstalledMethod then
      match ParamsMap(call.arguments)
      case None => Error(InvalidArguments, NullParamsMessage)
      case Some(m) =>
        if KeyPackageName in m && m[KeyPackageName].ArgString? then
          Success(Bool(m[KeyPackageName].s in env.installed))
        else Error(InvalidArguments, PackageNameMessage)
    else if call.name == PlatformVersionMethod then
      Success(Text("Android " + env.release))
    else NotImplemented
  }

  /**
   * The state just after `onMethodCall` creates the call's wrapper: the
   * wrapper is numbered `s.sinks` and starts with `hasReplied` clear.
   */
  function Created(s: State): (t: State)
    ensures t.sinks == s.sinks + 1 && s.sinks !in t.replied
    ensures t.replied + {s.sinks} == s.replied + {s.sinks}
    ensures t.counter == s.counter && t.pending == s.pending && t.log == s.log && t.hasActivity == s.hasActivity
  {
    s.(sinks := s.sinks + 1, replied := s.replied - {s.sinks})
  }

  /**
   * `onMethodCall`: the call gets a new wrapper, numbered `s.sinks`, which
   * starts with `hasReplied` clear. Only the signer branch touches the
   * counter and the table; the other branches answer at once.
   */
  function OnMethodCall(s: State, call: Call, env: Env): (t: State)
    ensures t.sinks == s.sinks + 1 && t.hasActivity == s.hasActivity
    ensures call.name == SignerMethod ==>
      t == Sign(Created(s), s.sinks, call.arguments, env)
    ensures call.name != SignerMethod ==>
      && t.counter == s.counter && t.pending == s.pending
      && t.replied == s.replied + {s.sinks}
      && t.log == s.log + [Delivery(s.sinks, DirectReply(call, env))]
  {
    if call.name == SignerMethod then Sign(Created(s), s.sinks, call.arguments, env)
    else Post(Created(s), s.sinks, DirectReply(call, env))
  }

  /**
   * What the waiting caller receives from the signer's answer: when the
   * result is OK and an intent came back, a map holding exactly the extras
   * present among signature, id and event; otherwise `success(null)`.
   * Cancellation is not an error.
   */
  function ResponseReply(resultCode: int32, data: Option<Extras>): (r: Reply)
    ensures r.Success?
    ensures resultCode == ResultOk && data.Some? ==>
      && r.value.FieldMap?
      && r.value.fields.Keys == data.value.Keys * {KeySignature, KeyId, KeyEvent}
      && forall k :: k in r.value.fields ==> r.value.fields[k] == StringExtra(data.value, k)
    ensures !(resultCode == ResultOk && data.Some?) ==> r.value == Null
  {
    if resultCode == ResultOk && data.Some? then
      var extras := data.value;
      var none: Fields := map[];
      var withSignature := if KeySignature in extras then none[KeySignature := StringExtra(extras, KeySignature)] else none;
      var withId := if KeyId in extras then withSignature[KeyId := StringExtra(extras, KeyId)] else withSignature;
      var withEvent := if KeyEvent in extras then withId[KeyEvent := StringExtra(extras, KeyEvent)] else withId;
      Success(FieldMap(withEvent))
    else Success(Null)
  }

  /** A transition that also returns the callback's boolean answer. */
  datatype Handled = Handled(state: State, handled: bool)

  /**
   * `onActivityResult`: for a pending code, take that one entry out of the
   * table, answer its wrapper and report true; for any other code report
   * false and change nothing.
   */
  function OnActivityResult(s: State, requestCode: int32, resultCode: int32, data: Option<Extras>): (h: Handled)
    ensures h.handled <==> requestCode in s.pending
    ensures !h.handled ==> h.state == s
    ensures h.handled ==>
      && h.state.pending == s.pending - {requestCode}
      && h.state.counter == s.counter && h.state.sinks == s.sinks && h.state.hasActivity == s.hasActivity
      && h.state.replied == s.replied + {s.pending[requestCode]}
      && (s.pending[requestCode] !in s.replied ==>
            h.state.log == s.log + [Delivery(s.pending[requestCode], ResponseReply(resultCode, data))])
      && (s.pending[requestCode] in s.replied ==> h.state.log == s.log)
  {
    if requestCode in s.pending then
      var sink := s.pending[requestCode];
      Handled(Post(s.(pending := s.pending - {requestCode}), sink, ResponseReply(resultCode, data)), true)
    else Handled(s, false)
  }

  /** The wrappers the codes `codes` lead to in `table`. */
  function Image(codes: set<int32>, table: map<int32, SinkId>): (sinks: set<SinkId>)
    requires codes <= table.Keys
  {
    set c | c in codes :: table[c]
  }

  /** No two of `codes` lead to the same wrapper. */
  predicate Distinct(codes: set<int32>, table: map<int32, SinkId>)
    requires codes <= table.Keys
  {
    forall a, b :: a in codes && b in codes && a != b ==> table[a] != table[b]
  }

  /** `m` is the least of `codes`. */
  predicate IsLeast(m: int32, codes: set<int32>)
  {
    m in codes && forall c :: c in codes ==> m <= c
  }

  /** A non-empty finite set of codes has a least element. */
  lemma {:induction false} LeastExists(codes: set<int32>)
    requires codes != {}
    ensures exists m :: IsLeast(m, codes)
    decreases |codes|
  {
    var x :| x in codes;
    if codes == {x} {
      assert IsLeast(x, codes);
    } else {
      var rest := codes - {x};
      LeastExists(rest);
      var least :| IsLeast(least, rest);
      assert forall c :: c in codes ==> c == x || c in rest;
      if x <= least {
        assert IsLeast(x, codes);
      } else {
        assert IsLeast(least, codes);
      }
    }
  }

  /** The least code of a non-empty set. */
  function MinCode(codes: set<int32>): (m: int32)
    requires codes != {}
    ensures IsLeast(m, codes)
  {
    LeastExists(codes);
    var m :| IsLeast(m, codes);
    m
  }

  /** Every entry of `log` from `from` on is ACTIVITY_DETACHED to one of `targets`. */
  predicate OnlyDetachedTo(log: seq<Delivery>, from: nat, targets: set<SinkId>)
  {
    forall i :: from <= i < |log| ==> log[i].reply == DetachedReply && log[i].sink in targets
  }

  /** No wrapper appears twice in `log` from `from` on. */
  predicate OncePerSink(log: seq<Delivery>, from: nat)
  {
    forall i, j :: from <= i < j < |log| ==> log[i].sink != log[j].sink
  }

  /** Every one of `targets` appears in `log` from `from` on. */
  predicate ReachesAll(log: seq<Delivery>, from: nat, targets: set<SinkId>)
  {
    forall k :: k in targets ==> exists i :: from <= i < |log| && log[i].sink == k
  }

  /** Taking one code out of `codes` takes its wrapper out of the image, and nothing else when wrappers are distinct. */
  lemma ImageSplit(codes: set<int32>, table: map<int32, SinkId>, c: int32)
    requires codes <= table.Keys && c in codes
    ensures Image(codes, table) == {table[c]} + Image(codes - {c}, table)
    ensures Distinct(codes, table) ==> table[c] !in Image(codes - {c}, table) && Distinct(codes - {c}, table)
  {
  }

  /**
   * The loop of `onDetachedFromActivity`: ACTIVITY_DETACHED to the wrapper of
   * every code in `codes`, in ascending code order (the insertion order of
   * the table's LinkedHashMap, since codes are issued in increasing order).
   * It only appends to the log and touches nothing but the replied flags.
   */
  function NotifyDetached(s: State, codes: set<int32>, table: map<int32, SinkId>): (t: State)
    requires codes <= table.Keys
    ensures t.counter == s.counter && t.pending == s.pending && t.sinks == s.sinks && t.hasActivity == s.hasActivity
    ensures |s.log| <= |t.log| && t.log[..|s.log|] == s.log
    decreases |codes|
  {
    if codes == {} then s
    else
      var c := MinCode(codes);
      var s1 := Post(s, table[c], DetachedReply);
      var t := NotifyDetached(s1, codes - {c}, table);
      assert t.log[..|s.log|] == t.log[..|s1.log|][..|s.log|];
      t
  }

  /** After the loop, exactly the wrappers reached have `hasReplied` set, besides those already set. */
  lemma {:induction false} NotifyDetachedReplied(s: State, codes: set<int32>, table: map<int32, SinkId>)
    requires codes <= table.Keys
    ensures NotifyDetached(s, codes, table).replied == s.replied + Image(codes, table)
    decreases |codes|
  {
    if codes != {} {
      var c := MinCode(codes);
      ImageSplit(codes, table, c);
      NotifyDetachedReplied(Post(s, table[c], DetachedReply), codes - {c}, table);
    }
  }

  /**
   * Everything the loop posts is ACTIVITY_DETACHED, to a wrapper reached
   * that had not replied before, and no wrapper receives it twice.
   */
  lemma {:induction false} NotifyDetachedPostsOnce(s: State, codes: set<int32>, table: map<int32, SinkId>)
    requires codes <= table.Keys
    ensures OnlyDetachedTo(NotifyDetached(s, codes, table).log, |s.log|, Image(codes, table) - s.replied)
    ensures OncePerSink(NotifyDetached(s, codes, table).log, |s.log|)
    decreases |codes|
  {
    if codes != {} {
      var c := MinCode(codes);
      var s1 := Post(s, table[c], DetachedReply);
      ImageSplit(codes, table, c);
      NotifyDetachedPostsOnce(s1, codes - {c}, table);
      var t := NotifyDetached(s1, codes - {c}, table);
      assert t == NotifyDetached(s, codes, table);
      assert t.log[..|s1.log|] == s1.log;
      forall i | |s.log| <= i < |s1.log|
        ensures t.log[i] == Delivery(table[c], DetachedReply) && table[c] !in s.replied
      {
        assert t.log[i] == s1.log[i];
      }
      forall i | |s1.log| <= i < |t.log|
        ensures t.log[i].reply == DetachedReply && t.log[i].sink in Image(codes, table)
        ensures t.log[i].sink !in s1.replied
      {
      }
      forall i, j | |s.log| <= i < j < |t.log|
        ensures t.log[i].sink != t.log[j].sink
      {
        if i < |s1.log| {
          assert table[c] in s1.replied;
          assert j >= |s1.log|;
        }
      }
    }
  }

  /** Every wrapper reached that had not replied receives the error. */
  lemma {:induction false} NotifyDetachedReachesAll(s: State, codes: set<int32>, table: map<int32, SinkId>)
    requires codes <= table.Keys
    ensures ReachesAll(NotifyDetached(s, codes, table).log, |s.log|, Image(codes, table) - s.replied)
    decreases |codes|
  {
    if codes != {} {
      var c := MinCode(codes);
      var s1 := Post(s, table[c], DetachedReply);
      ImageSplit(codes, table, c);
      NotifyDetachedReachesAll(s1, codes - {c}, table);
      var t := NotifyDetached(s1, codes - {c}, table);
      assert t == NotifyDetached(s, codes, table);
      forall k | k in Image(codes, table) - s.replied
        ensures exists i :: |s.log| <= i < |t.log| && t.log[i].sink == k
      {
        if k == table[c] {
          assert t.log[|s.log|] == t.log[..|s1.log|][|s.log|] == s1.log[|s.log|];
        } else {
          assert k in Image(codes - {c}, table) - s1.replied;
        }
      }
    }
  }

  /** When the codes lead to distinct wrappers none of which has replied, one error is posted per code. */
  lemma {:induction false} NotifyDetachedCount(s: State, codes: set<int32>, table: map<int32, SinkId>)
    requires codes <= table.Keys
    requires Distinct(codes, table) && Image(codes, table) !! s.replied
    ensures |NotifyDetached(s, codes, table).log| == |s.log| + |codes|
    decreases |codes|
  {
    if codes != {} {
      var c := MinCode(codes);
      ImageSplit(codes, table, c);
      NotifyDetachedCount(Post(s, table[c], DetachedReply), codes - {c}, table);
    }
  }

  /**
   * `onDetachedFromActivity`: drop the activity, send ACTIVITY_DETACHED to
   * every pending wrapper, then clear the table.
   */
  function OnDetachedFromActivity(s: State): (t: State)
    ensures t.pending == map[] && !t.hasActivity
    ensures t.counter == s.counter && t.sinks == s.sinks
    ensures |s.log| <= |t.log| && t.log[..|s.log|] == s.log
  {
    NotifyDetached(s.(hasActivity := false), s.pending.Keys, s.pending).(pending := map[])
  }

  /**
   * What detachment delivers: ACTIVITY_DETACHED exactly once to every
   * pending wrapper that had not replied, and to nothing else; afterwards
   * every previously pending wrapper has replied.
   */
  lemma DetachNotifiesPending(s: State)
    ensures OnDetachedFromActivity(s).replied == s.replied + s.pending.Values
    ensures OnlyDetachedTo(OnDetachedFromActivity(s).log, |s.log|, s.pending.Values - s.replied)
    ensures OncePerSink(OnDetachedFromActivity(s).log, |s.log|)
    ensures ReachesAll(OnDetachedFromActivity(s).log, |s.log|, s.pending.Values - s.replied)
    ensures Distinct(s.pending.Keys, s.pending) && s.pending.Values !! s.replied ==>
      |OnDetachedFromActivity(s).log| == |s.log| + |s.pending|
  {
    var s0 := s.(hasActivity := false);
    assert Image(s.pending.Keys, s.pending) == s.pending.Values;
    NotifyDetachedReplied(s0, s.pending.Keys, s.pending);
    NotifyDetachedPostsOnce(s0, s.pending.Keys, s.pending);
    NotifyDetachedReachesAll(s0, s.pending.Keys, s.pending);
    if Distinct(s.pending.Keys, s.pending) && s.pending.Values !! s.replied {
      NotifyDetachedCount(s0, s.pending.Keys, s.pending);
      assert |s.pending.Keys| == |s.pending|;
    }
  }

  /** `onDetachedFromEngine`: the table is cleared and nothing is delivered. */
  function OnDetachedFromEngine(s: State): (t: State)
    ensures t.pending == map[]
    ensures t.log == s.log && t.replied == s.replied
    ensures t.counter == s.counter && t.sinks == s.sinks && t.hasActivity == s.hasActivity
  {
    s.(pending := map[])
  }

  /** `onDetachedFromActivityForConfigChanges`: the activity is dropped and the table kept. */
  function OnDetachedFromActivityForConfigChanges(s: State): (t: State)
    ensures !t.hasActivity
    ensures t.pending == s.pending && t.log == s.log && t.replied == s.replied
    ensures t.counter == s.counter && t.sinks == s.sinks
  {
    s.(hasActivity := false)
  }

  /** `onAttachedToActivity` and `onReattachedToActivityForConfigChanges`: an activity is available again. */
  function OnAttachedToActivity(s: State): (t: State)
    ensures t.hasActivity
    ensures t.pending == s.pending && t.log == s.log && t.replied == s.replied
    ensures t.counter == s.counter && t.sinks == s.sinks
  {
    s.(hasActivity := true)
  }
}
