# amberflutter: request correlation and single-fire delivery, in Dafny

The amberflutter Android plugin lets a Flutter app ask an external Nostr
signer app (Amber) for a signature or signed event. A signer call first tries
a synchronous content-resolver probe. If the probe has nothing, the plugin
issues a request code and parks the call's result callback in a table under
that code. It then launches the signer activity. The answer comes back
through `onActivityResult`, which takes the entry for the code and answers the
callback. Detaching the activity answers every parked callback with
`ACTIVITY_DETACHED`. Every signer call's callback is wrapped in
`MethodResultWrapper`, which lets only the first reply through.

This project models that core as one sequential state machine with pure
transition functions:

- `Plugin.State`:
  - the request-code counter (a 32-bit `AtomicInteger` starting at 1000);
  - the pending table (request code to wrapper);
  - the set of wrappers whose `hasReplied` flag is set;
  - the number of wrappers created;
  - the log of outcomes posted to the main looper;
  - whether an activity is attached.
- Each plugin callback is one function from state to state:
  - `OnMethodCall`, `OnActivityResult`;
  - `OnDetachedFromActivity`, `OnDetachedFromEngine`,
    `OnDetachedFromActivityForConfigChanges`, `OnAttachedToActivity`.
- `Lifecycle` composes the callbacks into runs. It proves three nested
  invariants:
  - `SingleFire` holds in every reachable state, however long the run. Its
    main consequence is single-fire delivery: no wrapper ever has two outcomes
    in the log.
  - `Parked` also holds in every reachable state. It adds that a pending
    wrapper has not replied and waits under one code only.
  - The stronger `Inv` holds in every state reached before the counter wraps,
    that is, along any run that issues at most 2147482647 codes, however many
    other callbacks it has. It adds that pending codes lie above 1000 and
    do not exceed the counter.
- Platform services are parameters, collected in `Plugin.Env`:
  - the content resolver: a query maps to a `Cursor` outcome;
  - the activity launcher: an intent maps to `Started` or `LaunchFault`;
  - the set of installed packages;
  - the OS release string.

Modules: `Wrappers` (Option), `Channel` (channel values, replies, constants),
`ResultWrapper`, `Request` (argument parsing, launch intent),
`ResolverProbe`, `RequestCodes`, `Plugin`, `Lifecycle`, `Properties`,
`Scenarios`.

The model follows the code as written; in particular:

- The first code issued is 1001, not 1000, because `incrementAndGet` runs on a
  counter that starts at 1000.
- Registering a code overwrites any existing entry. There is no duplicate-id
  check.
- Detachment iterates over the table and then clears it. It is not an atomic
  drain.
- There is no timeout. `onDetachedFromEngine` clears the table without
  answering, so those callers are never answered
  (`Properties.EngineDetachStrandsPending`).
- The counter is a Kotlin `Int`, and `incrementAndGet` wraps from 2147483647 to
  -2147483648. The model keeps the wrap. The lemmas that need increasing codes
  require the counter to have room for the codes the run issues, which holds
  for runs that issue at most 2147482647 codes. Single-fire delivery does not depend on this
  (`Lifecycle.SingleFireOnEveryRun`).

## Model

| member | source | states |
|---|---|---|
| ResultWrapper.Respond | android/src/main/kotlin/com/sebdeveloper6952/amberflutter/amberflutter/AmberflutterPlugin.kt:255-277 | the first of success/error/notImplemented sets hasReplied and posts its own reply; any later call posts nothing and leaves the wrapper as it was |
| ResultWrapper.AtMostOneReply | android/src/main/kotlin/com/sebdeveloper6952/amberflutter/amberflutter/AmberflutterPlugin.kt:247-277 | for any sequence of calls, a wrapper posts only the first reply, and nothing at all if it had already replied |
| Plugin.Post | android/src/main/kotlin/com/sebdeveloper6952/amberflutter/amberflutter/AmberflutterPlugin.kt:255-277 | handing a reply to a wrapper in the plugin state appends exactly one delivery and marks the wrapper replied, or changes nothing if it had replied |
| Request.ParseSignRequest | android/src/main/kotlin/com/sebdeveloper6952/amberflutter/amberflutter/AmberflutterPlugin.kt:50-66 | validation fails exactly when the arguments are null or not a map; otherwise each of the six fields is the string given, or "" when it is missing or not a string |
| Request.LaunchIntent | android/src/main/kotlin/com/sebdeveloper6952/amberflutter/amberflutter/AmberflutterPlugin.kt:86-100 | the launch intent is a VIEW of nostrsigner:uriData, carries type, current user, pubkey, id, permissions and the request code as extras, and does not carry uriData as an extra |
| ResolverProbe.ProbeQueryDeterminedBy | android/src/main/kotlin/com/sebdeveloper6952/amberflutter/amberflutter/AmberflutterPlugin.kt:69-73 | two requests give the same resolver query exactly when their types agree up to ASCII case and their uriData, pubKey and currentUser agree; id and permissions never reach the resolver |
| ResolverProbe.Probe | android/src/main/kotlin/com/sebdeveloper6952/amberflutter/amberflutter/AmberflutterPlugin.kt:197-240 | the probe is null exactly for a fault, a null cursor or an empty cursor; otherwise its keys are exactly those of signature/event that are columns, with the first row's cells |
| ResolverProbe.AnsweredIffColumn | android/src/main/kotlin/com/sebdeveloper6952/amberflutter/amberflutter/AmberflutterPlugin.kt:214-232 | the probe's answer is non-empty exactly when the first row has a signature or an event column |
| RequestCodes.IncrementAndGet | android/src/main/kotlin/com/sebdeveloper6952/amberflutter/amberflutter/AmberflutterPlugin.kt:81 | the next code is one more than the counter, wrapping from the largest Int to the smallest, and never equals the counter |
| RequestCodes.CodesConsecutive | android/src/main/kotlin/com/sebdeveloper6952/amberflutter/amberflutter/AmberflutterPlugin.kt:34 | before the wrap, the codes handed out from counter c are c+1, c+2, ... in order |
| RequestCodes.FirstCode | android/src/main/kotlin/com/sebdeveloper6952/amberflutter/amberflutter/AmberflutterPlugin.kt:34 | starting from 1000 the first code is 1001 |
| RequestCodes.WrapBreaksOrder | android/src/main/kotlin/com/sebdeveloper6952/amberflutter/amberflutter/AmberflutterPlugin.kt:81 | past the largest Int, a later code is smaller than an earlier one |
| Plugin.LaunchResult | android/src/main/kotlin/com/sebdeveloper6952/amberflutter/amberflutter/AmberflutterPlugin.kt:102-103 | with no activity the launch is skipped; otherwise the result is the launcher's outcome on the launch intent carrying the issued code |
| Plugin.Dispatch | android/src/main/kotlin/com/sebdeveloper6952/amberflutter/amberflutter/AmberflutterPlugin.kt:80-108 | the async path advances the counter by one code; a started or skipped launch leaves that code mapped to the wrapper and posts nothing; a faulting launch removes the code again and posts ACTIVITY_ERROR with the exception message |
| Plugin.Sign | android/src/main/kotlin/com/sebdeveloper6952/amberflutter/amberflutter/AmberflutterPlugin.kt:46-109 | the signer branch posts INVALID_ARGUMENTS for non-map arguments, posts the probe's answer as success when non-empty, and otherwise takes the async path |
| Plugin.DirectReply | android/src/main/kotlin/com/sebdeveloper6952/amberflutter/amberflutter/AmberflutterPlugin.kt:110-130 | isAppInstalled answers INVALID_ARGUMENTS for non-map arguments or a missing/non-string package name and otherwise whether the package is installed; getPlatformVersion answers "Android <release>"; any other method gets notImplemented |
| Plugin.OnMethodCall | android/src/main/kotlin/com/sebdeveloper6952/amberflutter/amberflutter/AmberflutterPlugin.kt:46-131 | each call creates a new unreplied wrapper; only the signer branch touches the counter and the table; every other branch posts exactly its direct reply |
| Plugin.ResponseReply | android/src/main/kotlin/com/sebdeveloper6952/amberflutter/amberflutter/AmberflutterPlugin.kt:138-158 | an OK result with an intent becomes a map holding exactly the present extras among signature/id/event; anything else is success(null), never an error |
| Plugin.OnActivityResult | android/src/main/kotlin/com/sebdeveloper6952/amberflutter/amberflutter/AmberflutterPlugin.kt:133-163 | for a pending code: returns true, removes only that entry and answers its wrapper; for any other code: returns false and changes nothing |
| Plugin.NotifyDetached | android/src/main/kotlin/com/sebdeveloper6952/amberflutter/amberflutter/AmberflutterPlugin.kt:174-176 | notifying the wrappers of the pending codes only appends to the log and leaves counter, table and activity alone |
| Plugin.NotifyDetachedReplied | android/src/main/kotlin/com/sebdeveloper6952/amberflutter/amberflutter/AmberflutterPlugin.kt:174-176 | after the loop the replied wrappers are the earlier ones plus every wrapper reached |
| Plugin.NotifyDetachedPostsOnce | android/src/main/kotlin/com/sebdeveloper6952/amberflutter/amberflutter/AmberflutterPlugin.kt:174-176 | the loop posts only ACTIVITY_DETACHED, only to reached wrappers that had not replied, and to none twice |
| Plugin.NotifyDetachedReachesAll | android/src/main/kotlin/com/sebdeveloper6952/amberflutter/amberflutter/AmberflutterPlugin.kt:174-176 | every reached wrapper that had not replied receives ACTIVITY_DETACHED |
| Plugin.NotifyDetachedCount | android/src/main/kotlin/com/sebdeveloper6952/amberflutter/amberflutter/AmberflutterPlugin.kt:174-176 | with distinct, unreplied wrappers the loop posts exactly one error per code |
| Plugin.OnDetachedFromActivity | android/src/main/kotlin/com/sebdeveloper6952/amberflutter/amberflutter/AmberflutterPlugin.kt:171-178 | detaching drops the activity, empties the table, keeps the counter and only appends to the log |
| Plugin.DetachNotifiesPending | android/src/main/kotlin/com/sebdeveloper6952/amberflutter/amberflutter/AmberflutterPlugin.kt:171-178 | detaching posts ACTIVITY_DETACHED exactly once to each pending unreplied wrapper and to nothing else; afterwards every pending wrapper has replied |
| Plugin.OnDetachedFromEngine | android/src/main/kotlin/com/sebdeveloper6952/amberflutter/amberflutter/AmberflutterPlugin.kt:165-169 | detaching the engine empties the table and posts nothing |
| Plugin.OnDetachedFromActivityForConfigChanges | android/src/main/kotlin/com/sebdeveloper6952/amberflutter/amberflutter/AmberflutterPlugin.kt:190-192 | a configuration change drops the activity and leaves the table and the log untouched |
| Plugin.OnAttachedToActivity | android/src/main/kotlin/com/sebdeveloper6952/amberflutter/amberflutter/AmberflutterPlugin.kt:180-188 | attaching (or reattaching) makes an activity available and changes nothing else |
| Lifecycle.AnswerAtOnceInv | android/src/main/kotlin/com/sebdeveloper6952/amberflutter/amberflutter/AmberflutterPlugin.kt:55-77 | answering the call's own new wrapper at once keeps Inv |
| Lifecycle.DispatchInv | android/src/main/kotlin/com/sebdeveloper6952/amberflutter/amberflutter/AmberflutterPlugin.kt:80-108 | the async path keeps Inv: the new code is above every pending code and the new wrapper is distinct from every pending one |
| Lifecycle.MethodCallInv | android/src/main/kotlin/com/sebdeveloper6952/amberflutter/amberflutter/AmberflutterPlugin.kt:46-131 | onMethodCall keeps Inv while the counter is below the largest Int |
| Lifecycle.ActivityResultInv | android/src/main/kotlin/com/sebdeveloper6952/amberflutter/amberflutter/AmberflutterPlugin.kt:133-163 | onActivityResult keeps Inv |
| Lifecycle.DetachedFromActivityInv | android/src/main/kotlin/com/sebdeveloper6952/amberflutter/amberflutter/AmberflutterPlugin.kt:171-178 | onDetachedFromActivity keeps Inv |
| Lifecycle.ApplyInv | android/src/main/kotlin/com/sebdeveloper6952/amberflutter/amberflutter/AmberflutterPlugin.kt:46-192 | every callback keeps Inv while the counter is below the largest Int |
| Lifecycle.ApplyCounter | android/src/main/kotlin/com/sebdeveloper6952/amberflutter/amberflutter/AmberflutterPlugin.kt:81 | a callback leaves the counter alone or advances it by exactly one incrementAndGet |
| Lifecycle.IssuedFollowGenerator | android/src/main/kotlin/com/sebdeveloper6952/amberflutter/amberflutter/AmberflutterPlugin.kt:81 | the codes a run issues are exactly the generator's next codes in order, and the counter ends on the last one |
| Lifecycle.CodesNeverReused | android/src/main/kotlin/com/sebdeveloper6952/amberflutter/amberflutter/AmberflutterPlugin.kt:34 | while a run issues no more codes than the counter has room for, however many callbacks it has, its codes strictly increase, lie above the starting counter, and start at 1001 from the initial state |
| Lifecycle.RunInv | android/src/main/kotlin/com/sebdeveloper6952/amberflutter/amberflutter/AmberflutterPlugin.kt:46-192 | Inv holds along any run that issues no more codes than the counter has room for, however many callbacks issue none |
| Lifecycle.ApplyIdleInv | android/src/main/kotlin/com/sebdeveloper6952/amberflutter/amberflutter/AmberflutterPlugin.kt:46-192 | a callback that issues no code keeps Inv whatever the counter |
| Lifecycle.AnswerAtOnceSingleFire | android/src/main/kotlin/com/sebdeveloper6952/amberflutter/amberflutter/AmberflutterPlugin.kt:55-77 | answering the call's own new wrapper at once keeps SingleFire |
| Lifecycle.DispatchSingleFire | android/src/main/kotlin/com/sebdeveloper6952/amberflutter/amberflutter/AmberflutterPlugin.kt:80-108 | the async path keeps SingleFire, even when the code it registers overwrites an entry |
| Lifecycle.MethodCallSingleFire | android/src/main/kotlin/com/sebdeveloper6952/amberflutter/amberflutter/AmberflutterPlugin.kt:46-131 | onMethodCall keeps SingleFire whatever the counter |
| Lifecycle.ActivityResultSingleFire | android/src/main/kotlin/com/sebdeveloper6952/amberflutter/amberflutter/AmberflutterPlugin.kt:133-163 | onActivityResult keeps SingleFire; a wrapper that had replied is not posted to again |
| Lifecycle.DetachedFromActivitySingleFire | android/src/main/kotlin/com/sebdeveloper6952/amberflutter/amberflutter/AmberflutterPlugin.kt:171-178 | onDetachedFromActivity keeps SingleFire: it posts once to each pending wrapper that had not replied |
| Lifecycle.ApplySingleFire | android/src/main/kotlin/com/sebdeveloper6952/amberflutter/amberflutter/AmberflutterPlugin.kt:46-192 | every callback keeps SingleFire, with no condition on the counter |
| Lifecycle.RunSingleFire | android/src/main/kotlin/com/sebdeveloper6952/amberflutter/amberflutter/AmberflutterPlugin.kt:46-192 | SingleFire holds along every run, however long |
| Lifecycle.AnswerAtOnceParked | android/src/main/kotlin/com/sebdeveloper6952/amberflutter/amberflutter/AmberflutterPlugin.kt:55-77 | answering the call's own new wrapper at once keeps Parked |
| Lifecycle.DispatchParked | android/src/main/kotlin/com/sebdeveloper6952/amberflutter/amberflutter/AmberflutterPlugin.kt:80-108 | the async path keeps Parked whatever the counter: an overwritten entry's wrapper leaves the table, and the new wrapper differs from every other pending one |
| Lifecycle.MethodCallParked | android/src/main/kotlin/com/sebdeveloper6952/amberflutter/amberflutter/AmberflutterPlugin.kt:46-131 | onMethodCall keeps Parked whatever the counter |
| Lifecycle.ActivityResultParked | android/src/main/kotlin/com/sebdeveloper6952/amberflutter/amberflutter/AmberflutterPlugin.kt:133-163 | onActivityResult keeps Parked: the wrapper that replies leaves the table with its code |
| Lifecycle.ApplyParked | android/src/main/kotlin/com/sebdeveloper6952/amberflutter/amberflutter/AmberflutterPlugin.kt:46-192 | every callback keeps Parked, with no condition on the counter |
| Lifecycle.RunParked | android/src/main/kotlin/com/sebdeveloper6952/amberflutter/amberflutter/AmberflutterPlugin.kt:46-192 | from any Parked state, Parked holds along every run, however long |
| Lifecycle.ParkedOnEveryRun | android/src/main/kotlin/com/sebdeveloper6952/amberflutter/amberflutter/AmberflutterPlugin.kt:46-192 | Parked holds in every state reachable from the initial state |
| Lifecycle.SingleFireOnEveryRun | android/src/main/kotlin/com/sebdeveloper6952/amberflutter/amberflutter/AmberflutterPlugin.kt:247-277 | along any run from the initial state, however long, no wrapper ever has two outcomes posted, and a wrapper has replied exactly when its outcome is in the log |
| Properties.InvalidArgumentsAllocateNothing | android/src/main/kotlin/com/sebdeveloper6952/amberflutter/amberflutter/AmberflutterPlugin.kt:50-59 | null or non-map arguments post INVALID_ARGUMENTS to the call's wrapper and leave the counter and the table unchanged |
| Properties.ProbeAnswerBypassesDispatch | android/src/main/kotlin/com/sebdeveloper6952/amberflutter/amberflutter/AmberflutterPlugin.kt:68-78 | a non-empty probe answer is posted as success and leaves the counter, the table and the activity untouched |
| Properties.DispatchRegistersFreshCode | android/src/main/kotlin/com/sebdeveloper6952/amberflutter/amberflutter/AmberflutterPlugin.kt:80-108 | before the counter wraps, the new code is not yet pending; the table gains exactly that code mapped to the call's wrapper; on a launch fault the table is as before and ACTIVITY_ERROR is the only post |
| Properties.ResponseDeliveredOnce | android/src/main/kotlin/com/sebdeveloper6952/amberflutter/amberflutter/AmberflutterPlugin.kt:133-163 | in every reachable state, an answer for a pending code removes that entry and posts once; a duplicate answer for the same code returns false and changes nothing |
| Properties.LateResponseIgnored | android/src/main/kotlin/com/sebdeveloper6952/amberflutter/amberflutter/AmberflutterPlugin.kt:135-162 | after the activity detaches, an answer for any code returns false and changes nothing |
| Properties.DetachAnswersEveryPending | android/src/main/kotlin/com/sebdeveloper6952/amberflutter/amberflutter/AmberflutterPlugin.kt:171-178 | in every reachable state, however long the run, detaching posts exactly one ACTIVITY_DETACHED per pending code, one to each pending wrapper, and empties the table |
| Properties.StrandedStays | android/src/main/kotlin/com/sebdeveloper6952/amberflutter/amberflutter/AmberflutterPlugin.kt:165-169 | a wrapper that has not replied and waits under no code cannot be reached by any callback |
| Properties.StrandedForever | android/src/main/kotlin/com/sebdeveloper6952/amberflutter/amberflutter/AmberflutterPlugin.kt:165-169 | such a wrapper stays unanswered through any run |
| Properties.EngineDetachStrandsPending | android/src/main/kotlin/com/sebdeveloper6952/amberflutter/amberflutter/AmberflutterPlugin.kt:165-169 | in every reachable state, every request pending when the engine detaches never receives an outcome, whatever follows |
| Scenarios.SignCallWaits | android/src/main/kotlin/com/sebdeveloper6952/amberflutter/amberflutter/AmberflutterPlugin.kt:80-103 | with an activity, a signer call whose probe finds no row waits under the next code and posts nothing |
| Scenarios.AnswerFields | android/src/main/kotlin/com/sebdeveloper6952/amberflutter/amberflutter/AmberflutterPlugin.kt:138-154 | an OK answer with a signature and an event gives exactly those two fields |
| Scenarios.WaitingAfterCall | android/src/main/kotlin/com/sebdeveloper6952/amberflutter/amberflutter/AmberflutterPlugin.kt:81-84 | after attaching and one such call, code 1001 is pending for the first wrapper |
| Scenarios.DispatchThenAnswer | android/src/main/kotlin/com/sebdeveloper6952/amberflutter/amberflutter/AmberflutterPlugin.kt:133-159 | the waiting caller receives exactly the signature and event, without an id, and the table is empty again |
| Scenarios.DispatchThenDetach | android/src/main/kotlin/com/sebdeveloper6952/amberflutter/amberflutter/AmberflutterPlugin.kt:171-178 | detaching before the answer gives the waiting caller ACTIVITY_DETACHED and empties the table |
| Scenarios.ProbeAnswersAtOnce | android/src/main/kotlin/com/sebdeveloper6952/amberflutter/amberflutter/AmberflutterPlugin.kt:68-78 | a probe that finds a signature answers at once, and no code is issued |

## Left out

- Thread hopping and locking are not modelled. This covers `Handler`/`Looper`,
  `@Synchronized`, `@Volatile` and the atomicity of `AtomicInteger`. Every
  callback is one atomic step. A delivery is recorded in the log when it is
  posted. The main thread later runs posts in that order.
- Flutter and Android plumbing is not modelled. This covers `MethodChannel`
  setup, `onAttachedToEngine`, `addActivityResultListener` and `Log` calls.
  `Intent`, `Uri` and cursor APIs are replaced by values: `Request.Intent`,
  `ResolverProbe.Query`, `ResolverProbe.Cursor`, and `Plugin.Launch` for the
  result of `startActivityForResult`.
- The isAppInstalled, getPlatformVersion and not-implemented branches answer the
  raw callback, not a wrapper. The model logs their single reply the same way
  and marks the callback replied. Each of these branches replies exactly once,
  so the log is the same either way.
- `isPackageInstalled` is membership in a given set of installed packages.
  `PackageManager` is foreign.
- `ResolverProbe.Upper` upper-cases ASCII letters only. Kotlin's `uppercase()`
  follows Unicode.
- Error details are always `null` in the source, so `Channel.Reply.Error` has
  no details field.
- `Plugin.NotifyDetached` visits codes in ascending order. The table is a
  `LinkedHashMap`, which iterates in insertion order. The two orders agree
  while codes increase, that is, before the counter wraps.
- The constants file of the `models` package is not part of this model.
  `Channel` uses stand-in strings for the method name, the extra keys and the
  signer package. The proofs rely only on the keys being distinct.
- Platform limits on `startActivityForResult` request codes (for example a
  16-bit limit in some activity classes) are not modelled.
