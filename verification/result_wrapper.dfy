/**
 * MethodResultWrapper: a guard around one Flutter result callback that lets
 * exactly the first of `success`, `error` and `notImplemented` through.
 */
module ResultWrapper {
  import opened Wrappers
  import opened Channel

  /** The wrapper's only state: whether a reply has already gone out. */
  datatype Wrapper = Wrapper(hasReplied: bool)

  /** The effect of one call: the wrapper afterwards, and the reply posted to the main looper, if any. */
  datatype Step = Step(next: Wrapper, posted: Option<Reply>)

  /**
   * `success`, `error` and `notImplemented` share one check-and-set: the
   * first call flips `hasReplied` and posts its reply, every later call is a
   * silent no-op.
   */
  function Respond(w: Wrapper, r: Reply): (s: Step)
    ensures s.next.hasReplied
    ensures s.posted.Some? <==> !w.hasReplied
    ensures s.posted.Some? ==> s.posted.value == r
    ensures w.hasReplied ==> s.next == w
  {
    if w.hasReplied then Step(w, None)
    else Step(Wrapper(true), Some(r))
  }

  /** Feeds the calls `rs` to `w` in order; returns the final wrapper and every reply posted. */
  function RespondAll(w: Wrapper, rs: seq<Reply>): (r: (Wrapper, seq<Reply>))
    decreases |rs|
  {
    if rs == [] then (w, [])
    else
      var step := Respond(w, rs[0]);
      var rest := RespondAll(step.next, rs[1..]);
      (rest.0, (if step.posted.Some? then [step.posted.value] else []) + rest.1)
  }

  /**
   * Single-fire: whatever sequence of calls reaches a wrapper, it posts
   * only the first one, and nothing at all once it has replied.
   */
  lemma {:induction false} AtMostOneReply(w: Wrapper, rs: seq<Reply>)
    ensures RespondAll(w, rs).1 == (if w.hasReplied || rs == [] then [] else [rs[0]])
    ensures RespondAll(w, rs).0.hasReplied == (w.hasReplied || rs != [])
    decreases |rs|
  {
    if rs != [] {
      var step := Respond(w, rs[0]);
      AtMostOneReply(step.next, rs[1..]);
    }
  }
}
