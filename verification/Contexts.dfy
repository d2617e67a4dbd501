/** A cancellable context as Go's context package gives it: the first cause stays. */
module Contexts {
  import opened Common

  /** `Superseded` stands for the error a service gives the context of an older call. */
  datatype Cause = Superseded | Canceled | FromCaller(reason: string)

  function FromText(reason: Option<string>): Option<Cause> {
    if reason.None? then None else Some(FromCaller(reason.value))
  }

  function CancelCtx(ctxs: seq<Option<Cause>>, id: nat, cause: Cause): seq<Option<Cause>> {
    if id < |ctxs| && ctxs[id].None? then ctxs[id := Some(cause)] else ctxs
  }

  class Context {
    ghost const number: nat
    var cause: Option<Cause>

    constructor (ghost number: nat, inherited: Option<Cause>)
      ensures this.number == number && cause == inherited
    {
      this.number := number;
      cause := inherited;
    }

    method Cancel(c: Cause)
      modifies this
      ensures cause == if old(cause).Some? then old(cause) else Some(c)
    {
      if cause.None? {
        cause := Some(c);
      }
    }
  }

  /** The causes of contexts that are numbered by their place. */
  ghost function Causes(contexts: seq<Context>): (c: seq<Option<Cause>>)
    reads contexts
    ensures |c| == |contexts| && forall i :: 0 <= i < |c| ==> c[i] == contexts[i].cause
  {
    seq(|contexts|, i requires 0 <= i < |contexts| reads contexts => contexts[i].cause)
  }

  ghost predicate Numbered(contexts: seq<Context>) {
    forall i :: 0 <= i < |contexts| ==> contexts[i].number == i
  }

  ghost predicate IsOneOf(ctx: Context?, contexts: seq<Context>) {
    ctx != null ==> ctx.number < |contexts| && contexts[ctx.number] == ctx
  }
}
