/**
 * `ChainableHandler` of `handlers/chainable.handler.ts`: a handler that wraps
 * another one, runs it as its own validation, and then passes the update on
 * to the next handler of its chain.
 */
module Chainable {
  import opened Handlers

  class ChainableHandler {
    /** The wrapped handler. */
    const handler: Handler
    /** The next handler of the chain, `null` at the tail. */
    var next: ChainableHandler?

    constructor (handler: Handler)
      ensures this.handler == handler && next == null
    {
      this.handler := handler;
      next := null;
    }

    /** `setNext`: link `h` after this handler and return it. */
    method SetNext(h: ChainableHandler) returns (r: ChainableHandler)
      modifies this
      ensures next == h && r == h
    {
      next := h;
      return h;
    }

    /** `validation`: run the wrapped handler; `true` when its `execute`
        resolves, `false` when it rejects. */
    function Validation(ctx: Context): (v: Step<bool>)
      ensures v.Returns?
    {
      Returns(ExecuteOn(handler, ctx).completion == Resolved)
    }

    /** `handle` does nothing: the work happened during validation. */
    function Handle(ctx: Context): Completion {
      Resolved
    }

    /** `execute`: run this handler's own `execute` (which runs the wrapped
        handler), then, if there is a next handler, its `execute`. Along a chain
        every wrapped handler runs exactly once, in chain order. */
    method Execute(ctx: Context, ghost chain: seq<ChainableHandler>) returns (runs: seq<Execution>)
      requires IsChain(chain) && chain != [] && chain[0] == this
      ensures runs == Runs(chain, ctx)
      ensures |runs| == |chain|
      ensures forall i :: 0 <= i < |chain| ==> runs[i] == ExecuteOn(chain[i].handler, ctx)
      decreases |chain|
    {
      // super.execute: its validation runs the wrapped handler, and it never
      // rejects, so control always reaches the next handler.
      runs := [ExecuteOn(handler, ctx)];
      ChainRest(chain);
      if next != null {
        var rest := next.Execute(ctx, chain[1..]);
        runs := runs + rest;
      }
      RunsOf(chain, ctx);
    }
  }

  /** The executions of the wrapped handlers of `chain`, one after the other. */
  function Runs(chain: seq<ChainableHandler>, ctx: Context): seq<Execution>
  {
    if chain == [] then [] else [ExecuteOn(chain[0].handler, ctx)] + Runs(chain[1..], ctx)
  }

  /** `Runs` holds one execution per handler, in chain order. */
  lemma {:induction false} RunsOf(chain: seq<ChainableHandler>, ctx: Context)
    ensures |Runs(chain, ctx)| == |chain|
    ensures forall i :: 0 <= i < |chain| ==> Runs(chain, ctx)[i] == ExecuteOn(chain[i].handler, ctx)
  {
    if chain != [] {
      RunsOf(chain[1..], ctx);
      forall i | 1 <= i < |chain|
        ensures Runs(chain, ctx)[i] == ExecuteOn(chain[i].handler, ctx)
      {
        assert chain[1..][i - 1] == chain[i];
      }
    }
  }

  /** `chain` is a linked list through `next`: each handler points to the one
      after it and the last one to `null`. */
  ghost predicate IsChain(chain: seq<ChainableHandler>)
    reads set i | 0 <= i < |chain| :: chain[i]
  {
    (forall i {:trigger chain[i].next} :: 0 <= i < |chain| - 1 ==> chain[i].next == chain[i + 1])
    && (chain != [] ==> chain[|chain| - 1].next == null)
  }

  /** A chain is its head alone exactly when the head has no successor, and
      otherwise continues as the chain that starts at that successor. */
  lemma ChainRest(chain: seq<ChainableHandler>)
    requires IsChain(chain) && chain != []
    ensures chain[0].next == null <==> |chain| == 1
    ensures chain[0].next != null ==> chain[1] == chain[0].next && IsChain(chain[1..])
  {
    if |chain| > 1 {
      assert chain[0].next == chain[1];
      forall i | 0 <= i < |chain[1..]| - 1
        ensures chain[1..][i].next == chain[1..][i + 1]
      {
        assert chain[1..][i] == chain[i + 1];
      }
    }
  }

  /** A chainable handler's validation always succeeds: the wrapped handler's
      `execute` never rejects. */
  lemma AlwaysValid(c: ChainableHandler, ctx: Context)
    ensures c.Validation(ctx) == Returns(true)
  {
    NeverRejects(c.handler, ctx);
  }

  /** A chainable handler's own `execute` therefore always calls its (empty)
      `handle`, logs nothing and resolves. */
  lemma OwnExecution(c: ChainableHandler, ctx: Context)
    ensures Handlers.Execute(c.Validation(ctx), c.Handle(ctx)) == Execution([Validate, Handle], false, Resolved)
  {
    AlwaysValid(c, ctx);
  }
}
