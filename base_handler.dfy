/**
 * `BaseHandler` of `handlers/base.handler.ts`: a handler validates an update
 * and handles it only when the validation says so; whatever either step
 * throws is logged and swallowed. Also the part of a grammy update the
 * handlers read.
 */
module Handlers {
  import opened Wrappers

  /** The part of a Telegram video the handlers read. */
  datatype Video = Video(fileName: Option<string>)

  /** The part of a Telegram message the handlers read. */
  datatype Message = Message(messageId: int, video: Option<Video>, caption: Option<string>)

  /** The update a handler runs on; `message` is absent for updates that are
      not messages. */
  datatype Context = Context(message: Option<Message>)

  /** How an awaited step ends: with a value, or with a thrown error. */
  datatype Step<T> = Returns(value: T) | Throws

  /** How a promise without a value settles. */
  datatype Completion = Resolved | Rejected

  /** A concrete handler, given by what its `validation` and `handle` do on each
      update. */
  datatype Handler = Handler(validation: Context -> Step<bool>, handle: Context -> Completion)

  /** The hooks `execute` calls, in order. */
  datatype HandlerCall = Validate | Handle

  /** What one `execute` did: the hooks it called, whether it logged an error,
      and how its own promise settled. */
  datatype Execution = Execution(calls: seq<HandlerCall>, errorLogged: bool, completion: Completion)

  /** `execute`: validate; handle only on `true`; log anything thrown. */
  function Execute(validation: Step<bool>, handle: Completion): (e: Execution)
    ensures e.calls != [] && e.calls[0] == Validate
    ensures Handle in e.calls <==> validation == Returns(true)
    ensures multiset(e.calls)[Handle] <= 1
    ensures e.errorLogged <==> validation == Throws || (validation == Returns(true) && handle == Rejected)
    ensures e.completion == Resolved
  {
    match validation
    case Throws => Execution([Validate], true, Resolved)
    case Returns(isValid) =>
      if isValid then Execution([Validate, Handle], handle == Rejected, Resolved)
      else Execution([Validate], false, Resolved)
  }

  /** `execute` of a handler on an update. */
  function ExecuteOn(h: Handler, ctx: Context): Execution {
    Execute(h.validation(ctx), h.handle(ctx))
  }

  /** Whatever a handler's hooks do, its `execute` never rejects. */
  lemma NeverRejects(h: Handler, ctx: Context)
    ensures ExecuteOn(h, ctx).completion == Resolved
  {
  }
}
