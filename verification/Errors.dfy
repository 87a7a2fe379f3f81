/** What an attempt can throw, the mapper chain that normalises it, and the
    executor of one attempt. */
module Errors {
  import opened Options

  /** The foundation's own errors, any other Error, and anything else that can
      be thrown. `cause` is present when the error has that property. */
  datatype Thrown =
    | HttpError(status: int, url: string)
    | TimeoutError(url: string, timeoutMs: real)
    | NetworkError(url: string, cause: string)
    | CircuitOpenError(api: string)
    | NativeError(name: string, message: string, isTypeError: bool, nativeCause: Option<string>)
    | NonError(text: string)

  predicate IsError(e: Thrown) { !e.NonError? }

  predicate IsClientError(e: Thrown) { IsError(e) && !e.NativeError? }

  function Name(e: Thrown): string
    requires IsError(e)
  {
    match e
    case HttpError(_, _) => "HttpError"
    case TimeoutError(_, _) => "TimeoutError"
    case NetworkError(_, _) => "NetworkError"
    case CircuitOpenError(_) => "CircuitOpenError"
    case NativeError(name, _, _, _) => name
  }

  datatype Context = Context(url: string, timeoutMs: real)

  datatype Mapper = Mapper(matches: Thrown -> bool, map_: (Thrown, Context) -> Thrown)

  const TIMEOUT_ERR_NAMES := ["TimeoutError", "AbortError"]

  predicate TimedOut(e: Thrown) { IsError(e) && Name(e) in TIMEOUT_ERR_NAMES }

  predicate FetchFailed(e: Thrown) { e.NativeError? && e.isTypeError && e.nativeCause.Some? }

  function TimeoutErrorMapper(): Mapper {
    Mapper(e => TimedOut(e), (e: Thrown, ctx: Context) => TimeoutError(ctx.url, ctx.timeoutMs))
  }

  function NetworkErrorMapper(): Mapper {
    Mapper(e => FetchFailed(e),
           (e: Thrown, ctx: Context) => NetworkError(ctx.url, if FetchFailed(e) then e.nativeCause.value else ""))
  }

  /** `new Error(String(err))`, which is only ever built from a non-Error. */
  function PlainError(e: Thrown): Thrown {
    NativeError("Error", if e.NonError? then e.text else "", false, None)
  }

  function FallbackErrorMapper(): Mapper {
    Mapper(e => !IsError(e), (e: Thrown, ctx: Context) => PlainError(e))
  }

  /** The first mapper that matches; without one, an Error is kept and anything
      else is wrapped. */
  function Normalize(mappers: seq<Mapper>, e: Thrown, ctx: Context): Thrown {
    if mappers == [] then
      if IsError(e) then e else PlainError(e)
    else if mappers[0].matches(e) then mappers[0].map_(e, ctx)
    else Normalize(mappers[1..], e, ctx)
  }

  /** The chain the provider installs. */
  function Chain(): seq<Mapper> { [TimeoutErrorMapper(), NetworkErrorMapper(), FallbackErrorMapper()] }

  /** The fallback mapper at the end of any chain changes nothing. */
  lemma {:induction false} FallbackRedundant(mappers: seq<Mapper>, e: Thrown, ctx: Context)
    ensures Normalize(mappers + [FallbackErrorMapper()], e, ctx) == Normalize(mappers, e, ctx)
  {
    var all := mappers + [FallbackErrorMapper()];
    if mappers == [] {
      assert all == [FallbackErrorMapper()] && all[1..] == [];
    } else {
      assert all[1..] == mappers[1..] + [FallbackErrorMapper()];
      FallbackRedundant(mappers[1..], e, ctx);
    }
  }

  /** Only the first match counts: mappers behind it, and mappers before it that
      do not match, make no difference. */
  lemma {:induction false} FirstMatchDecides(before: seq<Mapper>, m: Mapper, after: seq<Mapper>,
                                             e: Thrown, ctx: Context)
    requires forall b :: b in before ==> !b.matches(e)
    requires m.matches(e)
    ensures Normalize(before + [m] + after, e, ctx) == m.map_(e, ctx)
  {
    var all := before + [m] + after;
    if before != [] {
      assert all[0] == before[0] && before[0] in before;
      assert all[1..] == before[1..] + [m] + after;
      FirstMatchDecides(before[1..], m, after, e, ctx);
    }
  }

  lemma ChainNormalizes(e: Thrown, ctx: Context)
    ensures Normalize(Chain(), e, ctx)
         == if TimedOut(e) then TimeoutError(ctx.url, ctx.timeoutMs)
            else if FetchFailed(e) then NetworkError(ctx.url, e.nativeCause.value)
            else if IsError(e) then e
            else PlainError(e)
  {
    var tail, last := [NetworkErrorMapper(), FallbackErrorMapper()], [FallbackErrorMapper()];
    assert Chain()[1..] == tail && tail[1..] == last && last[1..] == [];
    assert Normalize(last, e, ctx) == if IsError(e) then e else PlainError(e);
    assert Normalize(tail, e, ctx)
        == if FetchFailed(e) then NetworkError(ctx.url, e.nativeCause.value) else Normalize(last, e, ctx);
  }

  // ---------- One attempt ----------

  datatype Outcome<+T> = Resolved(value: T) | Rejected(error: Thrown)

  /** What fetch does: a response with its status, or a rejection. */
  datatype Fetch = Responded(status: int) | Failed(error: Thrown)

  datatype Response = Response(status: int)

  /** The Fetch Standard's ok status: 200 to 299. */
  predicate IsOk(status: int) { 200 <= status <= 299 }

  datatype LogEntry = LogEntry(url: string, status: Option<int>, ok: bool)

  /** The outcome of one attempt: a status outside 2xx is thrown as HttpError
      and passes through; anything else thrown is normalised. */
  function Attempt(mappers: seq<Mapper>, f: Fetch, ctx: Context): Outcome<Response> {
    match f
    case Responded(status) =>
      if IsOk(status) then Resolved(Response(status)) else Rejected(HttpError(status, ctx.url))
    case Failed(e) =>
      if IsClientError(e) then Rejected(e) else Rejected(Normalize(mappers, e, ctx))
  }

  /** What an attempt must come to: a status of 200 to 299 resolves with it and
      any other is an HttpError; a foundation error passes unchanged; a name of a
      timeout makes a TimeoutError and a TypeError with a cause a NetworkError;
      any other Error comes through as itself, and anything else becomes an Error
      with its text. */
  ghost predicate IsOutcome(r: Outcome<Response>, f: Fetch, ctx: Context) {
    match f
    case Responded(status) =>
      r == if 200 <= status <= 299 then Resolved(Response(status)) else Rejected(HttpError(status, ctx.url))
    case Failed(NonError(text)) => r == Rejected(NativeError("Error", text, false, None))
    case Failed(NativeError(name, message, isTypeError, cause)) =>
      r == Rejected(
        if name == "TimeoutError" || name == "AbortError" then TimeoutError(ctx.url, ctx.timeoutMs)
        else if isTypeError && cause.Some? then NetworkError(ctx.url, cause.value)
        else NativeError(name, message, isTypeError, cause))
    case Failed(e) => r == Rejected(e)
  }

  /** With the installed chain every attempt comes to that. */
  lemma AttemptIsOutcome(f: Fetch, ctx: Context)
    ensures IsOutcome(Attempt(Chain(), f, ctx), f, ctx)
  {
    if f.Failed? { ChainNormalizes(f.error, ctx); }
  }

  class HttpRequestExecutor {
    const mappers: seq<Mapper>
    var log: seq<LogEntry>

    constructor (mappers: seq<Mapper>)
      ensures this.mappers == mappers && log == []
    {
      this.mappers, log := mappers, [];
    }

    /** One attempt: what it comes to for every response, and with the installed
        chain for everything fetch can throw; and at most one log line, none only
        for a foundation error that fetch itself throws. */
    method Execute(f: Fetch, ctx: Context) returns (r: Outcome<Response>)
      modifies this`log
      ensures r == Attempt(mappers, f, ctx)
      ensures f.Responded? || mappers == Chain() ==> IsOutcome(r, f, ctx)
      ensures log == old(log) +
        match f
        case Responded(status) => [LogEntry(ctx.url, Some(status), 200 <= status <= 299)]
        case Failed(NativeError(_, _, _, _)) => [LogEntry(ctx.url, None, false)]
        case Failed(NonError(_)) => [LogEntry(ctx.url, None, false)]
        case Failed(_) => []
    {
      AttemptIsOutcome(f, ctx);
      var thrown: Thrown;
      match f {
        case Responded(status) =>
          log := log + [LogEntry(ctx.url, Some(status), IsOk(status))];
          if IsOk(status) { return Resolved(Response(status)); }
          thrown := HttpError(status, ctx.url);
        case Failed(e) =>
          thrown := e;
      }
      if IsClientError(thrown) { return Rejected(thrown); }
      var normalized := Normalize(mappers, thrown, ctx);
      log := log + [LogEntry(ctx.url, None, false)];
      return Rejected(normalized);
    }
  }
}
