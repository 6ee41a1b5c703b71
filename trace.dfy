/**
  The parts of OpenTelemetry's trace API that the log handler touches: a
  span's recording flag, its identifiers in their hex rendering, and its
  status, carried by a (possibly nil) context.
 */
module Trace {
  import opened Optional

  /** codes.Code of the OpenTelemetry API. */
  datatype Code = Unset | Error | Ok

  datatype SpanStatus = SpanStatus(code: Code, description: string)

  /**
    A span as the handler sees it. The identifiers are TraceID().String()
    and SpanID().String(), present exactly when HasTraceID() and
    HasSpanID() hold. Every SetStatus call is kept, in order, so that a
    caller can tell how often, and with what, the status was set.
   */
  class Span {
    const recording: bool
    const traceId: Option<string>
    const spanId: Option<string>
    var statusLog: seq<SpanStatus>

    constructor (recording: bool, traceId: Option<string>, spanId: Option<string>)
      ensures this.recording == recording
      ensures this.traceId == traceId && this.spanId == spanId
      ensures statusLog == []
    {
      this.recording := recording;
      this.traceId := traceId;
      this.spanId := spanId;
      statusLog := [];
    }

    /** The status the span ends with: the last one set, Unset if none was. */
    function Status(): SpanStatus
      reads this
    {
      if statusLog == [] then SpanStatus(Unset, "") else statusLog[|statusLog| - 1]
    }

    method SetStatus(code: Code, description: string)
      modifies this
      ensures statusLog == old(statusLog) + [SpanStatus(code, description)]
    {
      statusLog := statusLog + [SpanStatus(code, description)];
    }
  }

  /** A context.Context: nil, or a context that may carry a span. */
  datatype Context = NilContext | Context(span: Option<Span>)

  /** The span a context carries, whether recording or not. */
  function SpanOf(ctx: Context): Option<Span>
  {
    if ctx.NilContext? then None else ctx.span
  }

  /** The objects a handler may change through a context: its span. */
  function SpanFootprint(ctx: Context): set<object>
  {
    if SpanOf(ctx).Some? then {SpanOf(ctx).value} else {}
  }
}
