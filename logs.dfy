/**
  The log-trace correlation handler: a slog.Handler that adds the active
  span's identifiers to every record, in hex and in the decimal form some
  trace backends index, and marks the span as failed on error-level records.
 */
module Logs {
  import opened Optional
  import opened StrConv
  import opened Trace
  import opened Slog

  const TraceIdKey: string := "trace_id"
  const DdTraceIdKey: string := "dd.trace_id"
  const SpanIdKey: string := "span_id"
  const DdSpanIdKey: string := "dd.span_id"

  /** 2^64: the low 64 bits of a value are its remainder by this. */
  const Two64: nat := 0x1_0000_0000_0000_0000

  // ---------------------------------------------------------------------
  // convertTraceID

  /** The part of an identifier of at least 16 bytes that convertTraceID
      parses: everything from byte 16 on when it is longer, else all of it. */
  function ParsedPortion(id: string): (p: string)
    requires |id| >= 16
    ensures |p| == if |id| > 16 then |id| - 16 else 16
    ensures p == id[|id| - |p|..]
    ensures |id| > 16 ==> id == id[..16] + p
  {
    if |id| > 16 then id[16..] else id
  }

  lemma PowFacts()
    ensures Pow(10, 20) == 100_000_000_000_000_000_000
    ensures Pow(16, 16) == Two64
  {
    assert Pow(10, 5) == 100_000;
    PowAdd(10, 5, 5);
    PowAdd(10, 10, 10);
    assert Pow(16, 4) == 0x1_0000;
    PowAdd(16, 4, 4);
    PowAdd(16, 8, 8);
  }

  /**
    convertTraceID: an identifier shorter than 16 bytes converts to "";
    otherwise its parsed portion is read as a 64-bit hexadecimal number and
    written in decimal, and a portion that does not parse converts to "".
   */
  function ConvertTraceID(id: string): (r: string)
    ensures |id| < 16 ==> r == ""
    ensures r != "" <==>
      |id| >= 16 && AllDigits(ParsedPortion(id), 16) && Value(ParsedPortion(id), 16) <= MaxUint64
    ensures r != "" ==>
      && IsCanonical(r, 10) && |r| <= 20
      && ParseUint(r, 10) == Parsed(Value(ParsedPortion(id), 16))
  {
    if |id| < 16 then ""
    else
      match ParseUint(ParsedPortion(id), 16)
      case Parsed(v) =>
        PowFacts();
        FormatUintLength(v, 10, 20);
        FormatUint(v, 10)
      case _ => ""
  }

  /** Exactly 16 hex digits always fit in 64 bits: the result is their value in decimal. */
  lemma ConvertSixteenHexDigits(id: string)
    requires |id| == 16 && AllDigits(id, 16)
    ensures Value(id, 16) < Two64
    ensures ConvertTraceID(id) == FormatUint(Value(id, 16), 10)
    ensures ParseUint(ConvertTraceID(id), 10) == Parsed(Value(id, 16))
  {
    ValueBound(id, 16);
    PowFacts();
  }

  /** Beyond 16 bytes only the bytes from offset 16 on are read, whatever
      their number: the first 16 bytes never matter. */
  lemma ConvertIgnoresFirstSixteen(p: string, q: string, t: string)
    requires |p| == 16 && |q| == 16 && t != []
    ensures ConvertTraceID(p + t) == ConvertTraceID(q + t)
    ensures ConvertTraceID(p + t) != "" <==> AllDigits(t, 16) && Value(t, 16) <= MaxUint64
  {
  }

  /** A 32-byte identifier, the length of a W3C trace-id, converts as its
      last 16 bytes do. */
  lemma ConvertThirtyTwoBytes(id: string)
    requires |id| == 32
    ensures ConvertTraceID(id) == ConvertTraceID(id[16..])
  {
  }

  /** Any identifier of 32 hex digits, a W3C trace-id among them, converts
      to the decimal form of its low 64 bits. */
  lemma ConvertTraceIdLowBits(id: string)
    requires |id| == 32 && AllDigits(id, 16)
    ensures ConvertTraceID(id) == FormatUint(Value(id, 16) % Two64, 10)
  {
    ConvertAgreesAtOpenTelemetryLengths(id);
    TrailingSixteenLowBits(id);
  }

  lemma ParseExampleLowBits(s: string)
    requires s == "a3ce929d0e0e4736"
    ensures ParseUint(s, 16) == Parsed(11803532876627986230)
  {
    assert Accumulate(s, 16, 15, 0xa3ce929d0e0e473) == Parsed(11803532876627986230);
    assert Accumulate(s, 16, 14, 0xa3ce929d0e0e47) == Parsed(11803532876627986230);
    assert Accumulate(s, 16, 13, 0xa3ce929d0e0e4) == Parsed(11803532876627986230);
    assert Accumulate(s, 16, 12, 0xa3ce929d0e0e) == Parsed(11803532876627986230);
    assert Accumulate(s, 16, 11, 0xa3ce929d0e0) == Parsed(11803532876627986230);
    assert Accumulate(s, 16, 10, 0xa3ce929d0e) == Parsed(11803532876627986230);
    assert Accumulate(s, 16, 9, 0xa3ce929d0) == Parsed(11803532876627986230);
    assert Accumulate(s, 16, 8, 0xa3ce929d) == Parsed(11803532876627986230);
    assert Accumulate(s, 16, 7, 0xa3ce929) == Parsed(11803532876627986230);
    assert Accumulate(s, 16, 6, 0xa3ce92) == Parsed(11803532876627986230);
    assert Accumulate(s, 16, 5, 0xa3ce9) == Parsed(11803532876627986230);
    assert Accumulate(s, 16, 4, 0xa3ce) == Parsed(11803532876627986230);
    assert Accumulate(s, 16, 3, 0xa3c) == Parsed(11803532876627986230);
    assert Accumulate(s, 16, 2, 0xa3) == Parsed(11803532876627986230);
    assert Accumulate(s, 16, 1, 0xa) == Parsed(11803532876627986230);
  }

  lemma ParseExampleTrailing(s: string)
    requires s == "456789abcdef0123"
    ensures ParseUint(s, 16) == Parsed(0x4567_89ab_cdef_0123)
  {
    assert Accumulate(s, 16, 15, 0x456789abcdef012) == Parsed(0x4567_89ab_cdef_0123);
    assert Accumulate(s, 16, 14, 0x456789abcdef01) == Parsed(0x4567_89ab_cdef_0123);
    assert Accumulate(s, 16, 13, 0x456789abcdef0) == Parsed(0x4567_89ab_cdef_0123);
    assert Accumulate(s, 16, 12, 0x456789abcdef) == Parsed(0x4567_89ab_cdef_0123);
    assert Accumulate(s, 16, 11, 0x456789abcde) == Parsed(0x4567_89ab_cdef_0123);
    assert Accumulate(s, 16, 10, 0x456789abcd) == Parsed(0x4567_89ab_cdef_0123);
    assert Accumulate(s, 16, 9, 0x456789abc) == Parsed(0x4567_89ab_cdef_0123);
    assert Accumulate(s, 16, 8, 0x456789ab) == Parsed(0x4567_89ab_cdef_0123);
    assert Accumulate(s, 16, 7, 0x456789a) == Parsed(0x4567_89ab_cdef_0123);
    assert Accumulate(s, 16, 6, 0x456789) == Parsed(0x4567_89ab_cdef_0123);
    assert Accumulate(s, 16, 5, 0x45678) == Parsed(0x4567_89ab_cdef_0123);
    assert Accumulate(s, 16, 4, 0x4567) == Parsed(0x4567_89ab_cdef_0123);
    assert Accumulate(s, 16, 3, 0x456) == Parsed(0x4567_89ab_cdef_0123);
    assert Accumulate(s, 16, 2, 0x45) == Parsed(0x4567_89ab_cdef_0123);
    assert Accumulate(s, 16, 1, 0x4) == Parsed(0x4567_89ab_cdef_0123);
  }

  /** The W3C example trace-id converts as its last 16 digits, to the
      decimal form of 0xa3ce929d0e0e4736. */
  lemma ConvertTraceIdExample(id: string, low: string)
    requires low == "a3ce929d0e0e4736" && id == "4bf92f3577b34da6" + low
    ensures ConvertTraceID(id) == ConvertTraceID(low)
    ensures ParseUint(ConvertTraceID(low), 10) == Parsed(11803532876627986230)
  {
    assert id[16..] == low;
    ParseExampleLowBits(low);
    ConvertSixteenParsed(low, 11803532876627986230);
  }

  /** A 16-byte identifier that parses as v converts to a decimal that parses back as v. */
  lemma ConvertSixteenParsed(id: string, v: U64)
    requires |id| == 16 && ParseUint(id, 16) == Parsed(v)
    ensures ParseUint(ConvertTraceID(id), 10) == Parsed(v)
  {
    ConvertSixteenHexDigits(id);
  }

  /** Between 17 and 31 bytes the parsed portion is shorter than the last
      16 bytes: here 20 bytes convert as their last four, "0123", and not
      as their last sixteen. */
  lemma ConvertReadsFromOffsetNotTrailing(id: string, tail: string)
    requires id == "0123456789abcdef0123" && tail == "456789abcdef0123"
    ensures ParseUint(ConvertTraceID(id), 10) == Parsed(0x123)
    ensures ParseUint(ConvertTraceID(tail), 10) == Parsed(0x4567_89ab_cdef_0123)
    ensures ConvertTraceID(id) != ConvertTraceID(tail)
    ensures ConvertTrailingSixteen(id) == ConvertTraceID(tail)
    ensures ConvertTraceID(id) != ConvertTrailingSixteen(id)
  {
    assert ParsedPortion(id) == "0123";
    assert ParseUint("0123", 16) == Parsed(0x123);
    assert id[|id| - 16..] == tail;
    ParseExampleTrailing(tail);
    ConvertSixteenParsed(tail, 0x4567_89ab_cdef_0123);
  }

  // ---------------------------------------------------------------------
  // The conversion a 64-bit dd.trace_id calls for, beside the code's

  /** Sixteen hex digits never exceed MaxUint64. */
  lemma SixteenDigitsFit(t: string)
    requires |t| == 16
    ensures AllDigits(t, 16) ==> Value(t, 16) <= MaxUint64
  {
    if AllDigits(t, 16) {
      ValueBound(t, 16);
      PowFacts();
    }
  }

  /** The low 64 bits of an identifier, its trailing 16 hex digits, in
      decimal: the rule a backend indexing 64-bit trace-ids expects. It
      only serves to compare ConvertTraceID with. */
  function ConvertTrailingSixteen(id: string): (r: string)
    ensures |id| < 16 ==> r == ""
    ensures |id| >= 16 ==> (r != "" <==> AllDigits(id[|id| - 16..], 16))
    ensures r != "" ==>
      && IsCanonical(r, 10) && |r| <= 20
      && Value(id[|id| - 16..], 16) <= MaxUint64
      && ParseUint(r, 10) == Parsed(Value(id[|id| - 16..], 16))
  {
    if |id| < 16 then ""
    else
      var t := id[|id| - 16..];
      SixteenDigitsFit(t);
      ConvertTraceID(t)
  }

  /** The trailing 16 hex digits of a number are its value modulo 2^64. */
  lemma LowSixteenDigits(hi: string, lo: string)
    requires |lo| == 16 && AllDigits(hi, 16) && AllDigits(lo, 16)
    ensures AllDigits(hi + lo, 16)
    ensures Value(hi + lo, 16) % Two64 == Value(lo, 16)
  {
    ValueConcat(hi, lo, 16);
    ValueBound(lo, 16);
    PowFacts();
    DivModOf(Value(hi, 16), Value(lo, 16), Two64);
  }

  /** For any hex identifier of 16 digits or more, the trailing rule gives
      the decimal form of the value modulo 2^64. */
  lemma TrailingSixteenLowBits(id: string)
    requires |id| >= 16 && AllDigits(id, 16)
    ensures ConvertTrailingSixteen(id) == FormatUint(Value(id, 16) % Two64, 10)
  {
    var hi, lo := id[..|id| - 16], id[|id| - 16..];
    assert id == hi + lo;
    assert AllDigits(hi, 16) && AllDigits(lo, 16);
    LowSixteenDigits(hi, lo);
    assert ConvertTrailingSixteen(id) == ConvertTraceID(lo);
    ConvertSixteenHexDigits(lo);
  }

  /** At the two lengths OpenTelemetry renders, 16 and 32 digits, the code
      and the trailing rule agree. */
  lemma ConvertAgreesAtOpenTelemetryLengths(id: string)
    requires |id| == 16 || |id| == 32
    ensures ConvertTraceID(id) == ConvertTrailingSixteen(id)
  {
    assert id[|id| - 16..] == ParsedPortion(id);
  }

  /** A hex string of 17 digits or more whose first digit is not 0 is at
      least 2^64. */
  lemma LongHexOverflows(t: string)
    requires |t| > 16 && AllDigits(t, 16) && t[0] != '0'
    ensures Value(t, 16) > MaxUint64
  {
    var a := DigitValue(t[0]).value;
    LeadingDigitSplit(t);
    assert a >= 1;
    SixteenOrMoreDigitsWeight(|t| - 1);
    MulMonotone(1, a, Pow(16, |t| - 1));
  }

  /** A hex string's value is its first digit times that digit's weight, plus the rest. */
  lemma LeadingDigitSplit(t: string)
    requires t != [] && AllDigits(t, 16)
    ensures AllDigits(t[1..], 16)
    ensures Value(t, 16) == DigitValue(t[0]).value * Pow(16, |t| - 1) + Value(t[1..], 16)
  {
    var head, rest := t[..1], t[1..];
    assert t == head + rest;
    assert AllDigits(head, 16) && AllDigits(rest, 16);
    ValueConcat(head, rest, 16);
    assert head[..0] == [];
    assert Value(head, 16) == DigitValue(t[0]).value;
    assert |rest| == |t| - 1;
  }

  /** The weight of the digit 16 places or more from the right is at least 2^64. */
  lemma SixteenOrMoreDigitsWeight(k: nat)
    requires k >= 16
    ensures Pow(16, k) >= Two64
  {
    PowAdd(16, 16, k - 16);
    PowFacts();
    PowPositive(16, k - 16);
    MulGrows(Two64, Pow(16, k - 16));
  }

  lemma {:induction false} PowPositive(b: nat, k: nat)
    requires b >= 1
    ensures Pow(b, k) >= 1
  {
    if k > 0 {
      PowPositive(b, k - 1);
      MulGrows(Pow(b, k - 1), b);
    }
  }

  /** Past 32 bytes the code reads more than 16 digits: when the first of
      them is not 0 the parse overflows and the code gives "", while the
      trailing rule still gives the low 64 bits. */
  lemma ConvertLongIdentifierOverflows(id: string)
    requires |id| > 32 && AllDigits(id[16..], 16) && id[16] != '0'
    ensures ConvertTraceID(id) == ""
    ensures ConvertTrailingSixteen(id) != ""
  {
    var t := id[16..];
    assert t[0] == id[16];
    LongHexOverflows(t);
    assert id[|id| - 16..] == t[|t| - 16..];
  }

  // ---------------------------------------------------------------------
  // LogHandler

  /** The span Handle correlates with: the context's span, if the context
      is not nil and the span records. A context without a span stands for
      the non-recording span SpanFromContext returns then. */
  function ActiveSpan(ctx: Context): (s: Option<Span>)
    ensures s.Some? <==> SpanOf(ctx).Some? && SpanOf(ctx).value.recording
    ensures s.Some? ==> s == SpanOf(ctx)
  {
    match ctx
    case NilContext => None
    case Context(span) => if span.Some? && span.value.recording then span else None
  }

  /** The attributes Handle adds for a recording span, in the order it adds them. */
  function CorrelationAttrs(span: Span): seq<Attr>
  {
    (if span.traceId.Some? then
       [Attr(TraceIdKey, span.traceId.value), Attr(DdTraceIdKey, ConvertTraceID(span.traceId.value))]
     else [])
    +
    (if span.spanId.Some? then
       [Attr(SpanIdKey, span.spanId.value), Attr(DdSpanIdKey, ConvertTraceID(span.spanId.value))]
     else [])
  }

  /** The record Handle hands on: the original one, with the correlation
      attributes of the active span after the record's own. */
  function Forwarded(ctx: Context, r: Record): (f: Record)
    ensures f.message == r.message && f.level == r.level
    ensures |r.attrs| <= |f.attrs| && f.attrs[..|r.attrs|] == r.attrs
    ensures ActiveSpan(ctx).None? ==> f == r
    ensures |f.attrs| == |r.attrs| + (if ActiveSpan(ctx).None? then 0 else
      (if ActiveSpan(ctx).value.traceId.Some? then 2 else 0) +
      (if ActiveSpan(ctx).value.spanId.Some? then 2 else 0))
  {
    match ActiveSpan(ctx)
    case None => r
    case Some(span) => r.AddAttrs(CorrelationAttrs(span))
  }

  /** The status updates Handle makes: one, to Error with the message,
      exactly for an error-level record and a recording span. */
  function StatusUpdates(ctx: Context, r: Record): (u: seq<SpanStatus>)
    ensures u != [] <==> ActiveSpan(ctx).Some? && r.level >= LevelError
    ensures |u| <= 1 && (u != [] ==> u[0] == SpanStatus(Error, r.message))
  {
    if ActiveSpan(ctx).Some? && r.level >= LevelError then [SpanStatus(Error, r.message)] else []
  }

  /** Records below LevelError (Debug, Info and Warn) never touch the
      span's status, whatever the context. */
  lemma BelowErrorLeavesStatus(ctx: Context, r: Record)
    requires r.level in {LevelDebug, LevelInfo, LevelWarn}
    ensures StatusUpdates(ctx, r) == []
  {
  }

  /** An identifier as OpenTelemetry renders it: n lower-case hex digits. */
  predicate IsLowerHex(id: string, n: nat)
  {
    |id| == n && forall i :: 0 <= i < |id| ==> '0' <= id[i] <= '9' || 'a' <= id[i] <= 'f'
  }

  lemma LowerHexDigits(id: string, n: nat)
    requires IsLowerHex(id, n)
    ensures AllDigits(id, 16)
  {
  }

  /** For a span with a 32-digit trace-id and a 16-digit span-id, the
      correlation attributes are four: each id in hex, and its low 64 bits
      in decimal under the "dd." key. */
  lemma OpenTelemetryCorrelationAttrs(span: Span)
    requires span.traceId.Some? && IsLowerHex(span.traceId.value, 32)
    requires span.spanId.Some? && IsLowerHex(span.spanId.value, 16)
    ensures AllDigits(span.traceId.value, 16) && AllDigits(span.spanId.value, 16)
    ensures Value(span.spanId.value, 16) < Two64
    ensures var t, s := span.traceId.value, span.spanId.value;
      CorrelationAttrs(span) == [
        Attr(TraceIdKey, t), Attr(DdTraceIdKey, FormatUint(Value(t, 16) % Two64, 10)),
        Attr(SpanIdKey, s), Attr(DdSpanIdKey, FormatUint(Value(s, 16), 10))]
  {
    LowerHexDigits(span.traceId.value, 32);
    LowerHexDigits(span.spanId.value, 16);
    ConvertTraceIdLowBits(span.traceId.value);
    ConvertSixteenHexDigits(span.spanId.value);
  }

  /** So a record handled with a recording span of OpenTelemetry's shape is
      handed on with exactly those four attributes after its own. */
  lemma ForwardedWithOpenTelemetryIds(ctx: Context, r: Record, span: Span)
    requires ActiveSpan(ctx) == Some(span)
    requires span.traceId.Some? && IsLowerHex(span.traceId.value, 32)
    requires span.spanId.Some? && IsLowerHex(span.spanId.value, 16)
    ensures AllDigits(span.traceId.value, 16) && AllDigits(span.spanId.value, 16)
    ensures Value(span.spanId.value, 16) < Two64
    ensures var t, s := span.traceId.value, span.spanId.value;
      Forwarded(ctx, r) == Record(r.message, r.level, r.attrs + [
        Attr(TraceIdKey, t), Attr(DdTraceIdKey, FormatUint(Value(t, 16) % Two64, 10)),
        Attr(SpanIdKey, s), Attr(DdSpanIdKey, FormatUint(Value(s, 16), 10))])
  {
    OpenTelemetryCorrelationAttrs(span);
  }

  /** The correlating slog.Handler, wrapping the handler Next. */
  class LogHandler {
    var next: Sink

    /** NewLogHandler. */
    constructor (s: Sink)
      ensures next == s
    {
      next := s;
    }

    /**
      Handle: without a context, or without a recording span, the record
      goes to Next as it is. Otherwise the span's identifiers are added to
      it, the span is set to Error on an error-level record, and then the
      record goes to Next. Next is called once on every path, and its error
      is returned as it is.
     */
    method Handle(ctx: Context, r: Record) returns (err: Option<SinkError>)
      modifies next.out, SpanFootprint(ctx)
      ensures next.out.entries == old(next.out.entries) + [Entry(next.scope, ctx, Forwarded(ctx, r))]
      ensures next.out.failure == old(next.out.failure)
      ensures err == old(next.out.failure)
      ensures SpanOf(ctx).Some? ==>
        SpanOf(ctx).value.statusLog == old(SpanOf(ctx).value.statusLog) + StatusUpdates(ctx, r)
      ensures SpanOf(ctx).Some? ==>
        SpanOf(ctx).value.Status() ==
          if StatusUpdates(ctx, r) == [] then old(SpanOf(ctx).value.Status())
          else SpanStatus(Error, r.message)
    {
      if ctx.NilContext? {
        err := next.Handle(ctx, r);
        return;
      }
      var span := ctx.span;
      if span.None? || !span.value.recording {
        err := next.Handle(ctx, r);
        return;
      }
      var s := span.value;
      var rec := r;
      if s.traceId.Some? {
        var traceID := s.traceId.value;
        rec := rec.AddAttrs([Attr(TraceIdKey, traceID)]);
        rec := rec.AddAttrs([Attr(DdTraceIdKey, ConvertTraceID(traceID))]);
        assert rec.attrs == r.attrs + [Attr(TraceIdKey, traceID), Attr(DdTraceIdKey, ConvertTraceID(traceID))];
      }
      ghost var withTrace := rec.attrs;
      if s.spanId.Some? {
        var spanID := s.spanId.value;
        rec := rec.AddAttrs([Attr(SpanIdKey, spanID)]);
        rec := rec.AddAttrs([Attr(DdSpanIdKey, ConvertTraceID(spanID))]);
        assert rec.attrs == withTrace + [Attr(SpanIdKey, spanID), Attr(DdSpanIdKey, ConvertTraceID(spanID))];
      }
      assert rec == Forwarded(ctx, r);
      if rec.level >= LevelError {
        s.SetStatus(Error, rec.message);
      }
      err := next.Handle(ctx, rec);
    }

    /** WithAttrs: a new LogHandler around Next.WithAttrs(attrs); this one is left as it is. */
    method WithAttrs(attrs: seq<Attr>) returns (h: LogHandler)
      ensures fresh(h) && fresh(h.next)
      ensures h.next.out == next.out && h.next.minLevel == next.minLevel
      ensures h.next.scope == next.scope + [AttrsScope(attrs)]
    {
      var n := next.WithAttrs(attrs);
      h := new LogHandler(n);
    }

    /** WithGroup: a new LogHandler around Next.WithGroup(name); this one is left as it is. */
    method WithGroup(name: string) returns (h: LogHandler)
      ensures fresh(h) && fresh(h.next)
      ensures h.next.out == next.out && h.next.minLevel == next.minLevel
      ensures h.next.scope == next.scope + [GroupScope(name)]
    {
      var n := next.WithGroup(name);
      h := new LogHandler(n);
    }

    /** Enabled: Next's answer, with nothing added. */
    predicate Enabled(ctx: Context, level: int)
      reads this
      ensures Enabled(ctx, level) == next.Enabled(ctx, level)
    {
      next.Enabled(ctx, level)
    }
  }
}
