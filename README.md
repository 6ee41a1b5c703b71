# Log–trace correlation handler, modelled in Dafny

This project models the logging middleware of a small OpenTelemetry
demonstration service (`logs.go`). The middleware is `LogHandler`, a
`slog.Handler` that wraps another handler, called `Next`. For every log
record it:

- with a nil context, or a context whose span is missing or not
  recording, hands the record to `Next` as it is and touches no span;
- otherwise, with `Handle`'s own context not nil and its span recording:
  - appends `trace_id` (hex) and `dd.trace_id` (decimal) when the span has
    a trace id;
  - then appends `span_id` (hex) and `dd.span_id` (decimal) when it has a
    span id;
  - sets the span's status to `Error`, with the record's message, when the
    record's level is at least `slog.LevelError`;
- hands the record to `Next` once on every path and returns `Next`'s error
  unchanged.

The decimal is the unsigned form some trace backends index, and it comes
from `convertTraceID`. Identifiers shorter than 16
bytes give `""`. Longer ones are cut to `id[16:]`. What remains is parsed
as a 64-bit hexadecimal number and printed in decimal. A parse error gives
`""`.

Files:

- `strconv.dfy`, module `StrConv`: a model of Go's `strconv.ParseUint(s, base, 64)`
  (a left-to-right accumulation with its syntax and range errors) and
  `strconv.FormatUint`, each against the positional `Value` of a digit string.
- `trace.dfy`, module `Trace`: the span (recording flag, optional hex
  identifiers, a log of `SetStatus` calls) and the possibly-nil context that carries it.
- `slog.dfy`, module `Slog`: levels, string attributes, the record (a value,
  as Go passes it by value), and a stand-in for the wrapped handler.
  The stand-in writes every record it handles to a shared `Output`, together
  with the `WithAttrs`/`WithGroup` steps it was derived by. It returns the
  error that `Output` is set to report.
- `logs.dfy`, module `Logs`: `ConvertTraceID` and its comparison with the
  trailing-16 rule, the specification functions
  of `Handle` (`ActiveSpan`, `Forwarded`, `StatusUpdates`), and the
  `LogHandler` class.
- `optional.dfy`, module `Optional`: the `Option` type.

The intended conversion and the code differ on one point, and the model
follows the code. A backend that indexes a 64-bit `dd.trace_id` expects
the low 64 bits of the 128-bit trace-id, which are its trailing 16 hex
digits. The code takes `id[16:]`, everything from offset 16 on.
`ConvertTrailingSixteen` is the trailing rule, written out only for
comparison. `TrailingSixteenLowBits` proves it gives the value modulo 2^64
for every hex identifier of 16 digits or more. The two rules agree for the
16- and 32-character identifiers OpenTelemetry produces
(`ConvertAgreesAtOpenTelemetryLengths`). They can differ at other lengths:

- between 17 and 31 characters the code reads fewer than 16 digits.
  `ConvertReadsFromOffsetNotTrailing` shows a 20-character identifier that
  converts like its last four characters and not like its last sixteen.
- past 32 characters the code reads more than 16 digits.
  `ConvertLongIdentifierOverflows` proves that then, when the first digit
  read is not `0` and all of them are hex digits, the parse overflows and the code gives `""`, while the
  trailing rule still gives a value.

## Model

| member | source | states |
|---|---|---|
| StrConv.ParseUint | logs.go:31-34 | the parse succeeds exactly for a non-empty string of digits of the base whose value is at most 2^64−1, and then yields that value; an empty string is a syntax error; all-digit strings above 2^64−1 are range errors |
| StrConv.AccumulateMeaning | logs.go:31-34 | the digit loop (`Accumulate`) with its cutoff and overflow checks, started after any in-range prefix, accepts exactly the digit strings whose whole value fits in 64 bits, returns that value, and reports a range error for the digit strings that do not fit |
| StrConv.ParseUintStopsAtNonDigit | logs.go:31-34 | when byte j is the first that is not a digit of the base, the parse is a syntax error, unless the digits before it already exceed 2^64−1, which is a range error |
| StrConv.AccumulateStopsAt | logs.go:31-34 | the digit loop, started after any in-range prefix, meets the first non-digit byte with a syntax error, or stops before it with a range error when the digits before it overflow |
| StrConv.FormatUint | logs.go:35 | the result is a canonical digit string of the base (non-empty, lower-case digits, no leading zero unless it is "0") whose value is the input, and it starts with '0' only for zero |
| StrConv.FormatUintLength | logs.go:35 | a value below base^k is written with at most k digits |
| StrConv.ValueBound | logs.go:31 | a string of k digits has a value below base^k, so 16 hex digits always fit in 64 bits |
| StrConv.FormatParseRoundTrip | logs.go:31-35 | parsing what FormatUint writes gives back the same 64-bit value |
| StrConv.ParseFormatRoundTrip | logs.go:31-35 | a canonical digit string within 64 bits is exactly what FormatUint writes for its value |
| Logs.ParsedPortion | logs.go:28-30 | the portion parsed: everything from byte 16 on when the identifier is longer than 16 bytes, else the whole identifier; in both cases a suffix of it, after the first 16 bytes when longer |
| Logs.ConvertTraceID | logs.go:24-36 | "" for inputs shorter than 16 bytes; otherwise non-empty exactly when the portion read (from byte 16 on if longer than 16) is all hex digits with value ≤ 2^64−1, and then a canonical decimal string of at most 20 digits that parses back to that value |
| Logs.ConvertSixteenHexDigits | logs.go:31-35 | exactly 16 hex digits always convert, to the decimal rendering of their base-16 value, which parses back to the same value |
| Logs.ConvertIgnoresFirstSixteen | logs.go:28-31 | for inputs over 16 bytes the first 16 bytes never matter, and the rest is parsed whatever its length: it converts to a non-empty string exactly when it is all hex digits with value ≤ 2^64−1 |
| Logs.ConvertThirtyTwoBytes | logs.go:28-30 | a 32-byte identifier converts exactly as its last 16 bytes do |
| Logs.ConvertTraceIdLowBits | logs.go:28-35 | a 32-hex-digit identifier converts to the decimal rendering of its low 64 bits |
| Logs.ConvertTraceIdExample | logs.go:28-35 | `4bf92f3577b34da6a3ce929d0e0e4736` converts as `a3ce929d0e0e4736`, to a decimal string that reads back as 11803532876627986230 |
| Logs.ConvertSixteenParsed | logs.go:31-35 | a 16-byte identifier that parses as a value converts to a decimal that parses back as that value |
| Logs.ConvertReadsFromOffsetNotTrailing | logs.go:28-30 | the 20-byte `0123456789abcdef0123` converts as `0123` (291), which differs both from the conversion of its trailing 16 bytes and from the trailing rule's result |
| Logs.ConvertTrailingSixteen | logs.go:28-30 | the trailing-16 rule, for comparison: "" below 16 bytes; otherwise non-empty exactly when the last 16 bytes are hex digits, and then a canonical decimal of at most 20 digits that parses back to their value |
| Logs.TrailingSixteenLowBits | logs.go:28-35 | for a hex identifier of 16 digits or more the trailing rule gives the decimal form of its value modulo 2^64 |
| Logs.ConvertAgreesAtOpenTelemetryLengths | logs.go:28-30 | at 16 and 32 bytes the code's conversion and the trailing rule give the same string |
| Logs.LowSixteenDigits | logs.go:28-35 | the last 16 hex digits of a number are its value modulo 2^64 |
| Logs.LongHexOverflows | logs.go:31-34 | more than 16 hex digits with a non-zero first digit always exceed 2^64−1 |
| Logs.ConvertLongIdentifierOverflows | logs.go:28-34 | past 32 bytes, when byte 16 is a non-zero hex digit and all from it are hex, the code gives "" while the trailing rule gives a value |
| Slog.Record.AddAttrs | logs.go:51-58 | the given attributes are appended after the record's own, with message and level kept |
| Logs.ActiveSpan | logs.go:39-46 | correlation happens exactly when the context is not nil and carries a recording span, and then with that span |
| Logs.Forwarded | logs.go:39-59 | the forwarded record (the original with `CorrelationAttrs` appended) keeps message and level, starts with the original attributes, is the record itself when there is no recording span, and otherwise has two more attributes for each identifier the span has |
| Logs.StatusUpdates | logs.go:61-63 | there is one status update, to (Error, message), exactly when the span records and the level is at least LevelError, whatever identifiers the span has; otherwise there is none |
| Logs.BelowErrorLeavesStatus | logs.go:61-63 | records at LevelDebug, LevelInfo and LevelWarn cause no status update, whatever the context |
| Logs.OpenTelemetryCorrelationAttrs | logs.go:48-59 | for a 32-hex-digit trace-id and a 16-hex-digit span-id the added attributes are exactly trace_id=hex, dd.trace_id=decimal of the low 64 bits, span_id=hex, dd.span_id=decimal of its value, in that order |
| Logs.ForwardedWithOpenTelemetryIds | logs.go:48-59 | with a recording span of that shape the forwarded record is the original one with those four attributes appended and message and level unchanged |
| Logs.LogHandler.constructor | logs.go:18-22 | NewLogHandler wraps the given handler as Next |
| Logs.LogHandler.Handle | logs.go:38-66 | Next receives exactly one record, the Forwarded one, under the same context; Handle returns Next's error unchanged; the span's status log gains exactly StatusUpdates, so its status becomes (Error, message) or stays as it was; nothing else changes |
| Logs.LogHandler.WithAttrs | logs.go:68-72 | returns a new handler around a new Next derived by WithAttrs(attrs) from the old one, writing to the same output; the receiver is not changed |
| Logs.LogHandler.WithGroup | logs.go:74-78 | returns a new handler around a new Next derived by WithGroup(name) from the old one, writing to the same output; the receiver is not changed |
| Logs.LogHandler.Enabled | logs.go:80-82 | the answer is exactly Next's answer for the same context and level |
| Trace.Span.SetStatus | logs.go:62 | each call appends its (code, description) to the span's status log |
| Slog.Sink.Handle | logs.go:65 | the wrapped handler emits the record once, tagged with its derivation, and returns the output's error |
| Slog.Sink.Enabled | logs.go:81 | the stand-in's answer for Next: the level is at least its minimum level |
| Slog.Sink.WithAttrs | logs.go:70 | the derived handler shares the output and adds an attributes step to its derivation |
| Slog.Sink.WithGroup | logs.go:76 | the derived handler shares the output and adds a group step to its derivation |

## Left out

- main.go is not part of this model. It holds the tracer and exporter bootstrap, the resource merge from environment variables, the logger setup, the HTTP routes and handlers, the random failures, the outbound request and the multiplication endpoint. All of it is I/O and library wiring.
- The `HandlerFn` type (logs.go:16) is declared but never used, so nothing models it.
- OpenTelemetry internals are abstracted. `SpanFromContext`, `SpanContext`, `HasTraceID`/`HasSpanID` and `TraceID().String()` become a span with a recording flag and optional hex strings. A context with no span stands for the non-recording span `SpanFromContext` returns then.
- Trace.Span.SetStatus records every call. The SDK's own rules are not modelled: an Ok status is never overwritten, a non-Error description is dropped, and an ended span ignores the call. The handler's contract is stated in terms of the calls it makes.
- The wrapped handler is a stand-in. slog's JSON encoding and the real handler's treatment of attributes and groups are not modelled.
- Attribute values are strings only: the handler adds nothing else. slog's `AddAttrs` drops empty groups, which never arise from string attributes, so that rule is not modelled.
- Records are values. Go copies `slog.Record` when it is passed, but a copy can share its attribute backing array with the original (the reason for `Record.Clone`). That aliasing is not modelled.
- StrConv.ParseUint: only bases 2 to 36 and a bit size of 64 are modelled, because the only bases used here are 16 and 10. Base 0 (prefixes and underscores) and invalid bases are left out. On error the model returns only the error kind, not the value Go returns beside it (the maximum on a range error, 0 on a syntax error). `convertTraceID` ignores that value.
- Go strings are byte strings; here each char stands for one byte. The lengths and slices agree for ASCII, and OpenTelemetry's identifiers are ASCII hex.
- Concurrency is not modelled: the handler adds none. Context cancellation and context values other than the span play no part in the handler.
