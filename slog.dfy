/**
  The parts of Go's log/slog that the handler uses: levels, string
  attributes, the record it is handed, and the handler it wraps. The
  wrapped handler is an opaque sink: it writes what it is given to a shared
  output, tagged with the attributes and groups it was derived with, and
  reports whatever error that output returns.
 */
module Slog {
  import opened Optional
  import opened Trace

  /** slog.Level is an int; these are its named levels. */
  const LevelDebug: int := -4
  const LevelInfo: int := 0
  const LevelWarn: int := 4
  const LevelError: int := 8

  datatype Attr = Attr(key: string, value: string)

  /** A slog.Record. Go passes it by value, so a handler changes its own copy. */
  datatype Record = Record(message: string, level: int, attrs: seq<Attr>)
  {
    /** Record.AddAttrs: the given attributes go after the record's own. */
    function AddAttrs(more: seq<Attr>): (r: Record)
      ensures r.message == message && r.level == level
      ensures |r.attrs| == |attrs| + |more|
      ensures r.attrs[..|attrs|] == attrs && r.attrs[|attrs|..] == more
    {
      this.(attrs := attrs + more)
    }
  }

  /** The error a sink reports. */
  datatype SinkError = SinkError(text: string)

  /** One derivation step of a handler: WithAttrs or WithGroup. */
  datatype Scope = AttrsScope(attrs: seq<Attr>) | GroupScope(name: string)

  /** What a sink emitted: the record, its context and the scope of the sink. */
  datatype Entry = Entry(scope: seq<Scope>, ctx: Context, record: Record)

  /** The destination a chain of sinks writes to. */
  class Output {
    var entries: seq<Entry>
    var failure: Option<SinkError>

    constructor (failure: Option<SinkError>)
      ensures entries == [] && this.failure == failure
    {
      entries := [];
      this.failure := failure;
    }
  }

  /** The wrapped slog.Handler. */
  class Sink {
    const out: Output
    const scope: seq<Scope>
    const minLevel: int

    constructor (out: Output, minLevel: int)
      ensures this.out == out && scope == [] && this.minLevel == minLevel
    {
      this.out := out;
      scope := [];
      this.minLevel := minLevel;
    }

    constructor Derived(parent: Sink, step: Scope)
      ensures out == parent.out && scope == parent.scope + [step]
      ensures minLevel == parent.minLevel
    {
      out := parent.out;
      scope := parent.scope + [step];
      minLevel := parent.minLevel;
    }

    /** The stand-in handles every level from its minimum level up. */
    predicate Enabled(ctx: Context, level: int)
      ensures Enabled(ctx, level) <==> minLevel <= level
    {
      level >= minLevel
    }

    method Handle(ctx: Context, r: Record) returns (err: Option<SinkError>)
      modifies out
      ensures out.entries == old(out.entries) + [Entry(scope, ctx, r)]
      ensures out.failure == old(out.failure) && err == out.failure
    {
      out.entries := out.entries + [Entry(scope, ctx, r)];
      err := out.failure;
    }

    method WithAttrs(attrs: seq<Attr>) returns (s: Sink)
      ensures fresh(s) && s.out == out && s.minLevel == minLevel
      ensures s.scope == scope + [AttrsScope(attrs)]
    {
      s := new Sink.Derived(this, AttrsScope(attrs));
    }

    method WithGroup(name: string) returns (s: Sink)
      ensures fresh(s) && s.out == out && s.minLevel == minLevel
      ensures s.scope == scope + [GroupScope(name)]
    {
      s := new Sink.Derived(this, GroupScope(name));
    }
  }
}
