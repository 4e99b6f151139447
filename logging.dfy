/** The server's logging set-up (server/src/logging/mod.rs): how the
    filtering level is chosen, the writer that discards, and the early-log
    buffer that collects formatted log lines until the real outputs exist
    and is then dumped to them. The tracing subscriber, its reload handles,
    environment access and the actual files and stdout are not part of this
    model: the environment value and the level parser are inputs, and an
    output is a `ByteSink` that records what was written to it. */
module Logging {
  import opened Errors
  import Utf8

  /** `tracing`'s `LevelFilter`. */
  datatype LevelFilter = Off | ErrorLevel | Warn | Info | Debug | Trace

  /** The part of `LoggingConfig` the level choice reads. */
  datatype LoggingConfig = LoggingConfig(level: string, path: string)

  /** Upper-casing of one character, for the ASCII letters. */
  function UpperChar(c: char): (u: char)
    ensures 'a' <= c <= 'z' ==> u as int == c as int - 32
    ensures !('a' <= c <= 'z') ==> u == c
  {
    if 'a' <= c <= 'z' then (c as int - 32) as char else c
  }

  /** `str::to_uppercase`, restricted to ASCII letters. */
  function ToUpper(s: string): (r: string)
    ensures |r| == |s|
    ensures forall i :: 0 <= i < |s| ==> r[i] == UpperChar(s[i])
  {
    if |s| == 0 then "" else [UpperChar(s[0])] + ToUpper(s[1..])
  }

  /** `get_filtering_level`. `rustLog` is the `RUST_LOG` variable (`None`
      when unset), `config` the logging configuration when one is given, and
      `parse` stands for `LevelFilter::from_str`. A set `RUST_LOG` decides
      alone: its level if it parses after upper-casing, INFO if not. Only
      without it is the configured level used, again with INFO as the
      fallback for an invalid value and for a missing configuration. */
  function GetFilteringLevel(rustLog: Option<string>, config: Option<LoggingConfig>,
                             parse: string -> Option<LevelFilter>): (level: LevelFilter)
    ensures rustLog.Some? && parse(ToUpper(rustLog.value)).Some? ==>
              level == parse(ToUpper(rustLog.value)).value
    ensures rustLog.Some? && parse(ToUpper(rustLog.value)).None? ==> level == Info
    ensures rustLog.None? && config.Some? && parse(ToUpper(config.value.level)).Some? ==>
              level == parse(ToUpper(config.value.level)).value
    ensures rustLog.None? && config.Some? && parse(ToUpper(config.value.level)).None? ==>
              level == Info
    ensures rustLog.None? && config.None? ==> level == Info
  {
    match rustLog
    case Some(value) =>
      (match parse(ToUpper(value))
       case Some(level) => level
       case None => Info)
    case None =>
      match config
      case None => Info
      case Some(c) =>
        match parse(ToUpper(c.level))
        case Some(level) => level
        case None => Info
  }

  /** A set `RUST_LOG` makes the configuration irrelevant. */
  lemma RustLogIgnoresConfig(value: string, c1: Option<LoggingConfig>, c2: Option<LoggingConfig>,
                             parse: string -> Option<LevelFilter>)
    ensures GetFilteringLevel(Some(value), c1, parse) == GetFilteringLevel(Some(value), c2, parse)
  {
  }

  /** Upper-casing twice is upper-casing once. */
  lemma ToUpperIdempotent(s: string)
    ensures ToUpper(ToUpper(s)) == ToUpper(s)
  {
  }

  /** Values that differ only in the case of ASCII letters select the same
      level, from `RUST_LOG` and from the configuration alike. */
  lemma LevelChoiceIsCaseInsensitive(a: string, b: string, path: string,
                                     parse: string -> Option<LevelFilter>)
    requires ToUpper(a) == ToUpper(b)
    ensures GetFilteringLevel(Some(a), None, parse) == GetFilteringLevel(Some(b), None, parse)
    ensures GetFilteringLevel(None, Some(LoggingConfig(a, path)), parse) ==
            GetFilteringLevel(None, Some(LoggingConfig(b, path)), parse)
  {
  }

  /** `NullWriter::write`: reports every byte as written and keeps none. */
  function NullWriterWrite(buf: seq<Utf8.byte>): (written: Result<nat, Error>)
    ensures written == Ok(|buf|)
  {
    Ok(|buf|)
  }

  /** The `Vec<String>` behind the shared `Arc<Mutex<..>>`: formatted log
      lines in the order they were written. */
  class EarlyLogBuffer {
    var entries: seq<string>

    constructor ()
      ensures entries == []
    {
      entries := [];
    }
  }

  /** `VecStringWriter`: a handle on the shared early-log buffer. */
  class VecStringWriter {
    const buffer: EarlyLogBuffer

    constructor (buffer: EarlyLogBuffer)
      ensures this.buffer == buffer
    {
      this.buffer := buffer;
    }

    /** `Write::write`: adds the bytes, decoded lossily, as one new entry at
        the end of the shared buffer, and reports all of them as written. */
    method Write(buf: seq<Utf8.byte>) returns (written: Result<nat, Error>)
      modifies buffer
      ensures buffer.entries == old(buffer.entries) + [Utf8.DecodeLossy(buf)]
      ensures written == Ok(|buf|)
    {
      buffer.entries := buffer.entries + [Utf8.DecodeLossy(buf)];
      written := Ok(|buf|);
    }
  }

  /** An output stream; `written` is everything written to it so far. */
  class ByteSink {
    var written: seq<Utf8.byte>

    constructor ()
      ensures written == []
    {
      written := [];
    }

    /** `Write::write_all`. */
    method WriteAll(bytes: seq<Utf8.byte>)
      modifies this
      ensures written == old(written) + bytes
    {
      written := written + bytes;
    }
  }

  /** The bytes a dump writes: each entry's UTF-8 bytes after `transform`,
      entry after entry. */
  function Dumped(entries: seq<string>, transform: seq<Utf8.byte> -> seq<Utf8.byte>): seq<Utf8.byte>
  {
    if |entries| == 0 then []
    else transform(Utf8.Encode(entries[0])) + Dumped(entries[1..], transform)
  }

  /** Dumping a concatenation is dumping its parts one after the other, so
      the dump keeps the order of the buffer. */
  lemma {:induction false} DumpedAppend(a: seq<string>, b: seq<string>,
                                        transform: seq<Utf8.byte> -> seq<Utf8.byte>)
    ensures Dumped(a + b, transform) == Dumped(a, transform) + Dumped(b, transform)
  {
    if |a| > 0 {
      assert (a + b)[1..] == a[1..] + b;
      DumpedAppend(a[1..], b, transform);
    } else {
      assert a + b == b;
    }
  }

  /** With the identity transform (the stdout dump) the bytes are the UTF-8
      encoding of the entries concatenated. */
  lemma {:induction false} DumpedIdentity(entries: seq<string>)
    ensures Dumped(entries, bytes => bytes) == Utf8.Encode(Concat(entries))
  {
    if |entries| > 0 {
      DumpedIdentity(entries[1..]);
      EncodeAppend(entries[0], Concat(entries[1..]));
    }
  }

  function Concat(entries: seq<string>): string
  {
    if |entries| == 0 then "" else entries[0] + Concat(entries[1..])
  }

  lemma {:induction false} EncodeAppend(s: string, t: string)
    ensures Utf8.Encode(s + t) == Utf8.Encode(s) + Utf8.Encode(t)
  {
    if |s| > 0 {
      assert (s + t)[1..] == s[1..] + t;
      EncodeAppend(s[1..], t);
    } else {
      assert s + t == t;
    }
  }

  /** `Logging`: owns the early-log buffer that the early file layer's
      writers share. */
  class Logging {
    const earlyLogsBuffer: EarlyLogBuffer

    /** `Logging::new`: starts with an empty early-log buffer. */
    constructor ()
      ensures fresh(earlyLogsBuffer) && earlyLogsBuffer.entries == []
    {
      earlyLogsBuffer := new EarlyLogBuffer();
    }

    /** `Logging` has no `make_writer` of its own: this is `early_init`
        wrapping the buffer in a `VecStringMakeWriter`, followed by that
        type's `make_writer`. The result is a writer on this buffer. */
    method MakeWriter() returns (writer: VecStringWriter)
      ensures fresh(writer) && writer.buffer == earlyLogsBuffer
    {
      writer := new VecStringWriter(earlyLogsBuffer);
    }

    /** `dump_to_file` with `strip` for `strip_ansi_escapes::strip`, and
        `dump_to_stdout` with the identity: every buffered entry is written,
        in buffer order, and the buffer itself is left as it was. */
    method Dump(sink: ByteSink, transform: seq<Utf8.byte> -> seq<Utf8.byte>)
      modifies sink
      ensures sink.written == old(sink.written) + Dumped(earlyLogsBuffer.entries, transform)
    {
      var entries := earlyLogsBuffer.entries;
      var i := 0;
      while i < |entries|
        invariant 0 <= i <= |entries|
        invariant sink.written == old(sink.written) + Dumped(entries[..i], transform)
      {
        DumpedAppend(entries[..i], [entries[i]], transform);
        assert entries[..i + 1] == entries[..i] + [entries[i]];
        sink.WriteAll(transform(Utf8.Encode(entries[i])));
        i := i + 1;
      }
      assert entries[..i] == entries;
    }

    method DumpToFile(sink: ByteSink, strip: seq<Utf8.byte> -> seq<Utf8.byte>)
      modifies sink
      ensures sink.written == old(sink.written) + Dumped(earlyLogsBuffer.entries, strip)
    {
      Dump(sink, strip);
    }

    method DumpToStdout(stdout: ByteSink)
      modifies stdout
      ensures stdout.written == old(stdout.written) + Utf8.Encode(Concat(earlyLogsBuffer.entries))
    {
      Dump(stdout, bytes => bytes);
      DumpedIdentity(earlyLogsBuffer.entries);
    }
  }
}
