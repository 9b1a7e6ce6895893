/**
 * The in-memory logger of Application/Core/Logger.php. Its static state is
 * the fields of one Logger object: the entry list, the configuration flags,
 * the output streams opened once by Init, the running timers, and the lines
 * written to the streams so far. The clock, date('c') and number_format are
 * parameters.
 */
module Logger {
  import opened ByteStrings

  /** One log entry: time() when it was added, the optional title, the message and the level. */
  datatype Entry = Entry(timestamp: int, name: Bytes, message: Bytes, level: Bytes)

  /** An output stream: STDOUT, or the log file opened for appending or overwriting. */
  datatype Stream = Stdout | LogFile(path: Bytes, append: bool)

  /** One fputs of a line to a stream. */
  datatype Output = Output(stream: Stream, line: Bytes)

  /** What Init reads from outside: the directory separator, the paths that exist, and date('c', t). */
  datatype LogEnv = LogEnv(ds: Bytes, existing: set<Bytes>, date: int -> Bytes)

  /** PHP_EOL on the Unix-like hosts the framework is deployed on. */
  const EOL: Bytes := "\n"

  /** Logger::format_log_entry; None stands for the empty array. */
  function FormatEntry(entry: Option<Entry>, date: int -> Bytes): (line: Bytes)
    ensures entry.None? <==> |line| == 0
  {
    match entry
    case None => []
    case Some(e) =>
      date(e.timestamp) + " [" + Upper(e.level) + "] : "
        + (if IsEmptyString(e.name) then [] else e.name + " => ")
        + e.message
  }

  /** The line an entry is written as. */
  function Line(e: Entry, date: int -> Bytes): Bytes {
    FormatEntry(Some(e), date) + EOL
  }

  /** Logger::dump_to_string as a specification: every entry's line, in insertion order. */
  function Dump(entries: seq<Entry>, date: int -> Bytes): Bytes
    decreases |entries|
  {
    if |entries| == 0 then [] else Line(entries[0], date) + Dump(entries[1..], date)
  }

  /** The log file path Init builds: implode(DS, [dir, name]), then "." and the extension unless it is empty. */
  function LogFilePath(dir: Bytes, ds: Bytes, fileName: Bytes, extension: Bytes): Bytes {
    Join(ds, [dir, fileName]) + (if IsEmptyString(extension) then [] else "." + extension)
  }

  /** `$output_streams[$key] = $stream` on an ordered array: an existing key keeps its place. */
  function PutStream(streams: seq<(Bytes, Stream)>, key: Bytes, s: Stream): (r: seq<(Bytes, Stream)>)
    ensures |r| == |streams| || |r| == |streams| + 1
    decreases |streams|
  {
    if |streams| == 0 then [(key, s)]
    else if streams[0].0 == key then [(key, s)] + streams[1..]
    else [streams[0]] + PutStream(streams[1..], key, s)
  }

  /** The same line written to every stream, in order. */
  function Broadcast(streams: seq<(Bytes, Stream)>, line: Bytes): (r: seq<Output>)
    ensures |r| == |streams|
    ensures forall i :: 0 <= i < |r| ==> r[i] == Output(streams[i].1, line)
  {
    seq(|streams|, i requires 0 <= i < |streams| => Output(streams[i].1, line))
  }

  /** The entry timeEnd adds for a timer that ran `seconds` (already formatted). */
  function TimingEntry(name: Bytes, seconds: Bytes, now: int): Entry {
    Entry(now, "'" + name + "' took", seconds + " seconds", "timing")
  }

  class Logger {
    var log: seq<Entry>
    var printLog: bool
    var writeLog: bool
    var logDir: Bytes
    var fileName: Bytes
    var extension: Bytes
    var append: bool
    var logFilePath: Bytes
    var streams: seq<(Bytes, Stream)>
    var ready: bool
    var timers: map<Bytes, int>
    var written: seq<Output>

    /** The static defaults; `dir` is the directory of Logger.php, the default log directory. */
    constructor (dir: Bytes)
      ensures log == [] && streams == [] && timers == map[] && written == []
      ensures !ready && printLog && !writeLog && append
      ensures logDir == dir && fileName == "log" && extension == "log" && logFilePath == []
    {
      log, streams, timers, written := [], [], map[], [];
      ready, printLog, writeLog, append := false, true, false, true;
      logDir, fileName, extension, logFilePath := dir, "log", "log", [];
    }

    /** The streams and path Init sets up from the current configuration. */
    function OpenedStreams(env: LogEnv): seq<(Bytes, Stream)>
      reads this`streams, this`printLog, this`writeLog, this`logDir, this`fileName, this`extension, this`append
    {
      var console := if printLog then PutStream(streams, "stdout", Stdout) else streams;
      if writeLog && logDir in env.existing then
        var path := LogFilePath(logDir, env.ds, fileName, extension);
        PutStream(console, path, LogFile(path, append))
      else console
    }

    function InitialPath(env: LogEnv): Bytes
      reads this`logFilePath, this`logDir, this`fileName, this`extension
    {
      if logDir in env.existing then LogFilePath(logDir, env.ds, fileName, extension) else logFilePath
    }

    /** Logger::init: the setup runs on the first call only. */
    method Init(env: LogEnv)
      modifies this
      ensures ready
      ensures old(ready) ==> streams == old(streams) && logFilePath == old(logFilePath)
      ensures !old(ready) ==> streams == old(OpenedStreams(env)) && logFilePath == old(InitialPath(env))
      ensures log == old(log) && timers == old(timers) && written == old(written)
      ensures printLog == old(printLog) && writeLog == old(writeLog) && logDir == old(logDir)
      ensures fileName == old(fileName) && extension == old(extension) && append == old(append)
    {
      if !ready {
        var outputs := streams;
        if printLog {
          outputs := PutStream(outputs, "stdout", Stdout);
        }
        var path := logFilePath;
        if logDir in env.existing {
          path := Join(env.ds, [logDir, fileName]);
          if !IsEmptyString(extension) {
            path := path + "." + extension;
          }
          assert path == LogFilePath(logDir, env.ds, fileName, extension);
        }
        if writeLog && logDir in env.existing {
          outputs := PutStream(outputs, path, LogFile(path, append));
        }
        streams, logFilePath, ready := outputs, path, true;
      }
    }

    /** Logger::add: append the entry, set up the streams if needed, write the line to every stream. */
    method Add(message: Bytes, name: Bytes, level: Bytes, now: int, env: LogEnv) returns (entry: Entry)
      modifies this
      ensures entry == Entry(now, name, message, level)
      ensures log == old(log) + [entry]
      ensures ready && timers == old(timers)
      ensures streams == if old(ready) then old(streams) else old(OpenedStreams(env))
      ensures logFilePath == if old(ready) then old(logFilePath) else old(InitialPath(env))
      ensures written == old(written) + Broadcast(streams, Line(entry, env.date))
      ensures printLog == old(printLog) && writeLog == old(writeLog) && logDir == old(logDir)
      ensures fileName == old(fileName) && extension == old(extension) && append == old(append)
    {
      entry := Entry(now, name, message, level);
      log := log + [entry];
      if !ready {
        Init(env);
      }
      if ready && |streams| > 0 {
        var line := FormatEntry(Some(entry), env.date) + EOL;
        var sent: seq<Output> := [];
        var i := 0;
        while i < |streams|
          invariant 0 <= i <= |streams|
          invariant sent == Broadcast(streams[..i], line)
        {
          sent := sent + [Output(streams[i].1, line)];
          i := i + 1;
        }
        written := written + sent;
      }
    }

    method Info(message: Bytes, name: Bytes, now: int, env: LogEnv) returns (entry: Entry)
      modifies this
      ensures entry == Entry(now, name, message, "info") && log == old(log) + [entry]
      ensures ready && timers == old(timers)
      ensures streams == if old(ready) then old(streams) else old(OpenedStreams(env))
      ensures logFilePath == if old(ready) then old(logFilePath) else old(InitialPath(env))
      ensures written == old(written) + Broadcast(streams, Line(entry, env.date))
      ensures printLog == old(printLog) && writeLog == old(writeLog) && logDir == old(logDir)
      ensures fileName == old(fileName) && extension == old(extension) && append == old(append)
    {
      entry := Add(message, name, "info", now, env);
    }

    method Debug(message: Bytes, name: Bytes, now: int, env: LogEnv) returns (entry: Entry)
      modifies this
      ensures entry == Entry(now, name, message, "debug") && log == old(log) + [entry]
      ensures ready && timers == old(timers)
      ensures streams == if old(ready) then old(streams) else old(OpenedStreams(env))
      ensures logFilePath == if old(ready) then old(logFilePath) else old(InitialPath(env))
      ensures written == old(written) + Broadcast(streams, Line(entry, env.date))
      ensures printLog == old(printLog) && writeLog == old(writeLog) && logDir == old(logDir)
      ensures fileName == old(fileName) && extension == old(extension) && append == old(append)
    {
      entry := Add(message, name, "debug", now, env);
    }

    method Warning(message: Bytes, name: Bytes, now: int, env: LogEnv) returns (entry: Entry)
      modifies this
      ensures entry == Entry(now, name, message, "warning") && log == old(log) + [entry]
      ensures ready && timers == old(timers)
      ensures streams == if old(ready) then old(streams) else old(OpenedStreams(env))
      ensures logFilePath == if old(ready) then old(logFilePath) else old(InitialPath(env))
      ensures written == old(written) + Broadcast(streams, Line(entry, env.date))
      ensures printLog == old(printLog) && writeLog == old(writeLog) && logDir == old(logDir)
      ensures fileName == old(fileName) && extension == old(extension) && append == old(append)
    {
      entry := Add(message, name, "warning", now, env);
    }

    method Error(message: Bytes, name: Bytes, now: int, env: LogEnv) returns (entry: Entry)
      modifies this
      ensures entry == Entry(now, name, message, "error") && log == old(log) + [entry]
      ensures ready && timers == old(timers)
      ensures streams == if old(ready) then old(streams) else old(OpenedStreams(env))
      ensures logFilePath == if old(ready) then old(logFilePath) else old(InitialPath(env))
      ensures written == old(written) + Broadcast(streams, Line(entry, env.date))
      ensures printLog == old(printLog) && writeLog == old(writeLog) && logDir == old(logDir)
      ensures fileName == old(fileName) && extension == old(extension) && append == old(append)
    {
      entry := Add(message, name, "error", now, env);
    }

    /** Logger::time: start a timer unless one of that name is running. */
    method Time(name: Bytes, micro: int) returns (started: Option<int>)
      modifies this
      ensures old(name in timers) ==> started == None && timers == old(timers)
      ensures old(name !in timers) ==> started == Some(micro) && timers == old(timers)[name := micro]
      ensures log == old(log) && written == old(written) && streams == old(streams) && ready == old(ready)
      ensures logFilePath == old(logFilePath) && printLog == old(printLog) && writeLog == old(writeLog)
      ensures logDir == old(logDir) && fileName == old(fileName) && extension == old(extension) && append == old(append)
    {
      if name !in timers {
        timers := timers[name := micro];
        return Some(micro);
      }
      return None;
    }

    /** Logger::timeEnd: stop a running timer and log how long it ran; `seconds` is number_format(elapsed, 2). */
    method TimeEnd(name: Bytes, micro: int, now: int, seconds: int -> Bytes, env: LogEnv) returns (elapsed: Option<Bytes>)
      modifies this
      ensures old(name !in timers) ==>
                elapsed == None && timers == old(timers) && log == old(log) && written == old(written)
                && streams == old(streams) && ready == old(ready) && logFilePath == old(logFilePath)
      ensures old(name in timers) ==>
                elapsed == Some(seconds(micro - old(timers)[name]))
                && timers == old(timers) - {name}
                && log == old(log) + [TimingEntry(name, elapsed.value, now)]
                && ready
                && streams == (if old(ready) then old(streams) else old(OpenedStreams(env)))
                && logFilePath == (if old(ready) then old(logFilePath) else old(InitialPath(env)))
                && written == old(written) + Broadcast(streams, Line(TimingEntry(name, elapsed.value, now), env.date))
      ensures printLog == old(printLog) && writeLog == old(writeLog) && logDir == old(logDir)
      ensures fileName == old(fileName) && extension == old(extension) && append == old(append)
    {
      if name in timers {
        var start := timers[name];
        var text := seconds(micro - start);
        timers := timers - {name};
        var _ := Add(text + " seconds", "'" + name + "' took", "timing", now, env);
        assert log == old(log) + [TimingEntry(name, text, now)];
        return Some(text);
      }
      return None;
    }

    /** Logger::dump_to_string. */
    method DumpToString(date: int -> Bytes) returns (out: Bytes)
      ensures out == Dump(log, date)
    {
      out := [];
      var rest := log;
      while |rest| > 0
        invariant out + Dump(rest, date) == Dump(log, date)
      {
        out := out + Line(rest[0], date);
        rest := rest[1..];
      }
    }
  }

  // ------------------------------------------------------------- lemmas

  /** Dumping after one more entry is the earlier dump followed by that entry's line. */
  lemma {:induction false} DumpSnoc(entries: seq<Entry>, e: Entry, date: int -> Bytes)
    ensures Dump(entries + [e], date) == Dump(entries, date) + Line(e, date)
    decreases |entries|
  {
    if |entries| == 0 {
      assert [] + [e] == [e];
      assert Dump([e], date) == Line(e, date) + Dump([], date);
    } else {
      var s := entries + [e];
      assert s[0] == entries[0] && s[1..] == entries[1..] + [e];
      DumpSnoc(entries[1..], e, date);
    }
  }

  /** The dump of a log is the dumps of its parts, one after the other: nothing is reordered or lost. */
  lemma {:induction false} DumpConcat(a: seq<Entry>, b: seq<Entry>, date: int -> Bytes)
    ensures Dump(a + b, date) == Dump(a, date) + Dump(b, date)
    decreases |a|
  {
    if |a| == 0 {
      assert a + b == b;
    } else {
      assert (a + b)[0] == a[0] && (a + b)[1..] == a[1..] + b;
      DumpConcat(a[1..], b, date);
    }
  }

  /** A title that PHP's empty() rejects ("" or "0") is left out of the line altogether. */
  lemma EmptyNameOmitted(e: Entry, date: int -> Bytes)
    requires IsEmptyString(e.name)
    ensures FormatEntry(Some(e), date) == date(e.timestamp) + " [" + Upper(e.level) + "] : " + e.message
    ensures FormatEntry(Some(e), date) == FormatEntry(Some(e.(name := "")), date)
  {
  }

  /** The level is printed upper-cased, so levels that differ only in ASCII case print the same. */
  lemma LevelCaseIgnored(e: Entry, date: int -> Bytes)
    ensures FormatEntry(Some(e.(level := Upper(e.level))), date) == FormatEntry(Some(e), date)
    ensures FormatEntry(Some(e.(level := Lower(e.level))), date) == FormatEntry(Some(e), date)
  {
    assert Upper(Upper(e.level)) == Upper(e.level);
    assert Upper(Lower(e.level)) == Upper(e.level);
  }

  /** With an empty extension the log file path is dir, separator, name; otherwise ".ext" follows. */
  lemma LogFilePathShape(dir: Bytes, ds: Bytes, fileName: Bytes, extension: Bytes)
    ensures LogFilePath(dir, ds, fileName, extension)
         == dir + ds + fileName + (if IsEmptyString(extension) then [] else "." + extension)
  {
    var pieces := [dir, fileName];
    assert pieces[1..] == [fileName];
    assert Join(ds, pieces) == dir + ds + Join(ds, [fileName]);
  }

  /** A key already present is replaced at its first position, and every other stream keeps its place. */
  lemma {:induction false} PutStreamReplacesFirst(streams: seq<(Bytes, Stream)>, key: Bytes, s: Stream, i: int)
    requires 0 <= i < |streams| && streams[i].0 == key
    requires forall j :: 0 <= j < i ==> streams[j].0 != key
    ensures PutStream(streams, key, s) == streams[i := (key, s)]
    decreases |streams|
  {
    if i > 0 {
      assert streams[0].0 != key;
      PutStreamReplacesFirst(streams[1..], key, s, i - 1);
      assert [streams[0]] + streams[1..][i - 1 := (key, s)] == streams[i := (key, s)];
    }
  }

  /** Writing a stream under a key already present replaces it in place; a new key is appended. */
  lemma {:induction false} PutStreamKeys(streams: seq<(Bytes, Stream)>, key: Bytes, s: Stream)
    ensures (exists i :: 0 <= i < |streams| && streams[i].0 == key) ==> |PutStream(streams, key, s)| == |streams|
    ensures (forall i :: 0 <= i < |streams| ==> streams[i].0 != key) ==> PutStream(streams, key, s) == streams + [(key, s)]
    ensures (key, s) in PutStream(streams, key, s)
    decreases |streams|
  {
    if |streams| > 0 && streams[0].0 != key {
      PutStreamKeys(streams[1..], key, s);
      if exists i :: 0 <= i < |streams| && streams[i].0 == key {
        var i :| 0 <= i < |streams| && streams[i].0 == key;
        assert streams[1..][i - 1].0 == key;
      }
      assert streams == [streams[0]] + streams[1..];
    }
  }
}
