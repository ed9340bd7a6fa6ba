/** The logger facade of logger.go: which sinks a logger gets from its two
    levels, where each log call's record lands, and the shutdown sequence
    around the log file handle. The logging library itself is reduced to
    ordered severities, sinks with thresholds and the records they receive. */
module Logger {
  import opened Results
  import opened Level

  /** The four severities the facade uses, as the logging library orders them. */
  datatype Severity = DebugLevel | InfoLevel | WarnLevel | ErrorLevel

  /** The library's numeric value of each severity. */
  function Rank(sev: Severity): int {
    match sev
    case DebugLevel => -1
    case InfoLevel => 0
    case WarnLevel => 1
    case ErrorLevel => 2
  }

  /** The name the lower-case level encoder writes for each severity. */
  function SeverityName(sev: Severity): string {
    match sev
    case DebugLevel => "debug"
    case InfoLevel => "info"
    case WarnLevel => "warn"
    case ErrorLevel => "error"
  }

  /** A sink whose threshold is `threshold` admits records of severity `sev`. */
  predicate Enabled(threshold: Severity, sev: Severity) {
    Rank(threshold) <= Rank(sev)
  }

  /** setLevel: each used level becomes the severity of the same name; an
      unmatched level falls through the switch and leaves the zero value,
      which is the info severity. */
  function SetLevel(l: OutputLevel): (r: Severity)
    ensures l != NotUsed ==> SeverityName(r) == Name(l)
    ensures l == NotUsed ==> r == InfoLevel
  {
    match l
    case Dbg => DebugLevel
    case Info => InfoLevel
    case Warn => WarnLevel
    case Err => ErrorLevel
    case NotUsed => InfoLevel
  }

  /** SetLevel keeps the order debug < info < warn < error. */
  lemma SetLevelOrdered()
    ensures Rank(SetLevel(Dbg)) < Rank(SetLevel(Info)) < Rank(SetLevel(Warn)) < Rank(SetLevel(Err))
  {
  }

  /** Distinct used levels get distinct severities. */
  lemma SetLevelInjective(a: OutputLevel, b: OutputLevel)
    requires a != NotUsed && b != NotUsed && SetLevel(a) == SetLevel(b)
    ensures a == b
  {
  }

  // ---------------------------------------------------------------------
  // Sinks

  datatype SinkKind = FileSink | ConsoleSink

  /** A sink: the JSON file core or the console core, with its threshold. */
  datatype Sink = Sink(kind: SinkKind, threshold: Severity)

  /** How many sinks a level asks for. */
  function Used(l: OutputLevel): nat {
    if l == NotUsed then 0 else 1
  }

  /** `sinks` is what a logger configured with the two levels owns: one sink
      per used level, the file sink first, each at its own level's severity. */
  ghost predicate ConfiguredBy(sinks: seq<Sink>, logLevel: OutputLevel, consoleLevel: OutputLevel) {
    && |sinks| == Used(logLevel) + Used(consoleLevel)
    && (logLevel != NotUsed ==> sinks[0] == Sink(FileSink, SetLevel(logLevel)))
    && (consoleLevel != NotUsed ==> sinks[|sinks| - 1] == Sink(ConsoleSink, SetLevel(consoleLevel)))
  }

  /** The `cores` slice of NewLogger, appended to step by step. */
  method BuildCores(logLevel: OutputLevel, consoleLevel: OutputLevel) returns (cores: seq<Sink>)
    ensures ConfiguredBy(cores, logLevel, consoleLevel)
  {
    cores := [];
    if logLevel != NotUsed {
      cores := cores + [Sink(FileSink, SetLevel(logLevel))];
    }
    if consoleLevel != NotUsed {
      cores := cores + [Sink(ConsoleSink, SetLevel(consoleLevel))];
    }
  }

  /** Some sink of kind `k` is in `sinks`. */
  predicate HasSink(sinks: seq<Sink>, k: SinkKind) {
    exists i :: 0 <= i < |sinks| && sinks[i].kind == k
  }

  /** A configured logger has a file sink exactly when the file level is
      used and a console sink exactly when the console level is used; the
      file sink can only come first, and each sink's threshold depends on
      its own level alone. */
  lemma ConfiguredSinks(sinks: seq<Sink>, logLevel: OutputLevel, consoleLevel: OutputLevel)
    requires ConfiguredBy(sinks, logLevel, consoleLevel)
    ensures HasSink(sinks, FileSink) <==> logLevel != NotUsed
    ensures HasSink(sinks, ConsoleSink) <==> consoleLevel != NotUsed
    ensures forall i :: 0 <= i < |sinks| && sinks[i].kind == FileSink ==>
              i == 0 && sinks[i].threshold == SetLevel(logLevel)
    ensures forall i :: 0 <= i < |sinks| && sinks[i].kind == ConsoleSink ==>
              i == |sinks| - 1 && sinks[i].threshold == SetLevel(consoleLevel)
  {
    if logLevel != NotUsed {
      assert sinks[0].kind == FileSink;
    }
    if consoleLevel != NotUsed {
      assert sinks[|sinks| - 1].kind == ConsoleSink;
    }
  }

  // ---------------------------------------------------------------------
  // Records

  /** What an I/O operation on the log file reported. `ErrInvalid` is what
      an operation on an absent (nil) file handle reports. */
  datatype IoError = ErrInvalid | IoFailure(code: nat)

  /** The value attached to a record: nothing, an opaque caller value, or an
      error. */
  datatype Value = Nil | Opaque(id: nat) | ErrorValue(err: IoError)

  datatype Field = Field(key: string, value: Value)

  /** A log record: the message and its single attached field. */
  datatype Entry = Entry(message: string, field: Field)

  /** assertFields: the record of one log call. The field is named by the
      first key, or by the empty string when no key is given. */
  function AssertFields(message: string, val: Value, keys: seq<string>): (e: Entry)
    ensures e.message == message && e.field.value == val
    ensures e.field.key == "" || e.field.key in keys
  {
    Entry(message, Field(if |keys| != 0 then keys[0] else "", val))
  }

  /** A call without keys names its field with the empty string. */
  lemma AssertFieldsWithoutKey(message: string, val: Value)
    ensures AssertFields(message, val, []).field == Field("", val)
  {
  }

  /** A call with keys names its field with the first one; the rest are ignored. */
  lemma AssertFieldsFirstKey(message: string, val: Value, key: string, extra: seq<string>)
    ensures AssertFields(message, val, [key] + extra) == AssertFields(message, val, [key])
    ensures AssertFields(message, val, [key]).field == Field(key, val)
  {
  }

  /** One record arriving at one sink. */
  datatype Write = Write(sink: SinkKind, severity: Severity, entry: Entry)

  /** A record of severity `sev` reaches sink `s`: its threshold admits it
      and, for the file sink, the file is still open. */
  predicate Lands(s: Sink, fileOpen: bool, sev: Severity) {
    Enabled(s.threshold, sev) && (s.kind == FileSink ==> fileOpen)
  }

  predicate HasWriteTo(ws: seq<Write>, k: SinkKind) {
    exists i :: 0 <= i < |ws| && ws[i].sink == k
  }

  predicate HasLandingSink(sinks: seq<Sink>, fileOpen: bool, sev: Severity, k: SinkKind) {
    exists i :: 0 <= i < |sinks| && sinks[i].kind == k && Lands(sinks[i], fileOpen, sev)
  }

  /** The indexes, from `from` on, of the sinks a record of severity `sev`
      lands on. */
  ghost function Landing(sinks: seq<Sink>, fileOpen: bool, sev: Severity, from: nat): set<nat> {
    set p: nat | from <= p < |sinks| && Lands(sinks[p], fileOpen, sev)
  }

  /** The records one log call produces: the entry is offered to every sink
      in order, and each sink it lands on receives exactly one copy, so
      there are as many copies as landing sinks. */
  function Deliver(sinks: seq<Sink>, fileOpen: bool, sev: Severity, e: Entry): (ws: seq<Write>)
    ensures |ws| == |Landing(sinks, fileOpen, sev, 0)| <= |sinks|
    ensures forall i :: 0 <= i < |ws| ==> ws[i].severity == sev && ws[i].entry == e
    ensures forall k :: HasWriteTo(ws, k) <==> HasLandingSink(sinks, fileOpen, sev, k)
  {
    DeliverFrom(sinks, fileOpen, sev, e, 0)
  }

  /** Deliver to the sinks from index `from` on. */
  function DeliverFrom(sinks: seq<Sink>, fileOpen: bool, sev: Severity, e: Entry, from: nat): (ws: seq<Write>)
    requires from <= |sinks|
    ensures |ws| == |Landing(sinks, fileOpen, sev, from)| <= |sinks| - from
    ensures forall i :: 0 <= i < |ws| ==> ws[i].severity == sev && ws[i].entry == e
    ensures forall k :: HasWriteTo(ws, k) <==>
      exists p :: from <= p < |sinks| && sinks[p].kind == k && Lands(sinks[p], fileOpen, sev)
    decreases |sinks| - from
  {
    if from == |sinks| then
      assert Landing(sinks, fileOpen, sev, from) == {};
      []
    else
      var lands := Lands(sinks[from], fileOpen, sev);
      var here := if lands then [Write(sinks[from].kind, sev, e)] else [];
      var rest := DeliverFrom(sinks, fileOpen, sev, e, from + 1);
      LandingStep(sinks, fileOpen, sev, from);
      assert forall k :: HasWriteTo(here, k) <==> here != [] && here[0].sink == k;
      HasWriteToConcat(here, rest);
      here + rest
  }

  /** The sink at `from` adds itself, when it lands, to those after it. */
  lemma LandingStep(sinks: seq<Sink>, fileOpen: bool, sev: Severity, from: nat)
    requires from < |sinks|
    ensures |Landing(sinks, fileOpen, sev, from)| ==
      (if Lands(sinks[from], fileOpen, sev) then 1 else 0) + |Landing(sinks, fileOpen, sev, from + 1)|
  {
    var here, later := Landing(sinks, fileOpen, sev, from), Landing(sinks, fileOpen, sev, from + 1);
    assert forall p :: p in later <==> p in here && p != from;
    if Lands(sinks[from], fileOpen, sev) {
      assert later == here - {from};
    } else {
      assert later == here;
    }
  }

  lemma HasWriteToConcat(a: seq<Write>, b: seq<Write>)
    ensures forall k :: HasWriteTo(a + b, k) <==> HasWriteTo(a, k) || HasWriteTo(b, k)
  {
    forall k ensures HasWriteTo(a + b, k) <==> HasWriteTo(a, k) || HasWriteTo(b, k) {
      if HasWriteTo(a + b, k) {
        var i :| 0 <= i < |a + b| && (a + b)[i].sink == k;
        if i >= |a| {
          assert b[i - |a|].sink == k;
        }
      }
      if HasWriteTo(a, k) {
        var i :| 0 <= i < |a| && a[i].sink == k;
        assert (a + b)[i].sink == k;
      }
      if HasWriteTo(b, k) {
        var i :| 0 <= i < |b| && b[i].sink == k;
        assert (a + b)[|a| + i].sink == k;
      }
    }
  }

  /** Where a configured logger's record lands: on the file sink when the
      file level is used, the file is open and its threshold admits the
      severity, then on the console sink when the console level is used and
      its threshold admits the severity. */
  lemma DeliverConfigured(sinks: seq<Sink>, logLevel: OutputLevel, consoleLevel: OutputLevel,
                          fileOpen: bool, sev: Severity, e: Entry)
    requires ConfiguredBy(sinks, logLevel, consoleLevel)
    ensures Deliver(sinks, fileOpen, sev, e) ==
      (if logLevel != NotUsed && fileOpen && Enabled(SetLevel(logLevel), sev)
       then [Write(FileSink, sev, e)] else [])
      + (if consoleLevel != NotUsed && Enabled(SetLevel(consoleLevel), sev)
         then [Write(ConsoleSink, sev, e)] else [])
  {
    var d0 := DeliverFrom(sinks, fileOpen, sev, e, 0);
    if |sinks| == 2 {
      var d1 := DeliverFrom(sinks, fileOpen, sev, e, 1);
      assert DeliverFrom(sinks, fileOpen, sev, e, 2) == [];
    } else if |sinks| == 1 {
      assert DeliverFrom(sinks, fileOpen, sev, e, 1) == [];
    }
  }

  /** With file level error and console level info, an info record goes to
      the console only and an error record goes to both sinks. */
  lemma FileErrorConsoleInfo(sinks: seq<Sink>, e: Entry)
    requires ConfiguredBy(sinks, Err, Info)
    ensures Deliver(sinks, true, InfoLevel, e) == [Write(ConsoleSink, InfoLevel, e)]
    ensures Deliver(sinks, true, ErrorLevel, e) == [Write(FileSink, ErrorLevel, e), Write(ConsoleSink, ErrorLevel, e)]
  {
    DeliverConfigured(sinks, Err, Info, true, InfoLevel, e);
    DeliverConfigured(sinks, Err, Info, true, ErrorLevel, e);
  }

  /** With both levels unused there are no sinks and no record lands anywhere. */
  lemma NoSinksNoRecords(sinks: seq<Sink>, fileOpen: bool, sev: Severity, e: Entry)
    requires ConfiguredBy(sinks, NotUsed, NotUsed)
    ensures Deliver(sinks, fileOpen, sev, e) == []
  {
  }

  /** Once the file is closed, no record reaches the file sink. */
  lemma NothingReachesClosedFile(sinks: seq<Sink>, sev: Severity, e: Entry)
    ensures !HasWriteTo(Deliver(sinks, false, sev, e), FileSink)
  {
  }

  // ---------------------------------------------------------------------
  // The log file and the logger object

  /** An open log file. */
  datatype File = File(path: string)

  /** What the file system reports while NewLogger opens the log file: whether
      the log path was found not to exist, the error (if any) of creating its
      directory, and the error (if any) of opening the file for appending. */
  datatype FsOutcomes = FsOutcomes(notExist: bool, mkdirErr: Option<IoError>, openErr: Option<IoError>)

  /** Opening the log file: the directory is created only when the path does
      not exist, and a failure of either step ends construction (a panic). */
  function OpenLogFile(path: string, fs: FsOutcomes): (r: Result<File, IoError>)
    ensures r.Success? <==> !(fs.notExist && fs.mkdirErr.Some?) && fs.openErr.None?
    ensures r.Success? ==> r.value == File(path)
    ensures fs.notExist && fs.mkdirErr.Some? ==> r == Failure(fs.mkdirErr.value)
    ensures !(fs.notExist && fs.mkdirErr.Some?) && fs.openErr.Some? ==> r == Failure(fs.openErr.value)
  {
    if fs.notExist && fs.mkdirErr.Some? then Failure(fs.mkdirErr.value)
    else if fs.openErr.Some? then Failure(fs.openErr.value)
    else Success(File(path))
  }

  /** How Close ends: normally, or in a panic carrying the close error. */
  datatype CloseOutcome = Closed | Panicked(cause: IoError)

  const CloseNotice: string := "Close logger."
  const SyncNotice: string := "Log file can not be synchronized."

  /** The records Close produces: the closing notice, then, when the flush
      reports `syncResult`, a notice carrying that error. Both are info
      records without a key, and both are sent while the file is in the
      state `wasOpen` it had when Close began. */
  function ClosingWrites(sinks: seq<Sink>, wasOpen: bool, syncResult: Option<IoError>): (ws: seq<Write>)
    ensures |ws| <= 2 * |sinks|
    ensures forall i :: 0 <= i < |ws| ==> ws[i].severity == InfoLevel && ws[i].entry.field.key == ""
    ensures forall i :: 0 <= i < |ws| ==>
      ws[i].entry == Entry(CloseNotice, Field("", Nil))
      || (syncResult.Some? && ws[i].entry == Entry(SyncNotice, Field("", ErrorValue(syncResult.value))))
    ensures forall i, j :: 0 <= i < j < |ws| && ws[i].entry.message == SyncNotice ==>
      ws[j].entry.message == SyncNotice
    ensures !wasOpen ==> !HasWriteTo(ws, FileSink)
    ensures |ws| == (if syncResult.Some? then 2 else 1) * |Landing(sinks, wasOpen, InfoLevel, 0)|
    ensures forall k :: HasNotice(ws, k, CloseNotice) <==> HasLandingSink(sinks, wasOpen, InfoLevel, k)
    ensures forall k :: HasNotice(ws, k, SyncNotice) <==>
      syncResult.Some? && HasLandingSink(sinks, wasOpen, InfoLevel, k)
  {
    var closing := Deliver(sinks, wasOpen, InfoLevel, AssertFields(CloseNotice, Nil, []));
    var failed := match syncResult
      case None => []
      case Some(err) => Deliver(sinks, wasOpen, InfoLevel, AssertFields(SyncNotice, ErrorValue(err), []));
    HasWriteToConcat(closing, failed);
    NoticeOfDelivered(closing, CloseNotice, SyncNotice);
    NoticeOfDelivered(failed, SyncNotice, CloseNotice);
    HasNoticeConcat(closing, failed, CloseNotice);
    HasNoticeConcat(closing, failed, SyncNotice);
    closing + failed
  }

  /** Some copy of the record with message `message` went to a sink of kind `k`. */
  predicate HasNotice(ws: seq<Write>, k: SinkKind, message: string) {
    exists i :: 0 <= i < |ws| && ws[i].sink == k && ws[i].entry.message == message
  }

  /** In writes that all carry `message`, a copy of `message` goes wherever
      some write goes, and no copy of any `other` message goes anywhere. */
  lemma NoticeOfDelivered(ws: seq<Write>, message: string, other: string)
    requires message != other
    requires forall i :: 0 <= i < |ws| ==> ws[i].entry.message == message
    ensures forall k :: HasNotice(ws, k, message) <==> HasWriteTo(ws, k)
    ensures forall k :: !HasNotice(ws, k, other)
  {
  }

  lemma HasNoticeConcat(a: seq<Write>, b: seq<Write>, message: string)
    ensures forall k :: HasNotice(a + b, k, message) <==> HasNotice(a, k, message) || HasNotice(b, k, message)
  {
    forall k ensures HasNotice(a + b, k, message) <==> HasNotice(a, k, message) || HasNotice(b, k, message) {
      if HasNotice(a + b, k, message) {
        var i :| 0 <= i < |a + b| && (a + b)[i].sink == k && (a + b)[i].entry.message == message;
        if i >= |a| {
          assert b[i - |a|] == (a + b)[i];
        }
      }
      if HasNotice(a, k, message) {
        var i :| 0 <= i < |a| && a[i].sink == k && a[i].entry.message == message;
        assert (a + b)[i] == a[i];
      }
      if HasNotice(b, k, message) {
        var i :| 0 <= i < |b| && b[i].sink == k && b[i].entry.message == message;
        assert (a + b)[|a| + i] == b[i];
      }
    }
  }

  class Logger {
    /** The sinks, fixed when the logger is made. */
    const sinks: seq<Sink>
    /** The log file handle; `None` once it has been closed. */
    var logFile: Option<File>
    /** Every record that has reached a sink so far. */
    ghost var written: seq<Write>

    /** The logger over an opened file: its sinks are built from the two
        levels and nothing has been written yet. */
    constructor (file: File, logLevel: OutputLevel, consoleLevel: OutputLevel)
      ensures ConfiguredBy(sinks, logLevel, consoleLevel)
      ensures logFile == Some(file) && written == []
    {
      var cores := BuildCores(logLevel, consoleLevel);
      sinks := cores;
      logFile := Some(file);
      written := [];
    }

    /** assertFields followed by the library's log call at severity `sev`. */
    method Log(sev: Severity, message: string, val: Value, keys: seq<string>)
      modifies this`written
      ensures written == old(written) + Deliver(sinks, logFile.Some?, sev, AssertFields(message, val, keys))
    {
      written := written + Deliver(sinks, logFile.Some?, sev, AssertFields(message, val, keys));
    }

    method Debug(message: string, val: Value, keys: seq<string>)
      modifies this`written
      ensures written == old(written) + Deliver(sinks, logFile.Some?, DebugLevel, AssertFields(message, val, keys))
    {
      Log(DebugLevel, message, val, keys);
    }

    method Info(message: string, val: Value, keys: seq<string>)
      modifies this`written
      ensures written == old(written) + Deliver(sinks, logFile.Some?, InfoLevel, AssertFields(message, val, keys))
    {
      Log(InfoLevel, message, val, keys);
    }

    method Warn(message: string, val: Value, keys: seq<string>)
      modifies this`written
      ensures written == old(written) + Deliver(sinks, logFile.Some?, WarnLevel, AssertFields(message, val, keys))
    {
      Log(WarnLevel, message, val, keys);
    }

    method Error(message: string, val: Value, keys: seq<string>)
      modifies this`written
      ensures written == old(written) + Deliver(sinks, logFile.Some?, ErrorLevel, AssertFields(message, val, keys))
    {
      Log(ErrorLevel, message, val, keys);
    }

    /** syncFile: flushing an open file reports what the file system reports
        (`syncErr`); flushing the absent handle reports `ErrInvalid`. */
    function SyncFile(syncErr: Option<IoError>): (r: Option<IoError>)
      reads this
      ensures logFile == None ==> r == Some(ErrInvalid)
      ensures logFile != None ==> r == syncErr
    {
      if logFile == None then Some(ErrInvalid) else syncErr
    }

    /** closeFile: the handle is absent afterwards. Closing an open file
        reports what the file system reports (`closeErr`); closing the absent
        handle succeeds and changes nothing. */
    method CloseFile(closeErr: Option<IoError>) returns (err: Option<IoError>)
      modifies this`logFile
      ensures logFile == None
      ensures err == if old(logFile) == None then None else closeErr
    {
      if logFile == None {
        return None;
      }
      err := closeErr;
      logFile := None;
    }

    /** Close: logs the closing notice, flushes the file (a failed flush is
        only logged), closes it, and panics only when the close fails. A
        second Close finds the handle absent: its flush reports
        `ErrInvalid`, which is logged, and it ends normally. */
    method Close(syncErr: Option<IoError>, closeErr: Option<IoError>) returns (outcome: CloseOutcome)
      modifies this`logFile, this`written
      ensures logFile == None
      ensures outcome == if old(logFile) != None && closeErr != None then Panicked(closeErr.value) else Closed
      ensures written == old(written) + ClosingWrites(sinks, old(logFile) != None,
                                                      if old(logFile) != None then syncErr else Some(ErrInvalid))
    {
      Info(CloseNotice, Nil, []);
      var syncResult := SyncFile(syncErr);
      if syncResult != None {
        Info(SyncNotice, ErrorValue(syncResult.value), []);
      }
      var err := CloseFile(closeErr);
      if err != None {
        return Panicked(err.value);
      }
      return Closed;
    }
  }

  /** NewLogger: opens the log file (a failure is a panic, returned here as
      the failure) and makes a logger whose sinks come from the two levels. */
  method NewLogger(logPath: string, logLevel: OutputLevel, consoleLevel: OutputLevel, fs: FsOutcomes)
    returns (r: Result<Logger, IoError>)
    ensures r.Failure? <==> OpenLogFile(logPath, fs).Failure?
    ensures r.Failure? ==> r.error == OpenLogFile(logPath, fs).error
    ensures r.Success? ==> fresh(r.value) && r.value.logFile == Some(File(logPath))
                           && ConfiguredBy(r.value.sinks, logLevel, consoleLevel) && r.value.written == []
  {
    var file := OpenLogFile(logPath, fs);
    if file.Failure? {
      return Failure(file.error);
    }
    var logger := new Logger(file.value, logLevel, consoleLevel);
    return Success(logger);
  }
}
