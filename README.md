# gorogger in Dafny

A verified model of the two pieces of gorogger that hold logic of their own.
The rest of gorogger is a thin facade over the zap logging library.

- **The level translator** (`level.go`). `GetLevel` trims free-form level text,
  lower-cases it and tests it against four synonym families in a fixed order:
  debug (`debug`, `dbg`), info (`infomation`, `info`), warn (`warning`, `warn`)
  and error (`error`, `err`). The first family with a synonym in the text wins.
  Text that matches no family gives `NOT_USED`, which means "create no sink".
  The model is in `level.dfy`. It rests on `strings.dfy`, which models the three
  Go `strings` functions the translator calls: `TrimSpace`, `ToLower` and
  `Contains`.
- **The logger facade** (`logger.go`), in `logger.dfy`:
  - `NewLogger` opens the log file and builds one sink ("core") per used level:
    a JSON file sink first, then a console sink. Each sink filters at its own
    level's severity.
  - `Debug`, `Info`, `Warn` and `Error` each send one record at their own
    severity to every sink whose threshold admits it. The record carries a
    single field, named by the first key given or by the empty string.
  - `Close` logs a closing notice, flushes the file (a flush failure is only
    logged), closes it, and panics only when the close fails.

  The logger is a class. Its sinks are fixed at construction, its file handle
  becomes `None` once closed, and a ghost trace `written` records every record
  that reaches a sink.

The model's `OutputLevel` is a datatype with exactly the five constants, so
"`GetLevel` returns one of `NOT_USED`, `DBG`, `INFO`, `WARN`, `ERR`" holds by
construction.

Two points about the code that are easy to misread:

- The long info synonym is spelled `infomation` (`level.go:22`). It contains
  "info", so it classifies like "information" would
  (`Level.FamiliesByShortSynonym`).
- A second `Close` ends normally. `Sync` on the nil handle returns
  `os.ErrInvalid`, which is only logged, and `closeFile` returns nil when the
  handle is already nil (`logger.go:82-89`, `logger.go:118-121`).
  `Logger.Logger.Close` states this: the outcome is `Closed` whenever the
  handle was already absent.

## Model

| member | source | states |
|---|---|---|
| `Strings.TrimSpace` | level.go:17 | The result has no leading or trailing white space (Go's `unicode.IsSpace` set). It is empty exactly when the input is all white space. |
| `Strings.TrimSpaceUnique` | level.go:17 | When a slice starts and ends with a non-space and only white space lies around it, that slice is exactly what `TrimSpace` keeps. |
| `Strings.TrimSpacePadding` | level.go:17 | Adding white space before and after a string does not change what `TrimSpace` returns. |
| `Strings.TrimSpaceIdempotent` | level.go:17 | Trimming twice gives the same result as trimming once. |
| `Strings.ToLower` | level.go:16 | Each code point is lowered on its own (ASCII letters only). The length is kept and no ASCII capital is left. |
| `Strings.ToLowerIdempotent` | level.go:16 | Lower-casing twice gives the same result as lower-casing once. |
| `Strings.TrimSpaceToLower` | level.go:16-17 | Trimming and lower-casing can be done in either order with the same result. |
| `Strings.Contains` | level.go:35 | True exactly when `sub` occurs in `s` at some index. |
| `Strings.ContainsTransitive` | level.go:22-26 | If `s` contains `mid` and `mid` contains `sub`, then `s` contains `sub`. This is why each family's long synonym is redundant. |
| `Level.Contains` | level.go:33-40 | True exactly when some reference in `refs` is a substring of the target. References are tried in order and the first hit ends the search. |
| `Level.FamiliesByShortSynonym` | level.go:20-27 | The debug family matches on "debug" or "dbg". The info, warn and error families match exactly when "info", "warn" or "err" occurs, because "infomation", "warning" and "error" contain those. |
| `Level.Normalise` | level.go:16-18 | The text the families are matched against has no white space at either end and no ASCII capital. It is empty exactly when the raw text is all white space. |
| `Level.Classify` | level.go:19-30 | The same five iffs as `GetLevel`, over text that is already normalised. |
| `Level.GetLevel` | level.go:15-31 | Over the normalised text: DBG iff "debug" or "dbg" occurs. INFO iff no debug synonym occurs and "info" does. WARN iff neither of those occurs and "warn" does. ERR iff none of the earlier ones occurs and "err" does. NOT_USED iff none of the five occurs. |
| `Level.GetLevelBlank` | level.go:28-29 | The empty text, and any text that is only white space, gives NOT_USED. |
| `Level.GetLevelNormalised` | level.go:16-18 | `GetLevel(ToLower(TrimSpace(s))) == GetLevel(s)`. |
| `Level.GetLevelIgnoresCase` | level.go:16 | Two texts with the same lower-case form translate to the same level. |
| `Level.GetLevelIgnoresPadding` | level.go:17 | White space added around the text does not change the level. |
| `Level.Name` | level.go:5-11 | Each constant's string is already trimmed and has no capital letters. |
| `Level.GetLevelOfName` | level.go:5-11 | Each constant's own string translates back to that constant: "debug", "info", "warn", "error" and "". |
| `Level.GetLevelIdempotent` | level.go:5-31 | `GetLevel(string(GetLevel(s))) == GetLevel(s)`. |
| `Level.GetLevelOfShortForms` | logger_test.go:57-63 | The short configuration values map as the test table expects: "dbg" to DBG and "err" to ERR. |
| `Level.GetLevelOfPaddedMixedCase` | level.go:15-21 | " DeBuG " translates to DBG. |
| `Level.GetLevelOfUpperCase` | level.go:15-25 | "WARNING" translates to WARN. |
| `Logger.SetLevel` | logger.go:136-148 | Each used level maps to the severity whose encoded name is the level's own string (debug, info, warn, error). `NOT_USED` falls through the switch and gets the zero severity, info. |
| `Logger.SetLevelOrdered` | logger.go:136-148 | The mapped severities are ordered debug < info < warn < error. |
| `Logger.SetLevelInjective` | logger.go:136-148 | Distinct used levels map to distinct severities. |
| `Logger.BuildCores` | logger.go:48-66 | One sink per used level, so the count is the number of used levels. The file sink, when present, is first, at `SetLevel(logLevel)`. The console sink, when present, is last, at `SetLevel(consoleLevel)`. |
| `Logger.ConfiguredSinks` | logger.go:50-65 | A file sink exists iff the file level is used. A console sink exists iff the console level is used. A file sink can only be at index 0. Each sink's threshold is `SetLevel` of its own level alone. |
| `Logger.AssertFields` | logger.go:128-134 | One record per call, carrying the message and the value unchanged. The field key is the empty string or one of the keys. |
| `Logger.AssertFieldsWithoutKey` | logger.go:129-133 | With no key, the field is named by the empty string. |
| `Logger.AssertFieldsFirstKey` | logger.go:130-132 | With keys, the field is named by the first key, and any further keys change nothing. |
| `Logger.Deliver` | logger.go:69 | There are exactly as many copies as there are sinks the record lands on: sinks whose threshold admits its severity, the file sink only while the file is open. A kind of sink receives a copy iff some sink of that kind lands the record. Every copy carries the call's severity and record. The order of the copies is fixed by `Logger.DeliverConfigured`. |
| `Logger.DeliverConfigured` | logger.go:48-69 | For a configured logger, one call's output is: the file copy if the file level is used, the file is open and its threshold admits the severity; then the console copy under the same conditions for the console level. |
| `Logger.FileErrorConsoleInfo` | logger_test.go:58 | With file level error and console level info, an info record goes to the console only. An error record goes to the file and then to the console. |
| `Logger.NoSinksNoRecords` | logger_test.go:63 | With both levels `NOT_USED`, log calls are safe and no record lands anywhere. |
| `Logger.NothingReachesClosedFile` | logger.go:123 | Once the handle is closed, no record reaches the file sink. |
| `Logger.OpenLogFile` | logger.go:38-46 | Opening fails exactly when the directory had to be created and that failed, or when the open fails. A directory failure comes first. A failed directory creation fails with that error, otherwise a failed open fails with the open's own error. On success the handle is for the given path. |
| `Logger.NewLogger` | logger.go:19-75 | A panic during opening is returned as the failure. Otherwise the result is a fresh logger with the file open, sinks configured from the two levels, and nothing written yet. |
| `Logger.ClosingWrites` | logger.go:78-84 | What `Close` logs. The closing notice reaches a kind of sink iff some sink of that kind admits info (the file sink only while the file is open). The flush-failure notice does the same iff the flush failed. There is one copy of each notice per admitting sink, so there are never more than two copies per sink, all at info severity with the empty key. Each is the closing notice, or the flush-failure notice carrying the flush error (only when the flush failed). Every flush-failure copy comes after every closing-notice copy. Nothing reaches the file sink when the file was already closed. |
| `Logger.Logger.constructor` | logger.go:48-74 | The sinks are configured by the two levels, the handle is the given file, and the trace is empty. |
| `Logger.Logger.Log` | logger.go:128-134 | The call shared by the four log methods at logger.go:93-110 (`assertFields` and the library's log function): the trace gains exactly `Deliver` of the call's record, at the call's severity. The file handle and sinks are unchanged. |
| `Logger.Logger.Debug` | logger.go:93-95 | Appends exactly `Deliver` at debug severity of the call's record. The file handle and sinks are unchanged. |
| `Logger.Logger.Info` | logger.go:98-100 | Same as `Debug`, at info severity. |
| `Logger.Logger.Warn` | logger.go:103-105 | Same as `Debug`, at warn severity. |
| `Logger.Logger.Error` | logger.go:108-110 | Same as `Debug`, at error severity. |
| `Logger.Logger.SyncFile` | logger.go:113-115 | Flushing an open file reports the file system's result. Flushing the absent handle reports `ErrInvalid`. |
| `Logger.Logger.CloseFile` | logger.go:118-125 | Afterwards the handle is absent. Closing an open file reports the file system's result. With the handle already absent it reports success and changes nothing, so repeating it is harmless. |
| `Logger.Logger.Close` | logger.go:77-90 | The handle is absent afterwards. It panics iff the handle was open and closing failed. The trace gains the closing notice, then the flush-failure notice if the flush failed, both sent while the file was still in its prior state. A second `Close` never writes to the file. It sends the closing notice and the `ErrInvalid` flush-failure notice to the console sink only when that sink exists and admits info, and it ends normally. |

## Left out

- The zap library itself is not part of this model: encoders, the encoder
  configuration (time, level, caller and stack-trace keys), the JSON and console
  layouts, `zap.Any` value encoding and stack traces (logger.go:24-35, 52-69,
  133). A severity is an ordered enum with zap's numeric values. A sink is a
  kind plus a threshold. A record is a message with one (key, value) field, and
  the value is opaque.
- `Logger.Deliver`: zap's level check is modelled as "the threshold's rank is at
  most the severity's rank". A write to the closed file is modelled as lost.
  zap's report of that write error on its own error output is not modelled.
- File-system and console I/O are not modelled: `os.Stat`, `MkdirAll`,
  `OpenFile`, `Sync`, `Close` and `os.Stdout` (logger.go:38-46, 60, 114, 122).
  Their results are parameters (`FsOutcomes`, `syncErr`, `closeErr`).
  `filepath.Dir` and file permissions are not modelled.
- A `panic` is a failure outcome (`Failure` from `NewLogger`, `Panicked` from
  `Close`), not process termination. The text of the wrapped close error
  (logger.go:87) is not modelled; `Panicked` carries the underlying error.
- The `sync.Mutex` around `Close` (logger.go:14, 80-81) is left out. The model
  is sequential.
- `Strings.ToLower` lowers ASCII letters only. Go lowers all of Unicode, and
  one non-ASCII capital matters here: `U+0130` lowers to `i`, so Go reads
  "İNFO" as info while the model gives `NOT_USED`. Go strings are bytes; the
  model uses Unicode code points and does not model invalid UTF-8.
- `OutputLevel` is a Go string type, so a caller could pass a value outside
  the five constants. The model has only the five constants. For other values,
  Go's `setLevel` would return the zero severity (info); this is modelled only
  for `NOT_USED`.
- logger_test.go is used only as evidence for the properties above. Its TOML
  configuration loading, file deletion, error-wrapping helpers and
  `MarshalLogObject` are not modelled.
