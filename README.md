# uploadthing: upload-progress hook and log formatting, modelled in Dafny

This project models two small sequential pieces of the uploadthing
libraries and proves properties of them.

- **The React upload hook** (`packages/react/src/useUploadThing.ts`).
  `startUpload` keeps per-call state: the `isUploading` flag, a map from file
  name to the last reported percentage, and the last aggregate it passed to
  `onUploadProgress`. Here that state is the class
  `UploadHook.UploadSession`, with one method for each phase of a call:
  - `Begin` seeds every file at 0 and emits 0.
  - `OnProgress` is the uploader's progress handler. It overwrites one
    entry, recomputes `Math.floor(sum / size / 10) * 10` through the
    summing loop `ComputeAggregate`, and emits only a changed value.
  - `Finish` is the `finally` block.
  - `StartUpload` runs a whole call.

  The session is proved against the pure reference definitions in module
  `UploadProgress`. `Replay` gives the handler's state after a run of
  events, and `Emissions` gives the values it emits. Module `UploadHook`
  also models the `catch` block's classification of rejections
  (`Classify`, `Settle`). Module `RouteConfig` models the route-config
  lookups by slug (`useRouteConfig`, `getRouteConfig`, `permittedFileInfo`).
- **The server logger's line formatting**
  (`packages/uploadthing/src/internal/logger.ts`). Module `Logger` covers:
  - `colorize` and the icon table;
  - `formatStack`, which drops the message line, trims each line and strips
    the first `file://` and the first `cwd + "/"`;
  - `formatArgs`;
  - the reporter's pipeline, which joins the arguments, splits them at
    newlines and puts the prefix before every line;
  - the two level tables.

  Module `Text` holds the JavaScript string operations these use: `split`,
  `join`, `trim`, and `replace` with a string pattern.

Progress percentages are natural numbers. For those,
`Math.floor(sum / size / 10) * 10` equals `10 * (sum / (10 * size))` with
integer division, which is how `FloorMeanToTen` computes it.

Emitted progress can go down. A reading of the hook might suggest that the
values passed to `onUploadProgress` never decrease. The code does not ensure
that: line 96 overwrites a file's entry with whatever the uploader reports,
so a lower report lowers the aggregate. The model follows the code.
`UploadHook.ProgressCanDecreaseExample` shows a call whose callback sees 0,
50 and then 10. What the code does guarantee is proved instead:
- no two consecutive values are equal;
- every value is a multiple of ten;
- with percentages in [0, 100], every value is in [0, 100].

## Model

| member | source | states |
|---|---|---|
| UploadHook.UploadSession.constructor | packages/react/src/useUploadThing.ts:72-74 | a new hook is idle, with an empty progress map and a zero counter |
| UploadHook.UploadSession.Begin | packages/react/src/useUploadThing.ts:85-87 | the flag is set; every file to upload is in the map at 0; the map holds exactly those files; the callback, if present, receives 0 exactly once |
| UploadHook.UploadSession.OnProgress | packages/react/src/useUploadThing.ts:94-107 | without a callback nothing changes and nothing is emitted; otherwise only the event's file entry is overwritten (added if new), all other entries are kept, the map is non-empty, and the new aggregate is emitted exactly when it differs from the last value, which it then becomes; it agrees with `Advance`/`Emission` and keeps `Valid` (no two consecutive emissions equal) |
| UploadHook.UploadSession.Finish | packages/react/src/useUploadThing.ts:137-141 | afterwards the flag is false, the map empty and the counter 0 |
| UploadHook.UploadSession.StartUpload | packages/react/src/useUploadThing.ts:81-142 | for any events and any outcome the session ends idle and reset; the callback sees 0 followed by exactly `Emissions` of the events from the seeded map (nothing without a callback); the call settles as `Settle` says |
| UploadHook.ComputeAggregate | packages/react/src/useUploadThing.ts:97-102 | the `forEach` summing loop followed by the floor computes `Aggregate` of the map |
| UploadHook.FilesToUpload | packages/react/src/useUploadThing.ts:82 | the files `onBeforeUploadBegin` returns, or the given files when it is absent or returns nothing |
| UploadHook.Classify | packages/react/src/useUploadThing.ts:124-130 | an abort is rethrown, and only an abort is; an `UploadThingError` is reported unchanged; anything else is reported after wrapping |
| UploadHook.Settle | packages/react/src/useUploadThing.ts:117-136 | on success the completion callback gets the results and the call resolves to them; an abort rejects the call and calls no callback; any other rejection calls the error callback with the classified error and resolves to `undefined` |
| UploadHook.SettleCallbacks | packages/react/src/useUploadThing.ts:117-136 | the error callback is called exactly for non-abort rejections, with the typed error itself or the wrapped one, and the call then yields `undefined`; the completion callback's argument is the call's result |
| UploadHook.CallbackSequence | packages/react/src/useUploadThing.ts:87-106 | the whole sequence the callback sees starts at 0, has no two equal neighbours, is made of multiples of ten and, with percentages in [0, 100], stays in [0, 100] |
| UploadHook.TwoFilesExample | packages/react/src/useUploadThing.ts:94-106 | two files completing in turn make the handler emit 50 and then 100 |
| UploadHook.ProgressCanDecreaseExample | packages/react/src/useUploadThing.ts:96-106 | one file reported at 50 and then at 10 makes the handler emit 50 and then 10 |
| UploadProgress.Seed | packages/react/src/useUploadThing.ts:86 | the seeded map's keys are exactly the file names, each at 0 |
| UploadProgress.SumRemove | packages/react/src/useUploadThing.ts:97-100 | the sum over the map does not depend on the order in which entries are visited |
| UploadProgress.SumAtMost | packages/react/src/useUploadThing.ts:97-100 | entries bounded by `b` sum to at most `b` times the map's size |
| UploadProgress.FloorMeanToTen | packages/react/src/useUploadThing.ts:101-102 | the result is a multiple of ten, times the size it is at most the sum, and it is less than ten below the mean |
| UploadProgress.Aggregate | packages/react/src/useUploadThing.ts:97-102 | the aggregate of a non-empty map is a multiple of ten bracketing the mean, and it is at most 100 when every entry is |
| UploadProgress.Record | packages/react/src/useUploadThing.ts:96 | after an event the map holds the old files plus the event's, and the event's file holds its percentage |
| UploadProgress.RecordKeepsOthers | packages/react/src/useUploadThing.ts:96 | an event leaves every other file's entry unchanged |
| UploadProgress.Emission | packages/react/src/useUploadThing.ts:101-106 | a value is emitted only when it differs from the last one, and it is a multiple of ten; when nothing is emitted the new aggregate equals the last value |
| UploadProgress.Advance | packages/react/src/useUploadThing.ts:96-106 | the handler's new state holds the old files plus the event's, and its remembered value is a multiple of ten |
| UploadProgress.Replay | packages/react/src/useUploadThing.ts:94-106 | after at least one event the remembered value is a multiple of ten |
| UploadProgress.ReplayKeys | packages/react/src/useUploadThing.ts:86-96 | after a run of events the map holds exactly the seeded files and the files the events name |
| UploadProgress.Emissions | packages/react/src/useUploadThing.ts:103-106 | a run of events emits at most one value per event |
| UploadProgress.EmissionsSnoc | packages/react/src/useUploadThing.ts:94-106 | one more event advances the state by it and appends what it emits to the earlier emissions |
| UploadProgress.AppendKeepsNoAdjacentRepeats | packages/react/src/useUploadThing.ts:103-106 | emitting a value different from the last one keeps neighbours distinct |
| UploadProgress.LastEmittedIsRemembered | packages/react/src/useUploadThing.ts:103-106 | after any run of events the remembered counter is the last value the callback saw |
| UploadProgress.EmissionsNoAdjacentRepeats | packages/react/src/useUploadThing.ts:103-106 | the values emitted after the starting value never repeat back to back |
| UploadProgress.EmissionsAreMultiplesOfTen | packages/react/src/useUploadThing.ts:101-106 | every emitted value is a multiple of ten |
| UploadProgress.ReplayKeepsPercentages | packages/react/src/useUploadThing.ts:96 | events with percentages at most 100 keep every entry at most 100 |
| UploadProgress.EmissionsAtMostHundred | packages/react/src/useUploadThing.ts:96-106 | with percentages in [0, 100] every emitted value is at most 100 |
| RouteConfig.FindConfig | packages/react/src/useUploadThing.ts:42 | the config of the first entry whose slug is the endpoint; nothing exactly when no slug matches |
| RouteConfig.UseRouteConfig | packages/react/src/useUploadThing.ts:33-43 | no URL is fetched exactly when the injected snapshot exists, otherwise the API URL is; the config comes from the snapshot, else from the fetched data once it is there |
| RouteConfig.GetRouteConfig | packages/react/src/useUploadThing.ts:168-177 | it throws exactly when there is no snapshot or no entry matches, with the documented message; otherwise it returns the first match's config |
| RouteConfig.HookAgreesWithGetRouteConfig | packages/react/src/useUploadThing.ts:168-177 | with a snapshot, the hook finds a config exactly when `getRouteConfig` does not throw, and it is the same config |
| RouteConfig.PermittedFileInfo | packages/react/src/useUploadThing.ts:154-156 | defined exactly when the route config is, and then the endpoint's slug with that config |
| Logger.Colorize | packages/uploadthing/src/internal/logger.ts:14-35 | a handled level wraps the string as `ESC[4xm ESC[30m str ESC[0m`, leaving it intact in the middle; any other level returns it unchanged |
| Logger.ColorizeSharedCodes | packages/uploadthing/src/internal/logger.ts:18-29 | error and fatal colour alike, and so do info and log, and debug and trace |
| Logger.ColorizeDistinguishes | packages/uploadthing/src/internal/logger.ts:18-31 | error, warn, info, debug and success each colour differently |
| Logger.ColorizeAddsNoNewline | packages/uploadthing/src/internal/logger.ts:14-35 | colouring introduces no newline |
| Logger.Icon | packages/uploadthing/src/internal/logger.ts:37-46 | the icon table's keys are exactly the coloured levels; error and fatal share an icon, as do info and log |
| Logger.IconText | packages/uploadthing/src/internal/logger.ts:90-93 | a level without an icon prints `undefined`; an icon has no newline |
| Logger.LogPrefix | packages/uploadthing/src/internal/logger.ts:90-95 | the prefix has no newline when the tag and time have none; a level without a colour gets the plain prefix ` undefined <tag> <time> ` |
| Logger.ResolveCwd | packages/uploadthing/src/internal/logger.ts:49-52 | `process.cwd()` when available, else the literal `__UnknownCWD__` |
| Logger.CleanLines | packages/uploadthing/src/internal/logger.ts:58-63 | cleaning keeps the number of lines |
| Logger.CleanLine | packages/uploadthing/src/internal/logger.ts:58-63 | a cleaned line is no longer than the raw line and contains no character the raw line lacks, so in particular no newline |
| Logger.FormatStack | packages/uploadthing/src/internal/logger.ts:48-66 | the formatted stack always begins with two spaces |
| Logger.IndentedJoin | packages/uploadthing/src/internal/logger.ts:53-64 | two spaces before a join with `"\n  "` equals joining, with newlines, the lines each indented by two spaces |
| Logger.FormatStackLines | packages/uploadthing/src/internal/logger.ts:48-66 | the output starts with two spaces; the first stack line is dropped, so there is one output line per remaining stack line (a single `"  "` line when none remain); line `k` is the `k`-th remaining line, trimmed and cleaned, behind two spaces |
| Logger.FormatArgs | packages/uploadthing/src/internal/logger.ts:68-83 | one string per argument, in order: strings unchanged, an error-like object as message, newline and formatted stack (a missing message reads `undefined`), other values as their JSON text |
| Logger.ReporterLines | packages/uploadthing/src/internal/logger.ts:96-100 | the reporter's text begins with the prefix and a space |
| Logger.Report | packages/uploadthing/src/internal/logger.ts:88-109 | the output for a log object begins with the prefix built from its level, its tag and the time, followed by a space; without a tag of its own the prefix carries the default tag `UPLOADTHING` |
| Logger.ReportLines | packages/uploadthing/src/internal/logger.ts:96-100 | when the tag and time have no newline, the printed lines are exactly as many as the newline-separated pieces of the space-joined arguments, and line `k` is the prefix, a space and piece `k` |
| Logger.ConsolaLevel | packages/uploadthing/src/internal/logger.ts:112-122 | Effect Fatal and Error, and only those, give `error`; exactly None gives `silent`, exactly All gives `verbose`, exactly Warning gives `warn`, and exactly Info, Debug and Trace give `info`, `debug` and `trace` |
| Logger.MinimumLogLevel | packages/uploadthing/src/internal/logger.ts:124-137 | the default is `info`; the table has a value exactly for its seven keys, including every public level; mapping the value back by `effectLoggerLevelToConsolaLevel` gives the key, and the key `error` selects Effect's Error level (not Fatal) |
| Logger.MinimumLogLevelInjective | packages/uploadthing/src/internal/logger.ts:128-136 | distinct keys select distinct Effect levels |
| Text.Split | packages/uploadthing/src/internal/logger.ts:98 | `split` yields at least one piece and no piece contains the separator |
| Text.SplitWithoutSeparator | packages/uploadthing/src/internal/logger.ts:98 | a string without the separator splits into itself alone |
| Text.SplitAtFirstSeparator | packages/uploadthing/src/internal/logger.ts:98 | splitting at a first separator gives the part before it followed by the pieces of the rest |
| Text.SplitJoin | packages/uploadthing/src/internal/logger.ts:96-100 | splitting the join of separator-free pieces gives the pieces back |
| Text.Join | packages/uploadthing/src/internal/logger.ts:64 | joining no parts gives the empty string, and a join of some parts begins with the first part |
| Text.JoinSplit | packages/uploadthing/src/internal/logger.ts:96-100 | joining the pieces of a split gives the string back |
| Text.Trim | packages/uploadthing/src/internal/logger.ts:60 | a slice of the string obtained by dropping whitespace only, neither end of which is whitespace; so it is no longer than the string and adds no character |
| Text.IndexOfFrom | packages/uploadthing/src/internal/logger.ts:61-62 | the first occurrence of the pattern at or after a position, or none when there is none |
| Text.RemoveFirst | packages/uploadthing/src/internal/logger.ts:61-62 | with no occurrence of the pattern the string is unchanged; the result is no longer and no character is introduced |
| Text.RemoveFirstAt | packages/uploadthing/src/internal/logger.ts:61-62 | when the first occurrence is at `i`, exactly that occurrence is cut out |
| Text.RemoveFirstKeepsLaterOccurrences | packages/uploadthing/src/internal/logger.ts:61-62 | a later occurrence survives and is shifted left by the pattern's length, so only the first occurrence is removed |

## Left out

- The React runtime is left out. `useState`, `useRef` and `useEvent` are
  the fields and methods of `UploadSession`. Re-rendering and the `isUploading`
  value seen by components are not modelled.
- `useFetch` is network I/O. Its current data is the `fetched` argument of
  `UseRouteConfig`. Loading and error states are not modelled.
- `genUploader` / `uploadFiles` is the network transfer and polling. Only
  what it reports is modelled: the progress events, given as a sequence, and
  its outcome (results, abort, typed error, other error). The `signal`,
  `headers`, `skipPolling` and `input` options it receives are not modelled.
- The `onUploadBegin` forwarding at useUploadThing.ts:108-112 is left out.
  It only passes a file name on to the user's callback.
- `INTERNAL_DO_NOT_USE__fatalClientError` is library code that is not part
  of this model. It is the `fatalClientError` parameter of `Classify` and
  `Settle`.
- The peer-version check at useUploadThing.ts:55-59 is left out: `semverLite`
  is not part of this model, and the check only prints a warning.
- `console.error` (useUploadThing.ts:131-134) and `console.log`
  (logger.ts:103) are output only.
- Callbacks that throw are not modelled. Neither are awaited promises: an
  `onBeforeUploadBegin`, `onClientUploadComplete` or `onUploadError` that
  throws or never settles.
- Concurrency is left out. Two overlapping `startUpload` calls on one hook
  share the refs without a guard. `Begin` requires an idle session, so the
  model covers one call at a time.
- Floating point is left out. Percentages are natural numbers, so
  non-integer progress, negative values and `NaN` are not modelled.
- UploadHook.UploadSession.StartUpload: does not model a `fileProgress`
  map left non-empty by an earlier overlapping call. It starts from an idle,
  reset session (see concurrency above).
- The truthiness test `if (!config)` at useUploadThing.ts:171 is modelled as
  "no entry matches". A matching entry whose config is itself falsy would
  also throw, but configs are objects, so that case is not represented.
- `JSON.stringify(arg, null, 4)` is left out. An argument that is neither a
  string nor error-like is given by its JSON text (`Logger.Arg.OtherArg`).
- `date.toLocaleTimeString()` is a given time string. A log object's tag is
  an optional argument of `Logger.Report`; when it brings none, `Report`
  uses the logger's configured default `Logger.DefaultTag`
  (logger.ts:107-109).
- `process.cwd()` is environment access. Its result is given as an optional
  string.
- The consola and Effect logger objects are left out: `createConsola`, the
  assignment `logger.level = LogLevels[level]` at logger.ts:125,
  `Logger.withMinimumLogLevel` and `ConsolaLogger` at logger.ts:140-146. The
  model keeps only the two lookup tables they use.
- Strings are sequences of Unicode scalar values, not UTF-16 code units.
  Indices and lengths inside characters outside the Basic Multilingual Plane
  therefore differ from JavaScript's. The `⚠️` icon is two scalar values,
  U+26A0 U+FE0F.
- The example applications (`examples/profile-picture/src/auth/index.tsx`,
  `examples/minimal-expo/app.config.ts`,
  `examples/backend-adapters/playwright.config.ts`) are left out. They are
  authentication glue and static configuration, with no logic of this core.
