# Robin core in Dafny

A Dafny model of the deterministic core of Robin. Robin is a local platform for small web apps: a Go backend compiles the apps and runs their daemons, and a TypeScript toolkit talks to the backend over streaming RPC. The model covers:

- **Streaming RPC.** The browser `Stream` handle, its `inFlight` registry and inbound dispatch live in `ClientStream`. The server's per-connection `MessageLoop`, the frames of a method run and `Register` live in `ServerStream`. The topic-reconciliation reducer of `useTopicQuery` lives in `TopicReducer`.
- **Pub/sub.** `PubSub` holds the topic registry: creation, replacement, subscribe and unsubscribe, publish and close.
- **HTTP cache.** `HttpCache` is the size-bounded cache with its size invariant, expiry and LRU eviction. `CacheClient` holds the `Cache-Control` and `Age` parsers and the caching decisions of `Get` and `Head`.
- **Module resolution.** `Resolve` models extension and index search over an abstract file set, the upward `node_modules` walk and `ReadFile` memoisation. `ResolveCases` checks the relative `ResolveFrom` cases of the tests over their literal file sets. `HttpResolve` holds the CDN file system's base URL, the node built-in path recogniser and its file entries. `ResolverPlugin` holds the esbuild resolver plugin's importer check, specifier split and versioned request path.
- **Identifiers and configuration.**
  - `Identity`: escaped category paths and `Id.String`.
  - `AppConfig`: robin.app.json decoding, its path normalisation, `resolvePath`/`ReadFile` and required-field validation.
  - `ProjectPath`: the project-root search.
  - `ProjectAlias`: the project alias.
  - `ReleaseChannel`: release channels.
  - `HealthCheck`: health-check tags.
  - `BuildError`: build-error text.
  - `WebRoutes`: the routes and content types of the embedded web export.
- **Row store.** `RowStore` holds the rows of the JSON-backed store in memory.
- **App daemon.** `AppDaemon` covers the daemon's request handling, its fail-fast startup and its idle exit.
- **Example extension.** `PogoDb` holds the document cell with its `withDb` hand-off queue and the record mutations. `PogoDomain` holds the mega-evolution arithmetic.

Shared helpers are `Results` (Option and Result), `Strs` (Go `strings`), `Splits` (the split/join laws of `strings.Split` and `strings.Join`), `GoPath` (Go `path`), `Urls` (the parts of Go `net/url` the core calls) and `Json` (a parsed JSON tree). They carry no rows below because they model library code, not the repository's own.

Modelling conventions:

- Every public operation is one atomic step on an immutable value. Locks, goroutines, sockets and timers are replaced by explicit events and parameters.
- Pointers and object references become indices into an arena. This is done for client streams and pub/sub topics.
- Go panics are modelled as explicit outcomes, not as preconditions. Examples are `IndexPanic`, `LoadPanicked`, a `None` from `FileExists` and `ScopeIndexPanic`.
- A loop that can spin forever is given fuel and reports `Diverges`.
- Go strings are sequences of bytes. Where the Go code indexes, slices or counts a string, one Dafny `char` stands for one byte, so lengths such as the 512-byte read buffer count bytes. `Identity` is the one exception: there a `char` is a Unicode character, which `Identity.Utf8Char` encodes to UTF-8 before escaping.
- Clocks, random ids, the platform string, the environment, disk and network reads, and user callbacks are all parameters.
- `WebRoutes` models the route loop of `web_prod.go` as written. The check of `routes[0]` inside the loop sees the first route already trimmed. So only the first route can lose a trailing "index" (`WebRoutes.LoopTrimsOnlyFirst`).

## Model

| member | source | states |
|---|---|---|
| TopicReducer.After | toolkit/react/stream.tsx:76-78 | keeps exactly the buffered messages whose id is above the snapshot counter, each drawn from the buffer |
| TopicReducer.MaxId | toolkit/react/stream.tsx:90-93 | the new counter is at least the snapshot counter, bounds every surviving id (invalid payloads included) and is one of those ids or the snapshot counter |
| TopicReducer.Exposed | toolkit/react/stream.tsx:123-127 | the caller sees undefined exactly while no snapshot has been applied, and the synced state afterwards |
| TopicReducer.StaleSnapshotIgnored | toolkit/react/stream.tsx:72-74 | a snapshot no newer than the synced counter returns the previous state unchanged |
| TopicReducer.SnapshotOnBuffer | toolkit/react/stream.tsx:76-99 | a snapshot applied to the buffer yields the snapshot state folded over the surviving valid payloads and the max of the ids as counter |
| TopicReducer.NewerSnapshotWhileSynced | toolkit/react/stream.tsx:72-99 | a newer snapshot while synced replaces the state and strictly raises the counter |
| TopicReducer.AfterConcat | toolkit/react/stream.tsx:76-78 | the survivor filter works piece by piece, so survivors keep their arrival order |
| TopicReducer.FoldValidPush | toolkit/react/stream.tsx:79-88 | one more buffered message is folded once when its payload parses and skipped otherwise |
| TopicReducer.LiveWhileEmpty | toolkit/react/stream.tsx:102-107 | while empty, a live packet is appended to the end of the buffer and nothing else changes |
| TopicReducer.ValidLiveWhileSynced | toolkit/react/stream.tsx:108-116 | while synced, a valid live message is folded once and its id becomes the counter |
| TopicReducer.InvalidLiveWhileSynced | toolkit/react/stream.tsx:117-118 | while synced, a payload that fails validation leaves the state unchanged |
| TopicReducer.ReplayIsAppliedAgain | toolkit/react/stream.tsx:108-116 | there is no guard on old ids: a message with an id below the counter is folded again and the counter moves backwards |
| TopicReducer.SyncedStaysSynced | toolkit/react/stream.tsx:65-120 | once a snapshot has been applied, no sequence of packets returns the reducer to the empty state |
| TopicReducer.NoSnapshotNoState | toolkit/react/stream.tsx:102-125 | before any snapshot every packet is buffered in order and the caller sees undefined |
| TopicReducer.LiveAfterSync | toolkit/react/stream.tsx:76-116 | live messages after a snapshot continue the fold of the buffered survivors in arrival order |
| TopicReducer.MergeCorrect | toolkit/react/stream.tsx:65-120 | buffered messages, a snapshot, then live messages newer than it end in the snapshot state folded over every newer valid payload, in arrival order |
| TopicReducer.ScenarioThreeMessages | toolkit/react/stream.tsx:76-93 | messages 1, 2 and 3 buffered and then a snapshot at counter 1 fold messages 2 and 3 onto the snapshot and end at counter 3 |
| ClientStream.Remove | toolkit/stream.ts:115 | removing a key keeps every other key and the absence of duplicates |
| ClientStream.MapSet | toolkit/stream.ts:131 | `Map.set` keeps an existing key in its place and puts a new key last |
| ClientStream.MapDelete | toolkit/stream.ts:115 | `Map.delete` drops exactly the key and keeps the order of the rest |
| ClientStream.Values | toolkit/stream.ts:37 | the spread of `inFlight.values()` lists every entry in insertion order |
| ClientStream.NewStream | toolkit/stream.ts:98-101 | a new stream is unstarted and unclosed, its id is the method name, a dash and the random part, and its close wrapper closes itself |
| ClientStream.SetOnClose | toolkit/stream.ts:112-119 | the setter installs a wrapper bound to this stream and touches no other stream |
| ClientStream.InvokeClose | toolkit/stream.ts:113-118 | the wrapper marks its owner closed and removes the owner's id from `inFlight` before calling the user callback, which may throw |
| ClientStream.Start | toolkit/stream.ts:125-141 | a started stream throws; otherwise it is marked started, registered under its id, and the call frame is sent |
| ClientStream.Close | toolkit/stream.ts:154-173 | close before start throws, close after close does nothing, otherwise the wrapper runs with 'CalledCloseMethod' and the cancel frame is sent unless the callback threw |
| ClientStream.CloneWithSameHandlers | toolkit/stream.ts:145-152 | the clone is a fresh unstarted stream with the same method and message/error callbacks and the original's close wrapper |
| ClientStream.CallError | toolkit/stream.ts:71-73 | calling `onerror` records the call and throws exactly when the callback does |
| ClientStream.HandleInbound | toolkit/stream.ts:51-74 | an unparseable frame throws, a frame for an unknown id is dropped, otherwise it is routed by kind |
| ClientStream.FanOut | toolkit/stream.ts:37-39 | the close wrappers of the targets run in turn with 'WebsocketClosed'; the registry stays well formed |
| ClientStream.OnSocketClose | toolkit/stream.ts:18-49 | only the current socket reacts: it moves to a new generation, fans the close out and schedules the reconnect exactly when no callback threw |
| ClientStream.LateFrameIgnored | toolkit/stream.ts:53-56 | after close, a frame for the stream's id reaches no callback |
| ClientStream.ErrorFrameKeepsStream | toolkit/stream.ts:60-62 | an 'error' frame reaches `onerror` with 'MethodError' and leaves the stream registered |
| ClientStream.MethodDoneCloses | toolkit/stream.ts:64-66 | a 'methodDone' frame closes the stream with cause 'MethodDone' and unregisters it |
| ClientStream.OtherFrameToMessage | toolkit/stream.ts:68-73 | any other kind reaches `onmessage`; a throw there is reported to `onerror` with 'HandlerException' |
| ClientStream.FanOutEffects | toolkit/stream.ts:37-39 | with callbacks that do not throw, each target's wrapper runs exactly once, in order |
| ClientStream.FanOutClosesAll | toolkit/stream.ts:37-39 | with self-bound wrappers that do not throw, the fan-out removes exactly the targets' ids from `inFlight` |
| ClientStream.SocketCloseFansOut | toolkit/stream.ts:26-47 | closing the current socket gives every stream in flight one 'WebsocketClosed' callback in insertion order, empties the registry and schedules the reconnect |
| ClientStream.StaleSocketCloseIgnored | toolkit/stream.ts:26 | a close event from a socket that is no longer current changes nothing |
| ClientStream.CloneClosesOriginal | toolkit/stream.ts:145-152 | closing a started clone closes and unregisters the original, while the clone stays registered and open |
| ClientStream.CloneWithSameHandlersFixed | toolkit/stream.ts:145-152 | the corrected clone gets the original's close callback wrapped for itself, keeping every wrapper bound to its own stream |
| ClientStream.FixedCloneClosesItself | toolkit/stream.ts:145-163 | with the corrected clone, starting and closing the clone closes only the clone and leaves `inFlight` as it was |
| ProjectPath.FileExists | backend/internal/config/project_path.go:15-21 | the answer is true exactly for an entry that is not a directory, and the check panics exactly when stat fails for a reason other than non-existence |
| ProjectPath.StatFailurePanics | backend/internal/config/project_path.go:16-20 | a path that cannot be stat'ed makes fileExists dereference a nil FileInfo, where the evident answer is false |
| ProjectPath.FileExistsFixed | backend/internal/config/project_path.go:15-21 | the corrected check is true exactly for an entry that is not a directory |
| ProjectPath.FileExistsAgrees | backend/internal/config/project_path.go:15-21 | wherever fileExists answers, it agrees with the corrected check |
| ProjectPath.DirectoryDoesNotCount | backend/internal/config/project_path.go:20 | a directory named robin.json does not make its parent a project |
| ProjectPath.Ancestors | backend/internal/config/project_path.go:40-49 | the directories checked from an absolute start are the start and each Dir above it, all absolute, never "/" |
| ProjectPath.FindProjectPath | backend/internal/config/project_path.go:40-49 | a found directory holds robin.json and is not "/"; a failure is either ProjectPathNotFoundError extending the visited list or the panic of fileExists on a robin.json whose stat fails |
| ProjectPath.FindIsNearest | backend/internal/config/project_path.go:40-49 | the search stops at the nearest directory on the way up where fileExists does not answer false: it returns that directory when it holds robin.json and panics when the stat fails; with no such directory the error lists every checked directory after the already visited ones, nearest first |
| ProjectPath.FindWithoutStatFailures | backend/internal/config/project_path.go:40-49 | when no stat fails on the way up, the search succeeds exactly when some checked directory holds robin.json, and then returns one of the checked directories |
| ProjectPath.ErrorText | backend/internal/config/project_path.go:27-38 | the not-found text starts with the "Could not find a robin.json file" header and ends in a newline |
| ProjectPath.ErrorListsVisited | backend/internal/config/project_path.go:30-35 | every visited directory has its own tab-indented line, in the order visited, between the header and the final blank line |
| ProjectPath.SetProjectPath | backend/internal/config/project_path.go:51-68 | the working-directory error happens exactly for a relative path when the working directory is unknown; an accepted path holds robin.json; a refusal lists exactly the one checked path, where fileExists answered false; a robin.json whose stat fails panics |
| ProjectPath.SetProjectPathResult | backend/internal/config/project_path.go:51-68 | an accepted path and the one path of a refusal are absolute |
| ProjectPath.SetAbsoluteIgnoresCwd | backend/internal/config/project_path.go:52-59 | an absolute path is checked the same whatever the working directory |
| ProjectPath.Remember | backend/internal/config/project_path.go:61-67 | the path SetProjectPath accepts becomes the remembered project path, and a failure leaves it unchanged |
| ProjectPath.GetProjectPath | backend/internal/config/project_path.go:70-93 | a remembered path is returned unchanged; a path found when none was remembered holds robin.json and becomes the remembered path; a failure leaves the remembered path alone and is never a stat panic, which is a panic outcome instead; an unknown working directory with no remembered path and no environment variable panics |
| ProjectPath.GetPanicsOnStatFailure | backend/internal/config/project_path.go:70-93 | when the upward search first stops at a robin.json whose stat fails, GetProjectPath panics and remembers nothing |
| ProjectPath.GetProjectPathRemembers | backend/internal/config/project_path.go:70-93 | a path GetProjectPath hands out is absolute, holds robin.json and is remembered, so every later call returns it whatever the environment, working directory and file system |
| ProjectAlias.Alias | backend/internal/project/config.go:22-25 | the alias is no longer than the name and holds only ASCII letters and digits |
| ProjectAlias.AliasConcat | backend/internal/project/config.go:14-24 | the alias of a concatenation is the concatenation of the aliases, so the kept characters stay in order |
| ProjectAlias.AliasOfChar | backend/internal/project/config.go:14 | a single character is kept exactly when it is an ASCII letter or digit |
| ProjectAlias.AliasKeepsAlnum | backend/internal/project/config.go:14-24 | every alphanumeric character of the name survives: the alias is as long as the name's count of them |
| ProjectAlias.AliasOfAlnum | backend/internal/project/config.go:14-24 | an all-alphanumeric name is its own alias |
| ProjectAlias.AliasIdempotent | backend/internal/project/config.go:14-24 | taking the alias twice is the same as taking it once |
| ReleaseChannel.Unmarshal | backend/internal/config/release_channel.go:16-32 | a success yields a known channel whose quoted name is exactly the input; an error leaves the channel unchanged |
| ReleaseChannel.UnmarshalIff | backend/internal/config/release_channel.go:19-29 | decoding succeeds exactly on "stable", "beta" and "nightly" in double quotes |
| ReleaseChannel.UnmarshalQuoted | backend/internal/config/release_channel.go:20-25 | each known channel, quoted, decodes to itself |
| ReleaseChannel.UnmarshalInjective | backend/internal/config/release_channel.go:19-25 | distinct accepted inputs decode to distinct channels |
| ReleaseChannel.UnmarshalRejects | backend/internal/config/release_channel.go:27-28 | unquoted, differently cased or padded names are refused and leave the channel unchanged |
| ReleaseChannel.GetPath | backend/internal/config/release_channel.go:34-36 | the path's last element is the channel name |
| ReleaseChannel.GetPathUnderHome | backend/internal/config/release_channel.go:34-36 | under a non-empty robin home the path is the cleaned home, '/', and the channel |
| HealthCheck.GetTypeFromHealthCheck | backend/internal/process/health/check.go:25-39 | a tag is found exactly for the three check types held by value; a check held through a pointer, or any other type, is an error |
| HealthCheck.TypeTags | backend/internal/process/health/check.go:26-34 | each recognised check maps to "process", "tcp" or "http", and two checks share a tag exactly when they are of the same type |
| HealthCheck.ZeroOf | backend/internal/process/health/check.go:54-62 | exactly the tags "process", "http" and "tcp" install a check, and the installed check carries that tag |
| HealthCheck.ReadTag | backend/internal/process/health/check.go:42-50 | null and an object without "type" read as the empty tag |
| HealthCheck.UnmarshalFrom | backend/internal/process/health/check.go:41-78 | the tag is copied before the switch; an empty tag gives "health check didn't have a type", another unknown tag the unrecognised-type error, and a known tag installs its check and decodes into it |
| HealthCheck.UnmarshalTags | backend/internal/process/health/check.go:54-70 | only the three known tags decode; the empty tag and every other tag are refused with their own messages |
| HealthCheck.DecodedChecksHaveNoTag | backend/internal/process/health/check.go:26-34 | a decoded check is held through a pointer, so GetTypeFromHealthCheck never recognises it and no encode-decode round trip exists |
| HealthCheck.CheckMemberIgnored | backend/internal/process/health/check.go:72 | the whole document is decoded into the installed check, so the "check" member has no influence on the result |
| HealthCheck.TcpFieldLost | backend/internal/process/health/check.go:72 | an encoded TCP check over IPv4 decodes to a TCP check over IPv6 |
| HealthCheck.FixedRoundTrip | backend/internal/process/health/check.go:41-78 | when the "check" member is what gets decoded, every encoded check comes back with its fields, behind a pointer |
| BuildError.FilePart | backend/internal/compilerServer/build_error.go:20-25 | a file without ':' is kept; otherwise the result is what follows a ':'-free namespace and the first ':' |
| BuildError.FilePartDropsNamespace | backend/internal/compilerServer/build_error.go:20-25 | "namespace:path" with a ':'-free namespace gives exactly the path |
| BuildError.EsbuildErrorString | backend/internal/compilerServer/build_error.go:12-29 | the message starts with the plugin-prefixed text; without a location that is all, with one it continues with " in ", the file without its namespace, ":line:column" |
| BuildError.LocationNamesPath | backend/internal/compilerServer/build_error.go:19-25 | a location in file "namespace:path" with a ':'-free namespace puts exactly the path between " in " and ":line:column" |
| BuildError.HeadNamesPlugin | backend/internal/compilerServer/build_error.go:13-17 | with a plugin name the message starts with "PluginName: ", and without one it starts with the bare text |
| BuildError.ErrorText | backend/internal/compilerServer/build_error.go:31-44 | the text is "Unknown error" exactly when there are no errors |
| BuildError.ErrorListsEach | backend/internal/compilerServer/build_error.go:37-43 | after the header counting the errors, each error's message appears on its own "\n - " line, in order |
| WebRoutes.ReplaceParams | backend/internal/server/web_prod.go:51 | a route without '[' is unchanged |
| WebRoutes.PlainPrefix | backend/internal/server/web_prod.go:51 | text without '[' passes through unchanged whatever follows it |
| WebRoutes.ParamBecomesColon | backend/internal/server/web_prod.go:51 | a "[name]" segment becomes ":name" and the bracket-free text before it is kept |
| WebRoutes.RewriteAt | backend/internal/server/web_prod.go:50-57 | one turn of the loop changes only the route at its index |
| WebRoutes.LoopTrimsOnlyFirst | backend/internal/server/web_prod.go:50-57 | the loop rewrites every route, and only the first loses a trailing "index", because the check on the first route sees it already trimmed |
| WebRoutes.Routes | backend/internal/server/web_prod.go:36-58 | a non-.html asset gets exactly its path without the "web" prefix; a page gets one or two routes |
| WebRoutes.RoutesOfPage | backend/internal/server/web_prod.go:38-48 | a page gets two routes exactly when it has a "[[..." catch-all |
| WebRoutes.IndexPageRoute | backend/internal/server/web_prod.go:36-57 | "<dir>/index.html" is served under "<dir>/" |
| WebRoutes.CatchAllRoutes | backend/internal/server/web_prod.go:39-57 | "<dir>/[[...<name>]].html" is served under its directory and under "<dir>/*<name>", both rewritten, only the first trimmed |
| WebRoutes.MimeType | backend/internal/server/web_prod.go:24-27 | the content type is text/css exactly for ".css", text/javascript exactly for ".js", and text/html otherwise |
| WebRoutes.MimeTypeByName | backend/internal/server/web_prod.go:60-63 | stylesheets, scripts and pages get their content types from their file names |
| RowStore.Insert | backend/internal/model/store.go:89-93 | the row is appended at the end and every existing row is kept in place |
| RowStore.Find | backend/internal/model/store.go:112-121 | the result is absent exactly when no row matches; otherwise it is a matching row with no matching row before it |
| RowStore.InsertThenFind | backend/internal/model/store.go:89-121 | after inserting a matching row Find succeeds, and an earlier match still wins over the new row |
| RowStore.FindPrefix | backend/internal/model/store.go:113-117 | appending rows never changes a match already found among the existing ones |
| RowStore.Keep | backend/internal/model/store.go:101-106 | the kept rows are exactly the rows the matcher rejects, none of them matching |
| RowStore.KeepConcat | backend/internal/model/store.go:102-106 | filtering works piece by piece, so the kept rows stay in their original order |
| RowStore.Delete | backend/internal/model/store.go:100-110 | the store afterwards holds exactly the rows the matcher rejects, in order, at the same file path |
| RowStore.DeleteThenFind | backend/internal/model/store.go:100-121 | after Delete(m), Find(m) finds nothing |
| RowStore.DeleteAbsent | backend/internal/model/store.go:100-110 | deleting with a matcher no row satisfies leaves the store unchanged |
| RowStore.DeleteInserted | backend/internal/model/store.go:89-110 | deleting the matches of an inserted row removes it and keeps the older non-matching rows in order |
| RowStore.ShallowCopyOutData | backend/internal/model/store.go:130-135 | the copy is equal to the current rows |
| RowStore.ForEach | backend/internal/model/store.go:144-150 | every row is replaced by the callback's update of it, position by position, and no row is added or lost |
| AppDaemon.ParseCall | toolkit/internal/app-daemon.ts:37-43 | the body passes exactly when it is an object whose serverFile and methodName are strings, and the call carries those strings and the data member, if any |
| AppDaemon.Lookup | toolkit/internal/app-daemon.ts:45-53 | a method is found exactly when the file and the method are registered; a missing file and a missing method are reported apart |
| AppDaemon.Invoke | toolkit/internal/app-daemon.ts:36-55 | an invalid body fails validation before any lookup; a valid one looks the method up and runs it on the call's data |
| AppDaemon.RunAppMethod | toolkit/internal/app-daemon.ts:35-61 | the reply is 200 with {type:'success', result} exactly when the call succeeds, and otherwise 500 with {type:'error', error} |
| AppDaemon.CallReachesMethod | toolkit/internal/app-daemon.ts:45-56 | a call naming a registered method answers with exactly what that method resolves to |
| AppDaemon.MissingMethodIsError | toolkit/internal/app-daemon.ts:46-53 | a call naming an unregistered file or method answers 500 with the error naming it |
| AppDaemon.Handle | toolkit/internal/app-daemon.ts:24-35 | every request, matched or not, refreshes the time of the last request and nothing else; the health route answers {ok:true}; only the two routes are answered |
| AppDaemon.FailedCallKeepsServing | toolkit/internal/app-daemon.ts:57-60 | a failed call answers 500 and leaves the registered methods in place, so the process keeps serving |
| AppDaemon.FirstThrow | toolkit/internal/app-daemon.ts:67-69 | the first throwing handler is absent exactly when none throws, and otherwise every handler before it resolves |
| AppDaemon.RunStartup | toolkit/internal/app-daemon.ts:63-95 | the daemon listens exactly when no handler throws; otherwise it ran handlers up to the first throw and exits with code 1, the startup-crash message and that throw as cause |
| AppDaemon.FirstThrowAt | toolkit/internal/app-daemon.ts:67-69 | a throwing handler after only resolving ones is the one that stops startup |
| AppDaemon.LaterHandlersIgnored | toolkit/internal/app-daemon.ts:66-75 | handlers registered after a throwing one never change the outcome |
| AppDaemon.IdleCheck | toolkit/internal/app-daemon.ts:85-90 | a tick exits, with code 0, exactly when more than 60000 ms have passed since the last request |
| AppDaemon.RequestDefersExit | toolkit/internal/app-daemon.ts:24-28 | no tick within a minute of any request exits |
| AppDaemon.ExitTick | toolkit/internal/app-daemon.ts:85-90 | the exiting tick is the first tick, one minute apart from the timer's start, at which the idle check fires |
| AppDaemon.ExitWithinTwoMinutes | toolkit/internal/app-daemon.ts:85-90 | with no further requests the process exits more than one minute and at most two minutes after the later of the last request and the timer's start |
| PogoDb.SetMegaCount | example/my-ext/pogo/server/db.server.ts:195-200 | a known pokemon's count becomes the requested count clamped to 0..30; an unknown id leaves the document unchanged; nothing else changes |
| PogoDb.SetMegaCountIdempotent | example/my-ext/pogo/server/db.server.ts:195-200 | setting the same count twice is the same as setting it once |
| PogoDb.SetMegaEnergy | example/my-ext/pogo/server/db.server.ts:212-217 | a known dex entry's energy becomes the requested energy but never below 0; an unknown entry leaves the document unchanged; nothing else changes |
| PogoDb.DeletePokemon | example/my-ext/pogo/server/db.server.ts:222-229 | exactly that key leaves the collection and every other pokemon is untouched |
| PogoDb.SetName | example/my-ext/pogo/server/db.server.ts:231-240 | the name is set exactly when the pokemon exists, and nothing else changes |
| PogoDb.DeletedIsUntouchable | example/my-ext/pogo/server/db.server.ts:222-240 | after a delete, renaming, counting or setting the end of that pokemon changes nothing |
| PogoDb.MegaEndUpdate | example/my-ext/pogo/server/db.server.ts:169-182 | the end becomes the new end; the start moves to the new end exactly when the new end is before the old start or more than eight hours after it; no other field changes |
| PogoDb.MegaWindowBounded | example/my-ext/pogo/server/db.server.ts:169-182 | after a new end is set, the start lies between eight hours before the end and the end |
| PogoDb.SetMegaEnd | example/my-ext/pogo/server/db.server.ts:165-183 | a known pokemon gets the end update; an unknown id leaves the document unchanged |
| PogoDb.SetMegaEndIdempotent | example/my-ext/pogo/server/db.server.ts:165-183 | setting the same end twice is the same as setting it once |
| PogoDb.Enter | example/my-ext/pogo/server/db.server.ts:53-57 | while the access is held a caller queues at the tail and nothing else changes |
| PogoDb.Run | example/my-ext/pogo/server/db.server.ts:59-80 | a mutation that throws leaves document, flag and queue alone and the access held forever; one that changes the document replaces it and marks it dirty; an unchanged one leaves document and flag alone; a queued waiter is woken head first; with no waiter the access is released exactly when nothing is dirty |
| PogoDb.WaiterStranded | example/my-ext/pogo/server/db.server.ts:73-78 | a caller that queues while the first caller awaits its write is left queued with the access released, a state no later event of its own can leave |
| PogoDb.StrandedWaiterOvertaken | example/my-ext/pogo/server/db.server.ts:53-71 | with a stranded waiter, the next caller finds the access free and runs its own mutation before the waiter, or abandons the access if that mutation throws |
| PogoDb.AbandonedForever | example/my-ext/pogo/server/db.server.ts:52-59 | once a mutation has thrown, every later call only queues, and no waiter is ever woken and no write ever starts |
| PogoDb.ThrowStrandsLaterCalls | example/my-ext/pogo/server/db.server.ts:52-59 | from a free access, a throwing mutation leaves the document as it was and every later caller queued behind an access nobody releases |
| PogoDb.StepFixed | example/my-ext/pogo/server/db.server.ts:67-80 | after the corrected write the file holds the snapshot written, and a waiter that came during the write is woken head first |
| PogoDb.StepFixedValid | example/my-ext/pogo/server/db.server.ts:52-81 | with the queue checked again after the write, every event keeps the protocol invariant: a free access has no waiters and nothing unwritten, a clean document is on disk, and a write in flight holds the current document |
| PogoDb.InitValid | example/my-ext/pogo/server/db.server.ts:48-50 | the store starts free, clean and with an empty queue |
| PogoDb.IdleIsPersisted | example/my-ext/pogo/server/db.server.ts:73-78 | under the protocol invariant of the corrected hand-off, whenever the access is free, the file holds the document and nobody is waiting |
| PogoDb.NoChangeNoWrite | example/my-ext/pogo/server/db.server.ts:59-65 | a call whose mutation changes nothing never marks the document dirty and never writes |
| PogoDb.CallDuringWriteQueues | example/my-ext/pogo/server/db.server.ts:53-54 | a call while a write is in flight queues behind the waiters already there |
| PogoDomain.MegaLevelFromCount | example/my-ext/pogo/domain-utils.ts:59-73 | the level is in 0..3, is 0 exactly below the level-1 requirement, and is the highest level whose requirement the count reaches |
| PogoDomain.LevelMonotone | example/my-ext/pogo/domain-utils.ts:59-73 | a higher count never gives a lower level |
| PogoDomain.RequirementsReachTheirLevel | example/my-ext/pogo/domain-utils.ts:41-45 | each level's requirement gives exactly that level, and one less gives the level below |
| PogoDomain.WaitTimeIsDays | example/my-ext/pogo/domain-utils.ts:47-57 | the wait tables have the same levels, and each wait in milliseconds is its wait in days times 86400000 |
| PogoDomain.WaitFor | example/my-ext/pogo/domain-utils.ts:78 | the offset is the level's wait time, or 0 for a level with no entry |
| PogoDomain.NextMegaDeadline | example/my-ext/pogo/domain-utils.ts:75-81 | the deadline is never before the last mega evolution, and equals it exactly when the count is below 1 |
| PogoDomain.DeadlineShrinksWithCount | example/my-ext/pogo/domain-utils.ts:75-81 | for positive counts, a higher count never gives a later deadline |
| PogoDomain.DeadlineInDays | example/my-ext/pogo/domain-utils.ts:75-81 | for a positive count the deadline is the last mega evolution plus the level's wait in whole days |
| ServerStream.SendRaw | backend/internal/server/stream.go:42-49 | a sent frame carries the request's method and id, the given kind, and its text in `data`, never in the error field |
| ServerStream.Step | backend/internal/server/stream.go:164-243 | one message keeps the in-flight map consistent with the requests started and sends at most one frame |
| ServerStream.Run | backend/internal/server/stream.go:164-243 | the messages of a connection, handled in order, keep the in-flight map consistent |
| ServerStream.ParseFailure | backend/internal/server/stream.go:172-183 | a message that fails to parse sends one unstamped "failed to parse JSON" error frame and changes nothing else |
| ServerStream.Rejection | backend/internal/server/stream.go:200-242 | an unknown kind, an unknown method, an empty id, a reused id and a cancel for an id not in flight are each rejected with their own text; everything else is accepted |
| ServerStream.RejectedMessage | backend/internal/server/stream.go:185-242 | a rejected message sends exactly one error frame, stamped with the in-flight request when its id is known, and leaves the map and the runs untouched |
| ServerStream.AcceptedCall | backend/internal/server/stream.go:201-224 | an accepted call adds exactly one entry under its id and starts its method once |
| ServerStream.AcceptedCancel | backend/internal/server/stream.go:226-233 | an accepted cancel cancels the in-flight request and removes only its entry |
| ServerStream.OnlyCancelRemoves | backend/internal/server/stream.go:218-233 | an id in flight stays in flight with the same request across every message that does not cancel it, since finishing a run never removes it |
| ServerStream.IdNotReusable | backend/internal/server/stream.go:218-224 | after a call is accepted, a second call with the same id is rejected as long as it was not cancelled |
| ServerStream.RunFrames | backend/internal/server/stream.go:247-262 | a run sends methodStarted, then each output, then either one error frame with the error text or methodDone, all stamped with the request |
| ServerStream.ExactlyOneTerminal | backend/internal/server/stream.go:253-261 | every run ends with exactly one terminal frame, `error` or `methodDone`, never both |
| ServerStream.Register | backend/internal/server/stream.go:269-281 | a name already registered is refused with the "multiple streams registered to the same name" error and the table unchanged; otherwise only that name is added |
| ServerStream.RegisterTwiceFails | backend/internal/server/stream.go:269-273 | a name registered once cannot be registered again, whatever the second handler |
| PubSub.CreateTopicUnchecked | backend/internal/pubsub/pubsub.go:220-234 | creation fails exactly when the id string names an open topic, with the wrapped "already exists" error; otherwise the registry stays valid |
| PubSub.CreateTopic | backend/internal/pubsub/pubsub.go:208-217 | categories starting with "/topics" are refused with the bare "already exists" error before anything else |
| PubSub.CreateMetaTopics | backend/internal/pubsub/pubsub.go:265-279 | on success the meta topic is registered and remembered |
| PubSub.Initial | backend/internal/pubsub/pubsub.go:47-52 | the registry built at package start is valid |
| PubSub.Subscribe | backend/internal/pubsub/pubsub.go:281-304 | subscribing keeps the registry valid |
| PubSub.RemoveAll | backend/internal/pubsub/pubsub.go:120-136 | the reference removal keeps exactly the subscribers other than the channel |
| PubSub.RemoveSubscriber | backend/internal/pubsub/pubsub.go:120-136 | the in-place compaction with a write index computes the reference removal |
| PubSub.Unsubscribe | backend/internal/pubsub/pubsub.go:306-308 | only the subscription's topic changes, and it loses exactly that channel |
| PubSub.Publish | backend/internal/pubsub/pubsub.go:157-161 | publishing changes nothing but the delivery log |
| PubSub.Close | backend/internal/pubsub/pubsub.go:163-190 | closing keeps the registry valid; closing the open meta topic deadlocks on its own lock |
| PubSub.GetInfo | backend/internal/pubsub/pubsub.go:138-148 | the info reports the topic's id, closed flag and number of subscribers |
| PubSub.GetTopicInfo | backend/internal/pubsub/pubsub.go:317-328 | the info map has exactly the registered id strings, each with its own topic and a zero count |
| PubSub.CreateOpenFails | backend/internal/pubsub/pubsub.go:226-228 | creating an id whose topic is open fails with the wrapped "already exists" error |
| PubSub.CreateFreshTopic | backend/internal/pubsub/pubsub.go:225-233 | a free or closed id gets a fresh open topic without subscribers, and every other id keeps its topic |
| PubSub.InitialMeta | backend/internal/pubsub/pubsub.go:47-52 | after package start the meta topic is open without subscribers and no caller can replace it |
| PubSub.SubscribeMissing | backend/internal/pubsub/pubsub.go:293-295 | subscribing to an unregistered id fails with the wrapped "doesn't exist" error |
| PubSub.SubscribeClosed | backend/internal/pubsub/pubsub.go:107-113 | subscribing to a closed topic fails with the wrapped "closed topic" error |
| PubSub.SubscribeAppends | backend/internal/pubsub/pubsub.go:297-303 | a successful subscribe appends one fresh channel to that topic's list and touches nothing else |
| PubSub.RemoveAllConcat | backend/internal/pubsub/pubsub.go:124-135 | removal works piece by piece, so the remaining subscribers keep their order |
| PubSub.RemoveAbsent | backend/internal/pubsub/pubsub.go:124-135 | removing a channel that is not subscribed leaves the list unchanged |
| PubSub.SubscribeUnsubscribe | backend/internal/pubsub/pubsub.go:281-308 | subscribing and then unsubscribing restores the topic's subscriber list |
| PubSub.PublishOpen | backend/internal/pubsub/pubsub.go:92-105 | publishing to an open topic delivers to every subscriber once, in list order |
| PubSub.PublishClosed | backend/internal/pubsub/pubsub.go:96-98 | publishing to a closed topic delivers nothing |
| PubSub.CloseFirst | backend/internal/pubsub/pubsub.go:171-189 | the first close of an ordinary topic sets the flag, announces the close on the meta topic, then closes each subscriber channel in order and empties the list |
| PubSub.CloseIdempotent | backend/internal/pubsub/pubsub.go:167-169 | closing a second time changes nothing |
| PubSub.ClosedIsInert | backend/internal/pubsub/pubsub.go:96-113 | a closed topic accepts no subscriber and delivers nothing |
| HttpCache.New | backend/internal/httpcache/httpcache.go:45-53 | a new cache is empty and satisfies the size-accounting invariant |
| HttpCache.Delete | backend/internal/httpcache/httpcache.go:127-137 | deleting subtracts exactly the removed body's length; an absent key changes nothing |
| HttpCache.Put | backend/internal/httpcache/httpcache.go:219-225 | storing replaces any old entry, stamps the new one with the current time, and moves the size by the difference in body length |
| HttpCache.Fresh | backend/internal/httpcache/httpcache.go:147-152 | the entries that survive the sweep are exactly those whose deadline has not passed |
| HttpCache.LeastRecentKey | backend/internal/httpcache/httpcache.go:156-163 | the key chosen for eviction is present and used no later than any other |
| HttpCache.DropStale | backend/internal/httpcache/httpcache.go:147-152 | the stale sweep leaves exactly the fresh entries and keeps the size invariant |
| HttpCache.Compact | backend/internal/httpcache/httpcache.go:139-177 | below the maximum nothing changes; otherwise expired entries go, then least recently used ones until the size fits |
| HttpCache.Set | backend/internal/httpcache/httpcache.go:205-233 | a body of at least the maximum size is refused; otherwise every entry left afterwards is the new entry or an earlier entry unchanged, and the cache ends within its maximum size |
| HttpCache.Get | backend/internal/httpcache/httpcache.go:186-203 | an expired entry is deleted and missed; a hit refreshes only its last-use time |
| HttpCache.ImmutableNeverExpires | backend/internal/httpcache/httpcache.go:190-199 | an entry without a deadline is always a hit |
| HttpCache.DeleteIdempotent | backend/internal/httpcache/httpcache.go:127-137 | deleting twice changes nothing more than deleting once |
| HttpCache.PutReplaces | backend/internal/httpcache/httpcache.go:219-225 | replacing an entry counts its body once |
| HttpCache.EleventhInsert | backend/internal/httpcache/httpcache_test.go:187-275 | ten 1000-byte entries fill a 10000-byte cache; an eleventh evicts the least recently used one and keeps all others |
| CacheClient.ValueEnd | backend/internal/httpcache/client.go:60-66 | the max-age value ends at the first ',' or '"' after it, or at the end of the header |
| CacheClient.ParseCacheControl | backend/internal/httpcache/client.go:41-83 | an empty header is not cacheable, "immutable" anywhere caches without deadline, a positive max-age caches for that many seconds, and "max-age=" at the very end is an index panic |
| CacheClient.ParseAge | backend/internal/httpcache/client.go:86-104 | the Age header counts only when it is a positive integer, and then it is that many seconds |
| CacheClient.EntryFor | backend/internal/httpcache/client.go:186-196 | the stored entry keeps body and status, and its deadline is now plus max-age minus age, absent for immutable responses |
| CacheClient.FromCache | backend/internal/httpcache/client.go:148-157 | a cached 200 answers with its body from the cache; any other cached status is an error carrying the URL and the status |
| CacheClient.Get | backend/internal/httpcache/client.go:147-214 | a fresh cached entry answers without a request; otherwise the response is cached exactly when the header allows and answered by its status |
| CacheClient.Head | backend/internal/httpcache/client.go:109-132 | a cached URL exists without a request; otherwise a transport failure is returned as the error, 404 is absent, 200 present, and any other status is an HTTP error carrying the URL, status code and status text |
| CacheClient.MaxAgeRoundTrip | backend/internal/httpcache/client.go:50-82 | a positive max-age written alone or before a ',' parses back to the same number of seconds |
| CacheClient.MaxAgeToken | backend/internal/httpcache/client.go:55-68 | with "max-age=" leading the header, the value is the digit run that follows |
| CacheClient.MaxAgeZero | backend/internal/httpcache/client.go:77-79 | max-age=0 is not cacheable |
| CacheClient.CacheControlEmpty | backend/internal/httpcache/httpcache_test.go:40 | the empty header is not cacheable |
| CacheClient.CacheControlNoCache | backend/internal/httpcache/httpcache_test.go:41 | "no-cache" is not cacheable |
| CacheClient.CacheControlZero | backend/internal/httpcache/httpcache_test.go:42 | "max-age=0" is not cacheable |
| CacheClient.CacheControlThousand | backend/internal/httpcache/httpcache_test.go:43 | "max-age=1000" caches for 1000 seconds |
| CacheClient.CacheControlThousandRevalidate | backend/internal/httpcache/httpcache_test.go:44 | "max-age=1000, must-revalidate" caches for 1000 seconds |
| Identity.IdString | backend/internal/identity/id.go:26-34 | the id string is the category, one '#', then the key |
| Identity.ParseId | backend/internal/identity/id.go:27-28 | an id string splits exactly when it holds a '#' |
| Identity.ParseIdString | backend/internal/identity/id.go:27-33 | splitting at the first '#' recovers category and key whenever the category has no '#' |
| Identity.Utf8Char | backend/internal/identity/id.go:45 | one character encodes to one to four bytes, and ASCII characters to themselves |
| Identity.EscapeByte | backend/internal/identity/id.go:45 | a byte outside the path-safe set becomes '%' and two hex digits, every other byte stays |
| Identity.ReplaceDots | backend/internal/identity/id.go:52 | after the replacement no '.' is left, and text without '.' is unchanged |
| Identity.EscapePart | backend/internal/identity/id.go:44-53 | an escaped part is empty only for an empty id and holds only escaped characters and no '.' |
| Identity.PartIsSegment | backend/internal/identity/id.go:47-52 | an escaped part holds no '/', '.' or '#', so the path join keeps it as one segment |
| Identity.EscapePartRoundTrip | backend/internal/identity/id.go:44-53 | escaping a part is lossless: unescaping it gives back the part's UTF-8 bytes |
| Identity.EscapeAll | backend/internal/identity/id.go:43-54 | the parts are the escaped ids, in argument order, each a plain segment without '#' |
| Identity.CategoryShape | backend/internal/identity/id.go:42-57 | a category is "/" and the non-empty escaped parts joined by '/', and never holds '#' |
| Identity.CategoryIdRoundTrip | backend/internal/identity/id.go:26-57 | the id string of any category built by `Category` splits back into that category and key |
| Identity.EscapePartUnreserved | backend/internal/identity/id.go:45-52 | a string of unreserved characters is its own escaped part |
| Identity.EscapeDot | backend/internal/identity/id.go:52 | "." escapes to "%2E" |
| Identity.EscapeSlash | backend/internal/identity/id.go:45 | "/" escapes to "%2F" |
| Identity.CategoryOfParts | backend/internal/identity/id.go:42-57 | with no empty part, a category is "/" and the escaped parts joined by '/' |
| Identity.CategoryUnreserved | backend/internal/identity/id_test.go:14 | ids made only of unreserved characters appear in the category unchanged, as in "/logs/apps/hello/world" |
| Identity.EscapeDotDot | backend/internal/identity/id_test.go:15 | ".." escapes to "%2E%2E", so it cannot pop a segment |
| Resolve.ReadFile | backend/internal/compile/resolve/resolve.go:94-116 | a cached answer is returned without consulting the file system; otherwise the file system's answer is remembered under the target, and the cache gains exactly that key and stays consistent with the file system |
| Resolve.ReadFileMemoised | backend/internal/compile/resolve/resolve.go:95-97 | a memoised lookup gives the cached answer whatever file system the resolver holds |
| Resolve.CacheIsTransparent | backend/internal/compile/resolve/resolve.go:94-116 | resolving with a consistent cache gives the same answer as resolving with an empty cache |
| Resolve.Candidates | backend/internal/compile/resolve/resolve.go:43-69 | the probe order is the cleaned target, then the target with each extension in order, then each index file |
| Resolve.ResolveLocal | backend/internal/compile/resolve/resolve.go:38-72 | with no file system the error is "resolver has no FS to resolve within"; otherwise the answer is the first candidate that is a file, or failure |
| Resolve.FailsIffNoCandidate | backend/internal/compile/resolve/resolve.go:38-72 | resolveLocal fails exactly when none of its candidates is a file |
| Resolve.LocalAnswerAt | backend/internal/compile/resolve/resolve.go:45-69 | the answer is the m-th candidate exactly when it is a file and every earlier candidate is not |
| Resolve.ExactFileWins | backend/internal/compile/resolve/resolve.go:45-48 | an existing exact path wins over every extension and index file |
| Resolve.FirstExtensionWins | backend/internal/compile/resolve/resolve.go:55-60 | when the exact path is missing, extensions are tried in priority order and the first present one is returned |
| Resolve.IndexFileWins | backend/internal/compile/resolve/resolve.go:62-69 | with no exact or extended file, the first present index file in extension order is chosen |
| Resolve.JsOnlyMissesJson | backend/internal/compile/resolve/resolve.go:50-53 | a resolver restricted to ".js" does not find a target whose only match is its ".json" file |
| Resolve.SearchUp | backend/internal/compile/resolve/resolve.go:79-85 | the upward node_modules walk answers like the reference walk and can only run out of iterations when it never meets "/" |
| Resolve.AbsoluteTerminates | backend/internal/compile/resolve/resolve.go:74-88 | from an absolute directory the loop reaches "/" within as many iterations as the path has characters, so it never diverges |
| Resolve.FixedPointMissDiverges | backend/internal/compile/resolve/resolve.go:77-85 | a directory that is its own parent and is not "/" keeps the loop going forever when the module is missing there |
| Resolve.RelativeMissDiverges | backend/internal/compile/resolve/resolve.go:74-85 | a relative source whose module is missing from "./node_modules" makes the loop run forever, as the TODO at the loop warns |
| Resolve.ResolveRoot | backend/internal/compile/resolve/resolve.go:120-126 | an empty target panics on target[0]; a dotted target is resolved locally, anything else as a module from "./index.js" |
| Resolve.ResolveFrom | backend/internal/compile/resolve/resolve.go:130-154 | empty source and empty target are errors; a rooted target is resolved locally without its '/'; a bare name is a module search from the source; a '.'-target is resolved as "./" followed by the target joined onto the source's directory, and a failure there becomes "could not resolve: " and the target; it never indexes an empty string |
| Resolve.RelativeAgainstSourceDir | backend/internal/compile/resolve/resolve.go:148-153 | over a consistent file set, a '.'-target resolves exactly as the local search of the path joined onto the source's directory answers, with its failure renamed |
| ResolveCases.ResolveFromParent | backend/internal/compile/resolve/resolve_test.go:76 | from "./src/index.js" the target "../bar" resolves to "bar.js" |
| ResolveCases.ResolveFromSibling | backend/internal/compile/resolve/resolve_test.go:74 | from "./src/foo.js" the target "./foo" resolves to "src/foo.js" |
| ResolveCases.ResolveFromDirIndex | backend/internal/compile/resolve/resolve_test.go:105 | from "./src/foo.js" the target "./" resolves to the directory's index file "src/index.js" |
| HttpResolve.NewHttpFs | backend/internal/compile/resolve/http.go:21-35 | the base URL keeps the given scheme, host and user and nothing else: path, query and fragment are empty |
| HttpResolve.NewHttpFsIdempotent | backend/internal/compile/resolve/http.go:23-28 | stripping an already stripped base URL changes nothing |
| HttpResolve.NameOfJoined | backend/internal/compile/resolve/http.go:43-45 | an entry opened under a directory and a plain file name reports that file name |
| HttpResolve.IsNodeBuiltinPath | backend/internal/compile/resolve/http.go:80-101 | the check panics exactly on paths shorter than two bytes |
| HttpResolve.NodeBuiltinIff | backend/internal/compile/resolve/http.go:80-101 | the check answers true exactly for "<any char>v<digits>/node_<name without slash>" |
| HttpResolve.EmptyVersionAccepted | backend/internal/compile/resolve/http.go:86-100 | an empty digit run is accepted: "/v/node_x" counts as a built-in path |
| HttpResolve.Read | backend/internal/compile/resolve/http.go:71-74 | the entry copies from the start of its contents on every call and reports io.EOF every time, while an offset-keeping reader advances and reports EOF only at the end |
| HttpResolve.ReadAll | backend/internal/compile/resolve/http.go:71-74 | io.ReadAll over the entry returns only the first 512 bytes, and over an offset-keeping reader the rest of the contents |
| HttpResolve.ReadEntry | backend/internal/compile/resolve/http.go:71-74 | a body longer than 512 bytes reaches the resolver truncated to 512 bytes and differs from the body |
| HttpResolve.ReadEntryFromStart | backend/internal/compile/resolve/http.go:71-74 | with a reader that keeps its offset the resolver receives the whole body |
| ResolverPlugin.HasResolverIffHttps | backend/internal/compile/plugins/resolverPlugin.go:17-20 | of the configurations the loader accepts, exactly those not served from the file scheme, that is those served over https, get the resolver plugin |
| ResolverPlugin.CheckImporterIff | backend/internal/compile/plugins/resolverPlugin.go:29-42 | an importer (the page source for toolkit imports) passes exactly when it parses to an https URL on the app's own host |
| ResolverPlugin.SplitEmptyIff | backend/internal/compile/plugins/resolverPlugin.go:47-52 | the "expected module name to be non-empty" error occurs exactly for an empty or rooted specifier |
| ResolverPlugin.SplitPanicIff | backend/internal/compile/plugins/resolverPlugin.go:53-55 | a scoped specifier with no '/' panics on pathPieces[1], and no other specifier does |
| ResolverPlugin.SplitRoundTrip | backend/internal/compile/plugins/resolverPlugin.go:47-58 | the module name, '/' and the source path give back the specifier; the name is one segment, or two when scoped |
| ResolverPlugin.SplitOfUnscoped | backend/internal/compile/plugins/resolverPlugin.go:56-58 | "name" and "name/source" split into that name and source |
| ResolverPlugin.SplitOfScoped | backend/internal/compile/plugins/resolverPlugin.go:53-55 | "@scope/pkg" and "@scope/pkg/source" split into the two-segment name and the source |
| ResolverPlugin.ResolvedAccepted | backend/internal/compile/plugins/resolverPlugin.go:26-109 | a resolved import came from an accepted importer and a specifier that splits |
| ResolverPlugin.LookupResolved | backend/internal/compile/plugins/resolverPlugin.go:69-109 | a resolved module is a dependency in package.json, is fetched at "/name@version/source", and carries the module name and version |
| ResolverPlugin.MissingDependency | backend/internal/compile/plugins/resolverPlugin.go:79-87 | a module absent from package.json is refused with "cannot resolve module '<name>' (not found in package.json)" |
| ResolverPlugin.VersionedRequest | backend/internal/compile/plugins/resolverPlugin.go:89-109 | a known dependency is requested at "/name@version/source" on the app's host; the namespace is always "http", so `Resolved` carries none |
| AppConfig.StringList | backend/internal/project/app_config.go:21-22 | a JSON value reads as a []string exactly when it is null or an array of strings and nulls, element by element |
| AppConfig.StringListEncode | backend/internal/project/app_config.go:21-25 | a written string list reads back as the same list |
| AppConfig.DaemonArray | backend/internal/project/app_config.go:19-25 | a daemon entrypoint given as a string array is taken as it is, whatever the platform |
| AppConfig.DaemonMapEntry | backend/internal/project/app_config.go:27-38 | a map of string lists gives the list under the current platform's key |
| AppConfig.DaemonMapMissing | backend/internal/project/app_config.go:32-35 | a map without a non-null entry for the platform is refused with the message naming that platform |
| AppConfig.DaemonShapes | backend/internal/project/app_config.go:19-41 | the decoder succeeds only on a string list or a map of string lists; a scalar gets the "expected either a string array or a map" error |
| AppConfig.Unmarshal | backend/internal/project/app_config.go:83-97 | decoding never touches the config path, and JSON null leaves a config with all six fields empty |
| AppConfig.UnmarshalMarshal | backend/internal/project/app_config.go:72-97 | a marshalled config reads back to the same six fields, and the receiving config keeps its own config path |
| AppConfig.MarshalUnmarshal | backend/internal/project/app_config.go:72-97 | re-marshalling a read-back config gives the same JSON, so the fields written are exactly the fields read |
| AppConfig.ResolveFileWithScheme | backend/internal/project/app_config.go:100-103 | a path that parses with a scheme is returned as it parses |
| AppConfig.ResolveFileRooted | backend/internal/project/app_config.go:105-107 | an absolute path is read from the config's scheme and host at exactly that path |
| AppConfig.ResolveFileRelative | backend/internal/project/app_config.go:109-110 | a relative path is read next to the config file: it replaces the config's file name |
| AppConfig.ReadFileSource | backend/internal/project/app_config.go:113-131 | a file-scheme read never uses the HTTP client and any other read never uses the disk |
| AppConfig.ReadFileResult | backend/internal/project/app_config.go:113-131 | a read fails exactly when the underlying read fails, the error names the requested path, and a success returns the body unchanged |
| AppConfig.Anchored | backend/internal/project/app_config.go:145-151 | an empty scheme becomes "file", an absolute file path is kept, and nothing but scheme and path changes |
| AppConfig.Finish | backend/internal/project/app_config.go:153-160 | only the file and https schemes are accepted, and only the path may change |
| AppConfig.FinishBase | backend/internal/project/app_config.go:157-160 | an accepted location's last path element is robin.app.json |
| AppConfig.FinishKeeps | backend/internal/project/app_config.go:158 | a path already ending in robin.app.json is left as it is |
| AppConfig.NormalizedShape | backend/internal/project/app_config.go:139-160 | a normalised location is a file or https URL whose last path element is robin.app.json |
| AppConfig.NormalizedSchemes | backend/internal/project/app_config.go:146-155 | normalisation succeeds exactly for the file scheme, the https scheme and no scheme |
| AppConfig.NormalizedFileIsAbsolute | backend/internal/project/app_config.go:149-151 | from an absolute project path, a normalised file location always has an absolute path |
| AppConfig.ValidateIff | backend/internal/project/app_config.go:195-211 | a config passes exactly when id, page, pageIcon and name are all non-empty |
| AppConfig.ValidateFirst | backend/internal/project/app_config.go:195-211 | the error names the first empty field in the order id, page, pageIcon, name |
| AppConfig.ReadConfigJson | backend/internal/project/app_config.go:162-193 | every read or parse failure is reported behind "failed to read robin.app.json: " or "failed to parse robin.app.json: " |
| AppConfig.NullConfigPanics | backend/internal/project/app_config.go:190-195 | a robin.app.json holding null sets the receiver pointer to nil, so the id check panics |
| AppConfig.NullConfigFixed | backend/internal/project/app_config.go:195-197 | with the corrected decoding, a null config reports "'id' is required" |
| AppConfig.LoadConfigFixedSound | backend/internal/project/app_config.go:133-214 | the corrected loader never panics, and a loaded config passes validation and sits at the normalised location |
| AppConfig.LoadConfigAgrees | backend/internal/project/app_config.go:133-214 | apart from the null case the corrected loader answers exactly as the code does |

## Left out

- Sockets, HTTP servers and timers are left out: the websocket `getWs` promise handling and its 2-second reconnect timer, the gorilla upgrader and writer goroutine, express, body-parser and morgan. Each handler decision is modelled as one atomic step, and a frame sent after `await getWs()` is appended to the effect log at once.
- Locks, RWMutexes and the pub/sub `pollMetaInfo` timer loop are left out, because every public operation is modelled as atomic.
- Disk and network I/O are parameters or left out: the store's `flush` and `open`, the HTTP cache's `open`/`Save`, and the reads and fetches of `readRobinAppConfig`. `HttpResolverFs.Open` is left out because it is a network fetch through the caching client.
- The esbuild glue of the resolver plugin and its debug logging are left out. Whether an import came from the virtual toolkit is a flag.
- `GetSettings`, `UpdateSettings`, `GetAllProjectApps`, `LoadRobinAppByPath` and `LoadRobinAppById` in `app_config.go` are left out. They read and write the project config file and only loop over `readRobinAppConfig`.
- `GetProjectName` and the package-level `GetProjectAlias` in `config.go` are left out, because they only load the project config from the environment. `GetProjectPathOrExit` is left out because it prints and calls `os.Exit`.
- `ForEachWriting` is left out, because it is `ForEach` under the write lock. The store-level `Find` and `ShallowCopyOutData` are the handle operations under a read lock, and the same members model them.
- Left out from the example extension:
  - `evolvePokemonRpc`, because it calls helpers that are not part of this model. Its recipe reads `pokemon.pokemonId` before checking that the pokemon exists (db.server.ts lines 111-112), so an unknown id throws inside `withDb`: that is the throwing mutation of `PogoDb.ThrowStrandsLaterCalls`;
  - `addPokemonRpc`, because its id comes from `Math.random` and its dates from the clock (`PogoDb.AddPokemon` is only a sample mutation);
  - `fetchDbRpc`, `getDB` and `searchPokemonRpc`;
  - the float cost fields of a species.
- The initial load of the document is modelled as successful. A failed parse falls back to the empty document, and the model then starts from that document.
- Times are modelled as integer milliseconds. An ISO date that does not parse (a NaN time) and write errors of the document file are not modelled. Immer's "same object" check is modelled as value equality.
- Floating point is not modelled: the mega level of a non-integer count is not covered.
- The zod error text is abstracted as "ZodError". A thrown error's `stack` is modelled by its first line only. The 404 body of an unmatched route, body-parser's 400 on malformed JSON and a failing `listen` are not modelled. Inherited prototype keys of `serverRpcMethods` are not modelled either.
- AppDaemon.Handle: routes match exactly. Express also ignores case and a trailing slash, and it answers HEAD for GET routes; none of that is modelled. The log line says 5 minutes while the constants are 1 minute, and the model follows the constants.
- AppDaemon.RunStartup: the `isDaemonProcess` guard and the `require` of the daemon target are left out. The registered methods and the startup handlers are parameters.
- Urls: percent-escapes are kept as written and never validated. Host and port are not validated, `OmitHost` is not modelled, and `JoinPath` takes a single element, which is all the core passes it.
- AppConfig.Unmarshal: object keys match exactly, while encoding/json also accepts a case-insensitive match. Type-error texts are simplified to name only the field, and when several fields are mistyped the first error is taken in the order daemon, id, name, pageIcon, page, files. A nil slice and an empty slice are not distinguished. The platform "GOOS/GOARCH" is a parameter.
- AppConfig.NormalizeConfigPath: the parse error quotes the path the way Go's `%q` does, but escaping inside the quotes is not modelled.
- HealthCheck.UnmarshalFrom: keys match exactly. A decode that fails part-way keeps the zero check without the fields read before the failure. The error text of the first decode is simplified. When both fields of an HTTP check are mistyped, the model reports the "method" error, while encoding/json reports the one that comes first in the document. The probes themselves (process, TCP, HTTP) are left out.
- ReleaseChannel.GetPath: stated for the three known channels only, the only values the code creates. For another string the last path element need not be the string itself.
- ReleaseChannel.UnmarshalRejects: checks that the inputs are refused, not the exact message text.
- ProjectPath.FindProjectPath: stated for an absolute start directory, which is what `os.Getwd` returns. From a relative directory the Go recursion never reaches "/" and does not end.
- ProjectPath.GetProjectPath: the environment variable and the working directory are parameters.
- Resolve.ResolveLocal: directories and paths that `fs.FS` rejects are simply not keys of the file map. `filepath.Clean(filepath.Join(...))` at line 65 is modelled as `Join`, which already returns a clean path. The `Resolve` cases of `resolve_test.go` are covered by the general lemmas `ExactFileWins`, `FirstExtensionWins` and `IndexFileWins`, not by literal file sets. Only the three relative `ResolveFrom` cases in `ResolveCases` use the literal sets.
- Resolve.SearchUp: the upward walk is given fuel, and running out of fuel is the `Diverges` outcome. `AbsoluteTerminates` shows that fuel equal to the path length suffices from an absolute directory.
- HttpResolve.IsNodeBuiltinPath: the first character is dropped without being checked, and the digit run may be empty. Both are modelled as written.
- CacheClient.ParseCacheControl: the conversion of max-age seconds to a `time.Duration` is not checked for overflow. "max-age=" at the very end of the header is the `IndexPanic` outcome.
- CacheClient.ParseAge: the result is the Age in whole seconds, unbounded. The Go code multiplies it by `time.Second` in int64 nanoseconds, which wraps for an Age above 9223372036 seconds. That wrap is not modelled, so for such an Age `EntryFor` computes a deadline the program does not compute.
- HttpCache.Compact: one `now` is used for the whole compaction.
- TopicReducer: nothing resets on socket close, and a live message with an old id is applied again while synced. Both are modelled as written. Message ids and counters are integers; a JS number id that is NaN or not an integer is not modelled, and neither are the comparisons such an id would make false.
- ClientStream.FanOut: a user close callback that throws abandons the rest of the fan-out, as the `forEach` in the source does. A callback may only return or throw; it is assumed not to start or close other streams.
- ClientStream.SocketCloseFansOut: one callback per stream in flight holds only under the same assumption, that no close callback starts or closes another stream during the fan-out.
- BuildError.ErrorText: an esbuild `BuildResult` is reduced to its error messages.
- WebRoutes.Routes: the walk over the embedded file system, the router registration, the file handler and the panic on a `WalkDir` error are left out.
- PubSub: `Close` of the meta topic is modelled as the `Deadlock` outcome, because it publishes to itself while holding its own lock.

## Findings

| source | as written | input that shows it | evidently intended | confidence | as-written member | corrected member |
|---|---|---|---|---|---|---|
| backend/internal/process/health/check.go:72 | the whole document `data` is decoded into the installed check, so the check's own fields under "check" are never read | `{"type":"tcp","check":{"ipv4":true}}` decodes to a TCP check with IPv4 false | decode the "check" member `obj.Check` into the installed check | high; not executed | HealthCheck.TcpFieldLost | HealthCheck.FixedRoundTrip |
| example/my-ext/pogo/server/db.server.ts:73-78 | after awaiting the file write, `dbAccessActive` is cleared without looking at `mutexQueue` again | call 1 changes the document and awaits `writeFile`; call 2 arrives, finds the access active and queues; the write completes and the access is released with call 2 still queued, and only an unrelated later call ever wakes it | check the queue again after the write and hand the access to its head | high; not executed | PogoDb.WaiterStranded | PogoDb.StepFixedValid |
| backend/internal/compile/resolve/http.go:71-74 | `Read` copies from the start of the contents on every call and always returns `io.EOF` | a 600-byte module body read through `Resolver.ReadFile` yields only its first 512 bytes, the initial buffer of `io.ReadAll` | `Read` keeps an offset and hands back the rest of the contents | high; not executed | HttpResolve.ReadEntry | HttpResolve.ReadEntryFromStart |
| backend/internal/project/app_config.go:190-195 | `json.Unmarshal(buf, &appConfig)` receives a `**RobinAppConfig`, and JSON null sets the receiver pointer to nil | a robin.app.json holding `null` makes `appConfig.Id` dereference nil | decode into `appConfig` itself, so that null leaves the fields empty and "'id' is required" is reported | medium; not executed | AppConfig.NullConfigPanics | AppConfig.NullConfigFixed |
| backend/internal/config/project_path.go:16-20 | a stat error other than not-exist leaves `info` nil, and `info.IsDir()` panics | a robin.json whose stat fails with permission denied | answer false, as for a missing file | high; not executed | ProjectPath.StatFailurePanics | ProjectPath.FileExistsAgrees |
| toolkit/stream.ts:145-152 | the clone takes the original's close wrapper, which is bound to the original | start the original and the clone, then close the clone: the original is marked closed and leaves `inFlight`, while the clone stays in flight | the clone gets its own wrapper around the same user callback | medium; not executed | ClientStream.CloneClosesOriginal | ClientStream.FixedCloneClosesItself |
