# Office Add-in debugger: launch gates, proxy management and source-map overrides

This project models in Dafny the core of the Office Add-in debug adapter for
VS Code, and proves properties of that model. The adapter debugs an add-in
running in the Edge WebView through a separate "Edge Diagnostics Adapter" proxy
process.

- `src/utilities.ts` decides whether the host runs Windows 10 build 18362 or
  later, and where the bundled proxy executable lives: only on 64-bit Windows,
  recognised by a `ProgramFiles(x86)` entry. The 64-bit test only picks that
  default path, so a configured `runtimeExecutable` that exists passes on 32-bit
  Windows too. It also rewrites the source-map path overrides by substituting
  the workspace root (`webRoot`) for a leading `${workspaceFolder}`.
- `src/edgeDebugAdapter.ts` launches or attaches. It checks three gates in a
  fixed order, defaults the port to 9222 and builds the proxy's argument vector.
  It then probes `http://127.0.0.1:<port>/json/version` and either reuses a
  running Edge proxy, refuses a foreign server, or spawns a proxy. On disconnect
  it closes the debugged target and kills the proxy it spawned.

Files:

- `wrappers.dfy`, module `Wrappers`: the `Option` type. It stands for
  `undefined`, `null` and `NaN`.
- `js_strings.dfy`, module `JsStrings`: the JavaScript string and number
  operations the core relies on, with the semantics it depends on:
  - `indexOf`;
  - `String.prototype.replace` with a string pattern, including its `$$`,
    `$&`, `` $` `` and `$'` replacement patterns;
  - `split` on one character;
  - `parseInt` with radix 10, where leading whitespace, a sign and trailing
    garbage are handled and `NaN` is `None`;
  - `String(n)` of an integer;
  - ASCII lower-casing.
- `utilities.dfy`, module `Utilities`: `getAdapterPath`, `getOsVersionArray`,
  `isSupportedWindowsVersion`, `replaceWebRootInSourceMapPathOverridesEntry`,
  `resolveWebRootPattern`, `getSourceMapPathOverrides` and the default override
  table.
- `edge_debug_adapter.dfy`, module `EdgeDebugAdapter`: `_launchAdapter`
  (including `startEdgeAdapater`), `launch`/`attach`, `disconnect` and
  `clearEverything`.

Inputs and outputs:

- The environment is a `Host` value: the platform, `os.release()`,
  `process.version`, the `ProgramFiles(x86)` environment entry, the two proxy
  install paths, and the set of files `fs.existsSync` reports.
- `path.resolve` is an uninterpreted function parameter `canon`.
- What comes back from the outside world is a parameter: the probe's reply, the
  spawned process's handle, and whether the close request succeeded.
- What the adapter does to the outside world is a list of `Effect`s, in order:
  HTTP requests, spawn, kill, and calls into the inherited Chrome adapter.
- The adapter's two fields `_adapterPort` and `_adapterProc` are an
  `AdapterState` value.

The model follows the code where other descriptions of the project differ:

- The default override table has four entries (`src/utilities.ts:17-22`), not
  five. The test in `test/test.ts` expects five.
- With `webRoot` equal to `${workspaceFolder}` itself, an entry is stored
  verbatim and never passed to `path.resolve`. The replacement reproduces the
  entry, so the "changed" test at `src/utilities.ts:87` fails. The test in
  `test/test.ts` expects a resolved path.
- When the close request in `disconnect` fails, `clearEverything` and the
  inherited `disconnect` never run, so a spawned proxy stays alive.
- A Node version whose major part does not parse (`NaN`) passes the Node gate,
  because `NaN < 10` is false.
- The "Unable to start Edge Debug Adapter" branch (`src/edgeDebugAdapter.ts:112`)
  cannot be reached: `spawn` either throws or returns a process object, and the
  process's `stderr` is used at `src/edgeDebugAdapter.ts:103`, before the check.
  The model has no such outcome.
- A launch whose probe throws while a proxy handle from an earlier launch is
  still held spawns a second proxy and overwrites `_adapterProc`
  (`src/edgeDebugAdapter.ts:96`) without killing the first. No later
  `clearEverything` can kill the first proxy.
- When the probe succeeds, `_adapterPort`, `args.port` and
  `args.sourceMapPathOverrides` are already rewritten before the probe's reply
  is looked at. This holds even if the launch is then refused because a foreign
  server holds the port.

## Model

| member | source | states |
|---|---|---|
| JsStrings.IndexOf | src/utilities.ts:98 | `indexOf` is -1 exactly when the pattern occurs nowhere; otherwise the pattern occurs at the result and at no earlier position |
| JsStrings.IndexOfZeroIffStartsWith | src/utilities.ts:98-99 | the placeholder is found at index 0 exactly when the entry starts with it |
| JsStrings.ReplaceFirst | src/utilities.ts:101 | `replace` with a string pattern leaves a string without the pattern unchanged; when the replacement has no `$`, it is the text before the first occurrence, then the replacement, then the text after that occurrence |
| JsStrings.ExpandLiteralDollar | src/utilities.ts:101 | a `$` not followed by `$`, `&`, `` ` `` or `'` is copied literally, and the rest of the replacement expands as it would on its own |
| JsStrings.ExpandLeadingLiteralDollar | src/utilities.ts:101 | a replacement whose only `$` is its first character, not followed by `$`, `&`, `` ` `` or `'`, expands to itself |
| JsStrings.ToLower | src/edgeDebugAdapter.ts:78 | lower-casing keeps the length and maps each character on its own, `A`-`Z` to `a`-`z` |
| JsStrings.Split | src/utilities.ts:113 | `split('.')` yields at least one piece; no piece contains a dot; joining the pieces with dots gives the input back |
| JsStrings.SplitJoin | src/utilities.ts:113 | splitting dot-free pieces joined with dots gives back exactly those pieces |
| JsStrings.ParseIntOfIntToString | src/utilities.ts:113 | `parseInt` reads back the decimal rendering of any integer, negative ones included, when what follows is not a digit |
| Utilities.OsVersionArray | src/utilities.ts:112-114 | the version array has one entry per dot-separated piece of the release, each the `parseInt` of that piece |
| Utilities.IsSupportedWindowsVersion | src/utilities.ts:54-76 | a supported host runs Windows with a first component of at least 10; Windows with a first component above 10, or with components at least 10, 0 and 18362, is supported |
| Utilities.AdapterPath | src/utilities.ts:31-52 | a path exists exactly on Windows with a `ProgramFiles(x86)` entry; the test flag picks the working-directory copy, otherwise the bundled one |
| Utilities.OsVersionArrayOfRelease | src/utilities.ts:112-114 | a release `a.b.c` followed by a dot-free, non-digit suffix reads as the three numbers `a`, `b`, `c` |
| Utilities.SupportedIffLexAtLeast | src/utilities.ts:54-76 | on Windows with three numeric components, the nested comparisons accept exactly the versions lexicographically at or above 10.0.18362 |
| Utilities.SupportedRelease | src/utilities.ts:54-76 | a release `a.b.c` is supported exactly on Windows with `(a, b, c)` at or above `(10, 0, 18362)` |
| Utilities.SupportedExamples | src/utilities.ts:59-73 | 10.0.18362, 10.1.0 and 11.0.0 are accepted; 10.0.18361 and 9.9.9 are refused |
| Utilities.ReplaceWebRootInEntry | src/utilities.ts:97-110 | an entry without a leading placeholder, or a missing or empty `webRoot`, leaves the entry as it is; otherwise a `$`-free `webRoot` takes the placeholder's place |
| Utilities.ReplaceLeadingPlaceholder | src/utilities.ts:99-101 | with a leading placeholder and a non-empty `webRoot`, the result is the expansion of `webRoot` (its `$` patterns live) followed by the rest of the entry |
| Utilities.ReplaceWithPlaceholderIsIdentity | src/utilities.ts:97-110 | a `webRoot` that is the placeholder itself leaves every entry unchanged |
| Utilities.ReplaceWithMatchPatternIsIdentity | src/utilities.ts:101 | a `webRoot` of `$&` re-inserts the matched placeholder, so every entry is unchanged |
| Utilities.ResolveWebRootPattern | src/utilities.ts:83-95 | resolution keeps the number, order and keys of the entries; a value the substitution changed is stored canonicalised by `path.resolve`, an unchanged one verbatim |
| Utilities.ResolveWithoutPlaceholderIsIdentity | src/utilities.ts:83-95 | a table with no value starting with the placeholder is returned unchanged |
| Utilities.ResolveWithoutWebRootIsIdentity | src/utilities.ts:83-95 | a missing or empty `webRoot` returns the table unchanged |
| Utilities.ResolveWithPlaceholderWebRootIsIdentity | src/utilities.ts:86-91 | with the placeholder as `webRoot`, no value is canonicalised and the table comes back unchanged |
| Utilities.ResolveIdempotent | src/utilities.ts:83-95 | resolving a resolved table again changes nothing, provided no resolved value still starts with the placeholder |
| Utilities.ResolveKeepsKeys | src/utilities.ts:84-92 | the resolved table has the same keys in the same order, so distinct keys stay distinct |
| Utilities.ResolveValueSubstitutes | src/utilities.ts:86-89 | a value starting with the placeholder becomes `path.resolve(webRoot + rest)` for a usable, `$`-free `webRoot` |
| Utilities.SourceMapPathOverrides | src/utilities.ts:78-81 | the supplied table, or the four-entry default table when none is supplied, is resolved entry by entry: the same keys in the same order, each value replaced by its resolution against `webRoot` |
| Utilities.DefaultOverridesResolved | src/utilities.ts:17-22 | the default table against a usable `webRoot` is exactly the four default keys, in order, mapped to `path.resolve(webRoot + "/node_modules/*")` and three times `path.resolve(webRoot + "/*")` |
| EdgeDebugAdapter.Message | src/edgeDebugAdapter.ts:29-49 | both Windows errors open with the Windows 10 requirement; the release, the Node major version and the port end their messages; the refusal names the browser right after "Server for " |
| EdgeDebugAdapter.ExecutablePath | src/edgeDebugAdapter.ts:19-22 | a configured executable is used as it is; otherwise the default path, which exists only on 64-bit Windows |
| EdgeDebugAdapter.ExecutableExists | src/edgeDebugAdapter.ts:19-27 | a configured executable passes when that file exists; otherwise only on 64-bit Windows with the bundled proxy present |
| EdgeDebugAdapter.NodeMajor | src/edgeDebugAdapter.ts:47 | a major version is read only from a version string of at least two characters |
| EdgeDebugAdapter.GateError | src/edgeDebugAdapter.ts:19-52 | the gates are checked in order and the first failure is reported. A missing executable gives "not found" on a supported Windows and "only supported on Windows 10" otherwise; then an unsupported Windows, with the release; then Node below 10, with the major version. No error means all three gates pass |
| EdgeDebugAdapter.NonWindowsRejectsBeforeProbing | src/edgeDebugAdapter.ts:27-44 | off Windows a launch is always refused, with no effect and no state change, and never with the "not found" text |
| EdgeDebugAdapter.NodeGate | src/edgeDebugAdapter.ts:47-52 | the Node major version is the number after the `v`; it fails the gate exactly when below 10; an unparsable version passes |
| EdgeDebugAdapter.EffectivePort | src/edgeDebugAdapter.ts:55-57 | a missing or zero port becomes 9222; any other port is kept |
| EdgeDebugAdapter.AdapterArgs | src/edgeDebugAdapter.ts:54-69 | the proxy gets `--port=<port>` first, and `--launch=<url>` second exactly when a URL is set |
| EdgeDebugAdapter.AdapterArgsReadBack | src/edgeDebugAdapter.ts:59-69 | the port and the URL can be read back from the proxy's arguments |
| EdgeDebugAdapter.VersionUrl | src/edgeDebugAdapter.ts:75 | the probe URL ends with `/json/version` |
| EdgeDebugAdapter.VersionUrlNamesPort | src/edgeDebugAdapter.ts:75 | the probe URL is on the loopback origin and names the effective port |
| EdgeDebugAdapter.IsEdgeIffNamed | src/edgeDebugAdapter.ts:77-79 | a browser counts as Edge exactly when its name contains "edge" in some capitalisation |
| EdgeDebugAdapter.ProbeAndSpawn | src/edgeDebugAdapter.ts:54-101 | after the gates, the port and the overrides are rewritten, every other argument passes through, the proxy arguments are built and the probe is sent first. A probe that throws spawns a proxy and stores its handle. An Edge reply resolves and keeps the proxy handle. Any other reply refuses with the lower-cased browser and the port |
| EdgeDebugAdapter.ProbeEffects | src/edgeDebugAdapter.ts:72-88 | after the gates the effects are the probe alone when a server answers, and the probe then one spawn when it throws |
| EdgeDebugAdapter.LaunchAdapter | src/edgeDebugAdapter.ts:18-89 | a failing gate refuses with the gate's error, with no effect and nothing changed; otherwise the launch proceeds to the probe |
| EdgeDebugAdapter.SpawnsExactlyWhenProbeThrows | src/edgeDebugAdapter.ts:72-101 | a launch spawns exactly one proxy when every gate passes and the probe throws, and none otherwise |
| EdgeDebugAdapter.RelaunchProbesSamePort | src/edgeDebugAdapter.ts:55-60 | launching again with the rewritten arguments probes the same port and stores the same port |
| EdgeDebugAdapter.ProbeFollowsProtocol | src/edgeDebugAdapter.ts:72-88 | after the gates the effects run probe, optional spawn, attach; a refusal stops after the probe |
| EdgeDebugAdapter.StartSession | src/edgeDebugAdapter.ts:128-142 | `launch` and `attach` leave the state, arguments, proxy argument vector and outcome of `_launchAdapter`. Their effects are exactly `_launchAdapter`'s, followed by one inherited attach when it resolved. The attach carries the rewritten port and the resolved overrides. When `_launchAdapter` rejected, nothing follows |
| EdgeDebugAdapter.SessionFollowsProtocol | src/edgeDebugAdapter.ts:128-142 | `launch` and `attach` end attached exactly when `_launchAdapter` resolved, do nothing when a gate failed, and stop after the probe when a foreign server holds the port |
| EdgeDebugAdapter.ClearEverything | src/edgeDebugAdapter.ts:156-162 | the proxy handle is forgotten; the proxy is killed first when there is one; the target context is always cleared |
| EdgeDebugAdapter.ClearEverythingIdempotent | src/edgeDebugAdapter.ts:156-162 | a second clear kills nothing and only clears the target context |
| EdgeDebugAdapter.Disconnect | src/edgeDebugAdapter.ts:144-162 | without an attached target nothing happens. Otherwise the close request for that target comes first. If it fails, nothing else happens. If it succeeds, the effects are exactly the close, the kill of the held proxy (only if there is one), the target-context clear and the inherited disconnect, and the handle is forgotten |
| EdgeDebugAdapter.CloseUrl | src/edgeDebugAdapter.ts:146 | before any launch the port part of the close URL reads `undefined` |
| EdgeDebugAdapter.DisconnectBeforeLaunch | src/edgeDebugAdapter.ts:144-162 | a disconnect before any launch sends the close request with the port rendered as `undefined`, kills nothing, clears the target context and disconnects |
| EdgeDebugAdapter.CloseUrlEndsWithTarget | src/edgeDebugAdapter.ts:146 | the close URL is on the loopback origin and ends with the target id |
| EdgeDebugAdapter.CloseUrlNamesPort | src/edgeDebugAdapter.ts:146 | the close URL names the stored port |
| EdgeDebugAdapter.DisconnectKillsProxy | src/edgeDebugAdapter.ts:148-151 | a successful disconnect holding a proxy closes the target, kills the proxy, clears the context and disconnects, in that order |
| EdgeDebugAdapter.SpawnedSessionState | src/edgeDebugAdapter.ts:55-101 | a session whose probe threw holds the spawned proxy on the effective port |
| EdgeDebugAdapter.RelaunchLeaksHeldProxy | src/edgeDebugAdapter.ts:85-101 | a probe that throws while another proxy is held replaces the handle with the new proxy, and neither that launch nor a later disconnect kills the old one |
| EdgeDebugAdapter.SpawnedProxyKilledOnDisconnect | src/edgeDebugAdapter.ts:144-162 | a proxy spawned by a launch is killed by a successful disconnect, right after the close request on the launch's port |

## Left out

- Logging (`logger.log`, `logger.error`), the usage-data telemetry calls, and the
  `warnOnMissing` flag, which only selects a log message. None of them affects a
  result.
- The `usageDataObject` constant and the proxy paths built by `path.resolve`
  against `__dirname` and `process.cwd()`. The paths are the opaque
  `bundledAdapterPath` and `workspaceAdapterPath` fields of `Host`.
- Process plumbing of `startEdgeAdapater`: the shell command line, the spawn
  options, the stdout/stderr listeners, and `terminateSession` on a stderr
  error. The spawn is one effect with a handle supplied from outside. The
  unreachable "Unable to start" branch is left out, as explained above.
- EdgeDebugAdapter.ProbeAndSpawn: a spawn that fails is not modelled; every
  throwing probe ends `Spawned` with a handle. In the source, `spawn` can throw,
  or it can return a process without a `stderr` stream, so that the listener at
  `src/edgeDebugAdapter.ts:103` throws. The `await` at
  `src/edgeDebugAdapter.ts:87` is outside any `try`, so `_launchAdapter` then
  rejects after `_adapterPort` and `args` were already rewritten, and `launch`
  or `attach` never reaches the inherited attach.
- The constructor and `EdgeDebugSession` (`src/edgeDebugSession.ts`). They only
  wire the adapter into the session.
- The inherited `ChromeDebugAdapter` behaviour. `super.attach`,
  `super.disconnect` and `clearTargetContext` are recorded as effects, and the
  result or failure of `super.attach` is not modelled.
- JSON parsing of the probe's body and the HTTP exchange itself. The probe's
  outcome is the `ProbeReply` parameter, and every way the probe block can
  throw (no server, invalid JSON, no string `Browser`) leads to the same spawn.
- Concurrency between overlapping launches, disconnects and process exit
  events: each operation is one atomic step on the state.
- Launch arguments of other JSON types than the ones used: a port given as a
  string, or `NaN`. The port is an optional integer, and a URL or `webRoot` is
  an optional string.
- JsStrings.ParseInt: reads integers only. Fractions, exponents and the
  floating-point precision loss of large numbers are not modelled, since
  version components and ports are small integers.
- EdgeDebugAdapter.NodeMajor: reads the version with radix 10. The source calls
  `parseInt` without a radix, which would read a `0x` prefix as hexadecimal; a
  Node version string never has one.
- JsStrings: a string is a sequence of Unicode scalar values, while a
  JavaScript string is a sequence of UTF-16 code units. Offsets differ on
  characters outside the Basic Multilingual Plane, both for `indexOf` and for
  the `slice(1)` of `process.version`, and a lone surrogate cannot be
  represented. No decision of the core depends on such characters.
- JsStrings.ToLower: lower-cases ASCII letters only. `toLocaleLowerCase` also
  maps other letters, by the host's locale.
- JsStrings.IntToString: renders integers only, not numbers in exponent
  notation (1e21 and above).
- Utilities.ResolveWebRootPattern: a key `__proto__` is not modelled. In the
  source, storing it into the fresh object at `src/utilities.ts:88` or `:90`
  goes through the prototype setter, so the entry is dropped; the model keeps
  it like any other key.
- Utilities.SourceMapPathOverrides: the model assumes that `this` at
  `src/utilities.ts:79` and `:86` is the module's export object, so the calls
  reach `resolveWebRootPattern` and `replaceWebRootInSourceMapPathOverridesEntry`
  of the same file. That holds when the compiled call from
  `src/edgeDebugAdapter.ts:64` is a method call on the module object; if it is
  compiled to a plain function call, `this` is `undefined` and the call throws,
  which the model does not represent.
- Utilities.ResolveWebRootPattern: a table is a sequence in iteration order.
  The reordering `Object.entries` applies to integer-like keys, and the merging
  of duplicate keys, are not modelled; the source's object literals have
  neither.
