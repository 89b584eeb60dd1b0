/** The launch, attach and teardown logic of `EdgeDebugAdapter`
    (`src/edgeDebugAdapter.ts`) as pure functions. The adapter's two fields are
    an `AdapterState` value; what the source does to the outside world (the
    HTTP requests, spawning and killing the proxy process, the calls into the
    inherited protocol adapter) is an `Effect` in the returned record; and what
    comes back from the outside world (the probe's answer, the process handle,
    the close request's outcome) is a parameter. */
module EdgeDebugAdapter {
  import opened Wrappers
  import opened JsStrings
  import opened Utilities

  const DefaultPort := 9222
  const MinNodeMajor := 10
  const LoopbackOrigin := "http://127.0.0.1:"
  const ExpectedBrowser := "edge"
  const VersionPath := "/json/version"
  const ClosePath := "/json/close/"

  /** A handle on a spawned proxy process. */
  type ProcessId = nat

  /** The fields `_adapterPort` and `_adapterProc`; both start out undefined. */
  datatype AdapterState = AdapterState(adapterPort: Option<int>, adapterProc: Option<ProcessId>)

  const InitialState := AdapterState(None, None)

  /** The launch configuration fields the adapter reads or rewrites; `None`
      stands for an absent field. */
  datatype LaunchArgs = LaunchArgs(
    runtimeExecutable: Option<string>,
    port: Option<int>,
    url: Option<string>,
    webRoot: Option<string>,
    sourceMapPathOverrides: Option<OverrideTable>)

  /** What the probe `GET http://127.0.0.1:<port>/json/version` yields. All
      but the last make the probe block throw. */
  datatype ProbeReply =
    | Unreachable                     // the request fails: nothing is listening
    | InvalidJson                     // `JSON.parse` throws on the body
    | BrowserNotString                // the body has no string `Browser`, so lower-casing it throws
    | BrowserReported(browser: string)

  datatype LaunchError =
    | AdapterNotFound
    | UnsupportedWindows
    | UnsupportedWindowsRelease(release: string)
    | NodeTooOld(nodeMajor: int)
    | PortInUse(browser: string, port: int)

  /** The requirement both Windows errors open with. */
  const WindowsRequirement :=
    "Microsoft Office Add-in Debugger is only supported on Windows 10 version 1903 (build 10.0.18362) and greater."

  /** The rejection text of each launch error, which ends with the offending
      value where there is one. */
  function Message(e: LaunchError): (m: string)
    ensures e.UnsupportedWindows? || e.UnsupportedWindowsRelease? ==>
              |m| >= |WindowsRequirement| && m[..|WindowsRequirement|] == WindowsRequirement
    ensures e.UnsupportedWindowsRelease? ==> |m| >= |e.release| && m[|m| - |e.release|..] == e.release
    ensures e.NodeTooOld? ==> EndsWithNumber(m, e.nodeMajor)
    ensures e.PortInUse? ==>
              && EndsWithNumber(m, e.port)
              && |m| >= |PortPrefix| + |e.browser|
              && m[|PortPrefix|..|PortPrefix| + |e.browser|] == e.browser
  {
    match e
    case AdapterNotFound => AdapterMissing
    case UnsupportedWindows => WindowsRequirement
    case UnsupportedWindowsRelease(release) =>
      var head := WindowsRequirement + InstalledVersion;
      assert (head + release)[..|WindowsRequirement|] == WindowsRequirement;
      assert (head + release)[|head|..] == release;
      head + release
    case NodeTooOld(major) =>
      var d := IntToString(major);
      assert (NodeRequirement + d)[|NodeRequirement|..] == d;
      NodeRequirement + d
    case PortInUse(browser, port) =>
      var head := PortPrefix + browser;
      var d := IntToString(port);
      assert (head + PortInfix + d)[|head + PortInfix|..] == d;
      assert (head + PortInfix + d)[|PortPrefix|..|head|] == browser;
      head + PortInfix + d
  }

  const AdapterMissing :=
    "No Edge Diagnostics Adapter was found. Install the Edge Diagnostics Adapter (https://github.com/OfficeDev/debug-adapter-for-office-addins) and specify a valid 'adapterExecutable' path"
  const InstalledVersion := "  Currently installed version is "
  const NodeRequirement := "Microsoft Office Add-in Debugger requires NodeJs 10 or higher." + InstalledVersion
  const PortPrefix := "Server for "
  const PortInfix := " already listening on "

  /** `m` ends with the decimal rendering of `n`. */
  predicate EndsWithNumber(m: string, n: int) {
    var d := IntToString(n);
    |m| >= |d| && m[|m| - |d|..] == d
  }

  /** What the adapter does to the outside world, in order. */
  datatype Effect =
    | ProbeRequest(url: string)
    | SpawnAdapter(proc: ProcessId)
    | KillAdapter(proc: ProcessId)
    | CloseRequest(url: string)
    | ClearTargetContext
    | InheritedAttach(args: LaunchArgs)
    | InheritedDisconnect

  /** How `_launchAdapter` settles: rejected, resolved because a compatible
      proxy already listens, or resolved after spawning one. */
  datatype Outcome = Rejected(error: LaunchError) | AlreadyRunning | Spawned

  /** The state after a launch, the (rewritten) launch arguments, the proxy
      argument vector, the effects and the outcome. */
  datatype LaunchStep = LaunchStep(
    state: AdapterState,
    args: LaunchArgs,
    adapterArgs: seq<string>,
    effects: seq<Effect>,
    outcome: Outcome)

  /** The state after a teardown and its effects. */
  datatype Teardown = Teardown(state: AdapterState, effects: seq<Effect>)

  // ---------------------------------------------------------------------------
  // Gates
  // ---------------------------------------------------------------------------

  /** The executable to check: the configured one when set, otherwise the
      bundled one for this host (if any). */
  function ExecutablePath(args: LaunchArgs, host: Host): (p: Option<string>)
    ensures p.Some? <==> Truthy(args.runtimeExecutable) || (host.platform == Windows && host.hasProgramFilesX86)
    ensures Truthy(args.runtimeExecutable) ==> p == args.runtimeExecutable
    ensures !Truthy(args.runtimeExecutable) && p.Some? ==> p.value == host.bundledAdapterPath
  {
    if Truthy(args.runtimeExecutable) then args.runtimeExecutable else AdapterPath(host, false)
  }

  /** `fs.existsSync(adapterExePath)`, which is false for a `null` path. */
  predicate ExecutableExists(args: LaunchArgs, host: Host): (ok: bool)
    ensures Truthy(args.runtimeExecutable) ==> (ok <==> args.runtimeExecutable.value in host.existingFiles)
    ensures !Truthy(args.runtimeExecutable) ==>
              (ok <==> host.platform == Windows && host.hasProgramFilesX86 && host.bundledAdapterPath in host.existingFiles)
  {
    match ExecutablePath(args, host)
    case None => false
    case Some(p) => p in host.existingFiles
  }

  /** `parseInt(process.version.slice(1))`. */
  function NodeMajor(host: Host): (r: Option<int>)
    ensures r.Some? ==> |host.nodeVersion| >= 2
  {
    ParseInt(if |host.nodeVersion| >= 1 then host.nodeVersion[1..] else "")
  }

  /** `nodeVersion < 10`, which is false for `NaN`. */
  predicate NodeTooOldFor(host: Host) {
    NodeMajor(host).Some? && NodeMajor(host).value < MinNodeMajor
  }

  /** All three gates pass. */
  predicate GatesPass(args: LaunchArgs, host: Host) {
    ExecutableExists(args, host) && IsSupportedWindowsVersion(host) && !NodeTooOldFor(host)
  }

  /** The first failing gate, in the source's order: the executable, then the
      Windows version, then Node. */
  function GateError(args: LaunchArgs, host: Host): (r: Option<LaunchError>)
    ensures r.None? <==> GatesPass(args, host)
    ensures !ExecutableExists(args, host) ==>
              r == Some(if IsSupportedWindowsVersion(host) then AdapterNotFound else UnsupportedWindows)
    ensures ExecutableExists(args, host) && !IsSupportedWindowsVersion(host) ==>
              r == Some(UnsupportedWindowsRelease(host.release))
    ensures ExecutableExists(args, host) && IsSupportedWindowsVersion(host) && NodeTooOldFor(host) ==>
              r == Some(NodeTooOld(NodeMajor(host).value))
  {
    if !ExecutableExists(args, host) then
      if IsSupportedWindowsVersion(host) then Some(AdapterNotFound) else Some(UnsupportedWindows)
    else if !IsSupportedWindowsVersion(host) then Some(UnsupportedWindowsRelease(host.release))
    else if NodeTooOldFor(host) then Some(NodeTooOld(NodeMajor(host).value))
    else None
  }

  // ---------------------------------------------------------------------------
  // Port, arguments and URLs
  // ---------------------------------------------------------------------------

  /** `args.port`, or 9222 when it is absent or 0. */
  function EffectivePort(port: Option<int>): (p: int)
    ensures p != 0
    ensures port.Some? && port.value != 0 ==> p == port.value
    ensures port.None? || port.value == 0 ==> p == DefaultPort
  {
    if port.None? || port.value == 0 then DefaultPort else port.value
  }

  /** The argument vector prepared for the proxy: the port always, the launch
      URL only when one is configured. */
  function AdapterArgs(port: int, url: Option<string>): (argv: seq<string>)
    ensures 1 <= |argv| <= 2
    ensures argv[0] == "--port=" + IntToString(port)
    ensures |argv| == 2 <==> Truthy(url)
    ensures |argv| == 2 ==> argv[1] == "--launch=" + url.value
  {
    ["--port=" + IntToString(port)] + (if Truthy(url) then ["--launch=" + url.value] else [])
  }

  function VersionUrl(port: int): (u: string)
    ensures |u| >= |VersionPath| && u[|u| - |VersionPath|..] == VersionPath
  {
    LoopbackOrigin + IntToString(port) + VersionPath
  }

  /** The close URL; an adapter that never launched renders its port as
      `undefined`. */
  function CloseUrl(port: Option<int>, targetId: string): (u: string)
    ensures port.None? ==> u == LoopbackOrigin + "undefined" + ClosePath + targetId
  {
    LoopbackOrigin + (if port.Some? then IntToString(port.value) else "undefined") + ClosePath + targetId
  }

  /** The probed server identifies as Edge. */
  predicate IsEdge(browser: string) {
    Contains(ToLower(browser), ExpectedBrowser)
  }

  // ---------------------------------------------------------------------------
  // _launchAdapter, launch / attach
  // ---------------------------------------------------------------------------

  /** The part of `_launchAdapter` after the gates: the port default, the
      proxy arguments and the override resolution, then the probe, whose reply
      decides between reusing the running proxy, refusing a foreign server
      and spawning a proxy (handle `spawned`). */
  function ProbeAndSpawn(st: AdapterState, args: LaunchArgs, probe: ProbeReply,
                         canon: string -> string, spawned: ProcessId): (step: LaunchStep)
    ensures step.state.adapterPort == Some(EffectivePort(args.port)) == step.args.port
    ensures step.args.sourceMapPathOverrides
              == Some(SourceMapPathOverrides(args.webRoot, args.sourceMapPathOverrides, canon))
    ensures step.args == args.(port := step.args.port, sourceMapPathOverrides := step.args.sourceMapPathOverrides)
    ensures step.adapterArgs == AdapterArgs(EffectivePort(args.port), args.url)
    ensures |step.effects| >= 1 && step.effects[0] == ProbeRequest(VersionUrl(EffectivePort(args.port)))
    ensures step.outcome == AlreadyRunning <==> probe.BrowserReported? && IsEdge(probe.browser)
    ensures step.outcome == Spawned <==> !probe.BrowserReported?
    ensures step.outcome.Rejected? ==>
              step.outcome.error == PortInUse(ToLower(probe.browser), EffectivePort(args.port))
    ensures step.state.adapterProc == if step.outcome == Spawned then Some(spawned) else st.adapterProc
  {
    var port := EffectivePort(args.port);
    var argv := AdapterArgs(port, args.url);
    var overrides := SourceMapPathOverrides(args.webRoot, args.sourceMapPathOverrides, canon);
    var args' := args.(port := Some(port), sourceMapPathOverrides := Some(overrides));
    var st' := st.(adapterPort := Some(port));
    var probed := [ProbeRequest(VersionUrl(port))];
    match probe
    case BrowserReported(browser) =>
      var name := ToLower(browser);
      if !Contains(name, ExpectedBrowser) then
        LaunchStep(st', args', argv, probed, Rejected(PortInUse(name, port)))
      else
        LaunchStep(st', args', argv, probed, AlreadyRunning)
    case _ =>
      LaunchStep(st'.(adapterProc := Some(spawned)), args', argv, probed + [SpawnAdapter(spawned)], Spawned)
  }

  /** `_launchAdapter`: a failing gate rejects with nothing done and nothing
      changed; otherwise the launch goes on to the probe. */
  function LaunchAdapter(st: AdapterState, args: LaunchArgs, host: Host, probe: ProbeReply,
                         canon: string -> string, spawned: ProcessId): (step: LaunchStep)
    ensures !GatesPass(args, host) ==>
              step == LaunchStep(st, args, [], [], Rejected(GateError(args, host).value))
    ensures GatesPass(args, host) ==> step == ProbeAndSpawn(st, args, probe, canon, spawned)
  {
    match GateError(args, host)
    case Some(e) => LaunchStep(st, args, [], [], Rejected(e))
    case None => ProbeAndSpawn(st, args, probe, canon, spawned)
  }

  /** `launch` and `attach`, which do the same: `_launchAdapter`, then, unless
      it rejected, the inherited `attach` with the rewritten arguments. */
  function StartSession(st: AdapterState, args: LaunchArgs, host: Host, probe: ProbeReply,
                        canon: string -> string, spawned: ProcessId): (s: LaunchStep)
    ensures var l := LaunchAdapter(st, args, host, probe, canon, spawned);
            s.state == l.state && s.outcome == l.outcome && s.args == l.args
    ensures var l := LaunchAdapter(st, args, host, probe, canon, spawned);
            && s.adapterArgs == l.adapterArgs
            && s.effects == l.effects + (if l.outcome.Rejected? then [] else [InheritedAttach(l.args)])
    ensures s.outcome.Rejected? ==> forall i :: 0 <= i < |s.effects| ==> !s.effects[i].InheritedAttach?
    ensures !s.outcome.Rejected? ==>
              && |s.effects| >= 2
              && s.effects[|s.effects| - 1]
                 == InheritedAttach(args.(port := Some(EffectivePort(args.port)),
                                          sourceMapPathOverrides :=
                                            Some(SourceMapPathOverrides(args.webRoot, args.sourceMapPathOverrides, canon))))
  {
    var l := LaunchAdapter(st, args, host, probe, canon, spawned);
    if l.outcome.Rejected? then l else l.(effects := l.effects + [InheritedAttach(l.args)])
  }

  // ---------------------------------------------------------------------------
  // clearEverything, disconnect
  // ---------------------------------------------------------------------------

  /** Kills and forgets the proxy process if there is one, then clears the
      inherited target context. */
  function ClearEverything(st: AdapterState): (t: Teardown)
    ensures t.state == st.(adapterProc := None)
    ensures st.adapterProc.Some? ==> t.effects == [KillAdapter(st.adapterProc.value), ClearTargetContext]
    ensures st.adapterProc.None? ==> t.effects == [ClearTargetContext]
  {
    match st.adapterProc
    case Some(p) => Teardown(st.(adapterProc := None), [KillAdapter(p), ClearTargetContext])
    case None => Teardown(st, [ClearTargetContext])
  }

  /** Without an attached target, nothing; otherwise the close request for
      that target and, once it succeeds, `clearEverything` and the inherited
      `disconnect`. */
  function Disconnect(st: AdapterState, attachedTarget: Option<string>, closeSucceeded: bool): (t: Teardown)
    ensures attachedTarget.None? ==> t == Teardown(st, [])
    ensures attachedTarget.Some? ==>
              |t.effects| >= 1 && t.effects[0] == CloseRequest(CloseUrl(st.adapterPort, attachedTarget.value))
    ensures attachedTarget.Some? && !closeSucceeded ==> t == Teardown(st, t.effects) && |t.effects| == 1
    ensures attachedTarget.Some? && closeSucceeded ==>
              t.effects == [CloseRequest(CloseUrl(st.adapterPort, attachedTarget.value))]
                           + (if st.adapterProc.Some? then [KillAdapter(st.adapterProc.value)] else [])
                           + [ClearTargetContext, InheritedDisconnect]
    ensures attachedTarget.Some? && closeSucceeded ==>
              && t.state == st.(adapterProc := None)
              && t.effects[|t.effects| - 1] == InheritedDisconnect
              && (st.adapterProc.Some? ==> KillAdapter(st.adapterProc.value) in t.effects)
              && (st.adapterProc.None? ==> forall i :: 0 <= i < |t.effects| ==> !t.effects[i].KillAdapter?)
  {
    match attachedTarget
    case None => Teardown(st, [])
    case Some(id) =>
      var close := CloseRequest(CloseUrl(st.adapterPort, id));
      if closeSucceeded then
        var c := ClearEverything(st);
        Teardown(c.state, [close] + c.effects + [InheritedDisconnect])
      else Teardown(st, [close])
  }

  // ---------------------------------------------------------------------------
  // Properties
  // ---------------------------------------------------------------------------

  /** Off Windows every launch is refused before anything is probed, and never
      with the "not found" text. */
  lemma NonWindowsRejectsBeforeProbing(st: AdapterState, args: LaunchArgs, host: Host, probe: ProbeReply,
                                       canon: string -> string, spawned: ProcessId)
    requires host.platform != Windows
    ensures var step := LaunchAdapter(st, args, host, probe, canon, spawned);
            && step.effects == [] && step.state == st
            && step.outcome.Rejected?
            && step.outcome.error != AdapterNotFound
            && (step.outcome.error == UnsupportedWindows <==> !ExecutableExists(args, host))
  {
  }

  /** The number of proxies an effect sequence spawns. */
  function CountSpawns(effects: seq<Effect>): nat {
    if |effects| == 0 then 0
    else (if effects[0].SpawnAdapter? then 1 else 0) + CountSpawns(effects[1..])
  }

  /** The effects after the gates: the probe alone when a server answers, the
      probe and one spawn when the probe throws. */
  lemma ProbeEffects(st: AdapterState, args: LaunchArgs, probe: ProbeReply,
                     canon: string -> string, spawned: ProcessId)
    ensures var step := ProbeAndSpawn(st, args, probe, canon, spawned);
            var probed := ProbeRequest(VersionUrl(EffectivePort(args.port)));
            step.effects == if probe.BrowserReported? then [probed] else [probed, SpawnAdapter(spawned)]
  {
  }

  /** After the gates, one proxy is spawned exactly when the probe throws. */
  lemma ProbeSpawnCount(st: AdapterState, args: LaunchArgs, probe: ProbeReply,
                        canon: string -> string, spawned: ProcessId)
    ensures CountSpawns(ProbeAndSpawn(st, args, probe, canon, spawned).effects)
              == if probe.BrowserReported? then 0 else 1
  {
    ProbeEffects(st, args, probe, canon, spawned);
    var e := ProbeAndSpawn(st, args, probe, canon, spawned).effects;
    assert CountSpawns(e[1..]) == if probe.BrowserReported? then 0 else 1 by {
      if !probe.BrowserReported? {
        assert e[1..][1..] == [];
      }
    }
  }

  /** A launch spawns one proxy when every gate passes and the probe throws,
      and none otherwise. */
  lemma SpawnsExactlyWhenProbeThrows(st: AdapterState, args: LaunchArgs, host: Host, probe: ProbeReply,
                                     canon: string -> string, spawned: ProcessId)
    ensures CountSpawns(LaunchAdapter(st, args, host, probe, canon, spawned).effects)
              == if GatesPass(args, host) && !probe.BrowserReported? then 1 else 0
  {
    var step := LaunchAdapter(st, args, host, probe, canon, spawned);
    if GatesPass(args, host) {
      ProbeSpawnCount(st, args, probe, canon, spawned);
    } else {
      assert step.effects == [];
    }
  }

  /** The session protocol, as an automaton over the effects of one launch or
      attach: a probe, then optionally one spawn, then the inherited attach. */
  datatype Phase = Idle | Probed | ProxySpawned | Attached

  function Next(p: Phase, e: Effect): Option<Phase> {
    match (p, e)
    case (Idle, ProbeRequest(_)) => Some(Probed)
    case (Probed, SpawnAdapter(_)) => Some(ProxySpawned)
    case (Probed, InheritedAttach(_)) => Some(Attached)
    case (ProxySpawned, InheritedAttach(_)) => Some(Attached)
    case _ => None
  }

  function Run(p: Phase, effects: seq<Effect>): Option<Phase>
    decreases |effects|
  {
    if |effects| == 0 then Some(p)
    else match Next(p, effects[0])
      case None => None
      case Some(q) => Run(q, effects[1..])
  }

  /** The traces a session after the gates can produce, run through the
      automaton. */
  lemma ProtocolTraces(url: string, proc: ProcessId, args: LaunchArgs)
    ensures Run(Idle, [ProbeRequest(url)]) == Some(Probed)
    ensures Run(Idle, [ProbeRequest(url), InheritedAttach(args)]) == Some(Attached)
    ensures Run(Idle, [ProbeRequest(url), SpawnAdapter(proc), InheritedAttach(args)]) == Some(Attached)
  {
    assert Run(Attached, []) == Some(Attached);
    var e1 := [ProbeRequest(url)];
    assert Run(Probed, e1[1..]) == Some(Probed);
    var e2 := [ProbeRequest(url), InheritedAttach(args)];
    assert Run(Probed, e2[1..]) == Some(Attached) by {
      assert e2[1..][1..] == [];
    }
    var e3 := [ProbeRequest(url), SpawnAdapter(proc), InheritedAttach(args)];
    assert Run(ProxySpawned, e3[1..][1..]) == Some(Attached) by {
      assert e3[1..][1..][1..] == [];
    }
  }

  /** After the gates the effects follow the protocol: a probe, a spawn when
      the probe threw, and the inherited attach unless a foreign server was
      found. */
  lemma ProbeFollowsProtocol(st: AdapterState, args: LaunchArgs, probe: ProbeReply,
                             canon: string -> string, spawned: ProcessId)
    ensures var l := ProbeAndSpawn(st, args, probe, canon, spawned);
            var effects := if l.outcome.Rejected? then l.effects else l.effects + [InheritedAttach(l.args)];
            Run(Idle, effects) == if l.outcome.Rejected? then Some(Probed) else Some(Attached)
  {
    var l := ProbeAndSpawn(st, args, probe, canon, spawned);
    ProbeEffects(st, args, probe, canon, spawned);
    ProtocolTraces(VersionUrl(EffectivePort(args.port)), spawned, l.args);
  }

  /** Every launch or attach follows the protocol: it ends attached exactly
      when `_launchAdapter` resolved, stays idle exactly when a gate failed,
      and stops after the probe exactly when a foreign server was found. */
  lemma SessionFollowsProtocol(st: AdapterState, args: LaunchArgs, host: Host, probe: ProbeReply,
                               canon: string -> string, spawned: ProcessId)
    ensures var s := StartSession(st, args, host, probe, canon, spawned);
            Run(Idle, s.effects) ==
              if !GatesPass(args, host) then Some(Idle)
              else if s.outcome.Rejected? then Some(Probed)
              else Some(Attached)
  {
    var l := LaunchAdapter(st, args, host, probe, canon, spawned);
    if GatesPass(args, host) {
      ProbeFollowsProtocol(st, args, probe, canon, spawned);
    } else {
      assert l.effects == [] && l.outcome.Rejected?;
    }
  }

  /** Launching again with the rewritten arguments probes the same port: the
      defaulted port is stored back into the arguments. */
  lemma RelaunchProbesSamePort(st: AdapterState, args: LaunchArgs, host: Host, probe: ProbeReply, probe2: ProbeReply,
                               canon: string -> string, spawned: ProcessId, spawned2: ProcessId)
    requires GatesPass(args, host)
    ensures var step := LaunchAdapter(st, args, host, probe, canon, spawned);
            var again := LaunchAdapter(step.state, step.args, host, probe2, canon, spawned2);
            again.effects[0] == step.effects[0] && again.state.adapterPort == step.state.adapterPort
  {
    var step := LaunchAdapter(st, args, host, probe, canon, spawned);
    assert ExecutablePath(step.args, host) == ExecutablePath(args, host);
  }

  /** The proxy's port argument and launch argument can be read back. */
  lemma AdapterArgsReadBack(port: int, url: Option<string>)
    ensures var argv := AdapterArgs(port, url);
            && |argv[0]| >= |"--port="|
            && ParseInt(argv[0][|"--port="|..]) == Some(port)
            && (|argv| == 2 ==> argv[1][|"--launch="|..] == url.value)
  {
    var argv := AdapterArgs(port, url);
    assert argv[0][|"--port="|..] == IntToString(port) + "";
    ParseIntOfIntToString(port, "");
  }

  /** The probe URL names the probed port. */
  lemma VersionUrlNamesPort(port: int)
    ensures StartsWith(VersionUrl(port), LoopbackOrigin)
    ensures ParseInt(VersionUrl(port)[|LoopbackOrigin|..]) == Some(port)
  {
    var u := VersionUrl(port);
    assert u == LoopbackOrigin + IntToString(port) + VersionPath;
    assert u[..|LoopbackOrigin|] == LoopbackOrigin;
    ParseIntAfterPrefix(LoopbackOrigin, port, VersionPath);
  }

  /** A disconnect before any launch closes the target on the port
      `undefined`, kills nothing and disconnects. */
  lemma DisconnectBeforeLaunch(targetId: string)
    ensures Disconnect(InitialState, Some(targetId), true).effects
              == [CloseRequest(LoopbackOrigin + "undefined" + ClosePath + targetId),
                  ClearTargetContext, InheritedDisconnect]
  {
    assert CloseUrl(InitialState.adapterPort, targetId) == LoopbackOrigin + "undefined" + ClosePath + targetId;
  }

  /** The close URL starts at the loopback origin and ends with the target id. */
  lemma CloseUrlEndsWithTarget(port: Option<int>, targetId: string)
    ensures var u := CloseUrl(port, targetId);
            && StartsWith(u, LoopbackOrigin)
            && |u| >= |targetId| && u[|u| - |targetId|..] == targetId
  {
    var u := CloseUrl(port, targetId);
    var head := LoopbackOrigin + (if port.Some? then IntToString(port.value) else "undefined") + ClosePath;
    assert u == head + targetId;
    assert u[..|LoopbackOrigin|] == LoopbackOrigin by {
      assert head[..|LoopbackOrigin|] == LoopbackOrigin;
    }
  }

  /** The close URL names the stored port, when there is one. */
  lemma CloseUrlNamesPort(port: int, targetId: string)
    ensures ParseInt(CloseUrl(Some(port), targetId)[|LoopbackOrigin|..]) == Some(port)
  {
    var u := CloseUrl(Some(port), targetId);
    assert u == LoopbackOrigin + IntToString(port) + (ClosePath + targetId);
    ParseIntAfterPrefix(LoopbackOrigin, port, ClosePath + targetId);
  }

  /** Four consecutive characters of `browser`, from offset `i`, spell "edge"
      in some capitalisation. */
  predicate NamesEdgeAt(browser: string, i: int) {
    0 <= i && i + |ExpectedBrowser| <= |browser| &&
    forall k :: 0 <= k < |ExpectedBrowser| ==> LowerChar(browser[i + k]) == ExpectedBrowser[k]
  }

  /** A probed server counts as Edge exactly when its browser name contains
      "edge" in any capitalisation ("Edge", "EDGE", "eDgE", ...). */
  lemma IsEdgeIffNamed(browser: string)
    ensures IsEdge(browser) <==> exists i :: NamesEdgeAt(browser, i)
  {
    var lower := ToLower(browser);
    if i :| NamesEdgeAt(browser, i) {
      forall k | 0 <= k < |ExpectedBrowser|
        ensures lower[i..i + |ExpectedBrowser|][k] == ExpectedBrowser[k]
      {
        assert lower[i + k] == LowerChar(browser[i + k]);
      }
      assert lower[i..i + |ExpectedBrowser|] == ExpectedBrowser;
      assert OccursAt(lower, ExpectedBrowser, i);
    }
    if IsEdge(browser) {
      var r := IndexOf(lower, ExpectedBrowser);
      assert OccursAt(lower, ExpectedBrowser, r);
      forall k | 0 <= k < |ExpectedBrowser|
        ensures LowerChar(browser[r + k]) == ExpectedBrowser[k]
      {
        assert lower[r + k] == lower[r..r + |ExpectedBrowser|][k];
      }
      assert NamesEdgeAt(browser, r);
    }
  }

  /** Node's major version is the number after the leading `v`; a version
      string that does not start with a number reads as `NaN` and passes the
      gate. */
  lemma NodeGate(host: Host, major: int, rest: string)
    ensures host.nodeVersion == "v" + IntToString(major) + "." + rest ==>
              NodeMajor(host) == Some(major) && (NodeTooOldFor(host) <==> major < MinNodeMajor)
    ensures NodeMajor(host).None? ==> !NodeTooOldFor(host)
  {
    if host.nodeVersion == "v" + IntToString(major) + "." + rest {
      assert host.nodeVersion == "v" + IntToString(major) + ("." + rest);
      ParseIntAfterPrefix("v", major, "." + rest);
    }
  }

  /** Clearing twice kills at most once: the second clear finds no process. */
  lemma ClearEverythingIdempotent(st: AdapterState)
    ensures var first := ClearEverything(st);
            ClearEverything(first.state) == Teardown(first.state, [ClearTargetContext])
  {
  }

  /** A successful disconnect from a state holding a proxy: the close request,
      the kill, the cleared context and the inherited disconnect, in order. */
  lemma DisconnectKillsProxy(st: AdapterState, targetId: string)
    requires st.adapterProc.Some?
    ensures Disconnect(st, Some(targetId), true)
              == Teardown(st.(adapterProc := None),
                          [CloseRequest(CloseUrl(st.adapterPort, targetId)), KillAdapter(st.adapterProc.value),
                           ClearTargetContext, InheritedDisconnect])
  {
  }

  /** A session whose probe threw holds the spawned proxy on the launch's port. */
  lemma SpawnedSessionState(st: AdapterState, args: LaunchArgs, host: Host, probe: ProbeReply,
                            canon: string -> string, spawned: ProcessId)
    requires GatesPass(args, host) && !probe.BrowserReported?
    ensures StartSession(st, args, host, probe, canon, spawned).state
              == AdapterState(Some(EffectivePort(args.port)), Some(spawned))
  {
    var l := ProbeAndSpawn(st, args, probe, canon, spawned);
    assert l.outcome == Spawned;
    assert LaunchAdapter(st, args, host, probe, canon, spawned) == l;
  }

  /** A launch whose probe throws while an earlier proxy is still held spawns
      a second proxy and overwrites the handle without killing the first, so
      no later disconnect kills it. */
  lemma RelaunchLeaksHeldProxy(st: AdapterState, args: LaunchArgs, probe: ProbeReply,
                               canon: string -> string, spawned: ProcessId, targetId: string)
    requires st.adapterProc.Some? && st.adapterProc.value != spawned && !probe.BrowserReported?
    ensures var l := ProbeAndSpawn(st, args, probe, canon, spawned);
            var d := Disconnect(l.state, Some(targetId), true);
            && l.state.adapterProc == Some(spawned)
            && KillAdapter(st.adapterProc.value) !in l.effects + d.effects
  {
    var gone := KillAdapter(st.adapterProc.value);
    var l := ProbeAndSpawn(st, args, probe, canon, spawned);
    ProbeEffects(st, args, probe, canon, spawned);
    assert gone !in l.effects;
    DisconnectKillsProxy(l.state, targetId);
    var d := Disconnect(l.state, Some(targetId), true);
    assert gone !in d.effects;
  }

  /** A proxy spawned by a launch is killed by a successful disconnect, after
      the close request for the target on the launch's port. */
  lemma SpawnedProxyKilledOnDisconnect(st: AdapterState, args: LaunchArgs, host: Host, probe: ProbeReply,
                                       canon: string -> string, spawned: ProcessId, targetId: string)
    requires GatesPass(args, host) && !probe.BrowserReported?
    ensures var s := StartSession(st, args, host, probe, canon, spawned);
            var d := Disconnect(s.state, Some(targetId), true);
            && d.effects == [CloseRequest(CloseUrl(Some(EffectivePort(args.port)), targetId)),
                             KillAdapter(spawned), ClearTargetContext, InheritedDisconnect]
            && d.state.adapterProc.None?
  {
    var ts := StartSession(st, args, host, probe, canon, spawned).state;
    SpawnedSessionState(st, args, host, probe, canon, spawned);
    DisconnectKillsProxy(ts, targetId);
  }
}
