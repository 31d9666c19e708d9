/** Server assembly: configuration defaults, the global interceptor chain,
    the optional access gate on the root group, and the order of events when
    the server starts and stops. Hooks, the listener and the HTTP shutdown
    are outside the model; what they return is an input. */
module Server {
  import opened Common
  import Decimal
  import opened Errors
  import Cors
  import Auth
  import Logger
  import Timeout

  datatype HttpTimeouts = HttpTimeouts(read: Int64, readHeader: Int64, write: Int64, idle: Int64)

  datatype LogConfig = LogConfig(accessFile: string, errorFile: string, rotateMaxSizeBytes: Int64, rotateBackups: int)

  /** `Config`. */
  datatype Config = Config(
    addr: int,
    release: bool,
    basePath: string,
    cors: Cors.CorsConfig,
    timeouts: HttpTimeouts,
    log: LogConfig,
    auth: Auth.AuthConfig,
    perRequest: Timeout.TimeoutConfig,
    shutdownWait: Int64,
    printRoutes: bool)

  const DefaultAddr: int := 8080
  const DefaultShutdownWait: int := 10 * Second
  const DefaultRead: int := 10 * Second
  const DefaultReadHeader: int := 5 * Second
  const DefaultWrite: int := 15 * Second
  const DefaultIdle: int := 60 * Second

  /** A timeout left at 0 takes its default; any other value, negative ones
      included, is kept. */
  function OrDefault(d: Int64, def: Int64): (r: Int64)
    requires def != 0
    ensures r != 0
    ensures d != 0 ==> r == d
    ensures d == 0 ==> r == def
  {
    if d == 0 then def else d
  }

  /** The defaulting at the top of `New`. */
  function WithDefaults(cfg: Config): (c: Config)
    ensures c.addr > 0 && c.shutdownWait > 0
    ensures cfg.addr > 0 ==> c.addr == cfg.addr
    ensures cfg.addr <= 0 ==> c.addr == DefaultAddr
    ensures cfg.shutdownWait > 0 ==> c.shutdownWait == cfg.shutdownWait
    ensures cfg.shutdownWait <= 0 ==> c.shutdownWait == DefaultShutdownWait
    ensures c.timeouts == HttpTimeouts(
      OrDefault(cfg.timeouts.read, DefaultRead),
      OrDefault(cfg.timeouts.readHeader, DefaultReadHeader),
      OrDefault(cfg.timeouts.write, DefaultWrite),
      OrDefault(cfg.timeouts.idle, DefaultIdle))
    ensures c.(addr := cfg.addr, shutdownWait := cfg.shutdownWait, timeouts := cfg.timeouts) == cfg
  {
    var t := cfg.timeouts;
    cfg.(
      addr := if cfg.addr <= 0 then DefaultAddr else cfg.addr,
      shutdownWait := if cfg.shutdownWait <= 0 then DefaultShutdownWait else cfg.shutdownWait,
      timeouts := HttpTimeouts(
        OrDefault(t.read, DefaultRead),
        OrDefault(t.readHeader, DefaultReadHeader),
        OrDefault(t.write, DefaultWrite),
        OrDefault(t.idle, DefaultIdle)))
  }

  /** Defaulting a defaulted configuration changes nothing. */
  lemma WithDefaultsIdempotent(cfg: Config)
    ensures WithDefaults(WithDefaults(cfg)) == WithDefaults(cfg)
  {
  }

  /** A configuration that already sets every defaulted field is kept as is. */
  lemma CompleteConfigKept(cfg: Config)
    requires cfg.addr > 0 && cfg.shutdownWait > 0
    requires cfg.timeouts.read != 0 && cfg.timeouts.readHeader != 0
    requires cfg.timeouts.write != 0 && cfg.timeouts.idle != 0
    ensures WithDefaults(cfg) == cfg
  {
  }

  // ---------------------------------------------------------------------
  // The interceptor chain

  /** The interceptors `New` installs on the engine. */
  datatype Interceptor =
    | AccessLogger
    | Recovery
    | ErrorCapture
    | RequestId(header: string)
    | CorsPolicy(cors: Cors.CorsConfig)
    | RequestTimeout(cfg: Timeout.TimeoutConfig)

  /** The global chain, in the order requests pass through it. */
  function GlobalChain(c: Config): (chain: seq<Interceptor>)
    ensures |chain| == (if c.perRequest.requestTimeout > 0 then 6 else 5)
    ensures chain[..5] == [AccessLogger, Recovery, ErrorCapture, RequestId("X-Request-Id"), CorsPolicy(c.cors)]
    ensures |chain| == 6 ==> chain[5] == RequestTimeout(c.perRequest)
  {
    [AccessLogger, Recovery, ErrorCapture, RequestId("X-Request-Id"), CorsPolicy(c.cors)]
      + (if c.perRequest.requestTimeout > 0 then [RequestTimeout(c.perRequest)] else [])
  }

  /** The deadline a chain enforces: the timeout interceptor's, when it has
      one. */
  function EnforcedTimeout(chain: seq<Interceptor>): Timeout.Enforcer
    decreases |chain|
  {
    if |chain| == 0 then Timeout.PassThrough
    else if chain[0].RequestTimeout? then Timeout.TimeoutMiddleware(chain[0].cfg)
    else EnforcedTimeout(chain[1..])
  }

  /** Mounting the timeout interceptor only for a positive deadline agrees
      with the interceptor's own switch: the chain enforces exactly what
      `TimeoutMiddleware` would. */
  lemma ChainTimeoutAgrees(c: Config)
    ensures EnforcedTimeout(GlobalChain(c)) == Timeout.TimeoutMiddleware(c.perRequest)
  {
    var chain := GlobalChain(c);
    var tail := chain[5..];
    assert EnforcedTimeout(chain[4..]) == EnforcedTimeout(tail) by {
      assert chain[4..][1..] == tail;
    }
    assert EnforcedTimeout(chain[3..]) == EnforcedTimeout(chain[4..]) by {
      assert chain[3..][1..] == chain[4..];
    }
    assert EnforcedTimeout(chain[2..]) == EnforcedTimeout(chain[3..]) by {
      assert chain[2..][1..] == chain[3..];
    }
    assert EnforcedTimeout(chain[1..]) == EnforcedTimeout(chain[2..]) by {
      assert chain[1..][1..] == chain[2..];
    }
    if |chain| == 6 {
      assert tail == [RequestTimeout(c.perRequest)];
    } else {
      assert tail == [];
    }
  }

  /** The request id is assigned before CORS and the deadline see the
      request, and errors are captured around all three. */
  lemma ChainOrder(c: Config, i: int, j: int)
    requires 0 <= i < |GlobalChain(c)| && 0 <= j < |GlobalChain(c)|
    requires GlobalChain(c)[i].RequestId? && (GlobalChain(c)[j].CorsPolicy? || GlobalChain(c)[j].RequestTimeout?)
    ensures 2 < i < j
  {
    var chain := GlobalChain(c);
    if i < 5 {
      assert chain[i] == chain[..5][i];
    }
    if j < 5 {
      assert chain[j] == chain[..5][j];
    }
  }

  // ---------------------------------------------------------------------
  // New

  /** The assembled server. */
  datatype Server = Server(
    cfg: Config,
    chain: seq<Interceptor>,
    noRoute: Effect,
    noMethod: Effect,
    rootPath: string,
    rootGate: Option<Auth.Gate>,
    listenAddr: string,
    accessOut: Logger.Sink,
    errorOut: Logger.Sink)

  /** The server `New` built, or why it built none: a sink's `open`
      failed, or `mustOpen` panicked. Each carries the file system as it
      was left, since the access log may already have been created. */
  datatype Built = Built(server: Server, fs: Logger.Fs) | SinkFailed(fs: Logger.Fs) | Panicked(fs: Logger.Fs)

  /** The gate mounted on the root group. */
  function RootGate(c: Config, validator: Option<Auth.Validator>): (g: Option<Auth.Gate>)
    ensures g.Some? <==> c.auth.enableAccess
    ensures g.Some? ==> g.value.kind == Auth.Access
    ensures g.Some? ==> g.value.auth == Auth.NewAuth(c.auth, if validator.Some? then validator.value else Auth.StubValidator())
  {
    var v := if validator.Some? then validator.value else Auth.StubValidator();
    if c.auth.enableAccess then Some(Auth.Gate(Auth.NewAuth(c.auth, v), Auth.Access)) else None
  }

  /** Without a validator of its own the root gate accepts exactly the token
      "ok". */
  lemma RootGateDefaultsToStub(c: Config, req: Auth.Request)
    requires c.auth.enableAccess
    ensures
      var g := RootGate(c, None).value;
      var tok := Auth.PickToken(g.auth, req, true);
      (Auth.Run(g, req).effect == Pass <==> tok == "ok")
  {
  }

  /** The sink an empty file name stands for. */
  function StdSink(name: string, sink: Logger.Sink, stream: Logger.Stream): (s: Logger.Sink)
    ensures name == "" ==> s == Logger.Console(stream)
    ensures name != "" ==> s == sink
  {
    if name == "" then Logger.Console(stream) else sink
  }

  /** `New`: default the configuration, make the access sink and then the
      error sink, and assemble the engine. Whether each sink's file opens
      is an input. */
  function New(cfg: Config, validator: Option<Auth.Validator>, fs: Logger.Fs, accessOpenOk: bool, errorOpenOk: bool): (b: Built)
    ensures var lc := cfg.log;
      b.Built? <==> (lc.accessFile == "" || accessOpenOk) && (lc.errorFile == "" || errorOpenOk)
    ensures !b.Built? ==> (b.Panicked? <==> cfg.log.rotateMaxSizeBytes <= 0)
    ensures b.Built? ==>
      && b.server.cfg == WithDefaults(cfg)
      && b.server.chain == GlobalChain(WithDefaults(cfg))
      && b.server.noRoute == NotFoundHandler() && b.server.noMethod == MethodNotAllowedHandler()
      && b.server.rootPath == cfg.basePath
      && b.server.rootGate == RootGate(cfg, validator)
      && b.server.listenAddr == ":" + Decimal.Format(WithDefaults(cfg).addr)
    ensures b.Built? ==> FileSink(cfg.log, cfg.log.accessFile, b.server.accessOut, Logger.Stdout)
    ensures b.Built? ==> FileSink(cfg.log, cfg.log.errorFile, b.server.errorOut, Logger.Stderr)
    ensures forall n :: n != cfg.log.accessFile && n != cfg.log.errorFile ==> Logger.Lookup(b.fs, n) == Logger.Lookup(fs, n)
    ensures cfg.log.accessFile != "" && accessOpenOk ==> cfg.log.accessFile in b.fs
    ensures b.Built? && cfg.log.errorFile != "" ==> cfg.log.errorFile in b.fs
  {
    var c := WithDefaults(cfg);
    var lc := c.log;
    match Logger.NewSink(lc.accessFile, lc.rotateMaxSizeBytes, lc.rotateBackups, fs, accessOpenOk)
    case OpenFailed => SinkFailed(fs)
    case Panicked => Panicked(fs)
    case Made(a, fs1) =>
      match Logger.NewSink(lc.errorFile, lc.rotateMaxSizeBytes, lc.rotateBackups, fs1, errorOpenOk)
      case OpenFailed => SinkFailed(fs1)
      case Panicked => Panicked(fs1)
      case Made(e, fs2) =>
        var s := Server(c, GlobalChain(c), NotFoundHandler(), MethodNotAllowedHandler(), c.basePath,
          RootGate(c, validator), ":" + Decimal.Format(c.addr),
          StdSink(lc.accessFile, a, Logger.Stdout), StdSink(lc.errorFile, e, Logger.Stderr));
        Built(s, fs2)
  }

  /** The sink `New` keeps for a log file name: the standard stream for an
      empty name; otherwise a plain append-only file when rotation is off
      (a size limit of at most 0), and else a rotating writer on that file,
      open, with the configured limit and backup count. */
  predicate FileSink(lc: LogConfig, name: string, s: Logger.Sink, stream: Logger.Stream) {
    if name == "" then s == Logger.Console(stream)
    else if lc.rotateMaxSizeBytes <= 0 then s == Logger.Appender(name)
    else
      && s.Rotating? && s.w.path == name && s.w.cur == Logger.OpenFile
      && s.w.maxSize == lc.rotateMaxSizeBytes && s.w.backups == lc.rotateBackups
  }

  // ---------------------------------------------------------------------
  // Start and Shutdown

  datatype StartEvent = StartHookRan(index: nat) | Listened

  /** The events of `Start` and the error it returns. */
  datatype Started = Started(trace: seq<StartEvent>, result: Option<string>)

  /** `Start` from hook `i` on: each hook's outcome is `hooks[i]`, and
      `serve` is what `ListenAndServe` returns once the server is closed
      normally excluded. */
  function StartFrom(hooks: seq<Option<string>>, i: nat, serve: Option<string>): (r: Started)
    requires i <= |hooks|
    ensures |r.trace| >= 1
    ensures forall k :: 0 <= k < |r.trace| - 1 ==> r.trace[k] == StartHookRan(i + k)
    ensures r.trace[|r.trace| - 1] == Listened <==> forall k :: i <= k < |hooks| ==> hooks[k].None?
    ensures r.trace[|r.trace| - 1] == Listened ==> |r.trace| == |hooks| - i + 1 && r.result == serve
    ensures r.trace[|r.trace| - 1] != Listened ==>
      && i + |r.trace| <= |hooks|
      && r.trace[|r.trace| - 1] == StartHookRan(i + |r.trace| - 1)
      && r.result == hooks[i + |r.trace| - 1] && r.result.Some?
      && forall k :: i <= k < i + |r.trace| - 1 ==> hooks[k].None?
    decreases |hooks| - i
  {
    if i == |hooks| then Started([Listened], serve)
    else if hooks[i].Some? then Started([StartHookRan(i)], hooks[i])
    else
      var rest := StartFrom(hooks, i + 1, serve);
      Started([StartHookRan(i)] + rest.trace, rest.result)
  }

  /** `Start`: run the start hooks in order, stop at the first error and
      return it; when none fails, listen and return the listener's error. */
  function Start(hooks: seq<Option<string>>, serve: Option<string>): (r: Started)
    ensures |r.trace| >= 1
    ensures forall k :: 0 <= k < |r.trace| - 1 ==> r.trace[k] == StartHookRan(k)
    ensures (forall k :: 0 <= k < |hooks| ==> hooks[k].None?) ==>
      r.trace[|r.trace| - 1] == Listened && r.result == serve
    ensures r.result.Some? && r.result != serve ==> r.trace[|r.trace| - 1] != Listened
  {
    StartFrom(hooks, 0, serve)
  }

  /** When hook `f` is the first to fail, hooks `0` .. `f` ran, nothing
      after them did, the server never listened, and `f`'s error is
      returned. */
  lemma StartStopsAtFirstFailure(hooks: seq<Option<string>>, serve: Option<string>, f: nat)
    requires f < |hooks| && hooks[f].Some?
    requires forall k :: 0 <= k < f ==> hooks[k].None?
    ensures Start(hooks, serve).trace == seq(f + 1, k requires 0 <= k <= f => StartHookRan(k))
    ensures Start(hooks, serve).result == hooks[f]
  {
    var r := Start(hooks, serve);
    assert r.trace[|r.trace| - 1] != Listened;
  }

  datatype StopEvent = StopHookRan(index: nat) | HttpShutdown | ClosedAccess | ClosedError

  /** The events of `Shutdown`, its result, and the sinks after it. */
  datatype Stopped = Stopped(trace: seq<StopEvent>, result: Option<string>, accessOut: Logger.Sink, errorOut: Logger.Sink)

  /** `Shutdown`: run the stop hooks, shut the HTTP server down (its error
      is `shutdownErr`), then close the access sink and the error sink,
      and return the shutdown's error. */
  function Shutdown(s: Server, stopHooks: nat, shutdownErr: Option<string>): (r: Stopped)
    ensures |r.trace| == stopHooks + 3
    ensures forall k :: 0 <= k < stopHooks ==> r.trace[k] == StopHookRan(k)
    ensures r.trace[stopHooks..] == [HttpShutdown, ClosedAccess, ClosedError]
    ensures r.result == shutdownErr
    ensures r.accessOut == Logger.SinkClose(s.accessOut).0 && r.errorOut == Logger.SinkClose(s.errorOut).0
  {
    var hooks := seq(stopHooks, k requires 0 <= k < stopHooks => StopHookRan(k));
    Stopped(hooks + [HttpShutdown, ClosedAccess, ClosedError], shutdownErr,
      Logger.SinkClose(s.accessOut).0, Logger.SinkClose(s.errorOut).0)
  }

  /** The sinks are closed, after the HTTP shutdown, whatever it returned. */
  lemma SinksClosedRegardless(s: Server, stopHooks: nat, e1: Option<string>, e2: Option<string>)
    ensures Shutdown(s, stopHooks, e1).trace == Shutdown(s, stopHooks, e2).trace
    ensures Shutdown(s, stopHooks, e1).accessOut == Shutdown(s, stopHooks, e2).accessOut
    ensures Shutdown(s, stopHooks, e1).errorOut == Shutdown(s, stopHooks, e2).errorOut
    ensures !Shutdown(s, stopHooks, e1).accessOut.Rotating? || Shutdown(s, stopHooks, e1).accessOut.w.cur != Logger.OpenFile
  {
  }
}
