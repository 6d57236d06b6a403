/** The receiver's sampler emitters: the factory that picks one by output
    type, the identity fields read from the environment, and `logEntry`,
    the delta tick that reads the stored count, samples, stores the sample
    and reports the difference. */
module Adapter {
  import opened Base
  import opened Strconv
  import opened Text
  import opened Scraper
  import opened Sampler
  import opened Usage

  const LAST_COUNT_KEY: string := "LAST_COUNT"
  const FILE_LOGGER_OUTPUT: string := "file_logger"
  const PIPELINE_EMITTER_OUTPUT: string := "pipeline_emitter"

  /** `os.Getenv`: the value of the variable, or "" when it is unset. */
  function Getenv(env: map<string, string>, name: string): (v: string)
    ensures name !in env ==> v == ""
    ensures name in env ==> v == env[name]
  {
    if name in env then env[name] else ""
  }

  /** Billing is on exactly when MULE_BILLING_ENABLED is the literal
      "true"; any other value, including unset, turns it off. */
  function BillingEnabled(env: map<string, string>): (b: bool)
    ensures b <==> "MULE_BILLING_ENABLED" in env && env["MULE_BILLING_ENABLED"] == "true"
  {
    Getenv(env, "MULE_BILLING_ENABLED") == "true"
  }

  /** The worker id: "worker-" followed by the pod name with every
      occurrence of the application name plus "-" removed. */
  function WorkerID(env: map<string, string>): (w: string)
    ensures |w| >= 7 && w[..7] == "worker-"
  {
    var pat := Getenv(env, "APP_NAME") + "-";
    "worker-" + ReplaceAll(Getenv(env, "POD_NAME"), pat, "")
  }

  /** A pod named after its application, "<app>-<suffix>", gets the worker
      id "worker-<suffix>" when the suffix does not itself hold "<app>-". */
  lemma WorkerIDStripsAppPrefix(env: map<string, string>, app: string, suffix: string)
    requires "APP_NAME" in env && env["APP_NAME"] == app
    requires "POD_NAME" in env && env["POD_NAME"] == app + "-" + suffix
    requires !Contains(suffix, app + "-")
    ensures WorkerID(env) == "worker-" + suffix
  {
    ReplaceAllLeading(app + "-", suffix, "");
    assert ReplaceAll(suffix, app + "-", "") == suffix;
    assert app + "-" + suffix == (app + "-") + suffix;
  }

  /** A pod name that does not mention the application is kept verbatim. */
  lemma WorkerIDKeepsForeignPod(env: map<string, string>)
    requires !Contains(Getenv(env, "POD_NAME"), Getenv(env, "APP_NAME") + "-")
    ensures WorkerID(env) == "worker-" + Getenv(env, "POD_NAME")
  {
  }

  /** A pod name made of pieces joined by "<app>-", where no further
      "<app>-" starts inside a piece, loses every joining "<app>-": the
      worker id is "worker-" followed by the pieces run together. */
  lemma WorkerIDRemovesEveryAppPrefix(env: map<string, string>, app: string, pieces: seq<string>)
    requires pieces != []
    requires "APP_NAME" in env && env["APP_NAME"] == app
    requires "POD_NAME" in env && env["POD_NAME"] == Interleave(pieces, app + "-")
    requires forall i :: 0 <= i < |pieces| - 1 ==> !Contains(pieces[i] + app, app + "-")
    requires !Contains(pieces[|pieces| - 1], app + "-")
    ensures WorkerID(env) == "worker-" + Interleave(pieces, "")
  {
    var pat := app + "-";
    assert pat[..|pat| - 1] == app;
    ReplaceAllInterleave(pieces, pat, "");
  }

  /** The identity fields of `logEntry`'s event, all read from the
      environment. */
  function EnvIdentity(env: map<string, string>): (who: Identity)
    ensures who.billable == BillingEnabled(env) && who.workerID == WorkerID(env)
    ensures who.orgID == Getenv(env, "ORG_ID") && who.envID == Getenv(env, "ENV_ID")
    ensures who.deploymentID == Getenv(env, "DEPLOYMENT_ID") && who.rootOrgID == Getenv(env, "ROOT_ORG_ID")
  {
    Identity(Getenv(env, "ORG_ID"), Getenv(env, "ENV_ID"), Getenv(env, "DEPLOYMENT_ID"),
             Getenv(env, "ROOT_ORG_ID"), WorkerID(env), BillingEnabled(env))
  }

  // ---------------------------------------------------------------------
  // logEntry

  /** What `logEntry` returns, given what was stored under LAST_COUNT and
      what the sampler returned: a sampler panic unwinds through it;
      otherwise the sample (0 when the sampler failed, its error being
      dropped) minus the baseline is reported at second precision in
      milliseconds. */
  function LogEntryResult(stored: map<string, string>, sample: Outcome<uint64>, env: map<string, string>,
                          nowUnix: int, id: string): (r: Outcome<NetworkIOLogEntry>)
    ensures sample.Panicked? <==> r.Panicked?
    ensures r.Returned? ==>
      r.err.None? && |r.value.events| == 1 && r.value.time == nowUnix * 1000
      && r.value.events[0].usageBytes == Delta(sample.value, Baseline(stored, LAST_COUNT_KEY))
    ensures r.Returned? ==>
      |r.value.events| == 1 && r.value.events[0].id == id
      && r.value.events[0].workerID == WorkerID(env) && r.value.events[0].billable == BillingEnabled(env)
      && r.value.events[0].assetID == Getenv(env, "DEPLOYMENT_ID")
      && r.value.events[0].orgID == Getenv(env, "ORG_ID") && r.value.events[0].envID == Getenv(env, "ENV_ID")
      && r.value.events[0].rootOrgID == Getenv(env, "ROOT_ORG_ID")
  {
    if sample.Panicked? then Panicked(sample.reason)
    else Returned(MakeEntry(id, nowUnix * 1000, EnvIdentity(env),
                            Delta(sample.value, Baseline(stored, LAST_COUNT_KEY))), None)
  }

  /** The store after `logEntry`: the sample (not the delta) under
      LAST_COUNT, unless the sampler panicked first. */
  function LogEntryStore(stored: map<string, string>, sample: Outcome<uint64>): (s: map<string, string>)
    ensures sample.Panicked? ==> s == stored
    ensures sample.Returned? ==> s == StoreSample(stored, LAST_COUNT_KEY, sample.value)
  {
    if sample.Panicked? then stored else StoreSample(stored, LAST_COUNT_KEY, sample.value)
  }

  /** `logEntry`: reads LAST_COUNT, samples, writes the sample back, and
      builds the usage record. The environment, the clock (in Unix seconds)
      and the random event id are parameters. */
  method LogEntry(persister: Persister, sampler: FileBasedSampler, fs: FileSystem,
                  env: map<string, string>, nowUnix: int, id: string)
    returns (r: Outcome<NetworkIOLogEntry>)
    modifies persister, fs
    ensures r == LogEntryResult(old(persister.store), sampler.Sampled(fs.files), env, nowUnix, id)
    ensures persister.store == LogEntryStore(old(persister.store), sampler.Sampled(fs.files))
    ensures fs.opens == old(fs.opens) + (if Openable(fs.files, sampler.uri) then 1 else 0)
    ensures fs.closes - old(fs.closes) == fs.opens - old(fs.opens)
  {
    var stored := persister.Get(LAST_COUNT_KEY);
    var lastCount: uint64 := 0;
    if stored.Some? {
      var counter := ParseUint(stored.value);
      lastCount := counter.value;
    }
    var samp, _ := sampler.Sample(fs);
    if samp.Panicked? {
      return Panicked(samp.reason);
    }
    persister.Set(LAST_COUNT_KEY, FormatUint(samp.value));
    var who := EnvIdentity(env);
    var ts := nowUnix * 1000;
    var evt := Delta(samp.value, lastCount);
    r := Returned(MakeEntry(id, ts, who, evt), None);
  }

  /** Two consecutive ticks with samples `a` then `b` report `b - a`
      modulo 2^64 on the second, because the first stores `a` in a form the
      second parses back exactly. */
  lemma LogEntryTwice(store: map<string, string>, a: uint64, ea: Option<string>, b: uint64, eb: Option<string>,
                      env: map<string, string>, t: int, id: string)
    ensures var store1 := LogEntryStore(store, Returned(a, ea));
      var r := LogEntryResult(store1, Returned(b, eb), env, t, id);
      r.Returned? && r.value.events[0].usageBytes == Sub64(b, a)
  {
    ConsecutiveDeltas(store, LAST_COUNT_KEY, a, b);
  }

  /** On the first tick nothing is stored, so the whole sample is
      reported. */
  lemma LogEntryFirstTick(store: map<string, string>, samp: uint64, env: map<string, string>, t: int, id: string)
    requires LAST_COUNT_KEY !in store
    ensures LogEntryResult(store, Returned(samp, None), env, t, id).value.events[0].usageBytes == samp
  {
  }

  /** A sampler that fails is not noticed: its 0 is stored as "0" and the
      delta is 0 minus the baseline, wrapped. */
  lemma LogEntryFailedSample(store: map<string, string>, e: string, env: map<string, string>, t: int, id: string)
    ensures LogEntryStore(store, Returned(0, Some(e)))[LAST_COUNT_KEY] == "0"
    ensures LogEntryResult(store, Returned(0, Some(e)), env, t, id).value.events[0].usageBytes
         == Sub64(0, Baseline(store, LAST_COUNT_KEY))
  {
    assert FormatUint(0) == [DigitChar(0)];
  }

  /** A stored count that is not a number reads as the baseline 0. */
  lemma LogEntryGarbageBaseline(store: map<string, string>)
    requires LAST_COUNT_KEY in store && store[LAST_COUNT_KEY] != [] && !IsDigit(store[LAST_COUNT_KEY][0])
    ensures Baseline(store, LAST_COUNT_KEY) == 0
  {
    ParseLeadingNonDigit(store[LAST_COUNT_KEY]);
  }

  /** A counter that went down (say 1000 stored, 400 sampled) is reported
      as a huge wrapped delta, 2^64 - 600, not as zero. */
  lemma LogEntryCounterReset(env: map<string, string>, t: int, id: string)
    ensures var store := map[LAST_COUNT_KEY := "1000"];
      LogEntryResult(store, Returned(400, None), env, t, id).value.events[0].usageBytes
        == UINT64_MODULUS - 600
  {
    assert "1000"[..3] == "100" && "100"[..2] == "10" && "10"[..1] == "1";
    assert DigitsValue("1000") == 1000;
  }

  // ---------------------------------------------------------------------
  // SamplerEmitterFactory

  /** The rotating log file the file-logger emitter writes to. */
  datatype LumberjackLogger = LumberjackLogger(filename: string, maxSize: int, maxBackups: int)

  /** The two emitters. The pipeline emitter holds a copy of the log
      emitter (`E`) and the file input (`I`) it forwards to. */
  datatype SamplerEmitter<E, I> =
    | FileLoggerSamplerEmitter(uri: string, metricsLogger: LumberjackLogger,
                               persister: Persister, sampler: FileBasedSampler)
    | PipelineConsumerSamplerEmitter(emitter: E, persister: Persister,
                                     sampler: FileBasedSampler, input: I)

  /** The panic of dereferencing a nil pointer. */
  const NIL_DEREFERENCE: string := "runtime error: invalid memory address or nil pointer dereference"

  /** `SamplerEmitterFactory`: dispatches on the output type. Both emitters
      sample /proc/net/dev with the default scraper. The file logger gets a
      rotating log at `uri` and, in its URI field, the output type itself;
      the pipeline emitter copies the log emitter it is handed, which
      panics when that pointer is nil. Any other output type is an error
      and no emitter. */
  function SamplerEmitterFactory<E, I>(output: string, uri: string, persister: Persister,
                                       emitter: Option<E>, input: I)
    : (r: Outcome<Option<SamplerEmitter<E, I>>>)
    ensures r.Returned? ==> (r.value.Some? <==> r.err.None?)
    ensures r.Returned? && r.value.Some? ==>
      r.value.value.sampler.uri == PROC_NET_DEV && r.value.value.persister == persister
    ensures r.Panicked? <==> output == PIPELINE_EMITTER_OUTPUT && emitter.None?
    ensures output != FILE_LOGGER_OUTPUT && output != PIPELINE_EMITTER_OUTPUT ==>
      r == Returned(None, Some("unknown output type: " + output))
  {
    var sampler := ProcNetDevSampler();
    if output == FILE_LOGGER_OUTPUT then
      Returned(Some(FileLoggerSamplerEmitter(output, LumberjackLogger(uri, 100, 20), persister, sampler)), None)
    else if output == PIPELINE_EMITTER_OUTPUT then
      if emitter.None? then Panicked(NIL_DEREFERENCE)
      else Returned(Some(PipelineConsumerSamplerEmitter(emitter.value, persister, sampler, input)), None)
    else
      Returned(None, Some("unknown output type: " + output))
  }

  /** The factory accepts exactly the two known output types, and the
      emitter it builds is the one the output names; any other output type
      is an error, whether or not a log emitter was handed in. */
  lemma FactoryDispatch<E, I>(output: string, uri: string, persister: Persister, emitter: Option<E>, input: I)
    ensures var r := SamplerEmitterFactory(output, uri, persister, emitter, input);
      output != PIPELINE_EMITTER_OUTPUT || emitter.Some? ==>
        r.Returned?
        && (r.err.None? <==> output == FILE_LOGGER_OUTPUT || output == PIPELINE_EMITTER_OUTPUT)
        && (r.err.None? ==>
              (r.value.value.FileLoggerSamplerEmitter? <==> output == FILE_LOGGER_OUTPUT))
        && (r.err.Some? ==> r.err.value == "unknown output type: " + output)
    ensures var r := SamplerEmitterFactory(output, uri, persister, emitter, input);
      output != FILE_LOGGER_OUTPUT && output != PIPELINE_EMITTER_OUTPUT ==>
        r == Returned(None, Some("unknown output type: " + output))
  {
  }

  /** The file logger rotates its log at `uri` (at 100 kilobytes, keeping
      20 backups), and its scraper is the default one. */
  lemma FileLoggerSetup<E, I>(uri: string, persister: Persister, emitter: Option<E>, input: I, data: string)
    ensures var r := SamplerEmitterFactory<E, I>(FILE_LOGGER_OUTPUT, uri, persister, emitter, input);
      r.Returned? && r.value.Some?
      && r.value.value.metricsLogger == LumberjackLogger(uri, 100, 20)
      && r.value.value.sampler.scraper(data) == NewDefault().Stats(data)
  {
  }
}
