/** The stanza input operator's `emit`: the same delta tick as `logEntry`,
    under the key "last_count", with fixed identity fields, a fixed sample
    path, and an entry written to the pipeline before the store is
    updated. */
module Input {
  import opened Base
  import opened Strconv
  import opened Scraper
  import opened Sampler
  import opened Usage

  const INPUT_LAST_COUNT_KEY: string := "last_count"

  /** The path `emit` samples, with the default scraper. */
  const INPUT_STATS_PATH: string := "/Users/fabian.gonzalez/logs"

  /** The identity fields, fixed in the code (the environment lookups are
      commented out there). */
  const FIXED_IDENTITY: Identity := Identity("org_id", "env_id", "deployment_id", "root_org_id", "worker-", true)

  /** The sampler `emit` builds on every call. */
  function InputSampler(): (s: FileBasedSampler)
    ensures s.uri == INPUT_STATS_PATH
    ensures forall data :: s.scraper(data) == NewDefault().Stats(data)
  {
    FileBasedSampler(INPUT_STATS_PATH, LinuxScraper(NewDefault()))
  }

  /** The side effects `emit` has outside its return value, in order. */
  datatype Effect = Wrote(entry: NetworkIOLogEntry) | Persisted(key: string, value: string)

  /** Whether the stored count is present but does not parse. */
  predicate StoredCountUnparsable(stored: map<string, string>) {
    INPUT_LAST_COUNT_KEY in stored && ParseUint(stored[INPUT_LAST_COUNT_KEY]).err.Some?
  }

  /** The entry `emit` writes when the sampler returns. */
  function InputEntry(stored: map<string, string>, samp: uint64, nowUnix: int, id: string): (e: NetworkIOLogEntry)
    ensures |e.events| == 1
    ensures e.events[0].usageBytes == Delta(samp, Baseline(stored, INPUT_LAST_COUNT_KEY))
    ensures e.events[0].workerID == "worker-" && e.events[0].billable
    ensures e.events[0].orgID == "org_id" && e.events[0].envID == "env_id"
    ensures e.events[0].assetID == "deployment_id" && e.events[0].rootOrgID == "root_org_id"
    ensures e.events[0].id == id && e.time == nowUnix * 1000
  {
    MakeEntry(id, nowUnix * 1000, FIXED_IDENTITY, Delta(samp, Baseline(stored, INPUT_LAST_COUNT_KEY)))
  }

  /** The effects of one `emit` call: none when the sampler panics or the
      entry cannot be created; otherwise the entry is written and then the
      sample is stored. */
  function EmitEffects(stored: map<string, string>, sample: Outcome<uint64>, nowUnix: int, id: string,
                       newEntryError: Option<string>): (fx: seq<Effect>)
    ensures sample.Panicked? || newEntryError.Some? ==> fx == []
    ensures sample.Returned? && newEntryError.None? ==>
      |fx| == 2 && fx[0].Wrote? && fx[1] == Persisted(INPUT_LAST_COUNT_KEY, FormatUint(sample.value))
  {
    if sample.Panicked? || newEntryError.Some? then []
    else [Wrote(InputEntry(stored, sample.value, nowUnix, id)),
          Persisted(INPUT_LAST_COUNT_KEY, FormatUint(sample.value))]
  }

  /** What `emit` returns: the sampler's panic, the wrapped entry-creation
      error, or nil. The sampler's own error is dropped. */
  function EmitResult(sample: Outcome<uint64>, newEntryError: Option<string>): (r: Outcome<()>)
    ensures r.Panicked? <==> sample.Panicked?
    ensures r.Returned? ==> (r.err.None? <==> newEntryError.None?)
  {
    if sample.Panicked? then Panicked(sample.reason)
    else if newEntryError.Some? then Returned((), Some("create entry: " + newEntryError.value))
    else Returned((), None)
  }

  /** The store after `emit`: the sample under "last_count" after a
      successful call, the old store otherwise. */
  function EmitStore(stored: map<string, string>, sample: Outcome<uint64>, newEntryError: Option<string>)
    : (s: map<string, string>)
    ensures sample.Panicked? || newEntryError.Some? ==> s == stored
    ensures sample.Returned? && newEntryError.None? ==> s == StoreSample(stored, INPUT_LAST_COUNT_KEY, sample.value)
  {
    if sample.Panicked? || newEntryError.Some? then stored
    else StoreSample(stored, INPUT_LAST_COUNT_KEY, sample.value)
  }

  /** The entries `emit` writes downstream: the one entry after a successful
      call, none otherwise. */
  function EmitWritten(stored: map<string, string>, sample: Outcome<uint64>, nowUnix: int, id: string,
                       newEntryError: Option<string>): (w: seq<NetworkIOLogEntry>)
    ensures |w| <= 1 && (|w| == 1 <==> sample.Returned? && newEntryError.None?)
    ensures |w| == 1 ==> |w[0].events| == 1 && w[0].events[0].usageBytes == Delta(sample.value, Baseline(stored, INPUT_LAST_COUNT_KEY))
  {
    if sample.Panicked? || newEntryError.Some? then []
    else [InputEntry(stored, sample.value, nowUnix, id)]
  }

  /** The input operator: what it has written downstream, what its logger
      has recorded, and (ghost) the trace of its side effects. */
  class Input {
    var written: seq<NetworkIOLogEntry>
    var log: seq<string>
    ghost var trace: seq<Effect>

    constructor ()
      ensures written == [] && log == [] && trace == []
    {
      written := [];
      log := [];
      trace := [];
    }

    /** `emit`: reads "last_count" (an unparsable value is logged as
        "Error" and its fallback used), samples the fixed path with the
        default scraper, builds the entry, writes it, and only then stores
        the sample. The clock, the event id and whether `NewEntry` fails
        are parameters. */
    method Emit(persister: Persister, fs: FileSystem, nowUnix: int, id: string, newEntryError: Option<string>)
      returns (r: Outcome<()>)
      modifies this, persister, fs
      ensures r == EmitResult(InputSampler().Sampled(fs.files), newEntryError)
      ensures trace == old(trace) + EmitEffects(old(persister.store), InputSampler().Sampled(fs.files), nowUnix, id, newEntryError)
      ensures persister.store == EmitStore(old(persister.store), InputSampler().Sampled(fs.files), newEntryError)
      ensures written == old(written) + EmitWritten(old(persister.store), InputSampler().Sampled(fs.files), nowUnix, id, newEntryError)
      ensures log == old(log) + (if StoredCountUnparsable(old(persister.store)) then ["Error"] else [])
      ensures fs.opens == old(fs.opens) + (if Openable(fs.files, INPUT_STATS_PATH) then 1 else 0)
      ensures fs.closes - old(fs.closes) == fs.opens - old(fs.opens)
    {
      r := EmitFrom(persister, fs, InputSampler(), nowUnix, id, newEntryError);
    }

    /** The steps of `emit`, for the sampler it builds. */
    method EmitFrom(persister: Persister, fs: FileSystem, basedSampler: FileBasedSampler,
                    nowUnix: int, id: string, newEntryError: Option<string>)
      returns (r: Outcome<()>)
      modifies this, persister, fs
      ensures r == EmitResult(basedSampler.Sampled(fs.files), newEntryError)
      ensures trace == old(trace) + EmitEffects(old(persister.store), basedSampler.Sampled(fs.files), nowUnix, id, newEntryError)
      ensures persister.store == EmitStore(old(persister.store), basedSampler.Sampled(fs.files), newEntryError)
      ensures written == old(written) + EmitWritten(old(persister.store), basedSampler.Sampled(fs.files), nowUnix, id, newEntryError)
      ensures log == old(log) + (if StoredCountUnparsable(old(persister.store)) then ["Error"] else [])
      ensures fs.opens == old(fs.opens) + (if Openable(fs.files, basedSampler.uri) then 1 else 0)
      ensures fs.closes - old(fs.closes) == fs.opens - old(fs.opens)
    {
      ghost var store0 := persister.store;
      var stored := persister.Get(INPUT_LAST_COUNT_KEY);
      var lastCount: uint64 := 0;
      if stored.Some? {
        var counter := ParseUint(stored.value);
        lastCount := counter.value;
        if counter.err.Some? {
          log := log + ["Error"];
        }
      }
      assert lastCount == Baseline(store0, INPUT_LAST_COUNT_KEY);
      assert log == old(log) + (if StoredCountUnparsable(store0) then ["Error"] else []);
      var samp, _ := basedSampler.Sample(fs);
      if samp.Panicked? {
        return Panicked(samp.reason);
      }
      assert Delta(samp.value, lastCount) == InputEntry(store0, samp.value, nowUnix, id).events[0].usageBytes;
      var e := MakeEntry(id, nowUnix * 1000, FIXED_IDENTITY, Delta(samp.value, lastCount));
      assert e == InputEntry(store0, samp.value, nowUnix, id);
      if newEntryError.Some? {
        return Returned((), Some("create entry: " + newEntryError.value));
      }
      written := written + [e];
      trace := trace + [Wrote(e)];
      lastCount := Add64(lastCount, 1);
      persister.Set(INPUT_LAST_COUNT_KEY, FormatUint(samp.value));
      trace := trace + [Persisted(INPUT_LAST_COUNT_KEY, FormatUint(samp.value))];
      r := Returned((), None);
    }
  }

  /** A successful `emit` stores the sample, not the delta and not the
      incremented local count: the next call reads the sample back as its
      baseline. The entry is written first, the store updated second. */
  lemma EmitStoresSample(stored: map<string, string>, samp: uint64, e: Option<string>, nowUnix: int, id: string)
    ensures var fx := EmitEffects(stored, Returned(samp, e), nowUnix, id, None);
      fx == [Wrote(InputEntry(stored, samp, nowUnix, id)), Persisted(INPUT_LAST_COUNT_KEY, FormatUint(samp))]
    ensures EmitStore(stored, Returned(samp, e), None)[INPUT_LAST_COUNT_KEY] == FormatUint(samp)
    ensures Baseline(EmitStore(stored, Returned(samp, e), None), INPUT_LAST_COUNT_KEY) == samp
  {
  }

  /** When the entry cannot be created nothing is written and the store is
      left as it was, so the next call measures from the same baseline. */
  lemma EmitEntryErrorKeepsBaseline(stored: map<string, string>, sample: Outcome<uint64>, nowUnix: int, id: string, err: string)
    requires sample.Returned?
    ensures EmitStore(stored, sample, Some(err)) == stored
    ensures EmitWritten(stored, sample, nowUnix, id, Some(err)) == []
    ensures EmitResult(sample, Some(err)) == Returned((), Some("create entry: " + err))
  {
  }

  /** Two successful calls with samples `a` then `b`: the second entry
      reports `b - a` modulo 2^64. */
  lemma EmitTwice(stored: map<string, string>, a: uint64, b: uint64, ea: Option<string>, eb: Option<string>,
                  t1: int, t2: int, id1: string, id2: string)
    ensures var store1 := EmitStore(stored, Returned(a, ea), None);
      EmitWritten(store1, Returned(b, eb), t2, id2, None)[0].events[0].usageBytes == Sub64(b, a)
  {
    ConsecutiveDeltas(stored, INPUT_LAST_COUNT_KEY, a, b);
  }
}
