/** What both delta emitters share: the key/value persister that keeps the
    last observed counter between ticks, and the usage record they emit. */
module Usage {
  import opened Base
  import opened Strconv

  /** The value stored under `key`, if any. */
  function Lookup(store: map<string, string>, key: string): (v: Option<string>)
    ensures v.Some? <==> key in store
    ensures v.Some? ==> v.value == store[key]
  {
    if key in store then Some(store[key]) else None
  }

  /** The operator's persister: a store of byte strings by key, updated in
      place. */
  class Persister {
    var store: map<string, string>

    constructor (store: map<string, string>)
      ensures this.store == store
    {
      this.store := store;
    }

    /** `Get`: the stored bytes, or nil when the key was never set. */
    method Get(key: string) returns (v: Option<string>)
      ensures v == Lookup(store, key)
    {
      if key in store {
        v := Some(store[key]);
      } else {
        v := None;
      }
    }

    /** `Set`: overwrites the value under `key` and nothing else. */
    method Set(key: string, value: string)
      modifies this
      ensures store == old(store)[key := value]
    {
      store := store[key := value];
    }
  }

  /** The baseline a delta is taken against: 0 when nothing is stored,
      otherwise whatever `ParseUint` makes of the stored text (its fallback
      value when the text does not parse). */
  function LastCount(stored: Option<string>): (n: uint64)
    ensures stored.None? ==> n == 0
    ensures stored.Some? && ParseUint(stored.value).err.None? ==> n == DigitsValue(stored.value)
  {
    if stored.None? then 0 else ParseUint(stored.value).value
  }

  /** The usage a tick reports: the sample minus the baseline, wrapping
      around below zero. */
  function Delta(samp: uint64, last: uint64): (d: uint64)
    ensures Add64(d, last) == samp
  {
    SubThenAdd(samp, last);
    Sub64(samp, last)
  }

  /** A counter written as a decimal string is read back as the same
      counter. */
  lemma PersistedCountReadsBack(store: map<string, string>, key: string, samp: uint64)
    ensures LastCount(Lookup(store[key := FormatUint(samp)], key)) == samp
  {
    ParseFormat(samp);
  }

  /** The baseline an emitter reads from the store under `key`. */
  function Baseline(store: map<string, string>, key: string): uint64 {
    LastCount(Lookup(store, key))
  }

  /** The store after an emitter has written the sample under `key`. */
  function StoreSample(store: map<string, string>, key: string, samp: uint64): (s: map<string, string>)
    ensures s.Keys == store.Keys + {key}
    ensures s[key] == FormatUint(samp)
    ensures forall k :: k in store && k != key ==> s[k] == store[k]
    ensures Baseline(s, key) == samp
  {
    PersistedCountReadsBack(store, key, samp);
    store[key := FormatUint(samp)]
  }

  /** Two ticks in a row: after the first has stored sample `a`, the second
      reports `b - a` modulo 2^64, whatever was stored before. */
  lemma ConsecutiveDeltas(store: map<string, string>, key: string, a: uint64, b: uint64)
    ensures Delta(b, Baseline(StoreSample(store, key, a), key)) == Sub64(b, a)
    ensures b < a ==> Delta(b, Baseline(StoreSample(store, key, a), key)) == UINT64_MODULUS - (a - b)
  {
  }

  /** One event of the usage record. */
  datatype NetworkIOLogEntryEvent = NetworkIOLogEntryEvent(
    id: string,
    timestamp: int,
    rootOrgID: string,
    orgID: string,
    envID: string,
    assetID: string,
    workerID: string,
    usageBytes: uint64,
    billable: bool)

  /** The usage record an emitter produces (before JSON encoding). */
  datatype NetworkIOLogEntry = NetworkIOLogEntry(
    format: string,
    time: int,
    events: seq<NetworkIOLogEntryEvent>,
    metadata: map<string, string>)

  const FORMAT: string := "v1"
  const SCHEMA_ID: string := "schema_id"
  const NETWORK_SCHEMA_ID: string := "network_schema_id"

  /** The identity and billing fields of an event. */
  datatype Identity = Identity(
    orgID: string, envID: string, deploymentID: string, rootOrgID: string,
    workerID: string, billable: bool)

  /** The record both emitters build: format "v1", one event stamped with
      the same millisecond time as the record, the usage, and the schema
      metadata. The event carries the identity fields, with the deployment
      id as its asset id. */
  function MakeEntry(id: string, ts: int, who: Identity, usage: uint64): (e: NetworkIOLogEntry)
    ensures |e.events| == 1 && e.events[0].usageBytes == usage
    ensures e.format == FORMAT && e.time == ts && e.events[0].timestamp == ts
    ensures e.metadata == map[SCHEMA_ID := NETWORK_SCHEMA_ID]
    ensures e.events[0].id == id
    ensures e.events[0].orgID == who.orgID && e.events[0].envID == who.envID
    ensures e.events[0].assetID == who.deploymentID && e.events[0].rootOrgID == who.rootOrgID
    ensures e.events[0].workerID == who.workerID && e.events[0].billable == who.billable
  {
    var evt := NetworkIOLogEntryEvent(
      id, ts, who.rootOrgID, who.orgID, who.envID, who.deploymentID, who.workerID, usage, who.billable);
    NetworkIOLogEntry(FORMAT, ts, [evt], map[SCHEMA_ID := NETWORK_SCHEMA_ID])
  }
}
