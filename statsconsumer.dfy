/** The stats consumer's configuration: `Build` validates `start_at` and
    makes a manager that polls at the configured interval. */
module StatsConsumer {
  import opened Base

  const START_AT_BEGINNING: string := "beginning"
  const START_AT_END: string := "end"

  /** The configuration: the poll interval (a duration, in nanoseconds)
      and where to start. */
  datatype Config = Config(pollInterval: int, startAt: string)

  /** The manager `Build` makes: the telemetry settings (`S`), the poll
      interval and whether to start from the beginning. */
  datatype Manager<S> = Manager(settings: S, pollInterval: int, fromBeginning: bool)

  /** `Config.Build`: "beginning" and "end" are the only accepted
      positions; the emit callback it is handed is not kept. */
  function Build<S, E>(c: Config, settings: S, emit: E): (r: Result<Manager<S>>)
    ensures r.Ok? <==> c.startAt == START_AT_BEGINNING || c.startAt == START_AT_END
    ensures r.Ok? ==> (r.value.fromBeginning <==> c.startAt == START_AT_BEGINNING)
    ensures r.Ok? ==> r.value.pollInterval == c.pollInterval && r.value.settings == settings
    ensures r.Err? ==> r.error == "invalid start_at location '" + c.startAt + "'"
  {
    if c.startAt == START_AT_BEGINNING then Ok(Manager(settings, c.pollInterval, true))
    else if c.startAt == START_AT_END then Ok(Manager(settings, c.pollInterval, false))
    else Err("invalid start_at location '" + c.startAt + "'")
  }

  /** The position a manager starts at, written back as configuration
      text. */
  function StartAtOf<S>(m: Manager<S>): string {
    if m.fromBeginning then START_AT_BEGINNING else START_AT_END
  }

  /** Building is lossless: the manager's start position gives back the
      configured `start_at`, and a rejected value is never one of the two
      positions a manager can have. */
  lemma BuildRoundTrip<S, E>(c: Config, settings: S, emit: E)
    ensures Build(c, settings, emit).Ok? ==> StartAtOf(Build(c, settings, emit).value) == c.startAt
    ensures forall m: Manager<S> :: Build(c, settings, emit).Err? ==> StartAtOf(m) != c.startAt
  {
  }

  /** The empty `start_at` is rejected, not defaulted. */
  lemma BuildRejectsEmpty<S, E>(interval: int, settings: S, emit: E)
    ensures Build(Config(interval, ""), settings, emit) == Err("invalid start_at location ''")
  {
  }

  /** Which emit callback is passed makes no difference to the result. */
  lemma BuildIgnoresEmit<S, E>(c: Config, settings: S, e1: E, e2: E)
    ensures Build(c, settings, e1) == Build(c, settings, e2)
  {
  }
}
