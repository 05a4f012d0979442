/** Time as whole seconds since the Unix epoch, in UTC. The pages build a
    window start as "today's UTC midnight minus N days". */
module Clock {
  import opened Results

  const SecondsPerDay: int := 86400

  /** `pd.Timestamp.now(tz=UTC).normalize()`: the midnight that starts the
      current UTC day. */
  function MidnightUtc(now: int): (m: int)
    ensures m <= now < m + SecondsPerDay
    ensures m % SecondsPerDay == 0
  {
    now - now % SecondsPerDay
  }

  /** `today - timedelta(days=days)`: the midnight that starts the UTC day
      `days` days before the current one. */
  function WindowStart(now: int, days: nat): (start: int)
    ensures start % SecondsPerDay == 0
    ensures start <= now - days * SecondsPerDay < start + SecondsPerDay
  {
    MidnightUtc(now) - days * SecondsPerDay
  }

  /** A longer window starts no later than a shorter one. */
  lemma WindowStartAntitone(now: int, shorter: nat, longer: nat)
    requires shorter <= longer
    ensures WindowStart(now, longer) <= WindowStart(now, shorter)
  {
  }

  /** `horizon_map[periode_label]`. The pills widget gives `None` once the
      user deselects the current pill, and a key outside the map raises
      `KeyError`. */
  function HorizonDays(horizons: map<string, nat>, pill: Option<string>): (r: Result<nat>)
    ensures r.Ok? <==> pill.Some? && pill.value in horizons
    ensures r.Ok? ==> r.value == horizons[pill.value]
    ensures r.Err? ==> r.error == KeyError
  {
    if pill.Some? && pill.value in horizons then Ok(horizons[pill.value]) else Err(KeyError)
  }

  /** `start_date = today - timedelta(days=horizon_map[periode_label])`. */
  function PeriodStart(now: int, horizons: map<string, nat>, pill: Option<string>): (r: Result<int>)
    ensures r.Ok? <==> pill.Some? && pill.value in horizons
    ensures r.Ok? ==> r.value == WindowStart(now, horizons[pill.value])
    ensures r.Err? ==> r.error == KeyError
  {
    match HorizonDays(horizons, pill)
    case Ok(days) => Ok(WindowStart(now, days))
    case Err(e) => Err(e)
  }
}
