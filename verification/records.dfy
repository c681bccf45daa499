/** The API records: the cache status reply and the conversion between `DateTime` and
    Unix-epoch milliseconds. */
module Records {
  import opened Wrappers

  /** A `DateTime` counts ticks of 100 nanoseconds from 0001-01-01T00:00:00; the model
      keeps UTC instants only. */
  datatype DateTime = DateTime(ticks: int)

  const TicksPerMillisecond: int := 10_000
  const TicksPerSecond: int := 10_000_000

  /** `DateTime.MinValue` */
  const MinValue: DateTime := DateTime(0)

  /** 1970-01-01T00:00:00Z */
  const Epoch: DateTime := DateTime(621_355_968_000_000_000)

  /** The `(long)` cast of a `double`, which truncates toward zero, applied to the exact
      quotient `n / d`. */
  function TruncatingDiv(n: int, d: int): (q: int)
    requires d > 0
    ensures n >= 0 ==> 0 <= q && q * d <= n < (q + 1) * d
    ensures n < 0 ==> q <= 0 && (q - 1) * d < n <= q * d
  {
    if n >= 0 then n / d else -((-n) / d)
  }

  /** `ToEpoch`: whole milliseconds from the epoch to `t`, truncated toward the epoch. */
  function ToEpoch(t: DateTime): (ms: int)
    ensures t.ticks >= Epoch.ticks ==>
      0 <= ms && ms * TicksPerMillisecond <= t.ticks - Epoch.ticks < (ms + 1) * TicksPerMillisecond
    ensures t.ticks < Epoch.ticks ==>
      ms <= 0 && (ms - 1) * TicksPerMillisecond < t.ticks - Epoch.ticks <= ms * TicksPerMillisecond
  {
    TruncatingDiv(t.ticks - Epoch.ticks, TicksPerMillisecond)
  }

  /** `FromEpoch`: the epoch plus `ms` milliseconds; converting back with `ToEpoch` gives
      the same milliseconds. */
  function FromEpoch(ms: int): (t: DateTime)
    ensures ToEpoch(t) == ms
  {
    var t := DateTime(Epoch.ticks + ms * TicksPerMillisecond);
    var q := ToEpoch(t);
    if ms >= 0 then
      assert q * TicksPerMillisecond <= ms * TicksPerMillisecond < (q + 1) * TicksPerMillisecond;
      t
    else
      assert (q - 1) * TicksPerMillisecond < ms * TicksPerMillisecond <= q * TicksPerMillisecond;
      t
  }

  lemma EpochIsZero()
    ensures ToEpoch(Epoch) == 0
    ensures FromEpoch(0) == Epoch
  {
  }

  /** A later instant never gives fewer milliseconds. */
  lemma ToEpochMonotone(a: DateTime, b: DateTime)
    requires a.ticks <= b.ticks
    ensures ToEpoch(a) <= ToEpoch(b)
  {
  }

  /** Sub-millisecond ticks are dropped: back as an instant, the milliseconds lie less
      than one millisecond from `t`, on the side of the epoch. */
  lemma ToEpochDropsSubMilliseconds(t: DateTime)
    ensures var back := FromEpoch(ToEpoch(t)).ticks;
      if t.ticks >= Epoch.ticks then back <= t.ticks < back + TicksPerMillisecond
      else t.ticks <= back < t.ticks + TicksPerMillisecond
  {
  }

  /** `CacheStatusResponse` */
  datatype CacheStatusResponse = CacheStatusResponse(
    cacheId: Option<string>,
    totalFiles: int,
    backedUpFiles: int,
    totalFileSize: int,
    backedUpFileSize: int,
    backingUp: bool)

  /** A `CacheStatusResponse` as constructed: no id, nothing counted, not backing up. */
  function NewCacheStatusResponse(): CacheStatusResponse
  {
    CacheStatusResponse(None, 0, 0, 0, 0, false)
  }
}
