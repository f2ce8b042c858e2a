/**
 * The live position slot `current_gps` and the background poller that
 * rewrites it once per tick. The lock around each tick only makes the tick
 * atomic, so one tick is one call of a sequential method.
 */
module LiveGps {
  import opened Wrappers
  import opened PyJson
  import Location

  /** The whole slot, as the read endpoint serialises it. */
  datatype Snapshot = Snapshot(
    latitude: Json,
    longitude: Json,
    accuracy: Json,
    speed: Json,
    altitude: Json,
    bearing: Json,
    provider: Json,
    timestamp: Json,
    available: bool)

  /** The slot at process start: every reading field None and unavailable. */
  const Initial: Snapshot :=
    Snapshot(JNull, JNull, JNull, JNull, JNull, JNull, JNull, JNull, false)

  /** The reading fields of a slot, with the availability flag blanked out. */
  function Fields(s: Snapshot): Snapshot {
    s.(available := false)
  }

  /** `if gps_data:` — a reading counts when it is a non-empty dict. */
  predicate Succeeded(reading: Option<Object>) {
    reading.Some? && |reading.value| > 0
  }

  /** The record a successful tick builds from the provider's object and the tick's time. */
  function Fresh(d: Object, now: string): (s: Snapshot)
    ensures s.available && s.timestamp == JStr(now)
    ensures s.latitude == Get(d, "latitude") && s.longitude == Get(d, "longitude")
    ensures "accuracy" in d ==> s.accuracy == d["accuracy"]
    ensures "accuracy" !in d ==> s.accuracy == JInt(0)
    ensures "speed" in d ==> s.speed == d["speed"]
    ensures "speed" !in d ==> s.speed == JInt(0)
    ensures "altitude" in d ==> s.altitude == d["altitude"]
    ensures "altitude" !in d ==> s.altitude == JInt(0)
    ensures "bearing" in d ==> s.bearing == d["bearing"]
    ensures "bearing" !in d ==> s.bearing == JNull
    ensures "provider" in d ==> s.provider == d["provider"]
    ensures "provider" !in d ==> s.provider == JStr("unknown")
  {
    Snapshot(
      latitude := Get(d, "latitude"),
      longitude := Get(d, "longitude"),
      accuracy := GetOr(d, "accuracy", JInt(0)),
      speed := GetOr(d, "speed", JInt(0)),
      altitude := GetOr(d, "altitude", JInt(0)),
      bearing := GetOr(d, "bearing", JNull),
      provider := GetOr(d, "provider", JStr("unknown")),
      timestamp := JStr(now),
      available := true)
  }

  /** One tick applied to the slot's value. */
  function Apply(s: Snapshot, reading: Option<Object>, now: string): (t: Snapshot)
    ensures t.available <==> Succeeded(reading)
    ensures Succeeded(reading) ==> t == Fresh(reading.value, now)
    ensures !Succeeded(reading) ==> Fields(t) == Fields(s)
  {
    if Succeeded(reading) then Fresh(reading.value, now) else s.(available := false)
  }

  datatype Tick = Tick(reading: Option<Object>, now: string)

  /** The slot after the given ticks, in order, starting from `s`. */
  function Replay(s: Snapshot, ticks: seq<Tick>): Snapshot
    decreases |ticks|
  {
    if ticks == [] then s
    else
      var last := ticks[|ticks| - 1];
      Apply(Replay(s, ticks[..|ticks| - 1]), last.reading, last.now)
  }

  /** The position of the last tick that delivered a reading, if any did. */
  function LatestFix(ticks: seq<Tick>): (k: Option<nat>)
    ensures k.Some? ==> k.value < |ticks| && Succeeded(ticks[k.value].reading)
    ensures k.Some? ==> forall j :: k.value < j < |ticks| ==> !Succeeded(ticks[j].reading)
    ensures k.None? ==> forall j :: 0 <= j < |ticks| ==> !Succeeded(ticks[j].reading)
    decreases |ticks|
  {
    if ticks == [] then None
    else if Succeeded(ticks[|ticks| - 1].reading) then Some(|ticks| - 1)
    else LatestFix(ticks[..|ticks| - 1])
  }

  /**
   * Last write wins: after any ticks the reading fields are exactly those of
   * the last successful tick (or the starting ones if there was none), and the
   * slot is available exactly when the last tick succeeded.
   */
  lemma {:induction false} LastWriteWins(s: Snapshot, ticks: seq<Tick>)
    ensures Replay(s, ticks).available ==
      (if ticks == [] then s.available else Succeeded(ticks[|ticks| - 1].reading))
    ensures Fields(Replay(s, ticks)) ==
      match LatestFix(ticks)
      case None => Fields(s)
      case Some(k) => Fields(Fresh(ticks[k].reading.value, ticks[k].now))
    decreases |ticks|
  {
    if ticks != [] {
      var init := ticks[..|ticks| - 1];
      LastWriteWins(s, init);
    }
  }

  /**
   * No torn reads: whatever the ticks, the reading fields a reader sees are
   * either the initial ones or all come from one single successful tick.
   */
  lemma {:induction false} NeverTorn(ticks: seq<Tick>)
    ensures Fields(Replay(Initial, ticks)) == Initial ||
      exists k :: 0 <= k < |ticks| && Succeeded(ticks[k].reading) &&
        Fields(Replay(Initial, ticks)) == Fields(Fresh(ticks[k].reading.value, ticks[k].now))
  {
    LastWriteWins(Initial, ticks);
  }

  /** Until some tick succeeds, every reading field stays None. */
  lemma {:induction false} NoneUntilFirstFix(ticks: seq<Tick>)
    requires forall j :: 0 <= j < |ticks| ==> !Succeeded(ticks[j].reading)
    ensures Fields(Replay(Initial, ticks)) == Initial
    ensures !Replay(Initial, ticks).available
  {
    LastWriteWins(Initial, ticks);
  }

  /** A failed tick keeps the last fix's coordinates while reporting it unavailable. */
  lemma StaleAfterFailure(s: Snapshot, d: Object, now: string, failures: seq<Tick>)
    requires |d| > 0
    requires |failures| > 0
    requires forall j :: 0 <= j < |failures| ==> !Succeeded(failures[j].reading)
    ensures var t := Replay(s, [Tick(Some(d), now)] + failures);
      !t.available && t.latitude == Get(d, "latitude") && t.longitude == Get(d, "longitude")
  {
    var ticks := [Tick(Some(d), now)] + failures;
    LastWriteWins(s, ticks);
    assert LatestFix(ticks) == Some(0) by {
      assert Succeeded(ticks[0].reading);
    }
  }

  /** One poller tick's inputs: the platform check, both providers' outcomes and the clock. */
  datatype Sample = Sample(
    termux: bool,
    gps: Location.ProviderOutcome,
    network: Location.ProviderOutcome,
    now: string)

  /** Fix acquisition on one sample's inputs. */
  function Acquired(x: Sample): Option<Object> {
    Location.Acquire(x.termux, x.gps, x.network)
  }

  /** The ticks the poller performs for the given samples; each reading it passes on has passed the screen. */
  function Observe(samples: seq<Sample>): (ticks: seq<Tick>)
    ensures |ticks| == |samples|
    ensures forall i :: 0 <= i < |samples| ==> ticks[i] == Tick(Acquired(samples[i]), samples[i].now)
    ensures forall i :: 0 <= i < |ticks| && ticks[i].reading.Some? ==>
      Location.Screen(ticks[i].reading.value) == Location.Accept && Succeeded(ticks[i].reading)
  {
    seq(|samples|, i requires 0 <= i < |samples| => Tick(Acquired(samples[i]), samples[i].now))
  }

  /**
   * The slot only ever shows a fix that passed the screen: from process
   * start, its reading fields are either all None or are the record built from
   * an object one of the ticks acquired and accepted, at that tick's time.
   */
  lemma SlotShowsOnlyScreenedFixes(samples: seq<Sample>)
    ensures var s := Replay(Initial, Observe(samples));
      Fields(s) == Initial ||
      exists k :: 0 <= k < |samples| && Acquired(samples[k]).Some? &&
        var d := Acquired(samples[k]).value;
        Location.Screen(d) == Location.Accept &&
        s.latitude == d["latitude"] && s.longitude == d["longitude"] &&
        Fields(s) == Fields(Fresh(d, samples[k].now))
  {
    var ticks := Observe(samples);
    LastWriteWins(Initial, ticks);
    match LatestFix(ticks)
    case None =>
    case Some(k) =>
      assert ticks[k] == Tick(Acquired(samples[k]), samples[k].now);
  }

  /** The global slot `current_gps`, guarded by `gps_lock`. */
  class GpsSlot {
    var current: Snapshot

    constructor ()
      ensures current == Initial
    {
      current := Initial;
    }

    /** The body of one `gps_updater` iteration, given the reading it obtained. */
    method Tick(reading: Option<Object>, now: string)
      modifies this
      ensures Succeeded(reading) ==> current == Fresh(reading.value, now)
      ensures !Succeeded(reading) ==> current == old(current).(available := false)
    {
      if Succeeded(reading) {
        current := Fresh(reading.value, now);
      } else {
        current := current.(available := false);
      }
    }

    /** The first |samples| iterations of `gps_updater`'s loop. */
    method Poll(samples: seq<Sample>)
      modifies this
      ensures current == Replay(old(current), Observe(samples))
    {
      ghost var start := current;
      ghost var ticks := Observe(samples);
      var i := 0;
      while i < |samples|
        invariant 0 <= i <= |samples|
        invariant current == Replay(start, ticks[..i])
      {
        var sample := samples[i];
        var reading := Location.Acquire(sample.termux, sample.gps, sample.network);
        Tick(reading, sample.now);
        assert ticks[..i + 1][..i] == ticks[..i];
        i := i + 1;
      }
      assert ticks[..|samples|] == ticks;
    }
  }
}
