// Queries over the live table and the archive as if they were one: internal/archive/history.go.
module History {
  import opened Sequences
  import opened Trades
  import opened Candles
  import opened Intervals
  import opened Queries
  import opened Catalog
  import opened ColdCandles

  datatype Store = Store(live: seq<Trade>, files: map<int, seq<Trade>>)

  /** Whether an archive directory is configured, and how many days the live table is kept. */
  datatype Config = Config(archiving: bool, retentionDays: int)

  predicate ArchiveActive(c: Config) {
    c.archiving && c.retentionDays > 0
  }

  function OrZero(time: Option<int>): int {
    if time.None? then ZERO_TIME else time.value
  }

  // -------------------------------------------------------------------------------------------------
  // Candles

  /** Midnight after the newest archived day. The live table owns the bars from there on. */
  ghost function Split(files: map<int, seq<Trade>>): int
    requires files != map[]
  {
    (Latest(files.Keys) + 1) * DAY
  }

  lemma SplitIsNotZero(day: int)
    ensures (day + 1) * DAY - 1 != ZERO_TIME
  {
  }

  function LiveFilter(f: CandleFilter, split: int): CandleFilter {
    f.(from := Some(if f.from.Some? && f.from.value > split then f.from.value else split), fill := false,
       limit := ClampLimit(f.limit))
  }

  function HotBars(live: seq<Trade>, f: CandleFilter, split: int, secs: nat, limit: nat): seq<Candle>
    requires secs > 0
  {
    if f.to.None? || f.to.value >= split then Take(Bars(By(secs), Filter(LiveRows(LiveFilter(f, split)), live)), limit)
    else []
  }

  /** The upper bound for the archive: the last nanosecond before the split, unless the query ends earlier. */
  function ColdTo(to: Option<int>, split: int): int {
    if to.Some? && to.value < split - 1 then to.value else split - 1
  }

  /** What the archive is asked for. */
  function ColdFilter(f: CandleFilter, split: int, secs: nat): Trade -> bool
    requires secs > 0
  {
    ColdRows(f.locate, OrZero(f.from), ColdTo(f.to, split), By(secs), f.before)
  }

  ghost function ColdBars(files: map<int, seq<Trade>>, f: CandleFilter, split: int, secs: nat, room: nat): seq<Candle>
    requires secs > 0
  {
    if room > 0 && (f.from.None? || f.from.value < split) then
      Take(Bars(By(secs), Filter(ColdFilter(f, split, secs), Cold(files))), room)
    else []
  }

  ghost function MergedBars(store: Store, f: CandleFilter, secs: nat, limit: nat): seq<Candle>
    requires secs > 0 && store.files != map[]
  {
    var split := Split(store.files);
    var hot := HotBars(store.live, f, split, secs, limit);
    hot + ColdBars(store.files, f, split, secs, limit - |hot|)
  }

  function Finished(bars: seq<Candle>, f: CandleFilter, secs: nat, limit: nat): seq<Candle>
    requires secs > 0
  {
    Take(if f.fill then Fill(bars, f, secs, limit) else bars, limit)
  }

  /** The answer to a candle query. */
  ghost function HistoryPage(store: Store, c: Config, f: CandleFilter): Result<seq<Candle>> {
    if !ArchiveActive(c) then LivePage(store.live, f)
    else
      match IntervalSeconds(f.interval)
      case None => Err("unsupported interval: " + f.interval)
      case Some(secs) =>
        if store.files == map[] then LivePage(store.live, f)
        else Ok(Finished(MergedBars(store, f, secs, ClampLimit(f.limit)), f, secs, ClampLimit(f.limit)))
  }

  method QueryCandles(store: Store, c: Config, f: CandleFilter) returns (r: Result<seq<Candle>>)
    requires DayFiles(store.files) && (f.to == Some(ZERO_TIME) ==> InYears(store.files))
    ensures r == HistoryPage(store, c, f)
    ensures !c.archiving || c.retentionDays <= 0 || (store.files == map[] && IntervalSeconds(f.interval).Some?) ==>
              r == LivePage(store.live, f)
    ensures c.archiving && c.retentionDays > 0 && store.files != map[] && IntervalSeconds(f.interval).Some? ==>
              var secs := IntervalSeconds(f.interval).value;
              r == Ok(Finished(MergedBars(store, f, secs, ClampLimit(f.limit)), f, secs, ClampLimit(f.limit)))
    ensures IntervalSeconds(f.interval).None? ==> r.Err?
  {
    if !ArchiveActive(c) {
      r := LiveCandles(store.live, f);
      return;
    }
    var interval := IntervalSeconds(f.interval);
    if interval.None? {
      return Err("unsupported interval: " + f.interval);
    }
    var secs := interval.value;
    var limit := ClampLimit(f.limit);
    var bounds := Bounds(store.files);
    if bounds.None? {
      r := LiveCandles(store.live, f);
      return;
    }
    LatestIsUnique(store.files.Keys, bounds.value.1);
    var split := (bounds.value.1 + 1) * DAY;
    SplitIsNotZero(bounds.value.1);
    var merged := QueryBoth(store, f, split, secs, limit);
    r := Ok(merged);
  }

  /** The page of bars from both stores. */
  method QueryBoth(store: Store, f: CandleFilter, split: int, secs: nat, limit: nat) returns (merged: seq<Candle>)
    requires DayFiles(store.files) && (f.to == Some(ZERO_TIME) ==> InYears(store.files)) && split - 1 != ZERO_TIME
    requires IntervalSeconds(f.interval) == Some(secs) && limit == ClampLimit(f.limit)
    requires store.files != map[] && split == Split(store.files)
    ensures merged == Finished(MergedBars(store, f, secs, limit), f, secs, limit)
  {
    merged := QueryLive(store.live, f, split, secs, limit);
    var cold := QueryArchive(store.files, f, split, secs, limit - |merged|);
    merged := merged + cold;
    assert merged == MergedBars(store, f, secs, limit);
    if f.fill {
      merged := FillCandles(merged, f, secs, limit);
    }
    if |merged| > limit {
      merged := merged[..limit];
    }
  }

  /** Live bars: the bucket starts at or after the split. */
  method QueryLive(live: seq<Trade>, f: CandleFilter, split: int, secs: nat, limit: nat) returns (hot: seq<Candle>)
    requires IntervalSeconds(f.interval) == Some(secs) && limit == ClampLimit(f.limit)
    ensures hot == HotBars(live, f, split, secs, limit) && |hot| <= limit
  {
    hot := [];
    if f.to.None? || f.to.value >= split {
      var liveFrom := split;
      if f.from.Some? && f.from.value > split {
        liveFrom := f.from.value;
      }
      var r := LiveCandles(live, f.(from := Some(liveFrom), fill := false, limit := limit));
      hot := r.value;
    }
  }

  /** Archived bars, when there is room left on the page: the bucket starts before the split. */
  method QueryArchive(files: map<int, seq<Trade>>, f: CandleFilter, split: int, secs: nat, room: nat)
      returns (cold: seq<Candle>)
    requires DayFiles(files) && (f.to == Some(ZERO_TIME) ==> InYears(files)) && split - 1 != ZERO_TIME
    requires IsInterval(secs) && room <= MAX_LIMIT
    ensures cold == ColdBars(files, f, split, secs, room)
  {
    cold := [];
    if 0 < room && (f.from.None? || f.from.value < split) {
      var archiveTo := split - 1;
      if f.to.Some? && f.to.value < archiveTo {
        archiveTo := f.to.value;
      }
      var archiveFrom := ZERO_TIME;
      if f.from.Some? {
        archiveFrom := f.from.value;
      }
      assert archiveFrom == OrZero(f.from) && archiveTo == ColdTo(f.to, split);
      var r := ReadCandles(files, f.locate, archiveFrom, archiveTo, secs, room, f.before);
      assert r == Ok(Take(Bars(By(secs), Filter(ColdFilter(f, split, secs), Cold(files))), room));
      cold := r.value;
    }
  }
}
