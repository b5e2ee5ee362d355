/**
 The multi-rate request limiter of taiga/base/throttling.py.

 `Step` is the limiter as a function of the cache and one request; the class
 `CommonThrottle` is the limiter itself, and its method is proved to do what `Step` says.
 A run is the sequence of requests the limiter has served, in order, from an empty cache.
 The theorems at the end relate every answer of every run to a limiter that keeps an
 unbounded log of what it has allowed and has no cache at all.
 */
module Throttling {
  import opened Wrappers

  // -------------------------------------------------------------------------
  // Configuration and requests
  // -------------------------------------------------------------------------

  datatype Ident = UserId(id: int) | Address(ip: string)

  datatype Client = Client(scope: string, ident: Ident)

  datatype Request = Request(authenticated: bool, userId: int, ip: string, httpMethod: string, time: real)

  datatype Rate = Rate(name: string, limit: int, duration: int)

  /** What the settings may hold for a scope: nothing, one rate, a list of rates, or something else. */
  datatype RateSetting = Unlimited | Single(rate: string) | Several(rates: seq<string>) | Unsupported

  datatype ConfigError = NoSuchScope(scope: string) | UnsupportedSetting(scope: string) | MalformedRate(rate: string)

  /** `toInt` stands for Python's `int(...)` on strings, `whitelisted` for the CIDR and id comparison. */
  datatype Config = Config(
    rateSettings: map<string, RateSetting>,
    whitelisted: Ident -> bool,
    toInt: string -> Option<int>)

  function ScopeOf(req: Request): string {
    (if req.authenticated then "user" else "anon") + "-" +
    (if req.httpMethod in ["POST", "PUT", "PATCH", "DELETE"] then "write" else "read")
  }

  function ClientOf(req: Request): Client {
    Client(ScopeOf(req), if req.authenticated then UserId(req.userId) else Address(req.ip))
  }

  function Split(s: string, separator: char): seq<string> {
    if separator !in s then [s]
    else
      var i := IndexOf(s, separator);
      [s[..i]] + Split(s[i + 1..], separator)
  }

  function Period(letter: char): Option<int> {
    match letter
    case 's' => Some(1)
    case 'm' => Some(60)
    case 'h' => Some(3600)
    case 'd' => Some(86400)
    case _ => None
  }

  /** A parsed rate keeps its own text as its name, so the name of a rate determines the rate. */
  function ParseRate(cfg: Config, rate: string): (r: Result<Rate, ConfigError>)
    ensures r.Success? ==> r.value.name == rate && r.value.duration in {1, 60, 3600, 86400}
  {
    var parts := Split(rate, '/');
    if |parts| == 2 && cfg.toInt(parts[0]).Some? && parts[1] != "" && Period(parts[1][0]).Some?
    then Success(Rate(rate, cfg.toInt(parts[0]).value, Period(parts[1][0]).value))
    else Failure(MalformedRate(rate))
  }

  lemma {:induction false} SplitAtSlash(number: string, period: string)
    requires '/' !in number && '/' !in period
    ensures Split(number + "/" + period, '/') == [number, period]
  {
    var rate := number + "/" + period;
    assert rate[|number|] == '/' && rate[..|number|] == number;
    FirstIndex(rate, '/', |number|);
    assert rate[|number| + 1..] == period;
    assert Split(period, '/') == [period];
  }

  lemma {:induction false} FirstIndex(s: string, c: char, i: nat)
    requires i < |s| && s[i] == c && c !in s[..i]
    ensures IndexOf(s, c) == i
  {
    if i == 0 {
    } else {
      assert s[..i][0] == s[0] && s[1..][..i - 1] == s[..i][1..];
      FirstIndex(s[1..], c, i - 1);
    }
  }

  /**
   A rate is read as a number before and a period after its only slash; the period's first letter gives the
   seconds.
   */
  lemma RateIsRead(cfg: Config, number: string, period: string)
    requires '/' !in number && '/' !in period
    ensures ParseRate(cfg, number + "/" + period).Success? <==>
      cfg.toInt(number).Some? && period != "" && period[0] in "smhd"
    ensures ParseRate(cfg, number + "/" + period).Success? ==>
      var rate := ParseRate(cfg, number + "/" + period).value;
      rate.limit == cfg.toInt(number).value &&
      rate.duration ==
        if period[0] == 's' then 1 else if period[0] == 'm' then 60
        else if period[0] == 'h' then 60 * 60 else 24 * 60 * 60
  {
    SplitAtSlash(number, period);
  }

  /** Every other text is refused. */
  lemma OnlyOneSlashIsRead(cfg: Config, rate: string) returns (number: string, period: string)
    requires ParseRate(cfg, rate).Success?
    ensures rate == number + "/" + period && '/' !in number && '/' !in period
  {
    var i := IndexOf(rate, '/');
    number, period := rate[..i], rate[i + 1..];
    assert Split(rate, '/') == [number] + Split(period, '/');
  }

  predicate FirstMalformed(cfg: Config, rates: seq<string>, i: nat, error: ConfigError)
    requires i < |rates|
  {
    ParseRate(cfg, rates[i]) == Failure(error) && forall k :: 0 <= k < i ==> ParseRate(cfg, rates[k]).Success?
  }

  lemma MalformedFurtherOn(cfg: Config, rates: seq<string>, error: ConfigError)
    requires rates != [] && ParseRate(cfg, rates[0]).Success?
    requires exists i :: 0 <= i < |rates[1..]| && FirstMalformed(cfg, rates[1..], i, error)
    ensures exists i :: 0 <= i < |rates| && FirstMalformed(cfg, rates, i, error)
  {
    hide ParseRate;
    var i :| 0 <= i < |rates[1..]| && FirstMalformed(cfg, rates[1..], i, error);
    assert FirstMalformed(cfg, rates, i + 1, error);
  }

  function ParseAll(cfg: Config, rates: seq<string>): (r: Result<seq<Rate>, ConfigError>)
    ensures r.Success? <==> forall text <- rates :: ParseRate(cfg, text).Success?
    ensures r.Success? ==> |r.value| == |rates|
    ensures r.Success? ==> forall i :: 0 <= i < |rates| ==> ParseRate(cfg, rates[i]) == Success(r.value[i])
    ensures r.Failure? ==> exists i :: 0 <= i < |rates| && FirstMalformed(cfg, rates, i, r.error)
  {
    if rates == [] then Success([])
    else
      match ParseRate(cfg, rates[0])
      case Failure(e) =>
        assert FirstMalformed(cfg, rates, 0, e);
        Failure(e)
      case Success(first) =>
        assert forall text <- rates :: text == rates[0] || text in rates[1..];
        match ParseAll(cfg, rates[1..])
        case Failure(e) =>
          MalformedFurtherOn(cfg, rates, e);
          Failure(e)
        case Success(rest) => Success([first] + rest)
  }

  function RateTexts(setting: RateSetting): seq<string> {
    match setting
    case Unlimited => []
    case Single(rate) => [rate]
    case Several(rates) => rates
    case Unsupported => []
  }

  /** A scope's rates are the readings of its texts in order; the first thing wrong with its setting is the error. */
  function GetRates(cfg: Config, scope: string): (r: Result<seq<Rate>, ConfigError>)
    ensures r.Success? <==>
      scope in cfg.rateSettings && cfg.rateSettings[scope] != Unsupported &&
      forall text <- RateTexts(cfg.rateSettings[scope]) :: ParseRate(cfg, text).Success?
    ensures r.Success? ==>
      var texts := RateTexts(cfg.rateSettings[scope]);
      |r.value| == |texts| && forall i :: 0 <= i < |texts| ==> ParseRate(cfg, texts[i]) == Success(r.value[i])
    ensures r.Success? ==> forall rate <- r.value :: ParseRate(cfg, rate.name) == Success(rate)
    ensures r.Failure? ==>
      if scope !in cfg.rateSettings then r.error == NoSuchScope(scope)
      else if cfg.rateSettings[scope] == Unsupported then r.error == UnsupportedSetting(scope)
      else
        var texts := RateTexts(cfg.rateSettings[scope]);
        exists i :: 0 <= i < |texts| && FirstMalformed(cfg, texts, i, r.error)
  {
    if scope !in cfg.rateSettings then Failure(NoSuchScope(scope))
    else
      match cfg.rateSettings[scope]
      case Unlimited => Success([])
      case Single(rate) => ParseAll(cfg, [rate])
      case Several(rates) => ParseAll(cfg, rates)
      case Unsupported => Failure(UnsupportedSetting(scope))
  }

  // -------------------------------------------------------------------------
  // The cache and the limiter
  // -------------------------------------------------------------------------

  datatype Key = Key(client: Client, rate: string)

  /** A cached history, newest first, and the time at which the cache forgets it. */
  datatype Entry = Entry(history: seq<real>, expiry: real)

  type Cache = map<Key, Entry>

  function CacheGet(cache: Cache, key: Key, now: real): seq<real> {
    if key in cache && now < cache[key].expiry then cache[key].history else []
  }

  /** What the tail-popping loop leaves of a history. */
  function PopExpired(history: seq<real>, cutoff: real): seq<real> {
    if history != [] && history[|history| - 1] <= cutoff
    then PopExpired(history[..|history| - 1], cutoff)
    else history
  }

  function Live(cache: Cache, client: Client, rate: Rate, now: real): seq<real> {
    PopExpired(CacheGet(cache, Key(client, rate.name), now), now - rate.duration as real)
  }

  function WaitTime(history: seq<real>, rate: Rate, now: real): real {
    var remaining :=
      if history != [] then rate.duration as real - (now - history[|history| - 1])
      else rate.duration as real;
    var available := rate.limit - |history| + 1;
    if available <= 0 then remaining else remaining / available as real
  }

  /** The waits of the rates that block, in the order of the rates. */
  function Waits(cache: Cache, client: Client, rates: seq<Rate>, now: real): seq<real> {
    if rates == [] then []
    else
      var rate := rates[|rates| - 1];
      var history := Live(cache, client, rate, now);
      Waits(cache, client, rates[..|rates| - 1], now) +
      (if |history| >= rate.limit then [WaitTime(history, rate, now)] else [])
  }

  /** The cache after every rate's history has been written back with `now` in front. */
  function Record(cache: Cache, client: Client, rates: seq<Rate>, now: real): Cache {
    if rates == [] then cache
    else
      var rate := rates[|rates| - 1];
      Record(cache, client, rates[..|rates| - 1], now)
        [Key(client, rate.name) := Entry([now] + Live(cache, client, rate, now), now + rate.duration as real)]
  }

  function Max(xs: seq<real>): (m: real)
    requires xs != []
    ensures m in xs && forall x <- xs :: x <= m
  {
    if |xs| == 1 then xs[0]
    else
      var rest := Max(xs[1..]);
      assert forall x <- xs :: x == xs[0] || x in xs[1..];
      if xs[0] >= rest then xs[0] else rest
  }

  datatype Answer = Allowed | Denied(wait: real) | Misconfigured(error: ConfigError)

  function Step(cfg: Config, cache: Cache, req: Request): (Answer, Cache) {
    var client := ClientOf(req);
    match GetRates(cfg, client.scope)
    case Failure(e) => (Misconfigured(e), cache)
    case Success(rates) =>
      if cfg.whitelisted(client.ident) || rates == [] then (Allowed, cache)
      else
        var waits := Waits(cache, client, rates, req.time);
        if waits != [] then (Denied(Max(waits)), cache)
        else (Allowed, Record(cache, client, rates, req.time))
  }

  // -------------------------------------------------------------------------
  // Runs
  // -------------------------------------------------------------------------

  function CacheAfter(cfg: Config, run: seq<Request>): Cache {
    if run == [] then map[]
    else Step(cfg, CacheAfter(cfg, run[..|run| - 1]), run[|run| - 1]).1
  }

  function AnswerAt(cfg: Config, run: seq<Request>, i: nat): Answer
    requires i < |run|
  {
    Step(cfg, CacheAfter(cfg, run[..i]), run[i]).0
  }

  ghost predicate ClockNeverGoesBack(run: seq<Request>) {
    forall i, j :: 0 <= i < j < |run| ==> run[i].time <= run[j].time
  }

  /** The requests of the run that were allowed to this client after `since`. */
  function AllowedSince(cfg: Config, run: seq<Request>, client: Client, since: real): set<nat> {
    set i: nat | i < |run| && ClientOf(run[i]) == client && AnswerAt(cfg, run, i) == Allowed && run[i].time > since
  }

  /**
   The reference limiter: no cache, no popping, only the log of what was allowed so far.
   A request passes iff for every rate fewer than `limit` earlier requests of the same
   client were allowed less than `duration` ago.
   */
  ghost predicate LogLimiterAllows(cfg: Config, run: seq<Request>, rates: seq<Rate>, req: Request) {
    forall rate <- rates ::
      |AllowedSince(cfg, run, ClientOf(req), req.time - rate.duration as real)| < rate.limit
  }

  // -------------------------------------------------------------------------
  // The limiter as the source has it
  // -------------------------------------------------------------------------

  datatype Write = Write(key: Key, history: seq<real>, duration: int)

  function HistoryWrites(cache: Cache, client: Client, rates: seq<Rate>, now: real): seq<Write> {
    if rates == [] then []
    else
      var rate := rates[|rates| - 1];
      HistoryWrites(cache, client, rates[..|rates| - 1], now) +
      [Write(Key(client, rate.name), Live(cache, client, rate, now), rate.duration)]
  }

  lemma {:induction false} HistoryWritesAt(cache: Cache, client: Client, rates: seq<Rate>, now: real)
    ensures |HistoryWrites(cache, client, rates, now)| == |rates|
    ensures forall i :: 0 <= i < |rates| ==>
      HistoryWrites(cache, client, rates, now)[i] ==
      Write(Key(client, rates[i].name), Live(cache, client, rates[i], now), rates[i].duration)
  {
    if rates == [] {
    } else {
      HistoryWritesAt(cache, client, rates[..|rates| - 1], now);
    }
  }

  lemma NothingRecorded(cache: Cache, client: Client, now: real)
    ensures Record(cache, client, [], now) == cache
  {
  }

  lemma RecordOneMore(cache: Cache, client: Client, rates: seq<Rate>, now: real, i: nat)
    requires i < |rates|
    ensures Record(cache, client, rates[..i + 1], now) ==
      Record(cache, client, rates[..i], now)
        [Key(client, rates[i].name) :=
          Entry([now] + Live(cache, client, rates[i], now), now + rates[i].duration as real)]
  {
    assert rates[..i + 1][..i] == rates[..i];
  }

  class CommonThrottle {
    const cfg: Config
    var cache: Cache
    var wait: Option<real>
    ghost var served: seq<Request>

    ghost predicate Valid()
      reads this
    {
      ClockNeverGoesBack(served) && cache == CacheAfter(cfg, served)
    }

    constructor (cfg: Config)
      ensures Valid() && this.cfg == cfg && served == [] && wait == None
    {
      this.cfg, cache, wait, served := cfg, map[], None, [];
    }

    /**
     The first loop of `allow_request`: read and trim one history per rate, collecting the waits of the rates
     that block.
     */
    method ReadHistories(client: Client, rates: seq<Rate>, now: real) returns (waits: seq<real>, writes: seq<Write>)
      ensures waits == Waits(cache, client, rates, now)
      ensures writes == HistoryWrites(cache, client, rates, now)
    {
      waits, writes := [], [];
      for i := 0 to |rates|
        invariant waits == Waits(cache, client, rates[..i], now)
        invariant writes == HistoryWrites(cache, client, rates[..i], now)
      {
        hide WaitTime, CacheGet;
        var rate := rates[i];
        var key := Key(client, rate.name);
        var history := CacheGet(cache, key, now);
        while history != [] && history[|history| - 1] <= now - rate.duration as real
          invariant PopExpired(history, now - rate.duration as real) == Live(cache, client, rate, now)
        {
          history := history[..|history| - 1];
        }
        assert rates[..i + 1][..i] == rates[..i];
        if |history| >= rate.limit {
          waits := waits + [WaitTime(history, rate, now)];
        }
        writes := writes + [Write(key, history, rate.duration)];
      }
      assert rates[..|rates|] == rates;
    }

    /** The second loop: put the current time in front of every history and store them all. */
    method WriteHistories(client: Client, ghost rates: seq<Rate>, writes: seq<Write>, now: real)
      requires writes == HistoryWrites(cache, client, rates, now)
      modifies this`cache
      ensures cache == Record(old(cache), client, rates, now)
    {
      HistoryWritesAt(cache, client, rates, now);
      hide HistoryWrites, Record;
      NothingRecorded(cache, client, now);
      for i := 0 to |writes|
        invariant cache == Record(old(cache), client, rates[..i], now)
      {
        hide Live;
        RecordOneMore(old(cache), client, rates, now, i);
        cache := cache[writes[i].key := Entry([now] + writes[i].history, now + writes[i].duration as real)];
      }
      assert rates[..|rates|] == rates;
    }

    method AllowRequest(req: Request) returns (answer: Answer)
      requires Valid()
      requires served != [] ==> served[|served| - 1].time <= req.time
      modifies this
      ensures Valid() && served == old(served) + [req]
      ensures (answer, cache) == Step(cfg, old(cache), req)
      ensures wait == (if answer.Denied? then Some(answer.wait) else old(wait))
      ensures answer == Allowed <==> ReferenceAllows(cfg, served, |old(served)|)
    {
      hide GetRates, ReferenceAllows, Waits, Record, HistoryWrites, Max;
      served := served + [req];
      assert served[..|old(served)|] == old(served);
      AnswersAgreeWithReference(cfg, served, |old(served)|);

      var client := ClientOf(req);
      var rates := GetRates(cfg, client.scope);
      if rates.Failure? {
        return Misconfigured(rates.error);
      }
      if cfg.whitelisted(client.ident) || rates.value == [] {
        return Allowed;
      }
      var now := req.time;
      var waits, writes := ReadHistories(client, rates.value, now);
      if waits != [] {
        var longest := Max(waits);
        wait := Some(longest);
        return Denied(longest);
      }
      WriteHistories(client, rates.value, writes, now);
      return Allowed;
    }
  }

  // -------------------------------------------------------------------------
  // Newest-first histories
  // -------------------------------------------------------------------------

  ghost predicate NewestFirst(history: seq<real>) {
    forall i, j :: 0 <= i < j < |history| ==> history[i] >= history[j]
  }

  /** The entries of a history that are newer than the cutoff. */
  function Recent(history: seq<real>, cutoff: real): (r: seq<real>)
    ensures |r| <= |history|
    ensures forall i :: 0 <= i < |r| ==> r[i] > cutoff
  {
    if history == [] then []
    else (if history[0] > cutoff then [history[0]] else []) + Recent(history[1..], cutoff)
  }

  lemma {:induction false} NothingRecent(history: seq<real>, cutoff: real)
    requires forall i :: 0 <= i < |history| ==> history[i] <= cutoff
    ensures Recent(history, cutoff) == []
  {
    if history == [] {
    } else {
      NothingRecent(history[1..], cutoff);
    }
  }

  lemma {:induction false} AllRecent(history: seq<real>, cutoff: real)
    requires forall i :: 0 <= i < |history| ==> history[i] > cutoff
    ensures Recent(history, cutoff) == history
  {
    if history == [] {
    } else {
      AllRecent(history[1..], cutoff);
    }
  }

  lemma {:induction false} RecentOfConcat(a: seq<real>, b: seq<real>, cutoff: real)
    ensures Recent(a + b, cutoff) == Recent(a, cutoff) + Recent(b, cutoff)
  {
    if a == [] {
      assert a + b == b;
    } else {
      assert (a + b)[1..] == a[1..] + b;
      RecentOfConcat(a[1..], b, cutoff);
    }
  }

  /** On a newest-first history, popping expired entries off the tail is filtering the whole list by age. */
  lemma {:induction false} PopIsFilter(history: seq<real>, cutoff: real)
    requires NewestFirst(history)
    ensures PopExpired(history, cutoff) == Recent(history, cutoff)
  {
    var last := |history| - 1;
    if history == [] {
    } else if history[last] <= cutoff {
      PopIsFilter(history[..last], cutoff);
      assert history == history[..last] + [history[last]];
      RecentOfConcat(history[..last], [history[last]], cutoff);
    } else {
      AllRecent(history, cutoff);
    }
  }

  lemma {:induction false} RecentIsNewestFirst(history: seq<real>, cutoff: real)
    requires NewestFirst(history)
    ensures var r := Recent(history, cutoff); NewestFirst(r) && (r != [] ==> r[0] <= history[0])
  {
    if history == [] {
    } else {
      RecentIsNewestFirst(history[1..], cutoff);
    }
  }

  /** Filtering by an earlier cutoff first changes nothing. */
  lemma {:induction false} RecentOfRecent(history: seq<real>, earlier: real, later: real)
    requires earlier <= later
    ensures Recent(Recent(history, earlier), later) == Recent(history, later)
  {
    if history == [] {
    } else {
      RecentOfRecent(history[1..], earlier, later);
      RecentOfConcat(if history[0] > earlier then [history[0]] else [], Recent(history[1..], earlier), later);
    }
  }

  // -------------------------------------------------------------------------
  // The log behind the cache
  // -------------------------------------------------------------------------

  /** The times at which requests of this client were allowed in the run, newest first. */
  function AllowedTimes(cfg: Config, run: seq<Request>, client: Client): seq<real> {
    if run == [] then []
    else
      var last := |run| - 1;
      (if ClientOf(run[last]) == client && AnswerAt(cfg, run, last) == Allowed then [run[last].time] else []) +
      AllowedTimes(cfg, run[..last], client)
  }

  lemma {:induction false} AllowedTimesNewestFirst(cfg: Config, run: seq<Request>, client: Client)
    requires ClockNeverGoesBack(run)
    ensures NewestFirst(AllowedTimes(cfg, run, client))
    ensures var log := AllowedTimes(cfg, run, client); log != [] ==> run != [] && log[0] <= run[|run| - 1].time
  {
    if run == [] {
    } else {
      AllowedTimesNewestFirst(cfg, run[..|run| - 1], client);
    }
  }

  lemma AllowedSinceOneMore(cfg: Config, run: seq<Request>, client: Client, since: real)
    requires run != []
    ensures
      var last := |run| - 1;
      var rest := AllowedSince(cfg, run[..last], client, since);
      last !in rest &&
      AllowedSince(cfg, run, client, since) ==
      if ClientOf(run[last]) == client && AnswerAt(cfg, run, last) == Allowed && run[last].time > since
      then rest + {last} else rest
  {
    hide Step, CacheAfter;
    var last := |run| - 1;
    forall i: nat | i < last ensures AnswerAt(cfg, run, i) == AnswerAt(cfg, run[..last], i) {
      assert run[..i] == run[..last][..i];
    }
  }

  /** The reference limiter's set of log entries has as many elements as the filtered log. */
  lemma {:induction false} AllowedSinceCounts(cfg: Config, run: seq<Request>, client: Client, since: real)
    ensures |AllowedSince(cfg, run, client, since)| == |Recent(AllowedTimes(cfg, run, client), since)|
  {
    hide AnswerAt;
    if run == [] {
      assert AllowedSince(cfg, run, client, since) == {};
    } else {
      var last := |run| - 1;
      AllowedSinceCounts(cfg, run[..last], client, since);
      AllowedSinceOneMore(cfg, run, client, since);
      RecentOfConcat(
        if ClientOf(run[last]) == client && AnswerAt(cfg, run, last) == Allowed then [run[last].time] else [],
        AllowedTimes(cfg, run[..last], client), since);
    }
  }

  lemma {:induction false} RecordGet(cache: Cache, client: Client, rates: seq<Rate>, now: real, key: Key)
    requires forall r, s | r in rates && s in rates :: r.name == s.name ==> r == s
    ensures (forall rate <- rates :: key != Key(client, rate.name)) ==>
      (key in Record(cache, client, rates, now) <==> key in cache) &&
      (key in cache ==> Record(cache, client, rates, now)[key] == cache[key])
    ensures forall rate <- rates :: key == Key(client, rate.name) ==>
      key in Record(cache, client, rates, now) &&
      Record(cache, client, rates, now)[key] ==
      Entry([now] + Live(cache, client, rate, now), now + rate.duration as real)
  {
    if rates == [] {
    } else {
      hide Live;
      RecordGet(cache, client, rates[..|rates| - 1], now, key);
    }
  }

  /** What the cache holds for one client and rate, said in terms of the log alone. */
  ghost predicate CacheTracksLog(cache: Cache, log: seq<real>, client: Client, rate: Rate) {
    var key := Key(client, rate.name);
    if key in cache then
      log != [] &&
      cache[key] == Entry(Recent(log, log[0] - rate.duration as real), log[0] + rate.duration as real)
    else log == []
  }

  lemma PoppedIsRecentLog(log: seq<real>, d: real, now: real)
    requires NewestFirst(log) && log != [] && log[0] <= now
    ensures PopExpired(if now < log[0] + d then Recent(log, log[0] - d) else [], now - d) == Recent(log, now - d)
  {
    hide Recent, PopExpired;
    if now < log[0] + d {
      RecentIsNewestFirst(log, log[0] - d);
      PopIsFilter(Recent(log, log[0] - d), now - d);
      RecentOfRecent(log, log[0] - d, now - d);
    } else {
      NothingRecent(log, now - d);
      NothingRecent([], now - d);
      PopIsFilter([], now - d);
    }
  }

  /** If the cache tracks the log, a read followed by popping is exactly the log filtered by age. */
  lemma LiveIsRecentLog(cache: Cache, log: seq<real>, client: Client, rate: Rate, now: real)
    requires CacheTracksLog(cache, log, client, rate)
    requires NewestFirst(log) && (log != [] ==> log[0] <= now)
    ensures Live(cache, client, rate, now) == Recent(log, now - rate.duration as real)
  {
    hide Recent, PopExpired, NewestFirst;
    var d := rate.duration as real;
    if log != [] {
      PoppedIsRecentLog(log, d, now);
    } else {
      NothingRecent([], now - d);
      PopIsFilter([], now - d) by {
        assert NewestFirst([]);
      }
    }
  }

  /** Writing the histories back keeps the cache in step with the log, for the client written and for every other. */
  lemma RecordTracksLog(
      cache: Cache, log: seq<real>, writer: Client, rates: seq<Rate>, now: real, client: Client, rate: Rate)
    requires forall r, s | r in rates && s in rates :: r.name == s.name ==> r == s
    requires CacheTracksLog(cache, log, client, rate)
    requires NewestFirst(log) && (log != [] ==> log[0] <= now)
    requires writer == client ==> rate in rates && rate.duration > 0
    ensures CacheTracksLog(
      Record(cache, writer, rates, now), if writer == client then [now] + log else log, client, rate)
  {
    hide Record, Live;
    RecordGet(cache, writer, rates, now, Key(client, rate.name));
    if writer == client {
      LiveIsRecentLog(cache, log, client, rate, now);
      assert ([now] + log)[1..] == log;
    }
  }

  lemma StepTracksLog(cfg: Config, cache: Cache, log: seq<real>, req: Request, client: Client, rate: Rate)
    requires GetRates(cfg, client.scope).Success? && rate in GetRates(cfg, client.scope).value
    requires !cfg.whitelisted(client.ident)
    requires CacheTracksLog(cache, log, client, rate)
    requires NewestFirst(log) && (log != [] ==> log[0] <= req.time)
    ensures
      var (answer, after) := Step(cfg, cache, req);
      CacheTracksLog(
        after, if ClientOf(req) == client && answer == Allowed then [req.time] + log else log, client, rate)
  {
    hide Record, Waits, Max, CacheTracksLog, GetRates, NewestFirst;
    var rates := GetRates(cfg, ScopeOf(req));
    var allowed := Step(cfg, cache, req).0 == Allowed;
    if rates.Success? && allowed && !cfg.whitelisted(ClientOf(req).ident) && rates.value != [] {
      RecordTracksLog(cache, log, ClientOf(req), rates.value, req.time, client, rate);
    }
  }

  /** The state invariant: at every point of every run the cache tracks the log, for every limited client and rate. */
  lemma {:induction false} CacheAlwaysTracksLog(cfg: Config, run: seq<Request>, client: Client, rate: Rate)
    requires ClockNeverGoesBack(run)
    requires GetRates(cfg, client.scope).Success? && rate in GetRates(cfg, client.scope).value
    requires !cfg.whitelisted(client.ident)
    ensures CacheTracksLog(CacheAfter(cfg, run), AllowedTimes(cfg, run, client), client, rate)
  {
    if run == [] {
    } else {
      hide Step, GetRates, Recent, CacheTracksLog, NewestFirst;
      var last := |run| - 1;
      assert ClockNeverGoesBack(run[..last]);
      CacheAlwaysTracksLog(cfg, run[..last], client, rate);
      AllowedTimesNewestFirst(cfg, run[..last], client);
      var cache, log := CacheAfter(cfg, run[..last]), AllowedTimes(cfg, run[..last], client);
      StepTracksLog(cfg, cache, log, run[last], client, rate);
      assert AllowedTimes(cfg, run, client) ==
        if ClientOf(run[last]) == client && Step(cfg, cache, run[last]).0 == Allowed
        then [run[last].time] + log else log;
      assert CacheTracksLog(CacheAfter(cfg, run), AllowedTimes(cfg, run, client), client, rate);
    }
  }

  lemma {:induction false} NoWaitsIffNothingBlocks(cache: Cache, client: Client, rates: seq<Rate>, now: real)
    ensures Waits(cache, client, rates, now) == [] <==>
      forall rate <- rates :: |Live(cache, client, rate, now)| < rate.limit
  {
    hide Live, WaitTime;
    if rates == [] {
    } else {
      var last := |rates| - 1;
      NoWaitsIffNothingBlocks(cache, client, rates[..last], now);
      assert forall rate <- rates :: rate in rates[..last] || rate == rates[last];
    }
  }

  lemma LiveInRun(cfg: Config, run: seq<Request>, i: nat, rate: Rate)
    requires ClockNeverGoesBack(run) && i < |run|
    requires GetRates(cfg, ScopeOf(run[i])).Success? && rate in GetRates(cfg, ScopeOf(run[i])).value
    requires !cfg.whitelisted(ClientOf(run[i]).ident)
    ensures
      Live(CacheAfter(cfg, run[..i]), ClientOf(run[i]), rate, run[i].time) ==
      Recent(AllowedTimes(cfg, run[..i], ClientOf(run[i])), run[i].time - rate.duration as real)
  {
    hide Recent, AllowedTimes, CacheAfter, GetRates, Live, CacheTracksLog;
    var client := ClientOf(run[i]);
    CacheAlwaysTracksLog(cfg, run[..i], client, rate);
    AllowedTimesNewestFirst(cfg, run[..i], client);
    LiveIsRecentLog(CacheAfter(cfg, run[..i]), AllowedTimes(cfg, run[..i], client), client, rate, run[i].time);
  }

  // -------------------------------------------------------------------------
  // Theorems
  // -------------------------------------------------------------------------

  /**
   In every run with a nondecreasing clock the cached limiter answers as the reference limiter
   does: cache timeouts, tail popping and the all-or-nothing write never change a decision.
   */
  lemma AnswersAgreeWithLog(cfg: Config, run: seq<Request>, i: nat)
    requires ClockNeverGoesBack(run) && i < |run|
    ensures
      var rates := GetRates(cfg, ScopeOf(run[i]));
      AnswerAt(cfg, run, i) == Allowed <==>
      rates.Success? &&
      (cfg.whitelisted(ClientOf(run[i]).ident) || LogLimiterAllows(cfg, run[..i], rates.value, run[i]))
  {
    hide GetRates, Waits, Live, CacheAfter, Recent, AllowedTimes, AllowedSince, Record, Max;
    var client, now := ClientOf(run[i]), run[i].time;
    var rates := GetRates(cfg, client.scope);
    if rates.Success? && !cfg.whitelisted(client.ident) {
      NoWaitsIffNothingBlocks(CacheAfter(cfg, run[..i]), client, rates.value, now);
      forall rate <- rates.value
        ensures |Live(CacheAfter(cfg, run[..i]), client, rate, now)| ==
                |AllowedSince(cfg, run[..i], client, now - rate.duration as real)|
      {
        LiveInRun(cfg, run, i, rate);
        AllowedSinceCounts(cfg, run[..i], client, now - rate.duration as real);
      }
    }
  }

  // -------------------------------------------------------------------------
  // Who is measured against what
  // -------------------------------------------------------------------------

  predicate Writes(req: Request) {
    req.httpMethod == "POST" || req.httpMethod == "PUT" || req.httpMethod == "PATCH" || req.httpMethod == "DELETE"
  }

  /** The one of the four settings that a request is measured against. */
  function SettingFor(req: Request): string {
    match (req.authenticated, Writes(req))
    case (true, true) => "user-write"
    case (true, false) => "user-read"
    case (false, true) => "anon-write"
    case (false, false) => "anon-read"
  }

  /** Registered users are told apart by their id, others by their address; reading and writing are apart, too. */
  predicate SameCaller(a: Request, b: Request) {
    (a.authenticated <==> b.authenticated) && (Writes(a) <==> Writes(b)) &&
    if a.authenticated then a.userId == b.userId else a.ip == b.ip
  }

  predicate Exempt(cfg: Config, req: Request) {
    cfg.whitelisted(if req.authenticated then UserId(req.userId) else Address(req.ip))
  }

  lemma ScopeIsSetting(cfg: Config, req: Request)
    ensures ScopeOf(req) == ClientOf(req).scope == SettingFor(req)
    ensures cfg.whitelisted(ClientOf(req).ident) <==> Exempt(cfg, req)
  {
    assert "user" + "-" + "write" == "user-write" && "user" + "-" + "read" == "user-read";
    assert "anon" + "-" + "write" == "anon-write" && "anon" + "-" + "read" == "anon-read";
  }

  /** Two requests share their histories iff they come from the same caller. */
  lemma ShareHistoryIff(a: Request, b: Request, rate: Rate)
    ensures Key(ClientOf(a), rate.name) == Key(ClientOf(b), rate.name) <==> SameCaller(a, b)
  {
    ScopesDiffer(a, b);
  }

  lemma ScopesDiffer(a: Request, b: Request)
    ensures ScopeOf(a) == ScopeOf(b) <==> (a.authenticated <==> b.authenticated) && (Writes(a) <==> Writes(b))
  {
    assert "user" + "-" + "write" == "user-write" && "user" + "-" + "read" == "user-read";
    assert "anon" + "-" + "write" == "anon-write" && "anon" + "-" + "read" == "anon-read";
    assert "user-write"[0] != "anon-write"[0] && "user-write"[0] != "anon-read"[0];
    assert "user-read"[0] != "anon-write"[0] && "user-read"[0] != "anon-read"[0];
    assert "user-write"[5] != "user-read"[5] && "anon-write"[5] != "anon-read"[5];
  }

  /** The earlier requests of the same caller that were allowed less than the rate's duration ago. */
  function AllowedBefore(cfg: Config, run: seq<Request>, i: nat, rate: Rate): set<nat>
    requires i < |run|
  {
    set j: nat |
      j < i && SameCaller(run[j], run[i]) && AnswerAt(cfg, run, j) == Allowed &&
      run[j].time > run[i].time - rate.duration as real
  }

  /** The reference limiter, said of requests alone. */
  ghost predicate ReferenceAllows(cfg: Config, run: seq<Request>, i: nat)
    requires i < |run|
  {
    var rates := GetRates(cfg, SettingFor(run[i]));
    rates.Success? &&
    (Exempt(cfg, run[i]) || forall rate <- rates.value :: |AllowedBefore(cfg, run, i, rate)| < rate.limit)
  }

  /**
   Every answer of every run is that of the reference limiter: it depends on whether the request is authenticated,
   whether it writes, who makes it, the setting for that, and what was allowed to the same caller before.
   */
  lemma AnswersAgreeWithReference(cfg: Config, run: seq<Request>, i: nat)
    requires ClockNeverGoesBack(run) && i < |run|
    ensures AnswerAt(cfg, run, i) == Allowed <==> ReferenceAllows(cfg, run, i)
  {
    hide GetRates, AnswerAt, ClientOf, ScopeOf, SettingFor, SameCaller;
    AnswersAgreeWithLog(cfg, run, i);
    ScopeIsSetting(cfg, run[i]);
    var rates := GetRates(cfg, SettingFor(run[i]));
    if rates.Success? {
      forall rate <- rates.value
        ensures AllowedSince(cfg, run[..i], ClientOf(run[i]), run[i].time - rate.duration as real) ==
                AllowedBefore(cfg, run, i, rate)
      {
        LogIsOfSameCaller(cfg, run, i, rate);
      }
    }
  }

  lemma LogIsOfSameCaller(cfg: Config, run: seq<Request>, i: nat, rate: Rate)
    requires i < |run|
    ensures AllowedSince(cfg, run[..i], ClientOf(run[i]), run[i].time - rate.duration as real) ==
            AllowedBefore(cfg, run, i, rate)
  {
    hide AnswerAt, ClientOf, SameCaller;
    forall j: nat | j < i
      ensures ClientOf(run[..i][j]) == ClientOf(run[i]) <==> SameCaller(run[j], run[i])
      ensures AnswerAt(cfg, run[..i], j) == AnswerAt(cfg, run, j)
    {
      ShareHistoryIff(run[j], run[i], rate);
      SamePrefixSameAnswer(cfg, run, i, j);
    }
  }

  /** A setting that cannot be read is answered by its error, and by nothing else. */
  lemma MisconfiguredIff(cfg: Config, cache: Cache, req: Request, error: ConfigError)
    ensures Step(cfg, cache, req).0 == Misconfigured(error) <==> GetRates(cfg, SettingFor(req)) == Failure(error)
  {
    hide GetRates;
    ScopeIsSetting(cfg, req);
  }

  /** Requests that nothing limits leave the cache alone. */
  lemma UnlimitedLeavesNoTrace(cfg: Config, cache: Cache, req: Request)
    requires GetRates(cfg, SettingFor(req)).Success?
    requires Exempt(cfg, req) || GetRates(cfg, SettingFor(req)).value == []
    ensures Step(cfg, cache, req) == (Allowed, cache)
  {
    hide GetRates;
    ScopeIsSetting(cfg, req);
  }

  lemma DeniedKeepsCache(cfg: Config, cache: Cache, req: Request)
    requires !Step(cfg, cache, req).0.Allowed?
    ensures Step(cfg, cache, req).1 == cache
  {
  }

  /** Leaving a denied request out of the run changes no other answer and not the final cache. */
  lemma {:induction false} DeniedLeavesNoTrace(cfg: Config, run: seq<Request>, i: nat)
    requires i < |run| && !AnswerAt(cfg, run, i).Allowed?
    ensures CacheAfter(cfg, run[..i] + run[i + 1..]) == CacheAfter(cfg, run)
    ensures forall j: nat :: i < j < |run| ==>
      AnswerAt(cfg, run[..i] + run[i + 1..], j - 1) == AnswerAt(cfg, run, j)
  {
    hide Step;
    var without := run[..i] + run[i + 1..];
    var last := |run| - 1;
    if i == last {
      assert without == run[..last];
      DeniedKeepsCache(cfg, CacheAfter(cfg, run[..last]), run[last]);
    } else {
      var shorter := run[..last];
      assert shorter[..i] == run[..i];
      DeniedLeavesNoTrace(cfg, shorter, i);
      var shorterWithout := shorter[..i] + shorter[i + 1..];
      assert without == shorterWithout + [run[last]];
      assert without[..last - 1] == shorterWithout;
      forall j: nat | i < j < last ensures AnswerAt(cfg, without, j - 1) == AnswerAt(cfg, run, j) {
        assert without[..j - 1] == shorterWithout[..j - 1];
        assert run[..j] == shorter[..j];
        assert AnswerAt(cfg, shorterWithout, j - 1) == AnswerAt(cfg, shorter, j);
      }
    }
  }

  // -------------------------------------------------------------------------
  // How many requests a window can hold
  // -------------------------------------------------------------------------

  /** Half-open windows of a given length, closed on the left or on the right. */
  predicate InWindow(t: real, from: real, length: int, leftClosed: bool) {
    if leftClosed then from <= t < from + length as real else from < t <= from + length as real
  }

  function AllowedInWindow(cfg: Config, run: seq<Request>, client: Client, from: real, length: int, leftClosed: bool)
    : set<nat>
  {
    set i: nat | i < |run| && ClientOf(run[i]) == client && AnswerAt(cfg, run, i) == Allowed &&
                 InWindow(run[i].time, from, length, leftClosed)
  }

  lemma {:induction false} SubsetIsNoLarger(a: set<nat>, b: set<nat>)
    requires a <= b
    ensures |a| <= |b|
  {
    if a == {} {
    } else {
      var x :| x in a;
      SubsetIsNoLarger(a - {x}, b - {x});
    }
  }

  lemma WindowOneMore(cfg: Config, run: seq<Request>, client: Client, from: real, length: int, leftClosed: bool)
    requires run != []
    ensures
      var last := |run| - 1;
      var rest := AllowedInWindow(cfg, run[..last], client, from, length, leftClosed);
      AllowedInWindow(cfg, run, client, from, length, leftClosed) ==
      if ClientOf(run[last]) == client && AnswerAt(cfg, run, last) == Allowed &&
         InWindow(run[last].time, from, length, leftClosed)
      then rest + {last} else rest
  {
    hide AnswerAt, InWindow;
    var last := |run| - 1;
    forall i: nat | i < last ensures AnswerAt(cfg, run, i) == AnswerAt(cfg, run[..last], i) {
      SamePrefixSameAnswer(cfg, run, last, i);
    }
  }

  /** The requests in a window that ends at `now` at the latest all belong to the log `now` is measured against. */
  lemma WindowWithinLog(
      cfg: Config, run: seq<Request>, client: Client, from: real, length: int, leftClosed: bool, now: real)
    requires InWindow(now, from, length, leftClosed)
    ensures
      |AllowedInWindow(cfg, run, client, from, length, leftClosed)| <=
      |AllowedSince(cfg, run, client, now - length as real)|
  {
    hide AnswerAt;
    SubsetIsNoLarger(AllowedInWindow(cfg, run, client, from, length, leftClosed),
                     AllowedSince(cfg, run, client, now - length as real));
  }

  /** When a request in the window is allowed, the window held fewer requests than the limit before it. */
  lemma RoomBeforeAllowed(cfg: Config, run: seq<Request>, i: nat, rate: Rate, from: real, leftClosed: bool)
    requires ClockNeverGoesBack(run) && i < |run| && AnswerAt(cfg, run, i) == Allowed
    requires GetRates(cfg, ScopeOf(run[i])).Success? && rate in GetRates(cfg, ScopeOf(run[i])).value
    requires !cfg.whitelisted(ClientOf(run[i]).ident)
    requires InWindow(run[i].time, from, rate.duration, leftClosed)
    ensures |AllowedInWindow(cfg, run[..i], ClientOf(run[i]), from, rate.duration, leftClosed)| < rate.limit
  {
    hide AnswerAt, GetRates, AllowedInWindow, AllowedSince, InWindow;
    AnswersAgreeWithLog(cfg, run, i);
    WindowWithinLog(cfg, run[..i], ClientOf(run[i]), from, rate.duration, leftClosed, run[i].time);
  }

  /**
   In every run, a window as long as a rate's period holds at most the rate's limit of allowed requests per
   client.
   */
  lemma {:induction false} WindowNeverOverfull(
      cfg: Config, run: seq<Request>, client: Client, rate: Rate, from: real, leftClosed: bool)
    requires ClockNeverGoesBack(run)
    requires GetRates(cfg, client.scope).Success? && rate in GetRates(cfg, client.scope).value
    requires !cfg.whitelisted(client.ident)
    ensures |AllowedInWindow(cfg, run, client, from, rate.duration, leftClosed)| <=
      if rate.limit < 0 then 0 else rate.limit
  {
    if run == [] {
      assert AllowedInWindow(cfg, run, client, from, rate.duration, leftClosed) == {};
    } else {
      hide AnswerAt, GetRates, AllowedInWindow, InWindow;
      var last := |run| - 1;
      WindowNeverOverfull(cfg, run[..last], client, rate, from, leftClosed);
      WindowOneMore(cfg, run, client, from, rate.duration, leftClosed);
      if ClientOf(run[last]) == client && AnswerAt(cfg, run, last) == Allowed &&
         InWindow(run[last].time, from, rate.duration, leftClosed)
      {
        RoomBeforeAllowed(cfg, run, last, rate, from, leftClosed);
      }
      assert |AllowedInWindow(cfg, run, client, from, rate.duration, leftClosed)| <=
        if rate.limit < 0 then 0 else rate.limit;
    }
  }

  // -------------------------------------------------------------------------
  // The promised wait
  // -------------------------------------------------------------------------

  lemma {:induction false} WaitsOfBlockingRates(cache: Cache, client: Client, rates: seq<Rate>, now: real)
    ensures forall rate <- rates ::
      var history := Live(cache, client, rate, now);
      |history| >= rate.limit ==> WaitTime(history, rate, now) in Waits(cache, client, rates, now)
    ensures forall w <- Waits(cache, client, rates, now) :: exists rate <- rates ::
      var history := Live(cache, client, rate, now);
      |history| >= rate.limit && w == WaitTime(history, rate, now)
  {
    hide Live, WaitTime;
    if rates == [] {
    } else {
      var last := |rates| - 1;
      WaitsOfBlockingRates(cache, client, rates[..last], now);
      assert forall rate <- rates :: rate in rates[..last] || rate == rates[last];
    }
  }

  /** A history of `n` entries, nothing added, later holds fewer than `n` iff its oldest entry has expired. */
  lemma FullHistoryOpens(history: seq<real>, cutoff: real)
    requires NewestFirst(history) && history != []
    ensures |Recent(history, cutoff)| < |history| <==> history[|history| - 1] <= cutoff
  {
    hide Recent;
    if history[|history| - 1] <= cutoff {
      OldestIsDropped(history, cutoff);
    } else {
      AllRecent(history, cutoff);
    }
  }

  /**
   One rate, seen at `now` and again at `later` with nothing allowed in between. A blocking rate
   whose history holds no more than its limit unblocks exactly when its wait has passed, and
   never if its limit is not positive.
   */
  lemma RateUnblocksWhenWaitIsOver(log: seq<real>, rate: Rate, now: real, later: real)
    requires NewestFirst(log) && (log != [] ==> log[0] <= now) && now <= later && rate.duration > 0
    requires |Recent(log, now - rate.duration as real)| <= if rate.limit < 0 then 0 else rate.limit
    ensures
      var history := Recent(log, now - rate.duration as real);
      var wait := WaitTime(history, rate, now);
      var openLater := |Recent(log, later - rate.duration as real)| < rate.limit;
      if |history| < rate.limit then openLater
      else wait > 0.0 && (openLater <==> rate.limit >= 1 && later >= now + wait)
  {
    hide Recent, NewestFirst, WaitTime;
    var d := rate.duration as real;
    var history := Recent(log, now - d);
    RecentOfRecent(log, now - d, later - d);
    RecentIsNewestFirst(log, now - d);
    if |history| >= rate.limit {
      WaitOfBlockingRate(history, rate, now);
      if history != [] {
        FullHistoryOpens(history, later - d);
      }
    }
  }

  /** A blocking rate's wait is what its oldest entry has left, or all of its duration. */
  lemma WaitOfBlockingRate(history: seq<real>, rate: Rate, now: real)
    requires rate.limit <= |history| <= if rate.limit < 0 then 0 else rate.limit
    ensures WaitTime(history, rate, now) ==
      if history == [] then rate.duration as real
      else rate.duration as real - (now - history[|history| - 1])
  {
    var remaining :=
      if history != [] then rate.duration as real - (now - history[|history| - 1])
      else rate.duration as real;
    var available := rate.limit - |history| + 1;
    if available > 0 {
      assert available == 1 && remaining / 1.0 == remaining;
    }
  }

  lemma OldestIsDropped(history: seq<real>, cutoff: real)
    requires history != [] && history[|history| - 1] <= cutoff
    ensures |Recent(history, cutoff)| < |history|
  {
    var last := |history| - 1;
    assert history == history[..last] + [history[last]];
    RecentOfConcat(history[..last], [history[last]], cutoff);
  }

  lemma {:induction false} LogUnchangedWhileDenied(cfg: Config, run: seq<Request>, i: nat, j: nat, client: Client)
    requires i <= j <= |run|
    requires forall k: nat :: i <= k < j && ClientOf(run[k]) == client ==> AnswerAt(cfg, run, k) != Allowed
    ensures AllowedTimes(cfg, run[..j], client) == AllowedTimes(cfg, run[..i], client)
    decreases j
  {
    hide AnswerAt;
    if i >= j {
    } else {
      LogUnchangedWhileDenied(cfg, run, i, j - 1, client);
      assert run[..j][..j - 1] == run[..j - 1];
      SamePrefixSameAnswer(cfg, run, j, j - 1);
    }
  }

  lemma SamePrefixSameAnswer(cfg: Config, run: seq<Request>, j: nat, k: nat)
    requires k < j <= |run|
    ensures AnswerAt(cfg, run[..j], k) == AnswerAt(cfg, run, k)
  {
    assert run[..j][..k] == run[..k];
  }

  /** What one denied request knows about one of its rates: how full it is, now and at a later request. */
  lemma {:induction false} RateAcrossDenials(cfg: Config, run: seq<Request>, i: nat, j: nat, rate: Rate)
    requires ClockNeverGoesBack(run) && i < j < |run| && ClientOf(run[i]) == ClientOf(run[j])
    requires GetRates(cfg, ScopeOf(run[i])).Success? && rate in GetRates(cfg, ScopeOf(run[i])).value
    requires !cfg.whitelisted(ClientOf(run[i]).ident)
    requires forall k: nat :: i <= k < j && ClientOf(run[k]) == ClientOf(run[i]) ==> AnswerAt(cfg, run, k) != Allowed
    ensures
      var history := Live(CacheAfter(cfg, run[..i]), ClientOf(run[i]), rate, run[i].time);
      var wait := WaitTime(history, rate, run[i].time);
      var openLater := |Live(CacheAfter(cfg, run[..j]), ClientOf(run[j]), rate, run[j].time)| < rate.limit;
      if |history| < rate.limit then openLater
      else wait > 0.0 && (openLater <==> rate.limit >= 1 && run[j].time >= run[i].time + wait)
  {
    hide *;
    LogAcrossDenials(cfg, run, i, j, rate);
    RateUnblocksWhenWaitIsOver(
      AllowedTimes(cfg, run[..i], ClientOf(run[i])), rate, run[i].time, run[j].time);
  }

  /** The histories at both requests are read off the log at the first one. */
  lemma {:induction false} LogAcrossDenials(cfg: Config, run: seq<Request>, i: nat, j: nat, rate: Rate)
    requires ClockNeverGoesBack(run) && i < j < |run| && ClientOf(run[i]) == ClientOf(run[j])
    requires GetRates(cfg, ScopeOf(run[i])).Success? && rate in GetRates(cfg, ScopeOf(run[i])).value
    requires !cfg.whitelisted(ClientOf(run[i]).ident)
    requires forall k: nat :: i <= k < j && ClientOf(run[k]) == ClientOf(run[i]) ==> AnswerAt(cfg, run, k) != Allowed
    ensures
      var client, d := ClientOf(run[i]), rate.duration as real;
      var log := AllowedTimes(cfg, run[..i], client);
      Live(CacheAfter(cfg, run[..i]), client, rate, run[i].time) == Recent(log, run[i].time - d) &&
      Live(CacheAfter(cfg, run[..j]), client, rate, run[j].time) == Recent(log, run[j].time - d) &&
      |Recent(log, run[i].time - d)| <= (if rate.limit < 0 then 0 else rate.limit) &&
      NewestFirst(log) && (log != [] ==> log[0] <= run[i].time) && run[i].time <= run[j].time && rate.duration > 0
  {
    assert rate.duration > 0 && ScopeOf(run[j]) == ScopeOf(run[i]);
    assert ClockNeverGoesBack(run[..i]) && run[i].time <= run[j].time;
    assert i > 0 ==> run[..i][i - 1].time <= run[i].time;
    hide *;
    var client := ClientOf(run[i]);
    LiveInRun(cfg, run, i, rate);
    LiveInRun(cfg, run, j, rate);
    LogUnchangedWhileDenied(cfg, run, i, j, client);
    AllowedTimesNewestFirst(cfg, run[..i], client);
    HistoryNeverOverfull(cfg, run, i, rate);
  }

  lemma {:induction false} HistoryNeverOverfull(cfg: Config, run: seq<Request>, i: nat, rate: Rate)
    requires ClockNeverGoesBack(run) && i < |run|
    requires GetRates(cfg, ScopeOf(run[i])).Success? && rate in GetRates(cfg, ScopeOf(run[i])).value
    requires !cfg.whitelisted(ClientOf(run[i]).ident)
    ensures |Recent(AllowedTimes(cfg, run[..i], ClientOf(run[i])), run[i].time - rate.duration as real)| <=
      if rate.limit < 0 then 0 else rate.limit
  {
    hide GetRates, AnswerAt, Recent, AllowedTimes;
    var client, since := ClientOf(run[i]), run[i].time - rate.duration as real;
    AllowedSinceCounts(cfg, run[..i], client, since);
    WindowNeverOverfull(cfg, run[..i], client, rate, since, false);
    LogIsWindow(cfg, run, i, client, since, rate.duration);
  }

  lemma LogIsWindow(cfg: Config, run: seq<Request>, i: nat, client: Client, since: real, length: int)
    requires ClockNeverGoesBack(run) && i < |run| && since == run[i].time - length as real
    ensures AllowedSince(cfg, run[..i], client, since) == AllowedInWindow(cfg, run[..i], client, since, length, false)
  {
    hide AnswerAt, ClientOf;
  }

  /** As long as nothing has been allowed to the client since its denial, its wait decides. */
  lemma WaitIsExactIfIdle(cfg: Config, run: seq<Request>, i: nat, j: nat)
    requires ClockNeverGoesBack(run) && i < j < |run| && ClientOf(run[i]) == ClientOf(run[j])
    requires AnswerAt(cfg, run, i).Denied?
    requires forall k: nat :: i < k < j && ClientOf(run[k]) == ClientOf(run[i]) ==> AnswerAt(cfg, run, k) != Allowed
    ensures
      var wait := AnswerAt(cfg, run, i).wait;
      wait > 0.0 &&
      (AnswerAt(cfg, run, j) == Allowed <==>
       run[j].time >= run[i].time + wait && forall rate <- GetRates(cfg, ScopeOf(run[i])).value :: rate.limit >= 1)
  {
    hide GetRates, Live, CacheAfter, WaitTime, Waits, Record;
    var client, now, later := ClientOf(run[i]), run[i].time, run[j].time;
    var rates := GetRates(cfg, client.scope).value;
    var cache := CacheAfter(cfg, run[..i]);
    forall rate <- rates
      ensures
        var history := Live(cache, client, rate, now);
        var wait := WaitTime(history, rate, now);
        var openLater := |Live(CacheAfter(cfg, run[..j]), client, rate, later)| < rate.limit;
        if |history| < rate.limit then openLater
        else wait > 0.0 && (openLater <==> rate.limit >= 1 && later >= now + wait)
    {
      RateAcrossDenials(cfg, run, i, j, rate);
    }
    WaitsOfBlockingRates(cache, client, rates, now);
    NoWaitsIffNothingBlocks(CacheAfter(cfg, run[..j]), client, rates, later);
  }

  /** Before the wait is over nothing is allowed to the client, whatever it asks. */
  lemma NothingAllowedWithinWait(cfg: Config, run: seq<Request>, i: nat, j: nat)
    requires ClockNeverGoesBack(run) && i < j < |run| && ClientOf(run[i]) == ClientOf(run[j])
    requires AnswerAt(cfg, run, i).Denied? && run[j].time < run[i].time + AnswerAt(cfg, run, i).wait
    ensures AnswerAt(cfg, run, j) != Allowed
    decreases j
  {
    hide AnswerAt, GetRates;
    forall k: nat | i < k < j && ClientOf(run[k]) == ClientOf(run[i]) ensures AnswerAt(cfg, run, k) != Allowed {
      NothingAllowedWithinWait(cfg, run, i, k);
    }
    WaitIsExactIfIdle(cfg, run, i, j);
  }

  /**
   The wait told to a denied client is exact: it is positive, nothing is allowed before it is over, and the first
   request after that is allowed, if every limit of the scope is at least 1; with a smaller limit none ever is.
   */
  lemma WaitIsExact(cfg: Config, run: seq<Request>, i: nat, j: nat)
    requires ClockNeverGoesBack(run) && i < j < |run| && ClientOf(run[i]) == ClientOf(run[j])
    requires AnswerAt(cfg, run, i).Denied?
    requires forall k: nat ::
      i < k < j && ClientOf(run[k]) == ClientOf(run[i]) && run[k].time >= run[i].time + AnswerAt(cfg, run, i).wait ==>
      AnswerAt(cfg, run, k) != Allowed
    ensures
      var wait := AnswerAt(cfg, run, i).wait;
      wait > 0.0 &&
      (AnswerAt(cfg, run, j) == Allowed <==>
       run[j].time >= run[i].time + wait && forall rate <- GetRates(cfg, ScopeOf(run[i])).value :: rate.limit >= 1)
  {
    hide AnswerAt, GetRates;
    forall k: nat | i < k < j && ClientOf(run[k]) == ClientOf(run[i]) ensures AnswerAt(cfg, run, k) != Allowed {
      if run[k].time < run[i].time + AnswerAt(cfg, run, i).wait {
        NothingAllowedWithinWait(cfg, run, i, k);
      }
    }
    WaitIsExactIfIdle(cfg, run, i, j);
  }

  ghost predicate DeniedAfter(cfg: Config, run: seq<Request>, req: Request) {
    ClockNeverGoesBack(run + [req]) ==> AnswerAt(cfg, run + [req], |run|).Denied?
  }

  /** A limited client is always denied, whatever was served before, iff some limit of its scope is below 1. */
  lemma NeverOpenIff(cfg: Config, req: Request)
    requires GetRates(cfg, ScopeOf(req)).Success? && !cfg.whitelisted(ClientOf(req).ident)
    ensures
      (forall run: seq<Request> :: DeniedAfter(cfg, run, req)) <==>
      exists rate <- GetRates(cfg, ScopeOf(req)).value :: rate.limit < 1
  {
    hide GetRates, DeniedAfter;
    var rates := GetRates(cfg, ScopeOf(req)).value;
    forall run: seq<Request> | exists rate <- rates :: rate.limit < 1 ensures DeniedAfter(cfg, run, req) {
      DeniedAfterUnlessLogAllows(cfg, run, req);
    }
    if forall rate <- rates :: rate.limit >= 1 {
      forall rate <- rates {
        NothingAllowedYet(cfg, ClientOf(req), req.time - rate.duration as real);
      }
      DeniedAfterUnlessLogAllows(cfg, [], req);
      assert !DeniedAfter(cfg, [], req);
    }
  }

  lemma DeniedAfterUnlessLogAllows(cfg: Config, run: seq<Request>, req: Request)
    requires GetRates(cfg, ScopeOf(req)).Success? && !cfg.whitelisted(ClientOf(req).ident)
    ensures DeniedAfter(cfg, run, req) <==>
      (ClockNeverGoesBack(run + [req]) ==> !LogLimiterAllows(cfg, run, GetRates(cfg, ScopeOf(req)).value, req))
  {
    hide GetRates, LogLimiterAllows, CacheAfter, Waits, Record, Max;
    if ClockNeverGoesBack(run + [req]) {
      AnswersAgreeWithLog(cfg, run + [req], |run|);
      assert (run + [req])[..|run|] == run;
    }
  }

  lemma NothingAllowedYet(cfg: Config, client: Client, since: real)
    ensures AllowedSince(cfg, [], client, since) == {}
  {
  }

  /** The setting "0/m" tells the first client to come back in a minute, and denies it then and ever after. */
  lemma {:induction false} ZeroPerMinutePromisesFalsely(cfg: Config, first: Request, later: Request)
    requires ScopeOf(first) in cfg.rateSettings && cfg.rateSettings[ScopeOf(first)] == Single("0/m")
    requires cfg.toInt("0") == Some(0) && !cfg.whitelisted(ClientOf(first).ident)
    requires ClientOf(later) == ClientOf(first) && first.time + 60.0 <= later.time
    ensures AnswerAt(cfg, [first, later], 0) == Denied(60.0)
    ensures AnswerAt(cfg, [first, later], 1).Denied?
  {
    var rate := Rate("0/m", 0, 60);
    ZeroPerMinuteIsRead(cfg, ScopeOf(first));
    hide GetRates, WaitTime, Live, Record;
    assert [first, later][..0] == [] && [first, later] == [first] + [later];
    FirstWait(ClientOf(first), rate, first.time);
    NeverOpenIff(cfg, later);
    assert DeniedAfter(cfg, [first], later);
  }

  lemma {:induction false} ZeroPerMinuteIsRead(cfg: Config, scope: string)
    requires scope in cfg.rateSettings && cfg.rateSettings[scope] == Single("0/m") && cfg.toInt("0") == Some(0)
    ensures GetRates(cfg, scope) == Success([Rate("0/m", 0, 60)])
  {
    SplitAtSlash("0", "m");
    assert "0" + "/" + "m" == "0/m";
    assert ParseRate(cfg, "0/m") == Success(Rate("0/m", 0, 60));
    assert RateTexts(Single("0/m")) == ["0/m"];
    hide ParseRate;
    assert GetRates(cfg, scope).value == [Rate("0/m", 0, 60)];
  }

  /** A rate that blocks a client without history has it wait for all of its duration. */
  lemma FirstWait(client: Client, rate: Rate, now: real)
    requires rate.limit == 0
    ensures Waits(map[], client, [rate], now) == [rate.duration as real]
  {
    assert [rate][..0] == [] && Live(map[], client, rate, now) == [];
    WaitOfBlockingRate([], rate, now);
  }
}
