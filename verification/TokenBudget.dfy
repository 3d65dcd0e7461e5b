/** Token budgets (artpm_agent/core/token_monitor.py) in one process whose calls do not overlap and whose
    invalidations work: cached aggregates are current, and guarded tracking never exceeds a limit. */
module TokenBudget {
  import opened Common
  import opened TokenTable

  // ---------- Totals ----------

  /** Tokens of the period that starts on a day, for periods given by their first days. */
  function InPeriod(rows: Table, first: int -> int, start: int): nat {
    if rows == [] then 0
    else (if first(rows[|rows| - 1].day) == start then rows[|rows| - 1].tokens else 0) + InPeriod(rows[..|rows| - 1], first, start)
  }

  /** No row is dated after a day. */
  predicate NoneAfter(rows: Table, day: int) {
    forall i :: 0 <= i < |rows| ==> rows[i].day <= day
  }

  /** `first` gives each day the first day of its week or month. */
  ghost predicate Calendar(first: int -> int) {
    && (forall d: int :: first(d) <= d && first(first(d)) == first(d))
    && (forall d: int, e: int :: d <= e ==> first(d) <= first(e))
  }

  lemma {:induction false} NothingOnLaterDay(rows: Table, last: int, day: nat)
    requires NoneAfter(rows, last) && last < day
    ensures OnDay(rows, day) == 0 && SinceDay(rows, day) == 0
  {
    if rows != [] {
      NothingOnLaterDay(rows[..|rows| - 1], last, day);
    }
  }

  /** While no row is dated after today, the tokens since the start of today's period are the tokens
      of that period. */
  lemma {:induction false} SinceIsPeriod(rows: Table, first: int -> int, today: nat)
    requires Calendar(first) && NoneAfter(rows, today)
    ensures SinceDay(rows, first(today)) == InPeriod(rows, first, first(today))
  {
    if rows != [] {
      SinceIsPeriod(rows[..|rows| - 1], first, today);
      var day := rows[|rows| - 1].day;
      if day >= first(today) {
        assert first(first(today)) <= first(day) <= first(today);
      }
    }
  }

  lemma {:induction false} EarlierStartCountsMore(rows: Table, early: int, late: int)
    requires early <= late
    ensures SinceDay(rows, late) <= SinceDay(rows, early)
  {
    if rows != [] {
      EarlierStartCountsMore(rows[..|rows| - 1], early, late);
    }
  }

  lemma {:induction false} PeriodNotStarted(rows: Table, first: int -> int, last: int, start: int)
    requires Calendar(first) && NoneAfter(rows, last) && last < start
    ensures InPeriod(rows, first, start) == 0
  {
    if rows != [] {
      PeriodNotStarted(rows[..|rows| - 1], first, last, start);
      assert first(rows[|rows| - 1].day) <= rows[|rows| - 1].day;
    }
  }

  lemma OneMore(rows: Table, use: Use, first: int -> int)
    ensures forall day :: OnDay(rows + [use], day) == OnDay(rows, day) + if use.day == day then use.tokens else 0
    ensures forall start :: InPeriod(rows + [use], first, start) == InPeriod(rows, first, start) + if first(use.day) == start then use.tokens else 0
  {
    assert (rows + [use])[..|rows + [use]| - 1] == rows;
  }

  // ---------- The monitor ----------

  /** The usage table with its cache. Cache reads and writes may fail; invalidation works. */
  class Monitor {
    const reports: (Query, Table, nat) -> string
    var rows: Table
    var cache: map<Query, Cached>
    ghost var clock: nat
    /** The day each cached answer was taken for. */
    ghost var takenOn: map<Query, nat>

    /** A cached answer is that of the current table, for the day it was taken on, after which nothing
        has been tracked. */
    ghost predicate Valid()
      reads this
    {
      && NoneAfter(rows, Day(clock))
      && takenOn.Keys == cache.Keys
      && forall q :: q in cache ==>
        && takenOn[q] <= Day(clock) && NoneAfter(rows, takenOn[q])
        && cache[q].expires <= (takenOn[q] + 1) * 86400 + Ttl(q)
        && cache[q].value == Answer(reports, q, rows, takenOn[q])
    }

    constructor (reports: (Query, Table, nat) -> string)
      ensures Valid() && rows == [] && clock == 0
    {
      this.reports := reports;
      rows, cache, clock, takenOn := [], map[], 0, map[];
    }

    /** Records a request and drops the cached aggregates. */
    method Track(input: int, output: int, details: string, now: nat) returns (r: Result<(), string>)
      requires Valid() && clock <= now
      modifies this
      ensures Valid() && clock == now
      ensures r.Err? <==> input < 0 || output < 0
      ensures rows == if r.Err? then old(rows) else old(rows) + [Use(Day(now), input + output, details)]
      ensures cache == if r.Err? then old(cache) else map[]
    {
      clock := now;
      if input < 0 || output < 0 {
        return Err("token counts and cost cannot be negative");
      }
      rows := rows + [Use(Day(now), input + output, details)];
      cache, takenOn := map[], map[];
      return Ok(());
    }

    /** Any of the read-through getters: the answer of the current table, for today. A cached answer does
        not carry its date: within the time to live after midnight it can still be for the day before,
        but only while nothing has been tracked since. */
    method ReadThrough(q: Query, now: nat, readFails: bool, writeFails: bool) returns (value: Value, ghost day: nat)
      requires Valid() && clock <= now
      modifies this
      ensures Valid() && clock == now && rows == old(rows)
      ensures if !readFails && q in old(cache) && now < old(cache)[q].expires
        then value == old(cache)[q].value && cache == old(cache)
        else day == Day(now) && cache == if writeFails then old(cache) else old(cache)[q := Cached(value, now + Ttl(q))]
      ensures day <= Day(now) && value == Answer(reports, q, rows, day) && NoneAfter(rows, day)
      ensures day < Day(now) ==> now < (day + 1) * 86400 + if q.Today? || q.Since? then 15 else 30
    {
      hide TokenTable.Answer, TokenTable.Day;
      clock := now;
      day := Day(now);
      if !readFails && q in cache && now < cache[q].expires {
        return cache[q].value, takenOn[q];
      }
      value := Compute(q, now);
      if !writeFails {
        Remember(q, value, now);
      }
    }

    method Remember(q: Query, value: Value, now: nat)
      requires Valid() && clock == now && value == Answer(reports, q, rows, Day(now))
      modifies this`cache, this`takenOn
      ensures Valid() && cache == old(cache)[q := Cached(value, now + Ttl(q))] && takenOn == old(takenOn)[q := Day(now)]
    {
      hide TokenTable.Answer, TokenTable.Day;
      cache := cache[q := Cached(value, now + Ttl(q))];
      takenOn := takenOn[q := Day(now)];
    }

    /** Reads an aggregate from the table. */
    method Compute(q: Query, now: nat) returns (value: Value)
      ensures value == Answer(reports, q, rows, Day(now))
    {
      match q {
        case Today =>
          var n := Sum(On(Day(now)));
          value := Tokens(n);
        case Since(start) =>
          var n := Sum(From(start));
          value := Tokens(n);
        case _ =>
          value := Report(reports(q, rows, Day(now)));
      }
    }

    /** The SQL sum over the rows that qualify. */
    method Sum(c: Clause) returns (tokens: nat)
      ensures tokens == Total(rows, c)
    {
      tokens := 0;
      for i := 0 to |rows|
        invariant tokens == Total(rows[..i], c)
      {
        assert rows[..i + 1][..i] == rows[..i];
        if Selects(c, rows[i]) {
          tokens := tokens + rows[i].tokens;
        }
      }
      assert rows[..|rows|] == rows;
    }
  }

  // ---------- The budget ----------

  /** Monday is 0; day 0 is a Thursday. */
  function Weekday(day: int): int {
    (day + 3) % 7
  }

  function WeekStart(day: int): int {
    day - Weekday(day)
  }

  /** Weeks begin on Mondays: 1 January 1970 was a Thursday, and every seventh day from 5 January begins one. */
  lemma WeeksBeginOnMondays(day: int)
    ensures Weekday(0) == 3
    ensures WeekStart(day) == day <==> (day - 4) % 7 == 0
    ensures 0 <= day - WeekStart(day) < 7
  {
  }

  lemma WeekStartByDivision(day: int)
    ensures WeekStart(day) == 7 * ((day + 3) / 7) - 3
  {
  }

  lemma WeekStartOnMonday(day: int)
    ensures WeekStart(day) <= day && WeekStart(WeekStart(day)) == WeekStart(day)
  {
    WeekStartByDivision(day);
    WeekStartByDivision(WeekStart(day));
  }

  lemma WeekStartsInOrder(d: int, e: int)
    requires d <= e
    ensures WeekStart(d) <= WeekStart(e)
  {
    WeekStartByDivision(d);
    WeekStartByDivision(e);
  }

  lemma WeeksAreCalendar()
    ensures Calendar(WeekStart)
  {
    hide WeekStart;
    forall d: int ensures WeekStart(d) <= d && WeekStart(WeekStart(d)) == WeekStart(d) {
      WeekStartOnMonday(d);
    }
    forall d: int, e: int | d <= e ensures WeekStart(d) <= WeekStart(e) {
      WeekStartsInOrder(d, e);
    }
  }

  datatype Period = Daily | Weekly | Monthly | PerRequest | Unsupported

  datatype Check = Check(canProceed: bool, limit: int, current: nat, remaining: int, afterRequest: int)

  /** A guarded request: what is asked for, what is then recorded, the clock at each look (two for the
      week's first day), and whether the cache fails. */
  datatype Request = Request(requested: int, input: int, output: int, details: string, daily: nat, week: nat, weekday: nat, month: nat, tracked: nat, cacheFails: bool)

  predicate InOrder(r: Request, clock: nat) {
    clock <= r.daily <= r.week <= r.weekday <= r.month <= r.tracked
  }

  function ClockBefore(requests: seq<Request>, start: nat, i: nat): nat
    requires i <= |requests|
  {
    if i == 0 then start else requests[i - 1].tracked
  }

  /** Requests one after the other, each recording no more than it asks for. */
  predicate Sequenced(requests: seq<Request>, start: nat) {
    forall i :: 0 <= i < |requests| ==>
      InOrder(requests[i], ClockBefore(requests, start, i)) && requests[i].input + requests[i].output <= requests[i].requested
  }

  ghost predicate Within(rows: Table, limits: map<Period, int>, monthStart: int -> int)
    requires {Daily, Weekly, Monthly} <= limits.Keys
  {
    && (forall day :: OnDay(rows, day) <= limits[Daily])
    && (forall start :: InPeriod(rows, WeekStart, start) <= limits[Weekly])
    && (forall start :: InPeriod(rows, monthStart, start) <= limits[Monthly])
  }

  class Budget {
    const monitor: Monitor
    /** The first day of the month of a day. */
    const monthStart: int -> int
    var limits: map<Period, int>

    ghost predicate Valid()
      reads this, monitor
    {
      && monitor.Valid() && Calendar(monthStart)
      && limits.Keys == {Daily, Weekly, Monthly, PerRequest}
    }

    /** No day, week or month holds more than its limit. */
    ghost predicate WithinLimits()
      requires Valid()
      reads this, monitor
    {
      Within(monitor.rows, limits, monthStart)
    }

    constructor (monitor: Monitor, monthStart: int -> int, limits: map<Period, int>)
      requires monitor.Valid() && Calendar(monthStart) && limits.Keys == {Daily, Weekly, Monthly, PerRequest}
      ensures Valid() && this.monitor == monitor && this.monthStart == monthStart && this.limits == limits
    {
      this.monitor, this.monthStart, this.limits := monitor, monthStart, limits;
    }

    /** Answers whether a request still fits its period. `now` and `later` are the two looks at the
        clock that computing the week's first day takes. */
    method CheckLimit(requested: int, period: Period, now: nat, later: nat, cacheFails: bool) returns (r: Result<Check, string>, ghost day: nat)
      requires Valid() && monitor.clock <= now <= later
      modifies monitor
      ensures Valid() && monitor.clock <= later && monitor.rows == old(monitor.rows)
      ensures r.Err? <==> period.Unsupported? || requested < 0 || limits[period] <= 0
      ensures r.Ok? ==>
        && r.value.limit == limits[period] && r.value.remaining == limits[period] - r.value.current
        && (r.value.canProceed <==> r.value.current + requested <= limits[period])
        && r.value.afterRequest == r.value.current + requested
        && match period
           case Daily => day <= Day(now) && NoneAfter(monitor.rows, day) && r.value.current == OnDay(monitor.rows, day)
           case Weekly => r.value.current == SinceDay(monitor.rows, Day(now) - Weekday(Day(later)))
           case Monthly => r.value.current == SinceDay(monitor.rows, monthStart(Day(now)))
           case PerRequest => r.value.current == 0
           case Unsupported => false
    {
      day := 0;
      if period !in limits {
        return Err("Unsupported budget period"), day;
      }
      if requested < 0 {
        return Err("requested_tokens cannot be negative"), day;
      }
      var limit := limits[period];
      if limit <= 0 {
        return Err("token limit must be greater than zero"), day;
      }
      var current := 0;
      match period {
        case Daily =>
          var value;
          value, day := monitor.ReadThrough(Today, now, cacheFails, cacheFails);
          current := value.n;
        case Weekly =>
          var value, _ := monitor.ReadThrough(Since(Day(now) - Weekday(Day(later))), later, cacheFails, cacheFails);
          current := value.n;
        case Monthly =>
          var value, _ := monitor.ReadThrough(Since(monthStart(Day(now))), now, cacheFails, cacheFails);
          current := value.n;
        case _ =>
      }
      return Ok(Check(current + requested <= limit, limit, current, limit - current, current + requested)), day;
    }

    method SetLimit(period: Period, value: int) returns (r: Result<(), string>)
      requires Valid()
      modifies this`limits
      ensures Valid()
      ensures r.Err? <==> period.Unsupported? || value <= 0
      ensures limits == if r.Err? then old(limits) else old(limits)[period := value]
    {
      if period !in limits {
        return Err("Unsupported budget period");
      }
      if value <= 0 {
        return Err("limit must be greater than zero");
      }
      limits := limits[period := value];
      return Ok(());
    }
  }

  lemma StaysWithin(rows: Table, use: Use, r: Request, day: nat, limits: map<Period, int>, monthStart: int -> int)
    requires {Daily, Weekly, Monthly} <= limits.Keys && Calendar(monthStart) && Within(rows, limits, monthStart)
    requires InOrder(r, r.daily) && use.day == Day(r.tracked) && use.tokens <= r.requested
    requires NoneAfter(rows, day) && NoneAfter(rows, Day(r.daily)) && day <= Day(r.daily)
    requires OnDay(rows, day) + r.requested <= limits[Daily]
    requires SinceDay(rows, Day(r.week) - Weekday(Day(r.weekday))) + r.requested <= limits[Weekly]
    requires SinceDay(rows, monthStart(Day(r.month))) + r.requested <= limits[Monthly]
    ensures Within(rows + [use], limits, monthStart)
  {
    hide OnDay, InPeriod, SinceDay, Weekday, WeekStart, Calendar;
    DayStaysWithin(rows, use, day, limits[Daily], r.requested);
    WeekStaysWithin(rows, use, Day(r.week), Day(r.weekday), limits[Weekly], r.requested);
    MonthStaysWithin(rows, use, monthStart, Day(r.month), limits[Monthly], r.requested);
  }

  lemma DayStaysWithin(rows: Table, use: Use, checked: nat, limit: int, requested: int)
    requires NoneAfter(rows, checked) && checked <= use.day
    requires use.tokens <= requested && OnDay(rows, checked) + requested <= limit
    requires forall day :: OnDay(rows, day) <= limit
    ensures forall day :: OnDay(rows + [use], day) <= limit
  {
    OneMore(rows, use, WeekStart);
    if checked < use.day {
      NothingOnLaterDay(rows, checked, use.day);
    }
  }

  /** The week's first day is computed from two looks at the clock; between them a midnight may pass. */
  lemma WeekStaysWithin(rows: Table, use: Use, day: nat, later: nat, limit: int, requested: int)
    requires NoneAfter(rows, day) && day <= later <= use.day
    requires use.tokens <= requested && SinceDay(rows, day - Weekday(later)) + requested <= limit
    requires forall start :: InPeriod(rows, WeekStart, start) <= limit
    ensures forall start :: InPeriod(rows + [use], WeekStart, start) <= limit
  {
    WeeksAreCalendar();
    OneMore(rows, use, WeekStart);
    var start := WeekStart(use.day);
    hide Weekday;
    assert WeekStart(day) <= WeekStart(later) <= start;
    if WeekStart(day) == start {
      EarlierStartCountsMore(rows, day - Weekday(later), start);
      SinceIsPeriod(rows, WeekStart, day);
    } else {
      assert start <= day ==> WeekStart(start) <= WeekStart(day);
      PeriodNotStarted(rows, WeekStart, day, start);
    }
  }

  lemma MonthStaysWithin(rows: Table, use: Use, first: int -> int, day: nat, limit: int, requested: int)
    requires Calendar(first) && NoneAfter(rows, day) && day <= use.day
    requires use.tokens <= requested && SinceDay(rows, first(day)) + requested <= limit
    requires forall start :: InPeriod(rows, first, start) <= limit
    ensures forall start :: InPeriod(rows + [use], first, start) <= limit
  {
    OneMore(rows, use, first);
    var start := first(use.day);
    assert first(day) <= start;
    if first(day) == start {
      SinceIsPeriod(rows, first, day);
    } else {
      assert start <= day ==> first(start) <= first(day);
      PeriodNotStarted(rows, first, day, start);
    }
  }

  /** A caller that checks all three periods and, if each allows the request, records it. Tracking no
      more than was just allowed keeps every day, week and month within its limit, wherever midnights
      fall. */
  method Spend(budget: Budget, r: Request) returns (recorded: bool)
    requires budget.Valid() && budget.WithinLimits() && InOrder(r, budget.monitor.clock)
    requires r.input + r.output <= r.requested
    modifies budget.monitor
    ensures budget.Valid() && budget.WithinLimits() && budget.monitor.clock <= r.tracked
    ensures recorded ==> r.input >= 0 && r.output >= 0
    ensures var before := old(budget.monitor.rows);
      budget.monitor.rows == if recorded then before + [Use(Day(r.tracked), r.input + r.output, r.details)] else before
  {
    hide OnDay, SinceDay, InPeriod, Calendar, Weekday, WeekStart, Within, Day;
    var monitor, limits := budget.monitor, budget.limits;
    NothingLater(monitor.rows, monitor.clock, r.daily);
    var daily, day := budget.CheckLimit(r.requested, Daily, r.daily, r.daily, r.cacheFails);
    var weekly, _ := budget.CheckLimit(r.requested, Weekly, r.week, r.weekday, r.cacheFails);
    var monthly, _ := budget.CheckLimit(r.requested, Monthly, r.month, r.month, r.cacheFails);
    if daily.Err? || weekly.Err? || monthly.Err? || !daily.value.canProceed || !weekly.value.canProceed || !monthly.value.canProceed {
      return false;
    }
    ghost var rows := monitor.rows;
    var tracked := monitor.Track(r.input, r.output, r.details, r.tracked);
    if tracked.Ok? {
      StaysWithin(rows, Use(Day(r.tracked), r.input + r.output, r.details), r, day, limits, budget.monthStart);
    }
    return tracked.Ok?;
  }

  lemma NothingLater(rows: Table, clock: nat, now: nat)
    requires NoneAfter(rows, Day(clock)) && clock <= now
    ensures NoneAfter(rows, Day(now))
  {
  }

  /** Budget safety over whole runs: any sequence of guarded requests, with the clock moving on as it
      likes and limits only ever raised, keeps every total within its limit at every point. */
  method SpendAll(budget: Budget, requests: seq<Request>, raises: seq<(Period, int)>) returns (recorded: nat)
    requires budget.Valid() && budget.WithinLimits()
    requires |raises| == |requests| && Sequenced(requests, budget.monitor.clock)
    modifies budget`limits, budget.monitor
    ensures budget.Valid() && budget.WithinLimits()
    ensures recorded <= |requests| && |budget.monitor.rows| == |old(budget.monitor.rows)| + recorded
  {
    hide OnDay, InPeriod, Calendar, WeekStart, Day, NoneAfter;
    recorded := 0;
    ghost var start := budget.monitor.clock;
    for i := 0 to |requests|
      invariant budget.Valid() && budget.WithinLimits()
      invariant budget.monitor.clock <= ClockBefore(requests, start, i)
      invariant recorded <= i && |budget.monitor.rows| == |old(budget.monitor.rows)| + recorded
    {
      var ok := Spend(budget, requests[i]);
      recorded := recorded + if ok then 1 else 0;
      var (period, value) := raises[i];
      if period in budget.limits && value >= budget.limits[period] {
        var _ := budget.SetLimit(period, value);
      }
    }
  }
}
