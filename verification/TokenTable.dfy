/** The usage table of artpm_agent/core/token_monitor.py, the aggregates read from it, and the cache entries
    that hold them. */
module TokenTable {

  /** One tracked request. */
  datatype Use = Use(day: nat, tokens: nat, details: string)

  type Table = seq<Use>

  function Day(time: nat): (day: nat)
    ensures day * 86400 <= time < (day + 1) * 86400
  {
    time / 86400
  }

  /** The cached aggregates; each is one cache key. The key of `Today` carries no date. */
  datatype Query = Today | Hourly | Since(start: int) | Models(days: nat) | Features(days: nat) | Trend(days: nat)

  /** An answer: the tokens that budgets are checked against, or some other report. */
  datatype Value = Tokens(n: nat) | Report(content: string)

  /** A query as a function of the table and of the day it is asked on. */
  type Aggregate = (Query, Table, nat) -> Value

  function Ttl(q: Query): nat {
    if q.Today? || q.Since? then 15 else 30
  }

  /** A cache entry; the server drops it at `expires`. */
  datatype Cached = Cached(value: Value, expires: nat)

  // ---------- Totals ----------

  /** The two `WHERE` clauses of the totals. */
  datatype Clause = On(day: nat) | From(start: int)

  predicate Selects(c: Clause, use: Use) {
    match c
    case On(day) => use.day == day
    case From(start) => use.day >= start
  }

  /** The tokens of the rows a clause selects. */
  function Total(rows: Table, c: Clause): nat {
    if rows == [] then 0
    else (if Selects(c, rows[|rows| - 1]) then rows[|rows| - 1].tokens else 0) + Total(rows[..|rows| - 1], c)
  }

  function OnDay(rows: Table, day: nat): nat {
    Total(rows, On(day))
  }

  function SinceDay(rows: Table, start: int): nat {
    Total(rows, From(start))
  }

  /** The aggregates, with the reports that budgets do not use left open. */
  function Answer(reports: (Query, Table, nat) -> string, q: Query, rows: Table, day: nat): Value {
    match q
    case Today => Tokens(OnDay(rows, day))
    case Since(start) => Tokens(SinceDay(rows, start))
    case _ => Report(reports(q, rows, day))
  }
}
