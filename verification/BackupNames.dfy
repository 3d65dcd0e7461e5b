/** Names of snapshots (scripts/backup_data.py): stamps that sort in time order, and the names tried within
    one second. */
module BackupNames {
  import opened Common
  import opened Text

  // ---------- Stamps ----------

  /** A moment as `strftime` splits it. */
  datatype Time = Time(year: nat, month: nat, day: nat, hour: nat, minute: nat, second: nat)

  predicate IsTime(t: Time) {
    && 1000 <= t.year <= 9999 && 1 <= t.month <= 12 && 1 <= t.day <= 31
    && t.hour < 24 && t.minute < 60 && t.second < 60
  }

  /** A number with the digits it is padded to. */
  datatype Field = Field(width: nat, value: nat)

  function Power10(n: nat): nat {
    if n == 0 then 1 else 10 * Power10(n - 1)
  }

  function Padded(f: Field): (s: string)
    ensures |s| == f.width
    decreases f.width
  {
    if f.width == 0 then "" else Padded(Field(f.width - 1, f.value / 10)) + ['0' + (f.value % 10) as char]
  }

  function Digits(fields: seq<Field>): string {
    if fields == [] then "" else Padded(fields[0]) + Digits(fields[1..])
  }

  function Date(t: Time): seq<Field> {
    [Field(4, t.year), Field(2, t.month), Field(2, t.day)]
  }

  function Clock(t: Time): seq<Field> {
    [Field(2, t.hour), Field(2, t.minute), Field(2, t.second)]
  }

  /** `strftime("%Y%m%d_%H%M%S")`. */
  function Stamp(t: Time): string {
    Digits(Date(t)) + "_" + Digits(Clock(t))
  }

  /** The first field that differs decides. */
  predicate Earlier(a: seq<Field>, b: seq<Field>) {
    a != [] && b != [] && (a[0].value < b[0].value || (a[0].value == b[0].value && Earlier(a[1..], b[1..])))
  }

  predicate Before(a: Time, b: Time) {
    Earlier(Date(a) + Clock(a), Date(b) + Clock(b))
  }

  predicate SameWidths(a: seq<Field>, b: seq<Field>) {
    |a| == |b| && forall i :: 0 <= i < |a| ==>
      a[i].width == b[i].width && a[i].value < Power10(a[i].width) && b[i].value < Power10(b[i].width)
  }

  lemma {:induction false} PaddedLess(w: nat, m: nat, n: nat)
    requires m < n < Power10(w)
    ensures Less(Padded(Field(w, m)), Padded(Field(w, n)))
    decreases w
  {
    var p, q := Padded(Field(w - 1, m / 10)), Padded(Field(w - 1, n / 10));
    var x, y := ['0' + (m % 10) as char], ['0' + (n % 10) as char];
    if m / 10 < n / 10 {
      PaddedLess(w - 1, m / 10, n / 10);
      LessThen(p, q, x, y);
    } else {
      LessAfter(p, x, y);
    }
  }

  lemma {:induction false} DigitsLength(a: seq<Field>, b: seq<Field>)
    requires SameWidths(a, b)
    ensures |Digits(a)| == |Digits(b)|
  {
    if a != [] {
      DigitsLength(a[1..], b[1..]);
    }
  }

  lemma {:induction false} EarlierIsLess(a: seq<Field>, b: seq<Field>)
    requires SameWidths(a, b) && Earlier(a, b)
    ensures Less(Digits(a), Digits(b))
  {
    if a[0].value < b[0].value {
      PaddedLess(a[0].width, a[0].value, b[0].value);
      LessThen(Padded(a[0]), Padded(b[0]), Digits(a[1..]), Digits(b[1..]));
    } else {
      EarlierIsLess(a[1..], b[1..]);
      assert Padded(a[0]) == Padded(b[0]);
      LessAfter(Padded(a[0]), Digits(a[1..]), Digits(b[1..]));
    }
  }

  lemma {:induction false} EarlierSplits(a: seq<Field>, b: seq<Field>, c: seq<Field>, d: seq<Field>)
    requires |a| == |b| && Earlier(a + c, b + d)
    ensures Earlier(a, b) || ((forall i :: 0 <= i < |a| ==> a[i].value == b[i].value) && Earlier(c, d))
  {
    if a == [] {
      assert a + c == c && b + d == d;
    } else {
      assert (a + c)[1..] == a[1..] + c && (b + d)[1..] == b[1..] + d;
      if a[0].value == b[0].value {
        EarlierSplits(a[1..], b[1..], c, d);
      }
    }
  }

  lemma TimeWidths(a: Time, b: Time)
    requires IsTime(a) && IsTime(b)
    ensures SameWidths(Date(a), Date(b)) && SameWidths(Clock(a), Clock(b))
  {
    assert Power10(2) == 100;
    assert Power10(4) == 10000 by {
      assert Power10(3) == 1000;
    }
  }

  lemma StampLength(a: Time, b: Time)
    requires IsTime(a) && IsTime(b)
    ensures |Stamp(a)| == |Stamp(b)|
  {
    TimeWidths(a, b);
    DigitsLength(Date(a), Date(b));
    DigitsLength(Clock(a), Clock(b));
  }

  lemma {:induction false} PaddedReadsBack(f: Field)
    requires f.value < Power10(f.width)
    ensures DecimalValue(Padded(f)) == f.value
    ensures forall i :: 0 <= i < f.width ==> '0' <= Padded(f)[i] <= '9'
    decreases f.width
  {
    if f.width > 0 {
      PaddedReadsBack(Field(f.width - 1, f.value / 10));
      var s := Padded(f);
      assert s[..|s| - 1] == Padded(Field(f.width - 1, f.value / 10));
    }
  }

  lemma ThreeFields(f: seq<Field>)
    requires |f| == 3
    ensures Digits(f) == Padded(f[0]) + Padded(f[1]) + Padded(f[2])
  {
    assert Digits(f) == Padded(f[0]) + Digits(f[1..]);
    assert Digits(f[1..]) == Padded(f[1]) + Digits(f[1..][1..]);
    assert Digits(f[1..][1..]) == Padded(f[2]) + Digits(f[1..][1..][1..]);
    assert f[1..][1..][1..] == [];
  }

  /** The layout of a stamp: `YYYYMMDD_HHMMSS`, each field in decimal. */
  lemma StampLayout(t: Time)
    requires IsTime(t)
    ensures var s := Stamp(t);
      && |s| == 15 && s[8] == '_' && (forall i :: 0 <= i < 15 && i != 8 ==> '0' <= s[i] <= '9')
      && DecimalValue(s[..4]) == t.year && DecimalValue(s[4..6]) == t.month && DecimalValue(s[6..8]) == t.day
      && DecimalValue(s[9..11]) == t.hour && DecimalValue(s[11..13]) == t.minute && DecimalValue(s[13..15]) == t.second
  {
    hide Padded, DecimalValue, Digits;
    ThreeFields(Date(t));
    ThreeFields(Clock(t));
    TimeWidths(t, t);
    var year, month, day := Date(t)[0], Date(t)[1], Date(t)[2];
    var hour, minute, second := Clock(t)[0], Clock(t)[1], Clock(t)[2];
    PaddedReadsBack(year);
    PaddedReadsBack(month);
    PaddedReadsBack(day);
    PaddedReadsBack(hour);
    PaddedReadsBack(minute);
    PaddedReadsBack(second);
    var s := Stamp(t);
    assert s == Padded(year) + Padded(month) + Padded(day) + "_" + Padded(hour) + Padded(minute) + Padded(second);
    assert s[..4] == Padded(year) && s[4..6] == Padded(month) && s[6..8] == Padded(day);
    assert s[9..11] == Padded(hour) && s[11..13] == Padded(minute) && s[13..15] == Padded(second);
  }

  /** Stamps sort in time order. */
  lemma StampsInTimeOrder(a: Time, b: Time)
    requires IsTime(a) && IsTime(b) && Before(a, b)
    ensures Less(Stamp(a), Stamp(b))
  {
    hide Digits, SameWidths;
    TimeWidths(a, b);
    DigitsLength(Date(a), Date(b));
    EarlierSplits(Date(a), Date(b), Clock(a), Clock(b));
    var x, y := "_" + Digits(Clock(a)), "_" + Digits(Clock(b));
    assert Stamp(a) == Digits(Date(a)) + x && Stamp(b) == Digits(Date(b)) + y;
    if Earlier(Date(a), Date(b)) {
      EarlierIsLess(Date(a), Date(b));
      LessThen(Digits(Date(a)), Digits(Date(b)), x, y);
    } else {
      assert Date(a)[0].value == Date(b)[0].value && Date(a)[1].value == Date(b)[1].value && Date(a)[2].value == Date(b)[2].value;
      assert Date(a) == Date(b);
      EarlierIsLess(Clock(a), Clock(b));
      LessAfter("_", Digits(Clock(a)), Digits(Clock(b)));
      LessAfter(Digits(Date(a)), x, y);
    }
  }

  // ---------- Names within one second ----------

  /** The name of the n-th try within one second. */
  function Candidate(stamp: string, n: nat): string {
    if n == 0 then stamp else stamp + "_" + Decimal(n)
  }

  lemma CandidateNumber(stamp: string, n: nat)
    requires n > 0
    ensures |Candidate(stamp, n)| > |stamp| && DecimalValue(Candidate(stamp, n)[|stamp| + 1..]) == n
  {
    DecimalReadsBack(n);
    assert Candidate(stamp, n)[|stamp| + 1..] == Decimal(n);
  }

  lemma CandidatesDiffer(stamp: string, m: nat, n: nat)
    requires m != n
    ensures Candidate(stamp, m) != Candidate(stamp, n)
  {
    if m > 0 {
      CandidateNumber(stamp, m);
    }
    if n > 0 {
      CandidateNumber(stamp, n);
    }
  }

  function Candidates(stamp: string, n: nat): (names: set<string>)
    ensures forall k :: 0 <= k < n ==> Candidate(stamp, k) in names
    ensures forall name :: name in names ==> exists k :: 0 <= k < n && name == Candidate(stamp, k)
  {
    if n == 0 then {} else Candidates(stamp, n - 1) + {Candidate(stamp, n - 1)}
  }

  lemma {:induction false} CandidatesAreMany(stamp: string, n: nat)
    ensures |Candidates(stamp, n)| == n
  {
    hide Candidate;
    if n > 0 {
      CandidatesAreMany(stamp, n - 1);
      forall k | 0 <= k < n - 1 ensures Candidate(stamp, k) != Candidate(stamp, n - 1) {
        CandidatesDiffer(stamp, k, n - 1);
      }
    }
  }

  /** If the first `n` tries are all taken, there are at least `n` snapshots. */
  lemma TakenAreFew(names: set<string>, stamp: string, n: nat)
    requires forall k :: 0 <= k < n ==> Candidate(stamp, k) in names
    ensures n <= |names|
  {
    CandidatesAreMany(stamp, n);
    SubsetIsNoLarger(Candidates(stamp, n), names);
  }

  /** Some try is free, so there is a first one. */
  lemma {:induction false} SomeTryIsFree(names: set<string>, stamp: string, n: nat)
    requires forall k :: 0 <= k < n ==> Candidate(stamp, k) in names
    ensures exists m: nat :: n <= m && FreeFirst(names, stamp, m)
    decreases |names| + 1 - n
  {
    TakenAreFew(names, stamp, n);
    if Candidate(stamp, n) in names {
      SomeTryIsFree(names, stamp, n + 1);
    } else {
      assert FreeFirst(names, stamp, n);
    }
  }

  ghost predicate FreeFirst(names: set<string>, stamp: string, m: nat) {
    Candidate(stamp, m) !in names && forall k :: 0 <= k < m ==> Candidate(stamp, k) in names
  }

  /** The first try that no directory has. */
  ghost function FirstFree(names: set<string>, stamp: string): (m: nat)
    ensures FreeFirst(names, stamp, m)
  {
    SomeTryIsFree(names, stamp, 0);
    var m: nat :| FreeFirst(names, stamp, m);
    m
  }

  lemma FirstFreeIs(names: set<string>, stamp: string, m: nat)
    requires Candidate(stamp, m) !in names && forall k :: 0 <= k < m ==> Candidate(stamp, k) in names
    ensures FirstFree(names, stamp) == m
  {
    hide Candidate;
    var n := FirstFree(names, stamp);
    var tries := {Candidate(stamp, n), Candidate(stamp, m)};
  }

  /** Every try of an earlier second sorts before every later stamp. */
  lemma CandidateBefore(a: Time, k: nat, b: Time)
    requires IsTime(a) && IsTime(b) && Before(a, b)
    ensures Less(Candidate(Stamp(a), k), Stamp(b))
  {
    hide Stamp, Before;
    StampsInTimeOrder(a, b);
    StampLength(a, b);
    if k > 0 {
      LessThen(Stamp(a), Stamp(b), "_" + Decimal(k), "");
      assert Stamp(a) + ("_" + Decimal(k)) == Candidate(Stamp(a), k) && Stamp(b) + "" == Stamp(b);
    }
  }

  lemma {:induction false} PrefixLess(p: string, x: string)
    requires x != []
    ensures Less(p, p + x)
  {
    if p != [] {
      assert (p + x)[1..] == p[1..] + x;
      PrefixLess(p[1..], x);
    }
  }

  /** The bare stamp is the least name of its second. */
  lemma StampIsLeast(stamp: string, k: nat)
    requires k > 0
    ensures Less(stamp, Candidate(stamp, k))
  {
    PrefixLess(stamp, "_" + Decimal(k));
    assert stamp + ("_" + Decimal(k)) == Candidate(stamp, k);
  }

  /** Two numbered tries sort as their numerals do. */
  lemma NumberedLess(stamp: string, k: nat, l: nat)
    requires k > 0 && l > 0 && Less(Decimal(k), Decimal(l))
    ensures Less(Candidate(stamp, k), Candidate(stamp, l))
  {
    LessAfter(stamp + "_", Decimal(k), Decimal(l));
  }

  /** Below ten the order of numerals is the order of numbers. */
  lemma SingleDigitsInOrder(stamp: string, k: nat, l: nat)
    requires k < l < 10
    ensures Less(Candidate(stamp, k), Candidate(stamp, l))
  {
    if k == 0 {
      StampIsLeast(stamp, l);
    } else {
      NumberedLess(stamp, k, l);
    }
  }

  /** From ten on every numeral but `10` itself sorts after `10`. */
  lemma {:induction false} TenIsLow(k: nat)
    requires k > 10
    ensures Less(Decimal(10), Decimal(k))
  {
    assert Decimal(10) == "10" by {
      assert Decimal(1) == "1";
    }
    if k < 100 {
      assert Decimal(k / 10) == ['0' + (k / 10) as char];
      if k / 10 == 1 {
        LessAfter("1", "0", ['0' + (k % 10) as char]);
      }
    } else if k / 10 == 10 {
      PrefixLess("10", ['0' + (k % 10) as char]);
    } else {
      TenIsLow(k / 10);
      LessThenMore("10", Decimal(k / 10), ['0' + (k % 10) as char]);
    }
  }

  lemma {:induction false} LessThenMore(a: string, b: string, x: string)
    requires Less(a, b)
    ensures Less(a, b + x)
  {
    if a != [] && a[0] == b[0] {
      assert (b + x)[1..] == b[1..] + x;
      LessThenMore(a[1..], b[1..], x);
    }
  }

  /** So the eleventh name of a second sorts before all its others but the first two. */
  lemma TenthSortsThird(stamp: string, k: nat)
    requires 2 <= k && k != 10
    ensures Less(Candidate(stamp, 10), Candidate(stamp, k))
  {
    if k > 10 {
      TenIsLow(k);
    } else {
      assert Decimal(10) == "10" by {
        assert Decimal(1) == "1";
      }
      assert Decimal(k) == ['0' + k as char];
    }
    NumberedLess(stamp, 10, k);
  }
}
