/** Runs of backups (scripts/backup_data.py): what is left after any number of them, within one second and
    over many. */
module BackupRuns {
  import opened Backup
  import opened BackupNames
  import opened Common
  import opened Text

  // ---------- The greatest names ----------

  /** Every name of the first set sorts before every name of the second. */
  predicate AllBefore(a: set<string>, b: set<string>) {
    forall x, y :: x in a && y in b ==> Less(x, y)
  }

  lemma AboveOfUnion(a: set<string>, b: set<string>, x: string)
    requires AllBefore(a, b)
    ensures x in a ==> Above(a + b, x) == Above(a, x) + b && Above(a, x) !! b
    ensures x in b ==> Above(a + b, x) == Above(b, x)
  {
    if x in a {
      forall y | y in Above(a, x) ensures y !in b {
        LessOrEqualOrMore(y, y);
      }
    }
    if x in b {
      forall y | y in a ensures !Less(x, y) {
        LessOrEqualOrMore(x, y);
      }
    }
  }

  lemma AboveLeavesItself(names: set<string>, x: string)
    requires x in names
    ensures |Above(names, x)| < |names|
  {
    LessOrEqualOrMore(x, x);
    SubsetIsNoLarger(Above(names, x), names - {x});
  }

  /** Names above all others take their places first. */
  lemma TopOfUnion(a: set<string>, b: set<string>, k: nat)
    requires AllBefore(a, b)
    ensures Top(a + b, k) == if |b| >= k then Top(b, k) else b + Top(a, k - |b|)
  {
    forall x | x in a + b ensures x in Top(a + b, k) <==> x in (if |b| >= k then Top(b, k) else b + Top(a, k - |b|)) {
      AboveOfUnion(a, b, x);
      if x in b {
        AboveLeavesItself(b, x);
        assert x !in a by {
          LessOrEqualOrMore(x, x);
        }
      } else {
        assert |Above(a, x) + b| == |Above(a, x)| + |b|;
      }
    }
  }

  lemma TopOfTop(names: set<string>, j: nat, i: nat)
    requires i <= j
    ensures Top(Top(names, j), i) == Top(names, i)
  {
    forall x | x in Top(names, j) ensures Above(Top(names, j), x) == Above(names, x) {
      forall y | y in Above(names, x) ensures y in Top(names, j) {
        AboveIsInTop(names, j, x, y);
      }
    }
  }

  lemma TopOfFew(names: set<string>, k: nat)
    requires |names| <= k
    ensures Top(names, k) == names
  {
    forall x | x in names ensures x in Top(names, k) {
      AboveLeavesItself(names, x);
    }
  }

  /** Adding a greatest name before or after cutting comes to the same. */
  lemma TopThenGreater(names: set<string>, x: string, k: nat)
    requires k > 0 && AllBefore(names, {x})
    ensures Top(Top(names, k) + {x}, k) == Top(names + {x}, k)
  {
    TopOfUnion(Top(names, k), {x}, k);
    TopOfUnion(names, {x}, k);
    if k > 1 {
      TopOfTop(names, k, k - 1);
    }
  }

  // ---------- Runs ----------

  /** The names after a run of backups, one per stamp; a stamp may come several times. */
  ghost function RunNames(names: set<string>, stamps: seq<string>, keep: int): set<string>
    decreases |stamps|
  {
    if stamps == [] then names
    else After(RunNames(names, stamps[..|stamps| - 1], keep), stamps[|stamps| - 1], keep)
  }

  /** The name the last backup of a run gets. */
  ghost function LastName(names: set<string>, stamps: seq<string>, keep: int): string
    requires stamps != []
  {
    var before, stamp := RunNames(names, stamps[..|stamps| - 1], keep), stamps[|stamps| - 1];
    Candidate(stamp, FirstFree(before, stamp))
  }

  /** Any run of `backup` leaves what `RunNames` says. */
  method TakeBackups(snapshots: Snapshots, sources: map<string, string>, stamps: seq<string>, keep: int) returns (last: Option<string>)
    requires sources != map[]
    modifies snapshots
    ensures snapshots.dirs.Keys == RunNames(old(snapshots.dirs).Keys, stamps, keep)
    ensures if stamps == [] then last == None else last == Some(LastName(old(snapshots.dirs).Keys, stamps, keep))
  {
    hide After;
    last := None;
    for i := 0 to |stamps|
      invariant snapshots.dirs.Keys == RunNames(old(snapshots.dirs).Keys, stamps[..i], keep)
      invariant if i == 0 then last == None else last == Some(LastName(old(snapshots.dirs).Keys, stamps[..i], keep))
    {
      assert stamps[..i + 1][..i] == stamps[..i];
      last := snapshots.TakeBackup(sources, stamps[i], keep);
    }
    assert stamps[..|stamps|] == stamps;
  }

  // ---------- Several backups within one second ----------

  function Times(stamp: string, n: nat): (stamps: seq<string>)
    ensures |stamps| == n
  {
    seq(n, i => stamp)
  }

  lemma FamilyIsLater(names: set<string>, stamp: string, n: nat)
    requires AllBefore(names, {stamp})
    ensures AllBefore(names, Candidates(stamp, n))
  {
    forall x, y | x in names && y in Candidates(stamp, n) ensures Less(x, y) {
      var k :| 0 <= k < n && y == Candidate(stamp, k);
      assert Less(x, stamp);
      if k > 0 {
        StampIsLeast(stamp, k);
        LessTransitive(x, stamp, y);
      }
    }
  }

  lemma NotYetTaken(names: set<string>, stamp: string, n: nat)
    requires AllBefore(names, {stamp})
    ensures Candidate(stamp, n) !in names + Candidates(stamp, n)
  {
    FamilyIsLater(names, stamp, n + 1);
    LessOrEqualOrMore(Candidate(stamp, n), Candidate(stamp, n));
    forall k | 0 <= k < n ensures Candidate(stamp, k) != Candidate(stamp, n) {
      CandidatesDiffer(stamp, k, n);
    }
  }

  lemma RunOneMore(names: set<string>, stamp: string, n: nat, keep: int)
    requires n > 0
    ensures RunNames(names, Times(stamp, n), keep) == After(RunNames(names, Times(stamp, n - 1), keep), stamp, keep)
    ensures LastName(names, Times(stamp, n), keep)
         == Candidate(stamp, FirstFree(RunNames(names, Times(stamp, n - 1), keep), stamp))
  {
    assert Times(stamp, n)[..n - 1] == Times(stamp, n - 1);
  }

  lemma TopIsSubset(names: set<string>, k: nat)
    ensures Top(names, k) <= names && Top(names, 0) == {}
  {
  }

  /** Up to `keep` backups of a second all stay, on top of the greatest earlier snapshots. */
  function WhileRoom(names: set<string>, stamp: string, n: nat, keep: nat): set<string>
    requires n <= keep
  {
    if n == 0 then names else Candidates(stamp, n) + Top(names, keep - n)
  }

  lemma NextTry(names: set<string>, stamp: string, n: nat, keep: nat)
    requires AllBefore(names, {stamp}) && n <= keep
    ensures FirstFree(WhileRoom(names, stamp, n, keep), stamp) == n
  {
    hide Candidate, Top;
    NotYetTaken(names, stamp, n);
    TopIsSubset(names, keep - n);
    FirstFreeIs(WhileRoom(names, stamp, n, keep), stamp, n);
  }

  /** The names that a second's `n` backups, of which the last is being added, sit on. */
  function Under(names: set<string>, n: nat, keep: nat): set<string>
    requires 0 < n <= keep
  {
    if n == 1 then names else Top(names, keep - (n - 1))
  }

  lemma OneMoreJoins(names: set<string>, stamp: string, n: nat, keep: nat)
    requires 0 < n <= keep
    ensures WhileRoom(names, stamp, n - 1, keep) + {Candidate(stamp, n - 1)} == Under(names, n, keep) + Candidates(stamp, n)
  {
    hide Candidate, Top;
    assert Candidates(stamp, 0) == {};
  }

  lemma CutUnder(names: set<string>, n: nat, keep: nat)
    requires 0 < n <= keep
    ensures Under(names, n, keep) <= names
    ensures Top(Under(names, n, keep), keep - n) == Top(names, keep - n)
  {
    hide Top;
    if n > 1 {
      TopIsSubset(names, keep - (n - 1));
      TopOfTop(names, keep - (n - 1), keep - n);
    }
  }

  lemma OneMoreFits(names: set<string>, stamp: string, n: nat, keep: nat)
    requires AllBefore(names, {stamp}) && 0 < n <= keep
    ensures Top(WhileRoom(names, stamp, n - 1, keep) + {Candidate(stamp, n - 1)}, keep) == WhileRoom(names, stamp, n, keep)
  {
    OneMoreJoins(names, stamp, n, keep);
    CutUnder(names, n, keep);
    FamilyIsLater(names, stamp, n);
    CandidatesAreMany(stamp, n);
    var older, family := Under(names, n, keep), Candidates(stamp, n);
    assert WhileRoom(names, stamp, n, keep) == family + Top(names, keep - n);
    hide Candidate, Candidates, Top, WhileRoom, Under;
    TopOfUnion(older, family, keep);
    if n == keep {
      TopOfFew(family, keep);
      TopIsSubset(names, 0);
    }
  }

  /** The next backup displaces the bare stamp, which is the least name of all. */
  function Full(stamp: string, keep: nat): set<string> {
    Candidates(stamp, keep + 1) - {stamp}
  }

  lemma FullAfterStamp(names: set<string>, stamp: string, keep: nat)
    requires AllBefore(names, {stamp}) && keep > 0
    ensures Top(names + Candidates(stamp, keep + 1), keep) == Full(stamp, keep)
    ensures stamp !in Full(stamp, keep) && Full(stamp, keep) + {stamp} == Candidates(stamp, keep + 1)
  {
    var family := Candidates(stamp, keep + 1);
    assert Candidate(stamp, 0) == stamp;
    assert stamp in family;
    CandidatesAreMany(stamp, keep + 1);
    FamilyIsLater(names, stamp, keep + 1);
    var rest := family - {stamp};
    assert AllBefore({stamp}, rest) by {
      forall y | y in rest ensures Less(stamp, y) {
        var k :| 0 <= k < keep + 1 && y == Candidate(stamp, k);
        assert k > 0;
        StampIsLeast(stamp, k);
      }
    }
    hide Top, Candidates, Candidate;
    TopOfUnion(names, family, keep);
    assert {stamp} + rest == family;
    TopOfUnion({stamp}, rest, keep);
    TopOfFew(rest, keep);
  }

  /** What a directory of earlier snapshots holds after `n` backups within one second. */
  function AfterSecond(names: set<string>, stamp: string, n: nat, keep: nat): set<string> {
    if n <= keep then WhileRoom(names, stamp, n, keep) else Full(stamp, keep)
  }

  /** The name the n-th backup of the second gets: once the bare stamp has been pruned, it is free again
      and given to every further one. */
  function NameOf(stamp: string, n: nat, keep: nat): string
    requires n > 0
  {
    if n <= keep + 1 then Candidate(stamp, n - 1) else stamp
  }

  lemma NextTryWhenFull(stamp: string, keep: nat)
    requires keep > 0
    ensures FirstFree(Full(stamp, keep), stamp) == 0
    ensures Top(Full(stamp, keep) + {Candidate(stamp, 0)}, keep) == Full(stamp, keep)
  {
    FullAfterStamp({}, stamp, keep);
    assert {} + Candidates(stamp, keep + 1) == Candidates(stamp, keep + 1);
    assert Candidate(stamp, 0) == stamp;
    FirstFreeIs(Full(stamp, keep), stamp, 0);
  }

  /** What a directory of earlier snapshots holds after `n` backups within one second, and the name the
      last of them got. */
  lemma {:induction false} SecondExactly(names: set<string>, stamp: string, n: nat, keep: nat)
    requires AllBefore(names, {stamp}) && keep > 0
    ensures RunNames(names, Times(stamp, n), keep) == AfterSecond(names, stamp, n, keep)
    ensures n > 0 ==> LastName(names, Times(stamp, n), keep) == NameOf(stamp, n, keep)
    decreases n
  {
    if n > 0 {
      SecondExactly(names, stamp, n - 1, keep);
      RunOneMore(names, stamp, n, keep);
      hide RunNames, Candidates, Top, WhileRoom, Full, Times, LastName;
      if n <= keep + 1 {
        NextTry(names, stamp, n - 1, keep);
        if n <= keep {
          OneMoreFits(names, stamp, n, keep);
        } else {
          Overflows(names, stamp, keep);
        }
      } else {
        NextTryWhenFull(stamp, keep);
      }
    }
  }

  lemma Overflows(names: set<string>, stamp: string, keep: nat)
    requires AllBefore(names, {stamp}) && keep > 0
    ensures Top(WhileRoom(names, stamp, keep, keep) + {Candidate(stamp, keep)}, keep) == Full(stamp, keep)
  {
    TopIsSubset(names, 0);
    assert WhileRoom(names, stamp, keep, keep) + {Candidate(stamp, keep)} == {} + Candidates(stamp, keep + 1);
    FullAfterStamp({}, stamp, keep);
  }

  /** When a new snapshot survives its own pruning: exactly if nothing is pruned at all or the second has
      had at most one more backup than are kept. */
  lemma NewSurvivesExactly(names: set<string>, stamp: string, n: nat, keep: int)
    requires AllBefore(names, {stamp}) && n > 0
    ensures LastName(names, Times(stamp, n), keep) in RunNames(names, Times(stamp, n), keep) <==> keep <= 0 || n <= keep + 1
  {
    if keep <= 0 {
      RunOneMore(names, stamp, n, keep);
    } else {
      SecondExactly(names, stamp, n, keep);
      if n > keep {
        FullAfterStamp({}, stamp, keep);
      }
      if n == keep + 1 {
        StampIsLeast(stamp, keep);
        LessOrEqualOrMore(stamp, Candidate(stamp, keep));
      }
    }
  }

  /** The names given to the last `keep` backups of the second. */
  function Recent(stamp: string, n: nat, keep: nat): set<string> {
    set k | (if n > keep then n - keep else 0) < k <= n :: NameOf(stamp, k, keep)
  }

  /** When what remains is the most recent: exactly under the same condition. Then it is the last `keep`
      backups of the second, on top of the greatest earlier snapshots if there is room. */
  lemma RecentRemainExactly(names: set<string>, stamp: string, n: nat, keep: nat)
    requires AllBefore(names, {stamp}) && n > 0 && keep > 0
    ensures RunNames(names, Times(stamp, n), keep) == Recent(stamp, n, keep) + (if n < keep then Top(names, keep - n) else {})
      <==> n <= keep + 1
  {
    SecondExactly(names, stamp, n, keep);
    hide RunNames, Times, Top;
    if n <= keep {
      RecentWhileRoom(stamp, n, keep);
      TopIsSubset(names, keep - n);
    } else if n == keep + 1 {
      RecentWhenFull(stamp, keep);
    } else {
      FullAfterStamp({}, stamp, keep);
      assert NameOf(stamp, n, keep) in Recent(stamp, n, keep);
    }
  }

  lemma RecentWhileRoom(stamp: string, n: nat, keep: nat)
    requires n <= keep
    ensures Recent(stamp, n, keep) == Candidates(stamp, n)
  {
    hide Candidate;
    forall k | 0 <= k < n ensures Candidate(stamp, k) in Recent(stamp, n, keep) {
      assert Candidate(stamp, k) == NameOf(stamp, k + 1, keep);
    }
  }

  lemma RecentWhenFull(stamp: string, keep: nat)
    requires keep > 0
    ensures Recent(stamp, keep + 1, keep) == Full(stamp, keep)
  {
    forall k | 0 < k <= keep
      ensures Candidate(stamp, k) in Recent(stamp, keep + 1, keep) && Candidate(stamp, k) != stamp
    {
      assert Candidate(stamp, k) == NameOf(stamp, k + 1, keep);
    }
    assert Candidate(stamp, 0) == stamp;
    hide Candidate;
    forall name | name in Recent(stamp, keep + 1, keep) ensures name in Full(stamp, keep) {
      var k: nat :| 1 < k <= keep + 1 && name == NameOf(stamp, k, keep);
      assert name == Candidate(stamp, k - 1);
    }
  }

  // ---------- Backups in different seconds ----------

  function AsSet(s: seq<string>): set<string> {
    set x | x in s
  }

  /** The last `keep` of a sequence. */
  function Newest(s: seq<string>, keep: nat): seq<string> {
    if |s| > keep then s[|s| - keep..] else s
  }

  lemma LastIsLater(names: set<string>, stamps: seq<string>)
    requires Ascending(stamps) && stamps != [] && AllBefore(names, AsSet(stamps))
    ensures var before, stamp := stamps[..|stamps| - 1], stamps[|stamps| - 1];
      && AllBefore(names + AsSet(before), {stamp}) && AsSet(before) + {stamp} == AsSet(stamps)
      && stamp !in names + AsSet(before)
  {
    var stamp := stamps[|stamps| - 1];
    assert stamp in AsSet(stamps);
    LessOrEqualOrMore(stamp, stamp);
    assert stamps == stamps[..|stamps| - 1] + [stamp];
  }

  /** With one backup a second, every stamp is free, and what is left is the greatest of all names there
      ever were. */
  lemma {:induction false} DistinctSeconds(names: set<string>, stamps: seq<string>, keep: nat)
    requires keep > 0 && Ascending(stamps) && AllBefore(names, AsSet(stamps))
    ensures stamps != [] ==> RunNames(names, stamps, keep) == Top(names + AsSet(stamps), keep)
    ensures stamps != [] ==> LastName(names, stamps, keep) == stamps[|stamps| - 1]
    decreases |stamps|
  {
    if stamps != [] {
      var before, stamp := stamps[..|stamps| - 1], stamps[|stamps| - 1];
      var now, all := RunNames(names, before, keep), names + AsSet(before);
      DistinctSeconds(names, before, keep);
      LastIsLater(names, stamps);
      TopIsSubset(all, keep);
      assert AsSet([]) == {} && now <= all;
      assert Candidate(stamp, 0) == stamp;
      FirstFreeIs(now, stamp, 0);
      hide Top;
      if before == [] {
        assert all == names;
      } else {
        TopThenGreater(all, stamp, keep);
      }
      assert all + {stamp} == names + AsSet(stamps);
    }
  }

  lemma AscendingAreMany(stamps: seq<string>)
    requires Ascending(stamps)
    ensures |AsSet(stamps)| == |stamps|
  {
    TailIsDistinct(stamps, 0);
    assert stamps[0..] == stamps && TailSet(stamps, 0) == AsSet(stamps);
  }

  /** The greatest of names in order are the last of them. */
  lemma TopOfAscending(stamps: seq<string>, keep: nat)
    requires keep > 0 && Ascending(stamps)
    ensures Top(AsSet(stamps), keep) == AsSet(Newest(stamps, keep))
  {
    var names, excess := AsSet(stamps), if |stamps| > keep then |stamps| - keep else 0;
    assert forall name :: name in stamps <==> name in names;
    KeptAreTheRest(stamps, names, keep, excess);
    assert stamps[excess..] == Newest(stamps, keep);
    assert Kept(names, keep) == Top(names, keep);
    TopIsSubset(names, keep);
    hide Top, Kept, Ascending;
    forall name | name in names ensures name in Top(names, keep) <==> name in stamps[excess..] {
      SplitMembership(stamps, excess, name);
    }
    assert forall name :: name in stamps[excess..] ==> name in names;
  }

  /** What backups in different seconds leave of a directory of earlier snapshots: the last `keep` of them,
      the newest included, on top of the greatest earlier ones if there is room. */
  lemma NewestRemain(names: set<string>, stamps: seq<string>, keep: nat)
    requires keep > 0 && stamps != [] && Ascending(stamps) && AllBefore(names, AsSet(stamps))
    ensures RunNames(names, stamps, keep) ==
      AsSet(Newest(stamps, keep)) + (if |stamps| < keep then Top(names, keep - |stamps|) else {})
    ensures LastName(names, stamps, keep) == stamps[|stamps| - 1]
    ensures stamps[|stamps| - 1] in RunNames(names, stamps, keep)
  {
    hide Top, AllBefore, RunNames, LastName;
    DistinctSeconds(names, stamps, keep);
    TopOfAscending(stamps, keep);
    AscendingAreMany(stamps);
    TopOfUnion(names, AsSet(stamps), keep);
    var newest := Newest(stamps, keep);
    assert newest[|newest| - 1] == stamps[|stamps| - 1];
  }

  // ---------- Told in times ----------

  predicate Chronological(times: seq<Time>) {
    (forall i :: 0 <= i < |times| ==> IsTime(times[i])) && forall i, j :: 0 <= i < j < |times| ==> Before(times[i], times[j])
  }

  function Stamps(times: seq<Time>): (stamps: seq<string>)
    ensures |stamps| == |times|
    ensures forall i :: 0 <= i < |times| ==> stamps[i] == Stamp(times[i])
  {
    seq(|times|, i requires 0 <= i < |times| => Stamp(times[i]))
  }

  /** Every name is a try of some second before `t`. */
  ghost predicate TakenBefore(names: set<string>, t: Time) {
    forall name :: name in names ==> exists s: Time, k: nat :: IsTry(name, s, k) && Before(s, t)
  }

  predicate IsTry(name: string, s: Time, k: nat) {
    IsTime(s) && name == Candidate(Stamp(s), k)
  }

  lemma TakenBeforeIsLess(names: set<string>, t: Time)
    requires IsTime(t) && TakenBefore(names, t)
    ensures AllBefore(names, {Stamp(t)})
  {
    hide Stamp, Candidate, Before;
    forall name | name in names ensures Less(name, Stamp(t)) {
      var s: Time, k: nat :| IsTry(name, s, k) && Before(s, t);
      CandidateBefore(s, k, t);
    }
  }

  lemma StampsAscend(names: set<string>, times: seq<Time>)
    requires Chronological(times) && times != [] && TakenBefore(names, times[0])
    ensures Ascending(Stamps(times)) && AllBefore(names, AsSet(Stamps(times)))
  {
    hide Stamp, Before, Candidate;
    var stamps := Stamps(times);
    forall i, j | 0 <= i < j < |times| ensures Less(stamps[i], stamps[j]) {
      StampsInTimeOrder(times[i], times[j]);
    }
    TakenBeforeIsLess(names, times[0]);
    forall x, y | x in names && y in AsSet(stamps) ensures Less(x, y) {
      var i :| 0 <= i < |stamps| && y == stamps[i];
      assert Less(x, stamps[0]);
      if i > 0 {
        LessTransitive(x, stamps[0], y);
      }
    }
  }

  /** Backups at strictly increasing times over a directory of earlier snapshots: the most recent remain,
      the new one included. */
  method BackupOverTime(snapshots: Snapshots, sources: map<string, string>, times: seq<Time>, keep: nat) returns (last: Option<string>)
    requires sources != map[] && keep > 0 && times != []
    requires Chronological(times) && TakenBefore(snapshots.dirs.Keys, times[0])
    modifies snapshots
    ensures var stamps := Stamps(times);
      && last == Some(stamps[|stamps| - 1]) && last.value in snapshots.dirs
      && snapshots.dirs.Keys ==
        AsSet(Newest(stamps, keep)) + (if |stamps| < keep then Top(old(snapshots.dirs).Keys, keep - |stamps|) else {})
  {
    hide RunNames, LastName, Top, Before, Stamp;
    StampsAscend(snapshots.dirs.Keys, times);
    NewestRemain(snapshots.dirs.Keys, Stamps(times), keep);
    last := TakeBackups(snapshots, sources, Stamps(times), keep);
  }

  /** Backups within one second over a directory of earlier snapshots: the snapshot just taken is still
      there exactly if nothing is pruned or there were at most `keep + 1` of them. From an empty directory
      with one snapshot kept, the third is deleted at once. */
  method BackupWithinSecond(snapshots: Snapshots, sources: map<string, string>, t: Time, n: nat, keep: int) returns (last: Option<string>)
    requires sources != map[] && n > 0 && IsTime(t) && TakenBefore(snapshots.dirs.Keys, t)
    modifies snapshots
    ensures last.Some? && (last.value in snapshots.dirs <==> keep <= 0 || n <= keep + 1)
    ensures keep > 0 ==> snapshots.dirs.Keys == AfterSecond(old(snapshots.dirs).Keys, Stamp(t), n, keep)
  {
    hide RunNames, LastName, AfterSecond, Before, Stamp;
    TakenBeforeIsLess(snapshots.dirs.Keys, t);
    NewSurvivesExactly(snapshots.dirs.Keys, Stamp(t), n, keep);
    if keep > 0 {
      SecondExactly(snapshots.dirs.Keys, Stamp(t), n, keep);
    }
    last := TakeBackups(snapshots, sources, Times(Stamp(t), n), keep);
  }

  // ---------- Many in one second, then later ones ----------

  /** The names of a second's `n` backups in the order they were taken, then those of later ones. */
  function Created(stamp: string, n: nat, later: seq<string>): (s: seq<string>)
    ensures |s| == n + |later|
  {
    seq(n, k requires 0 <= k < n => Candidate(stamp, k)) + later
  }

  lemma {:induction false} RunAppends(names: set<string>, a: seq<string>, b: seq<string>, keep: int)
    ensures RunNames(names, a + b, keep) == RunNames(RunNames(names, a, keep), b, keep)
    decreases |b|
  {
    if b == [] {
      assert a + b == a;
    } else {
      assert (a + b)[..|a + b| - 1] == a + b[..|b| - 1];
      RunAppends(names, a, b[..|b| - 1], keep);
    }
  }

  /** After a second whose `n` backups all survived their own pruning, and then one backup in each of some
      later seconds, what is left is the greatest of all the names there ever were. */
  lemma SecondThenLater(names: set<string>, stamp: string, n: nat, later: seq<string>, keep: nat)
    requires AllBefore(names, {stamp}) && 0 < n <= keep + 1 && keep > 0
    requires Ascending(later) && AllBefore(names + Candidates(stamp, n), AsSet(later))
    ensures RunNames(names, Times(stamp, n) + later, keep) == Top(names + Candidates(stamp, n) + AsSet(later), keep)
  {
    var all := names + Candidates(stamp, n);
    RunAppends(names, Times(stamp, n), later, keep);
    SecondIsTop(names, stamp, n, keep);
    if later == [] {
      assert AsSet(later) == {} && all + {} == all;
    } else {
      TopIsSubset(all, keep);
      DistinctSeconds(Top(all, keep), later, keep);
      TopThenLater(all, AsSet(later), keep);
    }
  }

  lemma SecondIsTop(names: set<string>, stamp: string, n: nat, keep: nat)
    requires AllBefore(names, {stamp}) && 0 < n <= keep + 1 && keep > 0
    ensures RunNames(names, Times(stamp, n), keep) == Top(names + Candidates(stamp, n), keep)
  {
    hide RunNames, Candidates, Top, AllBefore, Times, Full;
    SecondExactly(names, stamp, n, keep);
    FamilyIsLater(names, stamp, n);
    CandidatesAreMany(stamp, n);
    if n <= keep {
      RoomIsTop(names, Candidates(stamp, n), keep);
    } else {
      FullAfterStamp(names, stamp, keep);
    }
  }

  lemma RoomIsTop(a: set<string>, b: set<string>, k: nat)
    requires AllBefore(a, b) && |b| <= k
    ensures Top(a + b, k) == b + Top(a, k - |b|)
  {
    hide Top, AllBefore;
    TopOfUnion(a, b, k);
    if |b| == k {
      TopOfFew(b, k);
      TopIsSubset(a, 0);
      assert b + {} == b;
    }
  }

  lemma PartIsBefore(part: set<string>, a: set<string>, b: set<string>)
    requires part <= a && AllBefore(a, b)
    ensures AllBefore(part, b)
  {
  }

  /** Adding later names before or after cutting comes to the same. */
  lemma TopThenLater(a: set<string>, b: set<string>, k: nat)
    requires AllBefore(a, b)
    ensures Top(Top(a, k) + b, k) == Top(a + b, k)
  {
    hide Top, AllBefore;
    TopIsSubset(a, k);
    PartIsBefore(Top(a, k), a, b);
    TopOfUnion(a, b, k);
    TopOfUnion(Top(a, k), b, k);
    if |b| < k {
      TopOfTop(a, k, k - |b|);
    }
  }

  lemma FewAreInOrder(stamp: string, n: nat, later: seq<string>)
    requires n <= 10 && Ascending(later) && AllBefore(Candidates(stamp, n), AsSet(later))
    ensures Ascending(Created(stamp, n, later))
    ensures AsSet(Created(stamp, n, later)) == Candidates(stamp, n) + AsSet(later)
  {
    var s := Created(stamp, n, later);
    forall i, j | 0 <= i < j < |s| ensures Less(s[i], s[j]) {
      if j < n {
        SingleDigitsInOrder(stamp, i, j);
      } else if i < n {
        assert s[i] in Candidates(stamp, n) && s[j] in AsSet(later);
      }
    }
    CreatedAsSet(stamp, n, later);
  }

  lemma CreatedAsSet(stamp: string, n: nat, later: seq<string>)
    ensures AsSet(Created(stamp, n, later)) == Candidates(stamp, n) + AsSet(later)
  {
    hide Candidate;
    var s := Created(stamp, n, later);
    forall x | x in Candidates(stamp, n) ensures x in s {
      var k :| 0 <= k < n && x == Candidate(stamp, k);
      assert s[k] == x;
    }
    forall x | x in later ensures x in s {
      var k :| 0 <= k < |later| && x == later[k];
      assert s[n + k] == x;
    }
  }

  /** The names of a second that do not sort after its eleventh. */
  function NotAboveTenth(stamp: string): set<string> {
    {Candidate(stamp, 0), Candidate(stamp, 1), Candidate(stamp, 10)}
  }

  lemma NotAboveTenthExactly(stamp: string, k: nat)
    ensures Less(Candidate(stamp, 10), Candidate(stamp, k)) <==> k != 0 && k != 1 && k != 10
  {
    LessOrEqualOrMore(Candidate(stamp, k), Candidate(stamp, 10));
    if k == 0 {
      StampIsLeast(stamp, 10);
    } else if k == 1 {
      OneBeforeTen(stamp);
    } else if k != 10 {
      TenthSortsThird(stamp, k);
    }
  }

  lemma NotAboveTenthAreThree(stamp: string, n: nat)
    requires n > 10
    ensures |NotAboveTenth(stamp)| == 3 && NotAboveTenth(stamp) <= Candidates(stamp, n)
  {
    hide Candidate, Candidates;
    CandidatesDiffer(stamp, 0, 1);
    CandidatesDiffer(stamp, 0, 10);
    CandidatesDiffer(stamp, 1, 10);
  }

  lemma AboveTenth(stamp: string, n: nat)
    requires n > 10
    ensures |Above(Candidates(stamp, n), Candidate(stamp, 10))| == n - 3
  {
    hide Candidate, Candidates, Less;
    var family, low := Candidates(stamp, n), NotAboveTenth(stamp);
    NotAboveTenthAreThree(stamp, n);
    CandidatesAreMany(stamp, n);
    forall y | y in family ensures Less(Candidate(stamp, 10), y) <==> y !in low {
      var k :| 0 <= k < n && y == Candidate(stamp, k);
      NotAboveTenthExactly(stamp, k);
      if k != 0 && k != 1 && k != 10 {
        CandidatesDiffer(stamp, k, 0);
        CandidatesDiffer(stamp, k, 1);
        CandidatesDiffer(stamp, k, 10);
      }
    }
    assert Above(family, Candidate(stamp, 10)) == family - low;
  }

  lemma OneBeforeTen(stamp: string)
    ensures Less(Candidate(stamp, 1), Candidate(stamp, 10))
  {
    assert Decimal(10) == "1" + "0" && Decimal(1) == "1";
    NumberedLess(stamp, 1, 10);
  }

  /** What should be left: the last `keep` names in the order they were given, on top of the greatest earlier
      ones if there is room. */
  function MostRecent(names: set<string>, created: seq<string>, keep: nat): set<string> {
    AsSet(Newest(created, keep)) + if |created| < keep then Top(names, keep - |created|) else {}
  }

  /** A second with at most ten backups, which all survived their own pruning, and any later ones leave the
      most recent, whatever there was before. */
  lemma UpToTenRemain(names: set<string>, stamp: string, n: nat, later: seq<string>, keep: nat)
    requires AllBefore(names, {stamp}) && 0 < n <= 10 && n <= keep + 1 && keep > 0
    requires Ascending(later) && AllBefore(names + Candidates(stamp, n), AsSet(later))
    ensures RunNames(names, Times(stamp, n) + later, keep) == MostRecent(names, Created(stamp, n, later), keep)
  {
    var created := Created(stamp, n, later);
    SecondThenLater(names, stamp, n, later, keep);
    FewAreInOrder(stamp, n, later);
    TopOfAscending(created, keep);
    AscendingAreMany(created);
    FamilyIsLater(names, stamp, n);
    assert names + Candidates(stamp, n) + AsSet(later) == names + AsSet(created);
    hide RunNames, Top, Candidates;
    TopOfUnion(names, AsSet(created), keep);
  }

  /** From the eleventh on the order of names within a second is not the order of creation. When a second had
      `n` backups and there are from three to ten too many of it and of later ones together, the most recent
      are left if and only if `n` is at most ten. */
  lemma SomeTooManyExactly(names: set<string>, stamp: string, n: nat, later: seq<string>, keep: nat)
    requires AllBefore(names, {stamp}) && 0 < n <= keep + 1 && keep + 3 <= n + |later| <= keep + 10 && keep > 0
    requires Ascending(later) && AllBefore(names + Candidates(stamp, n), AsSet(later))
    ensures RunNames(names, Times(stamp, n) + later, keep) == MostRecent(names, Created(stamp, n, later), keep) <==> n <= 10
  {
    if n <= 10 {
      UpToTenRemain(names, stamp, n, later, keep);
    } else {
      var created := Created(stamp, n, later);
      SecondThenLater(names, stamp, n, later, keep);
      TenthIsGone(names, stamp, n, later, keep);
      assert created[10] == Candidate(stamp, 10);
      var newest := Newest(created, keep);
      assert newest[10 - (|created| - keep)] == created[10];
      assert created[10] in AsSet(newest);
    }
  }

  lemma TenthIsGone(names: set<string>, stamp: string, n: nat, later: seq<string>, keep: nat)
    requires n > 10 && n + |later| >= keep + 3
    requires Ascending(later) && AllBefore(names + Candidates(stamp, n), AsSet(later))
    ensures Candidate(stamp, 10) !in Top(names + Candidates(stamp, n) + AsSet(later), keep)
  {
    var family, tenth := Candidates(stamp, n), Candidate(stamp, 10);
    assert tenth in family;
    AboveTenth(stamp, n);
    AscendingAreMany(later);
    AboveOfUnion(family, AsSet(later), tenth);
    assert |Above(family, tenth) + AsSet(later)| == |Above(family, tenth)| + |later|;
    SubsetIsNoLarger(Above(family + AsSet(later), tenth), Above(names + family + AsSet(later), tenth));
  }

  /** A run where that happens: eleven backups within one second, then one in each of the next three,
      eleven kept. The eleventh is gone although the third is still there. */
  lemma ElevenThenThree()
    ensures var t := (s: nat) => Stamp(Time(2024, 1, 1, 0, 0, s));
      var left := RunNames({}, Times(t(0), 11) + [t(1), t(2), t(3)], 11);
      Candidate(t(0), 10) !in left && Candidate(t(0), 2) in left
  {
    hide Stamp, Candidate, RunNames, Above;
    var second := Time(2024, 1, 1, 0, 0, 0);
    var times := [Time(2024, 1, 1, 0, 0, 1), Time(2024, 1, 1, 0, 0, 2), Time(2024, 1, 1, 0, 0, 3)];
    SecondsInOrder();
    var stamp, later := Stamp(second), Stamps(times);
    assert later == [Stamp(times[0]), Stamp(times[1]), Stamp(times[2])];
    var family := Candidates(stamp, 11);
    forall name | name in family ensures exists s: Time, k: nat :: IsTry(name, s, k) && Before(s, times[0]) {
      var k :| 0 <= k < 11 && name == Candidate(stamp, k);
      assert IsTry(name, second, k);
    }
    StampsAscend(family, times);
    assert {} + family == family;
    SecondThenLater({}, stamp, 11, later, 11);
    TenthIsGone({}, stamp, 11, later, 11);
    ThirdIsLeft(stamp, 11, later, 11);
  }

  lemma SecondsInOrder()
    ensures var t := (s: nat) => Time(2024, 1, 1, 0, 0, s);
      Chronological([t(1), t(2), t(3)]) && Before(t(0), t(1)) && IsTime(t(0))
  {
    var t := (s: nat) => Time(2024, 1, 1, 0, 0, s);
    forall i: nat, j: nat | i < j ensures Before(t(i), t(j)) {
      LastFieldDecides(t(i), t(j));
    }
  }

  lemma LastFieldDecides(a: Time, b: Time)
    requires a.(second := b.second) == b && a.second < b.second
    ensures Before(a, b)
  {
    var x, y := Date(a) + Clock(a), Date(b) + Clock(b);
    assert x[1..][1..][1..][1..][1..] == [Field(2, a.second)] && y[1..][1..][1..][1..][1..] == [Field(2, b.second)];
    assert Earlier(x[1..][1..][1..][1..], y[1..][1..][1..][1..]);
    assert Earlier(x[1..][1..], y[1..][1..]);
  }

  lemma ThirdIsLeft(stamp: string, n: nat, later: seq<string>, keep: nat)
    requires 11 <= n <= keep && n + |later| == keep + 3
    requires Ascending(later) && AllBefore(Candidates(stamp, n), AsSet(later))
    ensures Candidate(stamp, 2) in Top(Candidates(stamp, n) + AsSet(later), keep)
  {
    hide Candidate, Candidates, Less;
    var family, third := Candidates(stamp, n), Candidate(stamp, 2);
    AscendingAreMany(later);
    AboveOfUnion(family, AsSet(later), third);
    AboveTenth(stamp, n);
    NotAboveTenthExactly(stamp, 2);
    AboveThird(stamp, n);
    AboveLeavesOut(family, Candidate(stamp, 10), third);
    assert |Above(family, third) + AsSet(later)| == |Above(family, third)| + |later|;
  }

  lemma AboveThird(stamp: string, n: nat)
    requires n > 10
    ensures Less(Candidate(stamp, 10), Candidate(stamp, 2)) && Candidate(stamp, 2) in Candidates(stamp, n)
  {
    TenthSortsThird(stamp, 2);
  }

  /** A greater name has fewer above it. */
  lemma AboveLeavesOut(names: set<string>, x: string, y: string)
    requires Less(x, y) && y in names
    ensures |Above(names, y)| < |Above(names, x)|
  {
    LessOrEqualOrMore(y, y);
    forall z | z in Above(names, y) ensures z in Above(names, x) - {y} {
      LessTransitive(x, y, z);
    }
    SubsetIsNoLarger(Above(names, y), Above(names, x) - {y});
  }
}
