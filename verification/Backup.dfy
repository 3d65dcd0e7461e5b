/** Taking and pruning snapshots (scripts/backup_data.py). */
module Backup {
  import opened BackupNames
  import opened Common
  import opened Text

  // ---------- Sorting ----------

  predicate Ascending(s: seq<string>) {
    forall i, j :: 0 <= i < j < |s| ==> Less(s[i], s[j])
  }

  /** The directory names in order; they are distinct, so the order is strict. */
  method SortedNames(names: set<string>) returns (s: seq<string>)
    ensures Ascending(s) && |s| == |names|
    ensures forall name :: name in s <==> name in names
  {
    s := [];
    var rest := names;
    while rest != {}
      invariant rest <= names && Ascending(s) && |s| + |rest| == |names|
      invariant forall name :: name in s <==> name in names && name !in rest
      decreases |rest|
    {
      var name :| name in rest;
      rest := rest - {name};
      s := InsertName(name, s);
    }
  }

  method InsertName(name: string, s: seq<string>) returns (r: seq<string>)
    requires Ascending(s) && name !in s
    ensures Ascending(r) && |r| == |s| + 1
    ensures forall x :: x in r <==> x == name || x in s
  {
    var i := 0;
    while i < |s| && Less(s[i], name)
      invariant i <= |s|
      invariant forall j :: 0 <= j < i ==> Less(s[j], name)
    {
      i := i + 1;
    }
    r := s[..i] + [name] + s[i..];
    if i < |s| {
      LessOrEqualOrMore(s[i], name);
    }
    forall j | i <= j < |s| ensures Less(name, s[j]) {
      if j > i {
        LessTransitive(name, s[i], s[j]);
      }
    }
    assert s == s[..i] + s[i..];
    assert r[i] == name;
  }

  // ---------- Retention ----------

  function Above(names: set<string>, name: string): set<string> {
    set other | other in names && Less(name, other)
  }

  /** The names with fewer than `k` greater ones. */
  function Top(names: set<string>, k: nat): set<string> {
    set name | name in names && |Above(names, name)| < k
  }

  /** What pruning keeps. */
  function Kept(names: set<string>, keep: int): set<string> {
    if keep <= 0 then names else Top(names, keep)
  }

  /** The names after one backup. */
  ghost function After(names: set<string>, stamp: string, keep: int): set<string> {
    Kept(names + {Candidate(stamp, FirstFree(names, stamp))}, keep)
  }

  /** The snapshot directories, each with the files copied into it. */
  class Snapshots {
    var dirs: map<string, map<string, string>>

    /** Takes a snapshot under a name that no directory has, whatever is there already, then prunes.
        `sources` are the database files. */
    method TakeBackup(sources: map<string, string>, stamp: string, keep: int) returns (name: Option<string>)
      modifies this
      ensures name == None <==> sources == map[]
      ensures name == None ==> dirs == old(dirs)
      ensures name.Some? ==>
        && name.value == Candidate(stamp, FirstFree(old(dirs).Keys, stamp)) && name.value !in old(dirs)
        && (var all := old(dirs)[name.value := sources];
            dirs == map d | d in all && d in Kept(all.Keys, keep) :: all[d])
      ensures name.Some? ==> dirs.Keys == After(old(dirs).Keys, stamp, keep)
      ensures name.Some? ==> |dirs| == if 0 < keep < |old(dirs)| + 1 then keep else |old(dirs)| + 1
    {
      if sources == map[] {
        return None;
      }
      var counter := 0;
      while Candidate(stamp, counter) in dirs
        invariant dirs == old(dirs)
        invariant forall k :: 0 <= k < counter ==> Candidate(stamp, k) in dirs
        decreases |dirs| - counter
      {
        TakenAreFew(dirs.Keys, stamp, counter + 1);
        counter := counter + 1;
      }
      FirstFreeIs(dirs.Keys, stamp, counter);
      var dest := Candidate(stamp, counter);
      dirs := dirs[dest := sources];
      assert dirs.Keys == old(dirs).Keys + {dest};
      Prune(keep);
      assert forall d :: d in Kept(old(dirs).Keys + {dest}, keep) ==> d in old(dirs).Keys + {dest};
      return Some(dest);
    }

    /** Deletes the lowest names until `keep` are left, if there are more. */
    method Prune(keep: int)
      modifies this
      ensures |dirs| == if 0 < keep < |old(dirs)| then keep else |old(dirs)|
      ensures dirs == map d | d in old(dirs) && d in Kept(old(dirs).Keys, keep) :: old(dirs)[d]
    {
      KeptSize(dirs.Keys, keep);
      if keep <= 0 {
        return;
      }
      var existing := SortedNames(dirs.Keys);
      var excess := if |existing| > keep then |existing| - keep else 0;
      for i := 0 to excess
        invariant forall d :: d in dirs <==> d in old(dirs) && d !in existing[..i]
        invariant forall d :: d in dirs ==> dirs[d] == old(dirs)[d]
      {
        assert existing[..i + 1] == existing[..i] + [existing[i]];
        dirs := dirs - {existing[i]};
      }
      KeptAreTheRest(existing, old(dirs).Keys, keep, excess);
      assert dirs.Keys == Kept(old(dirs).Keys, keep);
    }
  }

  /** The elements of a sequence from a position on. */
  function TailSet(s: seq<string>, from: nat): (r: set<string>)
    requires from <= |s|
    ensures forall x :: x in r <==> x in s[from..]
    decreases |s| - from
  {
    if from == |s| then {} else {s[from]} + TailSet(s, from + 1)
  }

  lemma {:induction false} TailIsDistinct(s: seq<string>, from: nat)
    requires Ascending(s) && from <= |s|
    ensures |TailSet(s, from)| == |s| - from
    decreases |s| - from
  {
    if from < |s| {
      TailIsDistinct(s, from + 1);
      LessOrEqualOrMore(s[from], s[from]);
      assert s[from] !in s[from + 1..];
    }
  }

  lemma SplitMembership(s: seq<string>, n: nat, name: string)
    requires Ascending(s) && n <= |s| && name in s
    ensures name in s[n..] <==> name !in s[..n]
  {
    var j :| 0 <= j < |s| && s[j] == name;
    LessOrEqualOrMore(name, name);
    if j < n {
      assert s[..n][j] == name;
      assert forall k :: 0 <= k < |s[n..]| ==> s[n..][k] == s[k + n] && Less(s[j], s[k + n]);
    } else {
      assert s[n..][j - n] == name;
      assert forall k :: 0 <= k < n ==> s[..n][k] == s[k] && Less(s[k], s[j]);
    }
  }

  lemma AboveInOrder(s: seq<string>, names: set<string>, i: nat)
    requires Ascending(s) && i < |s| && forall name :: name in s <==> name in names
    ensures |Above(names, s[i])| == |s| - 1 - i
  {
    forall name | name in names ensures Less(s[i], name) <==> name in s[i + 1..] {
      var j :| 0 <= j < |s| && s[j] == name;
      LessOrEqualOrMore(s[i], s[j]);
      SplitMembership(s, i + 1, name);
      if j > i {
        assert name == s[i + 1..][j - i - 1];
      } else {
        assert s[..i + 1][j] == name;
      }
    }
    assert forall name :: name in s[i + 1..] ==> name in names;
    assert Above(names, s[i]) == TailSet(s, i + 1);
    TailIsDistinct(s, i + 1);
  }

  lemma KeptAreTheRest(s: seq<string>, names: set<string>, keep: int, excess: nat)
    requires keep > 0 && Ascending(s) && forall name :: name in s <==> name in names
    requires excess == if |s| > keep then |s| - keep else 0
    ensures forall name :: name in names ==> (name in Kept(names, keep) <==> name !in s[..excess])
  {
    KeptAreTheLast(s, names, keep);
    forall name | name in names ensures name in Kept(names, keep) <==> name !in s[..excess] {
      var j :| 0 <= j < |s| && s[j] == name;
      if j < excess {
        assert s[..excess][j] == name;
      } else {
        LessOrEqualOrMore(name, name);
        assert forall k :: 0 <= k < excess ==> s[..excess][k] == s[k] && Less(s[k], s[j]);
      }
    }
  }

  lemma KeptAreTheLast(s: seq<string>, names: set<string>, keep: int)
    requires keep > 0 && Ascending(s) && forall name :: name in s <==> name in names
    ensures forall j :: 0 <= j < |s| ==> (s[j] in Kept(names, keep) <==> j >= |s| - keep)
  {
    forall j | 0 <= j < |s| ensures s[j] in Kept(names, keep) <==> j >= |s| - keep {
      AboveInOrder(s, names, j);
    }
  }

  lemma {:induction false} Greatest(names: set<string>) returns (g: string)
    requires names != {}
    ensures g in names && forall name :: name in names && name != g ==> Less(name, g)
  {
    g :| g in names;
    var rest := names - {g};
    if rest != {} {
      var h := Greatest(rest);
      LessOrEqualOrMore(g, h);
      if Less(g, h) {
        g := h;
      } else {
        forall name | name in rest && name != h ensures Less(name, g) {
          LessTransitive(name, h, g);
        }
      }
    }
  }

  lemma {:induction false} InOrder(names: set<string>) returns (s: seq<string>)
    ensures Ascending(s) && |s| == |names|
    ensures forall name :: name in s <==> name in names
  {
    if names == {} {
      s := [];
    } else {
      var g := Greatest(names);
      s := InOrder(names - {g});
      s := s + [g];
    }
  }

  /** Whoever is above a name near the top is nearer to it. */
  lemma AboveIsInTop(names: set<string>, k: nat, x: string, y: string)
    requires x in Top(names, k) && y in Above(names, x)
    ensures y in Top(names, k)
  {
    forall z | z in Above(names, y) ensures z in Above(names, x) {
      LessTransitive(x, y, z);
    }
    SubsetIsNoLarger(Above(names, y), Above(names, x));
  }

  lemma KeptSize(names: set<string>, keep: int)
    ensures |Kept(names, keep)| == if 0 < keep < |names| then keep else |names|
  {
    if keep > 0 {
      var s := InOrder(names);
      KeptIsTail(s, names, keep, if |s| > keep then |s| - keep else 0);
    }
  }

  lemma KeptIsTail(s: seq<string>, names: set<string>, keep: int, excess: nat)
    requires keep > 0 && Ascending(s) && forall name :: name in s <==> name in names
    requires excess == if |s| > keep then |s| - keep else 0
    ensures Kept(names, keep) == TailSet(s, excess) && |TailSet(s, excess)| == |s| - excess
  {
    KeptAreTheRest(s, names, keep, excess);
    TailIsDistinct(s, excess);
    assert Kept(names, keep) <= names;
    hide Kept, Ascending;
    forall name | name in names ensures name in Kept(names, keep) <==> name in TailSet(s, excess) {
      SplitMembership(s, excess, name);
    }
    assert forall name :: name in s[excess..] ==> name in s;
  }

  /** Exactly as many names are kept as are asked for, or all if there are no more or none is pruned; and
      each of them is greater than each that is not kept. */
  lemma KeptExactly(names: set<string>, keep: int)
    ensures Kept(names, keep) <= names
    ensures |Kept(names, keep)| == if 0 < keep < |names| then keep else |names|
    ensures forall x, y :: x in Kept(names, keep) && y in names && y !in Kept(names, keep) ==> Less(y, x)
  {
    KeptSize(names, keep);
    forall x, y | x in Kept(names, keep) && y in names && y !in Kept(names, keep) ensures Less(y, x) {
      LessOrEqualOrMore(x, y);
      if Less(x, y) {
        AboveIsInTop(names, keep, x, y);
      }
    }
  }
}
