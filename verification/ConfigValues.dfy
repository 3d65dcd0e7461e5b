/** Configuration values as trees and the algebra of whole-value path writes that the layers of
    artpm_agent/config_layers.py compute. */
module ConfigValues {
  import opened Common

  type Path = seq<string>

  /** A JSON value. Scalars and lists are opaque: a path never leads into them. */
  datatype Value = Leaf(json: string) | Tree(entries: map<string, Value>)

  type Entries = map<string, Value>

  /** A write of one patch entry: the whole value at `path` becomes `value`. */
  datatype Write = Write(path: Path, value: Value)

  function SubEntries(e: Entries, key: string): Entries {
    if key in e && e[key].Tree? then e[key].entries else map[]
  }

  /** Replaces the value at a path, making every proper prefix a dict. */
  function PathSet(e: Entries, path: Path, v: Value): Entries
    requires path != []
    decreases |path|
  {
    if |path| == 1 then e[path[0] := v]
    else e[path[0] := Tree(PathSet(SubEntries(e, path[0]), path[1..], v))]
  }

  function WriteAll(e: Entries, writes: seq<Write>): Entries
    requires forall w :: w in writes ==> w.path != []
    decreases |writes|
  {
    if writes == [] then e
    else var last := writes[|writes| - 1]; PathSet(WriteAll(e, writes[..|writes| - 1]), last.path, last.value)
  }

  /** The value at a path, as `Config.get` finds it. */
  function Find(v: Value, path: Path): Option<Value> {
    if path == [] then Some(v)
    else if v.Tree? && path[0] in v.entries then Find(v.entries[path[0]], path[1..])
    else None
  }

  predicate Comparable(p: Path, q: Path) {
    p <= q || q <= p
  }

  lemma SameHead(p: Path, q: Path)
    requires p != [] && q != [] && p[0] == q[0]
    ensures p <= q <==> p[1..] <= q[1..]
    ensures q <= p <==> q[1..] <= p[1..]
    ensures p <= q ==> q[|p|..] == q[1..][|p[1..]|..]
  {
    assert p == [p[0]] + p[1..] && q == [q[0]] + q[1..];
  }

  /** A write is seen below its path, leaves every incomparable path alone and makes every proper
      prefix a dict that holds the rest of the write. */
  lemma {:induction false} FindAfterSet(e: Entries, p: Path, v: Value, q: Path)
    requires p != []
    ensures var after := Tree(PathSet(e, p, v));
      && (p <= q ==> Find(after, q) == Find(v, q[|p|..]))
      && (!Comparable(p, q) ==> Find(after, q) == Find(Tree(e), q))
      && (q <= p && q != p ==> Find(after, q).Some? && Find(after, q).value.Tree?)
    decreases |p|
  {
    if q == [] {
      assert q <= p;
    } else if p[0] != q[0] {
      assert !(p <= q) && !(q <= p);
    } else {
      SameHead(p, q);
      if |p| > 1 {
        FindAfterSet(SubEntries(e, p[0]), p[1..], v, q[1..]);
        BelowDict(e, p[0], q[1..]);
      }
    }
  }

  /** Below a key, an entry that is no dict reads as an empty one. */
  lemma BelowDict(e: Entries, key: string, q: Path)
    ensures q != [] ==> Find(Tree(e), [key] + q) == Find(Tree(SubEntries(e, key)), q)
  {
    assert ([key] + q)[1..] == q;
  }

  /** What a reader can tell about a value at a path. */
  datatype Kind = Absent | IsLeaf(json: string) | IsTree

  function KindOf(v: Option<Value>): Kind {
    match v
    case None => Absent
    case Some(Leaf(json)) => IsLeaf(json)
    case Some(Tree(_)) => IsTree
  }

  function Look(e: Entries, q: Path): Kind {
    KindOf(Find(Tree(e), q))
  }

  /** Configurations that look alike at every path are equal. */
  lemma {:induction false} LookDetermines(a: Value, b: Value)
    requires forall q :: KindOf(Find(a, q)) == KindOf(Find(b, q))
    ensures a == b
    decreases a
  {
    assert KindOf(Find(a, [])) == KindOf(Find(b, []));
    if a.Tree? {
      forall k: string
        ensures k in a.entries <==> k in b.entries
        ensures k in a.entries ==> a.entries[k] == b.entries[k]
      {
        assert KindOf(Find(a, [k])) == KindOf(Find(b, [k]));
        assert [k][1..] == [];
        if k in a.entries {
          forall q ensures KindOf(Find(a.entries[k], q)) == KindOf(Find(b.entries[k], q)) {
            assert ([k] + q)[1..] == q;
            assert KindOf(Find(a, [k] + q)) == KindOf(Find(b, [k] + q));
          }
          LookDetermines(a.entries[k], b.entries[k]);
        }
      }
      assert a.entries == b.entries;
    }
  }

  /** What the last write comparable with `q` decides about `q`, if there is one. */
  function Decided(writes: seq<Write>, q: Path): Option<Kind>
    decreases |writes|
  {
    if writes == [] then None
    else
      var last := writes[|writes| - 1];
      if last.path <= q then Some(KindOf(Find(last.value, q[|last.path|..])))
      else if q <= last.path then Some(IsTree)
      else Decided(writes[..|writes| - 1], q)
  }

  /** Last writer wins, at every path and for every sequence of writes; a path no write is
      comparable with looks as before. */
  lemma {:induction false} LastWriterWins(e: Entries, writes: seq<Write>, q: Path)
    requires forall w :: w in writes ==> w.path != []
    ensures Look(WriteAll(e, writes), q) == (match Decided(writes, q) case None => Look(e, q) case Some(kind) => kind)
    decreases |writes|
  {
    if writes != [] {
      var last := writes[|writes| - 1];
      var before := writes[..|writes| - 1];
      FindAfterSet(WriteAll(e, before), last.path, last.value, q);
      LastWriterWins(e, before, q);
    }
  }

  /** Applying the same writes twice changes nothing more. */
  lemma WritesIdempotent(e: Entries, writes: seq<Write>)
    requires forall w :: w in writes ==> w.path != []
    ensures WriteAll(WriteAll(e, writes), writes) == WriteAll(e, writes)
  {
    var once := WriteAll(e, writes);
    var twice := WriteAll(once, writes);
    forall q ensures KindOf(Find(Tree(twice), q)) == KindOf(Find(Tree(once), q)) {
      LastWriterWins(once, writes, q);
      LastWriterWins(e, writes, q);
      assert Look(twice, q) == Look(once, q);
    }
    LookDetermines(Tree(twice), Tree(once));
  }

  /** A write whose path no later write is comparable with is what a reader of that path gets. */
  lemma {:induction false} WrittenValueIsRead(e: Entries, writes: seq<Write>, i: nat)
    requires forall w :: w in writes ==> w.path != []
    requires i < |writes|
    requires forall j :: i < j < |writes| ==> !Comparable(writes[j].path, writes[i].path)
    ensures Find(Tree(WriteAll(e, writes)), writes[i].path) == Some(writes[i].value)
    decreases |writes|
  {
    var last := writes[|writes| - 1];
    var before := writes[..|writes| - 1];
    FindAfterSet(WriteAll(e, before), last.path, last.value, writes[i].path);
    if i < |writes| - 1 {
      WrittenValueIsRead(e, before, i);
    }
  }

  /** A path no write is comparable with reads as in the base. */
  lemma {:induction false} UnwrittenPathReadsAsBefore(e: Entries, writes: seq<Write>, q: Path)
    requires forall w :: w in writes ==> w.path != [] && !Comparable(w.path, q)
    ensures Find(Tree(WriteAll(e, writes)), q) == Find(Tree(e), q)
    decreases |writes|
  {
    if writes != [] {
      var last := writes[|writes| - 1];
      var before := writes[..|writes| - 1];
      assert last in writes;
      FindAfterSet(WriteAll(e, before), last.path, last.value, q);
      UnwrittenPathReadsAsBefore(e, before, q);
    }
  }

  /** Turning a non-dict on the way into an empty dict does not change what a write below it does. */
  lemma {:induction false} PathSetThroughEmpty(e: Entries, p: Path, q: Path, v: Value)
    requires p != [] && q != []
    requires Find(Tree(e), p) == None || Find(Tree(e), p).value.Leaf?
    ensures PathSet(PathSet(e, p, Tree(map[])), p + q, v) == PathSet(e, p + q, v)
    decreases |p|
  {
    assert (p + q)[0] == p[0];
    assert (p + q)[1..] == p[1..] + q;
    if |p| == 1 {
      assert Find(Tree(e), p) == if p[0] in e then Some(e[p[0]]) else None by {
        assert p[1..] == [];
      }
      assert (p + q)[1..] == q;
    } else {
      var sub := SubEntries(e, p[0]);
      assert Find(Tree(sub), p[1..]) == None || Find(Tree(sub), p[1..]).value.Leaf?;
      PathSetThroughEmpty(sub, p[1..], q, v);
    }
  }

  // ---------- Deep update ----------

  /** `Config._deep_update`: dicts are merged key by key, anything else is replaced. */
  function DeepUpdate(base: Value, update: Value): Value
    requires base.Tree? && update.Tree?
    decreases update
  {
    Tree(map k | k in base.entries.Keys + update.entries.Keys ::
      if k !in update.entries then base.entries[k]
      else if update.entries[k].Tree? && k in base.entries && base.entries[k].Tree?
      then DeepUpdate(base.entries[k], update.entries[k])
      else update.entries[k])
  }

  /** The path leads through something in the value that is no dict. */
  predicate RunsIntoLeaf(v: Value, q: Path) {
    q != [] && (v.Leaf? || (q[0] in v.entries && RunsIntoLeaf(v.entries[q[0]], q[1..])))
  }

  /** A path reads as in the update where the update has anything there, as nothing below a leaf of the
      update, and as in the base everywhere else. */
  lemma {:induction false} DeepUpdateReads(base: Value, update: Value, q: Path)
    requires base.Tree? && update.Tree?
    ensures KindOf(Find(DeepUpdate(base, update), q)) ==
      (if Find(update, q).Some? then KindOf(Find(update, q))
       else if RunsIntoLeaf(update, q) then Absent
       else KindOf(Find(base, q)))
    decreases |q|
  {
    if q != [] && q[0] in update.entries {
      var under := update.entries[q[0]];
      if under.Tree? && q[0] in base.entries && base.entries[q[0]].Tree? {
        DeepUpdateReads(base.entries[q[0]], under, q[1..]);
      } else {
        NotBelowLeaf(under, q[1..]);
        if q[0] in base.entries {
          NotBelowLeaf(base.entries[q[0]], q[1..]);
        }
      }
    }
  }

  /** Where a value has nothing, the path ran into a leaf or into a missing key. */
  lemma {:induction false} NotBelowLeaf(v: Value, q: Path)
    ensures RunsIntoLeaf(v, q) ==> Find(v, q) == None
    ensures v.Leaf? && q != [] ==> Find(v, q) == None
    decreases |q|
  {
    if q != [] && v.Tree? && q[0] in v.entries {
      NotBelowLeaf(v.entries[q[0]], q[1..]);
    }
  }

  /** Updating twice with the same value is updating once. */
  lemma DeepUpdateTwice(base: Value, update: Value)
    requires base.Tree? && update.Tree?
    ensures DeepUpdate(DeepUpdate(base, update), update) == DeepUpdate(base, update)
  {
    var once := DeepUpdate(base, update);
    var twice := DeepUpdate(once, update);
    forall q ensures KindOf(Find(twice, q)) == KindOf(Find(once, q)) {
      DeepUpdateReads(base, update, q);
      DeepUpdateReads(once, update, q);
    }
    LookDetermines(twice, once);
  }
}
