/** Nested dicts on the heap, patched in place by `apply_patch` (artpm_agent/config_layers.py) and read
    and written by dotted paths (artpm_agent/config.py). */
module ConfigDicts {
  import opened Common
  import opened ConfigValues
  import opened ConfigLayers

  /** A mutable dict. */
  class Dict {
    var cells: map<string, Cell>

    constructor (cells: map<string, Cell>)
      ensures this.cells == cells
    {
      this.cells := cells;
    }
  }

  /** What a dict slot holds: a scalar or list, or another dict by reference. */
  datatype Cell = Scalar(json: string) | Sub(dict: Dict)

  // ---------- The tree of dicts under a dict ----------

  /** The dict objects under a dict with what each holds. */
  datatype Shape = Shape(node: Dict, cells: map<string, Cell>, kids: map<string, Shape>)

  ghost function Nodes(sh: Shape): set<Dict> {
    {sh.node} + set k, d | k in sh.kids && d in Nodes(sh.kids[k]) :: d
  }

  /** The kids are the dicts the cells refer to. */
  ghost predicate Linked(sh: Shape) {
    forall k :: (k in sh.kids <==> k in sh.cells && sh.cells[k].Sub?)
             && (k in sh.kids ==> sh.cells[k].dict == sh.kids[k].node)
  }

  /** The dict is not below itself and nothing is below two of its slots. */
  ghost predicate Apart(sh: Shape) {
    && (forall k :: k in sh.kids ==> sh.node !in Nodes(sh.kids[k]))
    && (forall j, k :: j in sh.kids && k in sh.kids && j != k ==> Nodes(sh.kids[j]) !! Nodes(sh.kids[k]))
  }

  /** No dict is shared and none contains itself. */
  ghost predicate IsTree(sh: Shape) {
    Linked(sh) && Apart(sh) && forall k :: k in sh.kids ==> IsTree(sh.kids[k])
  }

  /** The heap holds what the shape says, except perhaps in `skipped`. */
  ghost predicate HeldExcept(sh: Shape, skipped: set<Dict>)
    reads Nodes(sh) - skipped
  {
    && (sh.node !in skipped ==> sh.node.cells == sh.cells)
    && (forall k :: k in sh.kids ==> HeldExcept(sh.kids[k], skipped))
  }

  /** The heap under `sh.node` is the tree `sh`. */
  ghost predicate Fits(sh: Shape)
    reads Nodes(sh)
  {
    IsTree(sh) && HeldExcept(sh, {})
  }

  /** The value a dict denotes. */
  ghost function Contents(sh: Shape): Entries
    requires IsTree(sh)
  {
    map k | k in sh.cells :: if sh.cells[k].Sub? then Tree(Contents(sh.kids[k])) else Leaf(sh.cells[k].json)
  }

  // A cell together with the tree under it, where it has one.

  ghost function CellNodes(c: Cell, sh: Shape): set<Dict> {
    if c.Sub? then Nodes(sh) else {}
  }

  ghost predicate CellIsTree(c: Cell, sh: Shape) {
    c.Sub? ==> sh.node == c.dict && IsTree(sh)
  }

  ghost predicate CellFits(c: Cell, sh: Shape)
    reads CellNodes(c, sh)
  {
    CellIsTree(c, sh) && (c.Sub? ==> HeldExcept(sh, {}))
  }

  ghost function CellValue(c: Cell, sh: Shape): Value
    requires CellIsTree(c, sh)
  {
    if c.Scalar? then Leaf(c.json) else Tree(Contents(sh))
  }

  // ---------- Assignment into a dict of the tree ----------

  /** The path names dicts all the way. */
  ghost predicate Leads(sh: Shape, path: Path)
    decreases |path|
  {
    path == [] || (path[0] in sh.kids && Leads(sh.kids[path[0]], path[1..]))
  }

  ghost function Below(sh: Shape, path: Path): Shape
    requires Leads(sh, path)
    decreases |path|
  {
    if path == [] then sh else Below(sh.kids[path[0]], path[1..])
  }

  ghost function WithCell(sh: Shape, key: string, cell: Cell, child: Shape): Shape {
    Shape(sh.node, sh.cells[key := cell], if cell.Sub? then sh.kids[key := child] else sh.kids - {key})
  }

  ghost function WithKid(sh: Shape, key: string, kid: Shape): Shape {
    sh.(kids := sh.kids[key := kid])
  }

  /** The tree after `target[key] = cell`, where `target` is the dict at `path`. */
  ghost function Grafted(sh: Shape, path: Path, key: string, cell: Cell, child: Shape): Shape
    requires Leads(sh, path)
    decreases |path|
  {
    if path == [] then WithCell(sh, key, cell, child)
    else WithKid(sh, path[0], Grafted(sh.kids[path[0]], path[1..], key, cell, child))
  }

  lemma {:induction false} BelowIsNode(sh: Shape, path: Path)
    requires Leads(sh, path)
    ensures Below(sh, path).node in Nodes(sh)
    ensures IsTree(sh) ==> IsTree(Below(sh, path))
    decreases |path|
  {
    if path != [] {
      BelowIsNode(sh.kids[path[0]], path[1..]);
    }
  }

  lemma {:induction false} GraftedNodes(sh: Shape, path: Path, key: string, cell: Cell, child: Shape)
    requires Leads(sh, path)
    ensures Grafted(sh, path, key, cell, child).node == sh.node
    ensures Nodes(Grafted(sh, path, key, cell, child)) <= Nodes(sh) + CellNodes(cell, child)
    decreases |path|
  {
    if path != [] {
      GraftedNodes(sh.kids[path[0]], path[1..], key, cell, child);
    }
  }

  lemma WithCellIsTree(sh: Shape, key: string, cell: Cell, child: Shape)
    requires IsTree(sh) && CellIsTree(cell, child) && CellNodes(cell, child) !! Nodes(sh)
    ensures IsTree(WithCell(sh, key, cell, child))
  {
    var after := WithCell(sh, key, cell, child);
    forall j, k | j in after.kids && k in after.kids && j != k
      ensures Nodes(after.kids[j]) !! Nodes(after.kids[k])
    {
      assert j != key ==> Nodes(sh.kids[j]) <= Nodes(sh);
      assert k != key ==> Nodes(sh.kids[k]) <= Nodes(sh);
    }
    forall k | k in after.kids ensures after.node !in Nodes(after.kids[k]) {
      assert k != key ==> sh.node !in Nodes(sh.kids[k]);
    }
  }

  lemma WithKidApart(sh: Shape, key: string, kid: Shape, extra: set<Dict>)
    requires Apart(sh) && key in sh.kids
    requires Nodes(kid) <= Nodes(sh.kids[key]) + extra && extra !! Nodes(sh)
    ensures Apart(WithKid(sh, key, kid))
  {
    var after := WithKid(sh, key, kid);
    forall k | k in sh.kids ensures Nodes(sh.kids[k]) <= Nodes(sh) && sh.node !in Nodes(after.kids[k]) {
    }
    forall j, k | j in after.kids && k in after.kids && j != k
      ensures Nodes(after.kids[j]) !! Nodes(after.kids[k])
    {
      assert Nodes(sh.kids[j]) !! Nodes(sh.kids[k]);
    }
  }

  lemma WithKidIsTree(sh: Shape, key: string, kid: Shape, extra: set<Dict>)
    requires IsTree(sh) && key in sh.kids && IsTree(kid) && kid.node == sh.kids[key].node
    requires Nodes(kid) <= Nodes(sh.kids[key]) + extra && extra !! Nodes(sh)
    ensures IsTree(WithKid(sh, key, kid))
  {
    WithKidApart(sh, key, kid, extra);
  }

  lemma {:induction false} GraftedIsTree(sh: Shape, path: Path, key: string, cell: Cell, child: Shape)
    requires Leads(sh, path) && IsTree(sh)
    requires CellIsTree(cell, child) && CellNodes(cell, child) !! Nodes(sh)
    ensures IsTree(Grafted(sh, path, key, cell, child))
    decreases |path|
  {
    if path == [] {
      WithCellIsTree(sh, key, cell, child);
    } else {
      var kid := sh.kids[path[0]];
      assert Nodes(kid) <= Nodes(sh);
      GraftedIsTree(kid, path[1..], key, cell, child);
      GraftedNodes(kid, path[1..], key, cell, child);
      WithKidIsTree(sh, path[0], Grafted(kid, path[1..], key, cell, child), CellNodes(cell, child));
    }
  }

  lemma WithCellContents(sh: Shape, key: string, cell: Cell, child: Shape)
    requires IsTree(sh) && CellIsTree(cell, child) && IsTree(WithCell(sh, key, cell, child))
    ensures Contents(WithCell(sh, key, cell, child)) == Contents(sh)[key := CellValue(cell, child)]
  {
  }

  lemma WithKidContents(sh: Shape, key: string, kid: Shape)
    requires IsTree(sh) && key in sh.kids && IsTree(kid) && IsTree(WithKid(sh, key, kid))
    ensures Contents(WithKid(sh, key, kid)) == Contents(sh)[key := Tree(Contents(kid))]
    ensures SubEntries(Contents(sh), key) == Contents(sh.kids[key])
  {
    var after := WithKid(sh, key, kid);
    var before := Contents(sh);
    assert before[key] == Tree(Contents(sh.kids[key]));
    assert Contents(after).Keys == before.Keys;
    forall k | k in before ensures Contents(after)[k] == before[key := Tree(Contents(kid))][k] {
      assert k == key ==> after.kids[k] == kid;
    }
  }

  lemma PathSetInto(e: Entries, path: Path, key: string, v: Value)
    requires path != []
    ensures PathSet(e, path + [key], v)
         == e[path[0] := Tree(PathSet(SubEntries(e, path[0]), path[1..] + [key], v))]
  {
    assert (path + [key])[1..] == path[1..] + [key];
  }

  /** One assignment into a dict of the tree is one path write on the value of the tree. */
  lemma {:induction false} GraftIsPathSet(sh: Shape, path: Path, key: string, cell: Cell, child: Shape)
    requires Leads(sh, path) && IsTree(sh)
    requires CellIsTree(cell, child) && CellNodes(cell, child) !! Nodes(sh)
    ensures IsTree(Grafted(sh, path, key, cell, child))
    ensures Contents(Grafted(sh, path, key, cell, child))
         == PathSet(Contents(sh), path + [key], CellValue(cell, child))
    decreases |path|
  {
    GraftedIsTree(sh, path, key, cell, child);
    if path == [] {
      WithCellContents(sh, key, cell, child);
    } else {
      var kid := sh.kids[path[0]];
      assert Nodes(kid) <= Nodes(sh);
      GraftIsPathSet(kid, path[1..], key, cell, child);
      WithKidContents(sh, path[0], Grafted(kid, path[1..], key, cell, child));
      PathSetInto(Contents(sh), path, key, CellValue(cell, child));
    }
  }

  lemma {:induction false} HeldIsHeldExcept(sh: Shape, skipped: set<Dict>)
    requires HeldExcept(sh, {})
    ensures HeldExcept(sh, skipped)
  {
    forall k | k in sh.kids ensures HeldExcept(sh.kids[k], skipped) {
      HeldIsHeldExcept(sh.kids[k], skipped);
    }
  }

  lemma {:induction false} SkippedElsewhere(sh: Shape, skipped: set<Dict>)
    requires HeldExcept(sh, skipped) && skipped !! Nodes(sh)
    ensures HeldExcept(sh, {})
  {
    forall k | k in sh.kids ensures HeldExcept(sh.kids[k], {}) {
      SkippedElsewhere(sh.kids[k], skipped);
    }
  }

  ghost function KidAt(sh: Shape, k: string): Shape {
    if k in sh.kids then sh.kids[k] else sh
  }

  lemma KidCellFits(sh: Shape, k: string)
    requires Fits(sh) && k in sh.cells
    ensures sh.node.cells == sh.cells
    ensures sh.cells[k].Sub? <==> k in sh.kids
    ensures CellFits(sh.cells[k], KidAt(sh, k))
    ensures Contents(sh).Keys == sh.cells.Keys
    ensures Contents(sh)[k] == CellValue(sh.cells[k], KidAt(sh, k))
  {
  }

  /** Once the target holds its new cell, the heap is the grafted tree. */
  lemma {:induction false} GraftIsHeld(sh: Shape, path: Path, key: string, cell: Cell, child: Shape)
    requires Leads(sh, path) && IsTree(sh)
    requires var target := Below(sh, path); HeldExcept(sh, {target.node}) && target.node.cells == target.cells[key := cell]
    requires CellFits(cell, child)
    ensures HeldExcept(Grafted(sh, path, key, cell, child), {})
    decreases |path|
  {
    var target := Below(sh, path).node;
    BelowIsNode(sh, path);
    if path == [] {
      forall k | k in sh.kids ensures HeldExcept(sh.kids[k], {}) {
        SkippedElsewhere(sh.kids[k], {target});
      }
    } else {
      BelowIsNode(sh.kids[path[0]], path[1..]);
      GraftIsHeld(sh.kids[path[0]], path[1..], key, cell, child);
      forall k | k in sh.kids && k != path[0] ensures HeldExcept(sh.kids[k], {}) {
        SkippedElsewhere(sh.kids[k], {target});
      }
    }
  }

  // ---------- The walk ----------

  lemma {:induction false} NodesAllocated(sh: Shape)
    ensures allocated(Nodes(sh))
  {
    forall k | k in sh.kids ensures allocated(Nodes(sh.kids[k])) {
      NodesAllocated(sh.kids[k]);
    }
  }

  lemma {:induction false} HeldBelow(sh: Shape, path: Path)
    requires Leads(sh, path) && HeldExcept(sh, {})
    ensures HeldExcept(Below(sh, path), {})
    decreases |path|
  {
    if path != [] {
      HeldBelow(sh.kids[path[0]], path[1..]);
    }
  }

  lemma {:induction false} LeadsFurther(sh: Shape, path: Path, key: string)
    requires Leads(sh, path) && key in Below(sh, path).kids
    ensures Leads(sh, path + [key]) && Below(sh, path + [key]) == Below(sh, path).kids[key]
    decreases |path|
  {
    if path == [] {
      assert (path + [key])[1..] == [];
    } else {
      assert (path + [key])[1..] == path[1..] + [key];
      LeadsFurther(sh.kids[path[0]], path[1..], key);
    }
  }

  lemma {:induction false} GraftLeads(sh: Shape, path: Path, key: string, cell: Cell, child: Shape)
    requires Leads(sh, path) && cell.Sub?
    ensures var after := Grafted(sh, path, key, cell, child);
      Leads(after, path + [key]) && Below(after, path + [key]) == child
    decreases |path|
  {
    if path == [] {
      assert (path + [key])[1..] == [];
    } else {
      assert (path + [key])[1..] == path[1..] + [key];
      GraftLeads(sh.kids[path[0]], path[1..], key, cell, child);
    }
  }

  /** Following one more key on the heap is `Find`ing one more key in the value. */
  lemma {:induction false} FindBelow(sh: Shape, path: Path, key: string)
    requires Leads(sh, path) && IsTree(sh)
    ensures IsTree(Below(sh, path))
    ensures Find(Tree(Contents(sh)), path + [key]) == At(Contents(Below(sh, path)), key)
    decreases |path|
  {
    if path == [] {
      assert (path + [key])[1..] == [];
    } else {
      var kid := sh.kids[path[0]];
      FindBelow(kid, path[1..], key);
      assert (path + [key])[1..] == path[1..] + [key];
      assert Contents(sh)[path[0]] == Tree(Contents(kid));
    }
  }

  /** What the dict at a path holds, ready for one of its cells to change. */
  lemma TargetBefore(sh: Shape, path: Path)
    requires Fits(sh) && Leads(sh, path)
    ensures var target := Below(sh, path);
      target.node.cells == target.cells && target.node in Nodes(sh) && HeldExcept(sh, {target.node})
  {
    hide IsTree;
    HeldIsHeldExcept(sh, {Below(sh, path).node});
    HeldBelow(sh, path);
    BelowIsNode(sh, path);
  }

  /** `target[key] = cell` on a dict of the tree. */
  method Assign(target: Dict, key: string, cell: Cell, ghost sh: Shape, ghost path: Path, ghost child: Shape)
    returns (ghost after: Shape)
    requires Fits(sh) && Leads(sh, path) && Below(sh, path).node == target
    requires CellFits(cell, child) && CellNodes(cell, child) !! Nodes(sh)
    modifies target
    ensures after == Grafted(sh, path, key, cell, child) && after.node == sh.node
    ensures Fits(after) && Nodes(after) <= Nodes(sh) + CellNodes(cell, child)
    ensures Contents(after) == PathSet(Contents(sh), path + [key], CellValue(cell, child))
    ensures CellFits(cell, child)
  {
    hide IsTree, HeldExcept, Contents, Nodes, Grafted, Below, Leads, PathSet;
    TargetBefore(sh, path);
    target.cells := target.cells[key := cell];
    after := Grafted(sh, path, key, cell, child);
    GraftIsHeld(sh, path, key, cell, child);
    GraftedNodes(sh, path, key, cell, child);
    GraftIsPathSet(sh, path, key, cell, child);
  }

  /** What looking up `part` in the dict at `path` says about the tree and about its value. */
  lemma LookAtTarget(sh: Shape, path: Path, part: string)
    requires Fits(sh) && Leads(sh, path)
    ensures var target := Below(sh, path);
      && target.node in Nodes(sh)
      && (part in target.kids <==> part in target.node.cells && target.node.cells[part].Sub?)
      && (part in target.kids ==> target.node.cells[part].dict == target.kids[part].node)
      && (part in target.kids || Find(Tree(Contents(sh)), path + [part]) == None
          || Find(Tree(Contents(sh)), path + [part]).value.Leaf?)
  {
    hide Apart;
    HeldBelow(sh, path);
    BelowIsNode(sh, path);
    FindBelow(sh, path, part);
  }

  /** Steps into the dict under `part`, replacing anything else there by an empty dict; a write
      further down ends the same either way. */
  method StepInto(target: Dict, part: string, ghost sh: Shape, ghost path: Path, ghost rest: Path, ghost v: Value)
    returns (child: Dict, ghost after: Shape)
    requires Fits(sh) && Leads(sh, path) && Below(sh, path).node == target && rest != []
    modifies target
    ensures Fits(after) && after.node == sh.node
    ensures Leads(after, path + [part]) && Below(after, path + [part]).node == child
    ensures PathSet(Contents(after), path + [part] + rest, v) == PathSet(Contents(sh), path + [part] + rest, v)
    ensures fresh(Nodes(after) - Nodes(sh))
    ensures if part in old(target.cells) && old(target.cells)[part].Sub? then after == sh
            else Below(after, path + [part]).cells == map[]
  {
    hide Apart, Contents, Find, PathSet;
    after := sh;
    LookAtTarget(sh, path, part);
    if part in target.cells && target.cells[part].Sub? {
      LeadsFurther(sh, path, part);
      child := target.cells[part].dict;
    } else {
      NodesAllocated(sh);
      child := new Dict(map[]);
      ghost var leaf := Shape(child, map[], map[]);
      EmptyDict(leaf);
      PathSetThroughEmpty(Contents(sh), path + [part], rest, v);
      GraftLeads(sh, path, part, Sub(child), leaf);
      after := Assign(target, part, Sub(child), sh, path, leaf);
    }
  }

  lemma EmptyDict(sh: Shape)
    requires sh.cells == map[] && sh.kids == map[] && sh.node.cells == map[]
    ensures Fits(sh) && Contents(sh) == map[] && Nodes(sh) == {sh.node}
  {
  }

  /** Walks to the last part of a path, putting an empty dict wherever there is none, and assigns
      there: one write of the path algebra. */
  method WriteAt(root: Dict, parts: Path, cell: Cell, ghost sh: Shape, ghost child: Shape) returns (ghost after: Shape)
    requires Fits(sh) && sh.node == root && parts != []
    requires CellFits(cell, child) && CellNodes(cell, child) !! Nodes(sh)
    modifies Nodes(sh)
    ensures Fits(after) && after.node == root
    ensures Contents(after) == PathSet(Contents(sh), parts, CellValue(cell, child))
    ensures fresh(Nodes(after) - Nodes(sh) - CellNodes(cell, child))
    ensures CellFits(cell, child)
  {
    hide IsTree, HeldExcept, Contents, Nodes, PathSet;
    ghost var v := CellValue(cell, child);
    var target := root;
    after := sh;
    assert parts[..0] == [];
    NodesAllocated(child);
    for i := 0 to |parts| - 1
      invariant Fits(after) && after.node == root
      invariant Leads(after, parts[..i]) && Below(after, parts[..i]).node == target
      invariant PathSet(Contents(after), parts, v) == PathSet(Contents(sh), parts, v)
      invariant CellFits(cell, child) && CellNodes(cell, child) !! Nodes(after)
      invariant forall d :: d in Nodes(after) && d !in Nodes(sh) ==> fresh(d)
    {
      assert parts[..i] + [parts[i]] == parts[..i + 1];
      assert parts[..i + 1] + parts[i + 1..] == parts;
      BelowIsNode(after, parts[..i]);
      ghost var before := after;
      NodesAllocated(before);
      label L:
      target, after := StepInto(target, parts[i], after, parts[..i], parts[i + 1..], v);
      forall d | d in Nodes(after) && d !in Nodes(sh) ensures fresh(d) {
        assert d in Nodes(before) || fresh@L(d);
      }
    }
    assert parts[..|parts| - 1] + [parts[|parts| - 1]] == parts;
    BelowIsNode(after, parts[..|parts| - 1]);
    after := Assign(target, parts[|parts| - 1], cell, after, parts[..|parts| - 1], child);
  }

  // ---------- deepcopy ----------

  /** A fresh tree with the same value; the original is not touched. */
  method DeepCopy(d: Dict, ghost sh: Shape) returns (copy: Dict, ghost copied: Shape)
    requires Fits(sh) && sh.node == d
    ensures Fits(copied) && copied.node == copy && fresh(Nodes(copied))
    ensures Contents(copied) == Contents(sh)
    decreases sh
  {
    hide IsTree, Contents, Nodes, HeldExcept, PathSet;
    ContentsKeys(sh);
    NodesAllocated(sh);
    copy := new Dict(map[]);
    copied := Shape(copy, map[], map[]);
    EmptyDict(copied);
    var todo := d.cells.Keys;
    while todo != {}
      invariant todo <= sh.cells.Keys
      invariant Fits(sh) && Fits(copied) && copied.node == copy && fresh(Nodes(copied))
      invariant Contents(copied) == Contents(sh) - todo
    {
      var k :| k in todo;
      KidCellFits(sh, k);
      NodesAllocated(copied);
      var cell := d.cells[k];
      ghost var child := sh;
      if cell.Sub? {
        var sub;
        sub, child := DeepCopy(cell.dict, sh.kids[k]);
        cell := Sub(sub);
      }
      PathSetHere(Contents(copied), k, CellValue(cell, child));
      copied := Assign(copy, k, cell, copied, [], child);
      todo := todo - {k};
    }
  }

  lemma PathSetHere(e: Entries, k: string, v: Value)
    ensures PathSet(e, [] + [k], v) == e[k := v]
  {
    assert [] + [k] == [k];
  }

  lemma ContentsKeys(sh: Shape)
    requires Fits(sh)
    ensures sh.node.cells == sh.cells && Contents(sh).Keys == sh.cells.Keys
  {
  }

  method DeepCopyCell(c: Cell, ghost sh: Shape) returns (copy: Cell, ghost copied: Shape)
    requires CellFits(c, sh)
    ensures CellFits(copy, copied) && fresh(CellNodes(copy, copied))
    ensures CellValue(copy, copied) == CellValue(c, sh)
  {
    copy, copied := c, sh;
    if c.Sub? {
      var dict;
      dict, copied := DeepCopy(c.dict, sh);
      copy := Sub(dict);
    }
  }

  // ---------- apply_patch ----------

  /** One pair of a patch as it sits on the heap. */
  datatype Slot = Slot(key: string, cell: Cell)

  ghost function PatchNodes(slots: seq<Slot>, shapes: seq<Shape>): set<Dict> {
    set i, d | 0 <= i < |slots| && i < |shapes| && d in CellNodes(slots[i].cell, shapes[i]) :: d
  }

  ghost predicate PatchFits(slots: seq<Slot>, shapes: seq<Shape>)
    reads PatchNodes(slots, shapes)
  {
    |slots| == |shapes| && forall i :: 0 <= i < |slots| ==> CellFits(slots[i].cell, shapes[i])
  }

  ghost predicate PatchIsTree(slots: seq<Slot>, shapes: seq<Shape>) {
    |slots| == |shapes| && forall i :: 0 <= i < |slots| ==> CellIsTree(slots[i].cell, shapes[i])
  }

  ghost function PatchOf(slots: seq<Slot>, shapes: seq<Shape>): (patch: Patch)
    requires PatchIsTree(slots, shapes)
    ensures |patch| == |slots|
    ensures forall i :: 0 <= i < |slots| ==> patch[i] == Entry(slots[i].key, CellValue(slots[i].cell, shapes[i]))
  {
    seq(|slots|, i requires 0 <= i < |slots| => Entry(slots[i].key, CellValue(slots[i].cell, shapes[i])))
  }

  /** A new tree holding what the patch makes of the base, or the first invalid key. Neither the base
      nor the patch is changed, and the result shares no dict with them. */
  method ApplyPatch(base: Dict, slots: seq<Slot>, ghost sh: Shape, ghost shapes: seq<Shape>)
    returns (r: Result<Dict, string>, ghost after: Shape)
    requires Fits(sh) && sh.node == base && PatchFits(slots, shapes)
    ensures match Applied(Contents(sh), PatchOf(slots, shapes))
      case Err(key) => r == Err(key)
      case Ok(entries) => r == Ok(after.node) && Fits(after) && fresh(Nodes(after)) && Contents(after) == entries
  {
    hide IsTree, Contents, Nodes, HeldExcept, WriteAll, Writes, PathSet, FirstInvalid, ValidKey, Parts;
    ghost var patch := PatchOf(slots, shapes);
    NoWritesYet(Contents(sh), patch);
    PatchAllocated(slots, shapes);
    var result;
    result, after := DeepCopy(base, sh);
    for i := 0 to |slots|
      invariant PatchFits(slots, shapes)
      invariant Fits(after) && after.node == result && fresh(Nodes(after))
      invariant FirstInvalid(patch[..i]) == None
      invariant Contents(after) == WriteAll(Contents(sh), Writes(patch[..i]))
    {
      FirstInvalidExtends(patch, i);
      if !ValidKey(slots[i].key) {
        return Err(slots[i].key), after;
      }
      WritesExtend(Contents(sh), patch, i);
      NodesAllocated(after);
      label L:
      var cell, child := DeepCopyCell(slots[i].cell, shapes[i]);
      ghost var before := after;
      label M:
      after := WriteAt(result, Parts(slots[i].key), cell, after, child);
      forall d | d in Nodes(after) ensures fresh(d) {
        assert d in Nodes(before) || fresh@L(d) || fresh@M(d);
      }
    }
    assert patch[..|patch|] == patch;
    return Ok(result), after;
  }

  lemma PatchAllocated(slots: seq<Slot>, shapes: seq<Shape>)
    ensures allocated(PatchNodes(slots, shapes))
  {
    forall i | 0 <= i < |slots| && i < |shapes| ensures allocated(CellNodes(slots[i].cell, shapes[i])) {
      NodesAllocated(shapes[i]);
    }
  }

  lemma {:induction false} FirstInvalidExtends(patch: Patch, i: nat)
    requires i < |patch| && FirstInvalid(patch[..i]) == None
    ensures if ValidKey(patch[i].key) then FirstInvalid(patch[..i + 1]) == None
            else FirstInvalid(patch) == Some(patch[i].key)
  {
    hide ValidKey;
    if i == 0 {
      assert patch[..1][1..] == [];
    } else {
      assert patch[..i][1..] == patch[1..][..i - 1];
      assert patch[..i + 1][1..] == patch[1..][..i];
      FirstInvalidExtends(patch[1..], i - 1);
    }
  }

  lemma NoWritesYet(e: Entries, patch: Patch)
    ensures FirstInvalid(patch[..0]) == None
    ensures WriteAll(e, Writes(patch[..0])) == e
  {
    assert Writes(patch[..0]) == [];
  }

  lemma WritesExtend(e: Entries, patch: Patch, i: nat)
    requires i < |patch|
    ensures WriteAll(e, Writes(patch[..i + 1]))
         == PathSet(WriteAll(e, Writes(patch[..i])), Parts(patch[i].key), patch[i].value)
  {
    var ws := Writes(patch[..i + 1]);
    assert ws[..|ws| - 1] == Writes(patch[..i]);
    assert ws[i] == Write(Parts(patch[i].key), patch[i].value);
  }
}
