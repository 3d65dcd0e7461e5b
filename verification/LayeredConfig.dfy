/** The stack of configuration layers (artpm_agent/config_layers.py) and the dotted-path reader and
    writer of the loaded configuration (artpm_agent/config.py). */
module LayeredConfig {
  import opened Common
  import opened ConfigDicts
  import opened ConfigLayers
  import opened ConfigValues
  import opened Text

  datatype Layer = Layer(name: string, source: string, slots: seq<Slot>)

  /** What `dump` reports for one top-level key. */
  datatype Annotation = Annotation(cell: Cell, layer: string, source: string)

  /** Which layer a winner depth stands for. */
  function NameAt(layers: seq<Layer>, depth: nat): (string, string)
    requires depth <= |layers|
  {
    if depth == 0 then ("base", "packaged") else (layers[depth - 1].name, layers[depth - 1].source)
  }

  ghost predicate LayersAreTrees(layers: seq<Layer>, shapes: seq<seq<Shape>>) {
    |shapes| == |layers| && forall i :: 0 <= i < |layers| ==> PatchIsTree(layers[i].slots, shapes[i])
  }

  /** The patches of the layers, lowest first. */
  ghost function PatchesOf(layers: seq<Layer>, shapes: seq<seq<Shape>>): (patches: seq<Patch>)
    requires LayersAreTrees(layers, shapes)
    ensures |patches| == |layers|
    ensures forall i :: 0 <= i < |layers| ==> patches[i] == PatchOf(layers[i].slots, shapes[i])
  {
    seq(|layers|, i requires 0 <= i < |layers| => PatchOf(layers[i].slots, shapes[i]))
  }

  predicate SlotsCredit(slots: seq<Slot>, key: string) {
    exists slot :: slot in slots && Credits(slot.key, key)
  }

  class Stack {
    var base: Dict
    var layers: seq<Layer>
    ghost var baseShape: Shape
    ghost var layerShapes: seq<seq<Shape>>

    ghost function Footprint(): set<Dict>
      reads this
    {
      Nodes(baseShape) + set i, d | 0 <= i < |layers| && i < |layerShapes| && d in PatchNodes(layers[i].slots, layerShapes[i]) :: d
    }

    ghost predicate Valid()
      reads this, Footprint()
    {
      && Fits(baseShape) && baseShape.node == base
      && LayersAreTrees(layers, layerShapes) && |layers| <= MAX_LAYERS
      && forall i :: 0 <= i < |layers| ==> PatchFits(layers[i].slots, layerShapes[i])
    }

    ghost function Patches(): seq<Patch>
      requires LayersAreTrees(layers, layerShapes)
      reads this
    {
      PatchesOf(layers, layerShapes)
    }

    constructor (base: Dict, ghost sh: Shape)
      requires Fits(sh) && sh.node == base
      ensures Valid() && layers == [] && Contents(baseShape) == Contents(sh) && fresh(Nodes(baseShape))
    {
      var copy, copied := DeepCopy(base, sh);
      this.base := copy;
      this.layers := [];
      this.baseShape := copied;
      this.layerShapes := [];
    }

    /** Refuses a layer beyond the limit and leaves the stack as it was. */
    method AddPatch(name: string, slots: seq<Slot>, source: string, ghost shapes: seq<Shape>) returns (r: Result<(), string>)
      requires Valid() && PatchFits(slots, shapes)
      modifies this`layers, this`layerShapes
      ensures Valid()
      ensures r.Err? <==> |old(layers)| == 32
      ensures layers == if r.Err? then old(layers) else old(layers) + [Layer(name, source, slots)]
      ensures Patches() == if r.Err? then old(Patches()) else old(Patches()) + [PatchOf(slots, shapes)]
    {
      if |layers| >= MAX_LAYERS {
        return Err("cannot exceed 32 config layers");
      }
      layers := layers + [Layer(name, source, slots)];
      layerShapes := layerShapes + [shapes];
      return Ok(());
    }

    /** The merged configuration as a new tree; base and layers keep their values. */
    method Merged() returns (r: Result<Dict, string>, ghost sh: Shape)
      requires Valid()
      ensures Valid() && Patches() == old(Patches())
      ensures match Stacked(Contents(baseShape), Patches())
        case Err(key) => r == Err(key)
        case Ok(entries) => r == Ok(sh.node) && Fits(sh) && fresh(Nodes(sh)) && Contents(sh) == entries
    {
      hide ConfigDicts.IsTree, ConfigDicts.Contents, ConfigDicts.Nodes, ConfigDicts.HeldExcept, ConfigLayers.Applied, ConfigDicts.PatchFits;
      ghost var patches := Patches();
      ghost var start := Contents(baseShape);
      FootprintAllocated();
      var result;
      result, sh := DeepCopy(base, baseShape);
      assert patches[..0] == [];
      for i := 0 to |layers|
        invariant Valid() && Patches() == patches
        invariant Fits(sh) && sh.node == result && fresh(Nodes(sh))
        invariant Stacked(start, patches[..i]) == Ok(Contents(sh))
      {
        StackedExtends(start, patches, i);
        label L:
        var next, nextShape := ApplyPatch(result, layers[i].slots, sh, layerShapes[i]);
        match next {
          case Err(key) => return Err(key), sh;
          case Ok(dict) => result, sh := dict, nextShape;
        }
        forall d | d in Nodes(sh) ensures fresh(d) {
          assert fresh@L(d);
        }
      }
      assert patches[..|patches|] == patches;
      return Ok(result), sh;
    }

    lemma FootprintAllocated()
      ensures allocated(Footprint())
    {
      NodesAllocated(baseShape);
      forall i | 0 <= i < |layers| && i < |layerShapes| ensures allocated(PatchNodes(layers[i].slots, layerShapes[i])) {
        PatchAllocated(layers[i].slots, layerShapes[i]);
      }
    }

    /** The layer `dump` credits with a key: the last one with a patch key that credits it. */
    method Winner(key: string) returns (depth: nat)
      requires LayersAreTrees(layers, layerShapes)
      ensures depth == WinnerDepth(Patches(), key)
    {
      ghost var patches := Patches();
      depth := |layers|;
      assert patches[..depth] == patches;
      while depth > 0 && !SlotsCredit(layers[depth - 1].slots, key)
        invariant depth <= |layers|
        invariant WinnerDepth(patches[..depth], key) == WinnerDepth(patches, key)
      {
        assert patches[..depth][..depth - 1] == patches[..depth - 1];
        CreditsBySlots(layers[depth - 1].slots, layerShapes[depth - 1], key);
        depth := depth - 1;
      }
      if depth > 0 {
        CreditsBySlots(layers[depth - 1].slots, layerShapes[depth - 1], key);
      }
    }

    /** Every key of the merged configuration with its value and the layer credited with it. */
    method Dump() returns (r: Result<map<string, Annotation>, string>, ghost sh: Shape)
      requires Valid()
      ensures Valid() && Patches() == old(Patches())
      ensures match Stacked(Contents(baseShape), Patches())
        case Err(key) => r == Err(key)
        case Ok(entries) =>
          && r.Ok? && Fits(sh) && Contents(sh) == entries && r.value.Keys == entries.Keys
          && forall k :: k in entries ==>
            && r.value[k].cell == sh.cells[k]
            && (r.value[k].layer, r.value[k].source) == NameAt(layers, WinnerDepth(Patches(), k))
    {
      hide ConfigDicts.IsTree, ConfigDicts.HeldExcept, ConfigDicts.Contents, ConfigDicts.Nodes;
      hide ConfigDicts.PatchFits, ConfigDicts.PatchIsTree, ConfigLayers.Stacked, ConfigLayers.WinnerDepth;
      FootprintAllocated();
      ghost var patches := Patches();
      var merged;
      merged, sh := Merged();
      if merged.Err? {
        return Err(merged.error), sh;
      }
      ContentsKeys(sh);
      var cells := merged.value.cells;
      var annotated: map<string, Annotation> := map[];
      var todo := cells.Keys;
      while todo != {}
        invariant todo <= cells.Keys && annotated.Keys == cells.Keys - todo
        invariant Valid() && Patches() == patches && Fits(sh)
        invariant forall k :: k in annotated ==>
          && annotated[k].cell == cells[k]
          && (annotated[k].layer, annotated[k].source) == NameAt(layers, WinnerDepth(patches, k))
      {
        var key :| key in todo;
        NodesAllocated(sh);
        var depth := Winner(key);
        var named := NameAt(layers, depth);
        annotated := annotated[key := Annotation(cells[key], named.0, named.1)];
        todo := todo - {key};
      }
      return Ok(annotated), sh;
    }
  }

  lemma StackedExtends(base: Entries, patches: seq<Patch>, i: nat)
    requires i < |patches|
    requires Stacked(base, patches[..i]).Ok?
    ensures Stacked(base, patches[..i + 1]) == Applied(Stacked(base, patches[..i]).value, patches[i])
    ensures Stacked(base, patches[..i + 1]).Err? ==> Stacked(base, patches) == Stacked(base, patches[..i + 1])
  {
    assert patches[..i + 1][..i] == patches[..i];
    if Stacked(base, patches[..i + 1]).Err? {
      ErrorStays(base, patches, i + 1);
    }
  }

  lemma {:induction false} ErrorStays(base: Entries, patches: seq<Patch>, n: nat)
    requires n <= |patches| && Stacked(base, patches[..n]).Err?
    ensures Stacked(base, patches) == Stacked(base, patches[..n])
    decreases |patches|
  {
    if n == |patches| {
      assert patches[..n] == patches;
    } else {
      assert patches[..|patches| - 1][..n] == patches[..n];
      ErrorStays(base, patches[..|patches| - 1], n);
    }
  }

  lemma CreditsBySlots(slots: seq<Slot>, shapes: seq<Shape>, key: string)
    requires PatchIsTree(slots, shapes)
    ensures LayerCredits(PatchOf(slots, shapes), key) <==> SlotsCredit(slots, key)
  {
    var patch := PatchOf(slots, shapes);
    if SlotsCredit(slots, key) {
      var j :| 0 <= j < |slots| && Credits(slots[j].key, key);
      assert patch[j] in patch;
    }
  }

  // ---------- Config.get and Config.set ----------

  /** `Config.get` returns what the dict tree holds at the path, or nothing. */
  method Get(config: Dict, keyPath: string, ghost sh: Shape) returns (found: Option<Cell>, ghost at: Shape)
    requires Fits(sh) && sh.node == config
    ensures match Find(Tree(Contents(sh)), Split(keyPath, '.'))
      case None => found == None
      case Some(value) => found.Some? && CellFits(found.value, at) && CellValue(found.value, at) == value
  {
    hide ConfigDicts.IsTree, ConfigDicts.Contents, ConfigDicts.Nodes, ConfigDicts.HeldExcept, Text.Split;
    var keys := Split(keyPath, '.');
    var value := Sub(config);
    at := sh;
    for i := 0 to |keys|
      invariant CellFits(value, at)
      invariant Find(CellValue(value, at), keys[i..]) == Find(Tree(Contents(sh)), keys)
    {
      assert keys[i..][0] == keys[i] && keys[i..][1..] == keys[i + 1..];
      if value.Sub? {
        ContentsKeys(at);
      }
      if value.Scalar? || keys[i] !in value.dict.cells {
        return None, at;
      }
      KidCellFits(at, keys[i]);
      value := value.dict.cells[keys[i]];
      at := KidAt(at, keys[i]);
    }
    return Some(value), at;
  }

  /** A scalar on the way, at which `Config.set` raises. */
  ghost predicate ScalarOnTheWay(e: Entries, path: Path) {
    exists n :: 0 < n < |path| && IsScalarAt(e, path[..n])
  }

  ghost predicate IsScalarAt(e: Entries, path: Path) {
    Find(Tree(e), path).Some? && Find(Tree(e), path).value.Leaf?
  }

  lemma {:induction false} NothingBelowNothing(v: Value, p: Path, key: string)
    ensures Find(v, p) == None ==> Find(v, p + [key]) == None
    decreases |p|
  {
    if p != [] {
      assert (p + [key])[1..] == p[1..] + [key];
      if v.Tree? && p[0] in v.entries {
        NothingBelowNothing(v.entries[p[0]], p[1..], key);
      }
    }
  }

  /** What `Config.set` meets at the next part of its path. */
  lemma MeetsPart(e: Entries, sh: Shape, path: Path, part: string)
    requires Fits(sh) && Leads(sh, path)
    requires Contents(sh) == e || (Below(sh, path).cells == map[] && Find(Tree(e), path) == None)
    ensures var cells := Below(sh, path).node.cells;
      && (part in cells ==> Contents(sh) == e || Below(sh, path).cells != map[])
      && (IsScalarAt(e, path + [part]) <==> part in cells && cells[part].Scalar?)
      && (part !in cells ==> Find(Tree(e), path + [part]) == None)
  {
    HeldBelow(sh, path);
    FindBelow(sh, path, part);
    NothingBelowNothing(Tree(e), path, part);
  }

  /** `Config.set` is one path write when no scalar lies on the way; otherwise it raises and nothing
      has changed. */
  method Set(config: Dict, keyPath: string, cell: Cell, ghost sh: Shape, ghost child: Shape)
    returns (r: Result<(), string>, ghost after: Shape)
    requires Fits(sh) && sh.node == config
    requires CellFits(cell, child) && CellNodes(cell, child) !! Nodes(sh)
    modifies Nodes(sh)
    ensures Fits(after) && after.node == config
    ensures r.Err? <==> ScalarOnTheWay(Contents(sh), Split(keyPath, '.'))
    ensures Contents(after) == if r.Err? then Contents(sh) else PathSet(Contents(sh), Split(keyPath, '.'), CellValue(cell, child))
  {
    hide ConfigDicts.IsTree, ConfigDicts.HeldExcept, ConfigDicts.Contents, ConfigDicts.Nodes, ConfigValues.PathSet, Text.Split;
    var keys := Split(keyPath, '.');
    ghost var e, v := Contents(sh), CellValue(cell, child);
    var target := config;
    after := sh;
    assert keys[..0] == [];
    NodesAllocated(child);
    for i := 0 to |keys| - 1
      invariant Fits(after) && after.node == config
      invariant Leads(after, keys[..i]) && Below(after, keys[..i]).node == target
      invariant PathSet(Contents(after), keys, v) == PathSet(e, keys, v)
      invariant CellFits(cell, child) && CellNodes(cell, child) !! Nodes(after)
      invariant forall d :: d in Nodes(after) && d !in Nodes(sh) ==> fresh(d)
      invariant forall n :: 0 < n <= i ==> !IsScalarAt(e, keys[..n])
      invariant Contents(after) == e || (Below(after, keys[..i]).cells == map[] && Find(Tree(e), keys[..i]) == None)
    {
      assert keys[..i] + [keys[i]] == keys[..i + 1];
      assert keys[..i + 1] + keys[i + 1..] == keys;
      MeetsPart(e, after, keys[..i], keys[i]);
      HeldBelow(after, keys[..i]);
      if keys[i] in target.cells && target.cells[keys[i]].Scalar? {
        assert IsScalarAt(e, keys[..i + 1]);
        return Err("not a dict"), after;
      }
      BelowIsNode(after, keys[..i]);
      ghost var before := after;
      NodesAllocated(before);
      label L:
      target, after := StepInto(target, keys[i], after, keys[..i], keys[i + 1..], v);
      forall d | d in Nodes(after) && d !in Nodes(sh) ensures fresh(d) {
        assert d in Nodes(before) || fresh@L(d);
      }
    }
    assert keys[..|keys| - 1] + [keys[|keys| - 1]] == keys;
    BelowIsNode(after, keys[..|keys| - 1]);
    after := Assign(target, keys[|keys| - 1], cell, after, keys[..|keys| - 1], child);
    return Ok(()), after;
  }
}
