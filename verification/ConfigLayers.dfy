/** What a stack of configuration patches means, and when `dump` names the right layer for a key
    (artpm_agent/config_layers.py). */
module ConfigLayers {
  import opened Common
  import opened ConfigValues
  import opened Text

  // ---------- What a stack of patches means ----------

  const MAX_LAYERS := 32

  /** One `key: value` pair of a patch, in the order the patch lists them. */
  datatype Entry = Entry(key: string, value: Value)

  type Patch = seq<Entry>

  function Parts(key: string): (path: Path)
    ensures path != []
  {
    Split(Strip(key), '.')
  }

  predicate ValidKey(key: string) {
    [] !in Parts(key)
  }

  /** The path of a patch key is the stripped key, cut at its dots. */
  lemma PartsJoin(key: string)
    ensures Joined(Parts(key), '.') == Strip(key)
    ensures forall part :: part in Parts(key) ==> '.' !in part
  {
    SplitJoins(Strip(key), '.');
  }

  predicate NoTwoDots(s: string) {
    forall i :: 0 <= i < |s| - 1 ==> !(s[i] == '.' && s[i + 1] == '.')
  }

  lemma {:induction false} NoEmptyLaterPart(s: string)
    ensures [] !in Split(s, '.')[1..] <==> (s == [] || s[|s| - 1] != '.') && NoTwoDots(s)
  {
    if s != [] {
      var t, rest, parts := s[1..], Split(s[1..], '.'), Split(s, '.');
      NoEmptyLaterPart(t);
      assert rest == [rest[0]] + rest[1..];
      assert rest[0] == [] <==> t == [] || t[0] == '.';
      assert parts[1..] == if s[0] == '.' then rest else rest[1..];
      assert NoTwoDots(s) <==> NoTwoDots(t) && !(s[0] == '.' && t != [] && t[0] == '.') by {
        assert forall i :: 0 <= i < |t| ==> t[i] == s[i + 1];
      }
    }
  }

  /** A patch key is valid exactly if, stripped, it is not empty, has no dot at either end and no two dots in
      a row. */
  lemma ValidKeyExactly(key: string)
    ensures var s := Strip(key);
      ValidKey(key) <==> s != [] && s[0] != '.' && s[|s| - 1] != '.' && NoTwoDots(s)
  {
    NoEmptyLaterPart(Strip(key));
    assert Parts(key) == [Parts(key)[0]] + Parts(key)[1..];
  }

  function FirstInvalid(patch: Patch): Option<string> {
    if patch == [] then None
    else if !ValidKey(patch[0].key) then Some(patch[0].key)
    else FirstInvalid(patch[1..])
  }

  function Writes(patch: Patch): (ws: seq<Write>)
    ensures |ws| == |patch|
    ensures forall w :: w in ws ==> w.path != []
  {
    seq(|patch|, i requires 0 <= i < |patch| => Write(Parts(patch[i].key), patch[i].value))
  }

  function Applied(base: Entries, patch: Patch): Result<Entries, string> {
    match FirstInvalid(patch)
    case Some(key) => Err(key)
    case None => Ok(WriteAll(base, Writes(patch)))
  }

  function Stacked(base: Entries, layers: seq<Patch>): Result<Entries, string>
    decreases |layers|
  {
    if layers == [] then Ok(base)
    else match Stacked(base, layers[..|layers| - 1])
      case Err(key) => Err(key)
      case Ok(below) => Applied(below, layers[|layers| - 1])
  }

  function AllWrites(layers: seq<Patch>): (ws: seq<Write>)
    ensures forall w :: w in ws ==> w.path != []
    decreases |layers|
  {
    if layers == [] then [] else AllWrites(layers[..|layers| - 1]) + Writes(layers[|layers| - 1])
  }

  lemma {:induction false} WriteAllAppend(e: Entries, a: seq<Write>, b: seq<Write>)
    requires forall w :: w in a ==> w.path != []
    requires forall w :: w in b ==> w.path != []
    ensures WriteAll(e, a + b) == WriteAll(WriteAll(e, a), b)
    decreases |b|
  {
    if b == [] {
      assert a + b == a;
    } else {
      assert (a + b)[..|a + b| - 1] == a + b[..|b| - 1];
      WriteAllAppend(e, a, b[..|b| - 1]);
    }
  }

  /** A stack with valid keys is one long sequence of path writes, so every law of such sequences
      (last writer wins, unwritten paths read as before, idempotence) holds of merged layers. */
  lemma {:induction false} StackIsWrites(base: Entries, layers: seq<Patch>)
    requires forall layer :: layer in layers ==> FirstInvalid(layer) == None
    ensures Stacked(base, layers) == Ok(WriteAll(base, AllWrites(layers)))
    decreases |layers|
  {
    if layers != [] {
      var below := layers[..|layers| - 1];
      StackIsWrites(base, below);
      WriteAllAppend(base, AllWrites(below), Writes(layers[|layers| - 1]));
    }
  }

  /** On the merged layers, a dotted path reads as the last entry that wrote it, if no later entry
      writes above or below it; a path no entry writes above or below reads as in the base. */
  lemma MergedReads(base: Entries, layers: seq<Patch>, path: Path)
    requires forall layer :: layer in layers ==> FirstInvalid(layer) == None
    ensures Stacked(base, layers).Ok?
    ensures var ws := AllWrites(layers);
      && (forall i :: 0 <= i < |ws| && ws[i].path == path && (forall j :: i < j < |ws| ==> !Comparable(ws[j].path, path))
            ==> Find(Tree(Stacked(base, layers).value), path) == Some(ws[i].value))
      && ((forall w :: w in ws ==> !Comparable(w.path, path))
            ==> Find(Tree(Stacked(base, layers).value), path) == Find(Tree(base), path))
  {
    StackIsWrites(base, layers);
    var ws := AllWrites(layers);
    forall i | 0 <= i < |ws| && ws[i].path == path && (forall j :: i < j < |ws| ==> !Comparable(ws[j].path, path))
      ensures Find(Tree(WriteAll(base, ws)), path) == Some(ws[i].value)
    {
      WrittenValueIsRead(base, ws, i);
    }
    if forall w :: w in ws ==> !Comparable(w.path, path) {
      UnwrittenPathReadsAsBefore(base, ws, path);
    }
  }

  /** `apply_patch(apply_patch(c, p), p)` equals `apply_patch(c, p)`, whatever the keys. */
  lemma ApplyTwiceIsApplyOnce(base: Entries, patch: Patch)
    requires FirstInvalid(patch) == None
    ensures Applied(Applied(base, patch).value, patch) == Applied(base, patch)
  {
    WritesIdempotent(base, Writes(patch));
  }

  // ---------- Provenance ----------

  /** The test `dump` applies to a raw patch key for a top-level key of the merged config. */
  predicate Credits(patchKey: string, key: string) {
    patchKey == key || key + "." <= patchKey
  }

  predicate LayerCredits(patch: Patch, key: string) {
    exists entry :: entry in patch && Credits(entry.key, key)
  }

  /** How many layers stay in play: up to the winner `dump` names, or none when it names base. */
  function WinnerDepth(layers: seq<Patch>, key: string): (n: nat)
    ensures n <= |layers|
    decreases |layers|
  {
    if layers == [] then 0
    else if LayerCredits(layers[|layers| - 1], key) then |layers|
    else WinnerDepth(layers[..|layers| - 1], key)
  }

  /** A patch key that `dump` credits with the top-level key it writes. */
  predicate Creditable(patchKey: string) {
    Credits(patchKey, Parts(patchKey)[0])
  }

  lemma LeadingSpaceIsNotCreditable(patchKey: string)
    requires patchKey != [] && IsSpace(patchKey[0])
    ensures !Creditable(patchKey)
  {
    var bare := Strip(patchKey);
    SplitHead(bare, '.');
    var head := Parts(patchKey)[0];
    StripTrims(patchKey);
    var start := (head + ".")[0];
    assert !IsSpace(start) by {
      if head != [] {
        assert start == head[0] == bare[0];
      }
    }
  }

  lemma DottedKeyIsCreditable(patchKey: string)
    requires patchKey != [] && !IsSpace(patchKey[0]) && '.' in patchKey
    ensures Creditable(patchKey)
  {
    var bare := Strip(patchKey);
    assert StripLeft(patchKey) == patchKey;
    assert '.' in bare;
    SplitHead(bare, '.');
    var head := Parts(patchKey)[0];
    assert head + ['.'] <= bare <= patchKey;
    assert head + "." == head + ['.'];
  }

  lemma PlainKeyIsCreditable(patchKey: string)
    requires patchKey != [] && !IsSpace(patchKey[0]) && '.' !in patchKey
    ensures Creditable(patchKey) <==> !IsSpace(patchKey[|patchKey| - 1])
  {
    var bare := Strip(patchKey);
    assert StripLeft(patchKey) == patchKey;
    SplitHead(bare, '.');
    assert Parts(patchKey)[0] == bare;
    assert !(bare + "." <= patchKey) by {
      assert '.' in bare + ".";
    }
  }

  /** Exactly which keys those are: no leading whitespace, and trailing whitespace only after a dot. */
  lemma CreditableExactly(patchKey: string)
    ensures Creditable(patchKey) <==>
      (patchKey == [] || (!IsSpace(patchKey[0]) && ('.' in patchKey || !IsSpace(patchKey[|patchKey| - 1]))))
  {
    if patchKey == [] {
      assert Strip(patchKey) == [];
    } else if IsSpace(patchKey[0]) {
      LeadingSpaceIsNotCreditable(patchKey);
    } else if '.' in patchKey {
      DottedKeyIsCreditable(patchKey);
    } else {
      PlainKeyIsCreditable(patchKey);
    }
  }

  /** The value of a top-level key, if any. */
  function At(e: Entries, key: string): Option<Value> {
    if key in e then Some(e[key]) else None
  }

  lemma {:induction false} OtherHeadsKeepKey(e: Entries, ws: seq<Write>, key: string)
    requires forall w :: w in ws ==> w.path != [] && w.path[0] != key
    ensures At(WriteAll(e, ws), key) == At(e, key)
    decreases |ws|
  {
    if ws != [] {
      assert ws[|ws| - 1] in ws;
      OtherHeadsKeepKey(e, ws[..|ws| - 1], key);
    }
  }

  /** What `dump` says about `key` is right: the merged value is the one the stack has after the
      layer it names, or the base value when it names base. */
  ghost predicate AttributionRight(base: Entries, layers: seq<Patch>, key: string) {
    var named := Stacked(base, layers[..WinnerDepth(layers, key)]);
    Stacked(base, layers).Ok? ==> named.Ok? && At(Stacked(base, layers).value, key) == At(named.value, key)
  }

  lemma UncreditedLayerKeepsKey(below: Entries, patch: Patch, key: string)
    requires forall entry :: entry in patch ==> Creditable(entry.key)
    requires !LayerCredits(patch, key)
    ensures Applied(below, patch).Ok? ==> At(Applied(below, patch).value, key) == At(below, key)
  {
    var ws := Writes(patch);
    forall w | w in ws ensures w.path[0] != key {
      var i :| 0 <= i < |ws| && w == ws[i];
      assert patch[i] in patch;
    }
    OtherHeadsKeepKey(below, ws, key);
  }

  /** Provenance is right for every key of every stack whose patch keys are creditable. */
  lemma {:induction false} ProvenanceRight(base: Entries, layers: seq<Patch>, key: string)
    requires forall layer, entry :: layer in layers && entry in layer ==> Creditable(entry.key)
    ensures AttributionRight(base, layers, key)
    decreases |layers|
  {
    if layers == [] || LayerCredits(layers[|layers| - 1], key) {
      assert layers[..|layers|] == layers;
    } else {
      var last := layers[|layers| - 1];
      var below := layers[..|layers| - 1];
      assert last in layers;
      assert forall layer :: layer in below ==> layer in layers;
      ProvenanceRight(base, below, key);
      assert below[..WinnerDepth(below, key)] == layers[..WinnerDepth(layers, key)];
      if Stacked(base, below).Ok? {
        UncreditedLayerKeepsKey(Stacked(base, below).value, last, key);
      }
    }
  }

  function OneKeyStack(patchKey: string, value: Value): seq<Patch> {
    [[Entry(patchKey, value)]]
  }

  lemma OneKeyStacked(base: Entries, patchKey: string, value: Value)
    requires ValidKey(patchKey)
    ensures Stacked(base, OneKeyStack(patchKey, value)) == Ok(PathSet(base, Parts(patchKey), value))
  {
    var patch := [Entry(patchKey, value)];
    var layers := OneKeyStack(patchKey, value);
    assert layers[..|layers| - 1] == [];
    assert FirstInvalid(patch) == None by {
      assert patch[1..] == [];
    }
    var ws := Writes(patch);
    assert ws == [Write(Parts(patchKey), value)];
    assert ws[..|ws| - 1] == [];
    assert WriteAll(base, ws[..|ws| - 1]) == base;
  }

  /** The condition is exact: a stack of one patch key is attributed rightly, whatever the base, the
      value and the key asked about, if and only if the patch key is creditable. */
  lemma CreditableIsNecessary(patchKey: string)
    requires ValidKey(patchKey)
    ensures Creditable(patchKey) <==>
      (forall base, value, key :: AttributionRight(base, OneKeyStack(patchKey, value), key))
  {
    if Creditable(patchKey) {
      forall base, value, key ensures AttributionRight(base, OneKeyStack(patchKey, value), key) {
        ProvenanceRight(base, OneKeyStack(patchKey, value), key);
      }
    } else {
      var key := Parts(patchKey)[0];
      var layers := OneKeyStack(patchKey, Leaf("1"));
      OneKeyStacked(map[], patchKey, Leaf("1"));
      assert !LayerCredits(layers[0], key);
      assert layers[..0] == [];
      assert WinnerDepth(layers, key) == 0;
      assert !AttributionRight(map[], OneKeyStack(patchKey, Leaf("1")), key);
    }
  }
}
