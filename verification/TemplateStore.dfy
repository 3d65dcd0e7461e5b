/** The store of learned templates (artpm_agent/artifacts/templates.py): learning, recording a use, and
    what every run of the two keeps. */
module TemplateStore {
  import opened Common

  datatype Sheet = Sheet(name: string, columns: seq<string>)

  datatype Template = Template(
    id: string, name: string, notes: string, keywords: seq<string>, sheets: seq<Sheet>, sourceHash: string,
    createdAt: string, updatedAt: string, lastUsedAt: Option<string>, usage: nat)

  // ---------- The two operations ----------

  /** The stored template that learning `t` replaces: the first with its folded name or its hash. */
  predicate SameSource(fold: string -> string, stored: Template, t: Template) {
    fold(stored.name) == fold(t.name) || stored.sourceHash == t.sourceHash
  }

  function Replaced(fold: string -> string, templates: seq<Template>, t: Template): (i: nat)
    ensures i <= |templates|
    ensures i < |templates| ==> SameSource(fold, templates[i], t)
    ensures forall j :: 0 <= j < i ==> !SameSource(fold, templates[j], t)
  {
    if templates == [] || SameSource(fold, templates[0], t) then 0 else 1 + Replaced(fold, templates[1..], t)
  }

  /** The new extract under the identity and the history of the template it replaces. */
  function Merged(existing: Template, t: Template): Template {
    t.(id := if existing.id != "" then existing.id else t.id,
       createdAt := if existing.createdAt != "" then existing.createdAt else t.createdAt,
       usage := existing.usage, lastUsedAt := existing.lastUsedAt)
  }

  function Learned(fold: string -> string, templates: seq<Template>, t: Template): seq<Template> {
    var i := Replaced(fold, templates, t);
    if i < |templates| then templates[i := Merged(templates[i], t)] else templates + [t]
  }

  function IndexOf(templates: seq<Template>, id: string): (i: nat)
    ensures i <= |templates|
    ensures i < |templates| ==> templates[i].id == id
    ensures forall j :: 0 <= j < i ==> templates[j].id != id
  {
    if templates == [] || templates[0].id == id then 0 else 1 + IndexOf(templates[1..], id)
  }

  function Used(t: Template, now: string): Template {
    t.(usage := t.usage + 1, lastUsedAt := Some(now), updatedAt := now)
  }

  function AfterUse(templates: seq<Template>, id: string, now: string): seq<Template> {
    var i := IndexOf(templates, id);
    if i < |templates| then templates[i := Used(templates[i], now)] else templates
  }

  /** The store file, rewritten by each operation. `fold` is case folding. */
  class Store {
    var templates: seq<Template>

    method LearnFromFile(extracted: Template, fold: string -> string) returns (stored: Template)
      modifies this
      ensures templates == Learned(fold, old(templates), extracted)
      ensures stored in templates && SameSource(fold, stored, extracted)
      ensures stored == extracted.(id := stored.id, createdAt := stored.createdAt, usage := stored.usage, lastUsedAt := stored.lastUsedAt)
      ensures forall t :: t in old(templates) && !SameSource(fold, t, extracted) ==> t in templates
    {
      var index := 0;
      while index < |templates| && !SameSource(fold, templates[index], extracted)
        invariant index <= |templates| && templates == old(templates)
        invariant forall j :: 0 <= j < index ==> !SameSource(fold, templates[j], extracted)
      {
        index := index + 1;
      }
      stored := extracted;
      if index < |templates| {
        stored := Merged(templates[index], extracted);
        ghost var before := templates;
        templates := templates[index := stored];
        assert templates[index] == stored;
        forall t | t in before && !SameSource(fold, t, extracted) ensures t in templates {
          var j :| 0 <= j < |before| && before[j] == t;
          assert templates[j] == t;
        }
      } else {
        templates := templates + [stored];
        assert templates[|templates| - 1] == stored;
      }
    }

    method RecordUse(id: string, now: string) returns (updated: Option<Template>)
      modifies this
      ensures templates == AfterUse(old(templates), id, now)
      ensures updated.Some? <==> exists t :: t in old(templates) && t.id == id
      ensures updated.Some? ==> updated.value in templates && updated.value.id == id
      ensures updated.Some? ==>
        exists t :: t in old(templates) && t.id == id && updated.value == t.(usage := t.usage + 1, lastUsedAt := Some(now), updatedAt := now)
    {
      for index := 0 to |templates|
        invariant templates == old(templates)
        invariant forall j :: 0 <= j < index ==> templates[j].id != id
      {
        if templates[index].id == id {
          var used := Used(templates[index], now);
          templates := templates[index := used];
          assert templates[index] == used;
          return Some(used);
        }
      }
      return None;
    }
  }

  // ---------- Runs ----------

  datatype Op = Learn(extracted: Template) | Use(id: string, now: string)

  function Applied(fold: string -> string, templates: seq<Template>, op: Op): seq<Template> {
    match op
    case Learn(t) => Learned(fold, templates, t)
    case Use(id, now) => AfterUse(templates, id, now)
  }

  function Run(fold: string -> string, ops: seq<Op>): seq<Template>
    decreases |ops|
  {
    if ops == [] then [] else Applied(fold, Run(fold, ops[..|ops| - 1]), ops[|ops| - 1])
  }

  /** Each learned extract is new: unused, with an id and a creation time of its own. */
  predicate FreshLearn(templates: seq<Template>, op: Op) {
    op.Learn? ==>
      && op.extracted.id != "" && op.extracted.createdAt != "" && op.extracted.usage == 0
      && forall i :: 0 <= i < |templates| ==> templates[i].id != op.extracted.id
  }

  predicate FreshRun(fold: string -> string, ops: seq<Op>)
    decreases |ops|
  {
    ops == [] || (FreshRun(fold, ops[..|ops| - 1]) && FreshLearn(Run(fold, ops[..|ops| - 1]), ops[|ops| - 1]))
  }

  predicate IdsDistinct(templates: seq<Template>) {
    forall i, j :: 0 <= i < j < |templates| ==> templates[i].id != templates[j].id
  }

  predicate WellKept(templates: seq<Template>) {
    IdsDistinct(templates) && forall i :: 0 <= i < |templates| ==> templates[i].id != "" && templates[i].createdAt != ""
  }

  /** Nothing that was stored is lost: every id stays at its place with its creation time. */
  predicate Keeps(before: seq<Template>, after: seq<Template>) {
    |before| <= |after| && forall i :: 0 <= i < |before| ==>
      after[i].id == before[i].id && after[i].createdAt == before[i].createdAt && after[i].usage >= before[i].usage
  }

  function TotalUsage(templates: seq<Template>): nat {
    if templates == [] then 0 else templates[0].usage + TotalUsage(templates[1..])
  }

  /** How many of the operations recorded a use. */
  function SuccessfulUses(fold: string -> string, ops: seq<Op>): nat
    decreases |ops|
  {
    if ops == [] then 0
    else
      var before, op := Run(fold, ops[..|ops| - 1]), ops[|ops| - 1];
      SuccessfulUses(fold, ops[..|ops| - 1]) + if op.Use? && IndexOf(before, op.id) < |before| then 1 else 0
  }

  lemma {:induction false} UsageUpdated(templates: seq<Template>, i: nat, t: Template)
    requires i < |templates|
    ensures TotalUsage(templates[i := t]) == TotalUsage(templates) - templates[i].usage + t.usage
  {
    if i == 0 {
      assert templates[0 := t][1..] == templates[1..];
    } else {
      assert templates[i := t][1..] == templates[1..][i - 1 := t];
      UsageUpdated(templates[1..], i - 1, t);
    }
  }

  lemma {:induction false} UsageAppended(templates: seq<Template>, t: Template)
    ensures TotalUsage(templates + [t]) == TotalUsage(templates) + t.usage
  {
    if templates == [] {
      assert templates + [t] == [t];
    } else {
      assert (templates + [t])[1..] == templates[1..] + [t];
      UsageAppended(templates[1..], t);
    }
  }

  /** One operation: nothing is lost, ids stay distinct, at most one template is added and only by
      learning, and the total usage grows by one exactly when a use is recorded. */
  lemma StepKeepsStore(fold: string -> string, templates: seq<Template>, op: Op)
    requires WellKept(templates) && FreshLearn(templates, op)
    ensures var after := Applied(fold, templates, op);
      && WellKept(after) && Keeps(templates, after)
      && |after| <= |templates| + (if op.Learn? then 1 else 0)
      && TotalUsage(after) == TotalUsage(templates) + if op.Use? && IndexOf(templates, op.id) < |templates| then 1 else 0
  {
    match op {
      case Learn(t) =>
        var i := Replaced(fold, templates, t);
        if i < |templates| {
          UsageUpdated(templates, i, Merged(templates[i], t));
        } else {
          UsageAppended(templates, t);
        }
      case Use(id, now) =>
        var i := IndexOf(templates, id);
        if i < |templates| {
          UsageUpdated(templates, i, Used(templates[i], now));
        }
    }
  }

  /** Over every run of learning and using from an empty store: ids stay distinct, and the usage
      counts add up to the number of uses recorded. */
  lemma {:induction false} RunKeepsStore(fold: string -> string, ops: seq<Op>)
    requires FreshRun(fold, ops)
    ensures WellKept(Run(fold, ops))
    ensures TotalUsage(Run(fold, ops)) == SuccessfulUses(fold, ops)
    decreases |ops|
  {
    if ops != [] {
      RunKeepsStore(fold, ops[..|ops| - 1]);
      StepKeepsStore(fold, Run(fold, ops[..|ops| - 1]), ops[|ops| - 1]);
    }
  }

  function Learns(ops: seq<Op>): nat
    decreases |ops|
  {
    if ops == [] then 0 else Learns(ops[..|ops| - 1]) + if ops[|ops| - 1].Learn? then 1 else 0
  }

  /** Between any two points of a run nothing is lost, no creation time changes, and there are at most
      as many new templates as learns. */
  lemma {:induction false} RunLosesNothing(fold: string -> string, ops: seq<Op>, n: nat)
    requires FreshRun(fold, ops) && n <= |ops|
    ensures Keeps(Run(fold, ops[..n]), Run(fold, ops))
    ensures |Run(fold, ops)| - |Run(fold, ops[..n])| <= Learns(ops) - Learns(ops[..n])
    decreases |ops|
  {
    if n == |ops| {
      assert ops[..n] == ops;
    } else {
      var before := ops[..|ops| - 1];
      assert before[..n] == ops[..n];
      RunLosesNothing(fold, before, n);
      RunKeepsStore(fold, before);
      StepKeepsStore(fold, Run(fold, before), ops[|ops| - 1]);
    }
  }

  // ---------- Names ----------

  predicate NamesDistinct(fold: string -> string, templates: seq<Template>) {
    forall i, j :: 0 <= i < j < |templates| ==> fold(templates[i].name) != fold(templates[j].name)
  }

  /** Learning keeps names distinct exactly when no template after the one it replaces has the new
      name. A template found by its hash alone is renamed without looking further. */
  lemma LearnedNamesDistinctExactly(fold: string -> string, templates: seq<Template>, t: Template)
    requires NamesDistinct(fold, templates)
    ensures NamesDistinct(fold, Learned(fold, templates, t)) <==>
      forall j :: Replaced(fold, templates, t) < j < |templates| ==> fold(templates[j].name) != fold(t.name)
  {
    var i, after := Replaced(fold, templates, t), Learned(fold, templates, t);
    if i < |templates| {
      forall j | i < j < |templates| && fold(templates[j].name) == fold(t.name) ensures !NamesDistinct(fold, after) {
        assert after[i].name == t.name && after[j] == templates[j];
      }
      forall j | 0 <= j < i ensures fold(templates[j].name) != fold(t.name) {
        assert !SameSource(fold, templates[j], t);
      }
    }
  }

  /** Two learned files and then the first one again under the second one's name: both templates now
      have that name. */
  lemma RenamedOntoAnother(fold: string -> string, a: Template, b: Template)
    requires fold(a.name) != fold(b.name) && a.sourceHash != b.sourceHash
    ensures !NamesDistinct(fold, Run(fold, [Learn(a), Learn(b), Learn(a.(name := b.name))]))
  {
    var again := a.(name := b.name);
    var ops := [Learn(a), Learn(b), Learn(again)];
    assert ops[..2] == [Learn(a), Learn(b)] && ops[..2][..1] == [Learn(a)] && [Learn(a)][..0] == [];
    assert Run(fold, [Learn(a)]) == [a];
    assert Run(fold, ops[..2]) == [a, b];
    assert Replaced(fold, [a, b], again) == 0;
    LearnedNamesDistinctExactly(fold, [a, b], again);
    assert [a, b][1].name == again.name;
  }
}
