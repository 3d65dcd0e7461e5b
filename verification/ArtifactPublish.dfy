/** Versioned publishing by exclusive create (artpm_agent/artifacts/generator.py), for any number of
    interleaved publishers and for one that runs alone. */
module ArtifactPublish {
  import opened Common
  import opened Text

  // ---------- Version names ----------

  /** Position of the last dot, or the length when there is none. */
  function LastDot(name: string): (i: nat)
    ensures i <= |name|
  {
    if name == [] then 0
    else if name[|name| - 1] == '.' then |name| - 1
    else
      var i := LastDot(name[..|name| - 1]);
      if i == |name| - 1 then |name| else i
  }

  /** `Path.stem` is what precedes `Path.suffix`, which needs text on both sides of its dot. */
  function StemLength(name: string): (n: nat)
    ensures n <= |name|
  {
    var i := LastDot(name);
    if 0 < i < |name| - 1 then i else |name|
  }

  function VersionedName(filename: string, version: nat): string {
    if version == 1 then filename
    else filename[..StemLength(filename)] + " (" + Decimal(version) + ")" + filename[StemLength(filename)..]
  }

  /** Different versions of one file have different names. */
  lemma VersionedNameInjective(filename: string, v: nat, w: nat)
    ensures VersionedName(filename, v) == VersionedName(filename, w) ==> v == w
  {
    var n := StemLength(filename);
    var a, b := VersionedName(filename, v), VersionedName(filename, w);
    if v != 1 && w != 1 && a == b {
      assert |Decimal(v)| == |Decimal(w)|;
      assert a[n + 2..n + 2 + |Decimal(v)|] == Decimal(v);
      assert b[n + 2..n + 2 + |Decimal(w)|] == Decimal(w);
      DecimalReadsBack(v);
      DecimalReadsBack(w);
    }
  }

  lemma {:induction false} LastDotFound(stem: string, ext: string)
    requires '.' !in ext
    ensures LastDot(stem + "." + ext) == |stem|
  {
    var name := stem + "." + ext;
    if ext != [] {
      LastDotFound(stem, ext[..|ext| - 1]);
      assert name[..|name| - 1] == stem + "." + ext[..|ext| - 1];
      assert name[|name| - 1] == ext[|ext| - 1];
    }
  }

  lemma {:induction false} NoLastDot(name: string)
    requires '.' !in name
    ensures LastDot(name) == |name|
  {
    if name != [] {
      NoLastDot(name[..|name| - 1]);
    }
  }

  /** A version goes before the extension, which is kept whole. */
  lemma VersionBeforeExtension(stem: string, ext: string, version: nat)
    requires stem != [] && ext != [] && '.' !in ext && version != 1
    ensures VersionedName(stem + "." + ext, version) == stem + " (" + Decimal(version) + ")." + ext
  {
    var name := stem + "." + ext;
    LastDotFound(stem, ext);
    assert name[..|stem|] == stem && name[|stem|..] == "." + ext;
  }

  /** A name without an extension, because its last dot is its first or last character or it has none, gets the
      version at its end. The first version of a name is the name. */
  lemma VersionAtEnd(name: string, version: nat)
    requires (forall i :: 0 < i < |name| ==> name[i] != '.') || name[|name| - 1] == '.'
    ensures VersionedName(name, version) == if version == 1 then name else name + " (" + Decimal(version) + ")"
  {
    if name != [] && name[|name| - 1] != '.' {
      if name[0] == '.' {
        LastDotFound("", name[1..]);
        assert "" + "." + name[1..] == name;
      } else {
        NoLastDot(name);
      }
    }
    assert name[..|name|] == name && name[|name|..] == "";
  }

  // ---------- Interleaved publishers ----------

  type Bytes = seq<bv8>

  /** What a name in the artifact directory stands for. `By` marks a file a publisher created. */
  datatype Entry = Directory | Existing(data: Bytes) | By(owner: nat, data: Bytes)

  /** What a publisher was asked for: a file name and the content of its temporary file. */
  datatype Job = Job(filename: string, data: Bytes)

  /** Where a publisher is in `_publish_new`; the version it is trying, and the bytes copied. */
  datatype Pc =
    | Checking(version: nat)
    | OpeningSource(version: nat)
    | Creating(version: nat)
    | Copying(version: nat, copied: nat)
    | RemovingOwn(version: nat)
    | RemovingBlindly(version: nat)
    | Published(version: nat)
    | Failed

  datatype World = World(files: map<string, Entry>, pcs: seq<Pc>)

  /** A step of publisher `who`; `fault` makes the system call fail with some other error, `bytes` is
      how much a copy step moves. */
  datatype Event = Event(who: nat, fault: bool, bytes: nat)

  function Target(job: Job, pc: Pc): string
    requires !pc.Failed?
  {
    VersionedName(job.filename, pc.version)
  }

  function StepOne(files: map<string, Entry>, job: Job, pc: Pc, e: Event, limit: nat): (map<string, Entry>, Pc) {
    match pc
    case Checking(v) =>
      if v > limit then (files, Failed)
      else if VersionedName(job.filename, v) in files then (files, Checking(v + 1))
      else (files, OpeningSource(v))
    case OpeningSource(v) =>
      (files, if e.fault then RemovingBlindly(v) else Creating(v))
    case Creating(v) =>
      var name := VersionedName(job.filename, v);
      if e.fault then (files, RemovingBlindly(v))
      else if name in files then (files, Checking(v + 1))
      else (files[name := By(e.who, [])], Copying(v, 0))
    case Copying(v, n) =>
      var name := VersionedName(job.filename, v);
      if e.fault then (files, RemovingOwn(v))
      else if n >= |job.data| then (files, Published(v))
      else
        var next := if e.bytes == 0 then n + 1 else if n + e.bytes > |job.data| then |job.data| else n + e.bytes;
        // The write goes to the file this publisher opened, wherever its name has gone.
        (if name in files && files[name].By? && files[name].owner == e.who
         then files[name := By(e.who, job.data[..next])] else files,
         Copying(v, next))
    case RemovingOwn(v) => (Removed(files, VersionedName(job.filename, v)), Failed)
    case RemovingBlindly(v) => (Removed(files, VersionedName(job.filename, v)), Failed)
    case Published(_) => (files, pc)
    case Failed => (files, pc)
  }

  /** `unlink(missing_ok=True)`, which does not remove a directory. */
  function Removed(files: map<string, Entry>, name: string): map<string, Entry> {
    if name in files && files[name].Directory? then files else files - {name}
  }

  function Step(jobs: seq<Job>, limit: nat, w: World, e: Event): (r: World)
    requires |w.pcs| == |jobs| && e.who < |jobs|
    ensures |r.pcs| == |jobs|
  {
    var (files, pc) := StepOne(w.files, jobs[e.who], w.pcs[e.who], e, limit);
    World(files, w.pcs[e.who := pc])
  }

  predicate Within(jobs: seq<Job>, events: seq<Event>) {
    forall n :: 0 <= n < |events| ==> events[n].who < |jobs|
  }

  function Run(jobs: seq<Job>, limit: nat, w: World, events: seq<Event>): (r: World)
    requires |w.pcs| == |jobs| && Within(jobs, events)
    ensures |r.pcs| == |jobs|
    decreases |events|
  {
    if events == [] then w
    else Step(jobs, limit, Run(jobs, limit, w, events[..|events| - 1]), events[|events| - 1])
  }

  function Start(jobs: seq<Job>, files: map<string, Entry>): (w: World)
    ensures |w.pcs| == |jobs|
  {
    World(files, seq(|jobs|, i => Checking(1)))
  }

  // ---------- Which version is tried ----------

  predicate Trying(pc: Pc) {
    !pc.Failed?
  }

  /** A publisher goes on to the next version only past a name that is there, and is done with failure only past
      the limit or after a removal. */
  lemma StepTriesInOrder(jobs: seq<Job>, limit: nat, w: World, e: Event)
    requires |w.pcs| == |jobs| && e.who < |jobs| && Trying(w.pcs[e.who])
    ensures var pc, next := w.pcs[e.who], Step(jobs, limit, w, e).pcs[e.who];
      && (Trying(next) ==> next.version == pc.version || (next.version == pc.version + 1 && Target(jobs[e.who], pc) in w.files))
      && (next.Failed? ==> (pc.Checking? && pc.version > limit) || pc.RemovingOwn? || pc.RemovingBlindly?)
      && (pc.Checking? && pc.version <= limit && Target(jobs[e.who], pc) !in w.files ==> Trying(next) && next.version == pc.version)
  {
    hide VersionedName;
  }

  /** At some point of the run the name was there. */
  ghost predicate WasThere(jobs: seq<Job>, limit: nat, w: World, events: seq<Event>, name: string)
    requires |w.pcs| == |jobs| && Within(jobs, events)
    decreases |events|
  {
    || name in Run(jobs, limit, w, events).files
    || (events != [] && WasThere(jobs, limit, w, events[..|events| - 1], name))
  }

  /** Over every run, a publisher tries, and publishes under, a version only after each smaller one was found
      taken. */
  lemma {:induction false} SmallerWereTaken(jobs: seq<Job>, limit: nat, before: map<string, Entry>, events: seq<Event>, p: nat, v: nat)
    requires Within(jobs, events) && p < |jobs|
    requires var pc := Run(jobs, limit, Start(jobs, before), events).pcs[p]; Trying(pc) && 1 <= v < pc.version
    ensures WasThere(jobs, limit, Start(jobs, before), events, VersionedName(jobs[p].filename, v))
    decreases |events|
  {
    hide VersionedName, Step;
    if events != [] {
      var shorter, e := events[..|events| - 1], events[|events| - 1];
      var last := Run(jobs, limit, Start(jobs, before), shorter);
      FailedStays(jobs, limit, last, e, p);
      if e.who == p {
        StepTriesInOrder(jobs, limit, last, e);
      }
      if v < last.pcs[p].version {
        SmallerWereTaken(jobs, limit, before, shorter, p, v);
      } else {
        NowThere(jobs, limit, Start(jobs, before), shorter, VersionedName(jobs[p].filename, v));
      }
    }
  }

  lemma NowThere(jobs: seq<Job>, limit: nat, w: World, events: seq<Event>, name: string)
    requires |w.pcs| == |jobs| && Within(jobs, events) && name in Run(jobs, limit, w, events).files
    ensures WasThere(jobs, limit, w, events, name)
  {
  }

  lemma FailedStays(jobs: seq<Job>, limit: nat, w: World, e: Event, p: nat)
    requires |w.pcs| == |jobs| && e.who < |jobs| && p < |jobs|
    ensures w.pcs[p].Failed? ==> Step(jobs, limit, w, e).pcs[p].Failed?
    ensures e.who != p ==> Step(jobs, limit, w, e).pcs[p] == w.pcs[p]
  {
  }

  // ---------- The invariant ----------

  /** What was there before anybody published. */
  predicate Untouched(before: map<string, Entry>, files: map<string, Entry>) {
    forall name :: name in before ==> name in files && files[name] == before[name]
  }

  predicate Owns(pc: Pc) {
    pc.Copying? || pc.RemovingOwn? || pc.Published?
  }

  /** The file of a publisher that has created one holds a prefix of its data, all of it once
      published. */
  predicate HoldsOwn(files: map<string, Entry>, job: Job, pc: Pc, who: nat) {
    Owns(pc) ==>
      var name := Target(job, pc);
      && name in files && files[name].By? && files[name].owner == who
      && (pc.Copying? ==> pc.copied <= |job.data| && files[name].data == job.data[..pc.copied])
      && (pc.Published? ==> files[name].data == job.data)
  }

  /** Every file made by a publisher is the one that publisher still stands for. */
  predicate Accounted(jobs: seq<Job>, before: map<string, Entry>, w: World, name: string)
    requires |w.pcs| == |jobs| && name in w.files
  {
    if w.files[name].By? then
      var p := w.files[name].owner;
      p < |jobs| && Owns(w.pcs[p]) && Target(jobs[p], w.pcs[p]) == name
    else name in before
  }

  ghost predicate Inv(jobs: seq<Job>, before: map<string, Entry>, w: World) {
    && |w.pcs| == |jobs|
    && Untouched(before, w.files)
    && (forall p :: 0 <= p < |jobs| ==> HoldsOwn(w.files, jobs[p], w.pcs[p], p))
    && (forall name :: name in w.files ==> Accounted(jobs, before, w, name))
  }

  /** The one dangerous step: removing the destination after an open failed, when by then the name
      is somebody's file. */
  predicate Harmless(jobs: seq<Job>, w: World, e: Event)
    requires |w.pcs| == |jobs| && e.who < |jobs|
  {
    w.pcs[e.who].RemovingBlindly? ==>
      var name := Target(jobs[e.who], w.pcs[e.who]);
      name in w.files ==> w.files[name].Directory?
  }

  predicate NoneCreated(before: map<string, Entry>) {
    forall name :: name in before ==> !before[name].By?
  }

  lemma StartKeepsInv(jobs: seq<Job>, before: map<string, Entry>)
    requires NoneCreated(before)
    ensures Inv(jobs, before, Start(jobs, before))
  {
  }

  /** Steps that leave the directory alone. */
  lemma QuietStep(jobs: seq<Job>, limit: nat, before: map<string, Entry>, w: World, e: Event)
    requires NoneCreated(before) && Inv(jobs, before, w) && e.who < |jobs|
    requires Step(jobs, limit, w, e).files == w.files
    ensures Inv(jobs, before, Step(jobs, limit, w, e))
  {
    hide VersionedName, NoneCreated;
    var r := Step(jobs, limit, w, e);
    var who := e.who;
    assert HoldsOwn(w.files, jobs[who], w.pcs[who], who);
    assert Owns(w.pcs[who]) ==> Owns(r.pcs[who]) && Target(jobs[who], r.pcs[who]) == Target(jobs[who], w.pcs[who]);
    forall p | 0 <= p < |jobs| ensures HoldsOwn(r.files, jobs[p], r.pcs[p], p) {
      assert HoldsOwn(w.files, jobs[p], w.pcs[p], p);
    }
    forall name | name in r.files ensures Accounted(jobs, before, r, name) {
      assert Accounted(jobs, before, w, name);
    }
  }

  /** A step that changes the directory changes one name, and that name is this publisher's own. */
  lemma LoudStep(jobs: seq<Job>, limit: nat, before: map<string, Entry>, w: World, e: Event)
    requires NoneCreated(before) && Inv(jobs, before, w) && e.who < |jobs| && Harmless(jobs, w, e)
    requires Step(jobs, limit, w, e).files != w.files
    ensures var r, pc := Step(jobs, limit, w, e), w.pcs[e.who];
      && (pc.Creating? || pc.Copying? || pc.RemovingOwn?)
      && var name := Target(jobs[e.who], pc);
        && name !in before
        && (name in w.files ==> w.files[name].By? && w.files[name].owner == e.who)
        && r.files - {name} == w.files - {name}
        && HoldsOwn(r.files, jobs[e.who], r.pcs[e.who], e.who)
        && (name in r.files <==> Owns(r.pcs[e.who]) && Target(jobs[e.who], r.pcs[e.who]) == name)
  {
    hide VersionedName;
    assert HoldsOwn(w.files, jobs[e.who], w.pcs[e.who], e.who);
  }

  lemma LoudStepKeepsInv(jobs: seq<Job>, limit: nat, before: map<string, Entry>, w: World, e: Event)
    requires NoneCreated(before) && Inv(jobs, before, w) && e.who < |jobs| && Harmless(jobs, w, e)
    requires Step(jobs, limit, w, e).files != w.files
    ensures Inv(jobs, before, Step(jobs, limit, w, e))
  {
    hide VersionedName, StepOne, NoneCreated, Harmless, Target;
    LoudStep(jobs, limit, before, w, e);
    var r := Step(jobs, limit, w, e);
    var name := Target(jobs[e.who], w.pcs[e.who]);
    forall other | other != name
      ensures (other in r.files <==> other in w.files) && (other in r.files ==> r.files[other] == w.files[other])
    {
      assert other in r.files <==> other in r.files - {name};
      assert other in w.files <==> other in w.files - {name};
    }
    forall p | 0 <= p < |jobs| && p != e.who ensures HoldsOwn(r.files, jobs[p], r.pcs[p], p) {
      assert HoldsOwn(w.files, jobs[p], w.pcs[p], p);
    }
    forall other | other in r.files ensures Accounted(jobs, before, r, other) {
      if other != name {
        assert Accounted(jobs, before, w, other);
      }
    }
  }

  lemma StepKeepsInv(jobs: seq<Job>, limit: nat, before: map<string, Entry>, w: World, e: Event)
    requires NoneCreated(before) && Inv(jobs, before, w) && e.who < |jobs| && Harmless(jobs, w, e)
    ensures Inv(jobs, before, Step(jobs, limit, w, e))
  {
    hide VersionedName;
    var r := Step(jobs, limit, w, e);
    if r.files == w.files {
      QuietStep(jobs, limit, before, w, e);
    } else {
      LoudStepKeepsInv(jobs, limit, before, w, e);
    }
  }

  // ---------- Whole runs ----------

  /** Opening the temporary file or creating the destination never fails with an unexpected error. */
  predicate OpensSucceed(jobs: seq<Job>, limit: nat, w: World, events: seq<Event>)
    requires |w.pcs| == |jobs| && Within(jobs, events)
    decreases |events|
  {
    events == [] ||
    var before, e := events[..|events| - 1], events[|events| - 1];
    && OpensSucceed(jobs, limit, w, before)
    && (e.fault ==> Run(jobs, limit, w, before).pcs[e.who].Copying?)
  }

  /** No destination is removed after a failed open while it is somebody's file. */
  predicate HarmlessRun(jobs: seq<Job>, limit: nat, w: World, events: seq<Event>)
    requires |w.pcs| == |jobs| && Within(jobs, events)
    decreases |events|
  {
    events == [] ||
    var before := events[..|events| - 1];
    HarmlessRun(jobs, limit, w, before) && Harmless(jobs, Run(jobs, limit, w, before), events[|events| - 1])
  }

  predicate NoBlindRemoval(w: World) {
    forall p :: 0 <= p < |w.pcs| ==> !w.pcs[p].RemovingBlindly?
  }

  lemma {:induction false} OpensSucceedIsHarmless(jobs: seq<Job>, limit: nat, w: World, events: seq<Event>)
    requires |w.pcs| == |jobs| && Within(jobs, events) && NoBlindRemoval(w)
    requires OpensSucceed(jobs, limit, w, events)
    ensures HarmlessRun(jobs, limit, w, events) && NoBlindRemoval(Run(jobs, limit, w, events))
    decreases |events|
  {
    hide VersionedName;
    if events != [] {
      OpensSucceedIsHarmless(jobs, limit, w, events[..|events| - 1]);
    }
  }

  lemma {:induction false} RunKeepsInv(jobs: seq<Job>, limit: nat, before: map<string, Entry>, events: seq<Event>)
    requires NoneCreated(before) && Within(jobs, events)
    requires HarmlessRun(jobs, limit, Start(jobs, before), events)
    ensures Inv(jobs, before, Run(jobs, limit, Start(jobs, before), events))
    decreases |events|
  {
    if events == [] {
      StartKeepsInv(jobs, before);
    } else {
      RunKeepsInv(jobs, limit, before, events[..|events| - 1]);
      StepKeepsInv(jobs, limit, before, Run(jobs, limit, Start(jobs, before), events[..|events| - 1]), events[|events| - 1]);
    }
  }

  /** What an observer of the directory may rely on at any moment: earlier files are untouched, every
      published artifact holds exactly its bytes under a name of its own, and a publisher that failed
      has left nothing behind. */
  ghost predicate Safe(jobs: seq<Job>, before: map<string, Entry>, w: World)
    requires |w.pcs| == |jobs|
  {
    && Untouched(before, w.files)
    && (forall p :: 0 <= p < |jobs| && w.pcs[p].Published? ==>
      Target(jobs[p], w.pcs[p]) in w.files && w.files[Target(jobs[p], w.pcs[p])] == By(p, jobs[p].data))
    && (forall p, q :: 0 <= p < q < |jobs| && w.pcs[p].Published? && w.pcs[q].Published? ==>
      Target(jobs[p], w.pcs[p]) != Target(jobs[q], w.pcs[q]))
    && (forall name :: name in w.files && name !in before ==>
      w.files[name].By? && w.files[name].owner < |jobs| && !w.pcs[w.files[name].owner].Failed?)
  }

  /** Publishing is safe in every interleaving of any number of publishers in which no blind removal
      hits a file. */
  lemma HarmlessRunIsSafe(jobs: seq<Job>, limit: nat, before: map<string, Entry>, events: seq<Event>)
    requires NoneCreated(before) && Within(jobs, events)
    requires HarmlessRun(jobs, limit, Start(jobs, before), events)
    ensures Safe(jobs, before, Run(jobs, limit, Start(jobs, before), events))
  {
    RunKeepsInv(jobs, limit, before, events);
    hide VersionedName, Run, HarmlessRun;
    var w := Run(jobs, limit, Start(jobs, before), events);
    forall p | 0 <= p < |jobs| && w.pcs[p].Published?
      ensures Target(jobs[p], w.pcs[p]) in w.files && w.files[Target(jobs[p], w.pcs[p])] == By(p, jobs[p].data)
    {
      assert HoldsOwn(w.files, jobs[p], w.pcs[p], p);
    }
    forall name | name in w.files && name !in before
      ensures w.files[name].By? && w.files[name].owner < |jobs| && !w.pcs[w.files[name].owner].Failed?
    {
      assert Accounted(jobs, before, w, name);
    }
  }

  /** In particular whenever every temporary file opens and every create either succeeds or finds the
      name taken, however copying fails. */
  lemma PublishingIsSafe(jobs: seq<Job>, limit: nat, before: map<string, Entry>, events: seq<Event>)
    requires NoneCreated(before) && Within(jobs, events)
    requires OpensSucceed(jobs, limit, Start(jobs, before), events)
    ensures Safe(jobs, before, Run(jobs, limit, Start(jobs, before), events))
  {
    OpensSucceedIsHarmless(jobs, limit, Start(jobs, before), events);
    HarmlessRunIsSafe(jobs, limit, before, events);
  }

  /** The condition is exact: from a state in which every file is accounted for, a step breaks that
      if and only if it removes a file after a failed open. */
  lemma HarmfulExactly(jobs: seq<Job>, limit: nat, before: map<string, Entry>, w: World, e: Event)
    requires NoneCreated(before) && Inv(jobs, before, w) && e.who < |jobs|
    ensures Inv(jobs, before, Step(jobs, limit, w, e)) <==> Harmless(jobs, w, e)
  {
    hide VersionedName;
    if Harmless(jobs, w, e) {
      StepKeepsInv(jobs, limit, before, w, e);
    } else {
      var name := Target(jobs[e.who], w.pcs[e.who]);
      var r := Step(jobs, limit, w, e);
      assert name !in r.files;
      assert Accounted(jobs, before, w, name);
      if w.files[name].By? {
        var p := w.files[name].owner;
        assert !HoldsOwn(r.files, jobs[p], r.pcs[p], p);
      }
    }
  }

  /** Every file is accounted for at every point of the run. */
  ghost predicate AccountedAlong(jobs: seq<Job>, limit: nat, before: map<string, Entry>, events: seq<Event>)
    requires Within(jobs, events)
    decreases |events|
  {
    && Inv(jobs, before, Run(jobs, limit, Start(jobs, before), events))
    && (events != [] ==> AccountedAlong(jobs, limit, before, events[..|events| - 1]))
  }

  /** So of whole runs: every file is accounted for throughout if and only if the run is harmless. */
  lemma {:induction false} HarmlessRunExactly(jobs: seq<Job>, limit: nat, before: map<string, Entry>, events: seq<Event>)
    requires NoneCreated(before) && Within(jobs, events)
    ensures AccountedAlong(jobs, limit, before, events) <==> HarmlessRun(jobs, limit, Start(jobs, before), events)
    decreases |events|
  {
    hide VersionedName, Step, NoneCreated, Harmless, Inv;
    if events == [] {
      StartKeepsInv(jobs, before);
    } else {
      var shorter, e := events[..|events| - 1], events[|events| - 1];
      HarmlessRunExactly(jobs, limit, before, shorter);
      if AccountedAlong(jobs, limit, before, shorter) {
        HarmfulExactly(jobs, limit, before, Run(jobs, limit, Start(jobs, before), shorter), e);
      }
    }
  }

  /** An observer sees it at once if what is removed was there before or is published. */
  lemma HarmSeen(jobs: seq<Job>, limit: nat, before: map<string, Entry>, w: World, e: Event)
    requires NoneCreated(before) && Inv(jobs, before, w) && e.who < |jobs| && !Harmless(jobs, w, e)
    ensures var name := Target(jobs[e.who], w.pcs[e.who]);
      && name in w.files
      && (name in before || w.pcs[w.files[name].owner].Published? ==> !Safe(jobs, before, Step(jobs, limit, w, e)))
  {
    hide VersionedName;
    var name := Target(jobs[e.who], w.pcs[e.who]);
    assert Accounted(jobs, before, w, name);
    var r := Step(jobs, limit, w, e);
    assert name !in r.files;
    if name !in before && w.pcs[w.files[name].owner].Published? {
      var p := w.files[name].owner;
      assert r.pcs[p] == w.pcs[p] && Target(jobs[p], r.pcs[p]) == name;
    }
  }

  lemma RunOneMore(jobs: seq<Job>, limit: nat, w: World, events: seq<Event>, e: Event)
    requires |w.pcs| == |jobs| && Within(jobs, events) && e.who < |jobs|
    ensures Within(jobs, events + [e])
    ensures Run(jobs, limit, w, events + [e]) == Step(jobs, limit, Run(jobs, limit, w, events), e)
  {
    assert (events + [e])[..|events + [e]| - 1] == events;
  }

  lemma RunExtends(jobs: seq<Job>, limit: nat, w: World, events: seq<Event>, v: World, e: Event, next: World)
    requires |w.pcs| == |v.pcs| == |jobs| && Within(jobs, events) && e.who < |jobs|
    requires Run(jobs, limit, w, events) == v && Step(jobs, limit, v, e) == next
    ensures Within(jobs, events + [e]) && Run(jobs, limit, w, events + [e]) == next
  {
    hide Run, Step, Within;
    RunOneMore(jobs, limit, w, events, e);
  }

  /** And such a step is reachable: a publisher whose temporary file does not open deletes an artifact
      that another one has published under the same name. */
  lemma FailedOpenDeletesPublished(filename: string, mine: Bytes, theirs: Bytes)
    requires |theirs| == 1
    ensures exists events: seq<Event> ::
      var jobs := [Job(filename, mine), Job(filename, theirs)];
      && Within(jobs, events)
      && var w := Run(jobs, 1, Start(jobs, map[]), events);
        w.pcs == [Failed, Published(1)] && w.files == map[]
  {
    hide Run, StemLength;
    var jobs := [Job(filename, mine), Job(filename, theirs)];
    var w := Start(jobs, map[]);
    var events := PublishedWhileOpening(filename, mine, theirs);
    var go0, fail0 := Event(0, false, 1), Event(0, true, 1);
    var full := map[filename := By(1, theirs)];
    var v := World(full, [OpeningSource(1), Published(1)]);
    var removing := World(full, [RemovingBlindly(1), Published(1)]);
    RunExtends(jobs, 1, w, events, v, fail0, removing);
    RunExtends(jobs, 1, w, events + [fail0], removing, go0, World(map[], [Failed, Published(1)]));
  }

  /** The first publisher has found the name free; the second has published under it. */
  lemma PublishedWhileOpening(filename: string, mine: Bytes, theirs: Bytes) returns (events: seq<Event>)
    requires |theirs| == 1
    ensures var jobs := [Job(filename, mine), Job(filename, theirs)];
      && Within(jobs, events)
      && Run(jobs, 1, Start(jobs, map[]), events) == World(map[filename := By(1, theirs)], [OpeningSource(1), Published(1)])
  {
    var jobs := [Job(filename, mine), Job(filename, theirs)];
    var w := Start(jobs, map[]);
    assert w == World(map[], [Checking(1), Checking(1)]);
    assert Run(jobs, 1, w, []) == w;
    hide Run, StemLength;
    var go0, go1 := Event(0, false, 1), Event(1, false, 1);
    var w1 := World(map[], [OpeningSource(1), Checking(1)]);
    RunExtends(jobs, 1, w, [], w, go0, w1);
    events := [] + [go0];
    var w2 := World(map[], [OpeningSource(1), OpeningSource(1)]);
    RunExtends(jobs, 1, w, events, w1, go1, w2);
    events := events + [go1];
    var w3 := World(map[], [OpeningSource(1), Creating(1)]);
    RunExtends(jobs, 1, w, events, w2, go1, w3);
    events := events + [go1];
    var w4 := World(map[filename := By(1, [])], [OpeningSource(1), Copying(1, 0)]);
    RunExtends(jobs, 1, w, events, w3, go1, w4);
    events := events + [go1];
    assert theirs[..1] == theirs;
    var w5 := World(map[filename := By(1, theirs)], [OpeningSource(1), Copying(1, 1)]);
    RunExtends(jobs, 1, w, events, w4, go1, w5);
    events := events + [go1];
    RunExtends(jobs, 1, w, events, w5, go1, World(map[filename := By(1, theirs)], [OpeningSource(1), Published(1)]));
    events := events + [go1];
  }

  // ---------- One publisher alone ----------

  /** The artifact directory. */
  class ArtifactRoot {
    var files: map<string, Entry>

    /** Undisturbed, publishing takes the least free version up to the limit and adds that one file;
        it fails exactly when there is none. */
    method PublishNew(filename: string, data: Bytes, maxVersions: nat) returns (r: Result<(string, nat), string>)
      modifies this
      ensures r.Err? <==> forall v :: 1 <= v <= maxVersions ==> VersionedName(filename, v) in old(files)
      ensures r.Err? ==> files == old(files)
      ensures r.Ok? ==>
        && 1 <= r.value.1 <= maxVersions && r.value.0 == VersionedName(filename, r.value.1)
        && (forall v :: 1 <= v < r.value.1 ==> VersionedName(filename, v) in old(files))
        && r.value.0 !in old(files) && files == old(files)[r.value.0 := Existing(data)]
    {
      for version := 1 to maxVersions + 1
        invariant files == old(files)
        invariant forall v :: 1 <= v < version ==> VersionedName(filename, v) in files
      {
        var destination := VersionedName(filename, version);
        if destination !in files {
          files := files[destination := Existing(data)];
          return Ok((destination, version));
        }
      }
      return Err("no free artifact version");
    }
  }

  function NamesUpTo(filename: string, n: nat): (names: set<string>)
    ensures forall v :: 1 <= v <= n ==> VersionedName(filename, v) in names
  {
    if n == 0 then {} else NamesUpTo(filename, n - 1) + {VersionedName(filename, n)}
  }

  lemma {:induction false} NamesAreMany(filename: string, n: nat)
    ensures |NamesUpTo(filename, n)| == n
    ensures forall name :: name in NamesUpTo(filename, n) ==> exists v :: 1 <= v <= n && name == VersionedName(filename, v)
  {
    if n > 0 {
      NamesAreMany(filename, n - 1);
      forall v | 1 <= v < n ensures VersionedName(filename, v) != VersionedName(filename, n) {
        VersionedNameInjective(filename, v, n);
      }
    }
  }

  /** There is a free version whenever the directory holds fewer entries than the limit. */
  lemma FreeVersionExists(files: map<string, Entry>, filename: string, limit: nat)
    requires |files| < limit
    ensures exists v :: 1 <= v <= limit && VersionedName(filename, v) !in files
  {
    NamesAreMany(filename, limit);
    if NamesUpTo(filename, limit) <= files.Keys {
      SubsetIsNoLarger(NamesUpTo(filename, limit), files.Keys);
      assert false;
    }
  }
}
