/**
 * Resumable benchmark campaigns and the check of their completeness
 * (src/ah_there_it_is/benchmark_campaign.py:341-356, 377-508;
 * src/ah_there_it_is/promotion_report.py:36-181).  The result file is replaced
 * atomically after every attempt; a run may be killed around any such write.
 */
module Campaign {
  import opened Prelude
  import Sorting

  datatype Pipeline = LiveEval | ModelProbe

  datatype Entry = Entry(pipeline: Pipeline, caseId: string, repetition: nat)

  datatype Manifest = Manifest(liveIds: seq<string>, probeIds: seq<string>, repetitions: nat)

  /** What the manifest model and the completeness check both demand. */
  predicate ManifestValid(m: Manifest) {
    Sorting.Distinct(m.liveIds) && Sorting.Distinct(m.probeIds) && m.repetitions >= 1
  }

  // ----- slot ids

  function PipelineName(p: Pipeline): string {
    match p
    case LiveEval => "live_eval"
    case ModelProbe => "model_probe"
  }

  /** `_slot_id`. */
  function SlotId(e: Entry): string {
    PipelineName(e.pipeline) + ":" + e.caseId + ":" + Decimal(e.repetition)
  }

  lemma LastColon(a: string, b: string, c: string, d: string)
    requires a + ":" + b == c + ":" + d
    requires ':' !in b && ':' !in d
    ensures a == c && b == d
  {
    var s := a + ":" + b;
    assert s[|a|] == ':' && s[|c|] == ':';
    assert forall k :: |a| < k < |s| ==> s[k] == b[k - |a| - 1];
    assert forall k :: |c| < k < |s| ==> s[k] == d[k - |c| - 1];
    assert |a| == |c|;
    assert s[..|a|] == a && s[..|c|] == c && s[|a| + 1..] == b && s[|c| + 1..] == d;
  }

  /** Distinct entries have distinct slots, whatever colons the case ids contain. */
  lemma SlotIdInjective(a: Entry, b: Entry)
    requires SlotId(a) == SlotId(b)
    ensures a == b
  {
    var headA, headB := PipelineName(a.pipeline) + ":" + a.caseId, PipelineName(b.pipeline) + ":" + b.caseId;
    LastColon(headA, Decimal(a.repetition), headB, Decimal(b.repetition));
    DecimalInjective(a.repetition, b.repetition);
    assert headA[0] == PipelineName(a.pipeline)[0] && headB[0] == PipelineName(b.pipeline)[0];
    var name := PipelineName(a.pipeline) + ":";
    assert headA[|name|..] == a.caseId && headB[|name|..] == b.caseId;
  }

  // ----- the plan

  function Repetitions(caseId: string, n: nat): (r: seq<Entry>)
    ensures |r| == n && forall k :: 0 <= k < n ==> r[k] == Entry(LiveEval, caseId, k + 1)
  {
    seq(n, k requires 0 <= k < n => Entry(LiveEval, caseId, k + 1))
  }

  function LivePlan(ids: seq<string>, repetitions: nat): seq<Entry> {
    if ids == [] then [] else LivePlan(ids[..|ids| - 1], repetitions) + Repetitions(ids[|ids| - 1], repetitions)
  }

  function ProbePlan(ids: seq<string>): (r: seq<Entry>)
    ensures |r| == |ids| && forall k :: 0 <= k < |r| ==> r[k] == Entry(ModelProbe, ids[k], 1)
  {
    seq(|ids|, k requires 0 <= k < |ids| => Entry(ModelProbe, ids[k], 1))
  }

  function Plan(m: Manifest): seq<Entry> {
    LivePlan(m.liveIds, m.repetitions) + ProbePlan(m.probeIds)
  }

  lemma {:induction false} LivePlanIs(ids: seq<string>, repetitions: nat, e: Entry)
    ensures e in LivePlan(ids, repetitions) <==> e.pipeline.LiveEval? && e.caseId in ids && 1 <= e.repetition <= repetitions
  {
    if ids != [] {
      var front, last := ids[..|ids| - 1], ids[|ids| - 1];
      LivePlanIs(front, repetitions, e);
      assert ids == front + [last];
      if e.pipeline.LiveEval? && e.caseId == last && 1 <= e.repetition <= repetitions {
        assert Repetitions(last, repetitions)[e.repetition - 1] == e;
      }
    }
  }

  lemma {:induction false} LivePlanDistinct(ids: seq<string>, repetitions: nat)
    requires Sorting.Distinct(ids)
    ensures Sorting.Distinct(LivePlan(ids, repetitions))
  {
    if ids != [] {
      var front, last := ids[..|ids| - 1], ids[|ids| - 1];
      LivePlanDistinct(front, repetitions);
      var plan := LivePlan(front, repetitions);
      forall k | 0 <= k < |plan| ensures plan[k].caseId != last {
        LivePlanIs(front, repetitions, plan[k]);
        assert plan[k] in plan;
      }
    }
  }

  lemma PlanDistinct(m: Manifest)
    requires ManifestValid(m)
    ensures Sorting.Distinct(Plan(m))
  {
    LivePlanDistinct(m.liveIds, m.repetitions);
    var live := LivePlan(m.liveIds, m.repetitions);
    forall k | 0 <= k < |live| ensures live[k].pipeline.LiveEval? {
      LivePlanIs(m.liveIds, m.repetitions, live[k]);
      assert live[k] in live;
    }
  }

  /** `_attempt_plan`. */
  method AttemptPlan(m: Manifest) returns (plan: seq<Entry>)
    ensures plan == Plan(m)
  {
    plan := [];
    for i := 0 to |m.liveIds|
      invariant plan == LivePlan(m.liveIds[..i], m.repetitions)
    {
      ghost var before := plan;
      for repetition := 1 to m.repetitions + 1
        invariant plan == before + Repetitions(m.liveIds[i], m.repetitions)[..repetition - 1]
      {
        plan := plan + [Entry(LiveEval, m.liveIds[i], repetition)];
      }
      assert m.liveIds[..i + 1][..i] == m.liveIds[..i];
    }
    assert m.liveIds[..|m.liveIds|] == m.liveIds;
    ghost var live := plan;
    for i := 0 to |m.probeIds|
      invariant plan == live + ProbePlan(m.probeIds)[..i]
    {
      plan := plan + [Entry(ModelProbe, m.probeIds[i], 1)];
    }
  }

  // ----- the result file

  /** What an executor returned or raised, and whether the completeness check would accept it for its slot. */
  datatype Evidence = Evidence(text: string, valid: bool)

  datatype Attempt = Attempt(slotId: string, entry: Entry, completed: bool, evidence: Evidence)

  datatype Result = Result(completed: bool, attempts: seq<Attempt>)

  /** The stored attempts are a prefix of the plan; "completed" is only ever stored for the whole plan. */
  ghost predicate PrefixOfPlan(r: Result, plan: seq<Entry>) {
    && |r.attempts| <= |plan|
    && (forall i :: 0 <= i < |r.attempts| ==>
          r.attempts[i].entry == plan[i] && r.attempts[i].slotId == SlotId(plan[i]) && r.attempts[i].completed)
    && (r.completed ==> |r.attempts| == |plan|)
  }

  /** What the executor of a slot answers or raises at a moment. */
  type Executors = (Entry, nat) -> Evidence

  /** A slot handed to its executor. */
  datatype Executed = Executed(entry: Entry, at: nat)

  function Slots(ran: seq<Executed>): (slots: seq<Entry>)
    ensures |slots| == |ran| && forall k :: 0 <= k < |ran| ==> slots[k] == ran[k].entry
  {
    seq(|ran|, k requires 0 <= k < |ran| => ran[k].entry)
  }

  /** What becomes of one write of the file. */
  datatype WriteFate = Written | KilledBefore | KilledAfter

  /** The writes during which the run is killed, by their moment. */
  type Fates = map<nat, WriteFate>

  function FateAt(fates: Fates, now: nat): WriteFate {
    if now in fates then fates[now] else Written
  }

  ghost predicate AllWritten(fates: Fates, from: nat, to: nat) {
    forall t: nat {:trigger FateAt(fates, t)} :: from <= t < to ==> FateAt(fates, t).Written?
  }

  function CompletedSlots(attempts: seq<Attempt>): set<string> {
    set a | a in attempts && a.completed :: a.slotId
  }

  /** The attempts in a file. */
  function Stored(file: Option<Result>): seq<Attempt> {
    if file.Some? then file.value.attempts else []
  }

  class CampaignFile {
    const manifest: Manifest
    const fates: Fates
    const executors: Executors
    var file: Option<Result>
    var tick: nat

    ghost predicate Valid()
      reads this
    {
      ManifestValid(manifest) && (file.Some? ==> PrefixOfPlan(file.value, Plan(manifest)))
    }

    constructor (manifest: Manifest, fates: Fates, executors: Executors)
      requires ManifestValid(manifest)
      ensures Valid() && file == None && this.manifest == manifest
    {
      this.manifest, this.fates, this.executors := manifest, fates, executors;
      file, tick := None, 0;
    }

    method WriteResult(r: Result) returns (alive: bool)
      requires Valid() && PrefixOfPlan(r, Plan(manifest))
      modifies `file, `tick
      ensures Valid() && file == if FateAt(fates, old(tick)).KilledBefore? then old(file) else Some(r)
      ensures tick == old(tick) + 1 && (alive <==> FateAt(fates, old(tick)).Written?)
    {
      var fate := FateAt(fates, tick);
      tick := tick + 1;
      if !fate.KilledBefore? {
        file := Some(r);
      }
      return fate.Written?;
    }

    /** The executor's answer, or the error it raised; `log` lists the slots handed to an executor. */
    method Execute(entry: Entry, ghost ran: seq<Executed>) returns (evidence: Evidence, ghost log: seq<Executed>)
      ensures evidence == executors(entry, tick) && log == ran + [Executed(entry, tick)]
    {
      log := ran + [Executed(entry, tick)];
      evidence := executors(entry, tick);
    }

    /** The next slot of the plan: its executor's answer is appended and the file written. */
    method RunSlot(result: Result, entry: Entry, ghost start: seq<Attempt>, ghost ran: seq<Executed>, ghost from: nat)
      returns (next: Result, alive: bool, ghost log: seq<Executed>)
      requires Valid() && InStep(executors, start, result, ran, Plan(manifest)) && Holds(file, result)
      requires |result.attempts| < |Plan(manifest)| && entry == Plan(manifest)[|result.attempts|]
      requires from <= tick && AllWritten(fates, from, tick)
      modifies `file, `tick
      ensures Valid() && InStep(executors, start, next, log, Plan(manifest))
      ensures |next.attempts| == |result.attempts| + 1 && (alive ==> Holds(file, next))
      ensures Kept(executors, file, start, log, alive)
      ensures from <= tick && (alive <==> AllWritten(fates, from, tick))
    {
      var evidence;
      evidence, log := Execute(entry, ran);
      next := result.(attempts := result.attempts + [Attempt(SlotId(entry), entry, true, evidence)]);
      StepOn(executors, start, result, next, ran, Plan(manifest), tick);
      alive := WriteResult(next);
      KeptSo(executors, file, start, result, ran, next, log, Plan(manifest), alive);
    }

    /** The loop over the plan: every slot that is not completed, unless the run is killed. */
    method RunPending(first: Result, plan: seq<Entry>) returns (result: Result, alive: bool, ghost ran: seq<Executed>)
      requires Valid() && plan == Plan(manifest) && PrefixOfPlan(first, plan) && Holds(file, first)
      modifies `file, `tick
      ensures Valid() && Kept(executors, file, first.attempts, ran, alive)
      ensures InStep(executors, first.attempts, result, ran, plan) && (alive ==> |result.attempts| == |plan| && Holds(file, result))
      ensures old(tick) <= tick && (alive <==> AllWritten(fates, old(tick), tick))
    {
      var completedSlots := CompletedSlots(first.attempts);
      result, alive, ran := first, true, [];
      for i := 0 to |plan|
        invariant Valid() && InStep(executors, first.attempts, result, ran, plan) && Holds(file, result)
        invariant |result.attempts| == if i < |first.attempts| then |first.attempts| else i
        invariant old(tick) <= tick && alive && AllWritten(fates, old(tick), tick)
      {
        SlotPending(first.attempts, plan, manifest, i);
        if SlotId(plan[i]) !in completedSlots {
          result, alive, ran := RunSlot(result, plan[i], first.attempts, ran, old(tick));
          if !alive {
            return;
          }
        }
      }
      SoFarKept(executors, file, first.attempts, result, ran, plan);
    }

    /** The mark, computed from what is stored, and the last write. */
    method Finish(result: Result, plan: seq<Entry>) returns (alive: bool)
      requires Valid() && plan == Plan(manifest) && PrefixOfPlan(result, plan) && |result.attempts| == |plan|
      requires Holds(file, result)
      modifies `file, `tick
      ensures Valid() && Stored(file) == result.attempts && (alive ==> file.Some? && file.value.completed)
      ensures tick == old(tick) + 1 && (alive <==> FateAt(fates, old(tick)).Written?)
    {
      var completed := AllStored(plan, result.attempts);
      WholePlanStored(result, plan);
      alive := WriteResult(result.(completed := completed));
    }

    /**
     * `run_campaign`: runs or resumes.  The executed slots are slots of the plan that were not stored,
     * each once, and a kill loses the result of at most one of them; a run that is not killed executes
     * all of these and ends with every slot of the plan stored once and the file marked completed.
     */
    method Run() returns (finished: bool, ghost ran: seq<Executed>)
      requires Valid()
      modifies `file, `tick
      ensures Valid() && old(tick) <= tick
      ensures finished ==> file.Some? && file.value.completed && |file.value.attempts| == |Plan(manifest)|
      ensures finished <==> AllWritten(fates, old(tick), tick)
      ensures Kept(executors, file, Stored(old(file)), ran, finished)
      ensures ExecutedOnce(Slots(ran), Stored(old(file)), Plan(manifest), finished)
    {
      var plan := AttemptPlan(manifest);
      var first := if file.Some? then file.value else Result(false, []);
      var result;
      result, finished, ran := RunPending(first, plan);
      OnceEach(executors, first.attempts, result, plan, manifest, ran, finished);
      if finished {
        finished := Finish(result, plan);
        StoredKept(executors, file, first.attempts, result, ran, plan, finished);
      }
    }
  }

  /** This result is what the file holds, or there is no file yet. */
  predicate Holds(file: Option<Result>, result: Result) {
    if file.Some? then file.value == result else result == Result(false, [])
  }

  /** These attempts were stored for slots that were executed, with what their executors answered. */
  ghost predicate Answered(executors: Executors, attempts: seq<Attempt>, ran: seq<Executed>) {
    |attempts| <= |ran| && forall k :: 0 <= k < |attempts| ==>
      attempts[k] == Attempt(SlotId(ran[k].entry), ran[k].entry, true, executors(ran[k].entry, ran[k].at))
  }

  /** Nothing stored is lost, and what was executed is stored with its answer, but for the last slot of a run that is killed. */
  ghost predicate Kept(executors: Executors, file: Option<Result>, start: seq<Attempt>, ran: seq<Executed>, alive: bool) {
    && start <= Stored(file) && |start| + |ran| <= |Stored(file)| + (if alive then 0 else 1)
    && Answered(executors, Stored(file)[|start|..], ran)
  }

  lemma KeptSo(executors: Executors, file: Option<Result>, start: seq<Attempt>, result: Result, ran: seq<Executed>, next: Result,
               log: seq<Executed>, plan: seq<Entry>, alive: bool)
    requires InStep(executors, start, result, ran, plan) && InStep(executors, start, next, log, plan)
    requires |log| == |ran| + 1 && log[..|ran|] == ran
    requires file == Some(next) || (!alive && Holds(file, result))
    ensures Kept(executors, file, start, log, alive)
  {
    if file != Some(next) {
      assert Stored(file) == result.attempts;
      forall k | 0 <= k < |ran| ensures log[k] == ran[k] {
        assert log[..|ran|][k] == ran[k];
      }
    }
  }

  /** The slots run so far follow the stored ones in the plan, and what they gave is appended. */
  ghost predicate InStep(executors: Executors, start: seq<Attempt>, result: Result, ran: seq<Executed>, plan: seq<Entry>) {
    && PrefixOfPlan(result, plan) && start <= result.attempts
    && |ran| == |result.attempts| - |start| && Answered(executors, result.attempts[|start|..], ran)
    && forall k :: 0 <= k < |ran| ==> ran[k].entry == plan[|start| + k]
  }

  lemma SoFarKept(executors: Executors, file: Option<Result>, start: seq<Attempt>, result: Result, ran: seq<Executed>, plan: seq<Entry>)
    requires InStep(executors, start, result, ran, plan) && Holds(file, result)
    ensures Kept(executors, file, start, ran, true)
  {
  }

  lemma StoredKept(executors: Executors, file: Option<Result>, start: seq<Attempt>, result: Result, ran: seq<Executed>,
                   plan: seq<Entry>, alive: bool)
    requires InStep(executors, start, result, ran, plan) && Stored(file) == result.attempts
    ensures Kept(executors, file, start, ran, alive)
  {
  }

  lemma StepOn(executors: Executors, start: seq<Attempt>, result: Result, next: Result, ran: seq<Executed>, plan: seq<Entry>, at: nat)
    requires InStep(executors, start, result, ran, plan) && |result.attempts| < |plan|
    requires var e := plan[|result.attempts|];
             next == result.(attempts := result.attempts + [Attempt(SlotId(e), e, true, executors(e, at))])
    ensures InStep(executors, start, next, ran + [Executed(plan[|result.attempts|], at)], plan)
  {
    var e := plan[|result.attempts|];
    assert next.attempts[|start|..] == result.attempts[|start|..] + [Attempt(SlotId(e), e, true, executors(e, at))];
  }

  /** Slots of the plan that were not stored, none twice; all of them, if the run finished. */
  ghost predicate ExecutedOnce(executed: seq<Entry>, stored: seq<Attempt>, plan: seq<Entry>, finished: bool) {
    && Sorting.Distinct(executed)
    && (forall e :: e in executed ==> e in plan && SlotId(e) !in CompletedSlots(stored))
    && (finished ==> forall e :: e in plan && SlotId(e) !in CompletedSlots(stored) ==> e in executed)
  }

  /** What lies behind the stored prefix is not stored, and is there once. */
  lemma OnceEach(executors: Executors, stored: seq<Attempt>, result: Result, plan: seq<Entry>, m: Manifest,
                 ran: seq<Executed>, all: bool)
    requires ManifestValid(m) && plan == Plan(m) && InStep(executors, stored, result, ran, plan)
    requires all ==> |result.attempts| == |plan|
    ensures ExecutedOnce(Slots(ran), stored, plan, all)
  {
    PlanDistinct(m);
    forall i | 0 <= i < |plan| ensures SlotId(plan[i]) in CompletedSlots(stored) <==> i < |stored| {
      SlotPending(stored, plan, m, i);
    }
    forall i | |stored| <= i < |stored| + |ran| ensures plan[i] in Slots(ran) {
      assert Slots(ran)[i - |stored|] == plan[i];
    }
  }

  /** Whether every slot of the plan has a completed attempt. */
  method AllStored(plan: seq<Entry>, attempts: seq<Attempt>) returns (all: bool)
    ensures all <==> forall i :: 0 <= i < |plan| ==> SlotId(plan[i]) in CompletedSlots(attempts)
  {
    var stored := CompletedSlots(attempts);
    for i := 0 to |plan|
      invariant forall k :: 0 <= k < i ==> SlotId(plan[k]) in stored
    {
      if SlotId(plan[i]) !in stored {
        return false;
      }
    }
    return true;
  }

  lemma WholePlanStored(r: Result, plan: seq<Entry>)
    requires PrefixOfPlan(r, plan) && |r.attempts| == |plan|
    ensures forall i :: 0 <= i < |plan| ==> SlotId(plan[i]) in CompletedSlots(r.attempts)
  {
    forall i | 0 <= i < |plan| ensures SlotId(plan[i]) in CompletedSlots(r.attempts) {
      assert r.attempts[i] in r.attempts;
    }
  }

  /** A slot of the plan is pending exactly when it lies behind the stored prefix. */
  lemma SlotPending(attempts: seq<Attempt>, plan: seq<Entry>, m: Manifest, i: nat)
    requires ManifestValid(m) && plan == Plan(m) && i < |plan| && |attempts| <= |plan|
    requires forall k :: 0 <= k < |attempts| ==>
      attempts[k].entry == plan[k] && attempts[k].slotId == SlotId(plan[k]) && attempts[k].completed
    ensures SlotId(plan[i]) in CompletedSlots(attempts) <==> i < |attempts|
  {
    PlanDistinct(m);
    if i < |attempts| {
      assert attempts[i] in attempts;
    }
    if SlotId(plan[i]) in CompletedSlots(attempts) {
      var a :| a in attempts && a.completed && a.slotId == SlotId(plan[i]);
      var k :| 0 <= k < |attempts| && attempts[k] == a;
      SlotIdInjective(plan[i], plan[k]);
    }
  }

  // ----- the completeness check

  /** Each declared slot with what it stands for. */
  ghost predicate Declares(m: Manifest, declared: map<string, Entry>) {
    && (forall e :: e in Plan(m) ==> SlotId(e) in declared && declared[SlotId(e)] == e)
    && (forall slot :: slot in declared ==> declared[slot] in Plan(m) && SlotId(declared[slot]) == slot)
  }

  lemma PlanMembers(m: Manifest, e: Entry)
    ensures e in Plan(m) <==>
      (e.pipeline.LiveEval? && e.caseId in m.liveIds && 1 <= e.repetition <= m.repetitions)
      || (e.pipeline.ModelProbe? && e.caseId in m.probeIds && e.repetition == 1)
  {
    LivePlanIs(m.liveIds, m.repetitions, e);
    var probes := ProbePlan(m.probeIds);
    assert e in Plan(m) <==> e in LivePlan(m.liveIds, m.repetitions) || e in probes;
    if e.pipeline.ModelProbe? && e.caseId in m.probeIds && e.repetition == 1 {
      var k :| 0 <= k < |m.probeIds| && m.probeIds[k] == e.caseId;
      assert probes[k] == e;
    }
  }

  /** Each of these entries is declared under its slot, and nothing else is. */
  ghost predicate DeclaresExactly(entries: seq<Entry>, declared: map<string, Entry>) {
    && (forall e :: e in entries ==> SlotId(e) in declared && declared[SlotId(e)] == e)
    && (forall slot :: slot in declared ==> declared[slot] in entries && SlotId(declared[slot]) == slot)
  }

  /** A slot written in one piece, as the report does, is the runner's; entering it loses no other. */
  lemma OneMoreDeclared(entries: seq<Entry>, declared: map<string, Entry>, e: Entry, slot: string)
    requires DeclaresExactly(entries, declared) && slot == PipelineName(e.pipeline) + ":" + e.caseId + ":" + Decimal(e.repetition)
    ensures DeclaresExactly(entries + [e], declared[slot := e])
  {
    assert slot == SlotId(e);
    forall other | other in entries && SlotId(other) == SlotId(e) ensures other == e {
      SlotIdInjective(other, e);
    }
  }

  /** `_declared_attempts`: loops of its own, yet exactly the slots the runner plans. */
  method DeclaredAttempts(m: Manifest) returns (declared: map<string, Entry>)
    ensures Declares(m, declared)
  {
    declared := map[];
    ghost var entries: seq<Entry> := [];
    for i := 0 to |m.liveIds|
      invariant entries == LivePlan(m.liveIds[..i], m.repetitions) && DeclaresExactly(entries, declared)
    {
      ghost var before := entries;
      for repetition := 1 to m.repetitions + 1
        invariant entries == before + Repetitions(m.liveIds[i], m.repetitions)[..repetition - 1] && DeclaresExactly(entries, declared)
      {
        var slot := "live_eval" + ":" + m.liveIds[i] + ":" + Decimal(repetition);
        var e := Entry(LiveEval, m.liveIds[i], repetition);
        OneMoreDeclared(entries, declared, e, slot);
        declared := declared[slot := e];
        entries := entries + [e];
      }
      assert m.liveIds[..i + 1][..i] == m.liveIds[..i];
    }
    assert m.liveIds[..|m.liveIds|] == m.liveIds;
    ghost var live := entries;
    for i := 0 to |m.probeIds|
      invariant entries == live + ProbePlan(m.probeIds)[..i] && DeclaresExactly(entries, declared)
    {
      var slot := "model_probe" + ":" + m.probeIds[i] + ":" + "1";
      var e := Entry(ModelProbe, m.probeIds[i], 1);
      assert Decimal(1) == "1";
      OneMoreDeclared(entries, declared, e, slot);
      declared := declared[slot := e];
      entries := entries + [e];
    }
    assert entries == Plan(m);
  }

  datatype Report = Report(complete: bool, missing: set<string>, unexpected: set<string>, incomplete: set<string>,
                           duplicates: set<string>, invalid: set<string>)

  function SlotsOf(attempts: seq<Attempt>): set<string> {
    set a | a in attempts :: a.slotId
  }

  predicate Twice(attempts: seq<Attempt>, slot: string) {
    exists i, j :: 0 <= i < j < |attempts| && attempts[i].slotId == slot && attempts[j].slotId == slot
  }

  /** What the report says of any stored attempts. */
  ghost predicate Reports(m: Manifest, r: Result, report: Report) {
    && (forall slot :: slot in report.missing <==> slot !in SlotsOf(r.attempts) && exists e :: e in Plan(m) && SlotId(e) == slot)
    && (forall slot :: slot in report.unexpected <==> slot in SlotsOf(r.attempts) && forall e :: e in Plan(m) ==> SlotId(e) != slot)
    && (forall slot :: slot in report.incomplete <==> exists a :: a in r.attempts && a.slotId == slot && !a.completed)
    && (forall slot :: slot in report.duplicates <==> Twice(r.attempts, slot))
    && (forall slot :: slot in report.invalid <==>
          exists a :: a in r.attempts && a.slotId == slot && MisfiledFor(m, a))
    && (report.complete <==>
          r.completed && report.missing == {} && report.unexpected == {} && report.incomplete == {}
          && report.duplicates == {} && report.invalid == {})
  }

  /** The attempt's slot is declared, but for something else or with unusable evidence. */
  ghost predicate MisfiledFor(m: Manifest, a: Attempt) {
    exists e :: e in Plan(m) && SlotId(e) == a.slotId && (a.entry != e || !a.evidence.valid)
  }

  lemma MisfiledByTable(m: Manifest, declared: map<string, Entry>, a: Attempt)
    requires Declares(m, declared)
    ensures MisfiledFor(m, a) <==> a.slotId in declared && (a.entry != declared[a.slotId] || !a.evidence.valid)
  {
    if MisfiledFor(m, a) {
      var e :| e in Plan(m) && SlotId(e) == a.slotId && (a.entry != e || !a.evidence.valid);
      assert declared[SlotId(e)] == e;
    }
    if a.slotId in declared {
      assert declared[a.slotId] in Plan(m);
    }
  }

  /** The loop over the stored attempts. */
  method Inspect(m: Manifest, attempts: seq<Attempt>, declared: map<string, Entry>)
    returns (observed: seq<string>, incomplete: set<string>, invalid: set<string>)
    requires Declares(m, declared)
    ensures |observed| == |attempts| && forall k :: 0 <= k < |attempts| ==> observed[k] == attempts[k].slotId
    ensures forall slot :: slot in incomplete <==> exists a :: a in attempts && a.slotId == slot && !a.completed
    ensures forall slot :: slot in invalid <==> exists a :: a in attempts && a.slotId == slot && MisfiledFor(m, a)
  {
    observed, incomplete, invalid := [], {}, {};
    for i := 0 to |attempts|
      invariant |observed| == i && forall k :: 0 <= k < i ==> observed[k] == attempts[k].slotId
      invariant forall slot :: slot in incomplete <==> exists a :: a in attempts[..i] && a.slotId == slot && !a.completed
      invariant forall slot :: slot in invalid <==> exists a :: a in attempts[..i] && a.slotId == slot && MisfiledFor(m, a)
    {
      var attempt := attempts[i];
      MisfiledByTable(m, declared, attempt);
      assert attempts[..i + 1] == attempts[..i] + [attempt];
      observed := observed + [attempt.slotId];
      if !attempt.completed {
        incomplete := incomplete + {attempt.slotId};
      }
      if attempt.slotId in declared && (attempt.entry != declared[attempt.slotId] || !attempt.evidence.valid) {
        invalid := invalid + {attempt.slotId};
      }
    }
    assert attempts[..|attempts|] == attempts;
  }

  /** `campaign_evidence_completeness` on any stored attempts. */
  method EvidenceCompleteness(m: Manifest, r: Result) returns (report: Report)
    requires ManifestValid(m)
    ensures Reports(m, r, report)
  {
    var declared := DeclaredAttempts(m);
    var observed, incomplete, invalid := Inspect(m, r.attempts, declared);
    var observedSet := set slot | slot in observed;
    var missing := declared.Keys - observedSet;
    var unexpected := observedSet - declared.Keys;
    var duplicates := set i, j | 0 <= i < j < |observed| && observed[i] == observed[j] :: observed[i];
    ObservedAre(r.attempts, observed);
    DeclaredAre(m, declared);
    DuplicatesAre(r.attempts, observed, duplicates);
    var complete := r.completed && missing == {} && unexpected == {} && incomplete == {} && duplicates == {} && invalid == {};
    return Report(complete, missing, unexpected, incomplete, duplicates, invalid);
  }

  lemma DuplicatesAre(attempts: seq<Attempt>, observed: seq<string>, duplicates: set<string>)
    requires |observed| == |attempts| && forall k :: 0 <= k < |attempts| ==> observed[k] == attempts[k].slotId
    requires duplicates == set i, j | 0 <= i < j < |observed| && observed[i] == observed[j] :: observed[i]
    ensures forall slot :: slot in duplicates <==> Twice(attempts, slot)
  {
    forall slot ensures slot in duplicates <==> Twice(attempts, slot) {
      if Twice(attempts, slot) {
        var i, j :| 0 <= i < j < |attempts| && attempts[i].slotId == slot && attempts[j].slotId == slot;
        assert observed[i] == observed[j] == slot;
      }
    }
  }

  lemma ObservedAre(attempts: seq<Attempt>, observed: seq<string>)
    requires |observed| == |attempts| && forall k :: 0 <= k < |attempts| ==> observed[k] == attempts[k].slotId
    ensures forall slot :: slot in observed <==> slot in SlotsOf(attempts)
  {
    forall slot ensures slot in observed <==> slot in SlotsOf(attempts) {
      if slot in observed {
        var k :| 0 <= k < |observed| && observed[k] == slot;
        assert attempts[k] in attempts;
      }
      if slot in SlotsOf(attempts) {
        var a :| a in attempts && a.slotId == slot;
        var k :| 0 <= k < |attempts| && attempts[k] == a;
        assert observed[k] == slot;
      }
    }
  }

  lemma DeclaredAre(m: Manifest, declared: map<string, Entry>)
    requires Declares(m, declared)
    ensures forall slot :: slot in declared <==> exists e :: e in Plan(m) && SlotId(e) == slot
  {
  }

  /** The whole plan, once each. */
  lemma CompletedCovers(m: Manifest, r: Result)
    requires ManifestValid(m) && PrefixOfPlan(r, Plan(m)) && r.completed
    ensures forall e :: e in Plan(m) ==> SlotId(e) in SlotsOf(r.attempts)
    ensures forall slot :: slot in SlotsOf(r.attempts) ==> exists e :: e in Plan(m) && SlotId(e) == slot
    ensures forall slot :: !Twice(r.attempts, slot)
  {
    var plan := Plan(m);
    PlanDistinct(m);
    forall e | e in plan ensures SlotId(e) in SlotsOf(r.attempts) {
      var k :| 0 <= k < |plan| && plan[k] == e;
      assert r.attempts[k] in r.attempts;
    }
    forall slot | slot in SlotsOf(r.attempts) ensures exists e :: e in plan && SlotId(e) == slot {
      var a :| a in r.attempts && a.slotId == slot;
      var k :| 0 <= k < |r.attempts| && r.attempts[k] == a;
      assert plan[k] in plan;
    }
    forall i, j | 0 <= i < j < |r.attempts| ensures r.attempts[i].slotId != r.attempts[j].slotId {
      if SlotId(plan[i]) == SlotId(plan[j]) {
        SlotIdInjective(plan[i], plan[j]);
      }
    }
  }

  lemma StoredIsFiled(m: Manifest, r: Result, a: Attempt)
    requires PrefixOfPlan(r, Plan(m)) && a in r.attempts
    ensures MisfiledFor(m, a) <==> !a.evidence.valid
  {
    var plan := Plan(m);
    var k :| 0 <= k < |r.attempts| && r.attempts[k] == a;
    assert plan[k] in plan;
    if MisfiledFor(m, a) {
      var e :| e in plan && SlotId(e) == a.slotId && (a.entry != e || !a.evidence.valid);
      SlotIdInjective(e, plan[k]);
    }
  }

  /**
   * A completed campaign file passes the completeness check: nothing is missing, unexpected, incomplete or
   * duplicated, and it is complete exactly when the executors' evidence is valid.
   */
  lemma CompletedCampaignPasses(m: Manifest, r: Result, report: Report)
    requires ManifestValid(m) && PrefixOfPlan(r, Plan(m)) && r.completed && Reports(m, r, report)
    ensures report.missing == {} && report.unexpected == {} && report.incomplete == {} && report.duplicates == {}
    ensures report.complete <==> forall a :: a in r.attempts ==> a.evidence.valid
  {
    CompletedCovers(m, r);
    forall a | a in r.attempts ensures a.completed && (MisfiledFor(m, a) <==> !a.evidence.valid) {
      StoredIsFiled(m, r, a);
    }
    InvalidEmpty(m, r, report);
  }

  lemma InvalidEmpty(m: Manifest, r: Result, report: Report)
    requires Reports(m, r, report)
    ensures report.invalid == {} <==> forall a :: a in r.attempts ==> !MisfiledFor(m, a)
  {
    forall a | a in r.attempts ensures MisfiledFor(m, a) ==> a.slotId in report.invalid {
    }
  }

  /** Run to the end, then check. */
  method RunAndCheck(campaign: CampaignFile) returns (finished: bool, report: Option<Report>)
    requires campaign.Valid()
    modifies campaign
    ensures campaign.Valid() && (finished <==> report.Some?)
    ensures finished <==> AllWritten(campaign.fates, old(campaign.tick), campaign.tick)
    ensures finished ==> report.value.missing == {} && report.value.unexpected == {}
                         && report.value.incomplete == {} && report.value.duplicates == {}
    ensures finished ==> campaign.file.Some?
    ensures finished ==> (report.value.complete <==> forall a :: a in campaign.file.value.attempts ==> a.evidence.valid)
  {
    ghost var ran;
    finished, ran := campaign.Run();
    if !finished {
      return false, None;
    }
    var checked := EvidenceCompleteness(campaign.manifest, campaign.file.value);
    CompletedCampaignPasses(campaign.manifest, campaign.file.value, checked);
    report := Some(checked);
  }
}
