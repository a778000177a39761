/**
 * The supervisor of the canonical verification sequence
 * (tools/agent/canonical_verifier.py:28-43, 254-419, 441-507, 596-740,
 * 1152-1277).  run.json and summary.json are replaced atomically; the
 * supervisor may be killed before or after any such write and while a recipe
 * runs, and any write may raise.  Since a kill can follow every write, what is
 * proved of the files at the end of a run holds after every write.
 */
module CanonicalVerifier {
  import opened Prelude

  type Sha = string

  const RECIPES: seq<string> := ["check", "migration-check", "corpus-check", "scenario-check", "scenario-eval", "retrieval-eval"]

  datatype Verdict = Success | Failure | TimedOut

  datatype Check = Check(index: nat, recipe: string, head: Sha, verdict: Verdict, attempt: nat)

  datatype Status = Starting | Running | Passed | Failed | Expired | HeadChanged | InternalError

  predicate Terminal(status: Status) {
    !status.Starting? && !status.Running?
  }

  datatype Active = Active(index: nat, recipe: string, attempt: nat)

  /** run.json. */
  datatype State = State(head: Sha, recipes: seq<string>, status: Status, nextIndex: nat, checks: seq<Check>,
                         attempts: seq<nat>, active: Option<Active>, resumes: nat)

  /** summary.json. */
  datatype Summary = Summary(status: Status, head: Sha, recipes: seq<string>, checks: seq<Check>)

  /** A start of a recipe. */
  datatype Run = Run(index: nat, attempt: nat)

  /**
   * What has happened: when each recipe was started, when a resume let the run go on, and when git
   * answered with the recorded HEAD after a recorded success.
   */
  datatype Past = Past(started: map<Run, nat>, resumed: set<nat>, confirmed: map<nat, nat>)

  /** What becomes of one durable write; it can raise before the file is replaced and after. */
  datatype WriteFate = Written | KilledBefore | KilledAfter | RaisesBefore | RaisesAfter

  /** What becomes of one recipe. */
  datatype RecipeFate = Ended(verdict: Verdict) | Broke | KilledMeanwhile

  /** The durable writes that do not simply happen, by their moment. */
  type Writes = map<nat, WriteFate>

  function WriteAt(writes: Writes, now: nat): WriteFate {
    if now in writes then writes[now] else Written
  }

  /** How recipes end, by their moment, where they do not simply succeed. */
  type Recipes = map<nat, RecipeFate>

  function RecipeAt(recipes: Recipes, now: nat): RecipeFate {
    if now in recipes then recipes[now] else Ended(Success)
  }

  /** What `git rev-parse HEAD` answers at each moment; elsewhere it fails. */
  type Heads = map<nat, Sha>

  function HeadAt(heads: Heads, now: nat): Option<Sha> {
    if now in heads then Some(heads[now]) else None
  }

  // ----- the validator of run.json

  predicate CheckValid(s: State, i: nat)
    requires i < |s.checks| <= |s.recipes|
  {
    s.checks[i].index == i && s.checks[i].recipe == s.recipes[i] && s.checks[i].head == s.head
  }

  /** What `_validate_state` demands of the parts that are modelled. */
  predicate StateValid(s: State) {
    && s.recipes != [] && s.nextIndex == |s.checks| <= |s.recipes|
    && (forall i :: 0 <= i < |s.checks| ==> CheckValid(s, i))
    && |s.attempts| == |s.recipes|
    && (s.active.Some? ==>
          s.nextIndex < |s.recipes| && s.active.value == Active(s.nextIndex, s.recipes[s.nextIndex], s.attempts[s.nextIndex]))
  }

  method ValidateState(s: State) returns (ok: bool)
    ensures ok <==> StateValid(s)
  {
    if s.recipes == [] || s.nextIndex != |s.checks| || s.nextIndex > |s.recipes| {
      return false;
    }
    for index := 0 to |s.checks|
      invariant forall i :: 0 <= i < index ==> CheckValid(s, i)
    {
      if !CheckValid(s, index) {
        return false;
      }
    }
    if |s.attempts| != |s.recipes| {
      return false;
    }
    if s.active.Some? {
      var active := s.active.value;
      if active.index != s.nextIndex || s.nextIndex >= |s.recipes| || active.recipe != s.recipes[s.nextIndex]
         || active.attempt != s.attempts[s.nextIndex] {
        return false;
      }
    }
    return true;
  }

  // ----- what holds of the files

  predicate AllSucceeded(checks: seq<Check>) {
    forall i :: 0 <= i < |checks| ==> checks[i].verdict.Success?
  }

  /** The recorded checks are a prefix of the canonical recipes, with only the last possibly unsuccessful. */
  ghost predicate StateKept(s: State) {
    && s.recipes == RECIPES && StateValid(s)
    && (forall i :: 0 <= i < |s.checks| - 1 ==> s.checks[i].verdict.Success?)
  }

  /** At `c`, after the recorded run of recipe i and before any later recipe, HEAD was as recorded: in the same turn or at a resume. */
  ghost predicate Confirms(c: nat, i: nat, s: State, past: Past, heads: Heads, now: nat)
    requires i < |s.attempts|
  {
    var run := Run(i, s.attempts[i]);
    && run in past.started && past.started[run] < c < now && HeadAt(heads, c) == Some(s.head)
    && (c == past.started[run] + 2 || c in past.resumed)
    && forall later {:trigger later in past.started} :: later in past.started && later.index > i ==> c < past.started[later]
  }

  /** Each recorded verdict is that of the recorded run. */
  ghost predicate Truthful(s: State, past: Past, recipes: Recipes) {
    |s.checks| <= |s.attempts| && forall i :: 0 <= i < |s.checks| ==>
      Run(i, s.attempts[i]) in past.started && RecipeAt(recipes, past.started[Run(i, s.attempts[i])]) == Ended(s.checks[i].verdict)
  }

  ghost predicate AllConfirmed(s: State, past: Past) {
    forall i :: 0 <= i < |s.checks| ==> i in past.confirmed
  }

  /** What the past has to do with the file. */
  ghost predicate RunKept(s: State, past: Past, heads: Heads, now: nat)
    requires StateKept(s)
  {
    StartsKept(s, past, heads, now) && ConfirmsKept(s, past, heads, now)
  }

  ghost predicate StartsKept(s: State, past: Past, heads: Heads, now: nat)
    requires StateKept(s)
  {
    // Only recipes up to the next one were started, each just after git had answered with the recorded HEAD.
    && (forall run {:trigger run in past.started} :: run in past.started ==>
          && run.index <= |s.checks| && run.index < |RECIPES| && 1 <= run.attempt <= s.attempts[run.index]
          && 2 <= past.started[run] < now && HeadAt(heads, past.started[run] - 2) == Some(s.head))
    // None was started after a recorded failure.
    && (!AllSucceeded(s.checks) ==> forall run {:trigger run in past.started} :: run in past.started ==> run.index < |s.checks|)
    // The recorded run of a recipe is its last one, so no recorded success is run again.
    && (forall i {:trigger s.checks[i]} :: 0 <= i < |s.checks| ==> s.checks[i].attempt == s.attempts[i] && Run(i, s.attempts[i]) in past.started)
  }

  /** The recorded HEAD was confirmed after a recorded success, always before the next recipe. */
  ghost predicate ConfirmsKept(s: State, past: Past, heads: Heads, now: nat)
    requires StateKept(s)
  {
    && (forall i {:trigger past.confirmed[i]} :: i in past.confirmed ==> i < |s.checks| && Confirms(past.confirmed[i], i, s, past, heads, now))
    && (forall run, i: nat {:trigger run in past.started, i in past.confirmed} :: run in past.started && i < run.index ==> i in past.confirmed)
  }

  /** A summary repeats the recorded checks; "passed" means every recipe succeeded and was confirmed. */
  ghost predicate SummaryKept(summary: Summary, s: State, past: Past) {
    && summary.head == s.head && summary.recipes == s.recipes && summary.checks == s.checks
    && !summary.status.Starting? && !summary.status.Running?
    && (summary.status.Passed? ==> |summary.checks| == |RECIPES| && AllSucceeded(summary.checks) && AllConfirmed(s, past))
  }

  /** What every run keeps of the two files. */
  ghost predicate FilesKept(state: Option<State>, summary: Option<Summary>, past: Past, heads: Heads, now: nat) {
    && (state.None? ==> summary.None? && past == Past(map[], {}, map[]))
    && (state.Some? ==> StateKept(state.value) && RunKept(state.value, past, heads, now))
    && (summary.Some? ==> SummaryKept(summary.value, state.value, past))
    // Without a summary the run is open, unless the start itself failed and nothing was run.
    && (state.Some? && summary.None? && past.started != map[] ==> state.value.status.Starting? || state.value.status.Running?)
  }

  // ----- how a run that nothing cuts short ends

  /** How a run is closed after a recipe, a successful one by the HEAD having moved. */
  function Closing(verdict: Verdict): Status {
    match verdict
    case Success => HeadChanged
    case Failure => Failed
    case TimedOut => Expired
  }

  /** What a turn leads to: the next one, the end of the run, or a kill during its recipe at this moment. */
  datatype Turn = Goes | Closes(status: Status) | Dies(at: nat)

  /** How the turn begun at t ends. */
  function TurnEnds(head: Sha, heads: Heads, recipes: Recipes, t: nat): Turn {
    if HeadAt(heads, t) != Some(head) then Closes(HeadChanged)
    else
      match RecipeAt(recipes, t + 2)
      case Ended(verdict) => if verdict.Success? && HeadAt(heads, t + 4) == Some(head) then Goes else Closes(Closing(verdict))
      case Broke => Closes(InternalError)
      case KilledMeanwhile => Dies(t + 2)
  }

  /** How these turns, begun at t, end: as the first one that does not go on, otherwise passed. */
  function RunEnds(head: Sha, heads: Heads, recipes: Recipes, t: nat, turns: nat): Turn
    decreases turns
  {
    if turns == 0 then Closes(Passed)
    else
      var turn := TurnEnds(head, heads, recipes, t);
      if turn.Goes? then RunEnds(head, heads, recipes, t + 5, turns - 1) else turn
  }

  /** On one HEAD, with every recipe succeeding, the run passes. */
  lemma {:induction false} AllSucceedPasses(head: Sha, heads: Heads, recipes: Recipes, t: nat, turns: nat)
    requires forall u :: t <= u < t + 5 * turns ==> HeadAt(heads, u) == Some(head) && RecipeAt(recipes, u) == Ended(Success)
    ensures RunEnds(head, heads, recipes, t, turns) == Closes(Passed)
    decreases turns
  {
    if turns > 0 {
      assert HeadAt(heads, t) == HeadAt(heads, t + 4) == Some(head);
      AllSucceedPasses(head, heads, recipes, t + 5, turns - 1);
    }
  }

  /** If only the recipe of turn k is killed, the run dies there. */
  lemma {:induction false} KilledDies(head: Sha, heads: Heads, recipes: Recipes, t: nat, turns: nat, k: nat)
    requires k < turns && RecipeAt(recipes, t + 5 * k + 2).KilledMeanwhile?
    requires forall u :: t <= u <= t + 5 * k ==> HeadAt(heads, u) == Some(head) && RecipeAt(recipes, u) == Ended(Success)
    ensures RunEnds(head, heads, recipes, t, turns) == Dies(t + 5 * k + 2)
    decreases turns
  {
    assert HeadAt(heads, t) == Some(head);
    if k > 0 {
      assert HeadAt(heads, t + 4) == Some(head) && RecipeAt(recipes, t + 2) == Ended(Success);
      KilledDies(head, heads, recipes, t + 5, turns - 1, k - 1);
    }
  }

  // ----- the supervisor

  predicate Lands(fate: WriteFate) {
    fate.Written? || fate.KilledAfter? || fate.RaisesAfter?
  }

  datatype Life = Alive | Raised | Dead

  function LifeOf(fate: RecipeFate): Life {
    match fate
    case Ended(_) => Alive
    case Broke => Raised
    case KilledMeanwhile => Dead
  }

  function LifeAfter(fate: WriteFate): Life {
    match fate
    case Written => Alive
    case KilledBefore | KilledAfter => Dead
    case RaisesBefore | RaisesAfter => Raised
  }

  /** The life of the supervisor after these steps, the writes and recipes of `log` behind `before`; nothing follows one that fails. */
  ghost predicate Went(before: seq<Life>, log: seq<Life>, life: Life) {
    && before <= log
    && (life.Alive? ==> forall k :: |before| <= k < |log| ==> log[k].Alive?)
    && (!life.Alive? ==> |before| < |log| && log[|log| - 1] == life && forall k :: |before| <= k < |log| - 1 ==> log[k].Alive?)
  }

  /** Nothing is done after a kill. */
  ghost predicate KillsLast(before: seq<Life>, log: seq<Life>) {
    before <= log && forall k :: |before| <= k < |log| - 1 ==> !log[k].Dead?
  }

  ghost predicate AllWell(before: seq<Life>, log: seq<Life>) {
    forall k :: |before| <= k < |log| ==> log[k].Alive?
  }

  /** One step raised an exception, and all the others were well. */
  ghost predicate OneRaised(before: seq<Life>, log: seq<Life>) {
    exists k :: |before| <= k < |log| && log[k].Raised? && forall j :: |before| <= j < |log| && j != k ==> log[j].Alive?
  }

  class Supervisor {
    var state: Option<State>
    var summary: Option<Summary>
    var tick: nat
    const writes: Writes
    const recipes: Recipes
    const heads: Heads
    ghost var past: Past
    ghost var log: seq<Life>

    ghost predicate Valid()
      reads this
    {
      FilesKept(state, summary, past, heads, tick) && (state.Some? ==> Truthful(state.value, past, recipes))
    }

    /** Ready for the next turn. */
    ghost predicate Ready()
      reads this
    {
      && Valid() && state.Some? && summary.None?
      && AllSucceeded(state.value.checks) && AllConfirmed(state.value, past)
    }

    /** From now on no write fails and nobody kills the supervisor at one. */
    ghost predicate Calm(now: nat) {
      forall t: nat {:trigger WriteAt(writes, t)} :: now <= t ==> WriteAt(writes, t).Written?
    }

    /** A calm run closed with this status in both files. */
    ghost predicate Closed(status: Status)
      reads this
    {
      state.Some? && summary.Some? && state.value.status == summary.value.status == status
    }

    /** A run killed during a recipe: its state is open, without a summary or a failure. */
    ghost predicate Died(head: Sha, at: nat)
      reads this
    {
      && state.Some? && summary.None? && state.value.head == head && state.value.status.Running?
      && AllSucceeded(state.value.checks) && past.started != map[] && tick == at + 1
    }

    /** What a calm run of the remaining turns, begun at `start`, leaves in the files. */
    ghost predicate RunEnded(head: Sha, start: nat, turns: nat)
      reads this
    {
      match RunEnds(head, heads, recipes, start, turns)
      case Goes => false
      case Closes(status) => Closed(status)
      case Dies(at) => Died(head, at)
    }

    constructor (writes: Writes, recipes: Recipes, heads: Heads)
      ensures Valid() && state == None && summary == None
      ensures this.writes == writes && this.recipes == recipes && this.heads == heads
    {
      this.writes, this.recipes, this.heads := writes, recipes, heads;
      state, summary, tick, past, log := None, None, 0, Past(map[], {}, map[]), [];
    }

    method Next() returns (now: nat)
      requires Valid()
      modifies `tick
      ensures now == old(tick) && tick == now + 1 && Valid()
      ensures old(Ready()) ==> Ready()
    {
      Ticking(state, summary, past, heads, tick);
      now := tick;
      tick := tick + 1;
    }

    /** The fate of a durable write at this moment. */
    method NextWrite() returns (lands: bool, life: Life)
      requires Valid()
      modifies `tick, `log
      ensures Valid() && tick == old(tick) + 1 && log == old(log) + [life] && Went(old(log), log, life)
      ensures var fate := WriteAt(writes, old(tick));
              && (lands <==> fate.Written? || fate.KilledAfter? || fate.RaisesAfter?)
              && (life.Alive? <==> fate.Written?) && (life.Raised? <==> fate.RaisesBefore? || fate.RaisesAfter?)
    {
      var now := Next();
      var fate := WriteAt(writes, now);
      lands, life := Lands(fate), LifeAfter(fate);
      log := log + [life];
    }

    /** `_write_state`. */
    method WriteState(s: State) returns (life: Life)
      requires Valid() && FilesKept(Some(s), summary, past, heads, tick) && Truthful(s, past, recipes)
      modifies `state, `tick, `log
      ensures Valid() && tick == old(tick) + 1 && log == old(log) + [life] && Went(old(log), log, life)
      ensures state == (if WriteAt(writes, old(tick)) in {Written, KilledAfter, RaisesAfter} then Some(s) else old(state))
      ensures life.Alive? <==> WriteAt(writes, old(tick)).Written?
    {
      Ticking(Some(s), summary, past, heads, tick);
      var lands;
      lands, life := NextWrite();
      if lands {
        state := Some(s);
      }
    }

    /** The first write of `_write_summary`. */
    method WriteSummaryFile(written: Summary) returns (life: Life)
      requires Valid() && state.Some? && SummaryKept(written, state.value, past)
      modifies `summary, `tick, `log
      ensures Valid() && tick == old(tick) + 1 && log == old(log) + [life] && Went(old(log), log, life)
      ensures summary == (if WriteAt(writes, old(tick)) in {Written, KilledAfter, RaisesAfter} then Some(written) else old(summary))
      ensures life.Alive? <==> WriteAt(writes, old(tick)).Written?
    {
      var lands;
      lands, life := NextWrite();
      if lands {
        summary := Some(written);
      }
    }

    /** `_write_summary`: the summary, then the state that points at it. */
    method WriteSummary(s: State, status: Status) returns (life: Life)
      requires Valid() && StateKept(s) && RunKept(s, past, heads, tick) && !status.Starting? && !status.Running?
      requires state.Some? && s.head == state.value.head && s.checks == state.value.checks && Truthful(s, past, recipes)
      requires status.Passed? ==> |s.checks| == |RECIPES| && AllSucceeded(s.checks) && AllConfirmed(s, past)
      modifies `state, `summary, `tick, `log
      ensures Valid() && state.Some? && state.value.head == s.head && old(tick) <= tick
      ensures life.Alive? ==>
        summary == Some(Summary(status, s.head, s.recipes, s.checks)) && state == Some(s.(status := status, active := None))
      ensures Calm(old(tick)) ==> life.Alive?
      ensures Went(old(log), log, life)
    {
      Later(s, past, heads, tick, tick + 1);
      life := WriteSummaryFile(Summary(status, s.head, s.recipes, s.checks));
      if life.Alive? {
        ClosedIsKept(s, status, past, heads, tick);
        life := WriteState(s.(status := status, active := None));
      }
    }

    /** The exception handler: what was written last, closed as an internal error. */
    method CloseAfterException()
      requires Valid() && state.Some?
      modifies `state, `summary, `tick, `log
      ensures Valid() && state.Some? && state.value.head == old(state).value.head && old(tick) <= tick
      ensures Calm(old(tick)) ==> Closed(InternalError)
      ensures KillsLast(old(log), log) && (AllWell(old(log), log) ==> Closed(InternalError))
    {
      var s := state.value.(active := None);
      Restated(state.value, s, past, heads, tick);
      var _ := WriteSummary(s, InternalError);
    }

    /** `_git_head`. */
    method AskHead() returns (answer: Option<Sha>)
      requires Valid()
      modifies `tick
      ensures answer == HeadAt(heads, old(tick)) && tick == old(tick) + 1 && Valid()
      ensures old(Ready()) ==> Ready()
    {
      var now := Next();
      return HeadAt(heads, now);
    }

    /** The recipe of the recorded attempt has just ended. */
    ghost predicate JustRan(index: nat)
      reads this
    {
      && Ready() && index == |state.value.checks| < |RECIPES|
      && var run := Run(index, state.value.attempts[index]);
      run in past.started && tick == past.started[run] + 1
    }

    /**
     * `_execute_recipe`: started only for the next recipe, with a fresh attempt number, no failure
     * recorded, every recorded success confirmed, and git having just answered with the recorded HEAD.
     */
    method Execute(index: nat, attempt: nat) returns (fate: RecipeFate)
      requires Ready() && index == |state.value.checks| < |RECIPES| && attempt == state.value.attempts[index] >= 1
      requires Run(index, attempt) !in past.started && state.value.status.Running?
      requires tick >= 2 && HeadAt(heads, tick - 2) == Some(state.value.head)
      modifies `tick, `past, `log
      ensures JustRan(index) && tick == old(tick) + 1 && fate == RecipeAt(recipes, old(tick))
      ensures past == old(past).(started := old(past).started[Run(index, attempt) := old(tick)])
      ensures log == old(log) + [LifeOf(fate)]
    {
      Started(state.value, Run(index, attempt), past, heads, tick);
      past := past.(started := past.started[Run(index, attempt) := tick]);
      fate := RecipeAt(recipes, tick);
      tick := tick + 1;
      log := log + [LifeOf(fate)];
    }

    /** Git's answer is compared with the recorded HEAD; a run on another HEAD is closed. */
    method HeadHolds() returns (life: Life, same: bool)
      requires Valid() && state.Some?
      modifies `state, `summary, `tick, `log
      ensures Valid() && state.Some? && state.value.head == old(state).value.head && old(tick) <= tick
      ensures same <==> HeadAt(heads, old(tick)) == Some(state.value.head)
      ensures same ==> life.Alive? && state == old(state) && summary == old(summary) && tick == old(tick) + 1
      ensures Calm(old(tick)) ==> life.Alive?
      ensures Calm(old(tick)) && !same ==> Closed(HeadChanged)
      ensures Went(old(log), log, life)
    {
      var s := state.value;
      var answer := AskHead();
      if answer == Some(s.head) {
        return Alive, true;
      }
      life := WriteSummary(s, HeadChanged);
      return life, false;
    }

    /** The next attempt is written down. */
    method WriteAttempt(index: nat) returns (life: Life)
      requires Ready() && index == |state.value.checks| < |RECIPES|
      modifies `state, `tick, `log
      ensures Valid() && state.Some? && state.value.head == old(state).value.head && tick == old(tick) + 1
      ensures life.Alive? ==>
        Ready() && state.value.checks == old(state).value.checks
        && state.value.attempts[index] >= 1 && Run(index, state.value.attempts[index]) !in past.started
        && state.value.status.Running?
      ensures Calm(old(tick)) ==> life.Alive?
      ensures Went(old(log), log, life)
    {
      var s := state.value;
      var attempt := s.attempts[index] + 1;
      var trying := s.(attempts := s.attempts[index := attempt], active := Some(Active(index, RECIPES[index], attempt)), status := Running);
      Trying(s, trying, index, past, heads, tick);
      life := WriteState(trying);
    }

    /** Its success has just been recorded, and the HEAD is still to be asked for. */
    ghost predicate JustRecorded(index: nat)
      reads this
    {
      && Valid() && state.Some? && summary.None? && AllSucceeded(state.value.checks)
      && |state.value.checks| == index + 1 && (forall i :: 0 <= i < index ==> i in past.confirmed)
      && (forall run {:trigger run in past.started} :: run in past.started ==> run.index <= index)
      && var run := Run(index, state.value.attempts[index]);
      run in past.started && tick == past.started[run] + 2
    }

    /** The result of an ended recipe is written down. */
    method WriteCheck(index: nat, verdict: Verdict) returns (life: Life)
      requires JustRan(index) && RecipeAt(recipes, tick - 1) == Ended(verdict)
      modifies `state, `tick, `log
      ensures Valid() && state.Some? && state.value.head == old(state).value.head
      ensures life.Alive? && verdict.Success? ==> JustRecorded(index)
      ensures tick == old(tick) + 1
      ensures life.Alive? ==>
        state.value.checks == old(state).value.checks
                              + [Check(index, RECIPES[index], state.value.head, verdict, old(state).value.attempts[index])]
      ensures Calm(old(tick)) ==> life.Alive?
      ensures Went(old(log), log, life)
    {
      var s := state.value;
      var done := s.(active := None, nextIndex := index + 1,
        checks := s.checks + [Check(index, RECIPES[index], s.head, verdict, s.attempts[index])]);
      Recording(s, done, index, past, heads, tick);
      life := WriteState(done);
    }

    /** The HEAD after a recorded success, which confirms it. */
    method HeadConfirms(index: nat) returns (life: Life, same: bool)
      requires JustRecorded(index)
      modifies `state, `summary, `tick, `past, `log
      ensures Valid() && state.Some? && state.value.head == old(state).value.head && old(tick) <= tick
      ensures same <==> HeadAt(heads, old(tick)) == Some(state.value.head)
      ensures same ==> life.Alive? && Ready() && tick == old(tick) + 1 && |state.value.checks| == index + 1
      ensures Calm(old(tick)) ==> life.Alive?
      ensures Calm(old(tick)) && !same ==> Closed(HeadChanged)
      ensures Went(old(log), log, life)
    {
      life, same := HeadHolds();
      if same {
        Confirming(state.value, index, tick - 1, past, heads, tick);
        past := past.(confirmed := past.confirmed[index := tick - 1]);
      }
    }

    /** The record of an ended recipe, what an unsuccessful one ends with, and the HEAD afterwards. */
    method Record(index: nat, verdict: Verdict) returns (life: Life, again: bool)
      requires JustRan(index) && RecipeAt(recipes, tick - 1) == Ended(verdict)
      modifies `state, `summary, `tick, `past, `log
      ensures Valid() && state.Some? && state.value.head == old(state).value.head && old(tick) <= tick
      ensures life.Alive? && again ==> Ready() && tick == old(tick) + 2 && |state.value.checks| == index + 1
      ensures again ==> verdict.Success? && HeadAt(heads, old(tick) + 1) == Some(state.value.head)
      ensures Calm(old(tick)) ==> life.Alive?
      ensures Calm(old(tick)) && !again ==> Closed(Closing(verdict))
      ensures Calm(old(tick)) && !again && verdict.Success? ==> HeadAt(heads, old(tick) + 1) != Some(state.value.head)
      ensures Went(old(log), log, life)
    {
      life := WriteCheck(index, verdict);
      if !life.Alive? {
        return life, false;
      }
      if verdict.Success? {
        life, again := HeadConfirms(index);
      } else {
        life := WriteSummary(state.value, if verdict.TimedOut? then Expired else Failed);
        return life, false;
      }
    }

    /** The first half of a turn: the HEAD, the attempt, the recipe. */
    method Attempt(index: nat) returns (life: Life, fate: Option<RecipeFate>)
      requires Ready() && index == |state.value.checks| < |RECIPES|
      modifies `state, `summary, `tick, `past, `log
      ensures Valid() && state.Some? && state.value.head == old(state).value.head && old(tick) <= tick
      ensures fate.Some? ==>
        && life.Alive? && JustRan(index) && tick == old(tick) + 3 && fate.value == RecipeAt(recipes, old(tick) + 2)
        && HeadAt(heads, old(tick)) == Some(state.value.head) && state.value.status.Running?
      ensures Calm(old(tick)) ==> life.Alive? && (fate.None? <==> HeadAt(heads, old(tick)) != Some(state.value.head))
      ensures Calm(old(tick)) && fate.None? ==> Closed(HeadChanged)
      ensures Went(old(log), log, if fate.Some? then LifeOf(fate.value) else life)
    {
      var same;
      life, same := HeadHolds();
      if !same {
        return life, None;
      }
      life := WriteAttempt(index);
      if !life.Alive? {
        return life, None;
      }
      var ended := Execute(index, state.value.attempts[index]);
      return Alive, Some(ended);
    }

    /** One turn of the loop: the HEAD, the attempt, the recipe, its record, the HEAD again. */
    method RunNext() returns (life: Life, again: bool)
      requires Ready() && |state.value.checks| < |RECIPES|
      modifies `state, `summary, `tick, `past, `log
      ensures Valid() && state.Some? && state.value.head == old(state).value.head && old(tick) <= tick
      ensures life.Alive? && again ==>
        Ready() && tick == old(tick) + 5 && |state.value.checks| == |old(state).value.checks| + 1
      ensures Calm(old(tick)) ==> TurnIs(life, again, TurnEnds(state.value.head, heads, recipes, old(tick)))
      ensures Went(old(log), log, life)
    {
      var index, fate := state.value.nextIndex, None;
      life, fate := Attempt(index);
      if fate.None? {
        return life, false;
      }
      match fate.value {
        case Broke => return Raised, false;
        case KilledMeanwhile => return Dead, false;
        case Ended(verdict) => life, again := Record(index, verdict);
      }
    }

    /** What a calm turn leaves: nothing yet, a closed run, an exception for the handler, or a killed run. */
    ghost predicate TurnIs(life: Life, again: bool, ends: Turn)
      reads this
    {
      match ends
      case Goes => life.Alive? && again
      case Closes(status) => !again && ((life.Alive? && Closed(status)) || (life.Raised? && status.InternalError?))
      case Dies(at) => !again && life.Dead? && state.Some? && Died(state.value.head, at)
    }

    /** An exception in a turn, caught. */
    method CatchTurn() returns (again: bool)
      requires Ready() && |state.value.checks| < |RECIPES|
      modifies `state, `summary, `tick, `past, `log
      ensures Valid() && state.Some? && state.value.head == old(state).value.head && old(tick) <= tick
      ensures again ==> Ready() && tick == old(tick) + 5 && |state.value.checks| == |old(state).value.checks| + 1
      ensures Calm(old(tick)) ==>
        var ends := TurnEnds(state.value.head, heads, recipes, old(tick));
        (again <==> ends.Goes?) && (ends.Closes? ==> Closed(ends.status)) && (ends.Dies? ==> Died(state.value.head, ends.at))
      ensures if again then Went(old(log), log, Alive) else Handled(old(log))
    {
      var life;
      life, again := RunNext();
      again := again && life.Alive?;
      if life.Raised? {
        CloseAfterException();
      }
    }

    /** Nothing was done after a kill, and a single exception has closed the run as an internal error. */
    ghost predicate Handled(before: seq<Life>)
      reads this
    {
      KillsLast(before, log) && (OneRaised(before, log) ==> Closed(InternalError))
    }

    /** `_run_checks`. */
    method RunChecks()
      requires Ready()
      modifies `state, `summary, `tick, `past, `log
      ensures Valid() && state.Some? && Handled(old(log))
      ensures Calm(old(tick)) ==> RunEnded(old(state).value.head, old(tick), |RECIPES| - |old(state).value.checks|)
    {
      ghost var head, start, turns := state.value.head, tick, |RECIPES| - |state.value.checks|;
      while |state.value.checks| < |RECIPES|
        invariant Ready() && state.value.head == head && start <= tick && |state.value.checks| <= |RECIPES|
        invariant Went(old(log), log, Alive)
        invariant Calm(start) ==>
          RunEnds(head, heads, recipes, start, turns) == RunEnds(head, heads, recipes, tick, |RECIPES| - |state.value.checks|)
        decreases |RECIPES| - |state.value.checks|
      {
        ghost var turn := TurnEnds(head, heads, recipes, tick);
        assert RunEnds(head, heads, recipes, tick, |RECIPES| - |state.value.checks|)
            == if turn.Goes? then RunEnds(head, heads, recipes, tick + 5, |RECIPES| - |state.value.checks| - 1) else turn;
        var again := CatchTurn();
        if !again {
          return;
        }
      }
      var life := WriteSummary(state.value, Passed);
      if life.Raised? {
        CloseAfterException();
      }
    }

    /** `_worker_main`: register, then run. */
    method Work()
      requires Ready()
      modifies `state, `summary, `tick, `past, `log
      ensures Valid() && state.Some?
      ensures Calm(old(tick)) ==> RunEnded(old(state).value.head, old(tick) + 1, |RECIPES| - |old(state).value.checks|)
      ensures Handled(old(log))
    {
      var s := state.value.(status := Running, active := None);
      Restated(state.value, s, past, heads, tick);
      var life := WriteState(s);
      match life
      case Alive => RunChecks();
      case Raised => CloseAfterException();
      case Dead =>
    }

    /** The exception handler of `start_run`: a state that was written is closed as an internal error. */
    method CloseStart()
      requires Valid() && (state.Some? ==> state.value.active.None?) && past.started == map[]
      modifies `state, `summary, `tick, `log
      ensures Valid()
      ensures KillsLast(old(log), log)
      ensures AllWell(old(log), log) ==> if old(state).None? then state.None? else Closed(InternalError)
    {
      if state.Some? {
        var failed := state.value.(status := InternalError);
        Restated(state.value, failed, past, heads, tick);
        var life := WriteState(failed);
        if life.Alive? {
          life := WriteSummary(failed, InternalError);
        }
      }
    }

    /** The lock owner is written and the worker started; a start that fails there is closed. */
    method Launch()
      requires Ready() && state.value.active.None? && past.started == map[]
      modifies `state, `summary, `tick, `past, `log
      ensures Valid() && Handled(old(log))
      ensures Calm(old(tick)) ==> RunEnded(old(state).value.head, old(tick) + 2, |RECIPES| - |old(state).value.checks|)
    {
      var _, life := NextWrite();
      match life
      case Alive => Work();
      case Raised => CloseStart();
      case Dead =>
    }

    /** `start_run` on a fresh directory, and the worker it launches. */
    method Start()
      requires Valid() && state.None?
      modifies `state, `summary, `tick, `past, `log
      ensures Valid()
      ensures Calm(old(tick)) && HeadAt(heads, old(tick)).None? ==> state.None?
      ensures Calm(old(tick)) && HeadAt(heads, old(tick)).Some? ==> RunEnded(HeadAt(heads, old(tick)).value, old(tick) + 4, |RECIPES|)
      ensures KillsLast(old(log), log) && (OneRaised(old(log), log) ==> state.None? || Closed(InternalError))
    {
      var answer := AskHead();
      match answer
      case None =>
      case Some(head) =>
        var initial := State(head, RECIPES, Starting, 0, [], seq(|RECIPES|, _ => 0), None, 0);
        var life := WriteState(initial);
        if life.Raised? {
          CloseStart();
        }
        if !life.Alive? {
          return;
        }
        Launch();
    }

    /** `_resume_reasons`: whether nothing stands in the way of resuming. */
    method NothingBlocks(s: State, head: Option<Sha>) returns (ok: bool)
      requires StateKept(s)
      ensures ok <==> head == Some(s.head) && AllSucceeded(s.checks) && (s.status.Starting? || s.status.Running?)
    {
      if s.recipes != RECIPES || head != Some(s.head) || s.nextIndex != |s.checks| || Terminal(s.status) {
        return false;
      }
      for index := 0 to |s.checks|
        invariant forall i :: 0 <= i < index ==> s.checks[i].verdict.Success?
      {
        assert CheckValid(s, index);
        var check := s.checks[index];
        if !check.verdict.Success? || check.recipe != RECIPES[index] || check.head != s.head {
          return false;
        }
      }
      return true;
    }

    /** Whether a resume would go on with the files as they are, by git's answer at `now`. */
    ghost predicate Resumable(now: nat)
      reads this
    {
      && state.Some? && summary.None? && HeadAt(heads, now) == Some(state.value.head)
      && AllSucceeded(state.value.checks) && (state.value.status.Starting? || state.value.status.Running?)
    }

    /** Some recipe was started, there is no summary, and no failure is recorded: the run was cut short. */
    ghost predicate CutShort()
      reads this
    {
      && state.Some? && summary.None? && past.started != map[]
      && forall i :: 0 <= i < |state.value.checks| ==> state.value.checks[i].verdict.Success?
    }

    /** The reasons against resuming are looked for, on git's answer. */
    method MayResume() returns (free: bool)
      requires Valid() && state.Some? && summary.None?
      modifies `tick
      ensures Valid() && tick == old(tick) + 1 && (free <==> old(Resumable(tick)))
    {
      var answer := AskHead();
      free := NothingBlocks(state.value, answer);
    }

    /** The resume is written down; git's answer a moment ago confirms what is recorded. */
    method WriteResumed() returns (life: Life)
      requires tick >= 1 && Valid() && Resumable(tick - 1)
      requires forall run :: run in past.started ==> past.started[run] < tick - 1
      modifies `state, `tick, `past, `log
      ensures Valid() && state.Some? && tick == old(tick) + 1
      ensures state.value.head == old(state).value.head && state.value.checks == old(state).value.checks
      ensures life.Alive? ==> Ready()
      ensures Calm(old(tick)) ==> life.Alive?
      ensures Went(old(log), log, life)
    {
      ContinuedKeeps(state.value, tick - 1, past, heads, tick);
      past := Continued(state.value, tick - 1, past);
      var s := state.value.(status := Starting, active := None, resumes := state.value.resumes + 1);
      Restated(state.value, s, past, heads, tick);
      life := WriteState(s);
    }

    /** The resume proper, on the files as found under the lock. */
    method Continue()
      requires tick >= 1 && Valid() && Resumable(tick - 1)
      requires forall run :: run in past.started ==> past.started[run] < tick - 1
      modifies `state, `summary, `tick, `past, `log
      ensures Valid() && state.Some?
      ensures Calm(old(tick)) ==> RunEnded(old(state).value.head, old(tick) + 3, |RECIPES| - |old(state).value.checks|)
      ensures KillsLast(old(log), log)
    {
      var life := WriteResumed();
      if life.Alive? {
        var _, launched := NextWrite();
        if launched.Alive? { // the lock owner was written and the worker started
          Work();
        }
      }
    }

    /**
     * `resume_run`, with `processes` telling whether the old supervisor or its recipe still live.
     * The reasons are looked for twice, before and under the repository lock.
     */
    method Resume(processes: bool) returns (resumed: bool)
      requires Valid()
      modifies `state, `summary, `tick, `past, `log
      ensures Valid()
      ensures resumed <==> !processes && old(Resumable(tick)) && old(Resumable(tick + 1))
      ensures old(CutShort()) && !processes && HeadAt(heads, old(tick)) == HeadAt(heads, old(tick) + 1) == Some(old(state).value.head)
        ==> resumed
      ensures !resumed ==> state == old(state) && summary == old(summary) && past == old(past)
      ensures Calm(old(tick)) && resumed ==> RunEnded(old(state).value.head, old(tick) + 5, |RECIPES| - |old(state).value.checks|)
      ensures KillsLast(old(log), log)
    {
      if state.None? || processes || summary.Some? {
        return false;
      }
      var free := MayResume();
      if !free {
        return false;
      }
      free := MayResume();
      if !free {
        return false;
      }
      Continue();
      return true;
    }

    /** `_summary_if_present`: the reader accepts every summary a run leaves behind. */
    method ReadSummary() returns (accepted: bool)
      requires Valid() && summary.Some?
      ensures accepted
    {
      var found, s := summary.value, state.value;
      if !Terminal(found.status) || found.head != s.head || found.recipes != s.recipes || found.checks != s.checks {
        return false;
      }
      return found.status.Passed? ==> |found.checks| == |RECIPES| && AllSucceeded(found.checks);
    }
  }

  /** Time passes. */
  lemma Later(s: State, past: Past, heads: Heads, now: nat, afterwards: nat)
    requires StateKept(s) && RunKept(s, past, heads, now) && now <= afterwards
    ensures RunKept(s, past, heads, afterwards)
  {
    forall i | i in past.confirmed ensures Confirms(past.confirmed[i], i, s, past, heads, afterwards) {
      assert Confirms(past.confirmed[i], i, s, past, heads, now);
    }
  }

  lemma Ticking(state: Option<State>, summary: Option<Summary>, past: Past, heads: Heads, now: nat)
    requires FilesKept(state, summary, past, heads, now)
    ensures FilesKept(state, summary, past, heads, now + 1)
  {
    if state.Some? {
      Later(state.value, past, heads, now, now + 1);
    }
  }

  /** Rewriting the status or forgetting the active command changes nothing that is kept. */
  lemma Restated(s: State, t: State, past: Past, heads: Heads, now: nat)
    requires StateKept(s) && RunKept(s, past, heads, now) && t == s.(status := t.status, active := None, resumes := t.resumes)
    ensures StateKept(t) && RunKept(t, past, heads, now)
  {
    forall i | 0 <= i < |t.checks| ensures CheckValid(t, i) {
      assert CheckValid(s, i);
    }
    forall i | i in past.confirmed ensures Confirms(past.confirmed[i], i, t, past, heads, now) {
      assert Confirms(past.confirmed[i], i, s, past, heads, now);
    }
  }

  /** The state that points at its summary. */
  lemma ClosedIsKept(s: State, status: Status, past: Past, heads: Heads, now: nat)
    requires StateKept(s) && RunKept(s, past, heads, now)
    requires SummaryKept(Summary(status, s.head, s.recipes, s.checks), s, past)
    ensures FilesKept(Some(s.(status := status, active := None)), Some(Summary(status, s.head, s.recipes, s.checks)), past, heads, now)
  {
    Restated(s, s.(status := status, active := None), past, heads, now);
  }

  lemma Trying(s: State, t: State, index: nat, past: Past, heads: Heads, now: nat)
    requires StateKept(s) && RunKept(s, past, heads, now) && AllSucceeded(s.checks) && index == |s.checks| < |RECIPES|
    requires var attempt := s.attempts[index] + 1;
             t == s.(attempts := s.attempts[index := attempt], active := Some(Active(index, RECIPES[index], attempt)), status := Running)
    ensures StateKept(t) && RunKept(t, past, heads, now) && Run(index, t.attempts[index]) !in past.started
  {
    forall i | 0 <= i < |t.checks| ensures CheckValid(t, i) {
      assert CheckValid(s, i);
    }
    forall i | i in past.confirmed ensures Confirms(past.confirmed[i], i, t, past, heads, now) {
      assert Confirms(past.confirmed[i], i, s, past, heads, now);
    }
  }

  /** A recipe started now is later than every confirmation. */
  lemma StillConfirms(c: nat, i: nat, s: State, run: Run, past: Past, heads: Heads, now: nat)
    requires i < |s.attempts| && Confirms(c, i, s, past, heads, now) && run !in past.started
    ensures Confirms(c, i, s, past.(started := past.started[run := now]), heads, now + 1)
  {
  }

  /** A recipe is started. */
  lemma Started(s: State, run: Run, past: Past, heads: Heads, now: nat)
    requires StateKept(s) && RunKept(s, past, heads, now) && AllConfirmed(s, past)
    requires AllSucceeded(s.checks) && run.index == |s.checks| < |RECIPES| && run.attempt == s.attempts[run.index] >= 1
    requires now >= 2 && HeadAt(heads, now - 2) == Some(s.head) && run !in past.started
    ensures RunKept(s, past.(started := past.started[run := now]), heads, now + 1)
  {
    StartedOnce(s, run, past, heads, now);
    StartedConfirmed(s, run, past, heads, now);
  }

  lemma StartedOnce(s: State, run: Run, past: Past, heads: Heads, now: nat)
    requires StateKept(s) && RunKept(s, past, heads, now) && AllConfirmed(s, past)
    requires AllSucceeded(s.checks) && run.index == |s.checks| < |RECIPES| && run.attempt == s.attempts[run.index] >= 1
    requires now >= 2 && HeadAt(heads, now - 2) == Some(s.head) && run !in past.started
    ensures StartsKept(s, past.(started := past.started[run := now]), heads, now + 1)
  {
    forall i | 0 <= i < |s.checks| ensures s.checks[i].attempt == s.attempts[i] && Run(i, s.attempts[i]) in past.started[run := now] {
      assert s.checks[i] == s.checks[i];
      assert Run(i, s.attempts[i]) in past.started;
    }
  }

  lemma StartedConfirmed(s: State, run: Run, past: Past, heads: Heads, now: nat)
    requires StateKept(s) && RunKept(s, past, heads, now) && AllConfirmed(s, past)
    requires AllSucceeded(s.checks) && run.index == |s.checks| < |RECIPES| && run.attempt == s.attempts[run.index] >= 1
    requires now >= 2 && HeadAt(heads, now - 2) == Some(s.head) && run !in past.started
    ensures ConfirmsKept(s, past.(started := past.started[run := now]), heads, now + 1)
  {
    var grown := past.(started := past.started[run := now]);
    forall i | i in grown.confirmed ensures i < |s.checks| && Confirms(grown.confirmed[i], i, s, grown, heads, now + 1) {
      assert past.confirmed[i] == grown.confirmed[i];
      StillConfirms(past.confirmed[i], i, s, run, past, heads, now);
    }
  }

  /** The run just ended is recorded. */
  lemma Recording(s: State, t: State, index: nat, past: Past, heads: Heads, now: nat)
    requires StateKept(s) && RunKept(s, past, heads, now) && AllSucceeded(s.checks) && index == |s.checks| < |RECIPES|
    requires Run(index, s.attempts[index]) in past.started
    requires exists verdict :: t == s.(active := None, nextIndex := index + 1,
               checks := s.checks + [Check(index, RECIPES[index], s.head, verdict, s.attempts[index])])
    ensures StateKept(t) && RunKept(t, past, heads, now)
  {
    forall i | 0 <= i < |t.checks| ensures CheckValid(t, i) {
      if i < |s.checks| {
        assert CheckValid(s, i);
      }
    }
    forall i | i in past.confirmed ensures Confirms(past.confirmed[i], i, t, past, heads, now) {
      assert Confirms(past.confirmed[i], i, s, past, heads, now);
    }
  }

  lemma SameStarts(c: nat, i: nat, s: State, past: Past, grown: Past, heads: Heads, now: nat)
    requires i < |s.attempts| && Confirms(c, i, s, past, heads, now)
    requires grown.started == past.started && past.resumed <= grown.resumed
    ensures Confirms(c, i, s, grown, heads, now)
  {
  }

  /** The HEAD after the recipe confirms the run just recorded. */
  lemma Confirming(s: State, index: nat, c: nat, past: Past, heads: Heads, now: nat)
    requires StateKept(s) && RunKept(s, past, heads, now) && index == |s.checks| - 1 && c < now
    requires HeadAt(heads, c) == Some(s.head) && Run(index, s.attempts[index]) in past.started
    requires c == past.started[Run(index, s.attempts[index])] + 2
    requires forall run :: run in past.started ==> run.index <= index
    requires forall i :: 0 <= i < index ==> i in past.confirmed
    ensures var grown := past.(confirmed := past.confirmed[index := c]);
            RunKept(s, grown, heads, now) && AllConfirmed(s, grown)
  {
    var grown := past.(confirmed := past.confirmed[index := c]);
    assert grown.started == past.started && grown.resumed == past.resumed;
    forall i | i in grown.confirmed ensures i < |s.checks| && Confirms(grown.confirmed[i], i, s, grown, heads, now) {
      if i != index {
        assert grown.confirmed[i] == past.confirmed[i];
        SameStarts(past.confirmed[i], i, s, past, grown, heads, now);
      }
    }
    forall i | 0 <= i < |s.checks| ensures i in grown.confirmed {
    }
    assert forall run, i: nat {:trigger run in grown.started, i in grown.confirmed} ::
        run in grown.started && i < run.index ==> i in grown.confirmed;
  }

  /** A resume confirms the last recorded run, if that is still to be done. */
  ghost function Continued(s: State, r: nat, past: Past): Past {
    var last := |s.checks| - 1;
    Past(past.started, past.resumed + {r},
         if last >= 0 && last !in past.confirmed then past.confirmed[last := r] else past.confirmed)
  }

  lemma ContinuedKeeps(s: State, r: nat, past: Past, heads: Heads, now: nat)
    requires StateKept(s) && RunKept(s, past, heads, now) && r < now && HeadAt(heads, r) == Some(s.head)
    requires forall run :: run in past.started ==> past.started[run] < r
    ensures RunKept(s, Continued(s, r, past), heads, now) && AllConfirmed(s, Continued(s, r, past))
  {
    var grown, last := Continued(s, r, past), |s.checks| - 1;
    forall i | 0 <= i < |s.checks| ensures i in grown.confirmed {
      assert s.checks[i] == s.checks[i];
      if i < last {
        assert s.checks[last].attempt == s.attempts[last];
        assert Run(last, s.attempts[last]) in past.started;
      }
    }
    forall i | i in grown.confirmed ensures Confirms(grown.confirmed[i], i, s, grown, heads, now) {
      if i in past.confirmed {
        SameStarts(past.confirmed[i], i, s, past, grown, heads, now);
      } else {
        assert s.checks[last].attempt == s.attempts[last];
      }
    }
  }

  /** Start, then any number of resumes, each cut short anywhere. */
  method RunWithResumes(supervisor: Supervisor, attempts: seq<bool>)
    requires supervisor.Valid() && supervisor.state.None?
    modifies supervisor
    ensures supervisor.Valid()
  {
    supervisor.Start();
    for i := 0 to |attempts|
      invariant supervisor.Valid()
    {
      var _ := supervisor.Resume(attempts[i]);
    }
  }

  /** The moments a resume can last. */
  const RESUME: nat := 5 + 5 * |RECIPES|

  ghost predicate HeadStays(heads: Heads, head: Sha, from: nat, to: nat) {
    forall t: nat {:trigger HeadAt(heads, t)} :: from <= t < to ==> HeadAt(heads, t) == Some(head)
  }

  ghost predicate RecipesSucceed(recipes: Recipes, from: nat, to: nat) {
    forall t: nat {:trigger RecipeAt(recipes, t)} :: from <= t < to ==> RecipeAt(recipes, t) == Ended(Success)
  }

  /**
   * However a run is cut short between or during recipes, a resume goes on while git answers with the
   * recorded HEAD; if no write fails and every recipe succeeds from then on, the run passes.
   */
  method ResumeCut(supervisor: Supervisor, head: Sha)
    requires supervisor.Valid() && supervisor.CutShort() && supervisor.state.value.head == head
    requires HeadStays(supervisor.heads, head, supervisor.tick, supervisor.tick + RESUME)
    requires supervisor.Calm(supervisor.tick) && RecipesSucceed(supervisor.recipes, supervisor.tick, supervisor.tick + RESUME)
    modifies supervisor
    ensures supervisor.Valid() && supervisor.Closed(Passed)
  {
    ghost var turns := |RECIPES| - |supervisor.state.value.checks|;
    AllSucceedPasses(head, supervisor.heads, supervisor.recipes, supervisor.tick + 5, turns);
    var resumed := supervisor.Resume(false);
    assert resumed;
  }

  /** A start, a kill during the recipe of turn k, and an undisturbed resume: the run passes. */
  method StartKilledResumed(supervisor: Supervisor, head: Sha, k: nat)
    requires supervisor.Valid() && supervisor.state.None? && supervisor.Calm(supervisor.tick) && k < |RECIPES|
    requires HeadStays(supervisor.heads, head, supervisor.tick, supervisor.tick + 5 * k + 7 + RESUME)
    requires RecipeAt(supervisor.recipes, supervisor.tick + 5 * k + 6) == KilledMeanwhile
    requires RecipesSucceed(supervisor.recipes, supervisor.tick, supervisor.tick + 5 * k + 6)
    requires RecipesSucceed(supervisor.recipes, supervisor.tick + 5 * k + 7, supervisor.tick + 5 * k + 7 + RESUME)
    modifies supervisor
    ensures supervisor.Valid() && supervisor.Closed(Passed)
  {
    ghost var began := supervisor.tick;
    KilledDies(head, supervisor.heads, supervisor.recipes, began + 4, |RECIPES|, k);
    assert HeadAt(supervisor.heads, began) == Some(head);
    supervisor.Start();
    assert supervisor.Died(head, began + 5 * k + 6);
    ResumeCut(supervisor, head);
  }

  /**
   * A "passed" summary, after any such run: every recipe has one recorded, successful check. Its run
   * took place, was the recipe's last, and began when git had just answered with the recorded HEAD.
   * At `c`, after it and before any later recipe, git answered so again, in the same turn or at the
   * resume that continued the run.
   */
  lemma PassedMeans(supervisor: Supervisor, i: nat) returns (c: nat)
    requires supervisor.Valid() && supervisor.summary.Some? && supervisor.summary.value.status.Passed? && i < |RECIPES|
    ensures supervisor.state.Some?
    ensures var checks, head, past := supervisor.summary.value.checks, supervisor.summary.value.head, supervisor.past;
            && |checks| == |RECIPES| && checks[i].recipe == RECIPES[i] && checks[i].verdict.Success? && checks[i].head == head
            && var run := Run(i, checks[i].attempt);
            && run in past.started && (forall other :: other in past.started && other.index == i ==> other.attempt <= run.attempt)
            && RecipeAt(supervisor.recipes, past.started[run]) == Ended(Success)
            && past.started[run] >= 2 && HeadAt(supervisor.heads, past.started[run] - 2) == Some(head)
            && past.started[run] < c && HeadAt(supervisor.heads, c) == Some(head)
            && (c == past.started[run] + 2 || c in past.resumed)
            && forall later :: later in past.started && later.index > i ==> c < past.started[later]
  {
    var s, past := supervisor.state.value, supervisor.past;
    assert CheckValid(s, i);
    c := past.confirmed[i];
    assert Confirms(c, i, s, past, supervisor.heads, supervisor.tick);
  }
}
