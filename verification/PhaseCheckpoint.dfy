/**
 * The phase checkpoint of one assignment
 * (tools/agent/lifecycle_checkpoints.py:17-28, 977-1232).  The writer never
 * calls the validator on what it writes; here every checkpoint it writes is
 * proved to pass.
 */
module PhaseCheckpoint {
  import opened Prelude

  type Sha = string

  datatype Phase =
    | PreflightOk | Seeded | ImplementationReady | FocusedGreen | CanonicalGreen | ReviewWritten | PrOpen | CiGreen | Merged

  function Rank(phase: Phase): nat {
    match phase
    case PreflightOk => 0
    case Seeded => 1
    case ImplementationReady => 2
    case FocusedGreen => 3
    case CanonicalGreen => 4
    case ReviewWritten => 5
    case PrOpen => 6
    case CiGreen => 7
    case Merged => 8
  }

  datatype Event = Event(phase: Phase, iteration: int, head: Sha)

  datatype Correction = Correction(iteration: int, fromPhase: Phase, phase: Phase, head: Sha)

  datatype Checkpoint = Checkpoint(
    identity: string,            // assignment, branch and repository
    head: Sha,
    phase: Phase,
    highest: Phase,
    iteration: int,
    history: seq<Event>,
    corrections: seq<Correction>,
    prNumber: Option<int>,
    prHead: Option<Sha>,
    merge: Option<Sha>)

  type ValidSha = Sha -> bool

  // ----- what the validator demands

  /** One event may follow another. */
  predicate Follows(previous: Event, event: Event) {
    && (event.iteration == previous.iteration || event.iteration == previous.iteration + 1)
    && (previous.phase.Merged? ==> event.phase.Merged?)
    && (Rank(event.phase) < Rank(previous.phase) ==> event.iteration == previous.iteration + 1)
  }

  predicate Sequential(history: seq<Event>) {
    && (history != [] ==> history[0].iteration == 0)
    && forall i :: 0 < i < |history| ==> Follows(history[i - 1], history[i])
  }

  function MaximumRank(history: seq<Event>): int {
    if history == [] then -1
    else
      var before, rank := MaximumRank(history[..|history| - 1]), Rank(history[|history| - 1].phase);
      if rank > before then rank else before
  }

  /** The corrections a history shows: one for each step to a new iteration. */
  function Corrections(history: seq<Event>): seq<Correction> {
    if |history| <= 1 then []
    else
      var previous, current := history[|history| - 2], history[|history| - 1];
      var before := Corrections(history[..|history| - 1]);
      if current.iteration == previous.iteration + 1
      then before + [Correction(|before| + 1, previous.phase, current.phase, current.head)]
      else before
  }

  /** The publication data fit the phase. */
  predicate Fits(phase: Phase, head: Sha, prNumber: Option<int>, prHead: Option<Sha>, merge: Option<Sha>, validSha: ValidSha) {
    && (prNumber.Some? ==> prNumber.value > 0)
    && (prHead.Some? ==> validSha(prHead.value))
    && (merge.Some? ==> validSha(merge.value))
    && (Rank(phase) >= Rank(PrOpen) ==> prNumber.Some? && prHead == Some(head))
    && (phase.Merged? <==> merge.Some?)
  }

  predicate Published(c: Checkpoint, validSha: ValidSha) {
    Fits(c.phase, c.head, c.prNumber, c.prHead, c.merge, validSha)
  }

  predicate HistoryValid(c: Checkpoint, validSha: ValidSha) {
    && c.history != [] && Sequential(c.history)
    && (forall i :: 0 <= i < |c.history| ==> validSha(c.history[i].head) && c.history[i].iteration >= 0)
    && Rank(c.highest) == MaximumRank(c.history)
    && c.history[|c.history| - 1] == Event(c.phase, c.iteration, c.head)
  }

  /** Everything `_validate_checkpoint` demands of the parts that are modelled. */
  predicate Valid(c: Checkpoint, validSha: ValidSha) {
    && validSha(c.head) && c.iteration >= 0
    && HistoryValid(c, validSha) && Published(c, validSha)
    && |c.corrections| == c.iteration && c.corrections == Corrections(c.history)
  }

  lemma {:induction false} IterationsCount(history: seq<Event>)
    requires history != [] && Sequential(history)
    ensures |Corrections(history)| == history[|history| - 1].iteration
  {
    if |history| > 1 {
      IterationsCount(history[..|history| - 1]);
    }
  }

  // ----- the validator

  /** One event against the one before. */
  method CheckEvent(previous: Option<Event>, event: Event, validSha: ValidSha) returns (ok: bool)
    ensures ok <==> validSha(event.head) && event.iteration >= 0
                    && if previous.Some? then Follows(previous.value, event) else event.iteration == 0
  {
    if !validSha(event.head) || event.iteration < 0 {
      return false;
    }
    match previous {
      case None => return event.iteration == 0;
      case Some(before) =>
        if event.iteration != before.iteration && event.iteration != before.iteration + 1 {
          return false;
        }
        if before.phase.Merged? && !event.phase.Merged? {
          return false;
        }
        return Rank(event.phase) >= Rank(before.phase) || event.iteration == before.iteration + 1;
    }
  }

  method CheckHistory(c: Checkpoint, validSha: ValidSha) returns (ok: bool)
    ensures ok <==> HistoryValid(c, validSha)
  {
    if c.history == [] {
      return false;
    }
    var maximum := -1;
    var previous: Option<Event> := None;
    for i := 0 to |c.history|
      invariant previous == if i == 0 then None else Some(c.history[i - 1])
      invariant maximum == MaximumRank(c.history[..i])
      invariant i > 0 ==> c.history[0].iteration == 0
      invariant forall k :: 0 < k < i ==> Follows(c.history[k - 1], c.history[k])
      invariant forall k :: 0 <= k < i ==> validSha(c.history[k].head) && c.history[k].iteration >= 0
    {
      var event := c.history[i];
      assert c.history[..i + 1][..i] == c.history[..i];
      var fits := CheckEvent(previous, event, validSha);
      if !fits {
        return false;
      }
      maximum := if Rank(event.phase) > maximum then Rank(event.phase) else maximum;
      previous := Some(event);
    }
    assert c.history[..|c.history|] == c.history;
    return Rank(c.highest) == maximum && c.history[|c.history| - 1] == Event(c.phase, c.iteration, c.head);
  }

  /** The comparison of the correction history with the steps to new iterations. */
  method CheckCorrections(c: Checkpoint) returns (ok: bool)
    requires c.history != []
    ensures ok <==> c.corrections == Corrections(c.history)
  {
    var transitions: seq<(Event, Event)> := [];
    assert c.history[..1] == [c.history[0]];
    for i := 1 to |c.history|
      invariant |transitions| == |Corrections(c.history[..i])|
      invariant forall k :: 0 <= k < |transitions| ==>
        Corrections(c.history[..i])[k] == Correction(k + 1, transitions[k].0.phase, transitions[k].1.phase, transitions[k].1.head)
    {
      assert c.history[..i + 1][..i] == c.history[..i];
      if c.history[i].iteration == c.history[i - 1].iteration + 1 {
        transitions := transitions + [(c.history[i - 1], c.history[i])];
      }
    }
    assert c.history[..|c.history|] == c.history;
    if |transitions| != |c.corrections| {
      return false;
    }
    for i := 0 to |c.corrections|
      invariant forall k :: 0 <= k < i ==> c.corrections[k] == Corrections(c.history)[k]
    {
      var (previous, current) := transitions[i];
      if c.corrections[i] != Correction(i + 1, previous.phase, current.phase, current.head) {
        assert c.corrections[i] != Corrections(c.history)[i];
        return false;
      }
    }
    return true;
  }

  /** The publication data against the phase. */
  method CheckPublished(c: Checkpoint, validSha: ValidSha) returns (ok: bool)
    ensures ok <==> Published(c, validSha)
  {
    if c.prNumber.Some? && c.prNumber.value <= 0 {
      return false;
    }
    if (c.prHead.Some? && !validSha(c.prHead.value)) || (c.merge.Some? && !validSha(c.merge.value)) {
      return false;
    }
    if Rank(c.phase) >= Rank(PrOpen) && (c.prNumber.None? || c.prHead != Some(c.head)) {
      return false;
    }
    return if c.phase.Merged? then c.merge.Some? else c.merge.None?;
  }

  /** `_validate_checkpoint`. */
  method ValidateCheckpoint(c: Checkpoint, validSha: ValidSha) returns (ok: bool)
    ensures ok <==> Valid(c, validSha)
  {
    if !validSha(c.head) || c.iteration < 0 {
      return false;
    }
    var historyOk := CheckHistory(c, validSha);
    var publishedOk := CheckPublished(c, validSha);
    if !historyOk || !publishedOk || |c.corrections| != c.iteration {
      return false;
    }
    ok := CheckCorrections(c);
  }

  // ----- the writer

  datatype Request = Request(
    identity: string,
    head: Sha,
    phase: Phase,
    correction: Option<int>,
    prNumber: Option<int>,
    prHead: Option<Sha>,
    merge: Option<Sha>)

  function Else<T>(value: Option<T>, other: Option<T>): Option<T> {
    if value.Some? then value else other
  }

  function Iteration(previous: Option<Checkpoint>, r: Request): int {
    if r.correction.Some? then r.correction.value else if previous.Some? then previous.value.iteration else 0
  }

  function PrNumber(previous: Option<Checkpoint>, r: Request): Option<int> {
    Else(r.prNumber, if previous.Some? then previous.value.prNumber else None)
  }

  function PrHead(previous: Option<Checkpoint>, r: Request): Option<Sha> {
    Else(r.prHead, if previous.Some? then previous.value.prHead else None)
  }

  /**
   * The request is a next step: its event may follow the last one, and within an iteration the head
   * changes only with a rising phase or while the implementation is being made ready.
   */
  predicate Advances(previous: Option<Checkpoint>, r: Request) {
    var iteration := Iteration(previous, r);
    match previous
    case None => iteration == 0
    case Some(c) =>
      && Follows(Event(c.phase, c.iteration, c.head), Event(r.phase, iteration, r.head))
      && (r.head != c.head && iteration == c.iteration ==>
            Rank(r.phase) > Rank(c.phase) || r.phase == c.phase == ImplementationReady)
  }

  /** The requests that are written. */
  predicate Accepted(previous: Option<Checkpoint>, r: Request, validSha: ValidSha) {
    && (previous.Some? ==> Valid(previous.value, validSha) && previous.value.identity == r.identity)
    && Advances(previous, r)
    && Fits(r.phase, r.head, PrNumber(previous, r), PrHead(previous, r), r.merge, validSha)
  }

  /** The phases in their order. */
  const PHASES: seq<Phase> :=
    [PreflightOk, Seeded, ImplementationReady, FocusedGreen, CanonicalGreen, ReviewWritten, PrOpen, CiGreen, Merged]

  predicate Earlier(p: Phase, q: Phase) {
    exists i, j :: 0 <= i < j < |PHASES| && PHASES[i] == p && PHASES[j] == q
  }

  lemma RankIsPlace(p: Phase)
    ensures Rank(p) < |PHASES| && PHASES[Rank(p)] == p
    ensures forall q :: Rank(p) < Rank(q) <==> Earlier(p, q)
  {
    assert forall q :: Rank(q) < |PHASES| && PHASES[Rank(q)] == q;
    assert forall i :: 0 <= i < |PHASES| ==> Rank(PHASES[i]) == i;
  }

  /** What is published with the phase: a number and head given before hold until others are given. */
  ghost predicate Publishes(previous: Option<Checkpoint>, r: Request, validSha: ValidSha) {
    var (oldNumber, oldHead) := match previous
      case None => (None, None)
      case Some(c) => (c.prNumber, c.prHead);
    var number := match r.prNumber
      case None => oldNumber
      case Some(n) => Some(n);
    var head := match r.prHead
      case None => oldHead
      case Some(sha) => Some(sha);
    && (number.Some? ==> number.value > 0) && (head.Some? ==> validSha(head.value))
    && (r.phase in {PrOpen, CiGreen, Merged} ==> number.Some? && head == Some(r.head))
    && if r.phase.Merged? then r.merge.Some? && validSha(r.merge.value) else r.merge.None?
  }

  lemma PublishesExactly(previous: Option<Checkpoint>, r: Request, validSha: ValidSha)
    ensures Publishes(previous, r, validSha)
            <==> Fits(r.phase, r.head, PrNumber(previous, r), PrHead(previous, r), r.merge, validSha)
  {
  }

  /** An assignment may begin with any phase, in iteration 0. */
  lemma FirstStepsExactly(r: Request, validSha: ValidSha)
    ensures Accepted(None, r, validSha) <==> r.correction in {None, Some(0)} && Publishes(None, r, validSha)
  {
  }

  /** What may follow, apart from what is published: a later phase, the same again, or any in the next iteration. */
  ghost predicate Steps(c: Checkpoint, r: Request) {
    if r.correction in {None, Some(c.iteration)}
    then Earlier(c.phase, r.phase) || (r.phase == c.phase && (r.head == c.head || c.phase.ImplementationReady?))
    else r.correction == Some(c.iteration + 1) && (c.phase.Merged? ==> r.phase.Merged?)
  }

  lemma StepsAdvance(c: Checkpoint, r: Request)
    ensures Advances(Some(c), r) <==> Steps(c, r)
  {
    RankIsPlace(c.phase);
    RankIsPlace(r.phase);
  }

  /**
   * The next steps: within an iteration to a later phase, or the same phase again on the same head or
   * while the implementation is being made ready; to the next iteration with any phase, unless merged.
   */
  lemma StepsExactly(c: Checkpoint, r: Request, validSha: ValidSha)
    requires Valid(c, validSha)
    ensures Accepted(Some(c), r, validSha) <==> r.identity == c.identity && Publishes(Some(c), r, validSha) && Steps(c, r)
  {
    PublishesExactly(Some(c), r, validSha);
    StepsAdvance(c, r);
  }

  /** One more event on a sequential history. */
  lemma HistoryGrows(history: seq<Event>, event: Event)
    requires history != [] && Sequential(history) && Follows(history[|history| - 1], event)
    ensures Sequential(history + [event])
    ensures MaximumRank(history + [event])
            == if Rank(event.phase) > MaximumRank(history) then Rank(event.phase) else MaximumRank(history)
    ensures var last := history[|history| - 1];
            Corrections(history + [event])
            == if event.iteration == last.iteration + 1
               then Corrections(history) + [Correction(event.iteration, last.phase, event.phase, event.head)]
               else Corrections(history)
  {
    assert (history + [event])[..|history|] == history;
    IterationsCount(history);
  }

  lemma FirstEvent(event: Event)
    requires event.iteration == 0
    ensures Sequential([event]) && MaximumRank([event]) == Rank(event.phase) && Corrections([event]) == []
  {
    assert [event][..0] == [];
  }

  /** A validated checkpoint's history with one event more. */
  method Extend(c: Checkpoint, event: Event, validSha: ValidSha) returns (extended: (seq<Event>, seq<Correction>, Phase))
    requires Valid(c, validSha) && validSha(event.head) && Follows(Event(c.phase, c.iteration, c.head), event)
    ensures var (events, corrections, highest) := extended;
            && events == c.history + [event] && Sequential(events) && corrections == Corrections(events)
            && Rank(highest) == MaximumRank(events)
  {
    var corrections := c.corrections;
    if event.iteration == c.iteration + 1 {
      corrections := corrections + [Correction(event.iteration, c.phase, event.phase, event.head)];
    }
    var highest := if Rank(event.phase) > Rank(c.highest) then event.phase else c.highest;
    HistoryGrows(c.history, event);
    return (c.history + [event], corrections, highest);
  }

  class CheckpointFile {
    const validSha: ValidSha
    var checkpoint: Option<Checkpoint>

    constructor (validSha: ValidSha, checkpoint: Option<Checkpoint>)
      ensures this.checkpoint == checkpoint && this.validSha == validSha
    {
      this.validSha, this.checkpoint := validSha, checkpoint;
    }

    /** The first checkpoint, or the next one after a loaded and therefore validated one. */
    method Advance(r: Request) returns (history: Option<(seq<Event>, seq<Correction>, Phase)>)
      requires validSha(r.head) && (checkpoint.Some? ==> Valid(checkpoint.value, validSha))
      ensures history.Some? <==> Advances(checkpoint, r)
      ensures history.Some? ==>
        var (events, corrections, highest) := history.value;
        && events != [] && Sequential(events) && corrections == Corrections(events)
        && (forall i :: 0 <= i < |events| ==> validSha(events[i].head) && events[i].iteration >= 0)
        && Rank(highest) == MaximumRank(events)
        && events[|events| - 1].phase == r.phase && events[|events| - 1].head == r.head
        && events[|events| - 1].iteration == Iteration(checkpoint, r)
        && events[..|events| - 1] == if checkpoint.Some? then checkpoint.value.history else []
    {
      match checkpoint
      case None =>
        var iteration := Iteration(None, r);
        if iteration != 0 {
          return None;
        }
        FirstEvent(Event(r.phase, 0, r.head));
        return Some(([Event(r.phase, 0, r.head)], [], r.phase));
      case Some(c) =>
        var iteration := Iteration(checkpoint, r);
        if iteration < 0 || iteration < c.iteration || iteration > c.iteration + 1 {
          return None;
        }
        if c.phase.Merged? && !r.phase.Merged? {
          return None;
        }
        var regression := Rank(r.phase) < Rank(c.phase);
        if regression && iteration != c.iteration + 1 {
          return None;
        }
        if r.head != c.head && Rank(r.phase) <= Rank(c.phase) && iteration == c.iteration
           && !(c.phase.ImplementationReady? && r.phase.ImplementationReady?) {
          return None;
        }
        var extended := Extend(c, Event(r.phase, iteration, r.head), validSha);
        return Some(extended);
    }

    /**
     * `write_checkpoint`.  The stored checkpoint is loaded and validated first, the new one is not;
     * yet whatever the file held, exactly the accepted requests succeed, and then the new checkpoint
     * validates and its history is the old one with one event.
     */
    method Write(r: Request) returns (ok: bool)
      requires validSha(r.head)
      modifies this`checkpoint
      ensures ok <==> Accepted(old(checkpoint), r, validSha)
      ensures !ok ==> checkpoint == old(checkpoint)
      ensures ok ==> checkpoint.Some? && Valid(checkpoint.value, validSha)
      ensures ok ==> checkpoint.value.phase == r.phase && checkpoint.value.head == r.head && checkpoint.value.identity == r.identity
      ensures ok ==> checkpoint.value.merge == r.merge
      ensures ok && r.correction.Some? ==> checkpoint.value.iteration == r.correction.value
      ensures ok && r.correction.None? ==> checkpoint.value.iteration == if old(checkpoint).Some? then old(checkpoint).value.iteration else 0
      ensures ok ==> checkpoint.value.prNumber == if r.prNumber.Some? || old(checkpoint).None? then r.prNumber else old(checkpoint).value.prNumber
      ensures ok ==> checkpoint.value.prHead == if r.prHead.Some? || old(checkpoint).None? then r.prHead else old(checkpoint).value.prHead
      ensures ok ==> var history := checkpoint.value.history;
                     history[..|history| - 1] == if old(checkpoint).Some? then old(checkpoint).value.history else []
    {
      if checkpoint.Some? {
        var valid := ValidateCheckpoint(checkpoint.value, validSha);
        if !valid || checkpoint.value.identity != r.identity {
          return false;
        }
      }
      var advanced := Advance(r);
      if advanced.None? {
        return false;
      }
      var (history, corrections, highest) := advanced.value;
      var prNumber, prHead := PrNumber(checkpoint, r), PrHead(checkpoint, r);
      if (prNumber.Some? && prNumber.value <= 0) || (prHead.Some? && !validSha(prHead.value)) {
        return false;
      }
      if Rank(r.phase) >= Rank(PrOpen) && (prNumber.None? || prHead != Some(r.head)) {
        return false;
      }
      if r.phase.Merged? {
        if r.merge.None? || !validSha(r.merge.value) {
          return false;
        }
      } else if r.merge.Some? {
        return false;
      }
      IterationsCount(history);
      var last := history[|history| - 1];
      checkpoint := Some(Checkpoint(r.identity, r.head, r.phase, highest, last.iteration, history, corrections, prNumber, prHead, r.merge));
      return true;
    }
  }

  // ----- what holds of every valid history, and so of every history the writer produces

  /** Steps to a lower phase. */
  function Regressions(history: seq<Event>): nat {
    if |history| <= 1 then 0
    else
      Regressions(history[..|history| - 1])
      + (if Rank(history[|history| - 1].phase) < Rank(history[|history| - 2].phase) then 1 else 0)
  }

  lemma {:induction false} RegressionsAreCorrected(history: seq<Event>)
    requires Sequential(history)
    ensures Regressions(history) <= |Corrections(history)|
  {
    if |history| > 1 {
      RegressionsAreCorrected(history[..|history| - 1]);
    }
  }

  lemma {:induction false} IterationsRise(history: seq<Event>, i: nat, j: nat)
    requires Sequential(history) && i <= j < |history|
    ensures history[i].iteration <= history[j].iteration
    ensures history[i].phase.Merged? ==> history[j].phase.Merged?
    ensures history[i].iteration == history[j].iteration ==> Rank(history[i].phase) <= Rank(history[j].phase)
  {
    if i < j {
      IterationsRise(history, i, j - 1);
    }
  }

  /**
   * In every checkpoint the writer stores: a phase falls between two events only if the iteration
   * rose between them, merged is final, and regressions number at most the recorded corrections.
   */
  lemma ValidHistories(c: Checkpoint, validSha: ValidSha)
    requires Valid(c, validSha)
    ensures forall i, j :: 0 <= i <= j < |c.history| && Rank(c.history[j].phase) < Rank(c.history[i].phase)
              ==> c.history[i].iteration < c.history[j].iteration
    ensures forall i, j :: 0 <= i <= j < |c.history| && c.history[i].phase.Merged? ==> c.history[j].phase.Merged?
    ensures Regressions(c.history) <= c.iteration == |c.corrections|
  {
    forall i, j | 0 <= i <= j < |c.history|
      ensures c.history[i].phase.Merged? ==> c.history[j].phase.Merged?
      ensures Rank(c.history[j].phase) < Rank(c.history[i].phase) ==> c.history[i].iteration < c.history[j].iteration
    {
      IterationsRise(c.history, i, j);
    }
    RegressionsAreCorrected(c.history);
  }
}
