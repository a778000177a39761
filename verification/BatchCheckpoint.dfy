/**
 * The durable checkpoint of a batch of tasks
 * (tools/agent/lifecycle_checkpoints.py:1258-1652): the writer edits the last
 * checkpoint, the validator replays the history before anything is stored.
 * Git answers are opaque functions.
 */
module BatchCheckpoint {
  import opened Prelude
  import Sorting

  type Sha = string

  datatype Event = Preflight | Seed | Task | Review | FinalLocal | Pr | Ci | Merge

  function Rank(event: Event): nat {
    match event
    case Preflight => 0
    case Seed => 1
    case Task => 2
    case Review => 3
    case FinalLocal => 4
    case Pr => 5
    case Ci => 6
    case Merge => 7
  }

  /** One entry of the event history; facts of tasks carry their id and correction count. */
  datatype Fact = Fact(event: Event, head: Sha, task: Option<string>, correction: int)

  datatype Done = Done(id: Option<string>, head: Sha, correction: int)

  datatype Checkpoint = Checkpoint(
    identity: string,            // batch, control commit, manifest path, branch and repository
    start: Sha,
    order: seq<string>,
    head: Sha,
    highest: Event,
    seed: Option<Sha>,
    tasks: seq<Done>,
    history: seq<Fact>,
    review: Option<Sha>,
    finalLocal: Option<Sha>,
    prNumber: Option<int>,
    prHead: Option<Sha>,
    ci: Option<Sha>,
    merge: Option<Sha>)

  /** What git says. */
  datatype Repo = Repo(commit: Sha -> bool, ancestor: (Sha, Sha) -> bool, parent: Sha -> Option<Sha>, seedVerified: Sha -> bool)

  // ----- the validator

  /** Which tasks a history completes; None when it skips, reorders or miscounts. */
  function Replay(order: seq<string>, history: seq<Fact>): Option<seq<Done>> {
    if history == [] then Some([])
    else
      match Replay(order, history[..|history| - 1])
      case None => None
      case Some(done) => ReplayFact(order, done, history[|history| - 1])
  }

  function NextId(order: seq<string>, done: seq<Done>): Option<string> {
    if |done| < |order| then Some(order[|done|]) else None
  }

  function ReplayFact(order: seq<string>, done: seq<Done>, fact: Fact): Option<seq<Done>> {
    if !fact.event.Task? then Some(done)
    else if fact.task == NextId(order, done) && fact.correction == 0 then Some(done + [Done(fact.task, fact.head, 0)])
    else if done != [] && fact.task == done[|done| - 1].id && fact.correction == done[|done| - 1].correction + 1 then
      Some(done[..|done| - 1] + [Done(fact.task, fact.head, fact.correction)])
    else None
  }

  function MaximumRank(history: seq<Fact>): int {
    if history == [] then -1
    else
      var before, rank := MaximumRank(history[..|history| - 1]), Rank(history[|history| - 1].event);
      if rank > before then rank else before
  }

  predicate InOrder(order: seq<string>, tasks: seq<Done>) {
    |tasks| <= |order| && forall i :: 0 <= i < |tasks| ==> tasks[i].id == Some(order[i])
  }

  predicate FromSeed(repo: Repo, seed: Option<Sha>, sha: Sha) {
    repo.commit(sha) && seed.Some? && repo.ancestor(seed.value, sha)
  }

  predicate TasksConsistent(c: Checkpoint, repo: Repo) {
    && c.order != [] && Sorting.Distinct(c.order)
    && (forall done :: done in c.tasks ==> done.id.Some? && done.correction >= 0 && FromSeed(repo, c.seed, done.head))
    && InOrder(c.order, c.tasks)
  }

  predicate HistoryConsistent(c: Checkpoint, repo: Repo) {
    && c.history != [] && c.history[0].event.Preflight?
    && (forall i :: 0 <= i < |c.history| ==> repo.commit(c.history[i].head))
    && (forall i :: 0 <= i < |c.history| - 1 ==> !c.history[i].event.Merge?)
    && Rank(c.highest) == MaximumRank(c.history)
    && Replay(c.order, c.history) == Some(c.tasks)
  }

  predicate EvidenceConsistent(c: Checkpoint, repo: Repo) {
    && (c.review.Some? ==> FromSeed(repo, c.seed, c.review.value) && |c.tasks| == |c.order|)
    && (c.finalLocal.Some? ==> FromSeed(repo, c.seed, c.finalLocal.value) && c.review.Some?)
    && (c.prNumber.None? <==> c.prHead.None?)
    && (c.prNumber.Some? ==> c.prNumber.value > 0 && repo.commit(c.prHead.value) && c.finalLocal.Some? && c.prHead == c.finalLocal)
    && (c.ci.Some? ==> c.prHead.Some? && c.ci == c.prHead)
    && (c.merge.Some? ==> c.ci.Some? && repo.commit(c.merge.value) && repo.ancestor(c.ci.value, c.merge.value))
  }

  /** Everything `_validate_batch_checkpoint` demands of the parts that are modelled. */
  predicate Consistent(c: Checkpoint, repo: Repo) {
    && repo.commit(c.start) && repo.commit(c.head)
    && (c.seed.Some? ==> repo.commit(c.seed.value) && repo.parent(c.seed.value) == Some(c.start))
    && TasksConsistent(c, repo) && HistoryConsistent(c, repo) && EvidenceConsistent(c, repo)
  }

  lemma {:induction false} ReplayFails(order: seq<string>, history: seq<Fact>, k: nat)
    requires k <= |history| && Replay(order, history[..k]).None?
    ensures Replay(order, history).None?
  {
    if k == |history| {
      assert history[..k] == history;
    } else {
      assert history[..|history| - 1][..k] == history[..k];
      ReplayFails(order, history[..|history| - 1], k);
    }
  }

  /** The validator's loop over the recorded tasks. */
  method CheckTasks(c: Checkpoint, repo: Repo) returns (ok: bool)
    requires c.order != [] && Sorting.Distinct(c.order)
    ensures ok <==> TasksConsistent(c, repo)
  {
    var completed: seq<Option<string>> := [];
    for i := 0 to |c.tasks|
      invariant |completed| == i && forall k :: 0 <= k < i ==> completed[k] == c.tasks[k].id
      invariant forall k :: 0 <= k < i ==>
        c.tasks[k].id.Some? && c.tasks[k].correction >= 0 && FromSeed(repo, c.seed, c.tasks[k].head)
    {
      var item := c.tasks[i];
      if !(item.id.Some? && item.correction >= 0 && FromSeed(repo, c.seed, item.head)) {
        return false;
      }
      completed := completed + [item.id];
    }
    if |completed| > |c.order| {
      return false;
    }
    for i := 0 to |completed|
      invariant forall k :: 0 <= k < i ==> c.tasks[k].id == Some(c.order[k])
    {
      if completed[i] != Some(c.order[i]) {
        return false;
      }
    }
    return true;
  }

  /** The history loop of the validator: it rebuilds what was completed and the highest event. */
  method CheckHistory(c: Checkpoint, repo: Repo) returns (ok: bool)
    ensures ok <==> HistoryConsistent(c, repo)
  {
    if c.history == [] {
      return false;
    }
    var historyTasks: seq<Done> := [];
    var maximum := -1;
    for i := 0 to |c.history|
      invariant i > 0 ==> c.history[0].event.Preflight?
      invariant forall k :: 0 <= k < i ==> repo.commit(c.history[k].head)
      invariant forall k :: 0 <= k < i - 1 ==> !c.history[k].event.Merge?
      invariant maximum == MaximumRank(c.history[..i])
      invariant Replay(c.order, c.history[..i]) == Some(historyTasks)
    {
      var item := c.history[i];
      assert c.history[..i + 1][..i] == c.history[..i];
      if !repo.commit(item.head) || (i == 0 && !item.event.Preflight?) || (i > 0 && c.history[i - 1].event.Merge?) {
        return false;
      }
      maximum := if Rank(item.event) > maximum then Rank(item.event) else maximum;
      if item.event.Task? {
        var next := if |historyTasks| < |c.order| then Some(c.order[|historyTasks|]) else None;
        if item.task == next && item.correction == 0 {
          historyTasks := historyTasks + [Done(item.task, item.head, 0)];
        } else if historyTasks != [] && item.task == historyTasks[|historyTasks| - 1].id {
          if item.correction != historyTasks[|historyTasks| - 1].correction + 1 {
            ReplayFails(c.order, c.history, i + 1);
            return false;
          }
          historyTasks := historyTasks[..|historyTasks| - 1] + [Done(item.task, item.head, item.correction)];
        } else {
          ReplayFails(c.order, c.history, i + 1);
          return false;
        }
      }
    }
    assert c.history[..|c.history|] == c.history;
    return Rank(c.highest) == maximum && historyTasks == c.tasks;
  }

  /** The commits and the order of what is recorded since the last task. */
  method CheckEvidence(c: Checkpoint, repo: Repo) returns (ok: bool)
    ensures ok <==> EvidenceConsistent(c, repo)
  {
    if c.review.Some?
       && (!repo.commit(c.review.value) || c.seed.None? || !repo.ancestor(c.seed.value, c.review.value)) {
      return false;
    }
    if c.finalLocal.Some?
       && (!repo.commit(c.finalLocal.value) || c.seed.None? || !repo.ancestor(c.seed.value, c.finalLocal.value)) {
      return false;
    }
    if (c.review.Some? && |c.tasks| != |c.order|) || (c.finalLocal.Some? && c.review.None?) {
      return false;
    }
    if c.prNumber.Some? != c.prHead.Some? {
      return false;
    }
    if c.prNumber.Some?
       && (c.prNumber.value <= 0 || !repo.commit(c.prHead.value) || c.finalLocal.None? || c.prHead != c.finalLocal) {
      return false;
    }
    if c.ci.Some? && (c.prHead.None? || c.ci != c.prHead) {
      return false;
    }
    return c.merge.None? || (c.ci.Some? && repo.commit(c.merge.value) && repo.ancestor(c.ci.value, c.merge.value));
  }

  /** `_validate_batch_checkpoint`. */
  method ValidateBatchCheckpoint(c: Checkpoint, repo: Repo) returns (ok: bool)
    ensures ok <==> Consistent(c, repo)
  {
    if !repo.commit(c.start) || !repo.commit(c.head) {
      return false;
    }
    if c.seed.Some? && (!repo.commit(c.seed.value) || repo.parent(c.seed.value) != Some(c.start)) {
      return false;
    }
    if c.order == [] || !Sorting.Distinct(c.order) {
      return false;
    }
    var tasksOk := CheckTasks(c, repo);
    if !tasksOk {
      return false;
    }
    var historyOk := CheckHistory(c, repo);
    if !historyOk {
      return false;
    }
    ok := CheckEvidence(c, repo);
  }

  // ----- the writer

  datatype Manifest = Manifest(identity: string, start: Sha, order: seq<string>)

  datatype Request = Request(
    manifest: Manifest,
    event: Event,
    head: Sha,
    clean: bool,
    onBranch: bool,              // HEAD is on the implementation branch
    seedSha: Option<Sha>,
    task: Option<string>,
    correction: Option<int>,
    prNumber: Option<int>,
    prHead: Option<Sha>,
    ciHead: Option<Sha>,
    mergeSha: Option<Sha>)

  /** `value or head`. */
  function Or(value: Option<Sha>, head: Sha): Sha {
    if value.Some? && value.value != "" then value.value else head
  }

  function Correction(r: Request): int {
    if r.correction.Some? then r.correction.value else 0
  }

  function FirstCheckpoint(r: Request): Checkpoint {
    Checkpoint(r.manifest.identity, r.manifest.start, r.manifest.order, r.head, Preflight, None, [],
               [Fact(Preflight, r.head, None, 0)], None, None, None, None, None, None)
  }

  function WithTask(c: Checkpoint, r: Request, repo: Repo): Option<Checkpoint> {
    if c.seed.None? || !r.onBranch || !repo.ancestor(c.seed.value, r.head) then None
    else if r.task == NextId(c.order, c.tasks) && Correction(r) == 0 then
      Some(c.(tasks := c.tasks + [Done(r.task, r.head, 0)]))
    else if c.tasks != [] && r.task == c.tasks[|c.tasks| - 1].id then
      var last := c.tasks[|c.tasks| - 1];
      if Correction(r) != last.correction + 1 || r.head == last.head then None
      else
        Some(c.(tasks := c.tasks[..|c.tasks| - 1] + [Done(r.task, r.head, Correction(r))],
                review := None, finalLocal := None, prNumber := None, prHead := None, ci := None, merge := None))
    else None
  }

  /** The fields an event changes; None when the writer refuses it. */
  function WithEvent(c: Checkpoint, r: Request, repo: Repo): Option<Checkpoint> {
    match r.event
    case Preflight => None
    case Seed =>
      var seed := Or(r.seedSha, r.head);
      if c.seed.Some? || !r.onBranch || !repo.seedVerified(seed) then None else Some(c.(seed := Some(seed)))
    case Task => WithTask(c, r, repo)
    case Review =>
      if |c.tasks| != |c.order| || c.review.Some? then None else Some(c.(review := Some(r.head)))
    case FinalLocal =>
      if c.review.None? || c.finalLocal.Some? then None else Some(c.(finalLocal := Some(r.head)))
    case Pr =>
      if c.finalLocal != Some(r.head) || c.prNumber.Some? || r.prNumber.None? || r.prNumber.value <= 0
         || Or(r.prHead, r.head) != r.head then None
      else Some(c.(prNumber := r.prNumber, prHead := Some(r.head), ci := None, merge := None))
    case Ci =>
      var green := Or(r.ciHead, r.head);
      if c.ci.Some? || c.prHead != Some(green) || r.head != green then None else Some(c.(ci := Some(green)))
    case Merge =>
      var merged := Or(r.mergeSha, r.head);
      // Without recorded CI the source fails on the missing key: a refusal too.
      if c.ci != c.prHead || merged != r.head || c.ci.None? || !repo.ancestor(c.ci.value, merged) then None
      else Some(c.(merge := Some(merged)))
  }

  function FactOf(r: Request): Fact {
    if r.event.Task? then Fact(r.event, r.head, r.task, Correction(r)) else Fact(r.event, r.head, None, 0)
  }

  /** The previous checkpoint with head and highest event set, before the event's own fields. */
  function Opened(c: Checkpoint, r: Request): Checkpoint {
    c.(head := r.head, highest := if Rank(r.event) > Rank(c.highest) then r.event else c.highest)
  }

  /** The payload handed to the validator. */
  function Payload(previous: Option<Checkpoint>, r: Request, repo: Repo): Option<Checkpoint> {
    if !r.clean then None
    else
      match previous
      case None => if r.event.Preflight? && r.head == r.manifest.start then Some(FirstCheckpoint(r)) else None
      case Some(c) =>
        if Manifest(c.identity, c.start, c.order) != r.manifest || c.merge.Some? || (!r.event.Merge? && !r.onBranch) then None
        else
          match WithEvent(Opened(c, r), r, repo)
          case None => None
          case Some(next) => Some(next.(history := c.history + [FactOf(r)]))
  }

  /** What the file holds after a call. */
  function Stored(previous: Option<Checkpoint>, r: Request, repo: Repo): Option<Checkpoint> {
    match Payload(previous, r, repo)
    case Some(c) => if Consistent(c, repo) then Some(c) else previous
    case None => previous
  }

  // ----- what every run keeps

  datatype Evidence = Evidence(event: Event, head: Sha)

  /** The facts after the last task (or seed, or preflight) fact. */
  function AfterTasks(history: seq<Fact>): seq<Evidence> {
    if history == [] || Rank(history[|history| - 1].event) <= Rank(Task) then []
    else
      var last := history[|history| - 1];
      AfterTasks(history[..|history| - 1]) + [Evidence(last.event, last.head)]
  }

  /** The evidence the checkpoint vouches for now. */
  function Recorded(c: Checkpoint): seq<Evidence> {
    One(Review, c.review) + One(FinalLocal, c.finalLocal) + One(Pr, c.prHead) + One(Ci, c.ci) + One(Merge, c.merge)
  }

  function One(event: Event, head: Option<Sha>): seq<Evidence> {
    match head
    case Some(sha) => [Evidence(event, sha)]
    case None => []
  }

  /** What the history says happened last before the evidence. */
  predicate TaskBeforeEvidence(c: Checkpoint) {
    var n := |AfterTasks(c.history)|;
    c.tasks != [] ==> n < |c.history| && c.history[|c.history| - n - 1].event.Task?
  }

  /** What is vouched for is exactly what the history shows since the last task fact. */
  ghost predicate Faithful(c: Checkpoint, repo: Repo) {
    Consistent(c, repo) && AfterTasks(c.history) == Recorded(c) && TaskBeforeEvidence(c)
  }

  ghost predicate FaithfulFile(file: Option<Checkpoint>, repo: Repo) {
    file.Some? ==> Faithful(file.value, repo)
  }

  lemma AfterOneMore(history: seq<Fact>, fact: Fact)
    ensures AfterTasks(history + [fact])
            == if Rank(fact.event) <= Rank(Task) then [] else AfterTasks(history) + [Evidence(fact.event, fact.head)]
  {
    assert (history + [fact])[..|history|] == history;
  }

  lemma SomeTask(tasks: seq<Done>)
    ensures tasks == [] || exists done :: done in tasks
  {
    if tasks != [] {
      assert tasks[0] in tasks;
    }
  }

  predicate Settled(c: Checkpoint, repo: Repo) {
    TasksConsistent(c, repo) && EvidenceConsistent(c, repo)
  }

  lemma NoTaskWithoutSeed(c: Checkpoint, repo: Repo)
    requires Settled(c, repo) && c.seed.None?
    ensures c.tasks == [] && Recorded(c) == []
  {
    SomeTask(c.tasks);
  }

  lemma NoEvidenceWithoutTasks(c: Checkpoint, repo: Repo)
    requires Settled(c, repo) && |c.tasks| < |c.order|
    ensures Recorded(c) == []
  {
  }

  /** An event changes the evidence as it changes the tail of the history. */
  lemma EvidenceFollows(c: Checkpoint, r: Request, repo: Repo)
    requires Settled(c, repo) && WithEvent(c, r, repo).Some? && c.merge.None?
    requires r.event.Task? ==> r.task.Some?
    ensures var next := WithEvent(c, r, repo).value;
            Recorded(next) == if Rank(r.event) <= Rank(Task) then [] else Recorded(c) + [Evidence(r.event, r.head)]
    ensures !r.event.Task? ==> WithEvent(c, r, repo).value.tasks == c.tasks
    ensures r.event.Seed? ==> c.tasks == []
  {
    match r.event
    case Seed => NoTaskWithoutSeed(c, repo);
    case Task =>
      if r.task == NextId(c.order, c.tasks) && Correction(r) == 0 {
        NoEvidenceWithoutTasks(c, repo);
      }
    case _ =>
  }

  /** A task without an identity is refused by the validator. */
  lemma TaskHasIdentity(c: Checkpoint, r: Request, repo: Repo)
    requires r.event.Task? && TasksConsistent(c, repo) && WithTask(c, r, repo).Some?
    requires TasksConsistent(WithTask(c, r, repo).value, repo)
    ensures r.task.Some?
  {
    var next := WithTask(c, r, repo).value;
    assert next.tasks[|next.tasks| - 1] in next.tasks;
  }

  lemma TaskStaysBefore(c: Checkpoint, p: Checkpoint, fact: Fact)
    requires TaskBeforeEvidence(c) && p.history == c.history + [fact]
    requires !fact.event.Task? ==> p.tasks == c.tasks
    requires Rank(fact.event) < Rank(Task) ==> c.tasks == []
    ensures TaskBeforeEvidence(p)
  {
    AfterOneMore(c.history, fact);
    if Rank(fact.event) > Rank(Task) && c.tasks != [] {
      var n := |AfterTasks(c.history)|;
      assert p.history[|p.history| - (n + 1) - 1] == c.history[|c.history| - n - 1];
    }
  }

  /** Every call keeps the file faithful. */
  lemma StoredIsFaithful(previous: Option<Checkpoint>, r: Request, repo: Repo)
    requires FaithfulFile(previous, repo)
    ensures FaithfulFile(Stored(previous, r, repo), repo)
  {
    var payload := Payload(previous, r, repo);
    if payload.Some? && Consistent(payload.value, repo) && previous.Some? {
      NextIsFaithful(previous.value, r, repo);
    }
  }

  lemma NextIsFaithful(c: Checkpoint, r: Request, repo: Repo)
    requires Faithful(c, repo) && Payload(Some(c), r, repo).Some?
    requires Consistent(Payload(Some(c), r, repo).value, repo)
    ensures Faithful(Payload(Some(c), r, repo).value, repo)
  {
    var p := Payload(Some(c), r, repo).value;
    PayloadOpens(c, r, repo);
    if r.event.Task? {
      TaskHasIdentity(Opened(c, r), r, repo);
    }
    PayloadEvidence(c, r, repo, p);
    AfterOneMore(c.history, FactOf(r));
    TaskStaysBefore(c, p, FactOf(r));
  }

  lemma PayloadOpens(c: Checkpoint, r: Request, repo: Repo)
    requires Payload(Some(c), r, repo).Some?
    ensures WithEvent(Opened(c, r), r, repo).Some? && c.merge.None?
    ensures var p, next := Payload(Some(c), r, repo).value, WithEvent(Opened(c, r), r, repo).value;
            p == next.(history := c.history + [FactOf(r)])
  {
  }

  lemma PayloadEvidence(c: Checkpoint, r: Request, repo: Repo, p: Checkpoint)
    requires Settled(c, repo) && c.merge.None? && WithEvent(Opened(c, r), r, repo).Some?
    requires p == WithEvent(Opened(c, r), r, repo).value.(history := c.history + [FactOf(r)])
    requires r.event.Task? ==> r.task.Some?
    ensures Recorded(p) == if Rank(r.event) <= Rank(Task) then [] else Recorded(c) + [Evidence(r.event, r.head)]
    ensures !r.event.Task? ==> p.tasks == c.tasks
    ensures r.event.Seed? ==> c.tasks == []
  {
    EvidenceFollows(Opened(c, r), r, repo);
  }

  /** Any sequence of calls, from an empty directory. */
  function Run(requests: seq<Request>, repo: Repo): Option<Checkpoint> {
    if requests == [] then None
    else Stored(Run(requests[..|requests| - 1], repo), requests[|requests| - 1], repo)
  }

  lemma {:induction false} RunsAreFaithful(requests: seq<Request>, repo: Repo)
    ensures FaithfulFile(Run(requests, repo), repo)
  {
    if requests != [] {
      RunsAreFaithful(requests[..|requests| - 1], repo);
      StoredIsFaithful(Run(requests[..|requests| - 1], repo), requests[|requests| - 1], repo);
    }
  }

  lemma {:induction false} AfterTasksIsSuffix(history: seq<Fact>)
    requires history != [] && history[0].event.Preflight?
    ensures var n := |AfterTasks(history)|;
            && n < |history|
            && (forall i :: 0 <= i < n ==>
                  AfterTasks(history)[i] == Evidence(history[|history| - n + i].event, history[|history| - n + i].head))
            && Rank(history[|history| - n - 1].event) <= Rank(Task)
  {
    if Rank(history[|history| - 1].event) > Rank(Task) {
      AfterTasksIsSuffix(history[..|history| - 1]);
    }
  }

  /**
   * A recorded merge: in every run the history then ends, after its last task fact, with exactly
   * review, final-local, PR, CI and merge; the final-local, PR and CI heads are one; every manifest
   * task is recorded, in order.
   */
  lemma MergedMeans(requests: seq<Request>, repo: Repo)
    requires Run(requests, repo).Some? && Run(requests, repo).value.merge.Some?
    ensures var c := Run(requests, repo).value;
            var n := |c.history|;
            && n >= 6 && c.review.Some?
            && c.history[n - 6].event.Task?
            && c.history[n - 5].event.Review? && c.history[n - 4].event.FinalLocal? && c.history[n - 3].event.Pr?
            && c.history[n - 2].event.Ci? && c.history[n - 1].event.Merge?
            && c.history[n - 4].head == c.history[n - 3].head == c.history[n - 2].head
            && c.history[n - 5].head == c.review.value && c.history[n - 1].head == c.merge.value
            && |c.tasks| == |c.order| && forall i :: 0 <= i < |c.order| ==> c.tasks[i].id == Some(c.order[i])
  {
    RunsAreFaithful(requests, repo);
    MergedEnds(Run(requests, repo).value, repo);
  }

  lemma MergedEnds(c: Checkpoint, repo: Repo)
    requires Faithful(c, repo) && c.merge.Some?
    ensures var n := |c.history|;
            && n >= 6 && c.review.Some?
            && c.history[n - 6].event.Task?
            && c.history[n - 5].event.Review? && c.history[n - 4].event.FinalLocal? && c.history[n - 3].event.Pr?
            && c.history[n - 2].event.Ci? && c.history[n - 1].event.Merge?
            && c.history[n - 4].head == c.history[n - 3].head == c.history[n - 2].head
            && c.history[n - 5].head == c.review.value && c.history[n - 1].head == c.merge.value
  {
    var recorded := AfterTasks(c.history);
    AfterTasksIsSuffix(c.history);
    assert recorded == [Evidence(Review, c.review.value), Evidence(FinalLocal, c.finalLocal.value), Evidence(Pr, c.prHead.value),
                        Evidence(Ci, c.ci.value), Evidence(Merge, c.merge.value)];
    var n := |c.history|;
    assert recorded[0] == Evidence(c.history[n - 5].event, c.history[n - 5].head);
    assert recorded[1] == Evidence(c.history[n - 4].event, c.history[n - 4].head);
    assert recorded[2] == Evidence(c.history[n - 3].event, c.history[n - 3].head);
    assert recorded[3] == Evidence(c.history[n - 2].event, c.history[n - 2].head);
    assert recorded[4] == Evidence(c.history[n - 1].event, c.history[n - 1].head);
  }

  /** No review, PR or CI evidence from before a task fact survives it. */
  lemma TaskClearsEvidence(c: Checkpoint, r: Request, repo: Repo)
    requires Faithful(c, repo) && r.event.Task? && Payload(Some(c), r, repo).Some?
    requires Consistent(Payload(Some(c), r, repo).value, repo)
    ensures var p := Payload(Some(c), r, repo).value;
            p.review.None? && p.finalLocal.None? && p.prNumber.None? && p.prHead.None? && p.ci.None? && p.merge.None?
  {
    var p := Payload(Some(c), r, repo).value;
    NextIsFaithful(c, r, repo);
    AfterOneMore(c.history, FactOf(r));
    assert Recorded(p) == [];
  }

  // ----- writer and validator agree

  lemma LastIsNotMerge(c: Checkpoint, repo: Repo)
    requires Faithful(c, repo) && c.merge.None?
    ensures !c.history[|c.history| - 1].event.Merge?
  {
    var front, last := c.history[..|c.history| - 1], c.history[|c.history| - 1];
    assert c.history == front + [last];
    AfterOneMore(front, last);
    RecordsNoMerge(c);
    assert Rank(last.event) > Rank(Task) ==> Evidence(last.event, last.head) in AfterTasks(c.history);
  }

  lemma RecordsNoMerge(c: Checkpoint)
    requires c.merge.None?
    ensures forall e :: e in Recorded(c) ==> !e.event.Merge?
  {
  }

  lemma HistoryFollows(c: Checkpoint, r: Request, repo: Repo, next: Checkpoint)
    requires Faithful(c, repo) && repo.commit(r.head)
    requires Payload(Some(c), r, repo) == Some(next)
    ensures HistoryConsistent(next, repo)
  {
    PayloadOpens(c, r, repo);
    LastIsNotMerge(c, repo);
    ReplayFollows(c, r, repo, next);
    HistoryGrows(c, FactOf(r), repo, next);
  }

  lemma HistoryGrows(c: Checkpoint, fact: Fact, repo: Repo, next: Checkpoint)
    requires HistoryConsistent(c, repo) && repo.commit(fact.head) && !c.history[|c.history| - 1].event.Merge?
    requires next.history == c.history + [fact]
    requires next.highest == if Rank(fact.event) > Rank(c.highest) then fact.event else c.highest
    requires Replay(next.order, next.history) == Some(next.tasks)
    ensures HistoryConsistent(next, repo)
  {
    assert next.history[..|c.history|] == c.history;
    forall i | 0 <= i < |next.history| - 1 ensures !next.history[i].event.Merge? {
      assert next.history[i] == c.history[i];
    }
  }

  lemma ReplayFollows(c: Checkpoint, r: Request, repo: Repo, next: Checkpoint)
    requires HistoryConsistent(c, repo) && Payload(Some(c), r, repo) == Some(next)
    ensures Replay(next.order, next.history) == Some(next.tasks)
  {
    assert next.history[..|c.history|] == c.history;
    assert next.order == c.order && next.history[|c.history|] == FactOf(r);
    assert Replay(next.order, next.history) == ReplayFact(c.order, c.tasks, FactOf(r));
  }

  /** What the validator adds to the writer's own checks. */
  predicate GatePasses(c: Checkpoint, r: Request, repo: Repo) {
    && (r.event.Task? ==> r.task.Some?)
    && (r.event.Review? || r.event.FinalLocal? ==> c.seed.Some? && repo.ancestor(c.seed.value, r.head))
  }

  /**
   * The validator run at the end accepts the writer's payload exactly when a task has an identity
   * and review and final-local heads descend from the seed; everything else the writer has ensured.
   */
  lemma GateIsExact(c: Checkpoint, r: Request, repo: Repo)
    requires Faithful(c, repo) && repo.commit(r.head) && Payload(Some(c), r, repo).Some?
    requires forall seed :: repo.seedVerified(seed) ==> repo.commit(seed) && repo.parent(seed) == Some(c.start)
    ensures Consistent(Payload(Some(c), r, repo).value, repo) <==> GatePasses(c, r, repo)
  {
    var next := Payload(Some(c), r, repo).value;
    HistoryFollows(c, r, repo, next);
    match r.event
    case Task => TaskGate(c, r, repo, next);
    case Seed => SeedGate(c, r, repo, next);
    case _ =>
  }

  lemma SeedGate(c: Checkpoint, r: Request, repo: Repo, next: Checkpoint)
    requires Faithful(c, repo) && r.event.Seed? && Payload(Some(c), r, repo) == Some(next)
    ensures TasksConsistent(next, repo) && EvidenceConsistent(next, repo)
  {
    NoTaskWithoutSeed(c, repo);
  }

  lemma TaskGate(c: Checkpoint, r: Request, repo: Repo, next: Checkpoint)
    requires Faithful(c, repo) && r.event.Task? && repo.commit(r.head) && Payload(Some(c), r, repo) == Some(next)
    ensures TasksConsistent(next, repo) && EvidenceConsistent(next, repo) <==> r.task.Some?
  {
    PayloadOpens(c, r, repo);
    if r.task.Some? {
      TaskSettles(c, r, repo, next);
    } else {
      assert next.tasks[|next.tasks| - 1] in next.tasks;
    }
  }

  lemma TaskSettles(c: Checkpoint, r: Request, repo: Repo, next: Checkpoint)
    requires Settled(c, repo) && r.task.Some? && repo.commit(r.head)
    requires WithTask(Opened(c, r), r, repo).Some?
    requires next == WithTask(Opened(c, r), r, repo).value.(history := c.history + [FactOf(r)])
    ensures Settled(next, repo)
  {
    if r.task == NextId(c.order, c.tasks) && Correction(r) == 0 {
      NoEvidenceWithoutTasks(c, repo);
    } else {
      assert c.tasks[|c.tasks| - 1] in c.tasks;
    }
  }

  // ----- the file

  class CheckpointFile {
    const repo: Repo
    var checkpoint: Option<Checkpoint>

    /** Every stored checkpoint comes from a run of the writer. */
    ghost predicate Valid()
      reads this
    {
      FaithfulFile(checkpoint, repo)
    }

    constructor (repo: Repo)
      ensures Valid() && checkpoint == None && this.repo == repo
    {
      this.repo, checkpoint := repo, None;
    }

    /** `write_batch_checkpoint`: a refused call leaves the file as it was. */
    method Write(r: Request) returns (ok: bool)
      requires Valid()
      modifies this
      ensures Valid() && checkpoint == Stored(old(checkpoint), r, repo)
      ensures ok <==> Payload(old(checkpoint), r, repo).Some? && Consistent(Payload(old(checkpoint), r, repo).value, repo)
    {
      StoredIsFaithful(checkpoint, r, repo);
      if !r.clean {
        return false;
      }
      var payload;
      match checkpoint {
        case None =>
          if !r.event.Preflight? || r.head != r.manifest.start {
            return false;
          }
          payload := FirstCheckpoint(r);
        case Some(previous) =>
          if Manifest(previous.identity, previous.start, previous.order) != r.manifest {
            return false;
          }
          if previous.merge.Some? || (!r.event.Merge? && !r.onBranch) {
            return false;
          }
          payload := previous.(head := r.head);
          if Rank(r.event) > Rank(payload.highest) {
            payload := payload.(highest := r.event);
          }
          var edited := WithEvent(payload, r, repo);
          if edited.None? {
            return false;
          }
          payload := edited.value.(history := previous.history + [FactOf(r)]);
      }
      ok := ValidateBatchCheckpoint(payload, repo);
      if ok {
        checkpoint := Some(payload);
      }
    }
  }
}
