/**
 * Which calls of a batch are accepted
 * (tools/agent/lifecycle_checkpoints.py:1473-1652), said of the calls alone:
 * what was called before decides, without a look at the checkpoint, and every
 * batch that has begun can be brought to its merge.
 */
module BatchRuns {
  import opened Prelude
  import opened BatchCheckpoint
  import Sorting

  // ----- what earlier calls say

  /** The calls after the last task. */
  function Tail(calls: seq<Request>): seq<Request> {
    if calls == [] then []
    else
      var last := calls[|calls| - 1];
      if last.event.Preflight? || last.event.Seed? || last.event.Task? then [] else Tail(calls[..|calls| - 1]) + [last]
  }

  /** The last task call. */
  function LastTask(calls: seq<Request>): Option<Request> {
    if calls == [] then None
    else if calls[|calls| - 1].event.Task? then Some(calls[|calls| - 1])
    else LastTask(calls[..|calls| - 1])
  }

  /** How often a task is corrected by this call. */
  function Repeat(r: Request): int {
    match r.correction
    case None => 0
    case Some(n) => n
  }

  /** How many tasks were completed: their calls that correct nothing. */
  function Completed(calls: seq<Request>): nat {
    if calls == [] then 0
    else Completed(calls[..|calls| - 1]) + if calls[|calls| - 1].event.Task? && Repeat(calls[|calls| - 1]) == 0 then 1 else 0
  }

  /** The argument names this commit; left out or empty, HEAD is meant. */
  predicate Designates(value: Option<Sha>, head: Sha, sha: Sha) {
    match value
    case None => head == sha
    case Some(given) => if given == "" then head == sha else given == sha
  }

  function SeedOf(r: Request): (seed: Sha)
    ensures Designates(r.seedSha, r.head, seed)
  {
    match r.seedSha
    case None => r.head
    case Some(given) => if given == "" then r.head else given
  }

  /** The commit descends from the batch's seed. */
  predicate Descends(repo: Repo, calls: seq<Request>, sha: Sha)
    requires |calls| >= 2
  {
    repo.ancestor(SeedOf(calls[1]), sha)
  }

  /** The next task, or once more the last one on another commit. */
  predicate TaskFits(m: Manifest, before: seq<Request>, r: Request) {
    var n, last := Completed(before), LastTask(before);
    || (n < |m.order| && r.task == Some(m.order[n]) && Repeat(r) == 0)
    || (last.Some? && r.task == last.value.task && Repeat(r) == Repeat(last.value) + 1 && r.head != last.value.head)
  }

  /** The call fits what was called before. */
  predicate Fits(m: Manifest, repo: Repo, before: seq<Request>, r: Request) {
    var n, tail := |before|, Tail(before);
    match r.event
    case Preflight => n == 0 && r.head == m.start && m.order != [] && Sorting.Distinct(m.order)
    case Seed =>
      n == 1 && repo.seedVerified(SeedOf(r)) && repo.commit(SeedOf(r)) && repo.parent(SeedOf(r)) == Some(m.start)
    case Task => n >= 2 && |tail| < 5 && Descends(repo, before, r.head) && TaskFits(m, before, r)
    case Review => n >= 2 && Completed(before) == |m.order| && |tail| == 0 && Descends(repo, before, r.head)
    case FinalLocal => n >= 2 && |tail| == 1 && Descends(repo, before, r.head)
    case Pr =>
      |tail| == 2 && r.head == tail[1].head && r.prNumber.Some? && r.prNumber.value > 0 && Designates(r.prHead, r.head, r.head)
    case Ci => |tail| == 3 && r.head == tail[2].head && Designates(r.ciHead, r.head, r.head)
    case Merge => |tail| == 4 && Designates(r.mergeSha, r.head, r.head) && repo.ancestor(tail[3].head, r.head)
  }

  predicate MayFollow(m: Manifest, repo: Repo, before: seq<Request>, r: Request) {
    && r.manifest == m && r.clean && repo.commit(r.head)
    && (r.event.Preflight? || r.event.Merge? || r.onBranch)
    && Fits(m, repo, before, r)
  }

  /** Each call fits the ones before it. */
  predicate Legal(m: Manifest, repo: Repo, calls: seq<Request>) {
    calls == [] || (Legal(m, repo, calls[..|calls| - 1]) && MayFollow(m, repo, calls[..|calls| - 1], calls[|calls| - 1]))
  }

  lemma LegalMore(m: Manifest, repo: Repo, calls: seq<Request>, r: Request)
    requires Legal(m, repo, calls)
    ensures Legal(m, repo, calls + [r]) <==> MayFollow(m, repo, calls, r)
  {
    assert (calls + [r])[..|calls|] == calls;
  }

  // ----- what the checkpoint then holds

  function HeadOf(tail: seq<Request>, k: nat): Option<Sha> {
    if k < |tail| then Some(tail[k].head) else None
  }

  /** The recorded tasks are those of the calls. */
  predicate TasksAre(c: Checkpoint, calls: seq<Request>) {
    && |c.tasks| == Completed(calls)
    && (LastTask(calls).None? <==> c.tasks == [])
    && (c.tasks != [] ==>
          var last := LastTask(calls).value;
          c.tasks[|c.tasks| - 1] == Done(last.task, last.head, Repeat(last)))
  }

  /** The recorded evidence is that of the calls since the last task. */
  predicate EvidenceIs(c: Checkpoint, tail: seq<Request>) {
    && |tail| <= 5 && c.review == HeadOf(tail, 0) && c.finalLocal == HeadOf(tail, 1) && c.prHead == HeadOf(tail, 2)
    && c.ci == HeadOf(tail, 3) && c.merge == HeadOf(tail, 4) && c.prNumber == if |tail| > 2 then tail[2].prNumber else None
  }

  /** What the history says of a call. */
  ghost predicate Tells(fact: Fact, r: Request) {
    && fact.event == r.event && fact.head == r.head
    && fact.task == (if r.event.Task? then r.task else None) && fact.correction == (if r.event.Task? then Repeat(r) else 0)
  }

  ghost predicate HistoryIs(history: seq<Fact>, calls: seq<Request>) {
    |history| == |calls| && forall i :: 0 <= i < |calls| ==> Tells(history[i], calls[i])
  }

  ghost predicate Reflects(c: Checkpoint, m: Manifest, repo: Repo, calls: seq<Request>) {
    && Faithful(c, repo) && calls != [] && Manifest(c.identity, c.start, c.order) == m
    && c.seed == (if |calls| >= 2 then Some(SeedOf(calls[1])) else None)
    && TasksAre(c, calls) && EvidenceIs(c, Tail(calls))
  }

  lemma OneMore(calls: seq<Request>, r: Request)
    ensures Tail(calls + [r]) == if r.event.Preflight? || r.event.Seed? || r.event.Task? then [] else Tail(calls) + [r]
    ensures LastTask(calls + [r]) == if r.event.Task? then Some(r) else LastTask(calls)
    ensures Completed(calls + [r]) == Completed(calls) + if r.event.Task? && Repeat(r) == 0 then 1 else 0
  {
    assert (calls + [r])[..|calls|] == calls;
  }

  /** The writer lets a call through to the validator if it fits. */
  lemma FitsIsPayload(c: Checkpoint, m: Manifest, repo: Repo, calls: seq<Request>, r: Request)
    requires Reflects(c, m, repo, calls) && MayFollow(m, repo, calls, r)
    ensures Payload(Some(c), r, repo).Some?
  {
    match r.event
    case Task => assert WithTask(Opened(c, r), r, repo).Some?;
    case _ =>
  }

  lemma EvidenceGate(c: Checkpoint, m: Manifest, repo: Repo, calls: seq<Request>, r: Request, next: Checkpoint)
    requires Reflects(c, m, repo, calls) && MayFollow(m, repo, calls, r) && Payload(Some(c), r, repo) == Some(next)
    requires Rank(r.event) > Rank(Task)
    ensures TasksConsistent(next, repo) && EvidenceConsistent(next, repo)
  {
    PayloadOpens(c, r, repo);
    assert next.tasks == c.tasks && next.order == c.order && next.seed == c.seed;
  }

  lemma CommitsGate(c: Checkpoint, repo: Repo, r: Request, next: Checkpoint)
    requires repo.commit(c.start) && repo.commit(r.head) && WithEvent(Opened(c, r), r, repo).Some?
    requires next == WithEvent(Opened(c, r), r, repo).value.(history := next.history)
    requires c.seed.Some? ==> repo.commit(c.seed.value) && repo.parent(c.seed.value) == Some(c.start)
    requires r.event.Seed? ==> repo.commit(SeedOf(r)) && repo.parent(SeedOf(r)) == Some(c.start)
    ensures repo.commit(next.start) && repo.commit(next.head)
    ensures next.seed.Some? ==> repo.commit(next.seed.value) && repo.parent(next.seed.value) == Some(next.start)
  {
  }

  /** The validator then finds nothing. */
  lemma FitsIsConsistent(c: Checkpoint, m: Manifest, repo: Repo, calls: seq<Request>, r: Request, next: Checkpoint)
    requires Reflects(c, m, repo, calls) && MayFollow(m, repo, calls, r) && Payload(Some(c), r, repo) == Some(next)
    ensures Consistent(next, repo)
  {
    HistoryFollows(c, r, repo, next);
    PayloadOpens(c, r, repo);
    CommitsGate(c, repo, r, next);
    if r.event.Task? {
      TaskGate(c, r, repo, next);
    } else if r.event.Seed? {
      SeedGate(c, r, repo, next);
    } else {
      EvidenceGate(c, m, repo, calls, r, next);
    }
  }

  lemma AcceptedTaskFits(c: Checkpoint, m: Manifest, repo: Repo, calls: seq<Request>, r: Request)
    requires Reflects(c, m, repo, calls) && r.event.Task? && WithTask(Opened(c, r), r, repo).Some? && c.merge.None?
    requires r.task.Some?
    ensures Fits(m, repo, calls, r)
  {
  }

  /** What passes both fits. */
  lemma AcceptedFits(c: Checkpoint, m: Manifest, repo: Repo, calls: seq<Request>, r: Request, next: Checkpoint)
    requires Reflects(c, m, repo, calls) && Payload(Some(c), r, repo) == Some(next) && Consistent(next, repo)
    ensures MayFollow(m, repo, calls, r)
  {
    PayloadOpens(c, r, repo);
    match r.event
    case Seed => NoTaskWithoutSeed(c, repo);
    case Task =>
      assert next.tasks == WithTask(Opened(c, r), r, repo).value.tasks;
      TaskHasIdentity(Opened(c, r), r, repo);
      AcceptedTaskFits(c, m, repo, calls, r);
    case Review =>
      if c.seed.None? {
        NoTaskWithoutSeed(c, repo);
      }
    case _ =>
  }

  lemma TaskIsRecorded(c: Checkpoint, m: Manifest, repo: Repo, calls: seq<Request>, r: Request, next: Checkpoint)
    requires Reflects(c, m, repo, calls) && r.event.Task? && MayFollow(m, repo, calls, r)
    requires Payload(Some(c), r, repo) == Some(next) && Recorded(next) == []
    ensures TasksAre(next, calls + [r]) && EvidenceIs(next, Tail(calls + [r]))
  {
    OneMore(calls, r);
  }

  lemma SeedIsRecorded(c: Checkpoint, m: Manifest, repo: Repo, calls: seq<Request>, r: Request, next: Checkpoint)
    requires Reflects(c, m, repo, calls) && r.event.Seed? && Payload(Some(c), r, repo) == Some(next)
    ensures TasksAre(next, calls + [r]) && EvidenceIs(next, Tail(calls + [r]))
  {
    OneMore(calls, r);
    NoTaskWithoutSeed(c, repo);
  }

  lemma EvidenceIsRecorded(c: Checkpoint, m: Manifest, repo: Repo, calls: seq<Request>, r: Request, next: Checkpoint)
    requires TasksAre(c, calls) && EvidenceIs(c, Tail(calls)) && Rank(r.event) > Rank(Task) && Fits(m, repo, calls, r)
    requires WithEvent(Opened(c, r), r, repo).Some? && next == WithEvent(Opened(c, r), r, repo).value.(history := next.history)
    ensures TasksAre(next, calls + [r]) && EvidenceIs(next, Tail(calls + [r]))
  {
    OneMore(calls, r);
    assert next.tasks == c.tasks;
    EvidenceGrows(c, m, repo, calls, r, next);
  }

  lemma EvidenceGrows(c: Checkpoint, m: Manifest, repo: Repo, calls: seq<Request>, r: Request, next: Checkpoint)
    requires EvidenceIs(c, Tail(calls)) && Rank(r.event) > Rank(Task) && Fits(m, repo, calls, r)
    requires WithEvent(Opened(c, r), r, repo).Some? && next == WithEvent(Opened(c, r), r, repo).value.(history := next.history)
    ensures EvidenceIs(next, Tail(calls) + [r])
  {
    OneHead(Tail(calls), r);
  }

  lemma OneHead(tail: seq<Request>, r: Request)
    ensures forall k: nat :: HeadOf(tail + [r], k) == if k == |tail| then Some(r.head) else HeadOf(tail, k)
  {
  }

  lemma {:induction false} TailIsShorter(calls: seq<Request>)
    ensures |Tail(calls)| <= |calls|
  {
    if calls != [] {
      TailIsShorter(calls[..|calls| - 1]);
    }
  }

  lemma IdentityStays(c: Checkpoint, m: Manifest, repo: Repo, calls: seq<Request>, r: Request, next: Checkpoint)
    requires Manifest(c.identity, c.start, c.order) == m && calls != [] && MayFollow(m, repo, calls, r)
    requires c.seed == (if |calls| >= 2 then Some(SeedOf(calls[1])) else None)
    requires WithEvent(Opened(c, r), r, repo).Some? && next == WithEvent(Opened(c, r), r, repo).value.(history := next.history)
    ensures Manifest(next.identity, next.start, next.order) == m
    ensures next.seed == Some(SeedOf((calls + [r])[1]))
  {
    TailIsShorter(calls);
  }

  /** The checkpoint goes on reflecting the calls. */
  lemma StillReflects(c: Checkpoint, m: Manifest, repo: Repo, calls: seq<Request>, r: Request, next: Checkpoint)
    requires Reflects(c, m, repo, calls) && MayFollow(m, repo, calls, r)
    requires Payload(Some(c), r, repo) == Some(next) && Consistent(next, repo)
    ensures Reflects(next, m, repo, calls + [r])
  {
    NextIsFaithful(c, r, repo);
    PayloadOpens(c, r, repo);
    IdentityStays(c, m, repo, calls, r, next);
    if r.event.Task? {
      TaskClearsEvidence(c, r, repo);
      TaskIsRecorded(c, m, repo, calls, r, next);
    } else if r.event.Seed? {
      SeedIsRecorded(c, m, repo, calls, r, next);
    } else {
      EvidenceIsRecorded(c, m, repo, calls, r, next);
    }
  }

  lemma FirstReflects(m: Manifest, repo: Repo, r: Request)
    requires MayFollow(m, repo, [], r)
    ensures Run([r], repo).Some? && Reflects(Run([r], repo).value, m, repo, [r])
    ensures HistoryIs(Run([r], repo).value.history, [r])
  {
    assert r.event.Preflight? by {
      assert Tail([]) == [];
    }
    var c := FirstCheckpoint(r);
    assert [r][..0] == [] && c.history[..0] == [];
    assert Replay(c.order, c.history) == ReplayFact(c.order, [], c.history[0]) == Some([]);
    assert Payload(None, r, repo) == Some(c) && Consistent(c, repo);
    RunsAreFaithful([r], repo);
    OneMore([], r);
    assert [] + [r] == [r];
  }

  /** After calls that fit, the checkpoint is there and reflects them. */
  lemma {:induction false} LegalIsReflected(m: Manifest, repo: Repo, calls: seq<Request>)
    requires Legal(m, repo, calls) && calls != []
    ensures Run(calls, repo).Some? && Reflects(Run(calls, repo).value, m, repo, calls)
  {
    var front, r := calls[..|calls| - 1], calls[|calls| - 1];
    assert calls == front + [r];
    if front == [] {
      assert calls == [r];
      FirstReflects(m, repo, r);
    } else {
      LegalIsReflected(m, repo, front);
      var c := Run(front, repo).value;
      FitsIsPayload(c, m, repo, front, r);
      var next := Payload(Some(c), r, repo).value;
      FitsIsConsistent(c, m, repo, front, r, next);
      StillReflects(c, m, repo, front, r, next);
    }
  }

  lemma OneFactMore(c: Checkpoint, r: Request, repo: Repo)
    requires Payload(Some(c), r, repo).Some?
    ensures var history := Payload(Some(c), r, repo).value.history;
            |history| == |c.history| + 1 && history[..|c.history|] == c.history && Tells(history[|c.history|], r)
  {
    PayloadOpens(c, r, repo);
  }

  lemma NextIsPayload(m: Manifest, repo: Repo, front: seq<Request>, r: Request)
    requires Legal(m, repo, front + [r]) && front != []
    ensures Legal(m, repo, front) && Run(front, repo).Some? && Payload(Run(front, repo), r, repo).Some?
    ensures Run(front + [r], repo) == Payload(Run(front, repo), r, repo)
  {
    assert (front + [r])[..|front|] == front;
    LegalIsReflected(m, repo, front);
    AcceptedExactly(m, repo, front, r);
    OneMoreCall(front, r, repo);
  }

  lemma HistoryIsOneMore(before: seq<Fact>, history: seq<Fact>, front: seq<Request>, r: Request)
    requires HistoryIs(before, front) && |history| == |before| + 1 && history[..|before|] == before && Tells(history[|before|], r)
    ensures HistoryIs(history, front + [r])
  {
    forall i | 0 <= i < |front| ensures Tells(history[i], front[i]) {
      assert history[..|before|][i] == before[i];
    }
  }

  /** The history is the calls, one after another. */
  lemma {:induction false} HistoryIsCalls(m: Manifest, repo: Repo, calls: seq<Request>)
    requires Legal(m, repo, calls) && calls != []
    ensures Run(calls, repo).Some? && HistoryIs(Run(calls, repo).value.history, calls)
  {
    var front, r := calls[..|calls| - 1], calls[|calls| - 1];
    assert calls == front + [r];
    if front == [] {
      assert calls == [r];
      FirstReflects(m, repo, r);
    } else {
      NextIsPayload(m, repo, front, r);
      HistoryIsCalls(m, repo, front);
      var c := Run(front, repo).value;
      OneFactMore(c, r, repo);
      HistoryIsOneMore(c.history, Run(calls, repo).value.history, front, r);
    }
  }

  lemma OneMoreCall(requests: seq<Request>, r: Request, repo: Repo)
    ensures Run(requests + [r], repo) == Stored(Run(requests, repo), r, repo)
  {
    assert (requests + [r])[..|requests|] == requests;
  }

  /** After calls that were all accepted, the next one changes the file exactly if it fits them. */
  lemma AcceptedExactly(m: Manifest, repo: Repo, calls: seq<Request>, r: Request)
    requires Legal(m, repo, calls) && (calls == [] ==> r.manifest == m)
    ensures Run(calls + [r], repo) != Run(calls, repo) <==> Legal(m, repo, calls + [r])
  {
    OneMoreCall(calls, r, repo);
    assert (calls + [r])[..|calls|] == calls;
    if calls == [] {
      FirstExactly(m, repo, r);
    } else {
      LegalIsReflected(m, repo, calls);
      var c := Run(calls, repo).value;
      if MayFollow(m, repo, calls, r) {
        FitsIsPayload(c, m, repo, calls, r);
        FitsIsConsistent(c, m, repo, calls, r, Payload(Some(c), r, repo).value);
        assert |Payload(Some(c), r, repo).value.history| == |c.history| + 1;
      } else if Stored(Some(c), r, repo) != Some(c) {
        AcceptedFits(c, m, repo, calls, r, Payload(Some(c), r, repo).value);
      }
    }
  }

  lemma FirstIsPreflight(m: Manifest, repo: Repo, r: Request)
    requires r.manifest == m && Payload(None, r, repo).Some? && Consistent(Payload(None, r, repo).value, repo)
    ensures MayFollow(m, repo, [], r)
  {
    assert TasksConsistent(FirstCheckpoint(r), repo);
  }

  lemma FirstExactly(m: Manifest, repo: Repo, r: Request)
    requires r.manifest == m
    ensures Stored(None, r, repo) != None <==> MayFollow(m, repo, [], r)
  {
    if MayFollow(m, repo, [], r) {
      OneMoreCall([], r, repo);
      assert [] + [r] == [r];
      FirstReflects(m, repo, r);
    } else {
      var payload := Payload(None, r, repo);
      if payload.Some? && Consistent(payload.value, repo) {
        FirstIsPreflight(m, repo, r);
      }
    }
  }

  /** Calls that fit are accepted one by one. */
  lemma {:induction false} LegalIsAccepted(m: Manifest, repo: Repo, calls: seq<Request>, k: nat)
    requires Legal(m, repo, calls) && k < |calls|
    ensures Run(calls[..k + 1], repo) != Run(calls[..k], repo)
  {
    var front, r := calls[..|calls| - 1], calls[|calls| - 1];
    if k == |calls| - 1 {
      assert calls[..k + 1] == calls == front + [r] && calls[..k] == front;
      AcceptedExactly(m, repo, front, r);
    } else {
      LegalIsAccepted(m, repo, front, k);
      assert front[..k + 1] == calls[..k + 1] && front[..k] == calls[..k];
    }
  }

  /** A merge at their end is recorded. */
  lemma LegalMergeIsRecorded(m: Manifest, repo: Repo, calls: seq<Request>)
    requires Legal(m, repo, calls) && calls != [] && calls[|calls| - 1].event.Merge?
    ensures Run(calls, repo).Some? && Run(calls, repo).value.merge == Some(calls[|calls| - 1].head)
  {
    var front, r := calls[..|calls| - 1], calls[|calls| - 1];
    assert calls == front + [r];
    LegalIsReflected(m, repo, calls);
    MergeIsHeld(Run(calls, repo).value, m, repo, front, r);
  }

  lemma MergeIsHeld(c: Checkpoint, m: Manifest, repo: Repo, before: seq<Request>, r: Request)
    requires EvidenceIs(c, Tail(before + [r])) && r.event.Merge? && Fits(m, repo, before, r)
    ensures c.merge == Some(r.head)
  {
    OneMore(before, r);
  }

  // ----- every batch can be brought to its merge

  function Call(m: Manifest, event: Event, head: Sha): Request {
    Request(m, event, head, true, true, None, None, None, Some(1), None, None, None)
  }

  /** What is still to be done: the next task on h, or the next evidence, the merge on g. */
  function NextCall(m: Manifest, calls: seq<Request>, h: Sha, g: Sha): Request {
    var n, tail := Completed(calls), Tail(calls);
    if n < |m.order| then Call(m, Task, h).(task := Some(m.order[n]))
    else if |tail| == 0 then Call(m, Review, h)
    else if |tail| == 1 then Call(m, FinalLocal, h)
    else if |tail| == 2 then Call(m, Pr, tail[1].head)
    else if |tail| == 3 then Call(m, Ci, tail[2].head)
    else Call(m, Merge, g)
  }

  /** The commits are there, on the seed, and the merge contains what was verified. */
  predicate Suits(repo: Repo, calls: seq<Request>, h: Sha, g: Sha)
    requires |calls| >= 2
  {
    && repo.commit(h) && Descends(repo, calls, h) && repo.commit(g)
    && repo.ancestor(if |Tail(calls)| > 1 then Tail(calls)[1].head else h, g)
  }

  lemma NextCallFits(m: Manifest, repo: Repo, calls: seq<Request>, h: Sha, g: Sha)
    requires Legal(m, repo, calls) && |calls| >= 2 && |Tail(calls)| < 5 && Suits(repo, calls, h, g)
    ensures Legal(m, repo, calls + [NextCall(m, calls, h, g)])
    ensures var n, more := Completed(calls), calls + [NextCall(m, calls, h, g)];
            if n < |m.order| then Completed(more) == n + 1 && Tail(more) == []
            else Completed(more) == n && Tail(more) == Tail(calls) + [NextCall(m, calls, h, g)]
    ensures Completed(calls) <= |m.order|
  {
    var r := NextCall(m, calls, h, g);
    LegalIsReflected(m, repo, calls);
    assert MayFollow(m, repo, calls, r);
    assert (calls + [r])[..|calls|] == calls;
    OneMore(calls, r);
  }

  lemma NextSuits(m: Manifest, repo: Repo, calls: seq<Request>, h: Sha, g: Sha)
    requires Legal(m, repo, calls) && |calls| >= 2 && |Tail(calls)| < 5 && Suits(repo, calls, h, g)
    requires !NextCall(m, calls, h, g).event.Merge?
    ensures var all := calls + [NextCall(m, calls, h, g)];
            Suits(repo, all, h, g) && |Tail(all)| < 5
            && |m.order| - Completed(all) + 5 - |Tail(all)| < |m.order| - Completed(calls) + 5 - |Tail(calls)|
  {
    var all := calls + [NextCall(m, calls, h, g)];
    NextCallFits(m, repo, calls, h, g);
    LegalIsReflected(m, repo, calls);
    assert all[1] == calls[1];
  }

  /** Wherever a batch stands after its seed, corrections and discarded evidence included, it can be brought to its merge. */
  lemma {:induction false} CanFinish(m: Manifest, repo: Repo, calls: seq<Request>, h: Sha, g: Sha) returns (all: seq<Request>)
    requires Legal(m, repo, calls) && |calls| >= 2 && |Tail(calls)| < 5 && Suits(repo, calls, h, g)
    ensures Legal(m, repo, all) && calls < all
    ensures Run(all, repo).Some? && Run(all, repo).value.merge == Some(g)
    decreases |m.order| - Completed(calls) + 5 - |Tail(calls)|
  {
    var r := NextCall(m, calls, h, g);
    NextCallFits(m, repo, calls, h, g);
    all := calls + [r];
    if r.event.Merge? {
      LegalMergeIsRecorded(m, repo, all);
    } else {
      NextSuits(m, repo, calls, h, g);
      all := CanFinish(m, repo, all, h, g);
    }
  }

  /** A batch with tasks, none twice, whose seed git verifies, can be begun and merged. */
  lemma BatchCanMerge(m: Manifest, repo: Repo, seed: Sha, h: Sha, g: Sha) returns (all: seq<Request>)
    requires m.order != [] && Sorting.Distinct(m.order) && repo.commit(m.start)
    requires repo.seedVerified(seed) && repo.commit(seed) && repo.parent(seed) == Some(m.start)
    requires repo.commit(h) && repo.ancestor(seed, h) && repo.commit(g) && repo.ancestor(h, g)
    ensures Legal(m, repo, all) && Run(all, repo).Some? && Run(all, repo).value.merge == Some(g)
  {
    var preflight, begun := Call(m, Preflight, m.start), Call(m, Seed, seed);
    var calls := [preflight, begun];
    assert [] + [preflight] == [preflight] && [preflight] + [begun] == calls;
    LegalMore(m, repo, [], preflight);
    LegalMore(m, repo, [preflight], begun);
    OneMore([preflight], begun);
    all := CanFinish(m, repo, calls, h, g);
  }
}
