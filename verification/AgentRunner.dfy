/**
 * The bounded round loop of an agent run
 * (src/ah_there_it_is/agent/runner.py:75-241): calls of one round rely on the
 * knowledge frozen at its start; the whole run is committed or rolled back, and
 * the trace says which.
 */
module AgentRunner {
  import opened Prelude
  import opened WriteResolution
  import opened AgentCapabilities

  /** `commit_state` of a tool result; only mutations that succeed carry one. */
  datatype CommitState = Provisional | Committed | RolledBack

  datatype Result = Result(ok: bool, changed: bool, mutation: bool, clarification: bool, commit: Option<CommitState>)

  /** A requested call: whether its receipt reports a change, and whether its error only asks back. */
  datatype Requested = Requested(call: Call, changes: bool, clarification: bool)

  datatype Response = Response(content: string, calls: seq<Requested>) | LlmFails

  datatype Outcome = Completed(content: string, changed: bool) | Failed

  /** A failure the runner does not tolerate: any after a change, or of a mutation unless it only asks back. */
  predicate Fatal(changedSeen: bool, result: Result) {
    !result.ok && (changedSeen || (result.mutation && !result.clarification))
  }

  /** A trace without a fatal result, and whether anything changed in it. */
  predicate Tolerable(trace: seq<Result>) {
    forall i :: 0 <= i < |trace| ==> !Fatal(Changed(trace[..i]), trace[i])
  }

  predicate Changed(trace: seq<Result>) {
    exists i :: 0 <= i < |trace| && trace[i].changed
  }

  predicate Provisionally(trace: seq<Result>) {
    forall i :: 0 <= i < |trace| ==>
      (trace[i].commit.Some? <==> trace[i].ok && trace[i].mutation)
      && (trace[i].commit.Some? ==> trace[i].commit.value.Provisional?)
      && (trace[i].changed ==> trace[i].ok && trace[i].mutation)
  }

  function Relabelled(trace: seq<Result>, state: CommitState): (r: seq<Result>)
    ensures |r| == |trace|
    ensures forall i :: 0 <= i < |r| ==>
      r[i] == if trace[i].commit == Some(Provisional) then trace[i].(commit := Some(state)) else trace[i]
  {
    seq(|trace|, i requires 0 <= i < |trace| =>
      if trace[i].commit == Some(Provisional) then trace[i].(commit := Some(state)) else trace[i])
  }

  lemma Extended(trace: seq<Result>, result: Result)
    ensures Changed(trace + [result]) <==> Changed(trace) || result.changed
    ensures Tolerable(trace) && !Fatal(Changed(trace), result) ==> Tolerable(trace + [result])
  {
    var more := trace + [result];
    assert more[|trace|] == result;
    forall i | 0 <= i < |trace| ensures more[i] == trace[i] && more[..i] == trace[..i] {
    }
    assert more[..|trace|] == trace;
    if Changed(trace) {
      var i :| 0 <= i < |trace| && trace[i].changed;
      assert more[i].changed;
    }
    if Changed(more) && !result.changed {
      var i :| 0 <= i < |more| && more[i].changed;
      assert trace[i].changed;
    }
  }

  /** Everything but the last result is tolerable, and that one is not. */
  predicate StoppedAtLast(trace: seq<Result>) {
    var n := |trace|;
    n > 0 && Tolerable(trace[..n - 1]) && Fatal(Changed(trace[..n - 1]), trace[n - 1])
  }

  /** A round added to those before it. */
  lemma OneMoreRound(rounds: seq<Round>, before: seq<Write>, writes: seq<Write>, known: Knowledge)
    requires OwnRounds(rounds, before) && before <= writes
    requires rounds != [] ==> Within(rounds[|rounds| - 1].known, known)
    requires forall k :: |before| <= k < |writes| ==> writes[k].frozen == known
    ensures OwnRounds(rounds + [Round(known, |before|)], writes)
  {
    var more := rounds + [Round(known, |before|)];
    forall j, k | 0 <= j < |more| && 0 <= k < |writes| && InRound(more, j, k) ensures writes[k].frozen == more[j].known {
      if j < |rounds| {
        assert more[j + 1].first <= |before| && k < |before|;
        assert InRound(rounds, j, k);
      }
    }
  }

  /** Between two rounds: every write so far relied on what was known when its own round began. */
  ghost predicate BetweenRounds(dispatcher: Dispatcher)
    reads dispatcher
  {
    && dispatcher.Valid() && OwnRounds(dispatcher.rounds, dispatcher.writes)
    && (dispatcher.rounds != [] ==> Within(dispatcher.rounds[|dispatcher.rounds| - 1].known, dispatcher.known))
  }

  /** A result is the receipt of a requested call. */
  predicate Receipt(result: Result, requested: Requested) {
    && result.mutation == Mutation(requested.call) && result.clarification == requested.clarification
    && (result.changed <==> result.ok && result.mutation && requested.changes)
  }

  /** The trace holds the receipts of the first of these calls. */
  predicate Receipts(trace: seq<Result>, calls: seq<Requested>) {
    |trace| <= |calls| && forall j :: 0 <= j < |trace| ==> Receipt(trace[j], calls[j])
  }

  /** The database after these results: the operations of the successful changes, one after another. */
  ghost function Applied(dispatcher: Dispatcher, start: Db, calls: seq<Requested>, trace: seq<Result>): Db
    requires |trace| <= |calls|
    decreases |trace|
  {
    if trace == [] then start
    else
      var n := |trace| - 1;
      dispatcher.After(calls[n].call, trace[n].ok, Applied(dispatcher, start, calls, trace[..n]))
  }

  /** What is known after these results, each taught on the database it found. */
  ghost function Taught(dispatcher: Dispatcher, start: Db, calls: seq<Requested>, trace: seq<Result>): Knowledge
    requires |trace| <= |calls|
    decreases |trace|
  {
    if trace == [] then NOTHING
    else
      var n := |trace| - 1;
      dispatcher.Learned(calls[n].call, trace[n].ok, Taught(dispatcher, start, calls, trace[..n]), Applied(dispatcher, start, calls, trace[..n]))
  }

  lemma {:induction false} AppliedMore(dispatcher: Dispatcher, start: Db, calls: seq<Requested>, more: seq<Requested>, trace: seq<Result>)
    requires |trace| <= |calls| && calls <= more
    ensures Applied(dispatcher, start, more, trace) == Applied(dispatcher, start, calls, trace)
    ensures Taught(dispatcher, start, more, trace) == Taught(dispatcher, start, calls, trace)
    decreases |trace|
  {
    if trace != [] {
      AppliedMore(dispatcher, start, calls, more, trace[..|trace| - 1]);
    }
  }

  lemma {:induction false} AppliedRelabelled(dispatcher: Dispatcher, start: Db, calls: seq<Requested>, trace: seq<Result>, state: CommitState)
    requires |trace| <= |calls|
    ensures Applied(dispatcher, start, calls, Relabelled(trace, state)) == Applied(dispatcher, start, calls, trace)
    ensures Taught(dispatcher, start, calls, Relabelled(trace, state)) == Taught(dispatcher, start, calls, trace)
    decreases |trace|
  {
    if trace != [] {
      var front := trace[..|trace| - 1];
      AppliedRelabelled(dispatcher, start, calls, front, state);
      assert Relabelled(trace, state)[..|trace| - 1] == Relabelled(front, state);
    }
  }

  /** From `first` on, each call succeeded exactly if what it relied on permits it on the database it found. */
  ghost predicate Answered(dispatcher: Dispatcher, relied: Knowledge, start: Db, calls: seq<Requested>, trace: seq<Result>, first: nat)
    requires |trace| <= |calls|
  {
    forall j :: first <= j < |trace| ==>
      (trace[j].ok <==> dispatcher.Answers(calls[j].call, relied, Applied(dispatcher, start, calls, trace[..j])))
  }

  lemma AnsweredMore(dispatcher: Dispatcher, relied: Knowledge, start: Db, calls: seq<Requested>, trace: seq<Result>, result: Result, first: nat)
    requires |trace| < |calls| && Answered(dispatcher, relied, start, calls, trace, first)
    requires result.ok <==> dispatcher.Answers(calls[|trace|].call, relied, Applied(dispatcher, start, calls, trace))
    ensures Answered(dispatcher, relied, start, calls, trace + [result], first)
    ensures Applied(dispatcher, start, calls, trace + [result])
            == dispatcher.After(calls[|trace|].call, result.ok, Applied(dispatcher, start, calls, trace))
    ensures Taught(dispatcher, start, calls, trace + [result])
            == dispatcher.Learned(calls[|trace|].call, result.ok, Taught(dispatcher, start, calls, trace), Applied(dispatcher, start, calls, trace))
  {
    var more := trace + [result];
    assert more[..|trace|] == trace;
    forall j | first <= j < |trace|
      ensures more[j].ok <==> dispatcher.Answers(calls[j].call, relied, Applied(dispatcher, start, calls, more[..j]))
    {
      assert more[..j] == trace[..j];
    }
  }

  /** What holds of the results so far: they are receipts, and the database is what the changes made of it. */
  ghost predicate Kept(dispatcher: Dispatcher, db: Db, known: Knowledge, relied: Knowledge, start: Db, all: seq<Requested>, trace: seq<Result>, first: nat) {
    && Receipts(trace, all) && Provisionally(trace)
    && db == Applied(dispatcher, start, all, trace) && known == Taught(dispatcher, start, all, trace)
    && Answered(dispatcher, relied, start, all, trace, first)
  }

  /** The next result. */
  lemma KeptMore(dispatcher: Dispatcher, db: Db, known: Knowledge, relied: Knowledge, start: Db, all: seq<Requested>,
                 trace: seq<Result>, first: nat, result: Result)
    requires Kept(dispatcher, db, known, relied, start, all, trace, first) && |trace| < |all| && Receipt(result, all[|trace|])
    requires result.ok <==> dispatcher.Answers(all[|trace|].call, relied, db)
    requires (result.commit.Some? <==> result.ok && result.mutation) && (result.commit.Some? ==> result.commit.value.Provisional?)
    ensures Kept(dispatcher, dispatcher.After(all[|trace|].call, result.ok, db),
                 dispatcher.Learned(all[|trace|].call, result.ok, known, db), relied, start, all, trace + [result], first)
  {
    AnsweredMore(dispatcher, relied, start, all, trace, result, first);
  }

  lemma Stopped(before: seq<Result>, result: Result)
    requires Tolerable(before) && Fatal(Changed(before), result)
    ensures StoppedAtLast(before + [result])
  {
    assert (before + [result])[..|before|] == before;
  }

  /** One call, its result, and whether the turn fails on it. */
  method RunCall(dispatcher: Dispatcher, requested: Requested, changedSeen: bool, before: seq<Result>,
                 ghost start: Db, ghost all: seq<Requested>, ghost first: nat)
    returns (ok: bool, changed: bool, trace: seq<Result>)
    requires dispatcher.Valid() && dispatcher.round.Some? && |before| < |all| && requested == all[|before|]
    requires Kept(dispatcher, dispatcher.db, dispatcher.known, dispatcher.round.value, start, all, before, first)
    requires Tolerable(before) && changedSeen == Changed(before)
    modifies dispatcher`db, dispatcher`known, dispatcher`writes
    ensures dispatcher.Valid() && Within(old(dispatcher.known), dispatcher.known) && old(dispatcher.writes) <= dispatcher.writes
    ensures forall k :: |old(dispatcher.writes)| <= k < |dispatcher.writes| ==> dispatcher.writes[k].frozen == dispatcher.round.value
    ensures |trace| == |before| + 1 && before <= trace && Kept(dispatcher, dispatcher.db, dispatcher.known, dispatcher.round.value, start, all, trace, first)
    ensures changed == Changed(trace) && if ok then Tolerable(trace) else StoppedAtLast(trace)
  {
    var done := dispatcher.Execute(requested.call);
    var mutation := Mutation(requested.call);
    var result := Result(done, done && mutation && requested.changes, mutation, requested.clarification,
                         if done && mutation then Some(Provisional) else None);
    Extended(before, result);
    KeptMore(dispatcher, old(dispatcher.db), old(dispatcher.known), dispatcher.round.value, start, all, before, first, result);
    if Fatal(changedSeen, result) {
      Stopped(before, result);
    }
    trace := before + [result];
    ok := done || !(changedSeen || (mutation && !requested.clarification));
    changed := changedSeen || result.changed;
  }

  /** The loop over the calls of a round that has begun; it stops at the first result that is not tolerated. */
  method RunCalls(dispatcher: Dispatcher, calls: seq<Requested>, before: seq<Result>, changedSeen: bool,
                  ghost start: Db, ghost earlier: seq<Requested>)
    returns (ok: bool, changed: bool, trace: seq<Result>)
    requires dispatcher.Valid() && dispatcher.round.Some? && |earlier| == |before|
    requires Kept(dispatcher, dispatcher.db, dispatcher.known, dispatcher.round.value, start, earlier + calls, before, |before|)
    requires Tolerable(before) && changedSeen == Changed(before)
    modifies dispatcher`db, dispatcher`known, dispatcher`writes
    ensures dispatcher.Valid() && Within(old(dispatcher.known), dispatcher.known) && old(dispatcher.writes) <= dispatcher.writes
    ensures forall k :: |old(dispatcher.writes)| <= k < |dispatcher.writes| ==> dispatcher.writes[k].frozen == dispatcher.round.value
    ensures before <= trace
      && Kept(dispatcher, dispatcher.db, dispatcher.known, dispatcher.round.value, start, earlier + calls, trace, |before|)
    ensures changed == Changed(trace)
    ensures ok ==> Tolerable(trace) && |trace| == |before| + |calls|
    ensures !ok ==> StoppedAtLast(trace) && |before| < |trace|
  {
    ghost var all := earlier + calls;
    trace, changed, ok := before, changedSeen, true;
    for i := 0 to |calls|
      invariant dispatcher.Valid() && Within(old(dispatcher.known), dispatcher.known)
      invariant old(dispatcher.writes) <= dispatcher.writes
      invariant forall k :: |old(dispatcher.writes)| <= k < |dispatcher.writes| ==> dispatcher.writes[k].frozen == dispatcher.round.value
      invariant |trace| == |before| + i && before <= trace && Tolerable(trace)
      invariant Kept(dispatcher, dispatcher.db, dispatcher.known, dispatcher.round.value, start, all, trace, |before|)
      invariant ok && changed == Changed(trace)
    {
      assert all[|trace|] == calls[i];
      ok, changed, trace := RunCall(dispatcher, calls[i], changed, trace, start, all, |before|);
      if !ok {
        return;
      }
    }
  }

  /** The calls of one round; false when the turn has failed, at the first result that is not tolerated. */
  method RunRound(dispatcher: Dispatcher, calls: seq<Requested>, before: seq<Result>, changedSeen: bool,
                  ghost start: Db, ghost earlier: seq<Requested>)
    returns (ok: bool, changed: bool, trace: seq<Result>)
    requires BetweenRounds(dispatcher) && Provisionally(before) && Tolerable(before) && changedSeen == Changed(before)
    requires |earlier| == |before| && Receipts(before, earlier)
    requires dispatcher.db == Applied(dispatcher, start, earlier, before) && dispatcher.known == Taught(dispatcher, start, earlier, before)
    modifies dispatcher
    ensures BetweenRounds(dispatcher) && dispatcher.round == None
    ensures Within(old(dispatcher.known), dispatcher.known) && old(dispatcher.writes) <= dispatcher.writes
    // Every write of the round relies on what was known when the round began.
    ensures dispatcher.rounds == old(dispatcher.rounds) + [Round(old(dispatcher.known), |old(dispatcher.writes)|)]
    // So does every answer, on the database as the calls before left it.
    ensures before <= trace && Kept(dispatcher, dispatcher.db, dispatcher.known, old(dispatcher.known), start, earlier + calls, trace, |before|)
    ensures changed == Changed(trace)
    ensures ok ==> Tolerable(trace) && |trace| == |before| + |calls|
    ensures !ok ==> StoppedAtLast(trace) && |before| < |trace|
  {
    dispatcher.BeginRound();
    AppliedMore(dispatcher, start, earlier, earlier + calls, before);
    ok, changed, trace := RunCalls(dispatcher, calls, before, changedSeen, start, earlier);
    OneMoreRound(old(dispatcher.rounds), old(dispatcher.writes), dispatcher.writes, old(dispatcher.known));
    dispatcher.EndRound();
  }

  /** The calls requested in the first rounds. */
  function CallsOf(llm: nat -> Response, rounds: nat): seq<Requested> {
    if rounds == 0 then []
    else CallsOf(llm, rounds - 1) + (if llm(rounds - 1).Response? then llm(rounds - 1).calls else [])
  }

  /** In each of these rounds the model requested calls. */
  predicate Busy(llm: nat -> Response, rounds: nat) {
    rounds == 0 || (Busy(llm, rounds - 1) && llm(rounds - 1).Response? && llm(rounds - 1).calls != [])
  }

  /**
   * How a run ends after this many rounds: with the model's failure; with final words, unless these
   * are missing after a change; at the first result that is not tolerated; or when no round is left.
   */
  predicate EndsWith(llm: nat -> Response, maxRounds: nat, rounds: nat, outcome: Outcome, trace: seq<Result>) {
    && 1 <= rounds <= maxRounds && Busy(llm, rounds - 1) && Receipts(trace, CallsOf(llm, rounds))
    && var last, all := llm(rounds - 1), |trace| == |CallsOf(llm, rounds)|;
       if last.LlmFails? then outcome.Failed? && all && Tolerable(trace)
       else if last.calls == [] then
         && all && Tolerable(trace)
         && outcome == if Changed(trace) && last.content == "" then Failed else Completed(last.content, Changed(trace))
       else
         && outcome.Failed? && |CallsOf(llm, rounds - 1)| < |trace|
         && (StoppedAtLast(trace) || (rounds == maxRounds && all && Tolerable(trace)))
  }

  /** Relabelling does not change how a run ended. */
  lemma EndsRelabelled(llm: nat -> Response, maxRounds: nat, rounds: nat, outcome: Outcome, trace: seq<Result>, state: CommitState)
    requires EndsWith(llm, maxRounds, rounds, outcome, trace)
    ensures EndsWith(llm, maxRounds, rounds, outcome, Relabelled(trace, state))
  {
    RelabelKeeps(trace, state);
    RelabelStops(trace, state);
  }

  /** Where the calls requested so far have left the database and what is known. */
  ghost predicate Stands(dispatcher: Dispatcher, start: Db, calls: seq<Requested>, trace: seq<Result>)
    reads dispatcher
  {
    && Provisionally(trace) && Receipts(trace, calls)
    && dispatcher.db == Applied(dispatcher, start, calls, trace) && dispatcher.known == Taught(dispatcher, start, calls, trace)
  }

  /** The round with this number, from the model's response on; `more` when the run goes on. */
  method NextRound(dispatcher: Dispatcher, llm: nat -> Response, maxRounds: nat, rounds: nat, before: seq<Result>, changedSeen: bool,
                   ghost start: Db)
    returns (more: bool, outcome: Outcome, changed: bool, trace: seq<Result>)
    requires BetweenRounds(dispatcher) && 1 <= rounds <= maxRounds && |dispatcher.rounds| < rounds
    requires changedSeen == Changed(before) && Underway(llm, rounds - 1, before)
    requires Stands(dispatcher, start, CallsOf(llm, rounds - 1), before)
    modifies dispatcher
    ensures BetweenRounds(dispatcher) && |dispatcher.rounds| <= rounds
    ensures changed == Changed(trace) && Stands(dispatcher, start, CallsOf(llm, rounds), trace)
    ensures if more then outcome.Failed? && Underway(llm, rounds, trace) else EndsWith(llm, maxRounds, rounds, outcome, trace)
  {
    var response := llm(rounds - 1);
    more, outcome, changed, trace := false, Failed, changedSeen, before;
    if response.LlmFails? || response.calls == [] {
      LastWords(llm, maxRounds, rounds, trace);
      if response.Response? && !(changedSeen && response.content == "") {
        outcome := Completed(response.content, changedSeen);
      }
    } else {
      more, changed, trace := RunRound(dispatcher, response.calls, before, changedSeen, start, CallsOf(llm, rounds - 1));
      RoundAdded(llm, maxRounds, rounds, before, trace, more);
    }
  }

  /** The loop over the rounds; a run that fails stops here, before its rollback. */
  method RunRounds(dispatcher: Dispatcher, llm: nat -> Response, maxRounds: nat)
    returns (outcome: Outcome, trace: seq<Result>, rounds: nat)
    requires BetweenRounds(dispatcher) && dispatcher.rounds == [] && dispatcher.known == NOTHING && maxRounds >= 1
    modifies dispatcher
    ensures BetweenRounds(dispatcher) && |dispatcher.rounds| <= rounds
    ensures EndsWith(llm, maxRounds, rounds, outcome, trace)
    ensures Stands(dispatcher, old(dispatcher.db), CallsOf(llm, rounds), trace)
  {
    var changed, more := false, true;
    trace, rounds, outcome := [], 0, Failed;
    while more && rounds < maxRounds
      invariant BetweenRounds(dispatcher) && |dispatcher.rounds| <= rounds <= maxRounds && changed == Changed(trace)
      invariant Stands(dispatcher, old(dispatcher.db), CallsOf(llm, rounds), trace)
      invariant if more then outcome.Failed? && Underway(llm, rounds, trace) else EndsWith(llm, maxRounds, rounds, outcome, trace)
      decreases maxRounds - rounds
    {
      rounds := rounds + 1;
      more, outcome, changed, trace := NextRound(dispatcher, llm, maxRounds, rounds, trace, changed, old(dispatcher.db));
    }
  }

  /** A round's results are added: the run goes on, or it stops at the last of them. */
  lemma RoundAdded(llm: nat -> Response, maxRounds: nat, rounds: nat, before: seq<Result>, trace: seq<Result>, ok: bool)
    requires 1 <= rounds <= maxRounds && Underway(llm, rounds - 1, before) && llm(rounds - 1).Response?
    requires llm(rounds - 1).calls != [] && Receipts(trace, CallsOf(llm, rounds - 1) + llm(rounds - 1).calls)
    requires if ok then Tolerable(trace) && |trace| == |before| + |llm(rounds - 1).calls|
             else StoppedAtLast(trace) && |before| < |trace|
    ensures if ok then Underway(llm, rounds, trace) else EndsWith(llm, maxRounds, rounds, Failed, trace)
  {
    assert CallsOf(llm, rounds) == CallsOf(llm, rounds - 1) + llm(rounds - 1).calls;
  }

  /** The model fails, or answers without a call. */
  lemma LastWords(llm: nat -> Response, maxRounds: nat, rounds: nat, trace: seq<Result>)
    requires 1 <= rounds <= maxRounds && Underway(llm, rounds - 1, trace)
    requires llm(rounds - 1).LlmFails? || llm(rounds - 1).calls == []
    ensures CallsOf(llm, rounds) == CallsOf(llm, rounds - 1)
    ensures EndsWith(llm, maxRounds, rounds,
      if llm(rounds - 1).LlmFails? || (Changed(trace) && llm(rounds - 1).content == "") then Failed
      else Completed(llm(rounds - 1).content, Changed(trace)), trace)
  {
    assert CallsOf(llm, rounds) == CallsOf(llm, rounds - 1);
  }

  /** After this many rounds, all calls were run and nothing stopped the run. */
  predicate Underway(llm: nat -> Response, rounds: nat, trace: seq<Result>) {
    && Busy(llm, rounds) && Tolerable(trace)
    && Receipts(trace, CallsOf(llm, rounds)) && |trace| == |CallsOf(llm, rounds)|
    && (rounds > 0 ==> |CallsOf(llm, rounds - 1)| < |trace|)
  }

  /**
   * `AgentRunner.run`.  At most `maxRounds` rounds; `EndsWith` says how the run ends, given the model's
   * responses and which of their calls succeed.  A completed run leaves what its successful changes made
   * of the database, one after another, and is labelled committed; a failed one left the database as it was and is labelled rolled back.  Either way every
   * write was justified and relied on what was known when its own round began.
   */
  method Run(dispatcher: Dispatcher, llm: nat -> Response, maxRounds: nat) returns (outcome: Outcome, trace: seq<Result>, rounds: nat)
    requires dispatcher.Valid() && dispatcher.known == NOTHING && dispatcher.writes == [] && dispatcher.rounds == [] && maxRounds >= 1
    modifies dispatcher
    ensures BetweenRounds(dispatcher) && |dispatcher.rounds| <= rounds
    ensures EndsWith(llm, maxRounds, rounds, outcome, trace)
    ensures dispatcher.known == Taught(dispatcher, old(dispatcher.db), CallsOf(llm, rounds), trace)
    ensures dispatcher.db
            == if outcome.Failed? then old(dispatcher.db) else Applied(dispatcher, old(dispatcher.db), CallsOf(llm, rounds), trace)
    ensures Labelled(trace, if outcome.Completed? then Committed else RolledBack)
  {
    var snapshot := dispatcher.db;
    outcome, trace, rounds := RunRounds(dispatcher, llm, maxRounds);
    var state := if outcome.Completed? then Committed else RolledBack;
    if outcome.Failed? {
      dispatcher.Rollback(snapshot);
    }
    EndsRelabelled(llm, maxRounds, rounds, outcome, trace, state);
    AppliedRelabelled(dispatcher, old(dispatcher.db), CallsOf(llm, rounds), trace, state);
    trace := Settle(trace, state);
  }

  /** Exactly the successful mutations carry a label, and it is this one. */
  predicate Labelled(trace: seq<Result>, state: CommitState) {
    forall i :: 0 <= i < |trace| ==>
      (trace[i].commit.Some? <==> trace[i].ok && trace[i].mutation)
      && (trace[i].commit.Some? ==> trace[i].commit == Some(state))
  }

  /** Rewriting the provisional labels, result by result. */
  method Settle(trace: seq<Result>, state: CommitState) returns (settled: seq<Result>)
    ensures settled == Relabelled(trace, state)
    ensures Provisionally(trace) ==> Labelled(settled, state)
  {
    settled := [];
    for i := 0 to |trace|
      invariant |settled| == i && forall k :: 0 <= k < i ==> settled[k] == Relabelled(trace, state)[k]
    {
      settled := settled + [if trace[i].commit == Some(Provisional) then trace[i].(commit := Some(state)) else trace[i]];
    }
  }

  lemma RelabelKeeps(trace: seq<Result>, state: CommitState)
    ensures Changed(Relabelled(trace, state)) == Changed(trace)
    ensures Tolerable(trace) ==> Tolerable(Relabelled(trace, state))
  {
    var settled := Relabelled(trace, state);
    forall i | 0 <= i <= |trace| ensures Changed(settled[..i]) == Changed(trace[..i]) {
      SameChanges(settled[..i], trace[..i]);
    }
    assert settled[..|trace|] == settled && trace[..|trace|] == trace;
    if Tolerable(trace) {
      forall i | 0 <= i < |trace| ensures !Fatal(Changed(settled[..i]), settled[i]) {
        assert !Fatal(Changed(trace[..i]), trace[i]);
      }
    }
  }

  lemma RelabelStops(trace: seq<Result>, state: CommitState)
    ensures StoppedAtLast(trace) ==> StoppedAtLast(Relabelled(trace, state))
  {
    if StoppedAtLast(trace) {
      var n := |trace|;
      RelabelKeeps(trace[..n - 1], state);
      assert Relabelled(trace, state)[..n - 1] == Relabelled(trace[..n - 1], state);
    }
  }

  lemma SameChanges(a: seq<Result>, b: seq<Result>)
    requires |a| == |b| && forall i :: 0 <= i < |a| ==> a[i].changed == b[i].changed
    ensures Changed(a) == Changed(b)
  {
    if Changed(a) {
      var i :| 0 <= i < |a| && a[i].changed;
      assert b[i].changed;
    }
    if Changed(b) {
      var i :| 0 <= i < |b| && b[i].changed;
      assert a[i].changed;
    }
  }
}
