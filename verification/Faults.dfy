/** Primitives that may fail, and what a sequence of them says about the faults on its way. */
module Faults {
  /** What becomes of one primitive: it happens, an exception is raised, or the run is interrupted. */
  datatype Fate = Works | Raises | Interrupts

  /** The primitives that do not simply happen, by their moment. */
  type Fates = map<nat, Fate>

  function FateAt(fates: Fates, now: nat): Fate {
    if now in fates then fates[now] else Works
  }

  predicate FaultAt(fates: Fates, t: nat) {
    !FateAt(fates, t).Works?
  }

  ghost predicate AtMostOneFault(fates: Fates) {
    forall t: nat, u: nat {:trigger FaultAt(fates, t), FaultAt(fates, u)} :: FaultAt(fates, t) && FaultAt(fates, u) ==> t == u
  }

  ghost predicate TwoFaults(fates: Fates, from: nat, to: nat) {
    exists t: nat, u: nat {:trigger FaultAt(fates, t), FaultAt(fates, u)} ::
      from <= t < u < to && FaultAt(fates, t) && FaultAt(fates, u)
  }

  /** No fault in this time. */
  ghost predicate Smooth(fates: Fates, from: nat, to: nat) {
    forall t: nat {:trigger FaultAt(fates, t)} :: from <= t < to ==> !FaultAt(fates, t)
  }

  /** The first fault in this time is of this kind. */
  ghost predicate FirstFault(fates: Fates, from: nat, to: nat, fate: Fate) {
    exists t: nat {:trigger FaultAt(fates, t)} :: from <= t < to && FaultAt(fates, t) && FateAt(fates, t) == fate && Smooth(fates, from, t)
  }

  /** All primitives of this time happened but the last, which ended like this; or, if blocked, an obstacle made it raise. */
  ghost predicate EndsAs(fates: Fates, from: nat, to: nat, fate: Fate, blocked: bool) {
    if fate.Works? then from <= to && Smooth(fates, from, to)
    else
      && from < to && Smooth(fates, from, to - 1)
      && (FateAt(fates, to - 1) == fate || (blocked && fate.Raises? && !FaultAt(fates, to - 1)))
  }

  /** Something of this kind befell a primitive in this time. */
  ghost predicate HappensIn(fates: Fates, from: nat, to: nat, fate: Fate) {
    exists t: nat {:trigger FaultAt(fates, t)} :: from <= t < to && FaultAt(fates, t) && FateAt(fates, t) == fate
  }

  /** How it went is accounted for: success by the absence of faults, failure by a fault or by what stood in the way. */
  ghost predicate Accounted(fates: Fates, from: nat, to: nat, fate: Fate, blocked: bool) {
    && from <= to
    && match fate
       case Works => Smooth(fates, from, to)
       case Raises => blocked || HappensIn(fates, from, to, Raises)
       case Interrupts => HappensIn(fates, from, to, Interrupts)
  }

  /** A failure is due to the first fault, or to what stood in the way. */
  lemma FailureHasFault(fates: Fates, from: nat, mid: nat, to: nat, fate: Fate, blocked: bool)
    requires EndsAs(fates, from, mid, fate, blocked) && !fate.Works? && mid <= to
    ensures FirstFault(fates, from, to, fate) || (fate.Raises? && blocked)
  {
    if FaultAt(fates, mid - 1) {
      assert FateAt(fates, mid - 1) == fate;
    }
  }

  /** A failure after a fault is due to a second one, or to what stood in the way. */
  lemma SecondFault(fates: Fates, from: nat, mid: nat, to: nat, fate: Fate, blocked: bool)
    requires from < mid && FaultAt(fates, mid - 1) && EndsAs(fates, mid, to, fate, blocked) && !fate.Works?
    ensures TwoFaults(fates, from, to) || blocked
  {
    assert FaultAt(fates, to - 1) || blocked;
  }

  lemma FaultsStay(fates: Fates, from: nat, mid: nat, to: nat)
    requires from <= mid <= to
    ensures forall fate: Fate :: FirstFault(fates, from, mid, fate) ==> FirstFault(fates, from, to, fate)
    ensures TwoFaults(fates, from, mid) ==> TwoFaults(fates, from, to)
  {
  }

  /** A failure after a raised fault is due to a second one. */
  lemma FaultAfterFault(fates: Fates, from: nat, mid: nat, to: nat, fate: Fate)
    requires HappensIn(fates, from, mid, Raises) && Accounted(fates, mid, to, fate, false)
    ensures !fate.Works? ==> TwoFaults(fates, from, to)
  {
    if !fate.Works? {
      var t: nat :| from <= t < mid && FaultAt(fates, t);
      var u: nat :| mid <= u < to && FaultAt(fates, u) && FateAt(fates, u) == fate;
    }
  }
}
