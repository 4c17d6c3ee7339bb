/**
 What lies behind an agreement: when the check that led to it ended, and why a member that asked
 for more characters than registered could go on.
 */
module TeamGatherHistory {
  import opened TeamGather
  import opened TeamGatherSafety

  /**
   An agreement covers exactly the characters registered at the step in which its check ended:
   only those that registered after event `n` are not covered.
   */
  lemma {:induction false} CheckEndedAt(es: seq<Event>, j: nat) returns (n: nat)
    requires j < Run(Empty(), es).count
    requires var m := Run(Empty(), es).members[j]; m.phase.Deciding? && m.phase.same
    ensures n < |es| && es[n].Step? && es[n].who == j
    ensures
      var b := Run(Empty(), es[..n]);
      && j < b.count && b.members[j].phase.Checking?
      && b.members[j].phase.i >= b.count
      && Run(Empty(), es).members[j].phase.saw == b.count
      && Run(Empty(), es).members[j].phase.lost == b.members[j].phase.lost
    decreases |es|
  {
    var k := |es| - 1;
    var before := Run(Empty(), es[..k]);
    RunLast(Empty(), es);
    if before.members[j] == Run(Empty(), es).members[j] {
      n := CheckEndedAt(es[..k], j);
      assert es[..k][..n] == es[..n];
    } else {
      n := k;
    }
  }

  /** Only a member found dead while it waited for registrations goes on without them. */
  lemma {:induction false} RushedWasDown(es: seq<Event>, j: nat) returns (n: nat)
    requires j < Run(Empty(), es).count && Run(Empty(), es).members[j].rushed
    ensures n < |es| && es[n].Step? && es[n].who == j && es[n].sees.down
    ensures
      var b := Run(Empty(), es[..n]);
      j < b.count && b.members[j].phase == Attending && b.count < b.members[j].least
    decreases |es|
  {
    var k := |es| - 1;
    var before := Run(Empty(), es[..k]);
    RunLast(Empty(), es);
    if j < before.count && before.members[j].rushed {
      n := RushedWasDown(es[..k], j);
      assert es[..k][..n] == es[..n];
    } else {
      n := k;
    }
  }

  /** From now on member `j` finds its five minutes over, and is not interrupted. */
  ghost predicate Overdue(es: seq<Event>, j: nat) {
    forall e :: e in es ==> (e.Step? && e.who == j ==> e.sees.timedOut) && e != Abandon(j)
  }

  /** The five minutes end no wait: an overdue member only publishes, again and again. */
  lemma {:induction false} OverdueNeverLeaves(b: Board, es: seq<Event>, j: nat)
    requires b.Shape() && j < b.count && Overdue(es, j)
    requires b.members[j].phase == Publishing || b.members[j].phase == Published
    ensures var m := Run(b, es).members[j];
      (m.phase == Publishing || m.phase == Published) && m.stage == b.members[j].stage
    decreases |es|
  {
    if es != [] {
      assert es[0] in es && forall e :: e in es[1..] ==> e in es;
      OverdueNeverLeaves(Next(b, es[0]), es[1..], j);
    }
  }

  /** Every registered character that the leaver did not see disconnected is at its stage or beyond. */
  ghost predicate LeavesNobody(b: Board, j: nat)
    requires b.Shape() && j < b.count && b.members[j].phase.Deciding?
  {
    forall q :: 0 <= q < b.count && q !in b.members[j].phase.lost ==> b.members[j].stage <= b.published[q]
  }

  /** Whoever has agreed covers everybody registered now. */
  ghost predicate UpToDate(b: Board)
    requires b.Shape()
  {
    forall j :: 0 <= j < b.count ==> CoversAll(b.members[j].phase, b.count)
  }

  predicate CoversAll(phase: Phase, count: nat) {
    phase.Deciding? && phase.same ==> phase.saw == count
  }

  lemma {:induction false} NextKeepsUpToDate(policy: Policy, b: Board, e: Event)
    requires b.Shape() && UpToDate(b) && Permitted(policy, b, e) && AtAgreed !in policy.joins
    ensures UpToDate(Next(b, e))
  {
    var r := Next(b, e);
    forall j | 0 <= j < r.count
      ensures CoversAll(r.members[j].phase, r.count)
    {
      if j < b.count {
        assert CoversAll(b.members[j].phase, b.count);
        if e.Register? && InCall(b.members[j].phase) {
          assert PointOf(b.members[j].phase) in policy.joins;
        }
      }
    }
  }

  lemma {:induction false} RunKeepsUpToDate(policy: Policy, b: Board, es: seq<Event>)
    requires b.Shape() && UpToDate(b) && Admissible(policy, b, es) && AtAgreed !in policy.joins
    ensures UpToDate(Run(b, es))
    decreases |es|
  {
    if es != [] {
      NextKeepsUpToDate(policy, b, es[0]);
      RunKeepsUpToDate(policy, Next(b, es[0]), es[1..]);
    }
  }

  /** If nobody registers between a member's agreement and its departure, nobody at all is left behind. */
  lemma {:induction false} AgreementLeavesNobody(policy: Policy, b: Board, j: nat, o: Observation)
    requires Reachable(policy, b) && policy.resets <= SafePoints() && AtAgreed !in policy.joins
    requires b.Shape() && j < b.count && Agrees(b.members[j], o)
    ensures LeavesNobody(b, j)
  {
    var es: seq<Event> :| Admissible(policy, Empty(), es) && Run(Empty(), es) == b;
    RunKeepsUpToDate(policy, Empty(), es);
    AgreementIsSafe(policy, es, j, o);
    assert CoversAll(b.members[j].phase, b.count);
  }
}
