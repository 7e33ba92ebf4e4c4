/**
  An assignment from its first step to its end: what it has done at any moment in between, and what an error of the
  matcher leaves behind.
*/
module SchedulerAssignment {
  import opened Networks
  import opened Tallies
  import opened SchedulerState
  import opened SchedulerIndex
  import opened SchedulerAccounts
  import opened SchedulerSteps
  import opened SchedulerRuns

  ghost predicate Gone(a: State, b: State, t: nat)
  {
    t in a.targets && t !in b.targets
  }

  /** Only targets of ready networks of the queue went, and no target came or changed. */
  ghost predicate OnlyPopped(a: State, b: State, q: nat)
  {
    && (forall t :: t in b.targets ==> t in a.targets && b.targets[t] == a.targets[t])
    && (forall t :: Gone(a, b, t) ==> a.targets[t].queue == q && !Hot(a, a.targets[t].hash))
  }

  /** The rules let the taken targets pass and exclude the dropped ones; what was taken was there before. */
  ghost predicate Sorted(a: State, b: State, rules: seq<Exclusion>, taken: seq<Line>, dropped: seq<Line>)
  {
    && (forall x :: x in taken ==> MatchAll(rules, x, a.parse(x)) == Clear)
    && (forall x :: x in dropped ==> MatchAll(rules, x, a.parse(x)) == Excluded)
    && (forall x :: x in taken ==> exists t :: Gone(a, b, t) && a.targets[t].text == x)
  }

  /** A state in the middle of an assignment: targets of the queue were taken and dropped, heat was added. */
  ghost predicate Midway(a: State, b: State, q: nat, rules: seq<Exclusion>, taken: seq<Line>, dropped: seq<Line>)
  {
    && b == a.(targets := b.targets, readynet := b.readynet, heatmap := b.heatmap, hands := Assigning(q, rules, taken),
               ledger := a.ledger.(excluded := a.ledger.excluded + multiset(dropped)))
    && OnlyPopped(a, b, q) && Sorted(a, b, rules, taken, dropped)
    && (forall x :: Queued(a)[x] == Queued(b)[x] + multiset(taken)[x] + multiset(dropped)[x])
    && (forall h :: Heat(b, h) == Heat(a, h) + multiset(Hashes(a.parse, taken))[h])
  }

  /** What a finished assignment did. */
  ghost predicate Served(a: State, b: State, q: nat, rules: seq<Exclusion>, taken: seq<Line>, dropped: seq<Line>)
  {
    && b.hands.Idle?
    && Midway(a, b.(jobs := a.jobs, nextJob := a.nextJob, hands := Assigning(q, rules, taken)), q, rules, taken,
              dropped)
    && b.nextJob == a.nextJob + (if taken == [] then 0 else 1)
    && b.jobs == if taken == [] then a.jobs else a.jobs[a.nextJob := Job(q, taken, None)]
  }

  /**
    What an assignment did that ended with an error of the matcher on a target: that target is lost, the targets taken
    before it are stranded, and their heat stays.
  */
  ghost predicate Failed(a: State, b: State, q: nat, rules: seq<Exclusion>, taken: seq<Line>, dropped: seq<Line>,
                         u: nat)
  {
    && Gone(a, b, u) && Judged(a, rules, u) == Raised
    && b == a.(targets := b.targets, readynet := b.readynet, heatmap := b.heatmap, hands := Idle,
               ledger := a.ledger.(excluded := a.ledger.excluded + multiset(dropped),
                                   lost := a.ledger.lost + multiset{a.targets[u].text},
                                   stranded := a.ledger.stranded + multiset(taken),
                                   leaked := a.ledger.leaked + multiset(Hashes(a.parse, taken))))
    && OnlyPopped(a, b, q) && Sorted(a, b, rules, taken, dropped)
    && q in a.queues && |taken| < a.queues[q].groupSize && !Hot(b, a.targets[u].hash)
    && (forall x :: Queued(a)[x] == Queued(b)[x] + multiset(taken)[x] + multiset(dropped)[x]
                                    + multiset{a.targets[u].text}[x])
    && (forall h :: Heat(b, h) == Heat(a, h) + multiset(Hashes(a.parse, taken))[h])
  }

  // ---------------------------------------------------------------------------------------------------------
  // One step
  // ---------------------------------------------------------------------------------------------------------

  lemma MidwayStart(a: State, q: nat, rules: seq<Exclusion>)
    ensures Midway(a, BeginAssign(a, q, rules), q, rules, [], [])
  {
    hide Total;
    HashesNone(a.parse);
    assert a.ledger.excluded + multiset([]) == a.ledger.excluded;
    HeatOnly(a, BeginAssign(a, q, rules));
  }

  lemma PoppedOnly(s: State, t: nat)
    requires t in s.targets
    ensures var p := PopTarget(s, t);
            p == s.(targets := p.targets, readynet := p.readynet) && p.targets == s.targets - {t}
  {
  }

  lemma MidwayMeans(a: State, b: State, q: nat, rules: seq<Exclusion>, taken: seq<Line>, dropped: seq<Line>)
    requires Midway(a, b, q, rules, taken, dropped)
    ensures a.parse == b.parse && a.jobs == b.jobs && a.nextJob == b.nextJob && b.hands == Assigning(q, rules, taken)
    ensures a.queues == b.queues && a.level == b.level && SameLosses(a.ledger, b.ledger)
    ensures OnlyPopped(a, b, q) && forall h :: Heat(b, h) == Heat(a, h) + multiset(Hashes(a.parse, taken))[h]
  {
    hide Total, Hashes, OnlyPopped, Sorted;
  }

  /** A target that can be popped is in a network that was not hot at the start either. */
  lemma ReadyBefore(a: State, b: State, q: nat, rules: seq<Exclusion>, taken: seq<Line>, dropped: seq<Line>, t: nat)
    requires Midway(a, b, q, rules, taken, dropped) && Inv(b) && Poppable(b, t)
    ensures t in a.targets && a.targets[t] == b.targets[t] && a.targets[t].queue == q
    ensures !Hot(a, a.targets[t].hash) && !Hot(b, a.targets[t].hash)
    ensures OnlyPopped(a, b.(targets := b.targets - {t}), q)
  {
    hide Total, Hashes, Ready, Sorted, HeatOwed, Conserved, Heat, Midway;
    MidwayMeans(a, b, q, rules, taken, dropped);
    ExactMeans(b);
    assert ExactAt(b, q, b.targets[t].hash);
    assert Heat(a, b.targets[t].hash) <= Heat(b, b.targets[t].hash);
  }

  lemma SortedMore(a: State, b: State, rules: seq<Exclusion>, taken: seq<Line>, dropped: seq<Line>, t: nat, p: State)
    requires Sorted(a, b, rules, taken, dropped) && t in a.targets && t in b.targets && p.targets == b.targets - {t}
    ensures Judged(a, rules, t) == Clear ==> Sorted(a, p, rules, taken + [a.targets[t].text], dropped)
    ensures Judged(a, rules, t) == Excluded ==> Sorted(a, p, rules, taken, dropped + [a.targets[t].text])
    ensures Sorted(a, p, rules, taken, dropped)
  {
    hide MatchAll;
    assert Gone(a, p, t);
    forall x | x in taken
      ensures exists u :: Gone(a, p, u) && a.targets[u].text == x
    {
      var u :| Gone(a, b, u) && a.targets[u].text == x;
      assert Gone(a, p, u);
    }
  }

  lemma MidwayTake(a: State, b: State, q: nat, rules: seq<Exclusion>, taken: seq<Line>, dropped: seq<Line>, t: nat)
    requires Midway(a, b, q, rules, taken, dropped) && Inv(b) && Poppable(b, t) && Judged(b, rules, t) == Clear
    ensures Midway(a, Take(b, t), q, rules, taken + [b.targets[t].text], dropped)
  {
    hide Total, Ready, HashOf, Hashes, TargetBags, PopTarget, HeatmapPut, Inv, Sorted, OnlyPopped, Heat, MatchAll, Hot;
    var text := b.targets[t].text;
    var popped := PopTarget(b, t);
    var put := HeatmapPut(popped, b.targets[t].hash);
    var p := Take(b, t);
    InvSound(b);
    PoppedOnly(b, t);
    PoppedBags(b, t);
    PutOnly(popped, b.targets[t].hash);
    ReadyBefore(a, b, q, rules, taken, dropped, t);
    PoppedSame(a, b.(targets := b.targets - {t}), p, q);
    SortedMore(a, b, rules, taken, dropped, t, p);
    assert Queued(p) == Queued(popped);
    HashesAppend(a.parse, taken, text);
    HeatOnly(put, p);
    HeatOnly(b, popped);
  }

  lemma PoppedSame(a: State, b: State, p: State, q: nat)
    requires OnlyPopped(a, b, q) && p.targets == b.targets
    ensures OnlyPopped(a, p, q)
  {
    hide Hot;
    assert forall t :: Gone(a, p, t) ==> Gone(a, b, t);
  }

  lemma MidwayDrop(a: State, b: State, q: nat, rules: seq<Exclusion>, taken: seq<Line>, dropped: seq<Line>, t: nat)
    requires Midway(a, b, q, rules, taken, dropped) && Inv(b) && Poppable(b, t) && Judged(b, rules, t) == Excluded
    ensures Midway(a, Drop(b, t), q, rules, taken, dropped + [b.targets[t].text])
  {
    hide Total, Ready, HashOf, Hashes, TargetBags, PopTarget, Inv, Sorted, OnlyPopped, Heat, MatchAll, Hot;
    var p := Drop(b, t);
    InvSound(b);
    PoppedOnly(b, t);
    PoppedBags(b, t);
    ReadyBefore(a, b, q, rules, taken, dropped, t);
    PoppedSame(a, b.(targets := b.targets - {t}), p, q);
    SortedMore(a, b, rules, taken, dropped, t, p);
    assert Queued(p) == Queued(PopTarget(b, t));
    assert a.ledger.excluded + multiset(dropped + [b.targets[t].text])
        == a.ledger.excluded + multiset(dropped) + multiset{b.targets[t].text};
    HeatOnly(b, p);
  }

  lemma MidwayCrash(a: State, b: State, q: nat, rules: seq<Exclusion>, taken: seq<Line>, dropped: seq<Line>, u: nat)
    requires a.hands.Idle? && Midway(a, b, q, rules, taken, dropped) && Inv(b) && Poppable(b, u)
    requires Judged(b, rules, u) == Raised
    ensures Failed(a, Crash(b, u), q, rules, taken, dropped, u)
  {
    hide Total, Ready, HashOf, Hashes, TargetBags, PopTarget, Inv, Sorted, OnlyPopped, Heat, MatchAll;
    var p := Crash(b, u);
    InvSound(b);
    PoppedOnly(b, u);
    PoppedBags(b, u);
    ReadyBefore(a, b, q, rules, taken, dropped, u);
    PoppedSame(a, b.(targets := b.targets - {u}), p, q);
    SortedMore(a, b, rules, taken, dropped, u, p);
    assert Queued(p) == Queued(PopTarget(b, u));
    HeatOnly(b, p);
  }

  lemma EndsServed(a: State, b: State, q: nat, rules: seq<Exclusion>, taken: seq<Line>, dropped: seq<Line>)
    requires a.hands.Idle? && Midway(a, b, q, rules, taken, dropped)
    ensures Served(a, EndAssign(b), q, rules, taken, dropped)
  {
    hide Midway;
    MidwayMeans(a, b, q, rules, taken, dropped);
    assert EndAssign(b).(jobs := a.jobs, nextJob := a.nextJob, hands := Assigning(q, rules, taken)) == b;
  }

  /** A queue without ready networks has targets in hot networks only. */
  lemma OnlyHot(s: State, q: nat)
    requires Inv(s) && !HasReady(s, q)
    ensures forall t :: t in s.targets && s.targets[t].queue == q ==> Hot(s, s.targets[t].hash)
  {
    hide Total, HashOf, HeatOwed, Conserved, Ready, Hot;
    forall t | t in s.targets && s.targets[t].queue == q
      ensures Hot(s, s.targets[t].hash)
    {
      ReadyMeans(s, q, s.targets[t].hash);
      assert !HasReady(s, q) ==> (q, s.targets[t].hash) !in s.readynet;
    }
  }

  // ---------------------------------------------------------------------------------------------------------
  // When targets are lost, and when heat leaks
  // ---------------------------------------------------------------------------------------------------------

  /** A target that the matcher would raise on and that is ready. */
  ghost predicate Snag(s: State, q: nat, rules: seq<Exclusion>, u: nat)
  {
    u in s.targets && s.targets[u].queue == q && Judged(s, rules, u) == Raised && !Hot(s, s.targets[u].hash)
  }

  /** There is a snag among the targets of the queue. */
  ghost predicate Losable(s: State, q: nat, rules: seq<Exclusion>)
  {
    && q in s.queues && s.queues[q].active && s.queues[q].groupSize >= 1
    && exists u: nat :: Snag(s, q, rules, u)
  }

  /** A target that would be taken and one that the matcher would raise on, both ready one after the other. */
  ghost predicate Trap(s: State, q: nat, rules: seq<Exclusion>, t: nat, u: nat)
  {
    && t in s.targets && s.targets[t].queue == q && Judged(s, rules, t) == Clear && !Hot(s, s.targets[t].hash)
    && Snag(s, q, rules, u)
    && (s.targets[t].hash == s.targets[u].hash && s.level > 0 ==> Heat(s, s.targets[t].hash) + 1 < s.level)
  }

  /** The queue allows two targets, and there is a trap among its targets. */
  ghost predicate Leakable(s: State, q: nat, rules: seq<Exclusion>)
  {
    && q in s.queues && s.queues[q].active && s.queues[q].groupSize >= 2
    && exists t: nat, u: nat :: Trap(s, q, rules, t, u)
  }

  /** The events of one assignment from a queue under some rules. */
  ghost predicate IsAssignment(es: seq<Event>, q: nat, rules: seq<Exclusion>)
  {
    && es != [] && es[0].AssignBegun? && es[0].q == q && es[0].rules == rules
    && forall i :: 1 <= i < |es| ==> es[i].Taken? || es[i].Dropped? || es[i].Crashed? || es[i].AssignEnded?
  }

  /** An assignment that strands targets met a trap. */
  lemma FailedTrapped(a: State, b: State, q: nat, rules: seq<Exclusion>, taken: seq<Line>, dropped: seq<Line>, u: nat)
    requires Sound(a) && Failed(a, b, q, rules, taken, dropped, u) && taken != [] && a.queues[q].active
    ensures Leakable(a, q, rules)
  {
    hide Queued, MatchAll, HashOf;
    var x := taken[0];
    assert x in taken;
    var t :| Gone(a, b, t) && a.targets[t].text == x;
    var hashes := Hashes(a.parse, taken);
    assert hashes[0] == a.targets[t].hash && hashes[0] in multiset(hashes);
    assert Gone(a, b, u);
    assert Heat(b, a.targets[t].hash) >= Heat(a, a.targets[t].hash) + 1;
    assert Trap(a, q, rules, t, u);
  }

  /** An assignment that ended with an error met a snag. */
  lemma FailedSnagged(a: State, b: State, q: nat, rules: seq<Exclusion>, taken: seq<Line>, dropped: seq<Line>, u: nat)
    requires Failed(a, b, q, rules, taken, dropped, u) && a.queues[q].active
    ensures Losable(a, q, rules)
  {
    hide Queued, MatchAll, Hashes, Heat, Hot, Sorted;
    assert Snag(a, q, rules, u);
  }

  /** What is known of an assignment up to some point. */
  ghost predicate Leads(s: State, b: State, q: nat, rules: seq<Exclusion>, dropped: seq<Line>)
  {
    && (b.ledger.lost != s.ledger.lost ==> Losable(s, q, rules))
    && (b.ledger.leaked != s.ledger.leaked ==> Leakable(s, q, rules))
    && (b.hands.Assigning? ==> SameLosses(s.ledger, b.ledger) && Midway(s, b, q, rules, b.hands.taken, dropped))
    && !b.hands.Releasing? && q in s.queues && s.queues[q].active
  }

  lemma TakeLeads(s: State, b: State, t: nat, q: nat, rules: seq<Exclusion>, dropped: seq<Line>)
    requires Inv(b) && Leads(s, b, q, rules, dropped) && Enabled(b, Taken(t))
    ensures Leads(s, Take(b, t), q, rules, dropped)
  {
    hide Inv, Midway, Losable, Leakable, Take, MatchAll;
    var taken := b.hands.taken;
    MidwayMeans(s, b, q, rules, taken, dropped);
    MidwayTake(s, b, q, rules, taken, dropped, t);
    MidwayMeans(s, Take(b, t), q, rules, taken + [b.targets[t].text], dropped);
  }

  lemma DropLeads(s: State, b: State, t: nat, q: nat, rules: seq<Exclusion>, dropped: seq<Line>)
    requires Inv(b) && Leads(s, b, q, rules, dropped) && Enabled(b, Dropped(t))
    ensures Leads(s, Drop(b, t), q, rules, dropped + [b.targets[t].text])
  {
    hide Inv, Midway, Losable, Leakable, Drop, MatchAll;
    var taken := b.hands.taken;
    MidwayMeans(s, b, q, rules, taken, dropped);
    MidwayDrop(s, b, q, rules, taken, dropped, t);
    MidwayMeans(s, Drop(b, t), q, rules, taken, dropped + [b.targets[t].text]);
  }

  lemma CrashLeads(s: State, b: State, u: nat, q: nat, rules: seq<Exclusion>, dropped: seq<Line>)
    requires Sound(s) && s.hands.Idle? && Inv(b) && Leads(s, b, q, rules, dropped) && Enabled(b, Crashed(u))
    ensures Leads(s, Crash(b, u), q, rules, dropped)
  {
    hide Sound, Inv, Midway, Losable, Leakable, Crash, MatchAll;
    var taken := b.hands.taken;
    MidwayMeans(s, b, q, rules, taken, dropped);
    MidwayCrash(s, b, q, rules, taken, dropped, u);
    CrashLeak(s, Crash(b, u), q, rules, taken, dropped, u);
  }

  lemma EndLeads(s: State, b: State, q: nat, rules: seq<Exclusion>, dropped: seq<Line>)
    requires Leads(s, b, q, rules, dropped) && Enabled(b, AssignEnded)
    ensures Leads(s, EndAssign(b), q, rules, dropped)
  {
    hide Midway, Losable, Leakable;
  }

  lemma StepLeads(s: State, b: State, e: Event, q: nat, rules: seq<Exclusion>, before: seq<Line>)
    returns (dropped: seq<Line>)
    requires Sound(s) && s.hands.Idle? && Inv(b) && Leads(s, b, q, rules, before) && Enabled(b, e)
    requires e.Taken? || e.Dropped? || e.Crashed? || e.AssignEnded?
    ensures Leads(s, Apply(b, e), q, rules, dropped)
  {
    hide Sound, Inv, Leads, Take, Drop, Crash, EndAssign, MatchAll;
    dropped := before;
    match e
    case Taken(t) => TakeLeads(s, b, t, q, rules, dropped);
    case Dropped(t) =>
      DropLeads(s, b, t, q, rules, dropped);
      dropped := dropped + [b.targets[t].text];
    case Crashed(u) => CrashLeads(s, b, u, q, rules, dropped);
    case AssignEnded => EndLeads(s, b, q, rules, dropped);
  }

  /** Up to its end, an assignment is midway, or it met a snag and leaked heat only in a trap. */
  lemma {:induction false} AssignmentLeads(s: State, es: seq<Event>, q: nat, rules: seq<Exclusion>)
    returns (dropped: seq<Line>)
    requires Inv(s) && s.hands.Idle? && Possible(s, es) && IsAssignment(es, q, rules)
    ensures Leads(s, After(s, es), q, rules, dropped)
  {
    hide Inv, Midway, Losable, Leakable, MatchAll, After, Possible;
    var most, e := Most(es), Last(es);
    PossibleMost(s, es);
    dropped := [];
    if |es| == 1 {
      NothingYet(s);
      assert most == [];
      MidwayStart(s, q, rules);
    } else {
      hide Leads, Enabled, Apply;
      assert IsAssignment(most, q, rules);
      dropped := AssignmentLeads(s, most, q, rules);
      RunKeeps(s, most);
      InvSound(s);
      dropped := StepLeads(s, After(s, most), e, q, rules, dropped);
    }
  }

  lemma CrashLeak(s: State, p: State, q: nat, rules: seq<Exclusion>, taken: seq<Line>, dropped: seq<Line>, u: nat)
    requires Sound(s) && Failed(s, p, q, rules, taken, dropped, u) && s.queues[q].active
    ensures p.hands.Idle? && p.ledger.lost != s.ledger.lost && Losable(s, q, rules)
    ensures p.ledger.leaked != s.ledger.leaked ==> taken != [] && Leakable(s, q, rules)
  {
    hide Sound, OnlyPopped, Sorted, Total, Hashes, Heat, Hot, MatchAll, Losable, Leakable;
    FailedSnagged(s, p, q, rules, taken, dropped, u);
    assert (p.ledger.lost - s.ledger.lost)[s.targets[u].text] == 1;
    if taken == [] {
      HashesNone(s.parse);
    } else {
      FailedTrapped(s, p, q, rules, taken, dropped, u);
    }
  }

  /** The assignment begins, and takes the first target. */
  lemma TrapTakes(s: State, q: nat, rules: seq<Exclusion>, t: nat) returns (es: seq<Event>)
    requires Inv(s) && s.hands.Idle? && q in s.queues && s.queues[q].active && s.queues[q].groupSize >= 1
    requires t in s.targets && s.targets[t].queue == q && Judged(s, rules, t) == Clear && !Hot(s, s.targets[t].hash)
    ensures es == [AssignBegun(q, rules), Taken(t)] && Possible(s, es)
    ensures Poppable(BeginAssign(s, q, rules), t) && After(s, es) == Take(BeginAssign(s, q, rules), t)
  {
    hide After, Possible, Take, MatchAll, Inv, Hot, HasReady;
    FirstReady(s, q, t);
    NothingYet(s);
    AfterOne(s, [], AssignBegun(q, rules));
    BegunPoppable(s, q, rules, t);
    es := [] + [AssignBegun(q, rules)];
    AfterOne(s, es, Taken(t));
    es := es + [Taken(t)];
  }

  /** A trap springs: the first target is taken, and the matcher raises on the second. */
  lemma TrapSprings(s: State, q: nat, rules: seq<Exclusion>, t: nat, u: nat) returns (es: seq<Event>)
    requires Inv(s) && s.hands.Idle? && q in s.queues && s.queues[q].active && s.queues[q].groupSize >= 2
    requires Trap(s, q, rules, t, u)
    ensures IsAssignment(es, q, rules) && Possible(s, es)
    ensures After(s, es).hands.Idle?
    ensures After(s, es).ledger.leaked == s.ledger.leaked + multiset{s.targets[t].hash}
    ensures After(s, es).ledger.stranded == s.ledger.stranded + multiset{s.targets[t].text}
    ensures After(s, es).ledger.lost == s.ledger.lost + multiset{s.targets[u].text}
  {
    hide After, Possible, Take, BeginAssign, PopTarget, MatchAll, Inv, Hashes, Hot, Heat;
    es := TrapTakes(s, q, rules, t);
    SecondPoppable(s, q, rules, t, u);
    AfterOne(s, es, Crashed(u));
    es := es + [Crashed(u)];
    LeaksOne(s, q, rules, t, u);
  }

  lemma FirstReady(s: State, q: nat, t: nat)
    requires Inv(s) && t in s.targets && s.targets[t].queue == q && !Hot(s, s.targets[t].hash)
    ensures (q, s.targets[t].hash) in s.readynet && HasReady(s, q)
  {
    hide Total, HeatOwed, Conserved, HashOf;
    assert (s.targets[t].queue, s.targets[t].hash) in Ready(s);
    assert (q, s.targets[t].hash).0 == q;
  }

  lemma BegunPoppable(s: State, q: nat, rules: seq<Exclusion>, t: nat)
    requires q in s.queues && s.queues[q].groupSize >= 1 && t in s.targets && s.targets[t].queue == q
    requires (q, s.targets[t].hash) in s.readynet
    ensures Poppable(BeginAssign(s, q, rules), t)
    ensures Judged(BeginAssign(s, q, rules), rules, t) == Judged(s, rules, t)
  {
    hide MatchAll;
  }

  lemma SecondPoppable(s: State, q: nat, rules: seq<Exclusion>, t: nat, u: nat)
    requires Inv(s) && s.hands.Idle? && q in s.queues && s.queues[q].groupSize >= 2 && Trap(s, q, rules, t, u)
    requires Poppable(BeginAssign(s, q, rules), t)
    ensures var p := Take(BeginAssign(s, q, rules), t);
            && p.hands == Assigning(q, rules, [s.targets[t].text]) && Poppable(p, u) && Judged(p, rules, u) == Raised
            && p.targets == s.targets - {t} && p.parse == s.parse && p.ledger == s.ledger
  {
    hide Total, HeatOwed, Conserved, HashOf, Ready, MatchAll, PopTarget, HeatmapPut, Hashes;
    var b := BeginAssign(s, q, rules);
    var p := Take(b, t);
    var h, k := s.targets[t].hash, s.targets[u].hash;
    BeginAssignKeeps(s, q, rules);
    TakeKeeps(b, t);
    PoppedOnly(b, t);
    PutOnly(PopTarget(b, t), h);
    HeatOnly(HeatmapPut(PopTarget(b, t), h), p);
    HeatOnly(s, PopTarget(b, t));
    assert Heat(p, k) == Heat(s, k) + if k == h then 1 else 0;
    assert u in p.targets && p.targets[u] == s.targets[u];
    assert HasTarget(p, q, k);
    ExactMeans(p);
    assert ExactAt(p, q, k);
  }

  lemma LeaksOne(s: State, q: nat, rules: seq<Exclusion>, t: nat, u: nat)
    requires Inv(s) && s.hands.Idle? && q in s.queues && s.queues[q].groupSize >= 2 && Trap(s, q, rules, t, u)
    requires Poppable(BeginAssign(s, q, rules), t)
    ensures u in Take(BeginAssign(s, q, rules), t).targets
    ensures var after := Crash(Take(BeginAssign(s, q, rules), t), u).ledger;
            && after.leaked == s.ledger.leaked + multiset{s.targets[t].hash}
            && after.stranded == s.ledger.stranded + multiset{s.targets[t].text}
            && after.lost == s.ledger.lost + multiset{s.targets[u].text}
  {
    hide Total, Exact, HeatOwed, Conserved, HashOf, MatchAll, PopTarget, Hashes;
    SecondPoppable(s, q, rules, t, u);
    var p := Take(BeginAssign(s, q, rules), t);
    PoppedOnly(p, u);
    HashesNone(s.parse);
    HashesAppend(s.parse, [], s.targets[t].text);
    assert [] + [s.targets[t].text] == [s.targets[t].text];
  }

  /**
    From any state between operations, an assignment from a queue under some rules can leak heat if and only if the
    queue allows two targets and holds a trap.
  */
  lemma LeakableIff(s: State, q: nat, rules: seq<Exclusion>)
    requires Inv(s) && s.hands.Idle?
    ensures Leakable(s, q, rules)
            <==> exists es :: && IsAssignment(es, q, rules) && Possible(s, es)
                              && After(s, es).ledger.leaked != s.ledger.leaked
  {
    hide Inv, IsAssignment, Possible, After, Trap;
    if Leakable(s, q, rules) {
      var t: nat, u: nat :| Trap(s, q, rules, t, u);
      var es := TrapSprings(s, q, rules, t, u);
      assert s.targets[t].hash in After(s, es).ledger.leaked - s.ledger.leaked by {
        TrapHas(s, q, rules, t, u);
      }
    }
    if es :| IsAssignment(es, q, rules) && Possible(s, es) && After(s, es).ledger.leaked != s.ledger.leaked {
      var _ := AssignmentLeads(s, es, q, rules);
    }
  }

  /** A snag springs: the matcher raises on the target, which is lost. */
  lemma SnagSprings(s: State, q: nat, rules: seq<Exclusion>, u: nat) returns (es: seq<Event>)
    requires Inv(s) && s.hands.Idle? && q in s.queues && s.queues[q].active && s.queues[q].groupSize >= 1
    requires Snag(s, q, rules, u)
    ensures IsAssignment(es, q, rules) && Possible(s, es)
    ensures After(s, es).hands.Idle?
    ensures After(s, es).ledger.lost == s.ledger.lost + multiset{s.targets[u].text}
  {
    hide After, Possible, HeatmapPut, PopTarget, MatchAll, Inv, Total, Hashes;
    FirstReady(s, q, u);
    NothingYet(s);
    AfterOne(s, [], AssignBegun(q, rules));
    BegunPoppable(s, q, rules, u);
    es := [] + [AssignBegun(q, rules)];
    StepLoses(After(s, es), Crashed(u));
    AfterOne(s, es, Crashed(u));
    es := es + [Crashed(u)];
  }

  /**
    From any state between operations, an assignment from a queue under some rules can lose a target if and only if the
    queue allows a target and holds a snag.
  */
  lemma LosableIff(s: State, q: nat, rules: seq<Exclusion>)
    requires Inv(s) && s.hands.Idle?
    ensures Losable(s, q, rules)
            <==> exists es :: && IsAssignment(es, q, rules) && Possible(s, es)
                              && After(s, es).ledger.lost != s.ledger.lost
  {
    hide Inv, IsAssignment, Possible, After, Snag;
    if Losable(s, q, rules) {
      var u: nat :| Snag(s, q, rules, u);
      assert u in s.targets by { SnagHas(s, q, rules, u); }
      var es := SnagSprings(s, q, rules, u);
      assert (After(s, es).ledger.lost - s.ledger.lost)[s.targets[u].text] == 1;
    }
    if es :| IsAssignment(es, q, rules) && Possible(s, es) && After(s, es).ledger.lost != s.ledger.lost {
      var _ := AssignmentLeads(s, es, q, rules);
    }
  }

  lemma SnagHas(s: State, q: nat, rules: seq<Exclusion>, u: nat)
    requires Snag(s, q, rules, u)
    ensures u in s.targets
  {
  }

  lemma TrapHas(s: State, q: nat, rules: seq<Exclusion>, t: nat, u: nat)
    requires Trap(s, q, rules, t, u)
    ensures t in s.targets
  {
  }

  // ---------------------------------------------------------------------------------------------------------
  // Whole runs
  // ---------------------------------------------------------------------------------------------------------

  /** An assignment in a run began somewhere in it, and is midway since. */
  lemma {:induction false} RunLeads(s: State, es: seq<Event>) returns (i: nat, dropped: seq<Line>)
    requires Inv(s) && s.hands.Idle? && Possible(s, es) && After(s, es).hands.Assigning?
    ensures i < |es| && es[i].AssignBegun? && After(s, es[..i]).hands.Idle? && Inv(After(s, es[..i]))
    ensures Leads(After(s, es[..i]), After(s, es), es[i].q, es[i].rules, dropped)
  {
    hide Inv, Midway, Losable, Leakable, MatchAll, After, Possible, Leads, Apply;
    NothingYet(s);
    var most, e := Most(es), Last(es);
    PossibleMost(s, es);
    RunKeeps(s, most);
    var b := After(s, most);
    StepHands(b, e);
    if e.AssignBegun? {
      i, dropped := |most|, [];
      assert es[..i] == most;
      BegunLeads(b, e.q, e.rules);
    } else {
      i, dropped := RunLeads(s, most);
      assert es[..i] == most[..i];
      InvSound(After(s, es[..i]));
      dropped := StepLeads(After(s, es[..i]), b, e, es[i].q, es[i].rules, dropped);
    }
  }

  lemma BegunLeads(s: State, q: nat, rules: seq<Exclusion>)
    requires Enabled(s, AssignBegun(q, rules))
    ensures Leads(s, Apply(s, AssignBegun(q, rules)), q, rules, [])
  {
    hide Midway, Losable, Leakable;
    MidwayStart(s, q, rules);
  }

  /** Only an assignment that begins, or one step of it, leaves an assignment going. */
  lemma StepHands(s: State, e: Event)
    requires Enabled(s, e) && Apply(s, e).hands.Assigning?
    ensures (e.AssignBegun? && s.hands.Idle?) || (s.hands.Assigning? && (e.Taken? || e.Dropped?))
  {
    hide Ready, Total, HashOf, Lines, NewRows, Hashes, QueueBags, HeatmapPop, HeatmapPut, PopTarget, Recount, MatchAll;
    match e
    case Releveled(level) => RecountOnly(s.(level := level));
    case _ =>
  }

  /** Some assignment of a run began in a state in which its queue held a snag. */
  ghost predicate MetSnag(s: State, es: seq<Event>)
  {
    exists i :: 0 <= i < |es| && es[i].AssignBegun? && Losable(After(s, es[..i]), es[i].q, es[i].rules)
  }

  /** Some assignment of a run began in a state in which its queue held a trap. */
  ghost predicate MetTrap(s: State, es: seq<Event>)
  {
    exists i :: 0 <= i < |es| && es[i].AssignBegun? && Leakable(After(s, es[..i]), es[i].q, es[i].rules)
  }

  /** What an error costs when an assignment that is midway meets it. */
  lemma CrashCosts(s: State, b: State, u: nat, q: nat, rules: seq<Exclusion>, dropped: seq<Line>)
    requires Inv(s) && s.hands.Idle? && Inv(b) && Leads(s, b, q, rules, dropped) && Enabled(b, Crashed(u))
    ensures Losable(s, q, rules)
    ensures Apply(b, Crashed(u)).ledger.leaked != b.ledger.leaked ==> Leakable(s, q, rules)
  {
    hide Inv, Midway, Losable, Leakable, MatchAll, Hashes, PopTarget;
    InvSound(s);
    StepLoses(b, Crashed(u));
    CrashLeads(s, b, u, q, rules, dropped);
    assert (Crash(b, u).ledger.lost - s.ledger.lost)[b.targets[u].text] == 1;
  }

  lemma MetBefore(s: State, es: seq<Event>)
    requires es != []
    ensures MetSnag(s, Most(es)) ==> MetSnag(s, es)
    ensures MetTrap(s, Most(es)) ==> MetTrap(s, es)
  {
    hide Losable, Leakable, After;
    var most := Most(es);
    forall i | 0 <= i < |most|
      ensures es[..i] == most[..i]
    {
    }
    if MetSnag(s, most) {
      var i :| 0 <= i < |most| && most[i].AssignBegun? && Losable(After(s, most[..i]), most[i].q, most[i].rules);
      assert Losable(After(s, es[..i]), es[i].q, es[i].rules);
    }
    if MetTrap(s, most) {
      var i :| 0 <= i < |most| && most[i].AssignBegun? && Leakable(After(s, most[..i]), most[i].q, most[i].rules);
      assert Leakable(After(s, es[..i]), es[i].q, es[i].rules);
    }
  }

  /** Over any run, a target is lost only if some assignment met a snag, and heat leaks only if one met a trap. */
  lemma {:induction false} LostOnlyAtSnags(s: State, es: seq<Event>)
    requires Inv(s) && s.hands.Idle? && Possible(s, es)
    ensures After(s, es).ledger.lost != s.ledger.lost ==> MetSnag(s, es)
    ensures After(s, es).ledger.leaked != s.ledger.leaked ==> MetTrap(s, es)
  {
    hide Inv, Losable, Leakable, MatchAll, After, Possible, Leads, Apply, Judged, Hashes;
    NothingYet(s);
    if es != [] {
      var most, e := Most(es), Last(es);
      PossibleMost(s, es);
      LostOnlyAtSnags(s, most);
      MetBefore(s, es);
      var b := After(s, most);
      StepLoses(b, e);
      if e.Crashed? {
        var i, dropped := RunLeads(s, most);
        RunKeeps(s, most);
        assert es[..i] == most[..i];
        CrashCosts(After(s, es[..i]), b, e.t, es[i].q, es[i].rules, dropped);
      }
    }
  }

  lemma Grows<T>(bag: multiset<T>, more: seq<T>)
    ensures more != [] ==> bag + multiset(more) != bag
  {
    if more != [] {
      assert more[0] in multiset(more);
      assert (bag + multiset(more))[more[0]] == bag[more[0]] + multiset(more)[more[0]];
    }
  }

  /** Without a snag nothing is lost, stranded or leaked. */
  lemma NoSnagNoLoss(s: State, es: seq<Event>)
    requires Inv(s) && s.hands.Idle? && Possible(s, es) && !MetSnag(s, es)
    ensures SameLosses(s.ledger, After(s, es).ledger)
  {
    hide Inv, After, Possible, MetSnag, MetTrap, Hashes;
    LostOnlyAtSnags(s, es);
    var lost, stranded := Losses(s, es);
    Grows(s.ledger.lost, lost);
    HashesNone(s.parse);
  }

  /** No assignment goes by a rule that is a network. */
  ghost predicate WithoutNetworks(es: seq<Event>)
  {
    forall i :: 0 <= i < |es| && es[i].AssignBegun? ==> NoNetwork(es[i].rules)
  }

  ghost predicate NoNetwork(rules: seq<Exclusion>)
  {
    forall i :: 0 <= i < |rules| ==> !rules[i].InNetwork?
  }

  /** No line that is handed in is an enumeration with a malformed bound. */
  ghost predicate WithoutMalformed(parse: string -> Target, es: seq<Event>)
  {
    forall i :: 0 <= i < |es| && es[i].Enqueued? ==> forall x :: x in Lines(es[i].raw) ==> !Malformed(parse(x))
  }

  lemma RaisedBecause(s: State, rules: seq<Exclusion>, t: nat)
    requires t in s.targets && Judged(s, rules, t) == Raised
    ensures !NoNetwork(rules) && Malformed(s.parse(s.targets[t].text))
  {
    hide MatchAll;
    var text := s.targets[t].text;
    MatchAllOutcome(rules, text, s.parse(text));
    var i :| 0 <= i < |rules| && MatchOne(rules[i], text, s.parse(text)) == Raised;
    RaisedOnly(rules[i], text, s.parse(text));
  }

  /** Targets are those that were there or are handed in. */
  lemma StepTargets(s: State, e: Event, t: nat)
    requires Enabled(s, e) && t in Apply(s, e).targets
    ensures (t in s.targets && Apply(s, e).targets[t] == s.targets[t])
            || (e.Enqueued? && Apply(s, e).targets[t].text in Lines(e.raw))
  {
    hide Ready, Total, HashOf, Lines, NewRows, Hashes, QueueBags, HeatmapPop, MatchAll, Recount;
    match e
    case Released(gc) => CountedOnly(s, HashOf(s.parse, s.hands.rest[0]), gc);
    case Releveled(level) => RecountOnly(s.(level := level));
    case _ =>
  }

  lemma WithoutNetworksNoSnag(s: State, es: seq<Event>)
    requires WithoutNetworks(es)
    ensures !MetSnag(s, es)
  {
    hide After, MatchAll, NoNetwork, Malformed, Hot;
    if i :| 0 <= i < |es| && es[i].AssignBegun? && Losable(After(s, es[..i]), es[i].q, es[i].rules) {
      var u: nat :| Snag(After(s, es[..i]), es[i].q, es[i].rules, u);
      RaisedBecause(After(s, es[..i]), es[i].rules, u);
      assert false;
    }
  }

  ghost predicate TargetsFormed(s: State)
  {
    forall t :: t in s.targets ==> !Malformed(s.parse(s.targets[t].text))
  }

  lemma {:induction false} StaysFormed(s: State, es: seq<Event>)
    requires TargetsFormed(s) && Possible(s, es) && WithoutMalformed(s.parse, es)
    ensures TargetsFormed(After(s, es))
  {
    hide Apply, Malformed, Lines, Enabled;
    if es != [] {
      var b, e := After(s, Most(es)), Last(es);
      StaysFormed(s, Most(es));
      RunParse(s, Most(es));
      RunParse(s, es);
      forall t | t in Apply(b, e).targets
        ensures !Malformed(s.parse(Apply(b, e).targets[t].text))
      {
        StepTargets(b, e, t);
      }
    }
  }

  lemma {:induction false} PossibleUpTo(s: State, es: seq<Event>, i: nat)
    requires Possible(s, es) && i <= |es|
    ensures Possible(s, es[..i])
  {
    hide Apply, Enabled;
    if i == |es| {
      assert es[..i] == es;
    } else {
      PossibleUpTo(s, Most(es), i);
      assert Most(es)[..i] == es[..i];
    }
  }

  lemma WithoutMalformedNoSnag(s: State, es: seq<Event>)
    requires TargetsFormed(s) && Possible(s, es) && WithoutMalformed(s.parse, es)
    ensures !MetSnag(s, es)
  {
    hide After, Possible, MatchAll, NoNetwork, Malformed, Hot, Lines;
    if i :| 0 <= i < |es| && es[i].AssignBegun? && Losable(After(s, es[..i]), es[i].q, es[i].rules) {
      var u: nat :| Snag(After(s, es[..i]), es[i].q, es[i].rules, u);
      PossibleUpTo(s, es, i);
      StaysFormed(s, es[..i]);
      RaisedBecause(After(s, es[..i]), es[i].rules, u);
      assert false;
    }
  }

  /**
    Over any run from empty tables, an error of the matcher costs something only if some assignment goes by a network
    and some line that is handed in is an enumeration with a malformed bound.  Without either, every enqueued target is
    in place, and counts agree with the running jobs at every rest.
  */
  lemma NothingLost(parse: string -> Target, level: nat, es: seq<Event>)
    requires Possible(Initial(parse, level), es)
    requires WithoutNetworks(es) || WithoutMalformed(parse, es)
    ensures var s := After(Initial(parse, level), es);
            && NoLosses(s.ledger) && s.ledger.enqueued == InPlace(s)
            && (s.hands.Idle? ==> forall h :: Heat(s, h) == InFlight(s)[h])
  {
    hide After, Possible, WithoutNetworks, WithoutMalformed, Inv, InFlight, InPlace, MetSnag;
    var s := Initial(parse, level);
    InitialInv(parse, level);
    RunKeeps(s, es);
    if WithoutNetworks(es) {
      WithoutNetworksNoSnag(s, es);
    } else {
      WithoutMalformedNoSnag(s, es);
    }
    NoSnagNoLoss(s, es);
    ConservedIff(parse, level, es);
    if After(s, es).hands.Idle? {
      CheckMeans(After(s, es));
    }
  }
}
