/**
  Whole runs of the scheduler, from any state that meets the invariant, in particular from empty tables: agents,
  operators and retries interleave in any order.
*/
module SchedulerRuns {
  import opened Networks
  import opened Tallies
  import opened SchedulerState
  import opened SchedulerIndex
  import opened SchedulerAccounts
  import opened SchedulerSteps

  function Last(es: seq<Event>): Event
    requires es != []
  {
    es[|es| - 1]
  }

  function Most(es: seq<Event>): seq<Event>
    requires es != []
  {
    es[..|es| - 1]
  }

  /** The events can happen in this order. */
  ghost predicate Possible(s: State, es: seq<Event>)
  {
    es == [] || (Possible(s, Most(es)) && Enabled(After(s, Most(es)), Last(es)))
  }

  /** The state after a run. */
  ghost function After(s: State, es: seq<Event>): State
  {
    if es == [] then s
    else
      var before := After(s, Most(es));
      if Enabled(before, Last(es)) then Apply(before, Last(es)) else before
  }

  lemma AfterOne(s: State, es: seq<Event>, e: Event)
    requires Possible(s, es) && Enabled(After(s, es), e)
    ensures Possible(s, es + [e]) && After(s, es + [e]) == Apply(After(s, es), e)
  {
    hide Apply, Enabled;
    assert Most(es + [e]) == es && Last(es + [e]) == e;
  }

  lemma PossibleMost(s: State, es: seq<Event>)
    requires Possible(s, es) && es != []
    ensures Possible(s, Most(es)) && Enabled(After(s, Most(es)), Last(es))
    ensures After(s, es) == Apply(After(s, Most(es)), Last(es))
  {
    hide Enabled, Apply;
  }

  lemma NothingYet(s: State)
    ensures After(s, []) == s && Possible(s, [])
  {
  }

  /** A run and another one from where it ends are one run. */
  lemma {:induction false} AfterBoth(s: State, es: seq<Event>, fs: seq<Event>)
    requires Possible(s, es) && Possible(After(s, es), fs)
    ensures Possible(s, es + fs) && After(s, es + fs) == After(After(s, es), fs)
    decreases |fs|
  {
    hide Apply, Enabled, After, Possible;
    if fs == [] {
      NothingYet(After(s, es));
      assert es + fs == es;
    } else {
      PossibleMost(After(s, es), fs);
      AfterBoth(s, es, Most(fs));
      AfterOne(s, es + Most(fs), Last(fs));
      assert es + fs == es + Most(fs) + [Last(fs)];
    }
  }

  // ---------------------------------------------------------------------------------------------------------
  // The invariant
  // ---------------------------------------------------------------------------------------------------------

  lemma InitialInv(parse: string -> Target, level: nat)
    ensures Inv(Initial(parse, level))
  {
    var s := Initial(parse, level);
    assert Ready(s) == {};
    assert Hashes(parse, []) == [];
  }

  lemma {:induction false} RunKeeps(s: State, es: seq<Event>)
    requires Inv(s) && Possible(s, es)
    ensures Inv(After(s, es))
  {
    hide Inv, Apply, Enabled;
    if es != [] {
      RunKeeps(s, Most(es));
      StepKeeps(After(s, Most(es)), Last(es));
    }
  }

  /**
    In every reachable state the index is its definition, what is counted is what is in flight, in the hands or
    leaked, and every enqueued target is in place, lost or stranded.
  */
  lemma Reachable(parse: string -> Target, level: nat, es: seq<Event>)
    requires Possible(Initial(parse, level), es)
    ensures var s := After(Initial(parse, level), es);
            && Inv(s)
            && (forall q: nat, h :: (q, h) in s.readynet <==> HasTarget(s, q, h) && !Hot(s, h))
            && (forall h :: Heat(s, h) == InFlight(s)[h] + multiset(Hashes(s.parse, InHands(s)))[h]
                                          + s.ledger.leaked[h])
            && s.ledger.enqueued == InPlace(s) + s.ledger.lost + s.ledger.stranded
  {
    hide After, Possible, Ready, Total;
    InitialInv(parse, level);
    RunKeeps(Initial(parse, level), es);
    var s := After(Initial(parse, level), es);
    ExactMeans(s);
    forall q: nat, h
      ensures (q, h) in s.readynet <==> HasTarget(s, q, h) && !Hot(s, h)
    {
      assert ExactAt(s, q, h);
    }
    forall x
      ensures s.ledger.enqueued[x] == Places(s, x)
    {
    }
  }

  /**
    Three things the code takes for granted hold whenever it relies on them: a row of the index has a target, a
    network to be released has a row with some heat, and no row of the index is inserted twice.
  */
  lemma Granted(s: State)
    requires Inv(s)
    ensures forall q: nat, h :: (q, h) in s.readynet ==> HasTarget(s, q, h)
    ensures s.hands.Releasing? && s.hands.rest != [] ==>
              var h := HashOf(s.parse, s.hands.rest[0]);
              h in s.heatmap && s.heatmap[h] >= 1 && !Collides(s, h)
  {
    hide Total, Ready, HashOf, Collides;
    ExactMeans(s);
    forall q: nat, h | (q, h) in s.readynet
      ensures HasTarget(s, q, h)
    {
      assert ExactAt(s, q, h);
    }
    if s.hands.Releasing? && s.hands.rest != [] {
      NextHeat(s);
      PopExact(s, HashOf(s.parse, s.hands.rest[0]), false);
    }
  }

  // ---------------------------------------------------------------------------------------------------------
  // The rate limit
  // ---------------------------------------------------------------------------------------------------------

  function Max(a: int, b: int): int
  {
    if a >= b then a else b
  }

  lemma TakeLimited(s: State, t: nat, h: Hash)
    requires Exact(s) && Sound(s) && Poppable(s, t) && s.level > 0
    ensures Take(s, t).level == s.level && Heat(Take(s, t), h) <= Max(s.level, Heat(s, h))
  {
    hide Ready, PopTarget, HeatmapPut;
    PoppedJobs(s, t);
    var row := s.targets[t];
    PopKeepsHeat(s, t);
    PutOnly(PopTarget(s, t), row.hash);
    var put := HeatmapPut(PopTarget(s, t), row.hash);
    assert Heat(put, h) == Heat(PopTarget(s, t), h) + if h == row.hash then 1 else 0;
    assert Heat(Take(s, t), h) == Heat(put, h);
    assert !Hot(s, row.hash) by {
      ExactMeans(s);
      assert ExactAt(s, row.queue, row.hash);
    }
  }

  lemma PopKeepsHeat(s: State, t: nat)
    requires t in s.targets
    ensures PopTarget(s, t).heatmap == s.heatmap
  {
  }

  /** What operations on a queue leave alone. */
  lemma QueueOnly(s: State, q: nat, raw: seq<string>)
    ensures var p := Enqueue(s, q, raw);
            p == s.(targets := p.targets, nextTarget := p.nextTarget, readynet := p.readynet, ledger := p.ledger)
    ensures var p := Flush(s, q); p == s.(targets := p.targets, readynet := p.readynet, ledger := p.ledger)
    ensures var p := DeleteQueue(s, q);
            p == s.(queues := p.queues, targets := p.targets, readynet := p.readynet, ledger := p.ledger)
  {
    hide Total, Lines, NewRows, Hashes, QueueBags;
  }

  /** One event at a fixed level heats no network above the level, or above what it was. */
  lemma StepLimited(s: State, e: Event, h: Hash)
    requires Inv(s) && Enabled(s, e) && !e.Releveled? && s.level > 0
    ensures Apply(s, e).level == s.level && Heat(Apply(s, e), h) <= Max(s.level, Heat(s, h))
  {
    hide Ready, Total, HashOf, Hashes, QueueBags, Take, Drop, Crash, HeatmapPop, MatchAll, Recount, Enqueue, Flush,
         DeleteQueue, Poppable;
    match e
    case Enqueued(q, raw) => QueueOnly(s, q, raw);
    case Flushed(q) => QueueOnly(s, q, []);
    case QueueDeleted(q) => QueueOnly(s, q, []);
    case Taken(t) => TakeLimited(s, t, h);
    case Dropped(t) => PopHeatsNone(s, t, h);
    case Crashed(t) => PopHeatsNone(s, t, h);
    case Released(gc) =>
      NextHeat(s);
      CountedOnly(s, HashOf(s.parse, s.hands.rest[0]), gc);
      HeatAfterPop(s, HashOf(s.parse, s.hands.rest[0]), gc, h);
      assert Heat(Release(s, gc), h) == Heat(HeatmapPop(s, HashOf(s.parse, s.hands.rest[0]), gc), h);
    case _ =>
  }

  lemma PopHeatsNone(s: State, t: nat, h: Hash)
    requires Poppable(s, t)
    ensures Drop(s, t).level == Crash(s, t).level == s.level
    ensures Heat(Drop(s, t), h) == Heat(Crash(s, t), h) == Heat(s, h)
  {
    hide Hashes;
  }

  ghost predicate FixedLevel(es: seq<Event>)
  {
    forall i :: 0 <= i < |es| ==> !es[i].Releveled?
  }

  lemma {:induction false} RunLimited(s: State, es: seq<Event>, h: Hash)
    requires Inv(s) && Possible(s, es) && FixedLevel(es) && s.level > 0
    ensures After(s, es).level == s.level && Heat(After(s, es), h) <= Max(s.level, Heat(s, h))
  {
    hide Inv, Apply, Enabled, Heat;
    if es != [] {
      RunKeeps(s, Most(es));
      RunLimited(s, Most(es), h);
      StepLimited(After(s, Most(es)), Last(es), h);
    }
  }

  /**
    With a fixed level, never more targets of a network are in flight than the level allows, in all queues and for
    all agents together, counting those in the hands of an assignment that is not finished.
  */
  lemma RateLimit(parse: string -> Target, level: nat, es: seq<Event>, h: Hash)
    requires level > 0 && Possible(Initial(parse, level), es) && FixedLevel(es)
    ensures var s := After(Initial(parse, level), es);
            InFlight(s)[h] + multiset(Hashes(parse, InHands(s)))[h] <= level
  {
    hide After, Possible, Total, Hashes, Ready;
    var start := Initial(parse, level);
    var s := After(start, es);
    InitialInv(parse, level);
    RunKeeps(start, es);
    RunLimited(start, es, h);
    RunParse(start, es);
    assert Heat(s, h) == Owed(s, h);
  }

  lemma {:induction false} RunParse(s: State, es: seq<Event>)
    ensures After(s, es).parse == s.parse
  {
    hide Apply, Enabled;
    if es != [] {
      RunParse(s, Most(es));
      if Enabled(After(s, Most(es)), Last(es)) {
        StepParse(After(s, Most(es)), Last(es));
      }
    }
  }

  lemma StepParse(s: State, e: Event)
    requires Enabled(s, e)
    ensures Apply(s, e).parse == s.parse
  {
  }

  // ---------------------------------------------------------------------------------------------------------
  // Jobs
  // ---------------------------------------------------------------------------------------------------------

  /** A job was issued and does not run any more. */
  predicate Closed(s: State, j: nat)
  {
    j < s.nextJob && !Running(s, j)
  }

  /** How often a job left the running state. */
  function Closings(es: seq<Event>, j: nat): nat
  {
    if es == [] then 0
    else Closings(Most(es), j) + if Last(es).ReleaseBegun? && Last(es).j == j then 1 else 0
  }

  lemma StepCloses(s: State, e: Event, j: nat)
    requires Sound(s) && Enabled(s, e)
    ensures (if Closed(Apply(s, e), j) then 1 else 0)
            == (if Closed(s, j) then 1 else 0) + if e.ReleaseBegun? && e.j == j then 1 else 0
  {
    hide Ready, Total, HashOf, Hashes, QueueBags, HeatmapPop, Take, Drop, Crash, Recount, MatchAll, Enqueue, Flush,
         DeleteQueue, Poppable;
    match e
    case Enqueued(q, raw) => QueueOnly(s, q, raw);
    case Flushed(q) => QueueOnly(s, q, []);
    case QueueDeleted(q) => QueueOnly(s, q, []);
    case Taken(t) => PopClosesNone(s, t, j);
    case Dropped(t) => PopClosesNone(s, t, j);
    case Crashed(t) => PopClosesNone(s, t, j);
    case Released(gc) => CountedOnly(s, HashOf(s.parse, s.hands.rest[0]), gc);
    case Releveled(level) => RecountOnly(s.(level := level));
    case _ =>
  }

  lemma PopClosesNone(s: State, t: nat, j: nat)
    requires Poppable(s, t)
    ensures Closed(Take(s, t), j) == Closed(Drop(s, t), j) == Closed(Crash(s, t), j) == Closed(s, j)
  {
    hide Hashes, PopTarget, HeatmapPut;
    PoppedJobs(s, t);
  }

  lemma PoppedJobs(s: State, t: nat)
    requires t in s.targets
    ensures var p := PopTarget(s, t);
            && p.jobs == s.jobs && p.nextJob == s.nextJob && p.ledger == s.ledger && p.hands == s.hands
            && var put := HeatmapPut(p, s.targets[t].hash);
            && put.jobs == s.jobs && put.nextJob == s.nextJob && put.ledger == s.ledger && put.level == s.level
  {
  }

  /** Each issued job leaves the running state exactly once if it does not run any more, and never if it does. */
  lemma {:induction false} ClosedOnce(s: State, es: seq<Event>, j: nat)
    requires Inv(s) && Possible(s, es) && s.nextJob <= j
    ensures Closings(es, j) == if Closed(After(s, es), j) then 1 else 0
  {
    hide Apply, Enabled, Inv, Closed;
    if es == [] {
      assert !Closed(s, j) by { NotIssued(s, j); }
    } else {
      ClosedOnce(s, Most(es), j);
      RunKeeps(s, Most(es));
      assert Sound(After(s, Most(es))) by { InvSound(After(s, Most(es))); }
      StepCloses(After(s, Most(es)), Last(es), j);
    }
  }

  lemma NotIssued(s: State, j: nat)
    requires s.nextJob <= j
    ensures !Closed(s, j)
  {
  }

  lemma InvExact(s: State)
    requires Inv(s)
    ensures Exact(s)
  {
  }

  lemma InvSound(s: State)
    requires Inv(s)
    ensures Sound(s)
  {
  }

  lemma StepIssues(s: State, e: Event)
    requires Enabled(s, e)
    ensures Apply(s, e).nextJob >= s.nextJob
  {
    hide Ready, Total, HashOf, Lines, NewRows, Hashes, QueueBags;
  }

  lemma {:induction false} JobsOnlyGrow(s: State, es: seq<Event>, fs: seq<Event>)
    requires Possible(s, fs) && es <= fs
    ensures After(s, es).nextJob <= After(s, fs).nextJob
    decreases |fs|
  {
    hide Apply, Enabled;
    if es != fs {
      JobsOnlyGrow(s, es, Most(fs));
      StepIssues(After(s, Most(fs)), Last(fs));
    }
  }

  lemma {:induction false} ClosingsOnlyGrow(es: seq<Event>, fs: seq<Event>, j: nat)
    requires es <= fs
    ensures Closings(es, j) <= Closings(fs, j)
    decreases |fs|
  {
    if es != fs {
      ClosingsOnlyGrow(es, Most(fs), j);
    }
  }

  /** A job that left the running state never runs again. */
  lemma StaysClosed(s: State, es: seq<Event>, fs: seq<Event>, j: nat)
    requires Inv(s) && Possible(s, es) && Possible(s, fs) && es <= fs && s.nextJob <= j
    ensures Closed(After(s, es), j) ==> Closed(After(s, fs), j)
  {
    hide Inv, After, Possible, Closed;
    ClosedOnce(s, es, j);
    ClosedOnce(s, fs, j);
    ClosingsOnlyGrow(es, fs, j);
  }

  /** The targets of the job that leaves the running state by an event. */
  function ClosedBy(s: State, e: Event): multiset<Line>
  {
    if e.ReleaseBegun? && e.j in s.jobs then multiset(s.jobs[e.j].targets) else multiset{}
  }

  ghost function ClosedTargets(s: State, es: seq<Event>): multiset<Line>
  {
    if es == [] then multiset{} else ClosedTargets(s, Most(es)) + ClosedBy(After(s, Most(es)), Last(es))
  }

  /** What was released and what is about to be. */
  function Released(s: State): multiset<Line>
  {
    s.ledger.finished + if s.hands.Releasing? then multiset(s.hands.rest) else multiset{}
  }

  lemma StepReleases(s: State, e: Event)
    requires Enabled(s, e)
    ensures Released(Apply(s, e)) == Released(s) + ClosedBy(s, e)
  {
    hide Ready, Total, HashOf, Lines, NewRows, Hashes, QueueBags, HeatmapPop, Take, Drop, Crash, Release, Recount,
         BeginRelease, EndRelease, EndAssign, ClosedBy;
    OthersCloseNone(s, e);
    match e
    case Taken(t) => PopReleases(s, t);
    case Dropped(t) => PopReleases(s, t);
    case Crashed(t) => PopReleases(s, t);
    case AssignEnded => HandsRelease(s);
    case ReleaseBegun(j, retval) => OneClosed(s, j, retval);
    case Released(gc) => OneReleased(s, gc);
    case ReleaseEnded => HandsRelease(s);
    case Releveled(level) => RecountOnly(s.(level := level));
    case _ =>
  }

  lemma OthersCloseNone(s: State, e: Event)
    ensures !e.ReleaseBegun? ==> ClosedBy(s, e) == multiset{}
  {
  }

  lemma OneClosed(s: State, j: nat, retval: int)
    requires s.hands.Idle? && j in s.jobs
    ensures Released(BeginRelease(s, j, retval)) == Released(s) + ClosedBy(s, ReleaseBegun(j, retval))
  {
  }

  lemma HandsRelease(s: State)
    ensures s.hands.Assigning? ==> Released(EndAssign(s)) == Released(s)
    ensures s.hands == Releasing([]) ==> Released(EndRelease(s)) == Released(s)
  {
  }

  lemma PopReleases(s: State, t: nat)
    requires Poppable(s, t)
    ensures Released(Take(s, t)) == Released(Drop(s, t)) == Released(Crash(s, t)) == Released(s)
  {
    hide Hashes, PopTarget, HeatmapPut;
    PoppedJobs(s, t);
  }

  lemma OneReleased(s: State, gc: bool)
    requires s.hands.Releasing? && s.hands.rest != []
    ensures Released(Release(s, gc)) == Released(s)
  {
    hide HashOf, HeatmapPop;
    CountedOnly(s, HashOf(s.parse, s.hands.rest[0]), gc);
    assert s.hands.rest == [s.hands.rest[0]] + s.hands.rest[1..];
  }

  /** Every target of every job that left the running state is released exactly once, or is about to be. */
  lemma {:induction false} ReleasedOnce(s: State, es: seq<Event>)
    requires Possible(s, es)
    ensures Released(After(s, es)) == Released(s) + ClosedTargets(s, es)
  {
    hide Apply, Released, ClosedBy, Enabled;
    if es != [] {
      ReleasedOnce(s, Most(es));
      StepReleases(After(s, Most(es)), Last(es));
    }
  }

  /** What was handed in over a run. */
  function HandedIn(es: seq<Event>): multiset<Line>
  {
    if es == [] then multiset{}
    else HandedIn(Most(es)) + if Last(es).Enqueued? then multiset(Lines(Last(es).raw)) else multiset{}
  }

  lemma StepHandedIn(s: State, e: Event)
    requires Enabled(s, e)
    ensures Apply(s, e).ledger.enqueued
            == s.ledger.enqueued + if e.Enqueued? then multiset(Lines(e.raw)) else multiset{}
  {
    hide Ready, Total, HashOf, Lines, NewRows, Hashes, QueueBags, HeatmapPop, HeatmapPut, PopTarget, Recount;
    match e
    case Taken(t) => PoppedJobs(s, t);
    case Dropped(t) => PoppedJobs(s, t);
    case Crashed(t) => PoppedJobs(s, t);
    case Released(gc) => CountedOnly(s, HashOf(s.parse, s.hands.rest[0]), gc);
    case Releveled(level) => RecountOnly(s.(level := level));
    case _ =>
  }

  lemma RecountOnly(s: State)
    ensures Recount(s) == s.(readynet := Recount(s).readynet)
  {
  }

  /** What the ledger calls enqueued are the stripped lines that are not blank of everything handed in. */
  lemma {:induction false} EnqueuedAll(s: State, es: seq<Event>)
    requires Possible(s, es)
    ensures After(s, es).ledger.enqueued == s.ledger.enqueued + HandedIn(es)
  {
    hide Apply, Lines, Enabled;
    if es != [] {
      EnqueuedAll(s, Most(es));
      StepHandedIn(After(s, Most(es)), Last(es));
    }
  }

  /** Repeating a job hands in exactly its targets again. */
  lemma RepeatExact(s: State, j: nat)
    requires j in s.jobs
    ensures Lines(s.jobs[j].targets) == s.jobs[j].targets
  {
    LinesAgain(s.jobs[j].targets);
  }

  // ---------------------------------------------------------------------------------------------------------
  // What an error of the matcher costs
  // ---------------------------------------------------------------------------------------------------------

  /** No target was lost or stranded in between, and no heat was leaked. */
  ghost predicate SameLosses(a: Ledger, b: Ledger)
  {
    b.lost == a.lost && b.stranded == a.stranded && b.leaked == a.leaked
  }

  ghost predicate NoLosses(l: Ledger)
  {
    l.lost == l.stranded == multiset{} && l.leaked == multiset{}
  }

  /** An error of the matcher loses its target, strands those in the hands and leaks their heat; nothing else does. */
  lemma StepLoses(s: State, e: Event)
    requires Enabled(s, e)
    ensures !e.Crashed? ==> SameLosses(s.ledger, Apply(s, e).ledger)
    ensures e.Crashed? ==>
              && e.t in s.targets && s.hands.Assigning? && Apply(s, e).hands.Idle?
              && Judged(s, s.hands.rules, e.t) == Raised
              && Apply(s, e).ledger.lost == s.ledger.lost + multiset{s.targets[e.t].text}
              && Apply(s, e).ledger.stranded == s.ledger.stranded + multiset(s.hands.taken)
              && Apply(s, e).ledger.leaked == s.ledger.leaked + multiset(Hashes(s.parse, s.hands.taken))
  {
    hide Ready, Total, Hashes, Take, Drop, Crash, Enqueue, Flush, DeleteQueue, CreateQueue, DeleteJob, Release, Relevel,
         BeginAssign, EndAssign, BeginRelease, EndRelease, MatchAll;
    match e
    case Taken(t) => PopLoses(s, t);
    case Dropped(t) => PopLoses(s, t);
    case Crashed(t) => PopLoses(s, t);
    case _ => OthersLoseNothing(s, e);
  }

  lemma OthersLoseNothing(s: State, e: Event)
    requires Enabled(s, e) && !e.Taken? && !e.Dropped? && !e.Crashed?
    ensures SameLosses(s.ledger, Apply(s, e).ledger)
  {
    hide Ready, Total, HashOf, Hashes, Take, Drop, Crash, Enqueue, Flush, DeleteQueue, EndAssign, Release, Relevel,
         MatchAll, Poppable, HasReady, SameLosses;
    SameNothing(s.ledger);
    match e
    case Enqueued(q, raw) => QueueLosesNothing(s, q, raw);
    case Flushed(q) => QueueLosesNothing(s, q, []);
    case QueueDeleted(q) => QueueLosesNothing(s, q, []);
    case Releveled(level) => LevelLosesNothing(s, level);
    case AssignEnded => EndLosesNothing(s);
    case Released(gc) => ReleaseLosesNothing(s, gc);
    case _ =>
  }

  lemma SameNothing(l: Ledger)
    ensures SameLosses(l, l)
  {
  }

  lemma QueueLosesNothing(s: State, q: nat, raw: seq<string>)
    ensures SameLosses(s.ledger, Enqueue(s, q, raw).ledger)
    ensures SameLosses(s.ledger, Flush(s, q).ledger) && SameLosses(s.ledger, DeleteQueue(s, q).ledger)
  {
    hide Total, Lines, NewRows, Hashes, QueueBags;
  }

  lemma LevelLosesNothing(s: State, level: nat)
    ensures SameLosses(s.ledger, Relevel(s, level).ledger)
  {
    RecountOnly(s.(level := level));
  }

  lemma EndLosesNothing(s: State)
    requires s.hands.Assigning?
    ensures SameLosses(s.ledger, EndAssign(s).ledger)
  {
  }

  lemma ReleaseLosesNothing(s: State, gc: bool)
    requires s.hands.Releasing? && s.hands.rest != []
    ensures SameLosses(s.ledger, Release(s, gc).ledger)
  {
    hide HashOf, HeatmapPop;
    CountedOnly(s, HashOf(s.parse, s.hands.rest[0]), gc);
  }

  lemma PopLoses(s: State, t: nat)
    requires Poppable(s, t)
    ensures SameLosses(s.ledger, Take(s, t).ledger) && SameLosses(s.ledger, Drop(s, t).ledger)
    ensures var after := Crash(s, t);
            && after.hands.Idle?
            && after.ledger.lost == s.ledger.lost + multiset{s.targets[t].text}
            && after.ledger.stranded == s.ledger.stranded + multiset(s.hands.taken)
            && after.ledger.leaked == s.ledger.leaked + multiset(Hashes(s.parse, s.hands.taken))
  {
    hide Hashes, PopTarget, HeatmapPut;
    PoppedJobs(s, t);
  }

  /**
    Over any run, the heat that leaks is that of the stranded targets, one for one, and nothing is stranded unless
    something is lost.
  */
  lemma {:induction false} Losses(s: State, es: seq<Event>) returns (lost: seq<Line>, stranded: seq<Line>)
    requires Possible(s, es)
    ensures After(s, es).ledger.lost == s.ledger.lost + multiset(lost)
    ensures After(s, es).ledger.stranded == s.ledger.stranded + multiset(stranded)
    ensures After(s, es).ledger.leaked == s.ledger.leaked + multiset(Hashes(s.parse, stranded))
    ensures lost == [] ==> stranded == []
  {
    hide Apply, Enabled, Hashes;
    lost, stranded := [], [];
    HashesNone(s.parse);
    if es != [] {
      var b, e := After(s, Most(es)), Last(es);
      lost, stranded := Losses(s, Most(es));
      StepLoses(b, e);
      if e.Crashed? {
        RunParse(s, Most(es));
        HashesBoth(s.parse, stranded, b.hands.taken);
        lost, stranded := lost + [b.targets[e.t].text], stranded + b.hands.taken;
      }
    }
  }

  lemma HashesBoth(parse: string -> Target, a: seq<Line>, b: seq<Line>)
    ensures Hashes(parse, a + b) == Hashes(parse, a) + Hashes(parse, b)
  {
  }

  /** Over any run from empty tables, every enqueued target is in place if and only if the matcher lost none. */
  lemma ConservedIff(parse: string -> Target, level: nat, es: seq<Event>)
    requires Possible(Initial(parse, level), es)
    ensures var s := After(Initial(parse, level), es);
            && (s.ledger.enqueued == InPlace(s) <==> s.ledger.lost == multiset{})
            && (s.ledger.stranded == multiset{} <==> s.ledger.leaked == multiset{})
            && (s.ledger.lost == multiset{} ==> s.ledger.stranded == multiset{})
  {
    hide After, Possible, InPlace, Inv, Hashes;
    var s := After(Initial(parse, level), es);
    Reachable(parse, level, es);
    var lost, stranded := Losses(Initial(parse, level), es);
    HashesNone(parse);
    if lost != [] {
      assert lost[0] in s.ledger.lost;
    }
    if stranded != [] {
      assert stranded[0] in s.ledger.stranded;
      FirstHash(parse, stranded);
    }
  }

  lemma FirstHash(parse: string -> Target, lines: seq<Line>)
    requires lines != []
    ensures HashOf(parse, lines[0]) in multiset(Hashes(parse, lines))
  {
    assert Hashes(parse, lines)[0] == HashOf(parse, lines[0]);
  }

  /** Between operations, counts and running jobs agree if and only if nothing leaked. */
  lemma CheckMeans(s: State)
    requires Inv(s) && s.hands.Idle?
    ensures (forall h :: Heat(s, h) == InFlight(s)[h]) <==> s.ledger.leaked == multiset{}
  {
    hide Total, Hashes, Ready, Exact, Sound, Conserved;
    HashesNone(s.parse);
    forall h
      ensures Heat(s, h) == InFlight(s)[h] + s.ledger.leaked[h]
    {
      assert Heat(s, h) == Owed(s, h);
    }
    if s.ledger.leaked != multiset{} {
      var h :| h in s.ledger.leaked;
      assert Heat(s, h) != InFlight(s)[h];
    }
  }

  // ---------------------------------------------------------------------------------------------------------
  // Removing zeros
  // ---------------------------------------------------------------------------------------------------------

  /** The same tables but for rows of the count that are zero. */
  ghost predicate SameHeat(a: State, b: State)
  {
    b == a.(heatmap := b.heatmap) && forall h :: Heat(a, h) == Heat(b, h)
  }

  /** The same events, but for the coins. */
  ghost predicate SameButCoins(es: seq<Event>, fs: seq<Event>)
  {
    |es| == |fs| && forall i :: 0 <= i < |es| ==> es[i] == fs[i] || (es[i].Released? && fs[i].Released?)
  }

  lemma SameFlush(a: State, b: State, q: nat)
    requires SameHeat(a, b)
    ensures SameHeat(Flush(a, q), Flush(b, q)) && SameHeat(DeleteQueue(a, q), DeleteQueue(b, q))
  {
    hide Total, QueueBags, Heat;
    HeatOnly(a, Flush(a, q));
    HeatOnly(b, Flush(b, q));
    HeatOnly(a, DeleteQueue(a, q));
    HeatOnly(b, DeleteQueue(b, q));
  }

  /** Tables that agree but for zeros take the same steps. */
  lemma SameStep(a: State, b: State, e: Event, f: Event)
    requires Inv(a) && SameHeat(a, b) && Enabled(a, e) && (e == f || (e.Released? && f.Released?))
    ensures Enabled(b, f) && SameHeat(Apply(a, e), Apply(b, f))
  {
    hide Ready, Total, HashOf, Lines, NewRows, Hashes, QueueBags, Enqueue, Flush, DeleteQueue, Release, Take, Drop,
         Crash, Relevel, Heat, MatchAll, Inv;
    match e
    case Enqueued(q, raw) => SameEnqueue(a, b, q, raw);
    case Flushed(q) => SameFlush(a, b, q);
    case QueueDeleted(q) => SameFlush(a, b, q);
    case Releveled(level) => SameRelevel(a, b, level);
    case Taken(t) => SameTake(a, b, t);
    case Dropped(t) => SamePop(a, b, t);
    case Crashed(t) => SamePop(a, b, t);
    case Released(gc) => SameRelease(a, b, gc, f.gc);
    case _ =>
      HeatOnly(a, Apply(a, e));
      HeatOnly(b, Apply(b, f));
  }

  lemma SameEnqueue(a: State, b: State, q: nat, raw: seq<string>)
    requires SameHeat(a, b)
    ensures SameHeat(Enqueue(a, q, raw), Enqueue(b, q, raw))
  {
    hide Lines, NewRows, Hashes, Heat;
    var lines := Lines(raw);
    assert (set h | h in Hashes(a.parse, lines) && !Hot(a, h) :: (q, h))
        == (set h | h in Hashes(b.parse, lines) && !Hot(b, h) :: (q, h));
    HeatOnly(a, Enqueue(a, q, raw));
    HeatOnly(b, Enqueue(b, q, raw));
  }

  lemma HeatOnly(a: State, b: State)
    requires a.heatmap == b.heatmap
    ensures forall h :: Heat(a, h) == Heat(b, h)
  {
  }

  lemma SameRelevel(a: State, b: State, level: nat)
    requires SameHeat(a, b)
    ensures SameHeat(Relevel(a, level), Relevel(b, level))
  {
    var p, r := a.(level := level), b.(level := level);
    HeatOnly(a, p);
    HeatOnly(b, r);
    forall x
      ensures x in Recount(p).readynet <==> x in Recount(r).readynet
    {
      assert x == (x.0, x.1) && Heat(p, x.1) == Heat(a, x.1) == Heat(b, x.1) == Heat(r, x.1);
      RecountMeans(p, x.0, x.1);
      RecountMeans(r, x.0, x.1);
      assert HasTarget(p, x.0, x.1) == HasTarget(r, x.0, x.1);
    }
    assert Recount(p).readynet == Recount(r).readynet;
    HeatOnly(a, Recount(p));
    HeatOnly(b, Recount(r));
  }

  lemma SamePop(a: State, b: State, t: nat)
    requires SameHeat(a, b) && t in a.targets
    ensures SameHeat(PopTarget(a, t), PopTarget(b, t))
    ensures SameHeat(Drop(a, t), Drop(b, t))
    ensures a.hands.Assigning? ==> SameHeat(Crash(a, t), Crash(b, t))
  {
    hide Hashes, Heat;
    HeatOnly(a, PopTarget(a, t));
    HeatOnly(b, PopTarget(b, t));
    HeatOnly(a, Drop(a, t));
    HeatOnly(b, Drop(b, t));
    if a.hands.Assigning? {
      HeatOnly(a, Crash(a, t));
      HeatOnly(b, Crash(b, t));
    }
  }

  lemma SameTake(a: State, b: State, t: nat)
    requires SameHeat(a, b) && Poppable(a, t)
    ensures SameHeat(Take(a, t), Take(b, t))
  {
    hide PopTarget;
    SamePop(a, b, t);
    HeatOnly(HeatmapPut(PopTarget(a, t), a.targets[t].hash), Take(a, t));
    HeatOnly(HeatmapPut(PopTarget(b, t), a.targets[t].hash), Take(b, t));
    SamePut(PopTarget(a, t), PopTarget(b, t), a.targets[t].hash);
    PoppedJobs(a, t);
    PoppedJobs(b, t);
  }

  lemma SamePut(a: State, b: State, h: Hash)
    requires SameHeat(a, b)
    ensures SameHeat(HeatmapPut(a, h), HeatmapPut(b, h))
  {
    assert Heat(a, h) == Heat(b, h);
    PutOnly(a, h);
    PutOnly(b, h);
    assert HeatmapPut(a, h).readynet == HeatmapPut(b, h).readynet;
    forall k
      ensures Heat(HeatmapPut(a, h), k) == Heat(HeatmapPut(b, h), k)
    {
      assert Heat(a, k) == Heat(b, k);
    }
  }

  lemma SameRelease(a: State, b: State, gc: bool, coin: bool)
    requires Inv(a) && SameHeat(a, b) && a.hands.Releasing? && a.hands.rest != []
    ensures SameHeat(Release(a, gc), Release(b, coin))
  {
    hide Total, HashOf, Hashes;
    var h := HashOf(a.parse, a.hands.rest[0]);
    NextHeat(a);
    assert Heat(a, h) == Heat(b, h);
    var p, r := Release(a, gc), Release(b, coin);
    forall k
      ensures Heat(p, k) == Heat(r, k)
    {
      HeatAfterPop(a, h, gc, k);
      HeatAfterPop(b, h, coin, k);
      assert Heat(p, k) == Heat(HeatmapPop(a, h, gc), k) && Heat(r, k) == Heat(HeatmapPop(b, h, coin), k);
    }
  }

  /** The coins that decide when zeros are removed make no difference to what a run can do or where it ends. */
  lemma {:induction false} CoinsDoNotMatter(s: State, es: seq<Event>, fs: seq<Event>)
    requires Inv(s) && Possible(s, es) && SameButCoins(es, fs)
    ensures Possible(s, fs) && SameHeat(After(s, es), After(s, fs))
  {
    hide Inv, Apply, Enabled, SameHeat;
    if es == [] {
      assert SameHeat(s, s) by { SameSelf(s); }
    } else {
      RunKeeps(s, Most(es));
      CoinsDoNotMatter(s, Most(es), Most(fs));
      SameStep(After(s, Most(es)), After(s, Most(fs)), Last(es), Last(fs));
    }
  }

  lemma SameSelf(s: State)
    ensures SameHeat(s, s)
  {
  }
}
