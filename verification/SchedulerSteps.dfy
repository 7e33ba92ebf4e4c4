/**
  The scheduler as a machine: the events that change its tables, when each can happen, and the invariant that every
  event keeps.
*/
module SchedulerSteps {
  import opened Networks
  import opened Tallies
  import opened SchedulerState
  import opened SchedulerIndex
  import opened SchedulerAccounts

  datatype Event =
    | QueueCreated(q: nat, queue: Queue)
    | Enqueued(q: nat, raw: seq<string>)
    | Flushed(q: nat)
    | QueueDeleted(q: nat)
    | JobDeleted(j: nat)
    | Releveled(level: nat)
    | AssignBegun(q: nat, rules: seq<Exclusion>)
    | Taken(t: nat)
    | Dropped(t: nat)
    | Crashed(t: nat)
    | AssignEnded
    | ReleaseBegun(j: nat, retval: int)
    | Released(gc: bool)
    | ReleaseEnded

  /** The queue has a network that is ready. */
  predicate HasReady(s: State, q: nat)
  {
    q in set r | r in s.readynet :: r.0
  }

  /** The assignment has fewer targets than the queue allows. */
  predicate Wanting(s: State)
  {
    s.hands.Assigning? && s.hands.queue in s.queues && |s.hands.taken| < s.queues[s.hands.queue].groupSize
  }

  /** A target that the assignment may pop: its network is ready for the queue. */
  predicate Poppable(s: State, t: nat)
  {
    Wanting(s) && t in s.targets && s.targets[t].queue == s.hands.queue
    && (s.targets[t].queue, s.targets[t].hash) in s.readynet
  }

  /** What the rules say of a target. */
  function Judged(s: State, rules: seq<Exclusion>, t: nat): Match
    requires t in s.targets
  {
    MatchAll(rules, s.targets[t].text, s.parse(s.targets[t].text))
  }

  predicate Enabled(s: State, e: Event)
  {
    match e
    case QueueCreated(q, _) => s.hands.Idle? && q !in s.queues
    case Enqueued(q, _) => s.hands.Idle? && q in s.queues
    case Flushed(q) => s.hands.Idle? && q in s.queues
    case QueueDeleted(q) => s.hands.Idle? && q in s.queues && forall j :: j in s.jobs ==> s.jobs[j].queue != q
    case JobDeleted(j) => s.hands.Idle? && j in s.jobs && !Running(s, j)
    case Releveled(_) => s.hands.Idle?
    case AssignBegun(q, _) => s.hands.Idle? && q in s.queues && s.queues[q].active && HasReady(s, q)
    case Taken(t) => Poppable(s, t) && Judged(s, s.hands.rules, t) == Clear
    case Dropped(t) => Poppable(s, t) && Judged(s, s.hands.rules, t) == Excluded
    case Crashed(t) => Poppable(s, t) && Judged(s, s.hands.rules, t) == Raised
    case AssignEnded => s.hands.Assigning? && (Wanting(s) ==> !HasReady(s, s.hands.queue))
    case ReleaseBegun(j, _) => s.hands.Idle? && Running(s, j)
    case Released(_) => s.hands.Releasing? && s.hands.rest != []
    case ReleaseEnded => s.hands.Releasing? && s.hands.rest == []
  }

  function Apply(s: State, e: Event): State
    requires Enabled(s, e)
  {
    match e
    case QueueCreated(q, queue) => CreateQueue(s, q, queue)
    case Enqueued(q, raw) => Enqueue(s, q, raw)
    case Flushed(q) => Flush(s, q)
    case QueueDeleted(q) => DeleteQueue(s, q)
    case JobDeleted(j) => DeleteJob(s, j)
    case Releveled(level) => Relevel(s, level)
    case AssignBegun(q, rules) => BeginAssign(s, q, rules)
    case Taken(t) => Take(s, t)
    case Dropped(t) => Drop(s, t)
    case Crashed(t) => Crash(s, t)
    case AssignEnded => EndAssign(s)
    case ReleaseBegun(j, retval) => BeginRelease(s, j, retval)
    case Released(gc) => Release(s, gc)
    case ReleaseEnded => EndRelease(s)
  }

  ghost predicate Inv(s: State)
  {
    Sound(s) && Exact(s) && HeatOwed(s) && Conserved(s)
  }

  // ---------------------------------------------------------------------------------------------------------
  // Each event keeps the invariant
  // ---------------------------------------------------------------------------------------------------------

  lemma HashesAppend(parse: string -> Target, texts: seq<Line>, text: Line)
    ensures Hashes(parse, texts + [text]) == Hashes(parse, texts) + [HashOf(parse, text)]
    ensures Hashes(parse, [text] + texts) == [HashOf(parse, text)] + Hashes(parse, texts)
  {
  }

  lemma HashesNone(parse: string -> Target)
    ensures Hashes(parse, []) == []
  {
  }

  /** The tables that the index depends on stay, and so do heat and what it is owed to. */
  lemma QuietKeeps(s: State, p: State)
    requires p.readynet == s.readynet && p.targets == s.targets && p.level == s.level && p.heatmap == s.heatmap
    ensures Exact(s) ==> Exact(p)
    ensures HeatOwed(s) && (forall h :: Owed(p, h) == Owed(s, h)) ==> HeatOwed(p)
  {
    hide Owed;
    forall h
      ensures Hot(p, h) == Hot(s, h) && Heat(p, h) == Heat(s, h)
    {
    }
    assert Ready(p) == Ready(s);
  }

  lemma CreateQueueKeeps(s: State, q: nat, queue: Queue)
    requires Inv(s) && q !in s.queues
    ensures Inv(CreateQueue(s, q, queue))
  {
    hide Total, Ready, HashOf, Hashes, TargetBags, HashBags, JobBags;
    QuietKeeps(s, CreateQueue(s, q, queue));
  }

  lemma EnqueueKeeps(s: State, q: nat, raw: seq<string>)
    requires Inv(s) && q in s.queues
    ensures Inv(Enqueue(s, q, raw))
  {
    hide Total, Ready, Hashes, Lines, NewRows, TargetBags, HashBags, JobBags;
    EnqueueExact(s, q, raw);
    EnqueuedBags(s, q, raw);
    var p := Enqueue(s, q, raw);
    EnqueueSound(s, q, raw);
    assert forall h :: Heat(p, h) == Heat(s, h) && Owed(p, h) == Owed(s, h);
  }

  lemma EnqueueSound(s: State, q: nat, raw: seq<string>)
    requires Sound(s) && q in s.queues
    ensures Sound(Enqueue(s, q, raw))
  {
    hide Total, Hashes, Lines, NewRows;
  }

  lemma FlushKeeps(s: State, q: nat)
    requires Inv(s)
    ensures Inv(Flush(s, q))
  {
    hide Total, Ready, HashOf, Hashes, TargetBags, HashBags, JobBags, QueueBags, HeatOwed;
    FlushExact(s, q);
    FlushedBags(s, q);
    HeatStays(s, Flush(s, q));
  }

  lemma DeleteQueueKeeps(s: State, q: nat)
    requires Inv(s) && s.hands.Idle? && forall j :: j in s.jobs ==> s.jobs[j].queue != q
    ensures Inv(DeleteQueue(s, q))
  {
    hide Total, Ready, HashOf, Hashes, TargetBags, HashBags, JobBags, QueueBags;
    FlushKeeps(s, q);
    QuietKeeps(Flush(s, q), DeleteQueue(s, q));
  }

  lemma DeleteJobKeeps(s: State, j: nat)
    requires Inv(s) && j in s.jobs && !Running(s, j)
    ensures Inv(DeleteJob(s, j))
  {
    hide Total, Ready, HashOf, Hashes, TargetBags, HashBags, JobBags;
    DeletedBags(s.parse, s.jobs, j, s.nextJob);
    QuietKeeps(s, DeleteJob(s, j));
  }

  lemma RelevelKeeps(s: State, level: nat)
    requires Inv(s)
    ensures Inv(Relevel(s, level))
  {
    hide Total, Ready, HashOf, Hashes, TargetBags, HashBags, JobBags;
    RelevelExact(s, level);
    var p := Relevel(s, level);
    assert forall h :: Heat(p, h) == Heat(s, h) && Owed(p, h) == Owed(s, h);
  }

  lemma BeginAssignKeeps(s: State, q: nat, rules: seq<Exclusion>)
    requires Inv(s) && s.hands.Idle? && q in s.queues
    ensures Inv(BeginAssign(s, q, rules))
  {
    hide Total, Ready, HashOf, Hashes, TargetBags, HashBags, JobBags;
    QuietKeeps(s, BeginAssign(s, q, rules));
  }

  lemma PopKeeps(s: State, t: nat)
    requires Sound(s) && Exact(s) && t in s.targets
    ensures var p := PopTarget(s, t);
            && p == s.(targets := p.targets, readynet := p.readynet)
            && Sound(p) && Exact(p) && forall x :: Queued(s)[x] == Queued(p)[x] + multiset{s.targets[t].text}[x]
  {
    hide Total, Ready, HashOf, Hashes, TargetBags;
    PopTargetExact(s, t);
    PoppedBags(s, t);
  }

  lemma TakeKeeps(s: State, t: nat)
    requires Inv(s) && Poppable(s, t)
    ensures Inv(Take(s, t))
  {
    hide Total, Ready, HashOf, Hashes, TargetBags, HashBags, JobBags, PopTarget, HeatmapPut, HeatOwed, Conserved;
    var text := s.targets[t].text;
    var h := HashOf(s.parse, text);
    var popped := PopTarget(s, t);
    PopKeeps(s, t);
    PutExact(popped, h);
    PutOnly(popped, h);
    QuietKeeps(HeatmapPut(popped, h), Take(s, t));
    TakeOwed(s, t);
    TakeConserved(s, t);
  }

  lemma PutOnly(s: State, h: Hash)
    ensures var p := HeatmapPut(s, h);
            && p == s.(heatmap := p.heatmap, readynet := p.readynet)
            && forall k :: Heat(p, k) == Heat(s, k) + if k == h then 1 else 0
  {
  }

  lemma TakeOwed(s: State, t: nat)
    requires Inv(s) && Poppable(s, t)
    ensures HeatOwed(Take(s, t))
  {
    hide Total, Ready, HashOf, Hashes, TargetBags, HashBags, JobBags, PopTarget, HeatmapPut, Conserved;
    var text := s.targets[t].text;
    var h := HashOf(s.parse, text);
    var popped := PopTarget(s, t);
    var p := Take(s, t);
    PopKeeps(s, t);
    PutOnly(popped, h);
    HashesAppend(s.parse, s.hands.taken, text);
    forall k
      ensures Heat(p, k) == Owed(p, k)
    {
      assert Heat(HeatmapPut(popped, h), k) == Heat(p, k) && Heat(popped, k) == Heat(s, k) == Owed(s, k);
    }
  }

  lemma TakeConserved(s: State, t: nat)
    requires Inv(s) && Poppable(s, t)
    ensures Conserved(Take(s, t))
  {
    hide Total, Ready, HashOf, Hashes, TargetBags, HashBags, JobBags, PopTarget, HeatmapPut, HeatOwed;
    PopKeeps(s, t);
    PutOnly(PopTarget(s, t), s.targets[t].hash);
    var p := Take(s, t);
    forall x
      ensures p.ledger.enqueued[x] == Places(p, x)
    {
      assert s.ledger.enqueued[x] == Places(s, x);
    }
  }

  lemma DropKeeps(s: State, t: nat)
    requires Inv(s) && Poppable(s, t)
    ensures Inv(Drop(s, t))
  {
    hide Total, Ready, HashOf, Hashes, TargetBags, HashBags, JobBags, PopTarget, HeatOwed;
    PopKeeps(s, t);
    QuietKeeps(PopTarget(s, t), Drop(s, t));
    HeatStays(s, Drop(s, t));
  }

  lemma HeatStays(s: State, p: State)
    requires HeatOwed(s) && p.heatmap == s.heatmap && forall h :: Owed(p, h) == Owed(s, h)
    ensures HeatOwed(p)
  {
    hide Owed;
    forall h
      ensures Heat(p, h) == Owed(p, h)
    {
      assert Heat(s, h) == Owed(s, h);
    }
  }

  lemma CrashKeeps(s: State, t: nat)
    requires Inv(s) && Poppable(s, t)
    ensures Inv(Crash(s, t))
  {
    hide Total, Ready, HashOf, Hashes, TargetBags, HashBags, JobBags, PopTarget, HeatOwed;
    PopKeeps(s, t);
    HashesNone(s.parse);
    QuietKeeps(PopTarget(s, t), Crash(s, t));
    HeatStays(s, Crash(s, t));
  }

  lemma EndAssignKeeps(s: State)
    requires Inv(s) && s.hands.Assigning?
    ensures Inv(EndAssign(s))
  {
    hide Total, Ready, HashOf, Hashes, TargetBags, HashBags, JobBags, HeatOwed, Conserved;
    QuietKeeps(s, EndAssign(s));
    EndAssignAccounts(s);
  }

  lemma EndAssignAccounts(s: State)
    requires Sound(s) && HeatOwed(s) && Conserved(s) && s.hands.Assigning?
    ensures HeatOwed(EndAssign(s)) && Conserved(EndAssign(s))
  {
    hide Total, HashOf, Hashes, TargetBags, HashBags, JobBags, HeatOwed;
    HashesNone(s.parse);
    if s.hands.taken != [] {
      CreatedBags(s.parse, s.jobs, Job(s.hands.queue, s.hands.taken, None), s.nextJob);
    }
    HeatStays(s, EndAssign(s));
  }

  lemma BeginReleaseKeeps(s: State, j: nat, retval: int)
    requires Inv(s) && s.hands.Idle? && Running(s, j)
    ensures Inv(BeginRelease(s, j, retval))
  {
    hide Total, Ready, HashOf, Hashes, TargetBags, HashBags, JobBags, HeatOwed;
    HashesNone(s.parse);
    ClosedBags(s.parse, s.jobs, j, retval, s.nextJob);
    QuietKeeps(s, BeginRelease(s, j, retval));
    HeatStays(s, BeginRelease(s, j, retval));
  }

  /** The heat of the next network to be released is counted. */
  lemma NextHeat(s: State)
    requires HeatOwed(s) && s.hands.Releasing? && s.hands.rest != []
    ensures Heat(s, HashOf(s.parse, s.hands.rest[0])) >= 1
  {
    hide Total, HashOf;
    var hashes := Hashes(s.parse, s.hands.rest);
    assert hashes[0] in multiset(hashes);
  }

  lemma ReleaseKeeps(s: State, gc: bool)
    requires Inv(s) && s.hands.Releasing? && s.hands.rest != []
    ensures Inv(Release(s, gc))
  {
    hide Total, Ready, HashOf, Hashes, TargetBags, HashBags, JobBags, HeatmapPop, HeatOwed;
    var text, rest := s.hands.rest[0], s.hands.rest[1..];
    var h := HashOf(s.parse, text);
    NextHeat(s);
    PopExact(s, h, gc);
    CountedOnly(s, h, gc);
    QuietKeeps(HeatmapPop(s, h, gc), Release(s, gc));
    assert s.hands.rest == [text] + rest;
    ReleaseOwed(s, gc);
  }

  lemma CountedOnly(s: State, h: Hash, gc: bool)
    ensures HeatmapPop(s, h, gc)
            == s.(heatmap := HeatmapPop(s, h, gc).heatmap, readynet := HeatmapPop(s, h, gc).readynet)
  {
  }

  lemma ReleaseOwed(s: State, gc: bool)
    requires HeatOwed(s) && s.hands.Releasing? && s.hands.rest != []
    ensures HeatOwed(Release(s, gc))
  {
    hide Total, HashOf, Hashes, HashBags, HeatmapPop;
    var text, rest := s.hands.rest[0], s.hands.rest[1..];
    var h := HashOf(s.parse, text);
    var p := Release(s, gc);
    NextHeat(s);
    CountedOnly(s, h, gc);
    assert s.hands.rest == [text] + rest;
    HashesAppend(s.parse, rest, text);
    forall k
      ensures Heat(p, k) == Owed(p, k)
    {
      HeatAfterPop(s, h, gc, k);
      assert Heat(p, k) == Heat(HeatmapPop(s, h, gc), k) && Heat(s, k) == Owed(s, k);
    }
  }

  lemma EndReleaseKeeps(s: State)
    requires Inv(s) && s.hands == Releasing([])
    ensures Inv(EndRelease(s))
  {
    hide Total, Ready, HashOf, Hashes, TargetBags, HashBags, JobBags;
    QuietKeeps(s, EndRelease(s));
  }

  /** Every event keeps the invariant. */
  lemma StepKeeps(s: State, e: Event)
    requires Inv(s) && Enabled(s, e)
    ensures Inv(Apply(s, e))
  {
    hide Inv;
    match e
    case QueueCreated(q, queue) => CreateQueueKeeps(s, q, queue);
    case Enqueued(q, raw) => EnqueueKeeps(s, q, raw);
    case Flushed(q) => FlushKeeps(s, q);
    case QueueDeleted(q) => DeleteQueueKeeps(s, q);
    case JobDeleted(j) => DeleteJobKeeps(s, j);
    case Releveled(level) => RelevelKeeps(s, level);
    case AssignBegun(q, rules) => BeginAssignKeeps(s, q, rules);
    case Taken(t) => TakeKeeps(s, t);
    case Dropped(t) => DropKeeps(s, t);
    case Crashed(t) => CrashKeeps(s, t);
    case AssignEnded => EndAssignKeeps(s);
    case ReleaseBegun(j, retval) => BeginReleaseKeeps(s, j, retval);
    case Released(gc) => ReleaseKeeps(s, gc);
    case ReleaseEnded => EndReleaseKeeps(s);
  }
}
