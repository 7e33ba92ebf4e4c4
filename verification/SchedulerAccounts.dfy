/**
  The accounts of the scheduler: heat against targets in flight, and where every enqueued target is.  Every step keeps
  them.
*/
module SchedulerAccounts {
  import opened Networks
  import opened Tallies
  import opened SchedulerState

  /** The heat of every network is what is in flight, in the hands and leaked. */
  ghost predicate HeatOwed(s: State)
  {
    forall h :: Heat(s, h) == Owed(s, h)
  }

  /** Every enqueued target is at exactly one place. */
  ghost predicate Conserved(s: State)
  {
    forall x :: s.ledger.enqueued[x] == Places(s, x)
  }

  /** References, identifiers and stored networks are right. */
  ghost predicate Sound(s: State)
  {
    && (forall t :: t in s.targets ==> && t < s.nextTarget && s.targets[t].queue in s.queues
                                       && s.targets[t].hash == HashOf(s.parse, s.targets[t].text))
    && (forall j :: j in s.jobs ==> j < s.nextJob && s.jobs[j].queue in s.queues)
    && (s.hands.Assigning? ==> s.hands.queue in s.queues)
  }

  // ---------------------------------------------------------------------------------------------------------
  // Bags
  // ---------------------------------------------------------------------------------------------------------

  lemma PoppedBags(s: State, t: nat)
    requires t in s.targets && t < s.nextTarget
    ensures Queued(s) == Queued(PopTarget(s, t)) + multiset{s.targets[t].text}
  {
    hide Total;
    var left := PopTarget(s, t).targets;
    assert left == map u | u in s.targets && u != t :: s.targets[u];
    TotalWithout(TargetBags(s.targets), TargetBags(left), t, s.nextTarget);
  }

  lemma FlushedBags(s: State, q: nat)
    ensures Queued(s) == Queued(Flush(s, q)) + Total(QueueBags(s.targets, q), s.nextTarget)
  {
    hide Total;
    TotalSplit(TargetBags(s.targets), TargetBags(Flush(s, q).targets), QueueBags(s.targets, q), s.nextTarget);
  }

  lemma TargetBagAt(targets: map<nat, Row>, i: nat)
    ensures At(TargetBags(targets), i) == if i in targets then multiset{targets[i].text} else multiset{}
  {
  }

  lemma JobBagsAt(parse: string -> Target, jobs: map<nat, Job>, i: nat)
    ensures var runs := i in jobs && jobs[i].retval.None?;
            && At(JobBags(jobs), i) == (if runs then multiset(jobs[i].targets) else multiset{})
            && At(HashBags(parse, jobs), i) == if runs then multiset(Hashes(parse, jobs[i].targets)) else multiset{}
  {
  }

  lemma AddedAt(before: map<nat, Row>, rows: map<nat, Row>, first: nat, lines: seq<Line>, i: nat)
    requires forall t :: t in before ==> t < first
    requires forall t :: t in rows <==> first <= t < first + |lines|
    requires forall t :: t in rows ==> rows[t].text == lines[t - first]
    requires i < first + |lines|
    ensures At(TargetBags(before + rows), i) == At(TargetBags(before), i) + At(TargetBags(rows), i)
    ensures At(TargetBags(rows), i) == if i < first then multiset{} else multiset{lines[i - first]}
  {
    hide TargetBags, At;
    TargetBagAt(before + rows, i);
    TargetBagAt(before, i);
    TargetBagAt(rows, i);
  }

  lemma AddedBags(before: map<nat, Row>, rows: map<nat, Row>, first: nat, lines: seq<Line>)
    requires forall t :: t in before ==> t < first
    requires forall t :: t in rows <==> first <= t < first + |lines|
    requires forall t :: t in rows ==> rows[t].text == lines[t - first]
    ensures Total(TargetBags(before + rows), first + |lines|) == Total(TargetBags(before), first) + multiset(lines)
  {
    hide Total, TargetBags, At;
    var next := first + |lines|;
    forall i | 0 <= i < next
      ensures At(TargetBags(before + rows), i) == At(TargetBags(before), i) + At(TargetBags(rows), i)
      ensures At(TargetBags(rows), i) == if i < first then multiset{} else multiset{lines[i - first]}
    {
      AddedAt(before, rows, first, lines, i);
    }
    TotalSplit(TargetBags(before + rows), TargetBags(before), TargetBags(rows), next);
    TotalRow(TargetBags(rows), first, lines);
    TotalBeyond(TargetBags(before), first, next) by { NoBags(before, first); }
  }

  lemma NoBags(targets: map<nat, Row>, first: nat)
    requires forall t :: t in targets ==> t < first
    ensures forall i :: i in TargetBags(targets) ==> i < first
  {
  }

  lemma EnqueuedBags(s: State, q: nat, raw: seq<string>)
    requires forall t :: t in s.targets ==> t < s.nextTarget
    ensures Queued(Enqueue(s, q, raw)) == Queued(s) + multiset(Lines(raw))
  {
    hide Total, Lines, TargetBags, NewRows;
    AddedBags(s.targets, NewRows(s.parse, q, Lines(raw), s.nextTarget), s.nextTarget, Lines(raw));
  }

  /** A new job adds its targets to those of the running jobs. */
  lemma CreatedBags(parse: string -> Target, jobs: map<nat, Job>, job: Job, n: nat)
    requires job.retval.None? && forall j :: j in jobs ==> j < n
    ensures Total(JobBags(jobs[n := job]), n + 1) == Total(JobBags(jobs), n) + multiset(job.targets)
    ensures Total(HashBags(parse, jobs[n := job]), n + 1)
            == Total(HashBags(parse, jobs), n) + multiset(Hashes(parse, job.targets))
  {
    hide Total, Hashes, JobBags, HashBags, At;
    var more := jobs[n := job];
    forall i | 0 <= i <= n
      ensures i < n ==> At(JobBags(more), i) == At(JobBags(jobs), i)
      ensures i < n ==> At(HashBags(parse, more), i) == At(HashBags(parse, jobs), i)
      ensures i == n ==> At(JobBags(more), i) == multiset(job.targets)
      ensures i == n ==> At(HashBags(parse, more), i) == multiset(Hashes(parse, job.targets))
    {
      JobBagsAt(parse, more, i);
      JobBagsAt(parse, jobs, i);
    }
    TotalBelow(JobBags(more), JobBags(jobs), n);
    TotalBelow(HashBags(parse, more), HashBags(parse, jobs), n);
    TotalStep(JobBags(more), n + 1);
    TotalStep(HashBags(parse, more), n + 1);
  }

  /** A job that gets its return value takes its targets from those of the running jobs. */
  lemma ClosedBags(parse: string -> Target, jobs: map<nat, Job>, j: nat, retval: int, n: nat)
    requires j in jobs && jobs[j].retval.None? && j < n
    ensures var closed := jobs[j := jobs[j].(retval := Some(retval))];
            && Total(JobBags(jobs), n) == Total(JobBags(closed), n) + multiset(jobs[j].targets)
            && Total(HashBags(parse, jobs), n)
               == Total(HashBags(parse, closed), n) + multiset(Hashes(parse, jobs[j].targets))
  {
    hide Total, Hashes;
    var closed := jobs[j := jobs[j].(retval := Some(retval))];
    TotalWithout(JobBags(jobs), JobBags(closed), j, n);
    TotalWithout(HashBags(parse, jobs), HashBags(parse, closed), j, n);
  }

  lemma DeletedBags(parse: string -> Target, jobs: map<nat, Job>, j: nat, n: nat)
    requires j in jobs && jobs[j].retval.Some?
    ensures Total(JobBags(jobs - {j}), n) == Total(JobBags(jobs), n)
    ensures Total(HashBags(parse, jobs - {j}), n) == Total(HashBags(parse, jobs), n)
  {
    hide Total, Hashes;
    TotalBelow(JobBags(jobs - {j}), JobBags(jobs), n);
    TotalBelow(HashBags(parse, jobs - {j}), HashBags(parse, jobs), n);
  }
}
