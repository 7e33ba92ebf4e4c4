/**
  The scheduling service over its tables.  Each method is one operation under the lock; the history of the machine's
  events records what it did, so everything proved about runs holds for every sequence of calls, and half-way through
  each of them.
*/
module Scheduler {
  import opened Networks
  import opened Tallies
  import opened SchedulerState
  import opened SchedulerIndex
  import opened SchedulerAccounts
  import opened SchedulerSteps
  import opened SchedulerRuns
  import opened SchedulerAssignment
  import State = SchedulerState

  /** What an agent gets: nothing to do, a job, or no answer because the lock is taken or an error was raised. */
  datatype Assignment = Nowork | Work(id: nat, targets: seq<Line>) | Busy | Error

  datatype Reply = BadRequest | Discard | TooManyRequests | Success

  datatype RandomTarget = RandomTarget(id: nat, text: Line, hash: Hash)

  /** The queues an agent may be served from. */
  predicate Eligible(queues: map<nat, Queue>, readynet: set<(nat, Hash)>, q: nat, name: Option<string>,
                     caps: set<string>)
  {
    && q in queues && queues[q].active && queues[q].reqs <= caps
    && q in (set r | r in readynet :: r.0)
    && (name.Some? && name.value != "" ==> queues[q].name == name.value)
  }

  /** A queue of the highest priority among the eligible ones, or none. */
  ghost predicate Chosen(s: State.State, name: Option<string>, caps: set<string>, queue: Option<nat>)
  {
    if queue.None? then forall q: nat :: !Eligible(s.queues, s.readynet, q, name, caps)
    else
      && Eligible(s.queues, s.readynet, queue.value, name, caps)
      && forall q: nat :: Eligible(s.queues, s.readynet, q, name, caps)
                          ==> q in s.queues && queue.value in s.queues
                              && s.queues[q].priority <= s.queues[queue.value].priority
  }

  /**
    Everything an assignment promises: the queue it served, how many targets it took and which ones it dropped, why it
    took fewer than the queue allows, and the whole new state, also when the matcher raised.
  */
  ghost predicate Outcome(a: State.State, b: State.State, name: Option<string>, caps: set<string>,
                          rules: seq<Exclusion>, result: Assignment, queue: Option<nat>, taken: seq<Line>,
                          dropped: seq<Line>)
  {
    && Chosen(a, name, caps, queue)
    && (result.Work? ==> result.targets == taken != [] && result.id == a.nextJob)
    && (result == Nowork ==> taken == [])
    && !result.Busy?
    && if queue.None? then result == Nowork && b == a && dropped == []
       else if result.Error? then exists u :: Failed(a, b, queue.value, rules, taken, dropped, u)
       else
         && queue.value in a.queues && Served(a, b, queue.value, rules, taken, dropped)
         && (taken == [] || |taken| <= a.queues[queue.value].groupSize)
         && (|taken| < a.queues[queue.value].groupSize ==>
               forall t :: t in b.targets && b.targets[t].queue == queue.value ==> Hot(b, b.targets[t].hash))
  }

  lemma ServedOutcome(a: State.State, b: State.State, name: Option<string>, caps: set<string>, rules: seq<Exclusion>,
                      q: nat, taken: seq<Line>, dropped: seq<Line>)
    requires Chosen(a, name, caps, Some(q)) && q in a.queues && Served(a, b, q, rules, taken, dropped)
    requires taken == [] || |taken| <= a.queues[q].groupSize
    requires |taken| < a.queues[q].groupSize ==>
               forall t :: t in b.targets && b.targets[t].queue == q ==> Hot(b, b.targets[t].hash)
    ensures Outcome(a, b, name, caps, rules, if taken == [] then Nowork else Work(a.nextJob, taken), Some(q), taken,
                    dropped)
  {
    hide Chosen, Served, Hot;
  }

  lemma NoOutcome(a: State.State, name: Option<string>, caps: set<string>, rules: seq<Exclusion>)
    requires Chosen(a, name, caps, None)
    ensures Outcome(a, a, name, caps, rules, Nowork, None, [], [])
  {
  }

  lemma ErrorOutcome(a: State.State, b: State.State, name: Option<string>, caps: set<string>, rules: seq<Exclusion>,
                     q: nat, taken: seq<Line>, dropped: seq<Line>, u: nat)
    requires Chosen(a, name, caps, Some(q)) && Failed(a, b, q, rules, taken, dropped, u)
    ensures Outcome(a, b, name, caps, rules, Error, Some(q), taken, dropped)
  {
    hide Chosen, Failed;
  }

  /**
    An assignment loses a target exactly when it ends with an error, and only if the queue it serves holds a snag; heat
    leaks only then, and only if the queue holds a trap.
  */
  lemma OutcomeLoses(a: State.State, b: State.State, name: Option<string>, caps: set<string>, rules: seq<Exclusion>,
                     result: Assignment, queue: Option<nat>, taken: seq<Line>, dropped: seq<Line>)
    requires Inv(a) && Outcome(a, b, name, caps, rules, result, queue, taken, dropped)
    ensures b.ledger.lost != a.ledger.lost <==> result.Error?
    ensures result.Error? ==> queue.Some? && Losable(a, queue.value, rules)
    ensures b.ledger.leaked != a.ledger.leaked ==> result.Error? && queue.Some? && Leakable(a, queue.value, rules)
  {
    hide Inv, Losable, Leakable, Hashes, Total, OnlyPopped, Sorted, Heat;
    if queue.Some? {
      if result.Error? {
        var u :| Failed(a, b, queue.value, rules, taken, dropped, u);
        InvSound(a);
        CrashLeak(a, b, queue.value, rules, taken, dropped, u);
      }
    }
  }

  /**
    What an assignment may touch: no rule forbids a target that was taken, some rule forbids every target that was
    dropped, unless it is an enumeration of nothing.
  */
  ghost predicate Respects(parse: string -> Target, rules: seq<Exclusion>, taken: seq<Line>, dropped: seq<Line>)
  {
    && (forall x, i :: x in taken && 0 <= i < |rules| ==> !Forbids(rules[i], x, parse(x)))
    && (forall x :: x in dropped ==>
          Empty(parse(x)) || exists i :: 0 <= i < |rules| && Forbids(rules[i], x, parse(x)))
  }

  lemma NothingTouched(parse: string -> Target, rules: seq<Exclusion>)
    ensures Respects(parse, rules, [], [])
  {
  }

  lemma OutcomeRespects(a: State.State, b: State.State, name: Option<string>, caps: set<string>, rules: seq<Exclusion>,
                        result: Assignment, queue: Option<nat>, taken: seq<Line>, dropped: seq<Line>)
    requires Outcome(a, b, name, caps, rules, result, queue, taken, dropped) && ValidRules(rules)
    ensures Respects(a.parse, rules, taken, dropped)
  {
    hide MatchAll, Forbids, Queued, Heat, Hot, Hashes, OnlyPopped, ValidRules;
    if queue.None? {
      assert taken == [] && dropped == [];
    } else {
      forall x | x in taken
        ensures MatchAll(rules, x, a.parse(x)) == Clear
      {
      }
      forall x | x in dropped
        ensures MatchAll(rules, x, a.parse(x)) == Excluded
      {
      }
      forall x | x in taken || x in dropped
        ensures x in taken ==> forall i :: 0 <= i < |rules| ==> !Forbids(rules[i], x, a.parse(x))
        ensures x in dropped ==>
                  Empty(a.parse(x)) || exists i :: 0 <= i < |rules| && Forbids(rules[i], x, a.parse(x))
      {
        RulesExclude(rules, x, a.parse(x));
      }
    }
  }

  lemma ChosenQueue(s: State.State, name: Option<string>, caps: set<string>, queue: Option<nat>)
    requires Chosen(s, name, caps, queue) && queue.Some?
    ensures queue.value in s.queues && s.queues[queue.value].active && HasReady(s, queue.value)
  {
  }

  /** Lines were enqueued: there is a new target for each, with its network, and the index is what it should be. */
  ghost predicate Lined(a: State.State, b: State.State, q: nat, lines: seq<Line>)
  {
    && b == a.(targets := b.targets, nextTarget := b.nextTarget, readynet := Ready(b), ledger := b.ledger)
    && b.nextTarget == a.nextTarget + |lines|
    && (forall t :: t in b.targets <==> t in a.targets || a.nextTarget <= t < b.nextTarget)
    && (forall t :: t in a.targets ==> b.targets[t] == a.targets[t])
    && forall i :: 0 <= i < |lines| ==>
         b.targets[a.nextTarget + i] == Row(q, lines[i], Hashval(a.parse(lines[i])))
  }

  /** Targets were released: their networks have less heat, and no other table changed but the index. */
  ghost predicate Cooled(a: State.State, b: State.State, texts: seq<Line>)
  {
    && b == a.(heatmap := b.heatmap, readynet := b.readynet, hands := Idle,
               ledger := a.ledger.(finished := a.ledger.finished + multiset(texts)))
    && forall h :: Heat(b, h) == Heat(a, h) - multiset(Hashes(a.parse, texts))[h]
  }

  /** A job has its return value, and each of its targets is released once. */
  ghost predicate Finished(a: State.State, b: State.State, j: nat, retval: int)
  {
    && j in a.jobs
    && b == a.(jobs := a.jobs[j := a.jobs[j].(retval := Some(retval))], heatmap := b.heatmap, readynet := b.readynet,
               ledger := a.ledger.(finished := a.ledger.finished + multiset(a.jobs[j].targets)))
    && forall h :: Heat(b, h) == Heat(a, h) - multiset(Hashes(a.parse, a.jobs[j].targets))[h]
  }

  lemma CooledNone(a: State.State)
    ensures Cooled(a, a.(hands := Idle), [])
  {
    HashesNone(a.parse);
    HeatOnly(a, a.(hands := Idle));
    assert a.ledger.finished + multiset([]) == a.ledger.finished;
  }

  lemma CooledMore(a: State.State, s: State.State, texts: seq<Line>, i: nat, gc: bool)
    requires i < |texts| && Inv(s) && s.hands == Releasing(texts[i..])
    requires Cooled(a, s.(hands := Idle), texts[..i])
    ensures Cooled(a, Release(s, gc).(hands := Idle), texts[..i + 1])
  {
    hide Total, Hashes, HashOf, Ready, HeatmapPop, Sound, Exact, Conserved, Heat, HeatOwed;
    var h := HashOf(s.parse, texts[i]);
    var p := Release(s, gc);
    NextHeat(s);
    CountedOnly(s, h, gc);
    assert texts[..i + 1] == texts[..i] + [texts[i]];
    HashesAppend(s.parse, texts[..i], texts[i]);
    forall k
      ensures Heat(p, k) == Heat(a, k) - multiset(Hashes(a.parse, texts[..i + 1]))[k]
    {
      HeatAfterPop(s, h, gc, k);
      HeatOnly(s, s.(hands := Idle));
      HeatOnly(HeatmapPop(s, h, gc), p);
    }
    HeatOnly(p, p.(hands := Idle));
  }

  lemma CooledFinished(a: State.State, b: State.State, j: nat, retval: int)
    requires a.hands.Idle? && j in a.jobs && Cooled(BeginRelease(a, j, retval), b, a.jobs[j].targets)
    ensures Finished(a, b, j, retval)
  {
    hide Hashes;
    HeatOnly(a, BeginRelease(a, j, retval));
  }

  /** An agent that can do more may be served from all the queues that it could be served from before, at least. */
  lemma EligibleMore(s: State.State, q: nat, name: Option<string>, caps: set<string>, more: set<string>)
    requires Eligible(s.queues, s.readynet, q, name, caps)
    ensures Eligible(s.queues, s.readynet, q, name, caps + more)
    ensures Eligible(s.queues, s.readynet, q, None, caps)
  {
  }

  /**
    What an agent may ask of a queue: that it is active, has a network that is ready, requires nothing that the agent
    cannot do, and has the name that the agent asks for, if it asks for one.
  */
  ghost predicate Serves(s: State.State, q: nat, name: Option<string>, caps: set<string>)
  {
    && q in s.queues && s.queues[q].active
    && (exists h :: (q, h) in s.readynet)
    && (forall c :: c in s.queues[q].reqs ==> c in caps)
    && (name == None || name == Some("") || name == Some(s.queues[q].name))
  }

  lemma ChosenServes(s: State.State, name: Option<string>, caps: set<string>, queue: Option<nat>)
    requires Chosen(s, name, caps, queue)
    ensures queue.None? ==> forall q: nat :: !Serves(s, q, name, caps)
    ensures queue.Some? ==>
              && Serves(s, queue.value, name, caps)
              && forall q: nat :: Serves(s, q, name, caps) ==>
                   s.queues[q].priority <= s.queues[queue.value].priority
  {
    forall q: nat
      ensures Serves(s, q, name, caps) <==> Eligible(s.queues, s.readynet, q, name, caps)
    {
      if Serves(s, q, name, caps) {
        var h :| (q, h) in s.readynet;
        assert (q, h).0 in set r | r in s.readynet :: r.0;
      }
      if Eligible(s.queues, s.readynet, q, name, caps) {
        var r :| r in s.readynet && r.0 == q;
        assert (q, r.1) in s.readynet;
      }
    }
  }

  /** An active queue with a ready network and a name of its own can be chosen by asking for it by name. */
  lemma Addressable(s: State.State, q: nat)
    requires q in s.queues && s.queues[q].active && HasReady(s, q) && s.queues[q].name != ""
    requires forall p :: p in s.queues && s.queues[p].name == s.queues[q].name ==> p == q
    ensures Chosen(s, Some(s.queues[q].name), s.queues[q].reqs, Some(q))
  {
  }

  function Count(counts: map<Hash, nat>, h: Hash): nat
  {
    if h in counts then counts[h] else 0
  }

  class Service {
    const parse: string -> Target
    var level: nat
    var queues: map<nat, Queue>
    var targets: map<nat, Row>
    var readynet: set<(nat, Hash)>
    var heatmap: map<Hash, int>
    var jobs: map<nat, Job>
    var nextTarget: nat
    var nextJob: nat
    ghost var hands: Hands
    ghost var ledger: Ledger
    ghost const start: State.State
    ghost var history: seq<Event>

    ghost function Now(): State.State
      reads this
    {
      State.State(parse, level, queues, targets, readynet, heatmap, jobs, nextTarget, nextJob, hands, ledger)
    }

    /** The history is a run from empty tables to a state. */
    ghost predicate LedTo(s: State.State)
      reads this
    {
      start == Initial(parse, start.level) && Possible(start, history) && After(start, history) == s
    }

    ghost predicate Recorded()
      reads this
    {
      LedTo(Now())
    }

    /** Between operations. */
    ghost predicate Valid()
      reads this
    {
      Recorded() && hands.Idle?
    }

    constructor (parse: string -> Target, level: nat)
      ensures Valid() && Now() == Initial(parse, level) && start == Now() && history == []
    {
      this.parse := parse;
      this.level := level;
      queues, targets, readynet, heatmap, jobs, nextTarget, nextJob := map[], map[], {}, map[], map[], 0, 0;
      hands, ledger, history := Idle, Initial(parse, level).ledger, [];
      start := Initial(parse, level);
    }

    lemma Kept()
      requires Recorded()
      ensures Inv(start) && Inv(Now())
    {
      hide Inv, After, Possible;
      InitialInv(parse, start.level);
      RunKeeps(start, history);
    }

    /**
      At every moment the index is its definition, heat is what is in flight, in the hands or leaked, and every
      enqueued target is in place, lost or stranded; all are in place if and only if the matcher lost none, and always
      without a network among the rules or without a malformed enumeration among the lines.
    */
    lemma Accounted()
      requires Recorded()
      ensures forall q: nat, h :: (q, h) in readynet <==> HasTarget(Now(), q, h) && !Hot(Now(), h)
      ensures forall h :: Heat(Now(), h) == InFlight(Now())[h] + multiset(Hashes(parse, InHands(Now())))[h]
                                            + ledger.leaked[h]
      ensures ledger.enqueued == InPlace(Now()) + ledger.lost + ledger.stranded
      ensures ledger.enqueued == InPlace(Now()) <==> ledger.lost == multiset{}
      ensures ledger.stranded == multiset{} <==> ledger.leaked == multiset{}
      ensures WithoutNetworks(history) || WithoutMalformed(parse, history) ==>
                NoLosses(ledger) && ledger.enqueued == InPlace(Now())
    {
      hide Inv, After, Possible, InFlight, Hashes, InPlace, Heat, HasTarget, WithoutNetworks, WithoutMalformed;
      Reachable(parse, start.level, history);
      ConservedIff(parse, start.level, history);
      if WithoutNetworks(history) || WithoutMalformed(parse, history) {
        NothingLost(parse, start.level, history);
      }
    }

    /** As long as the level was not changed, no network has more targets in flight than the level allows. */
    lemma Limited(h: Hash)
      requires Recorded() && FixedLevel(history) && start.level > 0
      ensures level == start.level
      ensures InFlight(Now())[h] + multiset(Hashes(parse, InHands(Now())))[h] <= level
    {
      hide Inv, After, Possible, FixedLevel, InFlight, Hashes;
      InitialInv(parse, start.level);
      RunLimited(start, history, h);
      RateLimit(parse, start.level, history, h);
    }

    /** A job that was issued left the running state once if it does not run any more, and never otherwise. */
    lemma LeftOnce(j: nat)
      requires Recorded()
      ensures Closings(history, j) == if Closed(Now(), j) then 1 else 0
    {
      hide Inv, After, Possible, Closed;
      InitialInv(parse, start.level);
      ClosedOnce(start, history, j);
    }

    /** Adds an event to the history. */
    ghost method Record(before: State.State, e: Event)
      requires LedTo(before)
      requires Enabled(before, e) && Now() == Apply(before, e)
      modifies this`history
      ensures Recorded() && history == old(history) + [e]
      ensures old(history) <= history && (FixedLevel(old(history)) && !e.Releveled? ==> FixedLevel(history))
    {
      hide Inv, After, Possible, Enabled, Apply;
      AfterOne(start, history, e);
      history := history + [e];
    }

    // -------------------------------------------------------------------------------------------------------
    // The count and the index
    // -------------------------------------------------------------------------------------------------------

    method HeatmapPut(h: Hash) returns (heatCount: int)
      modifies this`heatmap, this`readynet
      ensures Now() == State.HeatmapPut(old(Now()), h) && heatCount == Heat(Now(), h)
    {
      heatCount := if h in heatmap then heatmap[h] + 1 else 1;
      heatmap := heatmap[h := heatCount];
      if level > 0 && heatCount >= level {
        readynet := set r | r in readynet && r.1 != h;
      }
    }

    /** Fails when a row that is inserted into the index exists. */
    method HeatmapPop(h: Hash, gc: bool) returns (ok: bool)
      modifies this`heatmap, this`readynet
      ensures ok <==> !Collides(old(Now()), h)
      ensures ok ==> Now() == State.HeatmapPop(old(Now()), h, gc)
    {
      hide Waiting;
      var heatCount := if h in heatmap then heatmap[h] - 1 else 1;
      heatmap := heatmap[h := heatCount];
      if gc {
        heatmap := map k | k in heatmap && heatmap[k] != 0 :: heatmap[k];
      }
      ok := true;
      if level > 0 && heatCount + 1 == level {
        ok := Awaken(h);
      }
    }

    /** Inserts a row for every queue with a target of the network, one after the other. */
    method Awaken(h: Hash) returns (ok: bool)
      modifies this`readynet
      ensures ok <==> Waiting(targets, h) * old(readynet) == {}
      ensures ok ==> readynet == old(readynet) + Waiting(targets, h)
    {
      var ids := set t | t in targets && targets[t].hash == h :: targets[t].queue;
      ghost var rows := Waiting(targets, h);
      ghost var before := readynet;
      WaitingMeans(Now(), h);
      while ids != {}
        invariant forall q :: q in ids ==> (q, h) in rows
        invariant forall r :: r in rows && r.0 !in ids ==> r !in before
        invariant readynet == before + (set r | r in rows && r.0 !in ids)
        decreases ids
      {
        var q :| q in ids;
        if (q, h) in readynet {
          assert (q, h) in rows * before;
          return false;
        }
        readynet := readynet + {(q, h)};
        ids := ids - {q};
      }
      return true;
    }

    static lemma WaitingMeans(s: State.State, h: Hash)
      ensures forall r :: r in Waiting(s.targets, h) <==> r.1 == h && HasTarget(s, r.0, h)
      ensures forall r :: r in Waiting(s.targets, h) ==> r == (r.0, h)
    {
      forall r
        ensures r in Waiting(s.targets, h) <==> r.1 == h && HasTarget(s, r.0, h)
      {
        if r.1 == h && HasTarget(s, r.0, h) {
          var t :| t in s.targets && s.targets[t].queue == r.0 && s.targets[t].hash == h;
          assert (s.targets[t].queue, h) in Waiting(s.targets, h) && r == (r.0, r.1);
        }
      }
    }

    /** A random target of a random ready network of the queue. */
    method PopRandomTarget(q: nat) returns (rtarget: Option<RandomTarget>)
      requires Exact(Now())
      modifies this`targets, this`readynet
      ensures rtarget.None? <==> !HasReady(old(Now()), q)
      ensures rtarget.None? ==> Now() == old(Now())
      ensures rtarget.Some? ==>
                var r := rtarget.value;
                && r.id in old(targets) && old(targets)[r.id] == Row(q, r.text, r.hash)
                && (q, r.hash) in old(readynet) && Now() == PopTarget(old(Now()), r.id)
    {
      var ready := set r | r in readynet && r.0 == q :: r.1;
      if ready == {} {
        assert forall r :: r in readynet && r.0 == q ==> r.1 in ready;
        return None;
      }
      var h :| h in ready;
      assert HasTarget(Now(), q, h) by {
        ReadyMeans(Now(), q, h);
      }
      var id :| id in targets && targets[id].queue == q && targets[id].hash == h;
      rtarget := Some(RandomTarget(id, targets[id].text, h));
      targets := map t | t in targets && t != id :: targets[t];
      if !(exists t :: t in targets && targets[t].queue == q && targets[t].hash == h) {
        readynet := readynet - {(q, h)};
      }
    }

    // -------------------------------------------------------------------------------------------------------
    // Queues
    // -------------------------------------------------------------------------------------------------------

    method AddQueue(q: nat, queue: Queue)
      requires Valid() && q !in queues
      modifies this
      ensures Valid() && Now() == old(Now()).(queues := old(queues)[q := queue])
      ensures history == old(history) + [QueueCreated(q, queue)]
    {
      hide Inv, After, Possible;
      queues := queues[q := queue];
      Record(old(Now()), QueueCreated(q, queue));
    }

    method Enqueue(q: nat, raw: seq<string>)
      requires Valid() && q in queues
      modifies this
      ensures Valid() && Now() == State.Enqueue(old(Now()), q, raw) && history == old(history) + [Enqueued(q, raw)]
      ensures Lined(old(Now()), Now(), q, Lines(raw))
    {
      hide Inv, After, Possible, State.Enqueue, Enabled, Apply, Lines, Lined;
      Kept();
      EnqueueShows(Now(), q, raw);
      var enqueued := Clean(raw);
      InsertTargets(q, enqueued);
      EnqueueMeans(old(Now()), Now(), q, raw);
      ledger := ledger.(enqueued := ledger.enqueued + multiset(enqueued));
      Record(old(Now()), Enqueued(q, raw));
    }

    /** Inserts all targets at once, then their networks. */
    method InsertTargets(q: nat, enqueued: seq<Line>)
      modifies this`targets, this`nextTarget, this`readynet
      ensures targets == old(targets) + NewRows(parse, q, enqueued, old(nextTarget))
      ensures nextTarget == old(nextTarget) + |enqueued|
      ensures readynet == old(readynet) + set h | h in Hashes(parse, enqueued) && !Hot(old(Now()), h) :: (q, h)
    {
      hide NewRows, Hashes;
      if enqueued != [] {
        targets := targets + NewRows(parse, q, enqueued, nextTarget);
        nextTarget := nextTarget + |enqueued|;
        SameHot(old(Now()), Now());
        InsertReady(q, enqueued);
      } else {
        NothingReady(Now(), q);
      }
    }

    static lemma SameHot(a: State.State, b: State.State)
      requires a.level == b.level && a.heatmap == b.heatmap
      ensures forall h :: Hot(a, h) == Hot(b, h)
    {
    }

    static lemma EnqueueMeans(a: State.State, b: State.State, q: nat, raw: seq<string>)
      requires a.hands.Idle? && q in a.queues
      requires b == a.(targets := a.targets + NewRows(a.parse, q, Lines(raw), a.nextTarget),
                       nextTarget := a.nextTarget + |Lines(raw)|, readynet := b.readynet)
      requires b.readynet == a.readynet + set h | h in Hashes(a.parse, Lines(raw)) && !Hot(a, h) :: (q, h)
      ensures Enabled(a, Enqueued(q, raw)) && Apply(a, Enqueued(q, raw)) == State.Enqueue(a, q, raw)
              == b.(ledger := b.ledger.(enqueued := b.ledger.enqueued + multiset(Lines(raw))))
    {
      hide NewRows, Hashes, Lines, Hot;
    }

    static lemma RowsAdded(parse: string -> Target, before: map<nat, Row>, q: nat, lines: seq<Line>, first: nat)
      requires forall t :: t in before ==> t < first
      ensures var after := before + NewRows(parse, q, lines, first);
              && (forall t :: t in after <==> t in before || first <= t < first + |lines|)
              && (forall t :: t in before ==> after[t] == before[t])
              && forall i :: 0 <= i < |lines| ==> after[first + i] == Row(q, lines[i], Hashval(parse(lines[i])))
    {
      hide Hashval;
      var rows := NewRows(parse, q, lines, first);
      forall i | 0 <= i < |lines|
        ensures rows[first + i] == Row(q, lines[i], Hashval(parse(lines[i])))
      {
        assert first + i in rows;
      }
    }

    static lemma EnqueueRows(s: State.State, q: nat, raw: seq<string>)
      requires forall t :: t in s.targets ==> t < s.nextTarget
      ensures var p := State.Enqueue(s, q, raw); Lined(s, p.(readynet := Ready(p)), q, Lines(raw))
    {
      hide Lines, Hashes, Ready, Hot, Hashval, NewRows;
      var p := State.Enqueue(s, q, raw);
      SameReady(p, Ready(p));
      RowsAdded(s.parse, s.targets, q, Lines(raw), s.nextTarget);
    }

    static lemma SameReady(s: State.State, readynet: set<(nat, Hash)>)
      ensures Ready(s.(readynet := readynet)) == Ready(s)
    {
    }

    static lemma EnqueueShows(s: State.State, q: nat, raw: seq<string>)
      requires Inv(s) && s.hands.Idle? && q in s.queues
      ensures Lined(s, State.Enqueue(s, q, raw), q, Lines(raw))
    {
      hide Inv, State.Enqueue, Lines, Lined, Ready;
      var p := State.Enqueue(s, q, raw);
      EnqueueKeeps(s, q, raw);
      InvExact(p);
      InvSound(s);
      EnqueueRows(s, q, raw);
      assert p.(readynet := Ready(p)) == p;
    }

    static lemma NothingReady(s: State.State, q: nat)
      ensures s.targets + NewRows(s.parse, q, [], s.nextTarget) == s.targets
      ensures (set h | h in Hashes(s.parse, []) && !Hot(s, h) :: (q, h)) == {}
    {
    }

    /** The lines that are not blank, stripped. */
    static method Clean(raw: seq<string>) returns (enqueued: seq<Line>)
      ensures enqueued == Lines(raw)
    {
      hide Strip, Lines;
      enqueued := [];
      for i := 0 to |raw|
        invariant enqueued + Lines(raw[i..]) == Lines(raw)
      {
        LinesFrom(raw, i);
        var target := Strip(raw[i]);
        if target != [] {
          enqueued := enqueued + [target];
        }
      }
      LinesFrom(raw, |raw|);
    }

    static lemma LinesFrom(raw: seq<string>, i: nat)
      requires i <= |raw|
      ensures i == |raw| ==> Lines(raw[i..]) == []
      ensures i < |raw| ==>
                Lines(raw[i..]) == (if Strip(raw[i]) == [] then [] else [Strip(raw[i])]) + Lines(raw[i + 1..])
    {
      hide Strip;
      assert i < |raw| ==> raw[i..][1..] == raw[i + 1..];
    }

    /** Inserts the networks of the lines that are not hot, unless they are there. */
    method InsertReady(q: nat, enqueued: seq<Line>)
      modifies this`readynet
      ensures readynet == old(readynet) + set h | h in Hashes(parse, enqueued) && !Hot(old(Now()), h) :: (q, h)
    {
      var hashvals := set h | h in Hashes(parse, enqueued);
      var hot := set h | h in hashvals && level > 0 && h in heatmap && heatmap[h] >= level;
      var rest := hashvals - hot;
      ghost var all := rest;
      while rest != {}
        invariant rest <= all
        invariant readynet == old(readynet) + (set h | h in all && h !in rest :: (q, h))
        decreases rest
      {
        var h :| h in rest;
        if (q, h) !in readynet {
          readynet := readynet + {(q, h)};
        }
        rest := rest - {h};
      }
    }

    method Flush(q: nat)
      requires Valid() && q in queues
      modifies this
      ensures Valid() && Now() == State.Flush(old(Now()), q) && history == old(history) + [Flushed(q)]
      ensures Now() == old(Now()).(
                         targets := (map t | t in old(targets) && old(targets)[t].queue != q :: old(targets)[t]),
                         readynet := (set r | r in old(readynet) && r.0 != q), ledger := ledger)
    {
      hide Inv, After, Possible, QueueBags, Total;
      ledger := State.Flush(Now(), q).ledger;
      targets := map t | t in targets && targets[t].queue != q :: targets[t];
      readynet := set r | r in readynet && r.0 != q;
      Record(old(Now()), Flushed(q));
    }

    /** Deletes a job; fails if it runs. */
    method DeleteJob(j: nat) returns (ok: bool)
      requires Valid() && j in jobs
      modifies this
      ensures Valid() && ok == !Running(old(Now()), j)
      ensures Now() == if ok then old(Now()).(jobs := old(jobs) - {j}) else old(Now())
      ensures history == old(history) + if ok then [JobDeleted(j)] else []
    {
      hide Inv, After, Possible;
      ok := jobs[j].retval.Some?;
      if ok {
        jobs := jobs - {j};
        Record(old(Now()), JobDeleted(j));
      }
    }

    /** Deletes the jobs of a queue in some order, up to the first that runs. */
    method Prune(q: nat) returns (ok: bool)
      requires Valid()
      modifies this
      ensures Valid() && Now() == old(Now()).(jobs := jobs)
      ensures ok <==> forall j :: j in old(jobs) && old(jobs)[j].queue == q ==> !Running(old(Now()), j)
      ensures ok ==> jobs == map j | j in old(jobs) && old(jobs)[j].queue != q :: old(jobs)[j]
      ensures forall j :: j in jobs ==> j in old(jobs) && jobs[j] == old(jobs)[j]
      ensures forall j :: j in old(jobs) && j !in jobs ==> old(jobs)[j].queue == q && !Running(old(Now()), j)
      ensures old(history) <= history && (FixedLevel(old(history)) ==> FixedLevel(history))
    {
      hide Inv, After, Possible;
      var ids := set j | j in jobs && jobs[j].queue == q;
      while ids != {}
        invariant Valid() && Now() == old(Now()).(jobs := jobs)
        invariant forall j :: j in ids ==> j in old(jobs) && old(jobs)[j].queue == q
        invariant forall j :: j in jobs <==> j in old(jobs) && (old(jobs)[j].queue == q ==> j in ids)
        invariant forall j :: j in jobs ==> jobs[j] == old(jobs)[j]
        invariant forall j :: j in old(jobs) && j !in jobs ==> !Running(old(Now()), j)
        invariant old(history) <= history && (FixedLevel(old(history)) ==> FixedLevel(history))
        decreases ids
      {
        var j :| j in ids;
        ok := DeleteJob(j);
        if !ok {
          return;
        }
        ids := ids - {j};
      }
      ok := true;
    }

    /** Deletes a queue with its jobs and targets; fails at a job that runs. */
    method DeleteQueue(q: nat) returns (ok: bool)
      requires Valid() && q in queues
      modifies this
      ensures Valid() && (ok <==> forall j :: j in old(jobs) && old(jobs)[j].queue == q ==> !Running(old(Now()), j))
      ensures ok ==>
                Now() == old(Now()).(
                           queues := old(queues) - {q},
                           jobs := (map j | j in old(jobs) && old(jobs)[j].queue != q :: old(jobs)[j]),
                           targets := (map t | t in old(targets) && old(targets)[t].queue != q :: old(targets)[t]),
                           readynet := (set r | r in old(readynet) && r.0 != q),
                           ledger := State.Flush(old(Now()), q).ledger)
      ensures !ok ==> Now() == old(Now()).(jobs := jobs)
      ensures old(history) <= history && (FixedLevel(old(history)) ==> FixedLevel(history))
    {
      hide Inv, After, Possible, QueueBags, Total, Apply, Enabled;
      ok := Prune(q);
      if ok {
        ghost var before := Now();
        RemoveQueue(q);
        DeleteQueueMeans(before, q);
        Record(before, QueueDeleted(q));
      }
    }

    /** A queue goes, and with it the rows that refer to it. */
    method RemoveQueue(q: nat)
      modifies this`queues, this`targets, this`readynet, this`ledger
      ensures Now() == State.DeleteQueue(old(Now()), q)
    {
      hide QueueBags, Total;
      ledger := State.Flush(Now(), q).ledger;
      queues := queues - {q};
      targets := map t | t in targets && targets[t].queue != q :: targets[t];
      readynet := set r | r in readynet && r.0 != q;
    }

    static lemma DeleteQueueMeans(s: State.State, q: nat)
      requires s.hands.Idle? && q in s.queues && forall j :: j in s.jobs ==> s.jobs[j].queue != q
      ensures Enabled(s, QueueDeleted(q)) && Apply(s, QueueDeleted(q)) == State.DeleteQueue(s, q)
    {
      hide State.DeleteQueue;
    }

    // -------------------------------------------------------------------------------------------------------
    // The level
    // -------------------------------------------------------------------------------------------------------

    /** Hot networks leave the index, then all waiting networks that are not hot enter it. */
    method ReadynetRecount()
      modifies this`readynet
      ensures Now() == Recount(old(Now()))
    {
      var hot := {};
      if level > 0 {
        hot := set h | h in heatmap && heatmap[h] >= level;
        readynet := set r | r in readynet && r.1 !in hot;
      }
      ghost var kept := readynet;
      var hashes := (set t | t in targets :: targets[t].hash) - hot;
      ghost var all := hashes;
      while hashes != {}
        invariant hashes <= all
        invariant readynet == kept + (set t | t in targets && targets[t].hash in all - hashes
                                      :: (targets[t].queue, targets[t].hash))
        decreases hashes
      {
        var h :| h in hashes;
        readynet := readynet + Waiting(targets, h);
        hashes := hashes - {h};
      }
    }

    /** A new level in the configuration, and the recount that goes with it. */
    method ChangeLevel(newLevel: nat)
      requires Valid()
      modifies this
      ensures Valid() && Now() == Relevel(old(Now()), newLevel) && history == old(history) + [Releveled(newLevel)]
      ensures Now() == old(Now()).(level := newLevel, readynet := Ready(Now()))
    {
      hide Inv, After, Possible, Recount;
      level := newLevel;
      ReadynetRecount();
      RecountOnly(old(Now()).(level := newLevel));
      Record(old(Now()), Releveled(newLevel));
      Kept();
      InvExact(Now());
    }

    /** At a level that did not change, a recount finds nothing to do. */
    method RecountAgain()
      requires Valid()
      modifies this`readynet
      ensures Now() == old(Now()) && Valid()
    {
      hide After, Possible, Recount, Ready, Total;
      Kept();
      ReadynetRecount();
      RecountIdle(old(Now()));
    }

    // -------------------------------------------------------------------------------------------------------
    // Assignment
    // -------------------------------------------------------------------------------------------------------

    /** A queue of the highest priority among those that the agent may be served from. */
    method GetAssignmentQueue(name: Option<string>, caps: set<string>) returns (queue: Option<nat>)
      ensures Chosen(Now(), name, caps, queue)
      ensures queue.None? ==> forall q: nat :: !Serves(Now(), q, name, caps)
      ensures queue.Some? ==>
                && Serves(Now(), queue.value, name, caps)
                && forall q: nat :: Serves(Now(), q, name, caps) ==>
                     queues[q].priority <= queues[queue.value].priority
    {
      hide Serves;
      var rest := set q | q in queues && Eligible(queues, readynet, q, name, caps);
      ghost var all := rest;
      queue := None;
      while rest != {}
        invariant rest <= all && (queue.None? ==> rest == all)
        invariant queue.Some? ==> queue.value in all
        invariant queue.Some? ==> forall q :: q in all - rest ==> queues[q].priority <= queues[queue.value].priority
        decreases rest
      {
        var q :| q in rest;
        if queue.None? || queues[q].priority > queues[queue.value].priority {
          queue := Some(q);
        }
        rest := rest - {q};
      }
      assert forall q: nat :: Eligible(queues, readynet, q, name, caps) ==> q in all;
      ChosenServes(Now(), name, caps, queue);
    }

    /** A target that the rules exclude is gone. */
    ghost method RecordDrop(before: State.State, id: nat)
      requires LedTo(before)
      requires Poppable(before, id) && Judged(before, before.hands.rules, id) == Excluded
      requires Now() == PopTarget(before, id)
      modifies this`ledger, this`history
      ensures Recorded() && Now() == Drop(before, id) && history == old(history) + [Dropped(id)]
      ensures FixedLevel(old(history)) ==> FixedLevel(history)
    {
      hide Inv, After, Possible, PopTarget;
      PoppedJobs(before, id);
      ledger := ledger.(excluded := ledger.excluded + multiset{before.targets[id].text});
      Record(before, Dropped(id));
    }

    /** A target that the matcher fails on is lost, and what was taken before it is stranded. */
    ghost method RecordCrash(before: State.State, id: nat)
      requires LedTo(before)
      requires Poppable(before, id) && Judged(before, before.hands.rules, id) == Raised
      requires Now() == PopTarget(before, id)
      modifies this`ledger, this`history, this`hands
      ensures hands.Idle?
      ensures Recorded() && Now() == Crash(before, id) && history == old(history) + [Crashed(id)]
      ensures FixedLevel(old(history)) ==> FixedLevel(history)
    {
      hide Inv, After, Possible, PopTarget, Hashes;
      PoppedJobs(before, id);
      ledger := Crash(before, id).ledger;
      hands := Idle;
      Record(before, Crashed(id));
    }

    /** A target is taken, and its network counted. */
    method TakeTarget(ghost before: State.State, r: RandomTarget)
      requires LedTo(before)
      requires Poppable(before, r.id) && Judged(before, before.hands.rules, r.id) == Clear
      requires Now() == PopTarget(before, r.id)
      requires before.targets[r.id].text == r.text && before.targets[r.id].hash == r.hash
      modifies this`heatmap, this`readynet, this`hands, this`history
      ensures hands == before.hands.(taken := before.hands.taken + [r.text])
      ensures Recorded() && Now() == Take(before, r.id) && history == old(history) + [Taken(r.id)]
      ensures FixedLevel(old(history)) ==> FixedLevel(history)
    {
      hide Inv, After, Possible, PopTarget, State.HeatmapPut, MatchAll;
      PoppedJobs(before, r.id);
      var heatCount := HeatmapPut(r.hash);
      hands := before.hands.(taken := before.hands.taken + [r.text]);
      Record(before, Taken(r.id));
    }

    /** A popped target is taken, dropped or lost, as the rules say. */
    method Judge(ghost before: State.State, r: RandomTarget, rules: seq<Exclusion>) returns (outcome: Match)
      requires LedTo(before)
      requires Poppable(before, r.id) && before.hands.rules == rules && Now() == PopTarget(before, r.id)
      requires before.targets[r.id].text == r.text && before.targets[r.id].hash == r.hash
      modifies this`heatmap, this`readynet, this`hands, this`ledger, this`history
      ensures outcome == Judged(before, rules, r.id) && Recorded()
      ensures Now() == match outcome
                       case Clear => Take(before, r.id)
                       case Excluded => Drop(before, r.id)
                       case Raised => Crash(before, r.id)
      ensures hands == match outcome
                       case Clear => before.hands.(taken := before.hands.taken + [r.text])
                       case Excluded => before.hands
                       case Raised => Idle
      ensures old(history) <= history && (FixedLevel(old(history)) ==> FixedLevel(history))
    {
      hide Inv, After, Possible, MatchAll, Take, Drop, Crash, PopTarget, FixedLevel;
      PoppedJobs(before, r.id);
      PoppedOnly(before, r.id);
      outcome := MatchAll(rules, r.text, parse(r.text));
      match outcome
      case Clear => TakeTarget(before, r);
      case Excluded => RecordDrop(before, r.id);
      case Raised => RecordCrash(before, r.id);
    }

    ghost method StartAssign(q: nat, rules: seq<Exclusion>)
      requires Valid() && q in queues && queues[q].active && HasReady(Now(), q)
      modifies this`hands, this`history
      ensures Recorded() && Now() == BeginAssign(old(Now()), q, rules)
      ensures hands == Assigning(q, rules, []) && history == old(history) + [AssignBegun(q, rules)]
      ensures FixedLevel(old(history)) ==> FixedLevel(history)
    {
      hide Inv, After, Possible;
      hands := Assigning(q, rules, []);
      Record(old(Now()), AssignBegun(q, rules));
    }

    /** What was taken becomes a job, if anything was. */
    method CreateJob(q: nat, ghost rules: seq<Exclusion>, taken: seq<Line>)
      requires Recorded() && hands == Assigning(q, rules, taken) && (Wanting(Now()) ==> !HasReady(Now(), q))
      modifies this`jobs, this`nextJob, this`hands, this`history
      ensures Valid() && Now() == EndAssign(old(Now())) && history == old(history) + [AssignEnded]
      ensures FixedLevel(old(history)) ==> FixedLevel(history)
    {
      hide Inv, After, Possible, MatchAll;
      if taken != [] {
        jobs := jobs[nextJob := Job(q, taken, None)];
        nextJob := nextJob + 1;
      }
      hands := Idle;
      Record(old(Now()), AssignEnded);
    }

    /**
      Random targets of ready networks from the best queue, as many as the queue allows.  Fewer are only returned
      when every target left in the queue is in a hot network; an excluded target is dropped and not counted.
    */
    method JobAssign(name: Option<string>, caps: set<string>, rules: seq<Exclusion>, busy: bool)
      returns (result: Assignment, queue: Option<nat>, ghost taken: seq<Line>, ghost dropped: seq<Line>)
      requires Valid()
      modifies this
      ensures Valid() && (result.Busy? <==> busy)
      ensures if busy then Now() == old(Now())
              else Outcome(old(Now()), Now(), name, caps, rules, result, queue, taken, dropped)
      ensures ValidRules(rules) ==> Respects(parse, rules, taken, dropped)
      ensures ledger.lost != old(ledger).lost <==> result.Error?
      ensures result.Error? ==> queue.Some? && Losable(old(Now()), queue.value, rules)
      ensures ledger.leaked != old(ledger).leaked ==>
                result.Error? && queue.Some? && Leakable(old(Now()), queue.value, rules)
      ensures old(history) <= history && (FixedLevel(old(history)) ==> FixedLevel(history))
    {
      hide Inv, After, Possible, MatchAll, Midway, Served, Failed, Eligible, Hot, FixedLevel, Chosen, Outcome, Losable,
           Leakable, HasReady, ValidRules, Respects;
      result, queue, taken, dropped := Busy, None, [], [];
      NothingTouched(parse, rules);
      if busy {
        return;
      }
      result := Nowork;
      ghost var first := Now();
      Kept();
      queue := GetAssignmentQueue(name, caps);
      if queue.None? {
        NoOutcome(first, name, caps, rules);
        return;
      }
      ChosenQueue(first, name, caps, queue);
      var q := queue.value;
      StartAssign(q, rules);
      MidwayStart(first, q, rules);
      var raised: bool;
      var assignedTargets: seq<Line>;
      ghost var u;
      raised, assignedTargets, dropped, u := FillHands(first, q, rules);
      taken := assignedTargets;
      if raised {
        ErrorOutcome(first, Now(), name, caps, rules, q, taken, dropped, u);
        result := Error;
      } else {
        ghost var last := Now();
        var id := nextJob;
        MidwayMeans(first, last, q, rules, taken, dropped);
        CreateJob(q, rules, assignedTargets);
        EndsServed(first, last, q, rules, taken, dropped);
        SameHot(last, Now());
        ServedOutcome(first, Now(), name, caps, rules, q, taken, dropped);
        if assignedTargets != [] {
          result := Work(id, assignedTargets);
        }
      }
      OutcomeLoses(first, Now(), name, caps, rules, result, queue, taken, dropped);
      if ValidRules(rules) {
        OutcomeRespects(first, Now(), name, caps, rules, result, queue, taken, dropped);
      }
    }

    /** The route for assignments: no work in maintenance and when the lock is taken. */
    method Assign(maintenance: bool, name: Option<string>, caps: set<string>, rules: seq<Exclusion>, busy: bool)
      returns (result: Assignment, ghost queue: Option<nat>, ghost taken: seq<Line>, ghost dropped: seq<Line>)
      requires Valid()
      modifies this
      ensures Valid() && !result.Busy?
      ensures if maintenance || busy then result == Nowork && Now() == old(Now())
              else Outcome(old(Now()), Now(), name, caps, rules, result, queue, taken, dropped)
      ensures ValidRules(rules) ==> Respects(parse, rules, taken, dropped)
      ensures ledger.lost != old(ledger).lost <==> result.Error?
      ensures result.Error? ==> queue.Some? && Losable(old(Now()), queue.value, rules)
      ensures ledger.leaked != old(ledger).leaked ==>
                result.Error? && queue.Some? && Leakable(old(Now()), queue.value, rules)
      ensures old(history) <= history && (FixedLevel(old(history)) ==> FixedLevel(history))
    {
      hide Inv, After, Possible, FixedLevel, Outcome, Losable, Leakable, ValidRules, Respects;
      result, queue, taken, dropped := Nowork, None, [], [];
      NothingTouched(parse, rules);
      if !maintenance {
        result, queue, taken, dropped := JobAssign(name, caps, rules, busy);
        if result.Busy? {
          result := Nowork;
        }
      }
    }

    /** Pops targets until there are enough, none is left in a ready network, or the matcher raises. */
    method FillHands(ghost first: State.State, q: nat, rules: seq<Exclusion>)
      returns (raised: bool, taken: seq<Line>, ghost dropped: seq<Line>, ghost u: nat)
      requires Recorded() && q in queues && hands == Assigning(q, rules, []) && first.hands.Idle?
      requires Midway(first, Now(), q, rules, [], [])
      modifies this`targets, this`readynet, this`heatmap, this`hands, this`ledger, this`history
      ensures Recorded()
      ensures if raised then hands.Idle? && Failed(first, Now(), q, rules, taken, dropped, u)
              else
                && hands == Assigning(q, rules, taken) && Midway(first, Now(), q, rules, taken, dropped)
                && (taken == [] || |taken| <= queues[q].groupSize)
                && (|taken| < queues[q].groupSize ==>
                      && !HasReady(Now(), q)
                      && forall t :: t in targets && targets[t].queue == q ==> Hot(Now(), targets[t].hash))
      ensures old(history) <= history && (FixedLevel(old(history)) ==> FixedLevel(history))
    {
      hide Inv, After, Possible, MatchAll, Take, Drop, Crash, PopTarget, Midway, Failed, Hot, FixedLevel, HasReady;
      raised, taken, dropped, u := false, [], [], 0;
      var more := true;
      while |taken| < queues[q].groupSize && more
        invariant Recorded() && Midway(first, Now(), q, rules, taken, dropped)
        invariant hands == Assigning(q, rules, taken)
        invariant taken == [] || |taken| <= queues[q].groupSize
        invariant !more ==> !HasReady(Now(), q)
        invariant old(history) <= history && (FixedLevel(old(history)) ==> FixedLevel(history))
        decreases targets.Keys, more
      {
        Kept();
        ghost var before := Now();
        InvExact(before);
        var rtarget := PopRandomTarget(q);
        if rtarget.None? {
          more := false;
        } else {
          var r := rtarget.value;
          PoppedOnly(before, r.id);
          var outcome := Judge(before, r, rules);
          if outcome == Raised {
            MidwayCrash(first, before, q, rules, taken, dropped, r.id);
            raised, u := true, r.id;
            return;
          } else if outcome == Excluded {
            MidwayDrop(first, before, q, rules, taken, dropped, r.id);
            dropped := dropped + [r.text];
          } else {
            MidwayTake(first, before, q, rules, taken, dropped, r.id);
            taken := taken + [r.text];
          }
        }
      }
      if !more {
        Kept();
        OnlyHot(Now(), q);
      }
    }

    // -------------------------------------------------------------------------------------------------------
    // Results
    // -------------------------------------------------------------------------------------------------------

    /** The network of the next target is counted once less: a row of it exists, and no inserted row is in the way. */
    method ReleaseTarget(text: Line, gc: bool)
      requires Recorded() && hands.Releasing? && hands.rest != [] && hands.rest[0] == text
      modifies this`heatmap, this`readynet, this`hands, this`ledger, this`history
      ensures Recorded() && Now() == Release(old(Now()), gc) && hands == Releasing(old(hands).rest[1..])
      ensures old(history) <= history && (FixedLevel(old(history)) ==> FixedLevel(history))
    {
      hide Inv, After, Possible, FixedLevel, Collides, State.HeatmapPop;
      ghost var before := Now();
      Kept();
      Granted(before);
      var ok := HeatmapPop(Hashval(parse(text)), gc);
      assert ok;
      CountedOnly(before, HashOf(parse, text), gc);
      hands := Releasing(hands.rest[1..]);
      ledger := ledger.(finished := ledger.finished + multiset{text});
      Record(before, Released(gc));
    }

    /** The networks of the targets are counted once less each; a coin is thrown every time. */
    method ReleaseTargets(targets: seq<Line>)
      requires Recorded() && hands == Releasing(targets)
      modifies this`heatmap, this`readynet, this`hands, this`ledger, this`history
      ensures Valid() && Cooled(old(Now()), Now(), targets)
      ensures old(history) <= history && (FixedLevel(old(history)) ==> FixedLevel(history))
    {
      hide Inv, After, Possible, FixedLevel, Release, Cooled;
      ghost var first := Now();
      CooledNone(first);
      var i := 0;
      while i < |targets|
        invariant 0 <= i <= |targets| && Recorded() && hands == Releasing(targets[i..])
        invariant Cooled(first, Now().(hands := Idle), targets[..i])
        invariant old(history) <= history && (FixedLevel(old(history)) ==> FixedLevel(history))
      {
        Kept();
        var gc: bool := *;
        CooledMore(first, Now(), targets, i, gc);
        assert targets[i..][1..] == targets[i + 1..];
        ReleaseTarget(targets[i], gc);
        i := i + 1;
      }
      assert targets[..i] == targets;
      EndHands();
    }

    ghost method EndHands()
      requires Recorded() && hands == Releasing([])
      modifies this`hands, this`history
      ensures Valid() && history == old(history) + [ReleaseEnded]
      ensures FixedLevel(old(history)) ==> FixedLevel(history)
    {
      hide Inv, After, Possible;
      hands := Idle;
      Record(old(Now()), ReleaseEnded);
    }

    /** A running job gets its return value, and its targets are released. */
    method JobOutput(j: nat, retval: int)
      requires Valid() && Running(Now(), j)
      modifies this
      ensures Valid() && Finished(old(Now()), Now(), j, retval)
      ensures old(history) <= history && (FixedLevel(old(history)) ==> FixedLevel(history))
    {
      hide Inv, After, Possible, FixedLevel, Cooled;
      ghost var first := Now();
      var targets := jobs[j].targets;
      jobs := jobs[j := jobs[j].(retval := Some(retval))];
      StartRelease(first, j, retval);
      ReleaseTargets(targets);
      CooledFinished(first, Now(), j, retval);
    }

    ghost method StartRelease(before: State.State, j: nat, retval: int)
      requires LedTo(before) && before.hands.Idle? && Running(before, j)
      requires Now() == before.(jobs := before.jobs[j := before.jobs[j].(retval := Some(retval))])
      modifies this`hands, this`history
      ensures Recorded() && Now() == BeginRelease(before, j, retval) && hands == Releasing(before.jobs[j].targets)
      ensures history == old(history) + [ReleaseBegun(j, retval)]
      ensures FixedLevel(old(history)) ==> FixedLevel(history)
    {
      hide Inv, After, Possible;
      hands := Releasing(before.jobs[j].targets);
      Record(before, ReleaseBegun(j, retval));
    }

    /** The route for results: a job that does not run is not known any more, and nothing happens to it. */
    method Output(decoded: bool, j: nat, retval: int, busy: bool) returns (reply: Reply)
      requires Valid()
      modifies this
      ensures Valid()
      ensures reply == if !decoded then BadRequest else if !Running(old(Now()), j) then Discard
                       else if busy then TooManyRequests else Success
      ensures if reply == Success then Finished(old(Now()), Now(), j, retval) else Now() == old(Now())
      ensures old(history) <= history && (FixedLevel(old(history)) ==> FixedLevel(history))
    {
      hide Inv, After, Possible, FixedLevel, Finished;
      if !decoded {
        reply := BadRequest;
      } else if !(j in jobs && jobs[j].retval.None?) {
        reply := Discard;
      } else if busy {
        reply := TooManyRequests;
      } else {
        JobOutput(j, retval);
        reply := Success;
      }
    }

    /** An operator fails a job that runs. */
    method Reconcile(j: nat) returns (ok: bool)
      requires Valid() && j in jobs
      modifies this
      ensures Valid() && ok == Running(old(Now()), j)
      ensures if ok then Finished(old(Now()), Now(), j, -1) else Now() == old(Now())
      ensures old(history) <= history && (FixedLevel(old(history)) ==> FixedLevel(history))
    {
      hide Inv, After, Possible, FixedLevel, Finished;
      ok := jobs[j].retval.None?;
      if ok {
        JobOutput(j, -1);
      }
    }

    /** The targets of a job are enqueued again, exactly as they were. */
    method Repeat(j: nat)
      requires Valid() && j in jobs
      modifies this
      ensures Valid() && Now() == State.Enqueue(old(Now()), old(jobs)[j].queue, old(jobs)[j].targets)
      ensures Lined(old(Now()), Now(), old(jobs)[j].queue, old(jobs)[j].targets)
      ensures ledger.enqueued == old(ledger).enqueued + multiset(old(jobs)[j].targets)
      ensures history == old(history) + [Enqueued(old(jobs)[j].queue, old(jobs)[j].targets)]
    {
      hide Inv, After, Possible, Lines, NewRows, Hashes, Lined;
      Kept();
      InvSound(Now());
      RepeatExact(Now(), j);
      Enqueue(jobs[j].queue, jobs[j].targets);
    }

    // -------------------------------------------------------------------------------------------------------
    // The check
    // -------------------------------------------------------------------------------------------------------

    /** Whether the counts that are not zero are those of the targets of the running jobs. */
    method HeatmapCheck() returns (equal: bool)
      requires Valid()
      ensures equal <==> forall h :: Heat(Now(), h) == InFlight(Now())[h]
      ensures equal <==> ledger.leaked == multiset{}
      ensures WithoutNetworks(history) || WithoutMalformed(parse, history) ==> equal
    {
      hide Inv, After, Possible, InFlight, Total, Hashes, HashBags, WithoutNetworks, WithoutMalformed;
      var refHeatmap := ReferenceHeatmap();
      var dbHeatmap := map h | h in heatmap && heatmap[h] != 0 :: heatmap[h];
      var keysOnlyInRef := refHeatmap.Keys - dbHeatmap.Keys;
      var keysOnlyInDb := dbHeatmap.Keys - refHeatmap.Keys;
      var different := set h | h in refHeatmap && h in dbHeatmap && refHeatmap[h] != dbHeatmap[h];
      equal := keysOnlyInRef == {} && keysOnlyInDb == {} && different == {};
      ghost var wrong := keysOnlyInRef + keysOnlyInDb + different;
      forall h
        ensures Heat(Now(), h) == InFlight(Now())[h] <==> h !in wrong
      {
        assert InFlight(Now())[h] == Count(refHeatmap, h);
      }
      if !equal {
        assert wrong != {};
        ghost var h :| h in wrong;
        assert Heat(Now(), h) != InFlight(Now())[h];
      }
      Kept();
      CheckMeans(Now());
      if WithoutNetworks(history) || WithoutMalformed(parse, history) {
        NothingLost(parse, start.level, history);
      }
    }

    /** The networks of the targets of the running jobs, counted. */
    method ReferenceHeatmap() returns (refHeatmap: map<Hash, nat>)
      requires Valid()
      ensures forall h :: InFlight(Now())[h] == Count(refHeatmap, h)
      ensures forall h :: h in refHeatmap ==> refHeatmap[h] > 0
    {
      hide Inv, After, Possible, HashBags, Hashes, At, Count;
      refHeatmap := map[];
      NothingCounted();
      for j := 0 to nextJob
        invariant forall h :: Total(HashBags(parse, jobs), j)[h] == Count(refHeatmap, h)
        invariant forall h :: h in refHeatmap ==> refHeatmap[h] > 0
      {
        JobBagsAt(parse, jobs, j);
        TotalStep(HashBags(parse, jobs), j + 1);
        if j in jobs && jobs[j].retval.None? {
          refHeatmap := AddTargets(refHeatmap, jobs[j].targets);
        }
      }
    }

    static lemma NothingCounted()
      ensures forall h :: Count(map[], h) == 0
    {
    }

    static lemma CountedOnce(counts: map<Hash, nat>, h: Hash)
      ensures forall k :: Count(counts[h := Count(counts, h) + 1], k) == Count(counts, k) + if k == h then 1 else 0
    {
    }

    method AddTargets(before: map<Hash, nat>, texts: seq<Line>) returns (after: map<Hash, nat>)
      requires forall h :: h in before ==> before[h] > 0
      ensures forall h :: Count(after, h) == Count(before, h) + multiset(Hashes(parse, texts))[h]
      ensures forall h :: h in after ==> after[h] > 0
    {
      hide Hashes, HashOf, Count;
      after := before;
      HashesNone(parse);
      for i := 0 to |texts|
        invariant forall h :: Count(after, h) == Count(before, h) + multiset(Hashes(parse, texts[..i]))[h]
        invariant forall h :: h in after ==> after[h] > 0
      {
        var h := HashOf(parse, texts[i]);
        assert texts[..i + 1] == texts[..i] + [texts[i]];
        HashesAppend(parse, texts[..i], texts[i]);
        CountedOnce(after, h);
        after := after[h := Count(after, h) + 1];
      }
      assert texts[..|texts|] == texts;
    }
  }
}
