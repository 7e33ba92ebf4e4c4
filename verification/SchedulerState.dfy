/**
  The tables of the scheduler and what each operation does to them.  The lock makes an operation atomic; what it does
  between its commits is kept as steps of their own, so that every intermediate state can be spoken of.
*/
module SchedulerState {
  import opened Networks
  import opened Tallies

  // ---------------------------------------------------------------------------------------------------------
  // Lines of input
  // ---------------------------------------------------------------------------------------------------------

  predicate IsSpace(c: char)
  {
    var n := c as int;
    9 <= n <= 13 || 28 <= n <= 32 || n in {0x85, 0xa0, 0x1680, 0x2028, 0x2029, 0x202f, 0x205f, 0x3000}
    || 0x2000 <= n <= 0x200a
  }

  /** Text that is not blank and has no space at its ends. */
  type Line = s: string | s != [] && !IsSpace(s[0]) && !IsSpace(s[|s| - 1]) witness "x"

  function Strip(s: string): (r: string)
    ensures r == [] || (!IsSpace(r[0]) && !IsSpace(r[|r| - 1]))
    ensures r == s || |r| < |s|
  {
    if s == [] then []
    else if IsSpace(s[0]) then Strip(s[1..])
    else if IsSpace(s[|s| - 1]) then Strip(s[..|s| - 1])
    else s
  }

  ghost predicate AllSpaces(s: string)
  {
    forall i :: 0 <= i < |s| ==> IsSpace(s[i])
  }

  lemma StripStep(s: string)
    requires s != []
    ensures Strip(s) == if IsSpace(s[0]) then Strip(s[1..])
                        else if IsSpace(s[|s| - 1]) then Strip(s[..|s| - 1]) else s
  {
    hide IsSpace;
  }

  lemma Spaces(s: string)
    requires s != []
    ensures IsSpace(s[0]) ==> (AllSpaces(s) <==> AllSpaces(s[1..])) && (AllSpaces(s[..1]))
    ensures IsSpace(s[|s| - 1]) ==> (AllSpaces(s) <==> AllSpaces(s[..|s| - 1]))
    ensures AllSpaces(s) ==> IsSpace(s[0])
  {
    hide IsSpace;
    assert forall i :: 1 <= i < |s| ==> s[i] == s[1..][i - 1];
  }

  /** What is stripped are the spaces at both ends, and all of a blank text. */
  lemma {:induction false} StripMeans(s: string) returns (a: string, b: string)
    ensures s == a + Strip(s) + b && AllSpaces(a) && AllSpaces(b)
    ensures Strip(s) == [] <==> AllSpaces(s)
  {
    hide IsSpace, Strip;
    a, b := [], [];
    if s == [] {
      assert Strip(s) == [] by { StripNothing(); }
    } else {
      StripStep(s);
      Spaces(s);
      var last := |s| - 1;
      if IsSpace(s[0]) {
        a, b := StripMeans(s[1..]);
        SpacesMore(a, s[0]);
        assert s == [s[0]] + s[1..];
        Regrouped(a, Strip(s), b, s[0]);
        a := [s[0]] + a;
      } else if IsSpace(s[last]) {
        a, b := StripMeans(s[..last]);
        SpacesMore(b, s[last]);
        assert s == s[..last] + [s[last]];
        Regrouped(a, Strip(s), b, s[last]);
        b := b + [s[last]];
      } else {
        assert s == a + s + b;
      }
    }
  }

  lemma Regrouped(a: string, m: string, b: string, c: char)
    ensures [c] + (a + m + b) == [c] + a + m + b && a + m + b + [c] == a + m + (b + [c])
  {
  }

  lemma StripNothing()
    ensures Strip([]) == []
  {
  }

  lemma SpacesMore(s: string, c: char)
    requires AllSpaces(s) && IsSpace(c)
    ensures AllSpaces([c] + s) && AllSpaces(s + [c])
  {
    hide IsSpace;
  }

  /** The lines that are not blank, stripped. */
  function Lines(raw: seq<string>): seq<Line>
  {
    if raw == [] then [] else
      var s := Strip(raw[0]);
      (if s == [] then [] else [s]) + Lines(raw[1..])
  }

  /** Lines are cleaned one by one and in order. */
  lemma {:induction false} LinesBoth(raw: seq<string>, more: seq<string>)
    ensures Lines(raw + more) == Lines(raw) + Lines(more)
  {
    hide Lines;
    if raw == [] {
      assert raw + more == more;
      assert Lines(raw) == [] by { NoLines(); }
    } else {
      LinesBoth(raw[1..], more);
      assert (raw + more)[1..] == raw[1..] + more;
      LineStep(raw);
      LineStep(raw + more);
    }
  }

  lemma NoLines()
    ensures Lines([]) == []
  {
  }

  lemma LineStep(raw: seq<string>)
    requires raw != []
    ensures Lines(raw) == Lines([raw[0]]) + Lines(raw[1..])
  {
    hide Strip;
    OneLine(raw[0]);
  }

  /** A blank line goes, and another one loses the spaces at its ends and nothing else. */
  lemma LineCleaned(a: string, line: Line, b: string)
    requires AllSpaces(a) && AllSpaces(b)
    ensures Lines([a + line + b]) == [line] && Lines([a]) == []
  {
    hide Strip, IsSpace, AllSpaces;
    OneLine(a + line + b);
    Stripped(a, line, b);
    OneLine(a);
    var _, _ := StripMeans(a);
  }

  lemma OneLine(s: string)
    ensures Lines([s]) == if Strip(s) == [] then [] else [Strip(s)]
  {
    hide Strip;
    assert [s][1..] == [];
  }

  /** Whatever spaces are around a line, they are what is stripped. */
  lemma {:induction false} Stripped(a: string, line: Line, b: string)
    requires AllSpaces(a) && AllSpaces(b)
    ensures Strip(a + line + b) == line
    decreases |a| + |b|
  {
    hide IsSpace, Strip;
    var s := a + line + b;
    StripStep(s);
    if a != [] {
      assert s[0] == a[0] && s[1..] == a[1..] + line + b;
      Spaces(a);
      Stripped(a[1..], line, b);
    } else if b != [] {
      var last := |b| - 1;
      assert s[0] == line[0] && s[|s| - 1] == b[last] && s[..|s| - 1] == a + line + b[..last];
      Spaces(b);
      assert IsSpace(b[last]) by { assert AllSpaces(b); }
      Stripped(a, line, b[..last]);
    } else {
      assert s == line;
    }
  }

  /** Lines that were stripped once stay as they are. */
  lemma {:induction false} LinesAgain(lines: seq<Line>)
    ensures Lines(lines) == lines
  {
    if lines != [] {
      LinesAgain(lines[1..]);
    }
  }

  // ---------------------------------------------------------------------------------------------------------
  // Tables
  // ---------------------------------------------------------------------------------------------------------

  datatype Option<T> = None | Some(value: T)

  datatype Queue = Queue(name: string, active: bool, priority: int, groupSize: int, reqs: set<string>)

  datatype Row = Row(queue: nat, text: Line, hash: Hash)

  /** A job runs until it has a return value. */
  datatype Job = Job(queue: nat, targets: seq<Line>, retval: Option<int>)

  /** What the holder of the lock is in the middle of; an assignment goes by the rules it read at its start. */
  datatype Hands =
    | Idle
    | Assigning(queue: nat, rules: seq<Exclusion>, taken: seq<Line>)
    | Releasing(rest: seq<Line>)

  /**
    Where targets went.  An error in the matcher loses the target it was given, which is deleted already, and strands
    the ones assigned before it, whose heat is leaked.
  */
  datatype Ledger = Ledger(enqueued: multiset<Line>, finished: multiset<Line>, excluded: multiset<Line>,
                           flushed: multiset<Line>, lost: multiset<Line>, stranded: multiset<Line>,
                           leaked: multiset<Hash>)

  /** Identifiers of targets and jobs are never used again. */
  datatype State = State(parse: string -> Target, level: nat,
                         queues: map<nat, Queue>, targets: map<nat, Row>, readynet: set<(nat, Hash)>,
                         heatmap: map<Hash, int>, jobs: map<nat, Job>,
                         nextTarget: nat, nextJob: nat, hands: Hands, ledger: Ledger)

  function HashOf(parse: string -> Target, text: string): Hash
  {
    Hashval(parse(text))
  }

  function Hashes(parse: string -> Target, texts: seq<Line>): (r: seq<Hash>)
    ensures |r| == |texts| && forall i :: 0 <= i < |texts| ==> r[i] == HashOf(parse, texts[i])
  {
    seq(|texts|, i requires 0 <= i < |texts| => HashOf(parse, texts[i]))
  }

  function Heat(s: State, h: Hash): int
  {
    if h in s.heatmap then s.heatmap[h] else 0
  }

  /** Level zero means that nothing is ever hot. */
  predicate Hot(s: State, h: Hash)
  {
    s.level > 0 && Heat(s, h) >= s.level
  }

  ghost predicate HasTarget(s: State, q: nat, h: Hash)
  {
    exists t :: t in s.targets && s.targets[t].queue == q && s.targets[t].hash == h
  }

  /** The networks a queue may scan now, from scratch: those that are not hot and have a target in the queue. */
  function Ready(s: State): set<(nat, Hash)>
  {
    set t | t in s.targets && !Hot(s, s.targets[t].hash) :: (s.targets[t].queue, s.targets[t].hash)
  }

  lemma ReadyMeans(s: State, q: nat, h: Hash)
    ensures (q, h) in Ready(s) <==> HasTarget(s, q, h) && !Hot(s, h)
  {
    if HasTarget(s, q, h) && !Hot(s, h) {
      var t :| t in s.targets && s.targets[t].queue == q && s.targets[t].hash == h;
      assert (s.targets[t].queue, s.targets[t].hash) in Ready(s);
    }
  }

  predicate Running(s: State, j: nat)
  {
    j in s.jobs && s.jobs[j].retval.None?
  }

  // ---------------------------------------------------------------------------------------------------------
  // Bags of targets
  // ---------------------------------------------------------------------------------------------------------

  function TargetBags(targets: map<nat, Row>): map<nat, multiset<Line>>
  {
    map t | t in targets :: multiset{targets[t].text}
  }

  function QueueBags(targets: map<nat, Row>, q: nat): map<nat, multiset<Line>>
  {
    map t | t in targets && targets[t].queue == q :: multiset{targets[t].text}
  }

  function JobBags(jobs: map<nat, Job>): map<nat, multiset<Line>>
  {
    map j | j in jobs && jobs[j].retval.None? :: multiset(jobs[j].targets)
  }

  function HashBags(parse: string -> Target, jobs: map<nat, Job>): map<nat, multiset<Hash>>
  {
    map j | j in jobs && jobs[j].retval.None? :: multiset(Hashes(parse, jobs[j].targets))
  }

  /** The targets that wait in the queues. */
  function Queued(s: State): multiset<Line>
  {
    Total(TargetBags(s.targets), s.nextTarget)
  }

  /** The targets of the running jobs. */
  function InJobs(s: State): multiset<Line>
  {
    Total(JobBags(s.jobs), s.nextJob)
  }

  /** The networks of the targets of the running jobs: how often each is in flight. */
  function InFlight(s: State): multiset<Hash>
  {
    Total(HashBags(s.parse, s.jobs), s.nextJob)
  }

  function InHands(s: State): seq<Line>
  {
    match s.hands
    case Idle => []
    case Assigning(_, _, taken) => taken
    case Releasing(rest) => rest
  }

  /** The heat of a network that someone accounts for. */
  function Owed(s: State, h: Hash): nat
  {
    InFlight(s)[h] + multiset(Hashes(s.parse, InHands(s)))[h] + s.ledger.leaked[h]
  }

  /** How often a line is found at any of the places where targets can be. */
  function Places(s: State, x: Line): nat
  {
    Queued(s)[x] + InJobs(s)[x] + multiset(InHands(s))[x] + s.ledger.finished[x] + s.ledger.excluded[x]
    + s.ledger.flushed[x] + s.ledger.lost[x] + s.ledger.stranded[x]
  }

  /** The targets that are where they should be: waiting, in flight, finished, excluded or flushed. */
  function InPlace(s: State): multiset<Line>
  {
    Queued(s) + InJobs(s) + multiset(InHands(s)) + s.ledger.finished + s.ledger.excluded + s.ledger.flushed
  }

  // ---------------------------------------------------------------------------------------------------------
  // Steps
  // ---------------------------------------------------------------------------------------------------------

  /** Counts a network once more; all queues lose it when it becomes hot. */
  function HeatmapPut(s: State, h: Hash): State
  {
    var count := if h in s.heatmap then s.heatmap[h] + 1 else 1;
    s.(heatmap := s.heatmap[h := count],
       readynet := if s.level > 0 && count >= s.level then set r | r in s.readynet && r.1 != h else s.readynet)
  }

  /** The count that a network gets when it is counted once less: a missing row would be inserted with a one. */
  function CountAfterPop(s: State, h: Hash): int
  {
    if h in s.heatmap then s.heatmap[h] - 1 else 1
  }

  /** The queues that hold a target of a network, as rows of the index. */
  function Waiting(targets: map<nat, Row>, h: Hash): set<(nat, Hash)>
  {
    set t | t in targets && targets[t].hash == h :: (targets[t].queue, h)
  }

  /** The rows that would be inserted into the index, without a clause for rows that exist. */
  function Awakened(s: State, h: Hash): set<(nat, Hash)>
  {
    if s.level > 0 && CountAfterPop(s, h) + 1 == s.level then Waiting(s.targets, h) else {}
  }

  /** Some inserted row exists: the database refuses it. */
  predicate Collides(s: State, h: Hash)
  {
    Awakened(s, h) * s.readynet != {}
  }

  /** Counts a network once less; all queues regain it when it becomes cool.  A coin says whether zeros are removed. */
  function HeatmapPop(s: State, h: Hash, gc: bool): State
  {
    var counted := s.heatmap[h := CountAfterPop(s, h)];
    s.(heatmap := if gc then map k | k in counted && counted[k] != 0 :: counted[k] else counted,
       readynet := s.readynet + Awakened(s, h))
  }

  /** Takes a target out of its queue, and its network from the index if it was the last one. */
  function PopTarget(s: State, t: nat): State
    requires t in s.targets
  {
    var row := s.targets[t];
    var left := map u | u in s.targets && u != t :: s.targets[u];
    var more := exists u :: u in left && left[u].queue == row.queue && left[u].hash == row.hash;
    s.(targets := left, readynet := if more then s.readynet else s.readynet - {(row.queue, row.hash)})
  }

  function NewRow(parse: string -> Target, q: nat, lines: seq<Line>, first: nat, t: nat): Row
    requires first <= t < first + |lines|
  {
    Row(q, lines[t - first], HashOf(parse, lines[t - first]))
  }

  /** Rows for the lines, with identifiers from first on. */
  function NewRows(parse: string -> Target, q: nat, lines: seq<Line>, first: nat): (rows: map<nat, Row>)
    ensures forall t :: t in rows <==> first <= t < first + |lines|
    ensures forall t :: t in rows ==> rows[t] == NewRow(parse, q, lines, first, t)
  {
    map t: nat | first <= t < first + |lines| :: NewRow(parse, q, lines, first, t)
  }

  function Enqueue(s: State, q: nat, raw: seq<string>): State
  {
    var lines := Lines(raw);
    s.(targets := s.targets + NewRows(s.parse, q, lines, s.nextTarget),
       nextTarget := s.nextTarget + |lines|,
       readynet := s.readynet + (set h | h in Hashes(s.parse, lines) && !Hot(s, h) :: (q, h)),
       ledger := s.ledger.(enqueued := s.ledger.enqueued + multiset(lines)))
  }

  function Flush(s: State, q: nat): State
  {
    s.(targets := (map t | t in s.targets && s.targets[t].queue != q :: s.targets[t]),
       readynet := (set r | r in s.readynet && r.0 != q),
       ledger := s.ledger.(flushed := s.ledger.flushed + Total(QueueBags(s.targets, q), s.nextTarget)))
  }

  function DeleteQueue(s: State, q: nat): State
  {
    var flushed := Flush(s, q);
    flushed.(queues := s.queues - {q})
  }

  function CreateQueue(s: State, q: nat, queue: Queue): State
  {
    s.(queues := s.queues[q := queue])
  }

  function DeleteJob(s: State, j: nat): State
  {
    s.(jobs := s.jobs - {j})
  }

  function BeginAssign(s: State, q: nat, rules: seq<Exclusion>): State
  {
    s.(hands := Assigning(q, rules, []))
  }

  /** A target goes into the hands, and its network is counted. */
  function Take(s: State, t: nat): State
    requires t in s.targets && s.hands.Assigning?
  {
    var put := HeatmapPut(PopTarget(s, t), s.targets[t].hash);
    put.(hands := s.hands.(taken := s.hands.taken + [s.targets[t].text]))
  }

  /** An excluded target is dropped. */
  function Drop(s: State, t: nat): State
    requires t in s.targets
  {
    var popped := PopTarget(s, t);
    popped.(ledger := s.ledger.(excluded := s.ledger.excluded + multiset{s.targets[t].text}))
  }

  /** The matcher raises on a target: the assignment ends without a job. */
  function Crash(s: State, t: nat): State
    requires t in s.targets && s.hands.Assigning?
  {
    var popped := PopTarget(s, t);
    popped.(hands := Idle,
            ledger := s.ledger.(lost := s.ledger.lost + multiset{s.targets[t].text},
                                stranded := s.ledger.stranded + multiset(s.hands.taken),
                                leaked := s.ledger.leaked + multiset(Hashes(s.parse, s.hands.taken))))
  }

  /** The hands become a job, if there is anything in them. */
  function EndAssign(s: State): State
    requires s.hands.Assigning?
  {
    if s.hands.taken == [] then s.(hands := Idle)
    else s.(jobs := s.jobs[s.nextJob := Job(s.hands.queue, s.hands.taken, None)],
            nextJob := s.nextJob + 1, hands := Idle)
  }

  /** A job gets its return value, and its targets are to be released. */
  function BeginRelease(s: State, j: nat, retval: int): State
    requires j in s.jobs
  {
    s.(jobs := s.jobs[j := s.jobs[j].(retval := Some(retval))], hands := Releasing(s.jobs[j].targets))
  }

  function Release(s: State, gc: bool): State
    requires s.hands.Releasing? && s.hands.rest != []
  {
    var text := s.hands.rest[0];
    var popped := HeatmapPop(s, HashOf(s.parse, text), gc);
    popped.(hands := Releasing(s.hands.rest[1..]),
            ledger := s.ledger.(finished := s.ledger.finished + multiset{text}))
  }

  function EndRelease(s: State): State
  {
    s.(hands := Idle)
  }

  /** The index for a new level: rows of hot networks go, rows of all waiting networks that are not hot come. */
  function Recount(s: State): State
  {
    var hot := if s.level > 0 then set h | h in s.heatmap && s.heatmap[h] >= s.level else {};
    s.(readynet := (set r | r in s.readynet && r.1 !in hot)
                   + set t | t in s.targets && s.targets[t].hash !in hot :: (s.targets[t].queue, s.targets[t].hash))
  }

  function Relevel(s: State, level: nat): State
  {
    Recount(s.(level := level))
  }

  function Initial(parse: string -> Target, level: nat): State
  {
    State(parse, level, map[], map[], {}, map[], map[], 0, 0, Idle,
          Ledger(multiset{}, multiset{}, multiset{}, multiset{}, multiset{}, multiset{}, multiset{}))
  }
}
