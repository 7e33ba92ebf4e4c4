/**
  Runs from empty tables in which the scheduler does what it should not.
*/
module SchedulerExamples {
  import opened Bytes
  import opened Networks
  import opened Tallies
  import opened SchedulerState
  import opened SchedulerIndex
  import opened SchedulerAccounts
  import opened SchedulerSteps
  import opened SchedulerRuns
  import opened SchedulerAssignment

  const NETWORK: nat := 0xc00002

  const FIRST: Line := "192.0.2.1"
  const SECOND: Line := "192.0.2.2"
  const THIRD: Line := "192.0.2.3"
  const BAD: Line := "sixenum://abc"

  /** Three addresses of one network, and an enumeration from something that is no address. */
  function Parse(text: string): Target
  {
    if text == FIRST then Plain(Literal(Address(V4, 0xc0000201)))
    else if text == SECOND then Plain(Literal(Address(V4, 0xc0000202)))
    else if text == THIRD then Plain(Literal(Address(V4, 0xc0000203)))
    else if text == BAD then SixEnum(Name("abc"), Name("abc"))
    else if text == "" then Plain(Name("-"))
    else Plain(Name(text))
  }

  lemma ParsedHashes()
    ensures HashOf(Parse, FIRST) == HashOf(Parse, SECOND) == HashOf(Parse, THIRD) == Net(V4, NETWORK)
    ensures HashOf(Parse, BAD) == Text("abc")
    ensures FIRST != BAD
  {
    assert |FIRST| == 9 && |BAD| == 13;
  }

  /** The rule excludes 10.0.0.0/8. */
  const RULE: Exclusion := InNetwork(Network(V4, 0x0a00_0000, 24))

  lemma RuleJudges()
    ensures MatchAll([RULE], FIRST, Parse(FIRST)) == Clear && MatchAll([RULE], BAD, Parse(BAD)) == Raised
  {
    assert Pow2(24) == 0x100_0000 by {
      assert Pow2(8) == 0x100 && Pow2(16) == 0x1_0000;
    }
    assert [RULE][1..] == [];
    assert |FIRST| == 9 && |BAD| == 13;
  }

  /** A queue for two targets at a time, and lines enqueued in it. */
  function Start(lines: seq<Line>): seq<Event>
  {
    [QueueCreated(0, Queue("q", true, 0, 2, {})), Enqueued(0, lines)]
  }

  lemma Started(level: nat, lines: seq<Line>)
    ensures var s := Initial(Parse, level);
            var p := After(s, Start(lines));
            && Possible(s, Start(lines)) && Inv(p)
            && p == s.(queues := map[0 := Queue("q", true, 0, 2, {})], targets := NewRows(Parse, 0, lines, 0),
                       nextTarget := |lines|, readynet := p.readynet, ledger := p.ledger)
            && NoLosses(p.ledger)
  {
    hide Ready, Total, HashOf, Lines, NewRows, Hashes, Inv, After, Possible;
    var s := Initial(Parse, level);
    var create := QueueCreated(0, Queue("q", true, 0, 2, {}));
    NothingYet(s);
    AfterOne(s, [], create);
    AfterOne(s, [] + [create], Enqueued(0, lines));
    assert [] + [create] + [Enqueued(0, lines)] == Start(lines);
    LinesAgain(lines);
    InitialInv(Parse, level);
    RunKeeps(s, Start(lines));
    assert s.targets + NewRows(Parse, 0, lines, 0) == NewRows(Parse, 0, lines, 0);
  }

  /**
    With a network among the rules and a malformed enumeration behind an address: the address is in the hands when the
    matcher raises. It is in no job and in no queue any more, and the enumeration is gone.  Its heat stays, and the
    counts do not agree with the running jobs any more.
  */
  lemma LeakExample(level: nat)
    ensures exists es ::
              var s := After(Initial(Parse, level), es);
              && Possible(Initial(Parse, level), es) && s.hands.Idle?
              && s.ledger.leaked == multiset{Net(V4, NETWORK)}
              && s.ledger.stranded == multiset{FIRST} && s.ledger.lost == multiset{BAD}
              && s.ledger.enqueued != InPlace(s)
              && !forall h :: Heat(s, h) == InFlight(s)[h]
  {
    hide After, Possible, Inv, InFlight, InPlace, Heat, Trap, Parse;
    var s := Initial(Parse, level);
    var lines := [FIRST, BAD];
    var start := Start(lines);
    Started(level, lines);
    var p := After(s, start);
    TrapSet(p);
    var es := TrapSprings(p, 0, [RULE], 0, 1);
    AfterBoth(s, start, es);
    InitialInv(Parse, level);
    RunKeeps(s, start + es);
    ConservedIff(Parse, level, start + es);
    CheckMeans(After(s, start + es));
  }

  lemma TrapSet(p: State)
    requires p.parse == Parse && p.targets == NewRows(Parse, 0, [FIRST, BAD], 0) && p.heatmap == map[]
    ensures Trap(p, 0, [RULE], 0, 1) && p.targets[0].hash == Net(V4, NETWORK)
    ensures p.targets[0].text == FIRST && p.targets[1].text == BAD
  {
    hide MatchAll, HashOf, Parse;
    ParsedHashes();
    RuleJudges();
    assert p.targets[0] == NewRow(Parse, 0, [FIRST, BAD], 0, 0);
    assert p.targets[1] == NewRow(Parse, 0, [FIRST, BAD], 0, 1);
  }

  // ---------------------------------------------------------------------------------------------------------
  // A level without a recount
  // ---------------------------------------------------------------------------------------------------------

  /**
    At level zero, two of three targets of a network are given out in a job.  When the level becomes two without a
    recount, the release of the job breaks on a row of the index; with a recount it does not.
  */
  lemma CollisionExample(retval: int)
    ensures exists es ::
              var s := After(Initial(Parse, 0), es);
              && Possible(Initial(Parse, 0), es) && s.hands.Idle? && Running(s, 0)
              && s.jobs[0].targets == [FIRST, SECOND]
              && Collides(BeginRelease(s.(level := 2), 0, retval), HashOf(Parse, FIRST))
              && !Collides(BeginRelease(Relevel(s, 2), 0, retval), HashOf(Parse, FIRST))
  {
    hide After, Possible, Inv, Parse, Relevel, HashOf, Collides;
    var s0 := Initial(Parse, 0);
    var es := TwoGivenOut();
    var s := After(s0, es);
    var h := HashOf(Parse, FIRST);
    InitialInv(Parse, 0);
    RunKeeps(s0, es);
    InvExact(s);
    CollisionWithoutRecount(s, 2, h);
    SameTables(s.(level := 2), BeginRelease(s.(level := 2), 0, retval), h);
    RelevelKeeps(s, 2);
    RelevelMeans(s);
    BeginReleaseKeeps(Relevel(s, 2), 0, retval);
    Granted(BeginRelease(Relevel(s, 2), 0, retval));
  }

  lemma RelevelMeans(s: State)
    ensures Relevel(s, 2) == s.(level := 2, readynet := Relevel(s, 2).readynet)
  {
  }

  lemma SameTables(a: State, b: State, h: Hash)
    requires b.targets == a.targets && b.heatmap == a.heatmap && b.level == a.level && b.readynet == a.readynet
    ensures Collides(a, h) == Collides(b, h)
  {
  }

  lemma TwoGivenOut() returns (es: seq<Event>)
    ensures var s := After(Initial(Parse, 0), es);
            && Possible(Initial(Parse, 0), es) && s.hands.Idle? && Running(s, 0) && s.level == 0 && s.parse == Parse
            && s.jobs[0].targets == [FIRST, SECOND] && HasTarget(s, 0, HashOf(Parse, FIRST))
            && Heat(s, HashOf(Parse, FIRST)) == 2
  {
    hide After, Possible, Inv, Parse, HashOf, Heat;
    var s := Initial(Parse, 0);
    var lines := [FIRST, SECOND, THIRD];
    Started(0, lines);
    var p := After(s, Start(lines));
    ParsedHashes();
    assert p.targets[0] == NewRow(Parse, 0, lines, 0, 0) && p.targets[1] == NewRow(Parse, 0, lines, 0, 1);
    assert p.targets[2] == NewRow(Parse, 0, lines, 0, 2);
    PairGivenOut(p, 0, 0, 1);
    AfterBoth(s, Start(lines), GiveOut(0, 0, 1));
    es := Start(lines) + GiveOut(0, 0, 1);
    assert 2 in After(s, es).targets && After(s, es).targets[2] == p.targets[2];
    NoHeat(p, HashOf(Parse, FIRST));
  }

  lemma NoHeat(s: State, h: Hash)
    requires s.heatmap == map[]
    ensures Heat(s, h) == 0
  {
  }

  /** An assignment of two targets without rules. */
  function GiveOut(q: nat, t: nat, u: nat): seq<Event>
  {
    [AssignBegun(q, []), Taken(t), Taken(u), AssignEnded]
  }

  lemma PairGivenOut(p: State, q: nat, t: nat, u: nat)
    requires Inv(p) && p.hands.Idle? && p.level == 0
    requires q in p.queues && p.queues[q].active && p.queues[q].groupSize == 2
    requires t in p.targets && u in p.targets && t != u && p.targets[t].queue == p.targets[u].queue == q
    requires p.targets[t].hash == p.targets[u].hash
    ensures var s := After(p, GiveOut(q, t, u));
            && Possible(p, GiveOut(q, t, u)) && s.hands.Idle? && s.level == 0 && s.parse == p.parse
            && s.targets == p.targets - {t} - {u}
            && p.nextJob in s.jobs && s.jobs[p.nextJob] == Job(q, [p.targets[t].text, p.targets[u].text], None)
            && Heat(s, p.targets[t].hash) == Heat(p, p.targets[t].hash) + 2
  {
    hide After, Possible, Inv, HeatmapPut, PopTarget, Heat, HashOf, Hashes;
    FirstReady(p, q, t);
    NothingYet(p);
    AfterOne(p, [], AssignBegun(q, []));
    var b := BeginAssign(p, q, []);
    var es := [] + [AssignBegun(q, [])];
    TakePossible(p, b, es, t);
    es := es + [Taken(t)];
    var b1 := Take(b, t);
    TakePossible(p, b1, es, u);
    es := es + [Taken(u)];
    var b2 := Take(b1, u);
    AfterOne(p, es, AssignEnded);
    assert es + [AssignEnded] == GiveOut(q, t, u);
    HeatOnly(p, b);
    HeatOnly(b2, EndAssign(b2));
    assert [] + [p.targets[t].text] + [p.targets[u].text] == [p.targets[t].text, p.targets[u].text];
  }

  /** At level zero an assignment without rules can take any target of its queue. */
  lemma TakePossible(p: State, b: State, es: seq<Event>, t: nat)
    requires Inv(p) && Possible(p, es) && After(p, es) == b && b.level == 0 && Wanting(b) && b.hands.rules == []
    requires t in b.targets && b.targets[t].queue == b.hands.queue
    ensures Poppable(b, t) && Possible(p, es + [Taken(t)]) && After(p, es + [Taken(t)]) == Take(b, t)
    ensures var c := Take(b, t);
            && c.targets == b.targets - {t} && c.hands == b.hands.(taken := b.hands.taken + [b.targets[t].text])
            && c.level == 0 && c.queues == b.queues && c.jobs == b.jobs && c.nextJob == b.nextJob && c.parse == b.parse
            && forall h :: Heat(c, h) == Heat(b, h) + if h == b.targets[t].hash then 1 else 0
  {
    hide After, Possible, Inv, HeatmapPut, PopTarget;
    RunKeeps(p, es);
    FirstReady(b, b.hands.queue, t);
    AfterOne(p, es, Taken(t));
    PoppedOnly(b, t);
    PutOnly(PopTarget(b, t), b.targets[t].hash);
    HeatOnly(HeatmapPut(PopTarget(b, t), b.targets[t].hash), Take(b, t));
    HeatOnly(b, PopTarget(b, t));
  }
}
