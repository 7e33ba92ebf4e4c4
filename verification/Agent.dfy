/**
  An agent that uploads a result until the server has answered, while other agents and operators work on the same
  server.
*/
module Agent {
  import opened Networks
  import opened Scheduler
  import opened SchedulerState
  import opened SchedulerSteps
  import opened SchedulerRuns
  import opened SchedulerAssignment

  /** What others ask of the server. */
  datatype Request =
    | AddQueue(q: nat, queue: Queue)
    | Enqueue(q: nat, raw: seq<string>)
    | Flush(q: nat)
    | Prune(q: nat)
    | DeleteQueue(q: nat)
    | DeleteJob(j: nat)
    | ChangeLevel(level: nat)
    | Assign(maintenance: bool, name: Option<string>, caps: set<string>, rules: seq<Exclusion>, busy: bool)
    | Output(decoded: bool, j: nat, retval: int, busy: bool)
    | Reconcile(j: nat)
    | Repeat(j: nat)

  /**
    One try over the network: what others did before it, whether the request arrives, whether the server is busy then,
    and whether its answer comes back.
  */
  datatype Attempt = Attempt(others: seq<Request>, arrives: bool, busy: bool, answered: bool)

  /** Requests for rows that do not exist are refused. */
  method Serve(server: Service, request: Request)
    requires server.Valid()
    modifies server
    ensures server.Valid() && old(server.history) <= server.history
  {
    hide Inv, After, Possible, FixedLevel, Outcome, Finished;
    match request
    case AddQueue(q, queue) =>
      if q !in server.queues {
        server.AddQueue(q, queue);
      }
    case Enqueue(q, raw) =>
      if q in server.queues {
        server.Enqueue(q, raw);
      }
    case Flush(q) =>
      if q in server.queues {
        server.Flush(q);
      }
    case Prune(q) =>
      var _ := server.Prune(q);
    case DeleteQueue(q) =>
      if q in server.queues {
        var _ := server.DeleteQueue(q);
      }
    case DeleteJob(j) =>
      if j in server.jobs {
        var _ := server.DeleteJob(j);
      }
    case ChangeLevel(level) => server.ChangeLevel(level);
    case Assign(maintenance, name, caps, rules, busy) =>
      var _, _, _, _ := server.Assign(maintenance, name, caps, rules, busy);
    case Output(decoded, j, retval, busy) =>
      var _ := server.Output(decoded, j, retval, busy);
    case Reconcile(j) =>
      if j in server.jobs {
        var _ := server.Reconcile(j);
      }
    case Repeat(j) =>
      if j in server.jobs {
        server.Repeat(j);
      }
  }

  method ServeAll(server: Service, requests: seq<Request>)
    requires server.Valid()
    modifies server
    ensures server.Valid() && old(server.history) <= server.history
  {
    hide Inv, After, Possible;
    for i := 0 to |requests|
      invariant server.Valid() && old(server.history) <= server.history
    {
      Serve(server, requests[i]);
    }
  }

  /**
    Tries again after every error, lost message and busy reply.  When the agent goes on, the job does not run on the
    server, and it left the running state exactly once, whoever closed it and however often the result arrived.
  */
  method UploadOutput(server: Service, j: nat, retval: int, network: seq<Attempt>) returns (uploaded: bool)
    requires server.Valid()
    modifies server
    ensures server.Valid() && old(server.history) <= server.history
    ensures uploaded ==> !Running(server.Now(), j)
    ensures uploaded && j < old(server.nextJob) ==> Closings(server.history, j) == 1
    ensures (exists a :: a in network && a.arrives && a.answered && !a.busy) ==> uploaded
    ensures uploaded ==> exists a :: a in network && a.arrives && a.answered
  {
    hide Inv, After, Possible, FixedLevel;
    uploaded := false;
    var i := 0;
    while i < |network| && !uploaded
      invariant 0 <= i <= |network|
      invariant server.Valid() && old(server.history) <= server.history
      invariant uploaded ==> !Running(server.Now(), j)
      invariant uploaded ==> exists a :: a in network && a.arrives && a.answered
      invariant !uploaded ==> forall a :: a in network[..i] ==> !(a.arrives && a.answered && !a.busy)
    {
      var attempt := network[i];
      assert network[..i + 1] == network[..i] + [attempt];
      ServeAll(server, attempt.others);
      if attempt.arrives {
        var reply := server.Output(true, j, retval, attempt.busy);
        uploaded := attempt.answered && (reply == Discard || reply == Success);
        assert attempt in network;
      }
      i := i + 1;
    }
    assert network[..i] == network || uploaded;
    server.LeftOnce(j);
    JobsOnlyGrow(server.start, old(server.history), server.history);
  }

  /** One try to fetch an assignment. */
  datatype Fetch = Fetch(others: seq<Request>, arrives: bool, maintenance: bool, rules: seq<Exclusion>, busy: bool,
                         answered: bool)

  /**
    Asks for work until there is some; an agent for one shot also stops at an error or when there is none.  A job that
    is fetched was issued by this call: no other agent has it.
  */
  method GetAssignment(server: Service, name: Option<string>, caps: set<string>, oneshot: bool, network: seq<Fetch>)
    returns (work: Option<nat>, retval: int)
    requires server.Valid()
    modifies server
    ensures server.Valid() && old(server.history) <= server.history && old(server.nextJob) <= server.nextJob
    ensures work.Some? ==> old(server.nextJob) <= work.value < server.nextJob && Running(server.Now(), work.value)
    ensures retval != 0 ==> oneshot && work.None?
  {
    hide Inv, After, Possible, FixedLevel, Outcome, Chosen, Served;
    work, retval := None, 0;
    for i := 0 to |network|
      invariant server.Valid() && old(server.history) <= server.history && old(server.nextJob) <= server.nextJob
    {
      var fetch := network[i];
      ServeAll(server, fetch.others);
      JobsOnlyGrow(server.start, old(server.history), server.history);
      var result: Assignment := Scheduler.Assignment.Error;
      if fetch.arrives {
        ghost var before := server.Now();
        ghost var queue, taken, dropped;
        result, queue, taken, dropped := server.Assign(fetch.maintenance, name, caps, fetch.rules, fetch.busy);
        JobsOnlyGrow(server.start, old(server.history), server.history);
        if result.Work? {
          WorkIssued(before, server.Now(), name, caps, fetch.rules, result, queue, taken, dropped);
        }
      }
      if fetch.answered && result.Work? {
        return Some(result.id), 0;
      }
      if oneshot {
        return None, if fetch.answered && result == Nowork then 0 else 1;
      }
    }
  }

  lemma WorkIssued(a: SchedulerState.State, b: SchedulerState.State, name: Option<string>, caps: set<string>,
                   rules: seq<Exclusion>, result: Assignment, queue: Option<nat>, taken: seq<Line>, dropped: seq<Line>)
    requires Outcome(a, b, name, caps, rules, result, queue, taken, dropped) && result.Work?
    ensures result.id == a.nextJob < b.nextJob && Running(b, result.id)
  {
    hide Chosen, Midway;
  }

  /** A turn of the agent: how it fetches a job, what the job returns, and how the result is uploaded. */
  datatype Turn = Turn(fetches: seq<Fetch>, retval: int, uploads: seq<Attempt>)

  /** One turn: when the agent goes on after a job, the job was issued in this turn and was closed exactly once. */
  method TakeTurn(server: Service, name: Option<string>, caps: set<string>, oneshot: bool, turn: Turn)
    returns (work: Option<nat>, uploaded: bool)
    requires server.Valid()
    modifies server
    ensures server.Valid() && old(server.history) <= server.history && old(server.nextJob) <= server.nextJob
    ensures work.None? ==> uploaded
    ensures work.Some? ==> old(server.nextJob) <= work.value < server.nextJob
    ensures work.Some? && uploaded ==> Closings(server.history, work.value) == 1
  {
    hide Inv, After, Possible, Closings;
    uploaded := true;
    var retval;
    work, retval := GetAssignment(server, name, caps, oneshot, turn.fetches);
    if work.Some? {
      ghost var fetched := server.history;
      uploaded := UploadOutput(server, work.value, turn.retval, turn.uploads);
      JobsOnlyGrow(server.start, fetched, server.history);
    }
  }

  /** What was closed exactly once stays so. */
  lemma StillOnce(server: Service, before: seq<Event>, done: seq<nat>)
    requires server.Valid() && before <= server.history
    requires forall i :: 0 <= i < |done| ==> Closings(before, done[i]) == 1
    ensures forall i :: 0 <= i < |done| ==> Closings(server.history, done[i]) == 1 && !Running(server.Now(), done[i])
  {
    hide Inv, After, Possible, Closings, Running;
    forall i | 0 <= i < |done|
      ensures Closings(server.history, done[i]) == 1 && !Running(server.Now(), done[i])
    {
      ClosingsOnlyGrow(before, server.history, done[i]);
      server.LeftOnce(done[i]);
    }
  }

  /**
    Fetches, processes and uploads in turns, until an upload does not get through.  The jobs that the agent is done
    with are all different, do not run any more, and each left the running state exactly once.
  */
  method Run(server: Service, name: Option<string>, caps: set<string>, oneshot: bool, turns: seq<Turn>)
    returns (done: seq<nat>)
    requires server.Valid()
    modifies server
    ensures server.Valid() && old(server.history) <= server.history
    ensures forall i, j :: 0 <= i < j < |done| ==> done[i] < done[j]
    ensures forall i :: 0 <= i < |done| ==>
              && old(server.nextJob) <= done[i] && !Running(server.Now(), done[i])
              && Closings(server.history, done[i]) == 1
  {
    hide Inv, After, Possible, Closings, Running;
    done := [];
    for k := 0 to |turns|
      invariant server.Valid() && old(server.history) <= server.history && old(server.nextJob) <= server.nextJob
      invariant forall i, j :: 0 <= i < j < |done| ==> done[i] < done[j]
      invariant forall i :: 0 <= i < |done| ==> old(server.nextJob) <= done[i] < server.nextJob
      invariant forall i :: 0 <= i < |done| ==> Closings(server.history, done[i]) == 1
    {
      ghost var before := server.history;
      var work, uploaded := TakeTurn(server, name, caps, oneshot, turns[k]);
      StillOnce(server, before, done);
      if !uploaded {
        break;
      }
      if work.Some? {
        done := done + [work.value];
      }
      if oneshot {
        break;
      }
    }
    StillOnce(server, server.history, done);
  }
}
