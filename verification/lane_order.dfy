/** The order of the lane's lock. `asyncio.Lock` serves its waiters first in, first out, and whoever finds it held
    is refused, except the sweep, which waits (services/managed_dns/server.py:248-251, 311, 337, 800-805). A handler
    can wait only when the lock is free but promised to somebody who waits already. The protocol lets a request take
    the idle lane although a reclaim is waiting, which is more than the lock does; a run in order does not. */
module LaneOrder {
  import opened Prelude
  import opened Registrations
  import opened Protocol

  datatype Waiter = Reclaim | Sweep | Handler

  datatype Move = Act(action: Action) | Joins(waiter: Waiter)

  /** A registration or reclaim that gets as far as the lane. */
  predicate ReachesLane(cfg: Config, s: State, n: Name, credential: Credential) {
    && s.lane.Idle? && Reclaimable(cfg, s, n, credential)
    && !NodeFull(s.rows, s.rows[n].node) && !AtCap(cfg, s.rows)
  }

  /** The action may happen now, given who waits for the lane. */
  predicate InTurn(cfg: Config, s: State, queue: seq<Waiter>, a: Action) {
    match a
    case Wait(_) => queue != []
    case RunWaiting => queue != [] && queue[0].Reclaim?
    case SweepVisit(_, _) => queue != [] ==> queue[0].Sweep?
    case Purge(_) => queue != [] ==> queue[0].Sweep?
    case Register(n, _, _, presented, _, _) =>
      presented.Some? && ReachesLane(cfg, s, n, presented.value) ==> queue == []
    case ReclaimRoute(n, credential, _, _) =>
      ReachesLane(cfg, s, n, credential) && !s.rows[n].status.Released? ==> queue == []
    case Tick(_) => true
    case Resume(_, _) => true
    case Restart(_, _) => true
    case _ => s.lane.Idle? && queue != [] ==> queue[0].Handler?
  }

  /** Who waits after the action. */
  function Remaining(s: State, queue: seq<Waiter>, a: Action): seq<Waiter> {
    match a
    case Wait(_) => queue + [Reclaim]
    case Restart(_, _) => []
    case Tick(_) => queue
    case Resume(_, _) => queue
    case Register(_, _, _, _, _, _) => queue
    case ReclaimRoute(_, _, _, _) => queue
    case _ => if s.lane.Idle? && queue != [] then queue[1..] else queue
  }

  /** The one sweep waits when the lane is held or promised; a handler only when it is promised. */
  predicate MayJoin(s: State, queue: seq<Waiter>, waiter: Waiter) {
    match waiter
    case Reclaim => false
    case Sweep => (!s.lane.Idle? || queue != []) && !s.lane.Sweeping? && Sweep !in queue
    case Handler => s.lane.Idle? && queue != []
  }

  ghost predicate InOrder(cfg: Config, s: State, queue: seq<Waiter>, run: seq<Move>)
    decreases |run|
  {
    run == [] ||
    match run[0]
    case Joins(waiter) => MayJoin(s, queue, waiter) && InOrder(cfg, s, queue + [waiter], run[1..])
    case Act(a) =>
      && Enabled(cfg, s, a) && InTurn(cfg, s, queue, a)
      && InOrder(cfg, Next(cfg, s, a), Remaining(s, queue, a), run[1..])
  }

  function Actions(run: seq<Move>): seq<Action>
    decreases |run|
  {
    if run == [] then []
    else (if run[0].Act? then [run[0].action] else []) + Actions(run[1..])
  }

  /** The state after a run in order, and who waits for the lane then. */
  ghost function After(cfg: Config, s: State, queue: seq<Waiter>, run: seq<Move>): State
    requires InOrder(cfg, s, queue, run)
    decreases |run|
  {
    if run == [] then s
    else
      match run[0]
      case Joins(waiter) => After(cfg, s, queue + [waiter], run[1..])
      case Act(a) => After(cfg, Next(cfg, s, a), Remaining(s, queue, a), run[1..])
  }

  ghost function QueueAfter(cfg: Config, s: State, queue: seq<Waiter>, run: seq<Move>): seq<Waiter>
    requires InOrder(cfg, s, queue, run)
    decreases |run|
  {
    if run == [] then queue
    else
      match run[0]
      case Joins(waiter) => QueueAfter(cfg, s, queue + [waiter], run[1..])
      case Act(a) => QueueAfter(cfg, Next(cfg, s, a), Remaining(s, queue, a), run[1..])
  }

  /** So what is proved of every run of the protocol holds of every run in order. */
  lemma {:induction false} InOrderIsLegal(cfg: Config, s: State, queue: seq<Waiter>, run: seq<Move>)
    requires InOrder(cfg, s, queue, run)
    ensures Legal(cfg, s, Actions(run)) && Run(cfg, s, Actions(run)) == After(cfg, s, queue, run)
    decreases |run|
  {
    if run != [] {
      match run[0]
      case Joins(waiter) =>
        InOrderIsLegal(cfg, s, queue + [waiter], run[1..]);
        assert Actions(run) == Actions(run[1..]);
      case Act(a) =>
        InOrderIsLegal(cfg, Next(cfg, s, a), Remaining(s, queue, a), run[1..]);
        StepThen(cfg, s, a, Actions(run[1..]));
    }
  }

  /** A run in order goes on with any move that may come next. */
  lemma {:induction false} GoesOn(
    cfg: Config, s: State, queue: seq<Waiter>, run: seq<Move>, move: Move) returns (longer: seq<Move>)
    requires InOrder(cfg, s, queue, run)
    requires InOrder(cfg, After(cfg, s, queue, run), QueueAfter(cfg, s, queue, run), [move])
    ensures longer == run + [move] && InOrder(cfg, s, queue, longer)
    ensures var s1, queue1 := After(cfg, s, queue, run), QueueAfter(cfg, s, queue, run);
            && After(cfg, s, queue, longer) == After(cfg, s1, queue1, [move])
            && QueueAfter(cfg, s, queue, longer) == QueueAfter(cfg, s1, queue1, [move])
    decreases |run|
  {
    longer := run + [move];
    if run != [] {
      assert longer[0] == run[0] && longer[1..] == run[1..] + [move];
      match run[0]
      case Joins(waiter) =>
        var rest := GoesOn(cfg, s, queue + [waiter], run[1..], move);
      case Act(a) =>
        var rest := GoesOn(cfg, Next(cfg, s, a), Remaining(s, queue, a), run[1..], move);
    } else {
      assert longer == [move];
    }
  }

  lemma Acts(cfg: Config, run: seq<Move>, a: Action) returns (longer: seq<Move>)
    requires InOrder(cfg, Initial(cfg), [], run)
    requires var s := After(cfg, Initial(cfg), [], run);
             Enabled(cfg, s, a) && InTurn(cfg, s, QueueAfter(cfg, Initial(cfg), [], run), a)
    ensures InOrder(cfg, Initial(cfg), [], longer) && longer == run + [Act(a)]
    ensures var s := After(cfg, Initial(cfg), [], run);
            && After(cfg, Initial(cfg), [], longer) == Next(cfg, s, a)
            && QueueAfter(cfg, Initial(cfg), [], longer)
               == Remaining(s, QueueAfter(cfg, Initial(cfg), [], run), a)
  {
    hide Enabled, InTurn, Next, Remaining;
    var s, queue := After(cfg, Initial(cfg), [], run), QueueAfter(cfg, Initial(cfg), [], run);
    assert [Act(a)][1..] == [];
    assert InOrder(cfg, Next(cfg, s, a), Remaining(s, queue, a), []);
    longer := GoesOn(cfg, Initial(cfg), [], run, Act(a));
  }

  lemma Waits(cfg: Config, run: seq<Move>, waiter: Waiter) returns (longer: seq<Move>)
    requires InOrder(cfg, Initial(cfg), [], run)
    requires MayJoin(After(cfg, Initial(cfg), [], run), QueueAfter(cfg, Initial(cfg), [], run), waiter)
    ensures InOrder(cfg, Initial(cfg), [], longer) && longer == run + [Joins(waiter)]
    ensures After(cfg, Initial(cfg), [], longer) == After(cfg, Initial(cfg), [], run)
    ensures QueueAfter(cfg, Initial(cfg), [], longer) == QueueAfter(cfg, Initial(cfg), [], run) + [waiter]
  {
    hide MayJoin;
    assert [Joins(waiter)][1..] == [];
    longer := GoesOn(cfg, Initial(cfg), [], run, Joins(waiter));
  }
}
