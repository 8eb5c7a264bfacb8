/**
 * One caller, one worker thread, a job channel of capacity one and a result channel.
 *
 * The caller's cells change only in the methods below; the worker moves on its own, so every
 * method takes the worker's moves at each of its channel operations as a parameter. A contract
 * that holds for all of them holds under every interleaving.
 */
module BoundedWorker {
  import opened Basics

  const EPOCHS: nat := 0x1_0000_0000_0000_0000

  /** A submitted closure: the value it will return, or `None` when it panics. */
  datatype Job<R> = Job(epoch: nat, outcome: Option<R>)

  /** What the two threads share. */
  datatype Wire<R> = Wire(queue: seq<Job<R>>, running: Option<Job<R>>, results: seq<(nat, R)>, alive: bool) {
    /** Jobs and results under way. */
    function Tokens(): nat {
      |queue| + (if running.Some? then 1 else 0) + |results|
    }

    /** Is `epoch`'s job under way, or its result, and what will or did it return? */
    ghost predicate Carries(epoch: nat, outcome: Option<R>) {
      && (forall j | j in queue :: j == Job(epoch, outcome))
      && (running.Some? ==> running.value == Job(epoch, outcome))
      && (forall r | r in results :: r.0 == epoch && outcome == Some(r.1))
    }
  }

  /** The worker receives a job, or its job comes to an end. A job that hangs never ends. */
  datatype Move = Take | Finish

  function WorkerStep<R>(w: Wire<R>, m: Move): Wire<R> {
    match m
    case Take =>
      if w.alive && w.running.None? && w.queue != [] then w.(queue := w.queue[1..], running := Some(w.queue[0]))
      else w
    case Finish =>
      if !w.alive || w.running.None? then w
      else match w.running.value.outcome
        case Some(v) => w.(running := None, results := w.results + [(w.running.value.epoch, v)])
        case None => w.(running := None, queue := [], alive := false)
  }

  function WorkerRun<R>(w: Wire<R>, moves: seq<Move>): Wire<R>
    decreases |moves|
  {
    if moves == [] then w else WorkerRun(WorkerStep(w, moves[0]), moves[1..])
  }

  /** The worker neither invents, copies nor loses a token, short of dying with the job. */
  lemma {:induction false} WorkerKeepsTokens<R>(w: Wire<R>, moves: seq<Move>)
    requires w.Tokens() <= 1 && (!w.alive ==> w.Tokens() == 0)
    ensures var w' := WorkerRun(w, moves);
            && w'.Tokens() == (if w'.alive then w.Tokens() else 0)
            && (!w.alive ==> w' == w)
            && (w.Tokens() == 0 ==> w' == w)
    decreases |moves|
  {
    if moves != [] {
      WorkerKeepsTokens(WorkerStep(w, moves[0]), moves[1..]);
    }
  }

  lemma {:induction false} WorkerKeepsPayload<R>(w: Wire<R>, moves: seq<Move>, epoch: nat, outcome: Option<R>)
    requires w.Tokens() <= 1 && w.Carries(epoch, outcome)
    ensures WorkerRun(w, moves).Carries(epoch, outcome)
    decreases |moves|
  {
    if moves != [] {
      var w' := WorkerStep(w, moves[0]);
      assert forall j | j in w'.queue :: j in w.queue;
      assert w.queue != [] ==> w.queue[0] in w.queue;
      WorkerKeepsPayload(w', moves[1..], epoch, outcome);
    }
  }

  datatype Submitted = Accepted(epoch: nat) | FastFail(since: nat) | SubmitDead

  datatype Polled<R> = Ready(value: R) | NotYet | PollDead

  datatype Waited<R> = Done(value: R) | TimedOut | WaitDead

  datatype Ran<R> = RanTo(value: R) | RanOut | Refused(since: nat) | RanDead

  /** The worker's moves before the caller's i-th channel operation. */
  function Before(schedule: seq<seq<Move>>, i: nat): seq<Move> {
    if i < |schedule| then schedule[i] else []
  }

  /** The caller's i-th reading of the clock; with none left, time is up. */
  function Reading(clock: seq<nat>, i: nat, deadline: nat): nat {
    if i < |clock| then clock[i] else deadline + 1
  }

  class BoundedWorker<R(==, !new)> {
    var wire: Wire<R>
    var inFlight: bool
    var epoch: nat
    var wedgedAt: Option<nat>
    const jobTimeout: nat
    /** What the last job submitted under each epoch returns. */
    ghost var promised: map<nat, Option<R>>

    ghost predicate Valid()
      reads this
    {
      && epoch < EPOCHS
      && wire.Tokens() <= 1
      && (wire.alive ==> (inFlight <==> wire.Tokens() == 1))
      && (!wire.alive ==> wire.Tokens() == 0)
      && (wire.Tokens() == 1 ==> epoch in promised && wire.Carries(epoch, promised[epoch]))
    }

    constructor (timeout: nat)
      ensures Valid() && !inFlight && wire.alive && wedgedAt == None && promised == map[] && jobTimeout == timeout
    {
      wire := Wire([], None, [], true);
      inFlight, epoch, wedgedAt, jobTimeout, promised := false, 0, None, timeout, map[];
    }

    /** The worker moves while the caller does something else. */
    method Interleave(moves: seq<Move>)
      requires Valid()
      modifies this`wire
      ensures Valid() && wire == WorkerRun(old(wire), moves)
    {
      WorkerKeepsTokens(wire, moves);
      if wire.Tokens() == 1 {
        WorkerKeepsPayload(wire, moves, epoch, promised[epoch]);
      }
      wire := WorkerRun(wire, moves);
    }

    /** Take a finished result, if there is one, off the channel. `false` means the worker is gone. */
    method ReapFinished(moves: seq<Move>) returns (ok: bool)
      requires Valid()
      modifies this`wire, this`inFlight, this`wedgedAt
      ensures Valid()
      ensures var seen := if old(inFlight) then WorkerRun(old(wire), moves) else old(wire);
              && wire == seen.(results := [])
              && (ok <==> !old(inFlight) || seen.alive)
              && (inFlight <==> old(inFlight) && seen.results == [])
              && wedgedAt == (if seen.results == [] then old(wedgedAt) else None)
    {
      if !inFlight {
        return true;
      }
      Interleave(moves);
      if wire.results != [] {
        wire := wire.(results := wire.results[1..]);
        inFlight, wedgedAt := false, None;
        return true;
      }
      return wire.alive;
    }

    /**
     * Accepted exactly when the worker lives and nothing is outstanding once a late result has
     * been reaped; in particular the first submit after a wedged job ends is accepted. The
     * capacity-one channel is never found full.
     */
    method Submit(outcome: Option<R>, atReap: seq<Move>, atSend: seq<Move>, now: nat) returns (r: Submitted)
      requires Valid()
      modifies this
      ensures Valid()
      ensures var seen := if old(inFlight) then WorkerRun(old(wire), atReap) else old(wire);
              var free := !old(inFlight) || seen.results != [];
              && (r.Accepted? <==> free && seen.alive)
              && (r.FastFail? <==> !free && seen.alive)
              && (r.SubmitDead? <==> !seen.alive)
      ensures r.Accepted? ==>
                && r.epoch == epoch == (old(epoch) + 1) % EPOCHS && inFlight
                && wire == Wire([Job(epoch, outcome)], None, [], true)
                && promised == old(promised)[epoch := outcome]
      ensures r.FastFail? ==>
                && r.since == (if old(wedgedAt).Some? then old(wedgedAt).value else now)
                && promised == old(promised) && epoch == old(epoch) && inFlight && wire.Tokens() == 1
      ensures r.SubmitDead? ==> promised == old(promised)
    {
      var ok := ReapFinished(atReap);
      if !ok {
        return SubmitDead;
      }
      if inFlight {
        return FastFail(if wedgedAt.Some? then wedgedAt.value else now);
      }
      epoch := (epoch + 1) % EPOCHS;
      WorkerKeepsTokens(wire, atSend);
      Interleave(atSend);
      if !wire.alive || |wire.queue| >= 1 {
        return SubmitDead;
      }
      wire := wire.(queue := wire.queue + [Job(epoch, outcome)]);
      inFlight := true;
      promised := promised[epoch := outcome];
      return Accepted(epoch);
    }

    /** Receive the result that is waiting: it is the current job's, and nothing is outstanding any more. */
    method TakeResult() returns (e: nat, v: R)
      requires Valid() && wire.results != []
      modifies this`wire, this`inFlight, this`wedgedAt
      ensures Valid() && wire == Wire([], None, [], true) && !inFlight && wedgedAt == None
      ensures old(wire.results) == [(e, v)] && e == epoch && epoch in promised && promised[epoch] == Some(v)
    {
      e, v := wire.results[0].0, wire.results[0].1;
      assert wire.results == [(e, v)] && (e, v) in wire.results;
      wire := wire.(results := wire.results[1..]);
      inFlight, wedgedAt := false, None;
    }

    /**
     * A value is returned only for the epoch whose job produced it. Asking for any other epoch
     * throws a waiting result away.
     */
    method Poll(asked: nat, schedule: seq<seq<Move>>) returns (r: Polled<R>)
      requires Valid()
      modifies this`wire, this`inFlight, this`wedgedAt
      ensures Valid()
      ensures var seen := WorkerRun(old(wire), Before(schedule, 0));
              if seen.results == [] then
                wire == seen && inFlight == old(inFlight) && wedgedAt == old(wedgedAt)
                && r == if seen.alive then NotYet else PollDead
              else
                && |seen.results| == 1 && seen.results[0].0 == epoch && epoch in promised
                && promised[epoch] == Some(seen.results[0].1)
                && wire == Wire([], None, [], true) && !inFlight && wedgedAt == None
                && r == if asked == epoch then Ready(seen.results[0].1) else NotYet
    {
      var i := 0;
      while true
        invariant Valid()
        invariant i == 0 ==> wire == old(wire) && inFlight == old(inFlight) && wedgedAt == old(wedgedAt)
        invariant i > 0 ==>
                    var seen := WorkerRun(old(wire), Before(schedule, 0));
                    && |seen.results| == 1 && seen.results[0].0 == epoch && asked != epoch
                    && epoch in promised && promised[epoch] == Some(seen.results[0].1)
                    && wire == Wire([], None, [], true) && !inFlight && wedgedAt == None
        decreases if i == 0 then 1 else 0
      {
        WorkerKeepsTokens(wire, Before(schedule, i));
        Interleave(Before(schedule, i));
        if wire.results == [] {
          return if wire.alive then NotYet else PollDead;
        }
        var e, v := TakeResult();
        if e == asked {
          return Ready(v);
        }
        i := i + 1;
      }
    }

    method MarkWedged(now: nat)
      modifies this`wedgedAt
      ensures wedgedAt == if old(wedgedAt).None? then Some(now) else old(wedgedAt)
    {
      if wedgedAt.None? {
        wedgedAt := Some(now);
      }
    }

    /**
     * Wait against one absolute deadline; `clock` gives the readings, `schedule` the worker's
     * moves at each channel operation. Terminates: at most one result can be thrown away.
     */
    method WaitUntil(asked: nat, deadline: nat, clock: seq<nat>, schedule: seq<seq<Move>>) returns (r: Waited<R>)
      requires Valid()
      modifies this`wire, this`inFlight, this`wedgedAt
      ensures Valid()
      ensures r.Done? ==> asked == epoch && asked in promised && promised[asked] == Some(r.value)
                          && !inFlight && wire.Tokens() == 0 && wedgedAt == None
      ensures r.TimedOut? ==> wedgedAt.Some?
      ensures r.TimedOut? && asked == epoch ==> inFlight == old(inFlight)
      ensures r.WaitDead? ==> !wire.alive
      ensures asked != epoch ==> !r.Done?
      ensures asked == epoch ==>
                var polled := WorkerRun(old(wire), Before(schedule, 0));
                var waited := WorkerRun(polled, Before(schedule, 1));
                var onTime := Reading(clock, 0, deadline) <= deadline;
                && (r.Done? <==> polled.results != [] || (onTime && waited.results != []))
                && (r.TimedOut? <==> polled.results == [] && polled.alive && !(onTime && (waited.results != [] || !waited.alive)))
    {
      var step, tick := 0, 0;
      while true
        invariant Valid()
        invariant asked == epoch ==> inFlight == old(inFlight)
        invariant step == 0 ==> tick == 0 && wire == old(wire)
        invariant step > 0 ==> asked != epoch
        decreases wire.Tokens()
      {
        WorkerKeepsTokens(wire, Before(schedule, step));
        var polled := Poll(asked, [Before(schedule, step)]);
        WorkerKeepsTokens(wire, Before(schedule, step + 1));
        if polled.Ready? {
          return Done(polled.value);
        } else if polled.PollDead? {
          return WaitDead;
        }
        var now := Reading(clock, tick, deadline);
        if deadline < now {
          MarkWedged(now);
          return TimedOut;
        }
        Interleave(Before(schedule, step + 1));
        if wire.results != [] {
          var e, v := TakeResult();
          if e == asked {
            return Done(v);
          }
        } else if !wire.alive {
          return WaitDead;
        } else {
          MarkWedged(now);
          return TimedOut;
        }
        step, tick := step + 2, tick + 1;
      }
    }

    /** Idle means nothing is queued, running or waiting to be read. */
    method IsIdle(moves: seq<Move>) returns (idle: bool)
      requires Valid()
      modifies this`wire, this`inFlight, this`wedgedAt
      ensures Valid()
      ensures idle ==> wire.Tokens() == 0
      ensures wire.alive ==> (idle <==> wire.Tokens() == 0)
      ensures idle <==> !old(inFlight) || WorkerRun(old(wire), moves).results != []
    {
      if inFlight {
        var _ := ReapFinished(moves);
      }
      return !inFlight;
    }

    /** A run returns its own job's value or none at all. */
    method Run(outcome: Option<R>, now: nat, clock: seq<nat>, atReap: seq<Move>, atSend: seq<Move>, schedule: seq<seq<Move>>)
      returns (r: Ran<R>)
      requires Valid()
      modifies this
      ensures Valid()
      ensures r.RanTo? ==> outcome == Some(r.value) && wire.Tokens() == 0
      ensures r.RanOut? ==> inFlight && wedgedAt.Some?
      ensures r.Refused? ==> old(inFlight) && inFlight && wire.Tokens() == 1
      ensures var seen := if old(inFlight) then WorkerRun(old(wire), atReap) else old(wire);
              var free := !old(inFlight) || seen.results != [];
              && (r.Refused? <==> !free && seen.alive)
              && (free && seen.alive ==>
                    var polled := WorkerRun(Wire([Job(epoch, outcome)], None, [], true), Before(schedule, 0));
                    var waited := WorkerRun(polled, Before(schedule, 1));
                    var onTime := Reading(clock, 0, now + jobTimeout) <= now + jobTimeout;
                    && (r.RanTo? <==> polled.results != [] || (onTime && waited.results != []))
                    && (r.RanOut? <==> polled.results == [] && polled.alive && !(onTime && (waited.results != [] || !waited.alive))))
    {
      var s := Submit(outcome, atReap, atSend, now);
      match s {
        case FastFail(since) =>
          return Refused(since);
        case SubmitDead =>
          return RanDead;
        case Accepted(e) =>
          var w := WaitUntil(e, now + jobTimeout, clock, schedule);
          return match w case Done(v) => RanTo(v) case TimedOut => RanOut case WaitDead => RanDead;
      }
    }
  }

  /** Everything a caller can do, with the worker's moves in between. */
  datatype Op<R> =
    | DoSubmit(outcome: Option<R>, atReap: seq<Move>, atSend: seq<Move>, now: nat)
    | DoPoll(asked: nat, schedule: seq<seq<Move>>)
    | DoWait(asked: nat, deadline: nat, clock: seq<nat>, schedule: seq<seq<Move>>)
    | DoIdle(moves: seq<Move>)
    | DoNothing(moves: seq<Move>)

  datatype Reply<R> = Sent(submitted: Submitted) | Got(value: R) | NoValue

  /** The last job accepted under `epoch` before the k-th operation was the j-th. */
  ghost predicate LastAccepted<R>(replies: seq<Reply<R>>, epoch: nat, j: nat, k: nat) {
    && j < k <= |replies| && replies[j] == Sent(Accepted(epoch))
    && forall i | j < i < k :: replies[i] != Sent(Accepted(epoch))
  }

  /** One operation: what it hands out was promised under the epoch asked for. */
  method Serve<R(==, !new)>(worker: BoundedWorker<R>, op: Op<R>) returns (reply: Reply<R>)
    requires worker.Valid()
    modifies worker
    ensures worker.Valid()
    ensures reply.Got? ==> (op.DoPoll? || op.DoWait?) && op.asked in worker.promised && worker.promised[op.asked] == Some(reply.value)
    ensures reply.Sent? && reply.submitted.Accepted? ==>
              op.DoSubmit? && worker.promised == old(worker.promised)[reply.submitted.epoch := op.outcome]
    ensures !(reply.Sent? && reply.submitted.Accepted?) ==> worker.promised == old(worker.promised)
  {
    reply := NoValue;
    hide WorkerRun, Wire.Carries;
    match op {
      case DoSubmit(outcome, atReap, atSend, now) =>
        var s := worker.Submit(outcome, atReap, atSend, now);
        reply := Sent(s);
      case DoPoll(asked, schedule) =>
        var p := worker.Poll(asked, schedule);
        reply := if p.Ready? then Got(p.value) else NoValue;
      case DoWait(asked, deadline, clock, schedule) =>
        var w := worker.WaitUntil(asked, deadline, clock, schedule);
        reply := if w.Done? then Got(w.value) else NoValue;
      case DoIdle(moves) =>
        var _ := worker.IsIdle(moves);
      case DoNothing(moves) =>
        worker.Interleave(moves);
    }
  }

  /**
   * A whole session, any operations in any order under any interleaving: the token invariant
   * never breaks, and every value handed out is that of the last job accepted under its epoch.
   */
  method Session<R(==, !new)>(ops: seq<Op<R>>, timeout: nat) returns (replies: seq<Reply<R>>, worker: BoundedWorker<R>)
    ensures fresh(worker) && worker.Valid() && |replies| == |ops|
    ensures forall k | 0 <= k < |ops| && replies[k].Got? ::
              && (ops[k].DoPoll? || ops[k].DoWait?)
              && exists j: nat :: LastAccepted(replies, ops[k].asked, j, k)
                             && ops[j].DoSubmit? && ops[j].outcome == Some(replies[k].value)
  {
    worker := new BoundedWorker<R>(timeout);
    replies := [];
    for k := 0 to |ops|
      invariant fresh(worker) && worker.Valid() && |replies| == k
      invariant forall e | e in worker.promised ::
                  exists j: nat :: LastAccepted(replies, e, j, k) && ops[j].DoSubmit? && ops[j].outcome == worker.promised[e]
      invariant forall i | 0 <= i < k && replies[i].Got? ::
                  && (ops[i].DoPoll? || ops[i].DoWait?)
                  && exists j: nat :: LastAccepted(replies, ops[i].asked, j, i)
                                 && ops[j].DoSubmit? && ops[j].outcome == Some(replies[i].value)
    {
      ghost var before := replies;
      var reply := Serve(worker, ops[k]);
      replies := replies + [reply];
      hide LastAccepted;
      AcceptedStand(before, reply, k);
    }
  }

  /** What one more reply does to which job was the last accepted under an epoch. */
  lemma {:induction false} AcceptedStand<R>(before: seq<Reply<R>>, reply: Reply<R>, k: nat)
    requires k == |before|
    ensures forall i: nat, e, j: nat | i <= k && LastAccepted(before, e, j, i) :: LastAccepted(before + [reply], e, j, i)
    ensures forall e, j: nat | LastAccepted(before, e, j, k) && reply != Sent(Accepted(e)) :: LastAccepted(before + [reply], e, j, k + 1)
    ensures reply.Sent? && reply.submitted.Accepted? ==> LastAccepted(before + [reply], reply.submitted.epoch, k, k + 1)
  {
  }
}
