/** The worker pool that prepares a batch (services/mddbd/batch.go): a channel of job numbers,
    workers that take them and fill one slot each, and a context that may be cancelled. */
module WorkerPool {
  import opened ByteStrings

  datatype Worker = Idle | Holding(job: nat) | Exited

  /** `filled` and `dropped` list the jobs whose slot was written, or whose worker gave up. */
  datatype Pool<R> = Pool(jobs: nat, sent: nat, closed: bool, queue: seq<nat>, workers: seq<Worker>,
                          slots: seq<Option<R>>, filled: seq<nat>, dropped: seq<nat>, cancelled: bool)

  ghost function Start<R>(jobs: nat, workers: nat): Pool<R> {
    Pool(jobs, 0, false, [], seq(workers, _ => Idle), seq(jobs, _ => None), [], [], false)
  }

  datatype Event = Send | Close | Take(w: nat) | Process(w: nat) | GiveUp(w: nat) | Leave(w: nat) | Cancel

  ghost predicate Enabled<R>(p: Pool<R>, e: Event) {
    match e
    case Send => p.sent < p.jobs
    case Close => p.sent == p.jobs && !p.closed
    case Take(w) => w < |p.workers| && p.workers[w].Idle? && p.queue != []
    case Process(w) => w < |p.workers| && p.workers[w].Holding? && !p.cancelled && p.workers[w].job < |p.slots|
    case GiveUp(w) => w < |p.workers| && p.workers[w].Holding? && p.cancelled
    case Leave(w) => w < |p.workers| && p.workers[w].Idle? && p.queue == [] && p.closed
    case Cancel => !p.cancelled
  }

  ghost function Next<R>(p: Pool<R>, e: Event, f: nat -> R): Pool<R>
    requires Enabled(p, e)
  {
    match e
    case Send => p.(queue := p.queue + [p.sent], sent := p.sent + 1)
    case Close => p.(closed := true)
    case Take(w) => p.(queue := p.queue[1..], workers := p.workers[w := Holding(p.queue[0])])
    case Process(w) =>
      var j := p.workers[w].job;
      p.(slots := p.slots[j := Some(f(j))], filled := p.filled + [j], workers := p.workers[w := Idle])
    case GiveUp(w) => p.(dropped := p.dropped + [p.workers[w].job], workers := p.workers[w := Exited])
    case Leave(w) => p.(workers := p.workers[w := Exited])
    case Cancel => p.(cancelled := true)
  }

  /** All jobs sent and every worker gone: the caller's wait is over. */
  ghost predicate Finished<R>(p: Pool<R>) {
    p.closed && forall w | 0 <= w < |p.workers| :: p.workers[w].Exited?
  }

  // ---- every job is in exactly one place -------------------------------------------------------

  ghost function HeldBy(w: Worker): multiset<nat> {
    if w.Holding? then multiset{w.job} else multiset{}
  }

  ghost function Held(ws: seq<Worker>): multiset<nat> {
    if ws == [] then multiset{} else HeldBy(ws[0]) + Held(ws[1..])
  }

  lemma {:induction false} HeldUpdate(ws: seq<Worker>, i: nat, w: Worker, j: nat)
    requires i < |ws|
    ensures Held(ws[i := w])[j] + HeldBy(ws[i])[j] == Held(ws)[j] + HeldBy(w)[j]
  {
    if i == 0 {
      assert ws[i := w][1..] == ws[1..];
    } else {
      assert ws[i := w][1..] == ws[1..][i - 1 := w];
      HeldUpdate(ws[1..], i - 1, w, j);
    }
  }

  /** Every job sent is in the channel, in a worker's hands, done or dropped, and in one place only. */
  ghost predicate Placed<R>(p: Pool<R>) {
    forall j: nat :: Places(p, j) == if j < p.sent then 1 else 0
  }

  ghost function Places<R>(p: Pool<R>, j: nat): nat {
    multiset(p.queue)[j] + Held(p.workers)[j] + multiset(p.filled)[j] + multiset(p.dropped)[j]
  }

  ghost predicate SlotsRight<R>(p: Pool<R>, f: nat -> R) {
    |p.slots| == p.jobs && forall j | 0 <= j < p.jobs :: p.slots[j] == if j in p.filled then Some(f(j)) else None
  }

  ghost predicate SomeExited(ws: seq<Worker>) {
    exists w | 0 <= w < |ws| :: ws[w].Exited?
  }

  ghost predicate Orderly<R>(p: Pool<R>) {
    && p.sent <= p.jobs
    && (p.closed ==> p.sent == p.jobs)
    && (p.dropped != [] ==> p.cancelled)
    && (!p.cancelled && SomeExited(p.workers) ==> p.closed && p.queue == [])
  }

  ghost predicate Inv<R>(p: Pool<R>, f: nat -> R) {
    Placed(p) && SlotsRight(p, f) && Orderly(p)
  }

  lemma {:induction false} HeldNone(ws: seq<Worker>)
    requires forall w | 0 <= w < |ws| :: !ws[w].Holding?
    ensures Held(ws) == multiset{}
  {
    if ws != [] {
      HeldNone(ws[1..]);
    }
  }

  lemma InvStart<R>(jobs: nat, workers: nat, f: nat -> R)
    ensures Inv(Start<R>(jobs, workers), f)
  {
    HeldNone(Start<R>(jobs, workers).workers);
  }

  lemma {:induction false} HeldIncludes(ws: seq<Worker>, i: nat)
    requires i < |ws|
    ensures HeldBy(ws[i]) <= Held(ws)
  {
    if i > 0 {
      HeldIncludes(ws[1..], i - 1);
    }
  }

  /** A job in a worker's hands has not been filled. */
  lemma HeldNotFilled<R>(p: Pool<R>, f: nat -> R, w: nat)
    requires Inv(p, f) && w < |p.workers| && p.workers[w].Holding?
    ensures p.workers[w].job < p.sent && p.workers[w].job !in p.filled
  {
    var j := p.workers[w].job;
    HeldIncludes(p.workers, w);
    assert Held(p.workers)[j] >= 1;
    assert Places(p, j) == if j < p.sent then 1 else 0;
    assert multiset(p.filled)[j] == 0;
  }

  lemma PlacesNext<R>(p: Pool<R>, e: Event, f: nat -> R, j: nat)
    requires Enabled(p, e)
    ensures Places(Next(p, e, f), j) == Places(p, j) + if e.Send? && j == p.sent then 1 else 0
  {
    match e
    case Take(w) =>
      assert p.queue == [p.queue[0]] + p.queue[1..];
      HeldUpdate(p.workers, w, Holding(p.queue[0]), j);
    case Process(w) => HeldUpdate(p.workers, w, Idle, j);
    case GiveUp(w) => HeldUpdate(p.workers, w, Exited, j);
    case Leave(w) => HeldUpdate(p.workers, w, Exited, j);
    case _ =>
  }

  lemma PlacedNext<R>(p: Pool<R>, e: Event, f: nat -> R)
    requires Placed(p) && Enabled(p, e)
    ensures Placed(Next(p, e, f))
  {
    forall j: nat ensures Places(Next(p, e, f), j) == if j < Next(p, e, f).sent then 1 else 0 {
      PlacesNext(p, e, f, j);
    }
  }

  lemma SlotsNext<R>(p: Pool<R>, e: Event, f: nat -> R)
    requires Inv(p, f) && Enabled(p, e)
    ensures SlotsRight(Next(p, e, f), f)
  {
    if e.Process? {
      HeldNotFilled(p, f, e.w);
    }
  }

  lemma OrderlyNext<R>(p: Pool<R>, e: Event, f: nat -> R)
    requires Orderly(p) && Enabled(p, e)
    ensures Orderly(Next(p, e, f))
  {
    match e
    case Take(w) => SameExited(p.workers, w, Holding(p.queue[0]));
    case Process(w) => SameExited(p.workers, w, Idle);
    case _ =>
  }

  lemma InvNext<R>(p: Pool<R>, e: Event, f: nat -> R)
    requires Inv(p, f) && Enabled(p, e)
    ensures Inv(Next(p, e, f), f)
  {
    PlacedNext(p, e, f);
    SlotsNext(p, e, f);
    OrderlyNext(p, e, f);
  }

  lemma SameExited(ws: seq<Worker>, w: nat, x: Worker)
    requires w < |ws| && !x.Exited?
    ensures SomeExited(ws[w := x]) ==> SomeExited(ws)
  {
    if SomeExited(ws[w := x]) {
      var i :| 0 <= i < |ws| && ws[w := x][i].Exited?;
      assert ws[i].Exited?;
    }
  }

  // ---- every interleaving ------------------------------------------------------------------------

  /** The pool after a schedule of events. */
  ghost predicate Reaches<R>(p: Pool<R>, es: seq<Event>, q: Pool<R>, f: nat -> R)
    decreases |es|
  {
    if es == [] then p == q
    else Enabled(p, es[0]) && Reaches(Next(p, es[0], f), es[1..], q, f)
  }

  lemma {:induction false} InvReached<R>(p: Pool<R>, es: seq<Event>, q: Pool<R>, f: nat -> R)
    requires Inv(p, f) && Reaches(p, es, q, f)
    ensures Inv(q, f) && q.jobs == p.jobs && |q.workers| == |p.workers|
    decreases |es|
  {
    if es != [] {
      InvNext(p, es[0], f);
      InvReached(Next(p, es[0], f), es[1..], q, f);
    }
  }

  /** Whatever the interleaving, when an uncancelled batch is done every job has been
      processed exactly once and the slots are what a sequential loop computes. */
  lemma UncancelledBatchIsComplete<R>(jobs: nat, workers: nat, es: seq<Event>, q: Pool<R>, f: nat -> R)
    requires workers > 0 && Reaches(Start<R>(jobs, workers), es, q, f) && Finished(q) && !q.cancelled
    ensures |q.slots| == jobs && forall j | 0 <= j < jobs :: q.slots[j] == Some(f(j))
    ensures forall j: nat :: multiset(q.filled)[j] == if j < jobs then 1 else 0
  {
    InvStart<R>(jobs, workers, f);
    InvReached(Start<R>(jobs, workers), es, q, f);
    assert q.workers[0].Exited? && SomeExited(q.workers);
    HeldNone(q.workers);
    forall j: nat ensures multiset(q.filled)[j] == if j < jobs then 1 else 0 {
      assert Places(q, j) == if j < q.sent then 1 else 0;
    }
    forall j: nat | j < jobs ensures q.slots[j] == Some(f(j)) {
      assert multiset(q.filled)[j] == 1;
    }
  }

  /** When the batch was cancelled, a slot is left empty exactly when its job is still queued
      or was dropped; a filled slot is right and was filled once. */
  lemma CancelledBatchLeavesGaps<R>(jobs: nat, workers: nat, es: seq<Event>, q: Pool<R>, f: nat -> R)
    requires Reaches(Start<R>(jobs, workers), es, q, f) && Finished(q)
    ensures |q.slots| == jobs
    ensures forall j | 0 <= j < jobs ::
              (q.slots[j].None? <==> j in q.queue || j in q.dropped) && (q.slots[j].Some? ==> q.slots[j] == Some(f(j)))
    ensures forall j: nat :: multiset(q.filled)[j] <= 1
  {
    InvStart<R>(jobs, workers, f);
    InvReached(Start<R>(jobs, workers), es, q, f);
    HeldNone(q.workers);
    forall j: nat
      ensures multiset(q.queue)[j] + multiset(q.filled)[j] + multiset(q.dropped)[j] == if j < jobs then 1 else 0
    {
      assert Places(q, j) == if j < q.sent then 1 else 0;
    }
    forall j | 0 <= j < jobs
      ensures q.slots[j].None? <==> j in q.queue || j in q.dropped
    {
      assert j in q.filled <==> multiset(q.filled)[j] > 0;
      assert j in q.queue <==> multiset(q.queue)[j] > 0;
      assert j in q.dropped <==> multiset(q.dropped)[j] > 0;
    }
  }

  /** Such a gap is real: one job, cancelled after it was sent, taken by the one worker and given up. */
  lemma GapReached<R>(f: nat -> R) returns (q: Pool<R>)
    ensures Reaches(Start<R>(1, 1), [Send, Close, Cancel, Take(0), GiveUp(0)], q, f)
    ensures Finished(q) && q.cancelled && q.slots == [None]
  {
    var p0 := Start<R>(1, 1);
    var p1 := Next(p0, Send, f);
    var p2 := Next(p1, Close, f);
    var p3 := Next(p2, Cancel, f);
    var p4 := Next(p3, Take(0), f);
    q := Next(p4, GiveUp(0), f);
    assert Reaches(p4, [GiveUp(0)], q, f);
    OneStepBefore(p3, Take(0), [GiveUp(0)], q, f);
    OneStepBefore(p2, Cancel, [Take(0), GiveUp(0)], q, f);
    OneStepBefore(p1, Close, [Cancel, Take(0), GiveUp(0)], q, f);
    OneStepBefore(p0, Send, [Close, Cancel, Take(0), GiveUp(0)], q, f);
  }

  lemma OneStepBefore<R>(p: Pool<R>, e: Event, es: seq<Event>, q: Pool<R>, f: nat -> R)
    requires Enabled(p, e) && Reaches(Next(p, e, f), es, q, f)
    ensures Reaches(p, [e] + es, q, f)
  {
    assert ([e] + es)[1..] == es;
  }

  // ---- no deadlock, no endless run -------------------------------------------------------------------

  /** Until the batch is done some step other than cancelling is possible. */
  lemma AlwaysProgress<R>(p: Pool<R>, f: nat -> R)
    requires Inv(p, f) && !Finished(p)
    ensures exists e: Event :: !e.Cancel? && Enabled(p, e)
  {
    if p.sent < p.jobs {
      assert Enabled(p, Send);
    } else if !p.closed {
      assert Enabled(p, Close);
    } else {
      var w :| 0 <= w < |p.workers| && !p.workers[w].Exited?;
      if p.workers[w].Holding? {
        HeldNotFilled(p, f, w);
        assert Enabled(p, if p.cancelled then GiveUp(w) else Process(w));
      } else {
        assert Enabled(p, if p.queue == [] then Leave(w) else Take(w));
      }
    }
  }

  function Weight(w: Worker): nat {
    match w case Idle => 1 case Holding(_) => 2 case Exited => 0
  }

  function Weights(ws: seq<Worker>): nat {
    if ws == [] then 0 else Weight(ws[0]) + Weights(ws[1..])
  }

  lemma {:induction false} WeightsUpdate(ws: seq<Worker>, i: nat, w: Worker)
    requires i < |ws|
    ensures Weights(ws[i := w]) + Weight(ws[i]) == Weights(ws) + Weight(w)
  {
    if i == 0 {
      assert ws[i := w][1..] == ws[1..];
    } else {
      assert ws[i := w][1..] == ws[1..][i - 1 := w];
      WeightsUpdate(ws[1..], i - 1, w);
    }
  }

  function Remaining<R>(p: Pool<R>): int {
    4 * (p.jobs - p.sent) + (if p.closed then 0 else 1) + 3 * |p.queue| + Weights(p.workers)
      + (if p.cancelled then 0 else 1)
  }

  lemma StepSpends<R>(p: Pool<R>, e: Event, f: nat -> R)
    requires Enabled(p, e)
    ensures Remaining(Next(p, e, f)) < Remaining(p)
  {
    match e
    case Take(w) => WeightsUpdate(p.workers, w, Holding(p.queue[0]));
    case Process(w) => WeightsUpdate(p.workers, w, Idle);
    case GiveUp(w) => WeightsUpdate(p.workers, w, Exited);
    case Leave(w) => WeightsUpdate(p.workers, w, Exited);
    case _ =>
  }

  /** Every step uses up part of a bounded budget, so no schedule is longer than the budget. */
  lemma {:induction false} SchedulesAreBounded<R>(p: Pool<R>, es: seq<Event>, q: Pool<R>, f: nat -> R)
    requires Inv(p, f) && Reaches(p, es, q, f)
    ensures 0 <= Remaining(q) && |es| + Remaining(q) <= Remaining(p)
    decreases |es|
  {
    if es != [] {
      InvNext(p, es[0], f);
      StepSpends(p, es[0], f);
      SchedulesAreBounded(Next(p, es[0], f), es[1..], q, f);
    }
  }
}
