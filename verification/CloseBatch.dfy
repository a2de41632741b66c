/** Closing a batch of connections with a bounded number of workers: closeWebSockets of
    internal/httpserver/websocket.go. The feeder, the workers, the caller and the cancelling context
    take steps in any order; `jobs` is an unbuffered channel, so a hand-over is one step of the feeder
    and a worker together. Connections are named by their index in the batch.
  */
module CloseBatch {
  import opened Sequences
  import opened Wrappers

  const CLOSE_WORKERS := 32

  datatype Worker = Idle | Holding(item: nat) | Exited

  /** Why closeWebSockets has returned; it may return while workers are still busy only when the
      context is done. */
  datatype Caller = Blocked | ReturnedFinished(cancelled: bool) | ReturnedCancelled

  /** `next` is the first item not handed over; `finished` lists the closed items in order. */
  datatype State = State(next: nat, jobsOpen: bool, workers: seq<Worker>, finished: seq<nat>,
                         cancelled: bool, caller: Caller)

  datatype Action =
    | HandOver(w: nat)
    | CloseItem(w: nat)
    | CloseJobs
    | GiveUp
    | Exit(w: nat)
    | ReturnFinished
    | ReturnCancelled
    | Cancel

  function Min(a: nat, b: nat): nat {
    if a < b then a else b
  }

  function Start(n: nat): State {
    State(0, true, seq(Min(n, CLOSE_WORKERS), _ => Idle), [], false, Blocked)
  }

  predicate AllExited(workers: seq<Worker>) {
    forall w :: 0 <= w < |workers| ==> workers[w].Exited?
  }

  /** For a batch of `n` items. */
  predicate Enabled(n: nat, s: State, a: Action) {
    match a
    case HandOver(w) => s.jobsOpen && s.next < n && w < |s.workers| && s.workers[w].Idle?
    case CloseItem(w) => w < |s.workers| && s.workers[w].Holding?
    case CloseJobs => s.jobsOpen && s.next >= n
    case GiveUp => s.jobsOpen && s.next < n && s.cancelled
    case Exit(w) => w < |s.workers| && s.workers[w].Idle? && (!s.jobsOpen || s.cancelled)
    case ReturnFinished => s.caller.Blocked? && AllExited(s.workers)
    case ReturnCancelled => s.caller.Blocked? && s.cancelled
    case Cancel => !s.cancelled
  }

  function Apply(n: nat, s: State, a: Action): State
    requires Enabled(n, s, a)
  {
    match a
    case HandOver(w) => s.(next := s.next + 1, workers := s.workers[w := Holding(s.next)])
    case CloseItem(w) => s.(workers := s.workers[w := Idle], finished := s.finished + [s.workers[w].item])
    case CloseJobs => s.(jobsOpen := false)
    case GiveUp => s.(jobsOpen := false)
    case Exit(w) => s.(workers := s.workers[w := Exited])
    case ReturnFinished => s.(caller := ReturnedFinished(s.cancelled))
    case ReturnCancelled => s.(caller := ReturnedCancelled)
    case Cancel => s.(cancelled := true)
  }

  function After(n: nat, run: seq<Action>): Option<State> {
    if run == [] then Some(Start(n))
    else
      var s := After(n, Init(run));
      if s.Some? && Enabled(n, s.value, Last(run)) then Some(Apply(n, s.value, Last(run))) else None
  }

  // ---------------------------------------------------------------------------------------------
  // Every item is in exactly one place
  // ---------------------------------------------------------------------------------------------

  function TimesFinished(finished: seq<nat>, item: nat): nat {
    if finished == [] then 0 else TimesFinished(Init(finished), item) + if Last(finished) == item then 1 else 0
  }

  function Weight(worker: Worker, item: nat): nat {
    if worker == Holding(item) then 1 else 0
  }

  function Holders(workers: seq<Worker>, item: nat): nat {
    if workers == [] then 0 else Holders(Init(workers), item) + Weight(Last(workers), item)
  }

  /** The number of places an item is in: waiting, with a worker, or among the finished. */
  function Places(s: State, item: nat): nat {
    (if item >= s.next then 1 else 0) + Holders(s.workers, item) + TimesFinished(s.finished, item)
  }

  lemma {:induction false} HoldersAfter(workers: seq<Worker>, w: nat, worker: Worker, item: nat)
    requires w < |workers|
    ensures Holders(workers[w := worker], item) + Weight(workers[w], item) ==
            Holders(workers, item) + Weight(worker, item)
  {
    if w < |workers| - 1 {
      HoldersAfter(Init(workers), w, worker, item);
      assert Init(workers[w := worker]) == Init(workers)[w := worker];
    } else {
      assert Init(workers[w := worker]) == Init(workers);
    }
  }

  lemma {:induction false} NoHolders(workers: seq<Worker>, item: nat)
    requires forall w :: 0 <= w < |workers| ==> !workers[w].Holding?
    ensures Holders(workers, item) == 0
  {
    if workers != [] {
      NoHolders(Init(workers), item);
    }
  }

  lemma PlacesAfter(n: nat, s: State, a: Action, item: nat)
    requires Enabled(n, s, a)
    ensures Places(Apply(n, s, a), item) == Places(s, item)
  {
    match a
    case HandOver(w) => HoldersAfter(s.workers, w, Holding(s.next), item);
    case CloseItem(w) =>
      HoldersAfter(s.workers, w, Idle, item);
      assert Init(s.finished + [s.workers[w].item]) == s.finished;
    case Exit(w) => HoldersAfter(s.workers, w, Exited, item);
    case _ =>
  }

  /** In every reachable state each item waits, is held by one worker, or has been closed once. */
  lemma {:induction false} ExactlyOnePlace(n: nat, run: seq<Action>, item: nat)
    requires After(n, run).Some? && item < n
    ensures Places(After(n, run).value, item) == 1
  {
    if run == [] {
      NoHolders(Start(n).workers, item);
    } else {
      ExactlyOnePlace(n, Init(run), item);
      PlacesAfter(n, After(n, Init(run)).value, Last(run), item);
    }
  }

  /** Cancelled or not, no connection is closed twice. */
  lemma NeverClosedTwice(n: nat, run: seq<Action>, item: nat)
    requires After(n, run).Some? && item < n
    ensures TimesFinished(After(n, run).value.finished, item) <= 1
  {
    ExactlyOnePlace(n, run, item);
  }

  // ---------------------------------------------------------------------------------------------
  // What a return means
  // ---------------------------------------------------------------------------------------------

  /** Without cancellation the feeder stops only at the end, and a worker only after the feeder. */
  ghost predicate Orderly(n: nat, s: State) {
    && |s.workers| == Min(n, CLOSE_WORKERS)
    && s.next <= n
    && (!s.cancelled && !s.jobsOpen ==> s.next == n)
    && (!s.cancelled && s.jobsOpen ==> forall w :: 0 <= w < |s.workers| ==> !s.workers[w].Exited?)
    && (s.caller.ReturnedFinished? ==> AllExited(s.workers))
    && (s.caller == ReturnedFinished(false) ==> s.next == n)
  }

  lemma StaysOrderly(n: nat, s: State, a: Action)
    requires Orderly(n, s) && Enabled(n, s, a) && n > 0
    ensures Orderly(n, Apply(n, s, a))
  {
    if a.ReturnFinished? {
      assert s.workers[0].Exited?;
    }
  }

  lemma {:induction false} RunsStayOrderly(n: nat, run: seq<Action>)
    requires After(n, run).Some? && n > 0
    ensures Orderly(n, After(n, run).value)
  {
    if run != [] {
      RunsStayOrderly(n, Init(run));
      StaysOrderly(n, After(n, Init(run)).value, Last(run));
    }
  }

  /** Without cancellation closeWebSockets returns only after every connection was closed, each once. */
  lemma ReturnMeansAllClosed(n: nat, run: seq<Action>, item: nat)
    requires After(n, run).Some? && item < n && After(n, run).value.caller == ReturnedFinished(false)
    ensures TimesFinished(After(n, run).value.finished, item) == 1
  {
    RunsStayOrderly(n, run);
    ExactlyOnePlace(n, run, item);
    NoHolders(After(n, run).value.workers, item);
  }

  function InFlight(workers: seq<Worker>): nat {
    if workers == [] then 0 else InFlight(Init(workers)) + if Last(workers).Holding? then 1 else 0
  }

  lemma {:induction false} InFlightAtMost(workers: seq<Worker>)
    ensures InFlight(workers) <= |workers|
  {
    if workers != [] {
      InFlightAtMost(Init(workers));
    }
  }

  /** At most 32 connections, and never more than there are, are being closed at once. */
  lemma BoundedConcurrency(n: nat, run: seq<Action>)
    requires After(n, run).Some? && n > 0
    ensures InFlight(After(n, run).value.workers) <= n && InFlight(After(n, run).value.workers) <= 32
    ensures |After(n, run).value.workers| == if n < 32 then n else 32
  {
    RunsStayOrderly(n, run);
    InFlightAtMost(After(n, run).value.workers);
  }

  // ---------------------------------------------------------------------------------------------
  // Progress
  // ---------------------------------------------------------------------------------------------

  function WorkLeft(workers: seq<Worker>): nat {
    if workers == [] then 0
    else WorkLeft(Init(workers)) + if Last(workers).Holding? then 2 else if Last(workers).Idle? then 1 else 0
  }

  /** An upper bound of the number of steps that can still be taken. */
  function StepsLeft(n: nat, s: State): nat {
    (if s.next < n then 2 * (n - s.next) else 0) + WorkLeft(s.workers)
    + (if s.jobsOpen then 1 else 0) + (if s.cancelled then 0 else 1) + (if s.caller.Blocked? then 1 else 0)
  }

  lemma {:induction false} WorkLeftAfter(workers: seq<Worker>, w: nat, worker: Worker)
    requires w < |workers|
    ensures WorkLeft(workers[w := worker]) + WorkLeft([workers[w]]) == WorkLeft(workers) + WorkLeft([worker])
  {
    if w < |workers| - 1 {
      WorkLeftAfter(Init(workers), w, worker);
      assert Init(workers[w := worker]) == Init(workers)[w := worker];
    } else {
      assert Init(workers[w := worker]) == Init(workers);
    }
  }

  /** Every step brings the end nearer. */
  lemma EveryStepCounts(n: nat, s: State, a: Action)
    requires Enabled(n, s, a)
    ensures StepsLeft(n, Apply(n, s, a)) < StepsLeft(n, s)
  {
    match a
    case HandOver(w) => WorkLeftAfter(s.workers, w, Holding(s.next));
    case CloseItem(w) => WorkLeftAfter(s.workers, w, Idle);
    case Exit(w) => WorkLeftAfter(s.workers, w, Exited);
    case _ =>
  }

  /** As long as the call has not returned, some step other than a cancellation is possible. */
  lemma NeverStuck(n: nat, s: State) returns (a: Action)
    requires s.caller.Blocked?
    ensures Enabled(n, s, a) && !a.Cancel?
  {
    if w :| 0 <= w < |s.workers| && s.workers[w].Holding? {
      a := CloseItem(w);
    } else if w :| 0 <= w < |s.workers| && s.workers[w].Idle? {
      a := if !s.jobsOpen then Exit(w) else if s.next < n then HandOver(w) else CloseJobs;
    } else {
      a := ReturnFinished;
    }
  }

  /** So every run can be continued to the return, and no run is longer than the bound at its start. */
  lemma {:induction false} RunsAreBounded(n: nat, run: seq<Action>)
    requires After(n, run).Some?
    ensures |run| + StepsLeft(n, After(n, run).value) <= StepsLeft(n, Start(n))
  {
    if run != [] {
      RunsAreBounded(n, Init(run));
      EveryStepCounts(n, After(n, Init(run)).value, Last(run));
    }
  }
}
