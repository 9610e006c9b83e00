/** The token-validation queue: any number of workers, interleaved step by step, and a stop that
    drains. Jobs are numbered in the order they are submitted. A worker blocked on the condition
    variable is one none of whose steps is possible yet. */
module AuthQueue {
  import opened Collections

  type Worker = nat
  type Job = nat

  datatype State = State(
    submitted: nat,
    queue: seq<Job>,
    dequeued: seq<Job>,
    working: map<Worker, Job>,      // between leaving the queue and the callback
    called: seq<Job>,               // callbacks made, in order
    live: set<Worker>,              // workers that have not left their loop
    running: bool)

  datatype Event =
    | Submit
    | Take(w: Worker)
    | Call(w: Worker)
    | Exit(w: Worker)
    | Stop

  function Start(workers: set<Worker>): State {
    State(0, [], [], map[], [], workers, true)
  }

  predicate Idle(s: State, w: Worker) {
    w in s.live && w !in s.working
  }

  function Step(s: State, e: Event): State {
    match e
    case Submit => s.(submitted := s.submitted + 1, queue := s.queue + [s.submitted])
    case Take(w) =>
      if Idle(s, w) && s.queue != [] then
        s.(queue := s.queue[1..], dequeued := s.dequeued + [s.queue[0]], working := s.working[w := s.queue[0]])
      else s
    case Call(w) =>
      if w in s.working then s.(working := s.working - {w}, called := s.called + [s.working[w]]) else s
    case Exit(w) =>
      if Idle(s, w) && s.queue == [] && !s.running then s.(live := s.live - {w}) else s
    case Stop => s.(running := false)
  }

  function StepAll(s: State, events: seq<Event>): State {
    if events == [] then s else Step(StepAll(s, events[..|events| - 1]), events[|events| - 1])
  }

  function Run(workers: set<Worker>, events: seq<Event>): State {
    StepAll(Start(workers), events)
  }

  // ----- conservation -----

  ghost predicate InOrder(jobs: seq<Job>, n: nat) {
    |jobs| == n && forall i :: 0 <= i < n ==> jobs[i] == i
  }

  ghost predicate Inv(s: State) {
    && InOrder(s.dequeued + s.queue, s.submitted)
    && |s.called| + |s.working| == |s.dequeued|
    && NoDuplicates(s.called)
    && (forall v, w :: v in s.working && w in s.working && v != w ==> s.working[v] != s.working[w])
    && (forall w :: w in s.working ==> w in s.live && s.working[w] < |s.dequeued| && s.working[w] !in s.called)
    && (forall j :: j in s.called ==> j < |s.dequeued|)
  }

  lemma TakeKeeps(s: State, w: Worker)
    requires Inv(s)
    ensures Inv(Step(s, Take(w)))
  {
    if Idle(s, w) && s.queue != [] {
      var t := Step(s, Take(w));
      assert t.dequeued + t.queue == s.dequeued + s.queue;
      assert s.queue[0] == (s.dequeued + s.queue)[|s.dequeued|] == |s.dequeued|;
      assert t.working.Keys == s.working.Keys + {w};
      assert |t.working| == |t.working.Keys| && |s.working| == |s.working.Keys|;
    }
  }

  lemma CallKeeps(s: State, w: Worker)
    requires Inv(s)
    ensures Inv(Step(s, Call(w)))
  {
    if w in s.working {
      var t := Step(s, Call(w));
      assert t.working.Keys == s.working.Keys - {w};
      assert |t.working| == |t.working.Keys| && |s.working| == |s.working.Keys|;
    }
  }

  lemma StepKeeps(s: State, e: Event)
    requires Inv(s)
    ensures Inv(Step(s, e))
  {
    match e
    case Submit =>
      assert s.dequeued + (s.queue + [s.submitted]) == (s.dequeued + s.queue) + [s.submitted];
    case Take(w) => TakeKeeps(s, w);
    case Call(w) => CallKeeps(s, w);
    case Exit(w) =>
    case Stop =>
  }

  lemma {:induction false} RunKeeps(workers: set<Worker>, events: seq<Event>)
    ensures Inv(Run(workers, events))
  {
    if events != [] {
      RunKeeps(workers, events[..|events| - 1]);
      StepKeeps(Run(workers, events[..|events| - 1]), events[|events| - 1]);
    }
  }

  /** On every run: jobs leave the queue in the order they were submitted, none is called back
      twice, and submitted = queued + being worked on + called back. */
  lemma Conservation(workers: set<Worker>, events: seq<Event>)
    ensures var s := Run(workers, events);
      && InOrder(s.dequeued + s.queue, s.submitted)
      && NoDuplicates(s.called)
      && s.submitted == |s.queue| + |s.working| + |s.called|
  {
    RunKeeps(workers, events);
  }

  // ----- draining -----

  ghost predicate EveryJobCalled(s: State) {
    forall j :: 0 <= j < s.submitted ==> j in s.called
  }

  /** No job was submitted once no worker was left. */
  ghost predicate NobodyTooLate(workers: set<Worker>, events: seq<Event>) {
    forall i :: 0 <= i < |events| && events[i] == Submit ==> Run(workers, events[..i]).live != {}
  }

  lemma NobodyTooLateSnoc(workers: set<Worker>, events: seq<Event>, e: Event)
    ensures NobodyTooLate(workers, events + [e]) <==>
      NobodyTooLate(workers, events) && (e == Submit ==> Run(workers, events).live != {})
  {
    var all := events + [e];
    assert all[..|events|] == events && all[|events|] == e;
    assert forall i :: 0 <= i < |events| ==> all[i] == events[i] && all[..i] == events[..i];
  }

  lemma {:induction false} QueueAfterExit(workers: set<Worker>, events: seq<Event>)
    ensures var s := Run(workers, events);
      (s.live != {} ==> NobodyTooLate(workers, events)) &&
      (s.live == {} ==> (s.queue == [] <==> NobodyTooLate(workers, events)))
  {
    if events != [] {
      var before, e := events[..|events| - 1], events[|events| - 1];
      QueueAfterExit(workers, before);
      RunKeeps(workers, before);
      assert events == before + [e];
      NobodyTooLateSnoc(workers, before, e);
    }
  }

  /** Once all workers have left, every submitted job has been called back exactly if none was
      submitted after the last of them left. */
  lemma DrainedExactly(workers: set<Worker>, events: seq<Event>)
    requires Run(workers, events).live == {}
    ensures EveryJobCalled(Run(workers, events)) <==> NobodyTooLate(workers, events)
  {
    var s := Run(workers, events);
    RunKeeps(workers, events);
    QueueAfterExit(workers, events);
    assert s.working.Keys <= s.live;
    assert s.working == map[];
    if s.queue == [] {
      assert s.dequeued + s.queue == s.dequeued;
      Pigeonhole(s.called, s.submitted);
    } else {
      assert |s.dequeued| !in s.called;
    }
  }

  /** A worker leaves only after Stop. */
  lemma {:induction false} LeavingMeansStopped(workers: set<Worker>, events: seq<Event>)
    ensures Run(workers, events).live != workers ==> Stop in events
    ensures !Run(workers, events).running ==> Stop in events
  {
    if events != [] {
      LeavingMeansStopped(workers, events[..|events| - 1]);
    }
  }

  /** The promise of Stop: with at least one worker and nothing submitted after Stop began, all
      jobs have been called back by the time all workers have left. */
  lemma StopDrains(workers: set<Worker>, before: seq<Event>, after: seq<Event>)
    requires workers != {} && Stop !in before && Submit !in after
    requires Run(workers, before + [Stop] + after).live == {}
    ensures EveryJobCalled(Run(workers, before + [Stop] + after))
  {
    var events := before + [Stop] + after;
    assert forall k :: 0 <= k < |after| ==> after[k] in after;
    forall i | 0 <= i < |events| && events[i] == Submit
      ensures Run(workers, events[..i]).live != {}
    {
      assert forall k :: |before| < k < |events| ==> events[k] == after[k - |before| - 1];
      assert events[..i] == before[..i];
      LeavingMeansStopped(workers, before[..i]);
    }
    DrainedExactly(workers, events);
  }

  // ----- and Stop's join comes to an end -----

  /** How many worker steps are left at most. */
  function Rank(s: State): nat {
    2 * |s.queue| + |s.working| + |s.live|
  }

  /** Every worker step that does something brings the end nearer. */
  lemma WorkerStepsCountDown(s: State, e: Event)
    requires Inv(s) && e != Submit && e != Stop && Step(s, e) != s
    ensures Rank(Step(s, e)) < Rank(s)
  {
    var t := Step(s, e);
    match e
    case Take(w) =>
      assert t.working.Keys == s.working.Keys + {w};
      assert |t.working| == |t.working.Keys| && |s.working| == |s.working.Keys|;
    case Call(w) =>
      assert t.working.Keys == s.working.Keys - {w};
      assert |t.working| == |t.working.Keys| && |s.working| == |s.working.Keys|;
    case Exit(w) =>
      assert t.live == s.live - {w};
  }

  /** After Stop, until all workers have left, every one of them can take a step: none is stuck. */
  lemma NoWorkerIsStuck(s: State, w: Worker) returns (e: Event)
    requires !s.running && w in s.live
    ensures e in {Take(w), Call(w), Exit(w)} && Step(s, e) != s
  {
    if w in s.working {
      e := Call(w);
      assert w !in Step(s, e).working;
    } else if s.queue != [] {
      e := Take(w);
      assert |Step(s, e).queue| < |s.queue|;
    } else {
      e := Exit(w);
      assert w !in Step(s, e).live;
    }
  }

  /** A worker waits exactly while it has no job, none is queued, and the service is running. */
  lemma WaitsExactly(s: State, w: Worker)
    requires w in s.live
    ensures (forall e :: e in {Take(w), Call(w), Exit(w)} ==> Step(s, e) == s) <==>
      w !in s.working && s.queue == [] && s.running
  {
    assert Take(w) in {Take(w), Call(w), Exit(w)} && Call(w) in {Take(w), Call(w), Exit(w)} && Exit(w) in {Take(w), Call(w), Exit(w)};
    if w in s.working {
      assert w !in Step(s, Call(w)).working;
    } else if s.queue != [] {
      assert |Step(s, Take(w)).queue| < |s.queue|;
    } else if !s.running {
      assert w !in Step(s, Exit(w)).live;
    }
  }

  // ----- told from the events alone -----

  function Submits(events: seq<Event>): nat {
    if events == [] then 0 else Submits(events[..|events| - 1]) + (if events[|events| - 1] == Submit then 1 else 0)
  }

  /** Every submission counts, whatever the state of queue, workers and service; the service runs
      until it is stopped; and the callbacks are those of the jobs submitted, no more. */
  lemma {:induction false} EventsTell(workers: set<Worker>, events: seq<Event>)
    ensures var s := Run(workers, events);
      && s.submitted == Submits(events) && (s.running <==> Stop !in events)
      && s.live <= workers && |s.called| + |s.working| + |s.queue| == Submits(events)
  {
    RunKeeps(workers, events);
    if events != [] {
      EventsTell(workers, events[..|events| - 1]);
    }
  }

  // ----- in place -----

  predicate IsStepOf(e: Event, w: Worker) {
    e in {Take(w), Call(w), Exit(w)}
  }

  /** The events that are not steps of the worker. */
  function Without(events: seq<Event>, w: Worker): seq<Event> {
    if events == [] then []
    else Without(events[..|events| - 1], w) + (if IsStepOf(events[|events| - 1], w) then [] else [events[|events| - 1]])
  }

  lemma OneMoreEvent(s: State, events: seq<Event>, e: Event, w: Worker)
    ensures StepAll(s, events + [e]) == Step(StepAll(s, events), e)
    ensures Without(events + [e], w) == Without(events, w) + (if IsStepOf(e, w) then [] else [e])
  {
    assert (events + [e])[..|events|] == events;
  }

  class AuthService {
    var submitted: nat
    var queue: seq<Job>
    var working: map<Worker, Job>
    var live: set<Worker>
    var running: bool
    ghost var dequeued: seq<Job>
    ghost var called: seq<Job>

    ghost function View(): State
      reads this
    {
      State(submitted, queue, dequeued, working, called, live, running)
    }

    constructor (workers: set<Worker>)
      ensures View() == Start(workers)
    {
      submitted, queue, working, live, running := 0, [], map[], workers, true;
      dequeued, called := [], [];
    }

    method ValidateAsync() returns (job: Job)
      modifies this
      ensures View() == Step(old(View()), Submit) && job == old(submitted)
    {
      job := submitted;
      queue := queue + [job];
      submitted := submitted + 1;
    }

    method BeginStop() returns (wasRunning: bool)
      modifies `running
      ensures View() == Step(old(View()), Stop) && wasRunning == old(running)
    {
      wasRunning := running;
      running := false;
    }

    /** What a worker does under the lock once its wait is over: take the oldest job, or leave
        when there is none. */
    method TakeOrExit(w: Worker) returns (leave: bool)
      requires Idle(View(), w) && (queue != [] || !running)
      modifies this
      ensures leave <==> old(queue) == []
      ensures View() == Step(old(View()), if leave then Exit(w) else Take(w))
    {
      if |queue| == 0 {
        live := live - {w};
        return true;
      }
      working := working[w := queue[0]];
      dequeued := dequeued + [queue[0]];
      queue := queue[1..];
      return false;
    }

    method CallBack(w: Worker)
      requires w in working
      modifies this
      ensures View() == Step(old(View()), Call(w))
    {
      called := called + [working[w]];
      working := working - {w};
    }

    /** What any other thread does: submits, stops, or takes a step of its worker if it can. */
    method Elsewhere(e: Event)
      modifies this
      ensures View() == Step(old(View()), e)
    {
      match e
      case Submit =>
        var _ := ValidateAsync();
      case Stop =>
        var _ := BeginStop();
      case Take(v) =>
        if v in live && v !in working && queue != [] {
          var _ := TakeOrExit(v);
        }
      case Call(v) =>
        if v in working {
          CallBack(v);
        }
      case Exit(v) =>
        if v in live && v !in working && queue == [] && !running {
          var _ := TakeOrExit(v);
        }
    }

    /** A worker's own next step: the callback if it has a job, or else what it does under the lock. */
    method OwnStep(w: Worker) returns (leave: bool, ghost e: Event)
      requires w in live && (w in working || queue != [] || !running)
      modifies this
      ensures View() == Step(old(View()), e) && IsStepOf(e, w) && running == old(running)
      ensures if leave then w !in live && w !in working && queue == [] && !running
              else w in live && (w in working <==> w !in old(working))
      ensures !leave ==> |queue| == |old(queue)| - (if w in working then 1 else 0)
    {
      if w in working {
        e := Call(w);
        CallBack(w);
        leave := false;
      } else {
        leave := TakeOrExit(w);
        e := if leave then Exit(w) else Take(w);
      }
    }

    /** A worker's whole loop, from its start to its end, among other threads: `others` is what
        they do meanwhile, at any moments in between, and a worker that finds nothing to do waits
        for it. The service is stopped at some time. Then the worker leaves in the end, and it
        leaves only when nothing is queued; `done` of what the others do comes before that. */
    method WorkerLoop(w: Worker, others: seq<Event>) returns (ghost trace: seq<Event>, done: nat)
      requires Idle(View(), w) && (!running || Stop in others)
      requires forall i :: 0 <= i < |others| ==> !IsStepOf(others[i], w)
      modifies this
      ensures View() == StepAll(old(View()), trace)
      ensures w !in live && w !in working && queue == [] && !running
      ensures done <= |others| && Without(trace, w) == others[..done]
    {
      var leave := false;
      trace, done := [], 0;
      while !leave
        invariant done <= |others| && (!running || Stop in others[done..])
        invariant View() == StepAll(old(View()), trace) && Without(trace, w) == others[..done]
        invariant if leave then w !in live && w !in working && queue == [] && !running else w in live
        decreases |others| - done, !leave, 2 * |queue| + (if w in working then 1 else 0)
      {
        ghost var e;
        var waits := w !in working && queue == [] && running;
        var late: bool := *;
        if waits || (done < |others| && late) {
          e := others[done];
          Elsewhere(others[done]);
          done := done + 1;
        } else {
          leave, e := OwnStep(w);
        }
        OneMoreEvent(old(View()), trace, e, w);
        trace := trace + [e];
      }
    }
  }
}
