/**
 Pausing and resuming virtual CPUs, and work run on another CPU's thread. Steps are
 what a thread does while it holds the global mutex; guest code runs without it.
 A thread serves one CPU (KVM) or all of them (TCG).
 */
module Vcpu {

  type Cpu = nat
  type Item = nat

  /** A pause is asked for by pause_all_vcpus, and in force once it has returned. */
  datatype Pause = Running | Pausing | Paused

  datatype System = System(
    cpus: set<Cpu>, thread: map<Cpu, nat>, vmRunning: bool,
    stop: set<Cpu>, stopped: set<Cpu>, inGuest: set<Cpu>, pause: Pause,
    queue: map<Cpu, seq<Item>>, ran: map<Cpu, seq<Item>>, queued: map<Cpu, seq<Item>>,
    target: map<Item, Cpu>, resumed: set<Item>)

  /** cpu_can_run */
  predicate CanRun(s: System, c: Cpu) {
    c !in s.stop && c !in s.stopped && s.vmRunning
  }

  /** cpu_has_work; awake stands for a CPU that is not halted or has work of its own. */
  predicate HasWork(s: System, c: Cpu, awake: bool)
    requires c in s.queue
  {
    c in s.stop || s.queue[c] != [] || (c !in s.stopped && s.vmRunning && awake)
  }

  datatype Event =
    | EnterGuest(c: Cpu)
    | LeaveGuest(c: Cpu)
    | HandleEvents(t: nat)
    | AskPause
    | PauseReturns
    | Resume
    | SetRunning(on: bool)
    | StopSelf(c: Cpu)
    | RunOnCpu(c: Cpu, item: Item)
    | Requester(item: Item)

  /** Every thread state the code can be in; no assumption on the order of steps. */
  predicate Enabled(s: System, e: Event) {
    match e
    case EnterGuest(c) =>
      c in s.cpus && CanRun(s, c) && forall o <- s.inGuest :: o in s.thread && c in s.thread && s.thread[o] != s.thread[c]
    case LeaveGuest(c) => c in s.inGuest
    case HandleEvents(t) => forall o <- s.inGuest :: o in s.thread && s.thread[o] != t
    case AskPause => s.pause == Running || s.pause == Paused
    case PauseReturns => s.pause == Pausing && s.cpus <= s.stopped
    case Resume => s.pause != Pausing
    case SetRunning(_) => true
    case StopSelf(c) => c in s.cpus
    case RunOnCpu(c, item) => c in s.cpus && item !in s.target
    case Requester(item) => item in s.target && s.target[item] in s.ran && item in s.ran[s.target[item]]
  }

  function Step(s: System, e: Event): System
    requires s.queue.Keys == s.ran.Keys == s.queued.Keys == s.thread.Keys == s.cpus
    requires e.RunOnCpu? ==> e.c in s.cpus
  {
    match e
    case EnterGuest(c) => s.(inGuest := s.inGuest + {c})
    case LeaveGuest(c) => s.(inGuest := s.inGuest - {c})
    case HandleEvents(t) =>
      // qemu_wait_io_event_common for every CPU of the thread
      var mine := set c | c in s.cpus && s.thread[c] == t;
      s.(stop := s.stop - mine, stopped := s.stopped + (s.stop * mine),
         ran := map c | c in s.cpus :: if c in mine then s.ran[c] + s.queue[c] else s.ran[c],
         queue := map c | c in s.cpus :: if c in mine then [] else s.queue[c])
    case AskPause => s.(stop := s.stop + s.cpus, pause := Pausing)
    case PauseReturns => s.(pause := Paused)
    case Resume => s.(stop := {}, stopped := {}, pause := Running)
    case SetRunning(on) => s.(vmRunning := on)
    case StopSelf(c) => s.(stop := s.stop + {c})
    case RunOnCpu(c, item) =>
      s.(queue := s.queue[c := s.queue[c] + [item]], queued := s.queued[c := s.queued[c] + [item]],
         target := s.target[item := c])
    case Requester(item) => s.(resumed := s.resumed + {item})
  }

  ghost predicate Shape(s: System) {
    && s.queue.Keys == s.ran.Keys == s.queued.Keys == s.thread.Keys == s.cpus
    && s.inGuest <= s.cpus && s.stop <= s.cpus && s.stopped <= s.cpus
  }

  /** A CPU in guest code is not stopped; a CPU asked to stop has not been
      forgotten; after the return of pause_all_vcpus all are stopped. */
  ghost predicate PauseInv(s: System) {
    && s.inGuest !! s.stopped
    && (s.pause == Pausing ==> s.cpus <= s.stop + s.stopped)
    && (s.pause == Paused ==> s.cpus <= s.stopped)
  }

  ghost predicate Distinct(items: seq<Item>) {
    forall i, j :: 0 <= i < j < |items| ==> items[i] != items[j]
  }

  ghost predicate AllFor(items: seq<Item>, target: map<Item, Cpu>, c: Cpu) {
    forall item <- items :: item in target && target[item] == c
  }

  /** For CPU c: what has run followed by what waits is what was queued, in order,
      and every item was queued once, for its target. */
  ghost predicate CpuWork(s: System, c: Cpu)
    requires Shape(s) && c in s.cpus
  {
    && s.queued[c] == s.ran[c] + s.queue[c]
    && Distinct(s.queued[c])
    && AllFor(s.queued[c], s.target, c)
  }

  /** Only items that have run let their requesters go on. */
  ghost predicate WorkInv(s: System)
    requires Shape(s)
  {
    && (forall c <- s.cpus :: CpuWork(s, c))
    && (forall item <- s.resumed :: item in s.target && s.target[item] in s.cpus && item in s.ran[s.target[item]])
  }

  lemma StepPause(s: System, e: Event)
    requires Shape(s) && PauseInv(s) && Enabled(s, e)
    ensures Shape(Step(s, e)) && PauseInv(Step(s, e)) && Step(s, e).cpus == s.cpus
  {
    match e
    case HandleEvents(t) => HandleEventsPause(s, t);
    case RunOnCpu(_, _) => OtherPause(s, e);
    case AskPause => OtherPause(s, e);
    case Resume => OtherPause(s, e);
    case EnterGuest(_) =>
    case LeaveGuest(_) =>
    case PauseReturns =>
    case SetRunning(_) =>
    case StopSelf(_) =>
    case Requester(_) =>
  }

  lemma OtherPause(s: System, e: Event)
    requires Shape(s) && PauseInv(s) && Enabled(s, e) && (e.RunOnCpu? || e.AskPause? || e.Resume?)
    ensures Shape(Step(s, e)) && PauseInv(Step(s, e))
  {
  }

  lemma HandleEventsPause(s: System, t: nat)
    requires Shape(s) && PauseInv(s) && Enabled(s, HandleEvents(t))
    ensures Shape(Step(s, HandleEvents(t))) && PauseInv(Step(s, HandleEvents(t)))
  {
  }

  lemma HandleEventsWork(s: System, t: nat)
    requires Shape(s) && WorkInv(s)
    ensures Shape(Step(s, HandleEvents(t))) && WorkInv(Step(s, HandleEvents(t)))
  {
    hide Distinct, AllFor;
    var s' := Step(s, HandleEvents(t));
    forall c | c in s.cpus ensures CpuWork(s', c) {
      assert CpuWork(s, c);
      assert s'.ran[c] + s'.queue[c] == s.ran[c] + s.queue[c];
    }
  }

  lemma RunOnCpuWork(s: System, c: Cpu, item: Item)
    requires Shape(s) && WorkInv(s) && Enabled(s, RunOnCpu(c, item))
    ensures Shape(Step(s, RunOnCpu(c, item))) && WorkInv(Step(s, RunOnCpu(c, item)))
  {
    hide CpuWork;
    var s' := Step(s, RunOnCpu(c, item));
    assert Shape(s');
    forall o | o in s.cpus ensures CpuWork(s', o) {
      assert CpuWork(s, o);
      QueuedWork(s, c, item, o);
    }
    assert forall it <- s.resumed :: it != item;
  }

  lemma QueuedWork(s: System, c: Cpu, item: Item, o: Cpu)
    requires Shape(s) && c in s.cpus && item !in s.target && o in s.cpus && CpuWork(s, o)
    ensures Shape(Step(s, RunOnCpu(c, item))) && CpuWork(Step(s, RunOnCpu(c, item)), o)
  {
    hide Distinct, AllFor;
    var s' := Step(s, RunOnCpu(c, item));
    MoreTargets(s.queued[o], s.target, o, item, c);
    if o == c {
      assert s'.queued[c] == s'.ran[c] + s'.queue[c];
    }
  }

  lemma MoreTargets(items: seq<Item>, target: map<Item, Cpu>, o: Cpu, item: Item, c: Cpu)
    requires AllFor(items, target, o) && Distinct(items) && item !in target
    ensures AllFor(items, target[item := c], o)
    ensures o == c ==> AllFor(items + [item], target[item := c], c) && Distinct(items + [item])
  {
    assert item !in items;
  }

  lemma StepWork(s: System, e: Event)
    requires Shape(s) && WorkInv(s) && PauseInv(s) && Enabled(s, e)
    ensures Shape(Step(s, e)) && WorkInv(Step(s, e))
  {
    hide PauseInv, Distinct, AllFor;
    StepPause(s, e);
    match e
    case HandleEvents(t) => HandleEventsWork(s, t);
    case RunOnCpu(c, item) => RunOnCpuWork(s, c, item);
    case Requester(_) => SameWork(s, Step(s, e));
    case EnterGuest(_) => SameWork(s, Step(s, e));
    case LeaveGuest(_) => SameWork(s, Step(s, e));
    case AskPause => SameWork(s, Step(s, e));
    case PauseReturns => SameWork(s, Step(s, e));
    case Resume => SameWork(s, Step(s, e));
    case SetRunning(_) => SameWork(s, Step(s, e));
    case StopSelf(_) => SameWork(s, Step(s, e));
  }

  lemma SameWork(s: System, s': System)
    requires Shape(s) && Shape(s') && WorkInv(s) && s'.cpus == s.cpus
    requires s'.queue == s.queue && s'.ran == s.ran && s'.queued == s.queued && s'.target == s.target
    requires forall item <- s'.resumed :: item in s.resumed ||
               (item in s.target && s.target[item] in s.cpus && item in s.ran[s.target[item]])
    ensures WorkInv(s')
  {
    hide Distinct, AllFor;
    forall c | c in s.cpus ensures CpuWork(s', c) {
      assert CpuWork(s, c);
    }
  }

  ghost predicate Runs(s: System, events: seq<Event>, s': System)
    decreases |events|
  {
    if events == [] then s == s'
    else Shape(s) && Enabled(s, events[0]) && Runs(Step(s, events[0]), events[1..], s')
  }

  /** All CPUs stopped or running, nothing queued yet. */
  ghost predicate Init(s: System) {
    && Shape(s) && s.inGuest == {} && s.pause == Running && s.target == map[] && s.resumed == {}
    && forall c <- s.cpus :: s.queue[c] == s.ran[c] == s.queued[c] == []
  }

  lemma {:induction false} RunInv(s: System, events: seq<Event>, s': System)
    requires Shape(s) && PauseInv(s) && WorkInv(s) && Runs(s, events, s')
    ensures Shape(s') && PauseInv(s') && WorkInv(s') && s'.cpus == s.cpus
    decreases |events|
  {
    hide PauseInv, WorkInv, Enabled;
    if events != [] {
      StepPauseKept(s, events[0]);
      StepWork(s, events[0]);
      RunInv(Step(s, events[0]), events[1..], s');
    }
  }

  lemma StepPauseKept(s: System, e: Event)
    requires Shape(s) && PauseInv(s) && Enabled(s, e)
    ensures e.RunOnCpu? ==> e.c in s.cpus
    ensures Shape(Step(s, e)) && PauseInv(Step(s, e)) && Step(s, e).cpus == s.cpus
  {
    StepPause(s, e);
  }

  /** Pause safety: in every interleaving, from the return of pause_all_vcpus until
      resume_all_vcpus no CPU is in guest code, and none can enter it. */
  lemma PausedMeansIdle(s0: System, events: seq<Event>, s: System)
    requires Init(s0) && Runs(s0, events, s) && s.pause == Paused
    ensures s.inGuest == {} && forall c :: !Enabled(s, EnterGuest(c))
  {
    RunInv(s0, events, s);
  }

  // ---- what the events alone say ---------------------------------------------------

  /** The items run_on_cpu was called with for CPU c, in order. */
  function QueuedFor(events: seq<Event>, c: Cpu): seq<Item> {
    if events == [] then []
    else
      var before, e := QueuedFor(events[..|events| - 1], c), events[|events| - 1];
      if e.RunOnCpu? && e.c == c then before + [e.item] else before
  }

  /** Those among them that came before thread t last handled its events. */
  function RunFor(events: seq<Event>, c: Cpu, t: nat): seq<Item> {
    if events == [] then []
    else
      var n := |events| - 1;
      if events[n] == HandleEvents(t) then QueuedFor(events[..n], c) else RunFor(events[..n], c, t)
  }

  /** A stop was asked for and neither handled since nor taken back. */
  predicate StopAsked(events: seq<Event>, c: Cpu, t: nat, first: bool) {
    if events == [] then first
    else
      match events[|events| - 1]
      case AskPause => true
      case StopSelf(d) => c == d || StopAsked(events[..|events| - 1], c, t, first)
      case Resume => false
      case HandleEvents(u) => t != u && StopAsked(events[..|events| - 1], c, t, first)
      case _ => StopAsked(events[..|events| - 1], c, t, first)
  }

  /** Since the last resume, thread t has handled a request for c to stop. */
  predicate HasStopped(events: seq<Event>, c: Cpu, t: nat, asked: bool, first: bool) {
    if events == [] then first
    else
      var past := events[..|events| - 1];
      match events[|events| - 1]
      case Resume => false
      case HandleEvents(u) => (t == u && StopAsked(past, c, t, asked)) || HasStopped(past, c, t, asked, first)
      case _ => HasStopped(past, c, t, asked, first)
  }

  /** CPU c has entered guest code and not left it. */
  predicate HasEntered(events: seq<Event>, c: Cpu) {
    events != [] &&
    match events[|events| - 1]
    case EnterGuest(d) => c == d || HasEntered(events[..|events| - 1], c)
    case LeaveGuest(d) => c != d && HasEntered(events[..|events| - 1], c)
    case _ => HasEntered(events[..|events| - 1], c)
  }

  /** How far the last pause has got. */
  function PauseAfter(events: seq<Event>): Pause {
    if events == [] then Running
    else
      match events[|events| - 1]
      case AskPause => Pausing
      case PauseReturns => Paused
      case Resume => Running
      case _ => PauseAfter(events[..|events| - 1])
  }

  predicate RunningAfter(events: seq<Event>, first: bool) {
    if events == [] then first
    else if events[|events| - 1].SetRunning? then events[|events| - 1].on
    else RunningAfter(events[..|events| - 1], first)
  }

  predicate FlagsFollow(events: seq<Event>, c: Cpu, t: nat, asked: bool, first: bool,
                        stop: bool, stopped: bool, inGuest: bool)
  {
    && stop == StopAsked(events, c, t, asked)
    && stopped == HasStopped(events, c, t, asked, first)
    && inGuest == HasEntered(events, c)
  }

  /** CPU c is in the state the events since s0 make it. */
  ghost predicate CpuFollows(s0: System, events: seq<Event>, s: System, c: Cpu)
    requires Shape(s0) && Shape(s) && s.cpus == s0.cpus && c in s.cpus
  {
    var t := s0.thread[c];
    && s.thread[c] == t
    && s.queued[c] == QueuedFor(events, c) && s.ran[c] == RunFor(events, c, t)
    && FlagsFollow(events, c, t, c in s0.stop, c in s0.stopped, c in s.stop, c in s.stopped, c in s.inGuest)
  }

  /** Exactly these requesters went on. */
  ghost predicate WentOn(events: seq<Event>, resumed: set<Item>) {
    forall item :: item in resumed <==> Requester(item) in events
  }

  ghost predicate Follows(s0: System, events: seq<Event>, s: System) {
    && Shape(s0) && Shape(s) && s.cpus == s0.cpus
    && (forall c <- s.cpus :: CpuFollows(s0, events, s, c))
    && s.pause == PauseAfter(events) && s.vmRunning == RunningAfter(events, s0.vmRunning)
    && WentOn(events, s.resumed)
  }

  lemma WorkSnoc(events: seq<Event>, e: Event, c: Cpu, t: nat)
    ensures QueuedFor(events + [e], c) ==
              if e.RunOnCpu? && e.c == c then QueuedFor(events, c) + [e.item] else QueuedFor(events, c)
    ensures RunFor(events + [e], c, t) == if e == HandleEvents(t) then QueuedFor(events, c) else RunFor(events, c, t)
  {
    assert (events + [e])[..|events|] == events;
  }

  /** What an event does to a stop request for c, to its stopped flag and to its being in the guest. */
  predicate StopAfter(e: Event, c: Cpu, t: nat, stop: bool) {
    e == AskPause || e == StopSelf(c) || (e != Resume && e != HandleEvents(t) && stop)
  }

  predicate StoppedAfter(e: Event, t: nat, stop: bool, stopped: bool) {
    (e == HandleEvents(t) && stop) || (e != Resume && stopped)
  }

  predicate InGuestAfter(e: Event, c: Cpu, inGuest: bool) {
    e == EnterGuest(c) || (e != LeaveGuest(c) && inGuest)
  }

  lemma FlagsSnoc(events: seq<Event>, e: Event, c: Cpu, t: nat, asked: bool, first: bool,
                  stop: bool, stopped: bool, inGuest: bool)
    requires FlagsFollow(events, c, t, asked, first, stop, stopped, inGuest)
    ensures FlagsFollow(events + [e], c, t, asked, first,
                        StopAfter(e, c, t, stop), StoppedAfter(e, t, stop, stopped), InGuestAfter(e, c, inGuest))
  {
    assert (events + [e])[..|events|] == events;
  }

  /** What a step does to the work of one CPU. */
  lemma WorkAt(s: System, e: Event, c: Cpu)
    requires Shape(s) && c in s.cpus && (e.RunOnCpu? ==> e.c in s.cpus)
    requires Shape(Step(s, e)) && Step(s, e).cpus == s.cpus
    ensures Step(s, e).thread == s.thread
    ensures Step(s, e).queued[c] == if e.RunOnCpu? && e.c == c then s.queued[c] + [e.item] else s.queued[c]
    ensures Step(s, e).ran[c] == if e == HandleEvents(s.thread[c]) then s.ran[c] + s.queue[c] else s.ran[c]
  {
  }

  /** What a step does to the flags of one CPU. */
  lemma StopAt(s: System, e: Event, c: Cpu)
    requires Shape(s) && c in s.cpus && (e.RunOnCpu? ==> e.c in s.cpus)
    ensures c in Step(s, e).stop <==> StopAfter(e, c, s.thread[c], c in s.stop)
  {
  }

  lemma StoppedAt(s: System, e: Event, c: Cpu)
    requires Shape(s) && c in s.cpus && (e.RunOnCpu? ==> e.c in s.cpus)
    ensures c in Step(s, e).stopped <==> StoppedAfter(e, s.thread[c], c in s.stop, c in s.stopped)
    ensures c in Step(s, e).inGuest <==> InGuestAfter(e, c, c in s.inGuest)
  {
  }

  lemma CpuStepFollows(s0: System, events: seq<Event>, s: System, e: Event, c: Cpu)
    requires Shape(s0) && Shape(s) && s.cpus == s0.cpus && c in s.cpus && CpuFollows(s0, events, s, c)
    requires CpuWork(s, c) && (e.RunOnCpu? ==> e.c in s.cpus)
    requires Shape(Step(s, e)) && Step(s, e).cpus == s.cpus
    ensures CpuFollows(s0, events + [e], Step(s, e), c)
  {
    hide Step, Distinct, AllFor, QueuedFor, RunFor, FlagsFollow, StopAfter, StoppedAfter, InGuestAfter;
    WorkAt(s, e, c);
    StopAt(s, e, c);
    StoppedAt(s, e, c);
    var t := s0.thread[c];
    WorkSnoc(events, e, c, t);
    FlagsSnoc(events, e, c, t, c in s0.stop, c in s0.stopped, c in s.stop, c in s.stopped, c in s.inGuest);
  }

  lemma CpusFollow(s0: System, events: seq<Event>, s: System, e: Event)
    requires Shape(s0) && Shape(s) && s.cpus == s0.cpus && (forall c <- s.cpus :: CpuFollows(s0, events, s, c))
    requires (forall c <- s.cpus :: CpuWork(s, c)) && (e.RunOnCpu? ==> e.c in s.cpus)
    requires Shape(Step(s, e)) && Step(s, e).cpus == s.cpus
    ensures forall c <- s.cpus :: CpuFollows(s0, events + [e], Step(s, e), c)
  {
    hide CpuFollows, CpuWork, Step;
    forall c | c in s.cpus ensures CpuFollows(s0, events + [e], Step(s, e), c) {
      assert CpuWork(s, c);
      CpuStepFollows(s0, events, s, e, c);
    }
  }

  lemma StepFollows(s0: System, events: seq<Event>, s: System, e: Event)
    requires Follows(s0, events, s) && WorkInv(s) && PauseInv(s) && Enabled(s, e)
    ensures (e.RunOnCpu? ==> e.c in s.cpus) && Follows(s0, events + [e], Step(s, e))
  {
    hide CpuFollows, CpuWork, PauseInv, Enabled, Step, PauseAfter, RunningAfter, WentOn;
    StepPauseKept(s, e);
    CpusFollow(s0, events, s, e);
    PhaseFollows(s, events, e, s0.vmRunning);
    ResumedAt(s, e);
    WentOnSnoc(events, e, s.resumed);
  }

  lemma PhaseFollows(s: System, events: seq<Event>, e: Event, first: bool)
    requires Shape(s) && (e.RunOnCpu? ==> e.c in s.cpus)
    requires s.pause == PauseAfter(events) && s.vmRunning == RunningAfter(events, first)
    ensures Step(s, e).pause == PauseAfter(events + [e]) && Step(s, e).vmRunning == RunningAfter(events + [e], first)
  {
    assert (events + [e])[..|events|] == events;
  }

  lemma ResumedAt(s: System, e: Event)
    requires Shape(s) && (e.RunOnCpu? ==> e.c in s.cpus)
    ensures Step(s, e).resumed == if e.Requester? then s.resumed + {e.item} else s.resumed
  {
  }

  lemma WentOnSnoc(events: seq<Event>, e: Event, resumed: set<Item>)
    requires WentOn(events, resumed)
    ensures WentOn(events + [e], if e.Requester? then resumed + {e.item} else resumed)
  {
    assert forall x :: x in events + [e] <==> x in events || x == e;
  }

  lemma {:induction false} RunFollows(s0: System, past: seq<Event>, s: System, events: seq<Event>, s': System)
    requires Follows(s0, past, s) && PauseInv(s) && WorkInv(s) && Runs(s, events, s')
    ensures Follows(s0, past + events, s')
    decreases |events|
  {
    hide Follows, PauseInv, WorkInv, Enabled;
    if events == [] {
      assert past + events == past;
    } else {
      StepPauseKept(s, events[0]);
      StepWork(s, events[0]);
      StepFollows(s0, past, s, events[0]);
      RunFollows(s0, past + [events[0]], Step(s, events[0]), events[1..], s');
      assert past + [events[0]] + events[1..] == past + events;
    }
  }

  /** Every flag and every list of every CPU, the pause and the resumed requesters
      are what the events make them, in every interleaving. */
  lemma EventsDecide(s0: System, events: seq<Event>, s: System)
    requires Init(s0) && Runs(s0, events, s)
    ensures Follows(s0, events, s)
  {
    hide Runs, Step, Enabled;
    RunFollows(s0, [], s0, events, s);
    assert [] + events == events;
  }

  /** Work safety: per CPU items run in the order they were queued, none twice;
      those have run that were queued before the thread last handled its events;
      a requester goes on only after its item has run. */
  lemma WorkRunsOnceInOrder(s0: System, events: seq<Event>, s: System, c: Cpu)
    requires Init(s0) && Runs(s0, events, s) && c in s.cpus
    ensures Shape(s) && s.queued[c] == QueuedFor(events, c) && s.ran[c] == RunFor(events, c, s.thread[c])
    ensures s.ran[c] <= s.queued[c] && Distinct(s.ran[c])
    ensures forall item <- s.resumed :: item in s.target && s.target[item] in s.cpus && item in s.ran[s.target[item]]
  {
    hide QueuedFor, RunFor, FlagsFollow, PauseAfter, RunningAfter;
    RunInv(s0, events, s);
    EventsDecide(s0, events, s);
    assert CpuFollows(s0, events, s, c);
    assert CpuWork(s, c);
    assert forall i :: 0 <= i < |s.ran[c]| ==> s.ran[c][i] == s.queued[c][i];
  }

  /** No work is left behind: a CPU with queued work keeps its thread awake, and
      once the thread handles its events everything that was ever queued for the
      CPU has run and every requester may go on. */
  lemma HandlingRunsAll(s0: System, events: seq<Event>, s: System, c: Cpu, awake: bool)
    requires Init(s0) && Runs(s0, events, s) && c in s.cpus
    ensures Shape(s) && (s.queue[c] != [] ==> HasWork(s, c, awake))
    ensures var s' := Step(s, HandleEvents(s.thread[c]));
            && Shape(s') && s'.cpus == s.cpus && s'.ran[c] == s'.queued[c] == QueuedFor(events, c) && s'.queue[c] == []
            && forall item <- QueuedFor(events, c) :: Enabled(s', Requester(item))
  {
    hide Step, Enabled, QueuedFor, RunFor, Distinct, Init, Runs, PauseInv;
    RunInvFromInit(s0, events, s);
    WorkRunsOnceInOrder(s0, events, s, c);
    assert CpuWork(s, c);
    FlushedAt(s, c);
    var s' := Step(s, HandleEvents(s.thread[c]));
    forall item | item in QueuedFor(events, c) ensures Enabled(s', Requester(item)) {
      MayGoOn(s', c, item);
    }
  }

  lemma RunInvFromInit(s0: System, events: seq<Event>, s: System)
    requires Init(s0) && Runs(s0, events, s)
    ensures Shape(s) && PauseInv(s) && WorkInv(s) && s.cpus == s0.cpus
  {
    RunInv(s0, events, s);
  }

  lemma FlushedAt(s: System, c: Cpu)
    requires Shape(s) && c in s.cpus
    ensures var s' := Step(s, HandleEvents(s.thread[c]));
            && Shape(s') && s'.cpus == s.cpus && s'.target == s.target && s'.queued == s.queued
            && s'.ran[c] == s.ran[c] + s.queue[c] && s'.queue[c] == []
  {
  }

  lemma MayGoOn(s: System, c: Cpu, item: Item)
    requires Shape(s) && c in s.cpus && item in s.target && s.target[item] == c && item in s.ran[c]
    ensures Enabled(s, Requester(item))
  {
  }

  /** A CPU may enter guest code exactly if the machine runs, no stop is asked of the
      CPU or in force, and no CPU of its thread is in guest code. */
  lemma MayEnterExactly(s0: System, events: seq<Event>, s: System, c: Cpu)
    requires Init(s0) && Runs(s0, events, s) && c in s.cpus
    ensures Shape(s) && Shape(s0) && s.cpus == s0.cpus
    ensures Enabled(s, EnterGuest(c)) <==>
              && RunningAfter(events, s0.vmRunning)
              && !StopAsked(events, c, s0.thread[c], c in s0.stop)
              && !HasStopped(events, c, s0.thread[c], c in s0.stop, c in s0.stopped)
              && forall o <- s.cpus :: HasEntered(events, o) ==> s0.thread[o] != s0.thread[c]
  {
    hide Runs, Step, QueuedFor, RunFor, StopAsked, HasStopped, HasEntered, RunningAfter, PauseAfter, WentOn;
    EventsDecide(s0, events, s);
    forall o | o in s.cpus ensures s.thread[o] == s0.thread[o] && (o in s.inGuest <==> HasEntered(events, o)) {
      assert CpuFollows(s0, events, s, o);
    }
    assert CpuFollows(s0, events, s, c);
  }

  /** A pause may be asked for, and taken back, exactly while none is on its way; it
      returns exactly once every CPU has stopped. */
  lemma MayPauseExactly(s0: System, events: seq<Event>, s: System)
    requires Init(s0) && Runs(s0, events, s)
    ensures Shape(s0) && (Enabled(s, AskPause) <==> PauseAfter(events) != Pausing)
    ensures Enabled(s, Resume) <==> PauseAfter(events) != Pausing
    ensures Enabled(s, PauseReturns) <==>
              && PauseAfter(events) == Pausing
              && forall c <- s0.cpus :: HasStopped(events, c, s0.thread[c], c in s0.stop, c in s0.stopped)
  {
    hide Runs, Step, QueuedFor, RunFor, StopAsked, HasStopped, HasEntered, RunningAfter, PauseAfter, WentOn;
    EventsDecide(s0, events, s);
    forall c | c in s.cpus ensures c in s.stopped <==> HasStopped(events, c, s0.thread[c], c in s0.stop, c in s0.stopped) {
      assert CpuFollows(s0, events, s, c);
    }
  }

  /** A thread may sleep over a CPU exactly if no stop is asked of it, all work queued
      for it has run, and it is stopped, the machine is, or it is not awake itself. */
  lemma SleepsExactly(s0: System, events: seq<Event>, s: System, c: Cpu, awake: bool)
    requires Init(s0) && Runs(s0, events, s) && c in s.cpus
    ensures Shape(s) && Shape(s0) && s.cpus == s0.cpus
    ensures !HasWork(s, c, awake) <==>
              && !StopAsked(events, c, s0.thread[c], c in s0.stop)
              && RunFor(events, c, s0.thread[c]) == QueuedFor(events, c)
              && (|| HasStopped(events, c, s0.thread[c], c in s0.stop, c in s0.stopped)
                  || !RunningAfter(events, s0.vmRunning) || !awake)
  {
    hide Runs, Step, QueuedFor, RunFor, StopAsked, HasStopped, HasEntered, RunningAfter, PauseAfter, WentOn, Distinct, AllFor;
    RunInvFromInit(s0, events, s);
    EventsDecide(s0, events, s);
    assert CpuFollows(s0, events, s, c) && CpuWork(s, c);
  }

  /** After resume_all_vcpus every CPU can run again, as far as the machine runs. */
  lemma ResumedCanRun(s0: System, events: seq<Event>, s: System, c: Cpu)
    requires Init(s0) && Runs(s0, events + [Resume], s) && c in s.cpus
    ensures CanRun(s, c) <==> RunningAfter(events, s0.vmRunning)
  {
    EventsDecide(s0, events + [Resume], s);
    assert (events + [Resume])[..|events|] == events;
    assert CpuFollows(s0, events + [Resume], s, c);
  }

  /** A pause cannot get stuck on a lost request: while some CPU is not stopped,
      one still has its stop request, its thread leaves its wait for it, and
      handling it stops at least one more CPU. */
  lemma PauseProgress(s0: System, events: seq<Event>, s: System, awake: bool) returns (c: Cpu)
    requires Init(s0) && Runs(s0, events, s) && s.pause == Pausing && !Enabled(s, PauseReturns)
    ensures Shape(s) && c in s.cpus && c !in s.stopped && HasWork(s, c, awake)
    ensures var s' := Step(s, HandleEvents(s.thread[c]));
            s.stopped < s'.stopped && c in s'.stopped
  {
    RunInv(s0, events, s);
    c :| c in s.cpus && c !in s.stopped;
  }

  /** A pause can always be brought to its end: from every state with one on its way,
      CPUs leaving guest code and threads handling their events lead to its return. */
  lemma PauseCompletes(s0: System, events: seq<Event>, s: System) returns (more: seq<Event>, s': System)
    requires Init(s0) && Runs(s0, events, s) && s.pause == Pausing
    ensures Runs(s, more, s') && s'.pause == Paused
    ensures forall e <- more :: e.LeaveGuest? || e.HandleEvents? || e.PauseReturns?
  {
    RunInvFromInit(s0, events, s);
    more, s' := CanPause(s);
  }

  /** The same from any state that keeps the invariants. */
  lemma {:induction false} CanPause(s: System) returns (more: seq<Event>, s': System)
    requires Shape(s) && PauseInv(s) && s.pause == Pausing
    ensures Runs(s, more, s') && s'.pause == Paused
    ensures forall e <- more :: e.LeaveGuest? || e.HandleEvents? || e.PauseReturns?
    decreases |s.cpus - s.stopped|, |s.inGuest|
  {
    hide Runs, Step, Enabled, PauseInv;
    if s.inGuest == {} && s.cpus <= s.stopped {
      PauseEnds(s);
      more, s' := [PauseReturns], Step(s, PauseReturns);
    } else {
      var e := TowardsPause(s);
      var rest;
      rest, s' := CanPause(Step(s, e));
      more := [e] + rest;
      RunsCons(s, e, rest, s');
    }
  }

  lemma PauseEnds(s: System)
    requires Shape(s) && s.pause == Pausing && s.cpus <= s.stopped
    ensures Runs(s, [PauseReturns], Step(s, PauseReturns)) && Step(s, PauseReturns).pause == Paused
  {
    assert Runs(Step(s, PauseReturns), [], Step(s, PauseReturns));
  }

  /** A step that brings a pause nearer to its end. */
  lemma TowardsPause(s: System) returns (e: Event)
    requires Shape(s) && PauseInv(s) && s.pause == Pausing && (s.inGuest != {} || !(s.cpus <= s.stopped))
    ensures (e.LeaveGuest? || e.HandleEvents?) && Enabled(s, e)
    ensures var s' := Step(s, e);
            && Shape(s') && PauseInv(s') && s'.pause == Pausing
            && (|s'.cpus - s'.stopped| < |s.cpus - s.stopped| ||
                (s'.cpus - s'.stopped == s.cpus - s.stopped && |s'.inGuest| < |s.inGuest|))
  {
    hide Step, Enabled, PauseInv;
    if s.inGuest != {} {
      var c :| c in s.inGuest;
      e := LeaveGuest(c);
      Left(s, c);
    } else {
      var c :| c in s.cpus && c !in s.stopped;
      e := HandleEvents(s.thread[c]);
      Handled(s, c);
    }
    StepPause(s, e);
  }

  lemma Left(s: System, c: Cpu)
    requires Shape(s) && s.pause == Pausing && c in s.inGuest
    ensures var s' := Step(s, LeaveGuest(c));
            && Enabled(s, LeaveGuest(c)) && s'.pause == Pausing && s'.cpus == s.cpus && s'.stopped == s.stopped
            && |s'.inGuest| < |s.inGuest|
  {
    assert s.inGuest == (s.inGuest - {c}) + {c};
  }

  lemma Handled(s: System, c: Cpu)
    requires Shape(s) && PauseInv(s) && s.pause == Pausing && s.inGuest == {} && c in s.cpus && c !in s.stopped
    ensures var e := HandleEvents(s.thread[c]);
            && Enabled(s, e) && Step(s, e).pause == Pausing && Step(s, e).cpus == s.cpus
            && |s.cpus - Step(s, e).stopped| < |s.cpus - s.stopped|
  {
    var s' := Step(s, HandleEvents(s.thread[c]));
    assert c in s'.stopped && s.stopped <= s'.stopped;
    Fewer(s.cpus - s'.stopped, s.cpus - s.stopped, c);
  }

  lemma Fewer(a: set<Cpu>, b: set<Cpu>, c: Cpu)
    requires a <= b && c in b && c !in a
    ensures |a| < |b|
  {
    assert b == a + (b - a) && c in b - a;
  }

  lemma RunsCons(s: System, e: Event, rest: seq<Event>, s': System)
    requires Shape(s) && Enabled(s, e) && (e.RunOnCpu? ==> e.c in s.cpus) && Runs(Step(s, e), rest, s')
    ensures Runs(s, [e] + rest, s')
  {
    assert ([e] + rest)[1..] == rest;
  }

  // ---- the code -------------------------------------------------------------------

  /** struct qemu_work_item: run stands for the effect of func(data). */
  class WorkItem {
    const id: Item
    var next: WorkItem?
    var done: bool

    constructor (id: Item)
      ensures this.id == id && next == null && !done
    {
      this.id, next, done := id, null, false;
    }
  }

  /** The work queue of a CPU: a list with a first and a last pointer. */
  class WorkQueue {
    var first: WorkItem?
    var last: WorkItem?
    ghost var items: seq<WorkItem>
    var ran: seq<Item>

    ghost predicate Valid()
      reads this, items
    {
      && (forall i, j :: 0 <= i < j < |items| ==> items[i] != items[j])
      && (first == if items == [] then null else items[0])
      && (items != [] ==> last == items[|items| - 1] && items[|items| - 1].next == null)
      && (forall i :: 0 <= i < |items| - 1 ==> items[i].next == items[i + 1])
      && (forall i :: 0 <= i < |items| ==> !items[i].done)
    }

    constructor ()
      ensures Valid() && items == [] && ran == []
    {
      first, last, items, ran := null, null, [], [];
    }

    /** The list agrees with the work of CPU c in a state of the transition system. */
    ghost predicate Shows(s: System, c: Cpu)
      reads this, items
    {
      Shape(s) && c in s.cpus && Ids(items) == s.queue[c] && ran == s.ran[c]
    }

    /** The queueing part of run_on_cpu. */
    method Queue(wi: WorkItem, ghost s: System, ghost c: Cpu)
      requires Valid() && wi !in items && Shows(s, c)
      modifies this, items, wi
      ensures Valid() && items == old(items) + [wi] && ran == old(ran)
      ensures Shows(Step(s, RunOnCpu(c, wi.id)), c)
    {
      if first == null {
        first := wi;
      } else {
        last.next := wi;
      }
      last := wi;
      wi.next := null;
      wi.done := false;
      items := items + [wi];
    }

    /** One turn of flush_queued_work: the first item leaves the list, runs, is done. */
    method RunFirst() returns (wi: WorkItem)
      requires Valid() && first != null
      modifies this, items
      ensures old(items) != [] && wi == old(items)[0] && Valid() && items == old(items)[1..]
      ensures ran == old(ran) + [wi.id] && wi.done
    {
      wi := first;
      first := wi.next;
      items := items[1..];
      ran := ran + [wi.id];
      wi.done := true;
    }

    /** flush_queued_work: runs the items in order until the list is empty. */
    method Flush(ghost s: System, ghost c: Cpu)
      requires Valid() && Shows(s, c)
      modifies this, items
      ensures Valid() && items == [] && first == null && last == null
      ensures ran == old(ran) + Ids(old(items))
      ensures Shows(Step(s, HandleEvents(s.thread[c])), c)
    {
      hide Ids;
      ghost var all, n := items, 0;
      IdsNone();
      assert all[..0] == [];
      while first != null
        invariant 0 <= n <= |all| && items == all[n..] && Valid()
        invariant ran == old(ran) + Ids(all[..n])
        decreases |all| - n
      {
        IdsSnoc(all, n);
        var wi := RunFirst();
        n := n + 1;
      }
      assert all[..n] == all;
      last := null;
    }
  }

  /** The stop flags of all CPUs, in list order. */
  class StopFlags {
    const stop: array<bool>
    const stopped: array<bool>

    ghost predicate Valid() {
      stop.Length == stopped.Length && stop != stopped
    }

    constructor (stop: array<bool>, stopped: array<bool>)
      requires stop.Length == stopped.Length && stop != stopped
      ensures Valid() && this.stop == stop && this.stopped == stopped
    {
      this.stop, this.stopped := stop, stopped;
    }

    ghost function Flagged(a: array<bool>): set<Cpu>
      reads a
    {
      set c: Cpu | c < a.Length && a[c]
    }

    /** The flags agree with a state of the transition system. */
    ghost predicate Shows(s: System)
      reads stop, stopped
    {
      (forall c: Cpu :: c in s.cpus <==> c < stop.Length) && s.stop == Flagged(stop) && s.stopped == Flagged(stopped)
    }

    /** The request loop of pause_all_vcpus. */
    method AskPause(ghost s: System)
      requires Valid() && Shape(s) && Shows(s)
      modifies stop
      ensures Shows(Step(s, Event.AskPause))
    {
      var c := 0;
      while c < stop.Length
        invariant 0 <= c <= stop.Length
        invariant forall i :: 0 <= i < c ==> stop[i]
        invariant Flagged(stopped) == s.stopped
      {
        stop[c] := true;
        c := c + 1;
      }
      assert Flagged(stop) == s.stop + s.cpus;
    }

    /** all_vcpus_paused: whether pause_all_vcpus may return. */
    method AllPaused(ghost s: System) returns (r: bool)
      requires Valid() && Shape(s) && Shows(s)
      ensures r <==> s.cpus <= s.stopped
    {
      var c := 0;
      while c < stopped.Length
        invariant 0 <= c <= stopped.Length
        invariant forall i :: 0 <= i < c ==> stopped[i]
      {
        if !stopped[c] {
          assert c in s.cpus && c !in s.stopped;
          return false;
        }
        c := c + 1;
      }
      r := true;
    }

    /** resume_all_vcpus */
    method Resume(ghost s: System)
      requires Valid() && Shape(s) && Shows(s)
      modifies stop, stopped
      ensures Shows(Step(s, Event.Resume))
    {
      var c := 0;
      while c < stop.Length
        invariant 0 <= c <= stop.Length
        invariant forall i :: 0 <= i < c ==> !stop[i] && !stopped[i]
      {
        stop[c], stopped[c] := false, false;
        c := c + 1;
      }
      assert Flagged(stop) == {} && Flagged(stopped) == {};
    }

    /** The stop handling of qemu_wait_io_event_common, for the CPUs [from, to) of one thread. */
    method HandleStops(ghost s: System, ghost t: nat, from: nat, to: nat)
      requires Valid() && Shape(s) && Shows(s) && from <= to <= stop.Length
      requires forall c: Cpu :: c in s.cpus ==> (s.thread[c] == t <==> from <= c < to)
      modifies stop, stopped
      ensures Shows(Step(s, HandleEvents(t)))
    {
      var c := from;
      while c < to
        invariant from <= c <= to
        invariant forall i :: 0 <= i < stop.Length ==> stop[i] == (old(stop[i]) && !(from <= i < c))
        invariant forall i :: 0 <= i < stop.Length ==> stopped[i] == (old(stopped[i]) || (from <= i < c && old(stop[i])))
      {
        if stop[c] {
          stop[c] := false;
          stopped[c] := true;
        }
        c := c + 1;
      }
      ghost var mine := set c | c in s.cpus && s.thread[c] == t;
      assert Flagged(stop) == s.stop - mine;
      assert Flagged(stopped) == s.stopped + (s.stop * mine);
    }
  }

  lemma IdsNone()
    ensures Ids([]) == []
  {
  }

  ghost function Ids(items: seq<WorkItem>): seq<Item> {
    seq(|items|, i requires 0 <= i < |items| => items[i].id)
  }

  lemma IdsSnoc(all: seq<WorkItem>, n: nat)
    requires n < |all|
    ensures Ids(all[..n + 1]) == Ids(all[..n]) + [all[n].id]
  {
  }
}
