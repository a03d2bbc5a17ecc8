/** The drift-check scheduler: an on/off state machine around a repeating timer, and the
    pass that queues one drift job per project.

    Timers are handles the runtime hands out; the project listing and the outcome of each
    `addDriftJob` call are parameters of the pass, and the jobs the pass asks for are
    recorded in `calls`. */
module SchedulerService {
  import opened Options

  /** `DRIFT_CHECK_INTERVAL_MS` read as a number (`None` when unset or not a number);
      zero and `NaN` fall back to fifteen minutes. */
  function DefaultIntervalMs(configured: Option<int>): (ms: int)
    ensures configured.None? || configured.value == 0 ==> ms == 15 * 60 * 1000
    ensures configured.Some? && configured.value != 0 ==> ms == configured.value
  {
    if configured.Some? && configured.value != 0 then configured.value else 15 * 60 * 1000
  }

  /** A registered `setInterval` timer. */
  datatype Timer = Timer(handle: nat, intervalMs: int)

  // ---------------------------------------------------------------------------
  // One enqueue pass
  // ---------------------------------------------------------------------------

  /** The position of the first project whose job cannot be queued, or the length. */
  function FirstFailure(ids: seq<string>, fails: string -> bool): (k: nat)
    ensures k <= |ids|
    ensures k < |ids| ==> fails(ids[k])
    ensures forall j :: 0 <= j < k ==> !fails(ids[j])
  {
    if ids == [] then 0
    else if fails(ids[0]) then 0
    else 1 + FirstFailure(ids[1..], fails)
  }

  /** The `addDriftJob` calls one pass makes: none when the listing throws; else one per
      listed project, in order, up to and including the first call that throws. */
  function EnqueuePass(listing: Option<seq<string>>, fails: string -> bool): seq<string> {
    if listing.None? then []
    else
      var k := FirstFailure(listing.value, fails);
      if k < |listing.value| then listing.value[..k + 1] else listing.value
  }

  /** A pass queues the listed projects in listing order and stops at the first failure,
      which it swallows; when nothing fails, every project is queued exactly once. */
  lemma EnqueuePassRules(listing: Option<seq<string>>, fails: string -> bool)
    ensures listing.None? ==> EnqueuePass(listing, fails) == []
    ensures listing.Some? ==>
      var calls := EnqueuePass(listing, fails);
      && |calls| <= |listing.value| && calls == listing.value[..|calls|]
      && (forall j :: 0 <= j < |calls| - 1 ==> !fails(calls[j]))
      && (|calls| < |listing.value| ==> |calls| > 0 && fails(calls[|calls| - 1]))
    ensures listing.Some? && (forall j :: 0 <= j < |listing.value| ==> !fails(listing.value[j])) ==>
      EnqueuePass(listing, fails) == listing.value
  {
    if listing.Some? {
      var k := FirstFailure(listing.value, fails);
      if k == |listing.value| {
        assert listing.value[..|listing.value|] == listing.value;
      }
    }
  }

  // ---------------------------------------------------------------------------
  // The state machine
  // ---------------------------------------------------------------------------

  /** The scheduler's fields: the flag, the registered timer, the jobs requested so far and
      the timers cleared so far. */
  datatype State = State(running: bool, intervalId: Option<Timer>, calls: seq<string>, cleared: seq<Timer>)

  /** A timer is registered exactly while the scheduler runs. */
  predicate Consistent(s: State) {
    s.running <==> s.intervalId.Some?
  }

  /** `start`: nothing while running; else registers the timer, sets the flag and runs one
      pass straight away. */
  function Started(s: State, timer: Timer, listing: Option<seq<string>>, fails: string -> bool): State {
    if s.running then s
    else s.(intervalId := Some(timer), running := true, calls := s.calls + EnqueuePass(listing, fails))
  }

  /** `stop`: nothing while stopped; else clears the timer and drops the flag. */
  function Stopped(s: State): State {
    if !s.running then s
    else
      var cleared := if s.intervalId.Some? then s.cleared + [s.intervalId.value] else s.cleared;
      s.(intervalId := None, running := false, cleared := cleared)
  }

  /** `start` and `stop` keep the timer registered exactly while running; starting twice is
      starting once, stopping twice is stopping once, and stopping a started scheduler
      clears the very timer that start registered. */
  lemma StateMachineRules(s: State, timer: Timer, listing: Option<seq<string>>, fails: string -> bool,
                          timer2: Timer, listing2: Option<seq<string>>)
    requires Consistent(s)
    ensures Consistent(Started(s, timer, listing, fails)) && Consistent(Stopped(s))
    ensures Started(s, timer, listing, fails).running && !Stopped(s).running
    ensures var t := Started(s, timer, listing, fails); Started(t, timer2, listing2, fails) == t
    ensures Stopped(Stopped(s)) == Stopped(s)
    ensures !s.running ==>
      var u := Stopped(Started(s, timer, listing, fails));
      && u.cleared == s.cleared + [timer] && u.intervalId.None?
      && u.calls == s.calls + EnqueuePass(listing, fails)
  {
  }

  // ---------------------------------------------------------------------------
  // The service object
  // ---------------------------------------------------------------------------

  class Scheduler {
    var intervalId: Option<Timer>
    var running: bool
    var calls: seq<string>
    var cleared: seq<Timer>

    function Snapshot(): State
      reads this
    {
      State(running, intervalId, calls, cleared)
    }

    ghost predicate Valid()
      reads this
    {
      Consistent(Snapshot())
    }

    constructor()
      ensures Valid() && Snapshot() == State(false, None, [], [])
    {
      intervalId := None;
      running := false;
      calls := [];
      cleared := [];
    }

    /** `start`; `timer` is the handle `setInterval` returns. */
    method Start(intervalMs: int, handle: nat, listing: Option<seq<string>>, fails: string -> bool)
      requires Valid()
      modifies this
      ensures Valid()
      ensures Snapshot() == Started(old(Snapshot()), Timer(handle, intervalMs), listing, fails)
    {
      if running {
        return;
      }
      intervalId := Some(Timer(handle, intervalMs));
      running := true;
      EnqueueAllProjects(listing, fails);
    }

    /** `start()` with no argument: the interval is the configured default. */
    method StartDefault(configured: Option<int>, handle: nat, listing: Option<seq<string>>, fails: string -> bool)
      requires Valid()
      modifies this
      ensures Valid()
      ensures Snapshot() == Started(old(Snapshot()), Timer(handle, DefaultIntervalMs(configured)), listing, fails)
    {
      Start(DefaultIntervalMs(configured), handle, listing, fails);
    }

    /** `stop`. */
    method Stop()
      requires Valid()
      modifies this
      ensures Valid()
      ensures Snapshot() == Stopped(old(Snapshot()))
    {
      if !running {
        return;
      }
      if intervalId.Some? {
        cleared := cleared + [intervalId.value];
      }
      intervalId := None;
      running := false;
    }

    /** `isRunning`. */
    method IsRunning() returns (r: bool)
      requires Valid()
      ensures r <==> running
      ensures r <==> intervalId.Some?
    {
      r := running;
    }

    /** One firing of the registered timer: a pass while a timer is registered. */
    method Tick(listing: Option<seq<string>>, fails: string -> bool)
      modifies this
      ensures old(intervalId).Some? ==> calls == old(calls) + EnqueuePass(listing, fails)
      ensures old(intervalId).None? ==> calls == old(calls)
      ensures running == old(running) && intervalId == old(intervalId) && cleared == old(cleared)
    {
      if intervalId.Some? {
        EnqueueAllProjects(listing, fails);
      }
    }

    /** `enqueueAllProjects`: lists the projects, then asks for one job each, in order; the
        first failure ends the pass and is swallowed. */
    method EnqueueAllProjects(listing: Option<seq<string>>, fails: string -> bool)
      modifies this
      ensures calls == old(calls) + EnqueuePass(listing, fails)
      ensures running == old(running) && intervalId == old(intervalId) && cleared == old(cleared)
    {
      if listing.None? {
        return;
      }
      var projects := listing.value;
      var i := 0;
      while i < |projects|
        invariant 0 <= i <= |projects|
        invariant calls == old(calls) + projects[..i]
        invariant forall j :: 0 <= j < i ==> !fails(projects[j])
        invariant running == old(running) && intervalId == old(intervalId) && cleared == old(cleared)
      {
        calls := calls + [projects[i]];
        if fails(projects[i]) {
          assert FirstFailure(projects, fails) == i by {
            FirstFailureAt(projects, fails, i);
          }
          return;
        }
        i := i + 1;
      }
      FirstFailureAt(projects, fails, |projects|);
      assert projects[..|projects|] == projects;
    }

    /** `runOnce`: exactly one pass. */
    method RunOnce(listing: Option<seq<string>>, fails: string -> bool)
      modifies this
      ensures calls == old(calls) + EnqueuePass(listing, fails)
      ensures running == old(running) && intervalId == old(intervalId) && cleared == old(cleared)
    {
      EnqueueAllProjects(listing, fails);
    }
  }

  /** The first failure is where every earlier project succeeds and this one fails (or the
      end is reached). */
  lemma {:induction false} FirstFailureAt(ids: seq<string>, fails: string -> bool, i: nat)
    requires i <= |ids|
    requires forall j :: 0 <= j < i ==> !fails(ids[j])
    requires i < |ids| ==> fails(ids[i])
    ensures FirstFailure(ids, fails) == i
  {
    if i > 0 {
      FirstFailureAt(ids[1..], fails, i - 1);
    }
  }
}
