/**
 * The timer service: it holds the current list of timers, raises a one-slot wake
 * signal when the list goes from "nothing active" to "something active", and runs
 * the display loop that drives the picture-frame device.
 *
 * The device gateway is represented only by the calls made to it. The loop's
 * view of the world (whether cancellation has been requested, whether a timer
 * is active when it asks) is supplied by two answer scripts.
 */
module TimerServices {
  import opened NamedTimers
  import opened TimerOrder
  import opened Sequences

  /** The name of the image file pushed to the device. */
  const FileName: string := "timer.gif"

  /** True iff some timer of the list is active: Any(t => t.IsActive). */
  function AnyActive(ts: seq<NamedTimer>, now: int): (r: bool)
    ensures r <==> exists i :: 0 <= i < |ts| && IsActive(ts[i], now)
  {
    if ts == [] then false
    else
      assert forall i :: 1 <= i < |ts| ==> ts[i] == ts[1..][i - 1];
      IsActive(ts[0], now) || AnyActive(ts[1..], now)
  }

  /** How a call into the service ends: normally, or by SemaphoreFullException. */
  datatype Completion = Completed | SemaphoreFullException

  /** The calls the service makes on the device gateway. */
  datatype DeviceCall =
    | UploadImage(file: string)
    | ShowImage(file: string)
    | SwitchToPhotoAlbum
    | SwitchToDefaultTheme

  /** What happened after one wake of the display loop that did not end the run. */
  datatype Cycle =
    | Spurious               // woken, but no timer was active: nothing is sent
    | Displayed(ticks: nat)  // a display cycle with this many one-second refreshes

  /** How the display loop stopped. */
  datatype Ending =
    | StopRequested                                      // seen by the outer while condition
    | CancelledWhileWaiting(reverted: bool)              // the wait for the wake signal was cancelled
    | CancelledWhileDisplaying(ticks: nat, reverted: bool) // the wait for a tick was cancelled

  /** The calls that start a display cycle. */
  function Entry(): seq<DeviceCall> {
    [UploadImage(FileName), ShowImage(FileName), SwitchToPhotoAlbum]
  }

  /** k one-second refreshes, each of which only re-uploads the image. */
  function Refreshes(k: nat): (r: seq<DeviceCall>)
    ensures |r| == k
    ensures forall i :: 0 <= i < k ==> r[i] == UploadImage(FileName)
  {
    seq(k, _ => UploadImage(FileName))
  }

  function Revert(reverted: bool): seq<DeviceCall> {
    if reverted then [SwitchToDefaultTheme] else []
  }

  function CycleCalls(c: Cycle): seq<DeviceCall> {
    match c
    case Spurious => []
    case Displayed(k) => Entry() + Refreshes(k) + [SwitchToDefaultTheme]
  }

  function CyclesCalls(cs: seq<Cycle>): seq<DeviceCall>
    decreases |cs|
  {
    if cs == [] then [] else CyclesCalls(cs[..|cs| - 1]) + CycleCalls(cs[|cs| - 1])
  }

  function EndingCalls(e: Ending): seq<DeviceCall> {
    match e
    case StopRequested => []
    case CancelledWhileWaiting(r) => Revert(r)
    case CancelledWhileDisplaying(k, r) => Entry() + Refreshes(k) + Revert(r)
  }

  /** The device calls of a whole run, cycle by cycle. */
  function RunCalls(cs: seq<Cycle>, e: Ending): seq<DeviceCall> {
    CyclesCalls(cs) + EndingCalls(e)
  }

  function Constant(k: nat, b: bool): (r: seq<bool>)
    ensures |r| == k && forall i :: 0 <= i < k ==> r[i] == b
  {
    seq(k, _ => b)
  }

  /**
   * The answers to "has cancellation been requested?" that a cycle consumes: the
   * outer while condition, the wait for the wake signal, and one per tick wait.
   */
  function CycleStops(c: Cycle): seq<bool> {
    match c
    case Spurious => [false, false]
    case Displayed(k) => [false, false] + Constant(k, false)
  }

  /**
   * The answers to "is a timer active?" that a cycle consumes: the check after the
   * wake, then one check before each tick wait and the check that ends the cycle.
   */
  function CycleChecks(c: Cycle): seq<bool> {
    match c
    case Spurious => [false]
    case Displayed(k) => [true] + Constant(k, true) + [false]
  }

  function CyclesStops(cs: seq<Cycle>): seq<bool>
    decreases |cs|
  {
    if cs == [] then [] else CyclesStops(cs[..|cs| - 1]) + CycleStops(cs[|cs| - 1])
  }

  function CyclesChecks(cs: seq<Cycle>): seq<bool>
    decreases |cs|
  {
    if cs == [] then [] else CyclesChecks(cs[..|cs| - 1]) + CycleChecks(cs[|cs| - 1])
  }

  function EndingStops(e: Ending): seq<bool> {
    match e
    case StopRequested => [true]
    case CancelledWhileWaiting(_) => [false, true]
    case CancelledWhileDisplaying(k, _) => [false, false] + Constant(k, false) + [true]
  }

  /** The last answer of a cancelled run is the activity check in the catch block. */
  function EndingChecks(e: Ending): seq<bool> {
    match e
    case StopRequested => []
    case CancelledWhileWaiting(r) => [r]
    case CancelledWhileDisplaying(k, r) => [true] + Constant(k + 1, true) + [r]
  }

  /** Answer i of the cancellation script; once the script is used up, shutdown has been requested. */
  function StopAt(stops: seq<bool>, i: nat): bool {
    i >= |stops| || stops[i]
  }

  /** Answer i of the activity script; once the script is used up, no timer is active. */
  function ActiveAt(checks: seq<bool>, i: nat): bool {
    i < |checks| && checks[i]
  }

  /** The first n answers of the cancellation script. */
  function StopAnswers(stops: seq<bool>, n: nat): (r: seq<bool>)
    ensures |r| == n && forall i :: 0 <= i < n ==> r[i] == StopAt(stops, i)
  {
    seq(n, i requires 0 <= i => StopAt(stops, i))
  }

  /** The first n answers of the activity script. */
  function CheckAnswers(checks: seq<bool>, n: nat): (r: seq<bool>)
    ensures |r| == n && forall i :: 0 <= i < n ==> r[i] == ActiveAt(checks, i)
  {
    seq(n, i requires 0 <= i => ActiveAt(checks, i))
  }

  /** The answers a run consumed are the first answers of the cancellation script. */
  predicate AgreesWithStops(answers: seq<bool>, stops: seq<bool>) {
    answers == StopAnswers(stops, |answers|)
  }

  /** The answers a run consumed are the first answers of the activity script. */
  predicate AgreesWithChecks(answers: seq<bool>, checks: seq<bool>) {
    answers == CheckAnswers(checks, |answers|)
  }

  class TimerService {
    /** The stored list, replaced wholesale by SetTimers. */
    var activeTimers: seq<NamedTimer>
    /** The wake signal, a SemaphoreSlim(0, 1): true when its count is 1. */
    var wakePending: bool

    constructor ()
      ensures activeTimers == [] && !wakePending
    {
      activeTimers := [];
      wakePending := false;
    }

    /** Whether a stored timer is active at the given instant. */
    function IsTimerActive(now: int): (r: bool)
      reads this
      ensures r <==> exists i :: 0 <= i < |activeTimers| && IsActive(activeTimers[i], now)
    {
      AnyActive(activeTimers, now)
    }

    /** SemaphoreSlim.Release on a semaphore whose maximum count is 1. */
    method ReleaseWake() returns (c: Completion)
      modifies this`wakePending
      ensures wakePending
      ensures c == SemaphoreFullException <==> old(wakePending)
    {
      if wakePending {
        c := SemaphoreFullException;
      } else {
        wakePending := true;
        c := Completed;
      }
    }

    /**
     * The worker's WaitAsync on the wake signal, once a wake is pending: it takes
     * the wake and leaves the stored list alone.
     */
    method TakeWake()
      requires wakePending
      modifies this`wakePending
      ensures !wakePending
      ensures activeTimers == old(activeTimers)
    {
      wakePending := false;
    }

    /**
     * Stores the timers ordered by end and name, and raises the wake signal on the
     * rising edge "no active timer before, some active timer after". A rising edge
     * while a wake is still pending makes Release throw; the new list is stored
     * all the same, because the swap happens first.
     */
    method SetTimers(timers: seq<NamedTimer>, now: int) returns (c: Completion)
      modifies this
      ensures activeTimers == SortTimers(timers)
      ensures Sorted(activeTimers) && multiset(activeTimers) == multiset(timers)
      ensures var edge := !AnyActive(old(activeTimers), now) && AnyActive(timers, now);
              && wakePending == (old(wakePending) || edge)
              && (c == SemaphoreFullException <==> edge && old(wakePending))
    {
      var newValue := SortTimers(timers);
      var previousValue := activeTimers;
      activeTimers := newValue;
      ActiveOfPermutation(timers, newValue, now);
      if !AnyActive(previousValue, now) && AnyActive(newValue, now) {
        c := ReleaseWake();
      } else {
        c := Completed;
      }
    }

    /** SetTimers([]): empties the list and never raises the signal. */
    method ClearTimers(now: int) returns (c: Completion)
      modifies this
      ensures activeTimers == []
      ensures wakePending == old(wakePending)
      ensures c == Completed
    {
      c := SetTimers([], now);
    }

    /**
     * SetTimers with a coalescing wake signal: a rising edge while a wake is still
     * pending leaves the single pending wake in place instead of failing. The
     * worker checks IsTimerActive after every wake, so one pending wake is enough.
     */
    method SetTimersCoalescing(timers: seq<NamedTimer>, now: int) returns (c: Completion)
      modifies this
      ensures activeTimers == SortTimers(timers)
      ensures var edge := !AnyActive(old(activeTimers), now) && AnyActive(timers, now);
              wakePending == (old(wakePending) || edge)
      ensures c == Completed
    {
      var newValue := SortTimers(timers);
      var previousValue := activeTimers;
      activeTimers := newValue;
      ActiveOfPermutation(timers, newValue, now);
      if !AnyActive(previousValue, now) && AnyActive(newValue, now) && !wakePending {
        wakePending := true;
      }
      c := Completed;
    }

    /**
     * The worker loop of ExecuteAsync. It waits for the wake signal; if a timer is
     * active it runs a display cycle. When a wait is cancelled it switches back to
     * the default theme if a timer is active at that moment.
     *
     * The result is the list of device calls together with its reading as a
     * sequence of cycles and an ending that consumed exactly the first answers
     * of the two scripts.
     */
    method ExecuteAsync(stops: seq<bool>, checks: seq<bool>)
      returns (calls: seq<DeviceCall>, cycles: seq<Cycle>, ending: Ending)
      ensures Explains(calls, cycles, ending, stops, checks)
    {
      // s and c count the answers consumed from each script
      var s, c := 0, 0;
      calls, cycles := [], [];
      while true
        invariant s <= |stops|
        invariant CyclesStops(cycles) == StopAnswers(stops, s)
        invariant CyclesChecks(cycles) == CheckAnswers(checks, c)
        invariant calls == CyclesCalls(cycles)
        decreases |stops| - s
      {
        // the outer while condition
        if StopAt(stops, s) {
          ending := StopRequested;
          StopRequestedExit(cycles, stops, checks, s, c);
          return;
        }
        // the wait for the wake signal
        if StopAt(stops, s + 1) {
          var active := ActiveAt(checks, c);
          if active {
            calls := calls + [SwitchToDefaultTheme];
          }
          ending := CancelledWhileWaiting(active);
          CancelledWhileWaitingExit(cycles, active, stops, checks, s, c);
          return;
        }
        // the activity check after the wake
        if !ActiveAt(checks, c) {
          SpuriousStep(cycles, stops, checks, s, c);
          cycles := cycles + [Spurious];
          s, c := s + 2, c + 1;
          continue;
        }
        var cycleCalls, s', c', ticks, cancelled, revert := DisplayCycle(stops, checks, s + 2, c + 1);
        calls := calls + cycleCalls;
        if cancelled {
          ending := CancelledWhileDisplaying(ticks, revert);
          CancelledWhileDisplayingExit(cycles, ticks, revert, stops, checks, s, c, s', c');
          return;
        }
        DisplayedStep(cycles, ticks, stops, checks, s, c, s', c');
        cycles := cycles + [Displayed(ticks)];
        s, c := s', c';
      }
    }

    /**
     * One display cycle, entered with a timer active: upload, show, switch to the
     * photo album, then one refresh per second while a timer is active, and
     * finally the switch back to the default theme. A cancelled tick wait ends
     * the cycle early, reverting only if a timer is active at that moment.
     *
     * s0 and c0 are the numbers of answers consumed so far; the cycle consumes one
     * cancellation answer per tick wait and one activity answer per check.
     */
    method DisplayCycle(stops: seq<bool>, checks: seq<bool>, s0: nat, c0: nat)
      returns (calls: seq<DeviceCall>, s: nat, c: nat, ticks: nat, cancelled: bool, revert: bool)
      requires s0 <= |stops|
      ensures s0 <= s && (!cancelled ==> s <= |stops|)
      ensures calls == Entry() + Refreshes(ticks) + (if cancelled then Revert(revert) else [SwitchToDefaultTheme])
      ensures !cancelled ==> StopAnswers(stops, s) == StopAnswers(stops, s0) + Constant(ticks, false)
      ensures !cancelled ==> CheckAnswers(checks, c) == CheckAnswers(checks, c0) + Constant(ticks, true) + [false]
      ensures cancelled ==> StopAnswers(stops, s) == StopAnswers(stops, s0) + Constant(ticks, false) + [true]
      ensures cancelled ==> CheckAnswers(checks, c) == CheckAnswers(checks, c0) + Constant(ticks + 1, true) + [revert]
    {
      calls := Entry();
      s, c, ticks := s0, c0, 0;
      var active := ActiveAt(checks, c);
      while active
        invariant s0 <= s <= |stops|
        invariant calls == Entry() + Refreshes(ticks)
        invariant StopAnswers(stops, s) == StopAnswers(stops, s0) + Constant(ticks, false)
        invariant CheckAnswers(checks, c) == CheckAnswers(checks, c0) + Constant(ticks, true)
        invariant active == ActiveAt(checks, c)
        decreases |stops| - s
      {
        CheckAnswersSnoc(checks, c);
        ConstantSnoc(ticks, true);
        c := c + 1;
        // the wait for the next tick
        StopAnswersSnoc(stops, s);
        if StopAt(stops, s) {
          revert := ActiveAt(checks, c);
          if revert {
            calls := calls + [SwitchToDefaultTheme];
          }
          CheckAnswersSnoc(checks, c);
          s, c, cancelled := s + 1, c + 1, true;
          return;
        }
        ConstantSnoc(ticks, false);
        RefreshesSnoc(ticks);
        calls := calls + [UploadImage(FileName)];
        s, ticks := s + 1, ticks + 1;
        active := ActiveAt(checks, c);
      }
      CheckAnswersSnoc(checks, c);
      calls := calls + [SwitchToDefaultTheme];
      c, cancelled, revert := c + 1, false, false;
    }
  }

  /**
   * Set, clear and set again before the display loop takes the wake: the second
   * rising edge finds the wake still pending and Release throws.
   */
  method PendingWakeRace(now: int) returns (c: Completion)
    ensures c == SemaphoreFullException
  {
    var service := new TimerService();
    var t := NamedTimer(Some("pasta"), now + TicksPerMinute);
    assert IsActive([t][0], now);
    var first := service.SetTimers([t], now);
    var cleared := service.ClearTimers(now);
    c := service.SetTimers([t], now);
  }

  /**
   * Set, let the worker take the wake, clear and set again: the second rising
   * edge finds the slot empty and completes. The race needs a busy worker.
   */
  method WakeTakenBetween(now: int) returns (c: Completion, pending: bool)
    ensures c == Completed && pending
  {
    var service := new TimerService();
    var t := NamedTimer(Some("pasta"), now + TicksPerMinute);
    assert IsActive([t][0], now);
    var first := service.SetTimers([t], now);
    service.TakeWake();
    var cleared := service.ClearTimers(now);
    c := service.SetTimers([t], now);
    pending := service.wakePending;
  }

  /** The same sequence with the coalescing signal: one wake stays pending and nothing fails. */
  method PendingWakeCoalesced(now: int) returns (c: Completion, pending: bool)
    ensures c == Completed && pending
  {
    var service := new TimerService();
    var t := NamedTimer(Some("pasta"), now + TicksPerMinute);
    assert IsActive([t][0], now);
    var first := service.SetTimersCoalescing([t], now);
    var cleared := service.ClearTimers(now);
    c := service.SetTimersCoalescing([t], now);
    pending := service.wakePending;
  }

  /** What ExecuteAsync promises, for the run described by cs and e. */
  predicate Explains(calls: seq<DeviceCall>, cs: seq<Cycle>, e: Ending, stops: seq<bool>, checks: seq<bool>) {
    && calls == RunCalls(cs, e)
    && AgreesWithStops(CyclesStops(cs) + EndingStops(e), stops)
    && AgreesWithChecks(CyclesChecks(cs) + EndingChecks(e), checks)
  }

  /** The run ends at the outer while condition after the cycles cs. */
  lemma StopRequestedExit(cs: seq<Cycle>, stops: seq<bool>, checks: seq<bool>, s: nat, c: nat)
    requires CyclesStops(cs) == StopAnswers(stops, s) && CyclesChecks(cs) == CheckAnswers(checks, c)
    requires StopAt(stops, s)
    ensures Explains(CyclesCalls(cs), cs, StopRequested, stops, checks)
  {
    StopAnswersSnoc(stops, s);
  }

  /** The run ends with the wait for the wake signal cancelled after the cycles cs. */
  lemma CancelledWhileWaitingExit(cs: seq<Cycle>, r: bool, stops: seq<bool>, checks: seq<bool>, s: nat, c: nat)
    requires CyclesStops(cs) == StopAnswers(stops, s) && CyclesChecks(cs) == CheckAnswers(checks, c)
    requires !StopAt(stops, s) && StopAt(stops, s + 1) && r == ActiveAt(checks, c)
    ensures Explains(CyclesCalls(cs) + Revert(r), cs, CancelledWhileWaiting(r), stops, checks)
  {
    StopAnswersSnoc(stops, s);
    StopAnswersSnoc(stops, s + 1);
    CheckAnswersSnoc(checks, c);
  }

  /** A wake with no active timer adds a spurious cycle. */
  lemma SpuriousStep(cs: seq<Cycle>, stops: seq<bool>, checks: seq<bool>, s: nat, c: nat)
    requires CyclesStops(cs) == StopAnswers(stops, s) && CyclesChecks(cs) == CheckAnswers(checks, c)
    requires !StopAt(stops, s) && !StopAt(stops, s + 1) && !ActiveAt(checks, c)
    ensures CyclesStops(cs + [Spurious]) == StopAnswers(stops, s + 2)
    ensures CyclesChecks(cs + [Spurious]) == CheckAnswers(checks, c + 1)
    ensures CyclesCalls(cs + [Spurious]) == CyclesCalls(cs)
  {
    CyclesSnoc(cs, Spurious);
    TwoWaitsPassed(stops, s);
    CheckAnswersSnoc(checks, c);
  }

  /** The outer while condition and the wait for the wake signal both answered "not cancelled". */
  lemma TwoWaitsPassed(stops: seq<bool>, s: nat)
    requires !StopAt(stops, s) && !StopAt(stops, s + 1)
    ensures StopAnswers(stops, s + 2) == StopAnswers(stops, s) + [false, false]
  {
    StopAnswersSnoc(stops, s);
    StopAnswersSnoc(stops, s + 1);
    AppendAssoc(StopAnswers(stops, s), [false], [false]);
  }

  /** The prefix consumed before a display cycle starts. */
  lemma CycleStart(cs: seq<Cycle>, stops: seq<bool>, checks: seq<bool>, s: nat, c: nat)
    requires CyclesStops(cs) == StopAnswers(stops, s) && CyclesChecks(cs) == CheckAnswers(checks, c)
    requires !StopAt(stops, s) && !StopAt(stops, s + 1) && ActiveAt(checks, c)
    ensures StopAnswers(stops, s + 2) == CyclesStops(cs) + [false, false]
    ensures CheckAnswers(checks, c + 1) == CyclesChecks(cs) + [true]
  {
    TwoWaitsPassed(stops, s);
    CheckAnswersSnoc(checks, c);
  }

  /** A display cycle that ran to its end adds a Displayed cycle. */
  lemma DisplayedStep(cs: seq<Cycle>, ticks: nat, stops: seq<bool>, checks: seq<bool>, s: nat, c: nat, s': nat, c': nat)
    requires CyclesStops(cs) == StopAnswers(stops, s) && CyclesChecks(cs) == CheckAnswers(checks, c)
    requires !StopAt(stops, s) && !StopAt(stops, s + 1) && ActiveAt(checks, c)
    requires StopAnswers(stops, s') == StopAnswers(stops, s + 2) + Constant(ticks, false)
    requires CheckAnswers(checks, c') == CheckAnswers(checks, c + 1) + Constant(ticks, true) + [false]
    ensures CyclesStops(cs + [Displayed(ticks)]) == StopAnswers(stops, s')
    ensures CyclesChecks(cs + [Displayed(ticks)]) == CheckAnswers(checks, c')
    ensures CyclesCalls(cs + [Displayed(ticks)]) == CyclesCalls(cs) + (Entry() + Refreshes(ticks) + [SwitchToDefaultTheme])
  {
    CyclesSnoc(cs, Displayed(ticks));
    CycleStart(cs, stops, checks, s, c);
    assert CyclesStops(cs + [Displayed(ticks)]) == StopAnswers(stops, s') by {
      AppendAssoc(CyclesStops(cs), [false, false], Constant(ticks, false));
    }
    assert CyclesChecks(cs + [Displayed(ticks)]) == CheckAnswers(checks, c') by {
      AppendAssoc(CyclesChecks(cs) + [true], Constant(ticks, true), [false]);
      AppendAssoc(CyclesChecks(cs), [true], Constant(ticks, true) + [false]);
    }
  }

  /** The run ends with a tick wait cancelled after the cycles cs and ticks refreshes. */
  lemma CancelledWhileDisplayingExit(cs: seq<Cycle>, ticks: nat, r: bool, stops: seq<bool>, checks: seq<bool>,
                                     s: nat, c: nat, s': nat, c': nat)
    requires CyclesStops(cs) == StopAnswers(stops, s) && CyclesChecks(cs) == CheckAnswers(checks, c)
    requires !StopAt(stops, s) && !StopAt(stops, s + 1) && ActiveAt(checks, c)
    requires StopAnswers(stops, s') == StopAnswers(stops, s + 2) + Constant(ticks, false) + [true]
    requires CheckAnswers(checks, c') == CheckAnswers(checks, c + 1) + Constant(ticks + 1, true) + [r]
    ensures Explains(CyclesCalls(cs) + (Entry() + Refreshes(ticks) + Revert(r)), cs, CancelledWhileDisplaying(ticks, r), stops, checks)
  {
    CycleStart(cs, stops, checks, s, c);
    var e := CancelledWhileDisplaying(ticks, r);
    assert CyclesStops(cs) + EndingStops(e) == StopAnswers(stops, s') by {
      AppendAssoc(CyclesStops(cs), [false, false], Constant(ticks, false));
      AppendAssoc(CyclesStops(cs), [false, false] + Constant(ticks, false), [true]);
    }
    assert CyclesChecks(cs) + EndingChecks(e) == CheckAnswers(checks, c') by {
      AppendAssoc(CyclesChecks(cs), [true], Constant(ticks + 1, true));
      AppendAssoc(CyclesChecks(cs), [true] + Constant(ticks + 1, true), [r]);
    }
  }

  lemma StopAnswersSnoc(stops: seq<bool>, n: nat)
    ensures StopAnswers(stops, n + 1) == StopAnswers(stops, n) + [StopAt(stops, n)]
  {
  }

  lemma CheckAnswersSnoc(checks: seq<bool>, n: nat)
    ensures CheckAnswers(checks, n + 1) == CheckAnswers(checks, n) + [ActiveAt(checks, n)]
  {
  }

  lemma ConstantSnoc(k: nat, b: bool)
    ensures Constant(k + 1, b) == Constant(k, b) + [b]
  {
  }

  lemma RefreshesSnoc(k: nat)
    ensures Refreshes(k + 1) == Refreshes(k) + [UploadImage(FileName)]
  {
  }

  lemma CyclesSnoc(cs: seq<Cycle>, x: Cycle)
    ensures CyclesCalls(cs + [x]) == CyclesCalls(cs) + CycleCalls(x)
    ensures CyclesStops(cs + [x]) == CyclesStops(cs) + CycleStops(x)
    ensures CyclesChecks(cs + [x]) == CyclesChecks(cs) + CycleChecks(x)
  {
    assert (cs + [x])[..|cs|] == cs;
  }

  /** Activity does not depend on the order of the list. */
  lemma ActiveOfPermutation(a: seq<NamedTimer>, b: seq<NamedTimer>, now: int)
    requires multiset(a) == multiset(b)
    ensures AnyActive(a, now) == AnyActive(b, now)
  {
    if AnyActive(a, now) {
      var i :| 0 <= i < |a| && IsActive(a[i], now);
      assert a[i] in multiset(b);
    }
    if AnyActive(b, now) {
      var i :| 0 <= i < |b| && IsActive(b[i], now);
      assert b[i] in multiset(a);
    }
  }

  /** What the device screen shows: the default theme or the photo album with the timer image. */
  datatype Screen = DefaultTheme | PhotoAlbum

  /** The screen after one call: only the two switches change it. */
  function ScreenStep(sc: Screen, call: DeviceCall): Screen {
    match call
    case SwitchToPhotoAlbum => PhotoAlbum
    case SwitchToDefaultTheme => DefaultTheme
    case _ => sc
  }

  /** The screen after a sequence of calls, starting from sc. */
  function ScreenAfter(sc: Screen, calls: seq<DeviceCall>): Screen
    decreases |calls|
  {
    if calls == [] then sc else ScreenStep(ScreenAfter(sc, calls[..|calls| - 1]), calls[|calls| - 1])
  }

  lemma {:induction false} ScreenAfterAppend(sc: Screen, a: seq<DeviceCall>, b: seq<DeviceCall>)
    ensures ScreenAfter(sc, a + b) == ScreenAfter(ScreenAfter(sc, a), b)
    decreases |b|
  {
    if b != [] {
      assert (a + b)[..|a + b| - 1] == a + b[..|b| - 1];
      ScreenAfterAppend(sc, a, b[..|b| - 1]);
    } else {
      assert a + b == a;
    }
  }

  /** Re-uploading the image does not change the screen. */
  lemma {:induction false} RefreshesKeepScreen(sc: Screen, k: nat)
    ensures ScreenAfter(sc, Refreshes(k)) == sc
  {
    if k > 0 {
      RefreshesSnoc(k - 1);
      assert Refreshes(k)[..k - 1] == Refreshes(k - 1);
      RefreshesKeepScreen(sc, k - 1);
    }
  }

  /** Every cycle that did not end the run leaves the device on the default theme. */
  lemma {:induction false} CyclesEndOnDefault(cs: seq<Cycle>)
    ensures ScreenAfter(DefaultTheme, CyclesCalls(cs)) == DefaultTheme
    decreases |cs|
  {
    if cs != [] {
      var init, last := cs[..|cs| - 1], cs[|cs| - 1];
      CyclesEndOnDefault(init);
      ScreenAfterAppend(DefaultTheme, CyclesCalls(init), CycleCalls(last));
      if last.Displayed? {
        var body := Entry() + Refreshes(last.ticks);
        assert CycleCalls(last) == body + [SwitchToDefaultTheme];
        assert CycleCalls(last)[..|CycleCalls(last)| - 1] == body;
      }
    }
  }

  /** Where a run leaves the device, by how it ended. */
  function FinalScreen(e: Ending): (sc: Screen)
    ensures sc == PhotoAlbum <==> e.CancelledWhileDisplaying? && !e.reverted
  {
    match e
    case CancelledWhileDisplaying(_, false) => PhotoAlbum
    case _ => DefaultTheme
  }

  /**
   * Starting from the default theme, a run leaves the device on the default theme,
   * except when a tick wait is cancelled while no timer is active: then the device
   * stays in the photo album.
   */
  lemma RunScreen(cs: seq<Cycle>, e: Ending)
    ensures ScreenAfter(DefaultTheme, RunCalls(cs, e)) == FinalScreen(e)
  {
    CyclesEndOnDefault(cs);
    ScreenAfterAppend(DefaultTheme, CyclesCalls(cs), EndingCalls(e));
    EndingScreen(e);
  }

  /** The calls of an ending, started from the default theme, leave the final screen. */
  lemma EndingScreen(e: Ending)
    ensures ScreenAfter(DefaultTheme, EndingCalls(e)) == FinalScreen(e)
  {
    match e
    case StopRequested =>
    case CancelledWhileWaiting(r) =>
      assert Revert(r) == [] + Revert(r);
    case CancelledWhileDisplaying(k, r) =>
      CancelledDisplayScreen(k, r);
  }

  /** A display cut short ends on the album, or on the default theme when it reverted. */
  lemma CancelledDisplayScreen(k: nat, r: bool)
    ensures ScreenAfter(DefaultTheme, Entry() + Refreshes(k) + Revert(r)) == (if r then DefaultTheme else PhotoAlbum)
  {
    assert ScreenAfter(DefaultTheme, Entry() + Refreshes(k)) == PhotoAlbum by {
      EntryShowsAlbum();
      ScreenAfterAppend(DefaultTheme, Entry(), Refreshes(k));
      RefreshesKeepScreen(PhotoAlbum, k);
    }
    ScreenAfterAppend(DefaultTheme, Entry() + Refreshes(k), Revert(r));
    assert Revert(r) == [] + Revert(r);
  }

  /** The entry calls end on the photo album. */
  lemma EntryShowsAlbum()
    ensures ScreenAfter(DefaultTheme, Entry()) == PhotoAlbum
  {
  }

  /** The number of display cycles of a run. */
  function DisplayedCount(cs: seq<Cycle>): (n: nat)
    ensures n <= |cs|
    decreases |cs|
  {
    if cs == [] then 0 else DisplayedCount(cs[..|cs| - 1]) + (if cs[|cs| - 1].Displayed? then 1 else 0)
  }

  function Count(calls: seq<DeviceCall>, x: DeviceCall): nat {
    multiset(calls)[x]
  }

  /** Refreshes never switch the screen. */
  lemma RefreshesNoSwitch(k: nat)
    ensures Count(Refreshes(k), SwitchToPhotoAlbum) == 0 && Count(Refreshes(k), SwitchToDefaultTheme) == 0
  {
    assert SwitchToPhotoAlbum !in Refreshes(k);
    assert SwitchToDefaultTheme !in Refreshes(k);
  }

  /** The switches of one cycle: one each way for a display cycle, none for a spurious wake. */
  lemma CycleSwitchCounts(c: Cycle)
    ensures Count(CycleCalls(c), SwitchToPhotoAlbum) == (if c.Displayed? then 1 else 0)
    ensures Count(CycleCalls(c), SwitchToDefaultTheme) == (if c.Displayed? then 1 else 0)
  {
    if c.Displayed? {
      RefreshesNoSwitch(c.ticks);
      assert multiset(CycleCalls(c)) == multiset(Entry()) + multiset(Refreshes(c.ticks)) + multiset([SwitchToDefaultTheme]);
    }
  }

  /** The switches of an ending: one to the album if it was mid-cycle, one back if it reverted. */
  lemma EndingSwitchCounts(e: Ending)
    ensures Count(EndingCalls(e), SwitchToPhotoAlbum) == (if e.CancelledWhileDisplaying? then 1 else 0)
    ensures Count(EndingCalls(e), SwitchToDefaultTheme) == (if !e.StopRequested? && e.reverted then 1 else 0)
  {
    if e.CancelledWhileDisplaying? {
      RefreshesNoSwitch(e.ticks);
      assert multiset(EndingCalls(e)) == multiset(Entry()) + multiset(Refreshes(e.ticks)) + multiset(Revert(e.reverted));
    }
  }

  /**
   * Every display cycle switches to the photo album once and back to the default
   * theme once; a cancelled run adds one switch back exactly when it reverted.
   */
  lemma {:induction false} CyclesSwitchCounts(cs: seq<Cycle>)
    ensures Count(CyclesCalls(cs), SwitchToPhotoAlbum) == DisplayedCount(cs)
    ensures Count(CyclesCalls(cs), SwitchToDefaultTheme) == DisplayedCount(cs)
    decreases |cs|
  {
    if cs != [] {
      var init, last := cs[..|cs| - 1], cs[|cs| - 1];
      CyclesSwitchCounts(init);
      CycleSwitchCounts(last);
      assert multiset(CyclesCalls(cs)) == multiset(CyclesCalls(init)) + multiset(CycleCalls(last));
    }
  }

  lemma RunSwitchCounts(cs: seq<Cycle>, e: Ending)
    ensures Count(RunCalls(cs, e), SwitchToPhotoAlbum)
            == DisplayedCount(cs) + (if e.CancelledWhileDisplaying? then 1 else 0)
    ensures Count(RunCalls(cs, e), SwitchToDefaultTheme)
            == DisplayedCount(cs) + (if !e.StopRequested? && e.reverted then 1 else 0)
  {
    CyclesSwitchCounts(cs);
    EndingSwitchCounts(e);
    assert multiset(RunCalls(cs, e)) == multiset(CyclesCalls(cs)) + multiset(EndingCalls(e));
  }
}
