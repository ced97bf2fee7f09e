/**
 * The ingestion endpoints. NextTimer turns an Alexa "next timer" payload into
 * either "clear the timers" or "set these timers": the active entries ordered by
 * remaining time, each ending at the reference instant plus its remaining time.
 * Update is the debug endpoint that sets a single timer unless it has ended.
 */
module TimerControllers {
  import opened NamedTimers
  import opened TimerOrder
  import opened TimerServices
  import opened Sequences

  /** An entry of the payload's active list: its label and remaining milliseconds. */
  datatype AlexaTimer = AlexaTimer(labelText: Option<string>, remainingTime: int)

  /** The "brief" object; its active list may be absent. */
  datatype AlarmsBrief = AlarmsBrief(active: Option<seq<AlexaTimer>>)

  /** The payload fields the controller reads; both may be absent. */
  datatype NextTimerAttributes = NextTimerAttributes(processTimestamp: Option<int>, alarmsBrief: Option<AlarmsBrief>)

  /** What an endpoint asks of the timer service. */
  datatype TimerCommand = Clear | Set(timers: seq<NamedTimer>)

  datatype HttpStatus = Ok | InternalServerError

  /** The list the controller works on: the active list, or empty when it or the brief is absent. */
  function ActiveEntries(value: NextTimerAttributes): (r: seq<AlexaTimer>)
    ensures value.alarmsBrief.None? ==> r == []
    ensures value.alarmsBrief.Some? && value.alarmsBrief.value.active.None? ==> r == []
    ensures value.alarmsBrief.Some? && value.alarmsBrief.value.active.Some? ==> r == value.alarmsBrief.value.active.value
  {
    match value.alarmsBrief
    case None => []
    case Some(brief) =>
      match brief.active
      case None => []
      case Some(entries) => entries
  }

  /** The process timestamp when present, otherwise the current instant. */
  function ReferenceTime(value: NextTimerAttributes, now: int): (r: int)
    ensures value.processTimestamp.Some? ==> r == value.processTimestamp.value
    ensures value.processTimestamp.None? ==> r == now
  {
    match value.processTimestamp
    case Some(t) => t
    case None => now
  }

  predicate SortedByRemaining(xs: seq<AlexaTimer>) {
    forall i, j :: 0 <= i < j < |xs| ==> xs[i].remainingTime <= xs[j].remainingTime
  }

  /** The entries with the given remaining time, in list order. */
  function WithRemaining(xs: seq<AlexaTimer>, k: int): seq<AlexaTimer>
    decreases |xs|
  {
    if xs == [] then []
    else (if xs[0].remainingTime == k then [xs[0]] else []) + WithRemaining(xs[1..], k)
  }

  /** Puts x before the first entry whose remaining time is not smaller. */
  function InsertByRemaining(x: AlexaTimer, xs: seq<AlexaTimer>): (r: seq<AlexaTimer>)
    requires SortedByRemaining(xs)
    ensures SortedByRemaining(r)
    ensures multiset(r) == multiset(xs) + multiset{x}
    decreases |xs|
  {
    if xs == [] || x.remainingTime <= xs[0].remainingTime then
      [x] + xs
    else
      var rest := InsertByRemaining(x, xs[1..]);
      HeadBeforeRest(xs, x, rest);
      [xs[0]] + rest
  }

  /** After the head of a sorted list, the rest with x inserted has no smaller remaining time. */
  lemma HeadBeforeRest(xs: seq<AlexaTimer>, x: AlexaTimer, rest: seq<AlexaTimer>)
    requires SortedByRemaining(xs) && |xs| > 0 && xs[0].remainingTime < x.remainingTime
    requires multiset(rest) == multiset(xs[1..]) + multiset{x}
    ensures SortedByRemaining(rest) ==> SortedByRemaining([xs[0]] + rest)
    ensures multiset([xs[0]] + rest) == multiset(xs) + multiset{x}
  {
    assert xs == [xs[0]] + xs[1..];
    forall j | 0 <= j < |rest| ensures xs[0].remainingTime <= rest[j].remainingTime {
      assert rest[j] in multiset(rest);
      if rest[j] != x {
        assert rest[j] in multiset(xs);
        LeastRemainingFirst(xs, rest[j]);
      }
    }
  }

  /** The first entry of a sorted list has the least remaining time. */
  lemma LeastRemainingFirst(xs: seq<AlexaTimer>, y: AlexaTimer)
    requires SortedByRemaining(xs) && |xs| > 0 && y in multiset(xs)
    ensures xs[0].remainingTime <= y.remainingTime
  {
    var i :| 0 <= i < |xs| && xs[i] == y;
  }

  /** OrderBy(t => t.RemainingTime): ordered by remaining time and holding the same entries. */
  function SortByRemaining(xs: seq<AlexaTimer>): (r: seq<AlexaTimer>)
    ensures SortedByRemaining(r)
    ensures multiset(r) == multiset(xs)
    ensures |r| == |xs|
    decreases |xs|
  {
    if xs == [] then []
    else
      assert xs == [xs[0]] + xs[1..];
      InsertByRemaining(xs[0], SortByRemaining(xs[1..]))
  }

  /** Inserting x puts it ahead of every entry with the same remaining time. */
  lemma {:induction false} InsertStable(x: AlexaTimer, xs: seq<AlexaTimer>, k: int)
    requires SortedByRemaining(xs)
    ensures WithRemaining(InsertByRemaining(x, xs), k) == (if x.remainingTime == k then [x] else []) + WithRemaining(xs, k)
    decreases |xs|
  {
    var r := InsertByRemaining(x, xs);
    var head := if x.remainingTime == k then [x] else [];
    if xs == [] || x.remainingTime <= xs[0].remainingTime {
      assert r[1..] == xs;
    } else {
      var rest := InsertByRemaining(x, xs[1..]);
      var first := if xs[0].remainingTime == k then [xs[0]] else [];
      assert r == [xs[0]] + rest && r[1..] == rest;
      assert WithRemaining(r, k) == first + WithRemaining(rest, k);
      assert WithRemaining(xs, k) == first + WithRemaining(xs[1..], k);
      InsertStable(x, xs[1..], k);
      // At most one of x and xs[0] has k remaining, since x orders strictly after xs[0].
      assert head == [] || first == [];
      AppendAssoc(first, head, WithRemaining(xs[1..], k));
      AppendAssoc(head, first, WithRemaining(xs[1..], k));
      AppendEmpty(first);
      AppendEmpty(head);
    }
  }

  /**
   * The sort is stable: for every remaining time, the entries having it appear in
   * the same relative order before and after sorting.
   */
  lemma {:induction false} SortStable(xs: seq<AlexaTimer>, k: int)
    ensures WithRemaining(SortByRemaining(xs), k) == WithRemaining(xs, k)
    decreases |xs|
  {
    if xs != [] {
      SortStable(xs[1..], k);
      InsertStable(xs[0], SortByRemaining(xs[1..]), k);
    }
  }

  /** The timer built from an entry: its label, ending the remaining milliseconds after ref. */
  function ToNamedTimer(t: AlexaTimer, ref: int): (r: NamedTimer)
    ensures r.name == t.labelText
    ensures t.remainingTime >= 0 ==> RemainingTime(r, ref) == t.remainingTime * TicksPerMillisecond && IsActive(r, ref)
  {
    NamedTimer(t.labelText, ref + t.remainingTime * TicksPerMillisecond)
  }

  /** The entries converted one by one, in the same order. */
  function ToNamedTimers(xs: seq<AlexaTimer>, ref: int): (r: seq<NamedTimer>)
    ensures |r| == |xs|
    ensures forall i :: 0 <= i < |xs| ==> r[i].name == xs[i].labelText
    ensures forall i :: 0 <= i < |xs| && xs[i].remainingTime >= 0 ==>
              RemainingTime(r[i], ref) == xs[i].remainingTime * TicksPerMillisecond
  {
    seq(|xs|, i requires 0 <= i < |xs| => ToNamedTimer(xs[i], ref))
  }

  /**
   * The command of NextTimer: clear when there is no active entry, otherwise set
   * the entries ordered by remaining time, converted against the reference instant.
   */
  function NextTimerCommand(value: NextTimerAttributes, now: int): (r: TimerCommand)
    ensures r.Clear? <==> ActiveEntries(value) == []
    ensures r.Set? ==> |r.timers| == |ActiveEntries(value)|
  {
    var entries := ActiveEntries(value);
    var timers := ToNamedTimers(SortByRemaining(entries), ReferenceTime(value, now));
    if |timers| > 0 then Set(timers) else Clear
  }

  /** The timers set by NextTimer are exactly the converted entries: one per entry, named by its label. */
  lemma NextTimerSetsEntries(value: NextTimerAttributes, now: int)
    requires NextTimerCommand(value, now).Set?
    ensures multiset(NextTimerCommand(value, now).timers)
            == multiset(ToNamedTimers(ActiveEntries(value), ReferenceTime(value, now)))
  {
    SortMapsEntries(ActiveEntries(value), ReferenceTime(value, now));
  }

  /** The timers set by NextTimer are ordered by end instant. */
  lemma NextTimerOrderedByEnd(value: NextTimerAttributes, now: int)
    requires NextTimerCommand(value, now).Set?
    ensures var timers := NextTimerCommand(value, now).timers;
            forall i, j :: 0 <= i < j < |timers| ==> timers[i].end <= timers[j].end
  {
    var sorted := SortByRemaining(ActiveEntries(value));
    forall i, j | 0 <= i < j < |sorted|
      ensures sorted[i].remainingTime * TicksPerMillisecond <= sorted[j].remainingTime * TicksPerMillisecond
    {
      MonotoneScale(sorted[i].remainingTime, sorted[j].remainingTime);
    }
  }

  /** Timers ending at the same instant keep the order their entries had in the payload. */
  lemma NextTimerKeepsPayloadOrder(value: NextTimerAttributes, now: int, k: int)
    requires NextTimerCommand(value, now).Set?
    ensures var ref := ReferenceTime(value, now);
            ToNamedTimers(WithRemaining(ActiveEntries(value), k), ref)
            == EndingAt(NextTimerCommand(value, now).timers, ref + k * TicksPerMillisecond)
  {
    var entries := ActiveEntries(value);
    SortStable(entries, k);
    EndsOfRemaining(SortByRemaining(entries), k, ReferenceTime(value, now));
  }

  /** The timers of a list ending at the given instant, in list order. */
  function EndingAt(ts: seq<NamedTimer>, end: int): seq<NamedTimer>
    decreases |ts|
  {
    if ts == [] then [] else (if ts[0].end == end then [ts[0]] else []) + EndingAt(ts[1..], end)
  }

  lemma MonotoneScale(a: int, b: int)
    requires a <= b
    ensures a * TicksPerMillisecond <= b * TicksPerMillisecond
  {
  }

  /** Converting entries keeps, in order, exactly those of a given remaining time as those of the matching end. */
  lemma {:induction false} EndsOfRemaining(xs: seq<AlexaTimer>, k: int, ref: int)
    ensures ToNamedTimers(WithRemaining(xs, k), ref) == EndingAt(ToNamedTimers(xs, ref), ref + k * TicksPerMillisecond)
    decreases |xs|
  {
    if xs != [] {
      EndsOfRemaining(xs[1..], k, ref);
      var ts := ToNamedTimers(xs, ref);
      assert ts[1..] == ToNamedTimers(xs[1..], ref);
      assert xs[0].remainingTime == k <==> ts[0].end == ref + k * TicksPerMillisecond;
      ToNamedTimersAppend(if xs[0].remainingTime == k then [xs[0]] else [], WithRemaining(xs[1..], k), ref);
    }
  }

  lemma ToNamedTimersAppend(a: seq<AlexaTimer>, b: seq<AlexaTimer>, ref: int)
    ensures ToNamedTimers(a + b, ref) == ToNamedTimers(a, ref) + ToNamedTimers(b, ref)
  {
  }

  /** Converting after inserting adds the converted entry. */
  lemma {:induction false} InsertMapsEntry(x: AlexaTimer, xs: seq<AlexaTimer>, ref: int)
    requires SortedByRemaining(xs)
    ensures multiset(ToNamedTimers(InsertByRemaining(x, xs), ref))
            == multiset(ToNamedTimers(xs, ref)) + multiset{ToNamedTimer(x, ref)}
    decreases |xs|
  {
    if xs == [] || x.remainingTime <= xs[0].remainingTime {
      assert InsertByRemaining(x, xs) == [x] + xs;
      assert multiset(ToNamedTimers([x] + xs, ref)) == multiset(ToNamedTimers(xs, ref)) + multiset{ToNamedTimer(x, ref)} by {
        ToNamedTimersAppend([x], xs, ref);
        assert ToNamedTimers([x], ref) == [ToNamedTimer(x, ref)];
      }
    } else {
      var rest := InsertByRemaining(x, xs[1..]);
      InsertMapsEntry(x, xs[1..], ref);
      PrependMapsEntry(xs[0], rest, xs[1..], x, ref);
      assert InsertByRemaining(x, xs) == [xs[0]] + rest;
      assert xs == [xs[0]] + xs[1..];
    }
  }

  /** Putting the same head in front keeps one converted list the other plus an entry. */
  lemma PrependMapsEntry(h: AlexaTimer, rest: seq<AlexaTimer>, tail: seq<AlexaTimer>, x: AlexaTimer, ref: int)
    requires multiset(ToNamedTimers(rest, ref)) == multiset(ToNamedTimers(tail, ref)) + multiset{ToNamedTimer(x, ref)}
    ensures multiset(ToNamedTimers([h] + rest, ref))
            == multiset(ToNamedTimers([h] + tail, ref)) + multiset{ToNamedTimer(x, ref)}
  {
    ToNamedTimersAppend([h], rest, ref);
    ToNamedTimersAppend([h], tail, ref);
  }

  /** Sorting the entries before converting them only reorders the converted timers. */
  lemma {:induction false} SortMapsEntries(xs: seq<AlexaTimer>, ref: int)
    ensures multiset(ToNamedTimers(SortByRemaining(xs), ref)) == multiset(ToNamedTimers(xs, ref))
    decreases |xs|
  {
    if xs != [] {
      var sortedTail := SortByRemaining(xs[1..]);
      calc {
        multiset(ToNamedTimers(SortByRemaining(xs), ref));
        multiset(ToNamedTimers(InsertByRemaining(xs[0], sortedTail), ref));
        { InsertMapsEntry(xs[0], sortedTail, ref); }
        multiset(ToNamedTimers(sortedTail, ref)) + multiset{ToNamedTimer(xs[0], ref)};
        { SortMapsEntries(xs[1..], ref); }
        multiset(ToNamedTimers(xs[1..], ref)) + multiset{ToNamedTimer(xs[0], ref)};
        { ConsMapsEntry(xs, ref); }
        multiset(ToNamedTimers(xs, ref));
      }
    }
  }

  lemma ConsMapsEntry(xs: seq<AlexaTimer>, ref: int)
    requires xs != []
    ensures ToNamedTimers(xs, ref) == [ToNamedTimer(xs[0], ref)] + ToNamedTimers(xs[1..], ref)
  {
    var whole, tail := ToNamedTimers(xs, ref), ToNamedTimers(xs[1..], ref);
    forall i | 0 <= i < |xs| ensures whole[i] == ([ToNamedTimer(xs[0], ref)] + tail)[i] {
      if i > 0 {
        assert tail[i - 1] == ToNamedTimer(xs[1..][i - 1], ref);
      }
    }
  }

  /** The debug Update endpoint: clear for a missing timer or one whose end has passed, otherwise set it alone. */
  function UpdateCommand(timer: Option<NamedTimer>, now: int): (r: TimerCommand)
    ensures r.Clear? <==> timer.None? || timer.value.end < now
    ensures r.Set? ==> r.timers == [timer.value]
  {
    if timer.None? || timer.value.end < now then Clear else Set([timer.value])
  }

  /** A timer that Update sets is active at that instant, so the service sees it as active. */
  lemma UpdateSetsActiveTimer(timer: Option<NamedTimer>, now: int)
    requires UpdateCommand(timer, now).Set?
    ensures AnyActive(UpdateCommand(timer, now).timers, now)
    ensures RemainingTime(timer.value, now) == timer.value.end - now
  {
    assert IsActive(UpdateCommand(timer, now).timers[0], now);
  }

  /** The timers a command stores. */
  function CommandTimers(cmd: TimerCommand): seq<NamedTimer> {
    match cmd
    case Clear => []
    case Set(timers) => timers
  }

  /**
   * Hands a command to the timer service. A SemaphoreFullException escapes the
   * action and the framework answers 500; otherwise the answer is 200.
   */
  method Apply(service: TimerService, cmd: TimerCommand, now: int) returns (status: HttpStatus)
    modifies service
    ensures service.activeTimers == SortTimers(CommandTimers(cmd))
    ensures var edge := !AnyActive(old(service.activeTimers), now) && AnyActive(CommandTimers(cmd), now);
            && service.wakePending == (old(service.wakePending) || edge)
            && (status == InternalServerError <==> edge && old(service.wakePending))
  {
    var c: Completion;
    match cmd {
      case Clear =>
        c := service.ClearTimers(now);
      case Set(timers) =>
        c := service.SetTimers(timers, now);
    }
    status := if c == SemaphoreFullException then InternalServerError else Ok;
  }

  /** POST NextTimer. */
  method NextTimer(service: TimerService, value: NextTimerAttributes, now: int) returns (status: HttpStatus)
    modifies service
    ensures service.activeTimers == SortTimers(CommandTimers(NextTimerCommand(value, now)))
    ensures ActiveEntries(value) == [] ==> service.activeTimers == [] && service.wakePending == old(service.wakePending)
    ensures var edge := !AnyActive(old(service.activeTimers), now) && AnyActive(CommandTimers(NextTimerCommand(value, now)), now);
            && service.wakePending == (old(service.wakePending) || edge)
            && (status == InternalServerError <==> edge && old(service.wakePending))
    ensures old(!service.wakePending) ==> status == Ok
  {
    status := Apply(service, NextTimerCommand(value, now), now);
  }

  /** POST Update (debug builds only). */
  method Update(service: TimerService, timer: Option<NamedTimer>, now: int) returns (status: HttpStatus)
    modifies service
    ensures service.activeTimers == SortTimers(CommandTimers(UpdateCommand(timer, now)))
    ensures UpdateCommand(timer, now).Set? && !AnyActive(old(service.activeTimers), now) ==> service.wakePending
    ensures var edge := !AnyActive(old(service.activeTimers), now) && AnyActive(CommandTimers(UpdateCommand(timer, now)), now);
            && service.wakePending == (old(service.wakePending) || edge)
            && (status == InternalServerError <==> edge && old(service.wakePending))
    ensures old(!service.wakePending) ==> status == Ok
  {
    var cmd := UpdateCommand(timer, now);
    if cmd.Set? {
      UpdateSetsActiveTimer(timer, now);
    }
    status := Apply(service, cmd, now);
  }

  /** An empty active list and a missing brief both clear the timers. */
  lemma ClearWhenNothingActive(now: int, stamp: Option<int>)
    ensures NextTimerCommand(NextTimerAttributes(stamp, Some(AlarmsBrief(Some([])))), now) == Clear
    ensures NextTimerCommand(NextTimerAttributes(stamp, Some(AlarmsBrief(None))), now) == Clear
    ensures NextTimerCommand(NextTimerAttributes(stamp, None), now) == Clear
  {
  }

  /** Five minutes of remaining time end five minutes after the process timestamp. */
  lemma EndTimeExample(stamp: int, now: int)
    ensures NextTimerCommand(NextTimerAttributes(Some(stamp), Some(AlarmsBrief(Some([AlexaTimer(Some("Test Timer"), 300000)])))), now)
            == Set([NamedTimer(Some("Test Timer"), stamp + 5 * TicksPerMinute)])
  {
    var entries := [AlexaTimer(Some("Test Timer"), 300000)];
    assert SortByRemaining(entries) == entries by {
      assert entries[1..] == [];
    }
  }

  /** Third, First, Second with 300 s, 60 s and 120 s left come out as First, Second, Third. */
  lemma OrderExample(now: int)
    ensures var third, first, second := AlexaTimer(Some("Third"), 300000), AlexaTimer(Some("First"), 60000), AlexaTimer(Some("Second"), 120000);
            NextTimerCommand(NextTimerAttributes(None, Some(AlarmsBrief(Some([third, first, second])))), now)
            == Set([ToNamedTimer(first, now), ToNamedTimer(second, now), ToNamedTimer(third, now)])
  {
    OrderOfThree(AlexaTimer(Some("Third"), 300000), AlexaTimer(Some("First"), 60000), AlexaTimer(Some("Second"), 120000), now);
  }

  /** Three entries given out of order come out by increasing remaining time. */
  lemma OrderOfThree(third: AlexaTimer, first: AlexaTimer, second: AlexaTimer, now: int)
    requires first.remainingTime < second.remainingTime < third.remainingTime
    ensures NextTimerCommand(NextTimerAttributes(None, Some(AlarmsBrief(Some([third, first, second])))), now)
            == Set([ToNamedTimer(first, now), ToNamedTimer(second, now), ToNamedTimer(third, now)])
  {
    var value := NextTimerAttributes(None, Some(AlarmsBrief(Some([third, first, second]))));
    assert ActiveEntries(value) == [third, first, second];
    assert ReferenceTime(value, now) == now;
    SortExample(third, first, second);
    ThreeMapped(first, second, third, now);
  }

  lemma ThreeMapped(a: AlexaTimer, b: AlexaTimer, c: AlexaTimer, ref: int)
    ensures ToNamedTimers([a, b, c], ref) == [ToNamedTimer(a, ref), ToNamedTimer(b, ref), ToNamedTimer(c, ref)]
  {
    var ts := ToNamedTimers([a, b, c], ref);
    assert ts[0] == ToNamedTimer(a, ref) && ts[1] == ToNamedTimer(b, ref) && ts[2] == ToNamedTimer(c, ref);
  }

  lemma SortExample(third: AlexaTimer, first: AlexaTimer, second: AlexaTimer)
    requires first.remainingTime < second.remainingTime < third.remainingTime
    ensures SortByRemaining([third, first, second]) == [first, second, third]
  {
    SortTwo(first, second);
    InsertLast(third, first, second);
    assert [third, first, second][1..] == [first, second];
  }

  lemma SortTwo(first: AlexaTimer, second: AlexaTimer)
    requires first.remainingTime < second.remainingTime
    ensures SortByRemaining([first, second]) == [first, second]
  {
    assert SortByRemaining([second]) == [second] by {
      assert [second][1..] == [];
    }
    assert [first, second][1..] == [second];
  }

  lemma InsertLast(third: AlexaTimer, first: AlexaTimer, second: AlexaTimer)
    requires first.remainingTime < second.remainingTime < third.remainingTime
    ensures InsertByRemaining(third, [first, second]) == [first, second, third]
  {
    var xs := [first, second];
    assert SortedByRemaining(xs);
    InsertPastHead(third, xs);
    assert xs[1..] == [second];
    InsertAfterOne(third, second);
  }

  /** An entry with more remaining time than the head goes after it. */
  lemma InsertPastHead(x: AlexaTimer, xs: seq<AlexaTimer>)
    requires SortedByRemaining(xs) && xs != [] && xs[0].remainingTime < x.remainingTime
    ensures InsertByRemaining(x, xs) == [xs[0]] + InsertByRemaining(x, xs[1..])
  {
  }

  lemma InsertAfterOne(x: AlexaTimer, y: AlexaTimer)
    requires y.remainingTime < x.remainingTime
    ensures InsertByRemaining(x, [y]) == [y, x]
  {
    assert [y][1..] == [];
    assert InsertByRemaining(x, []) == [x];
  }
}
