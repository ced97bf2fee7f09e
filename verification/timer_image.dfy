/**
 * The layout of the timer image: which texts and separator lines are drawn,
 * where, and at which font scale. The canvas is represented by the list of
 * drawing requests made on it; what a text request finally draws is decided by
 * the text-fitting procedure.
 */
module TimerImage {
  import opened NamedTimers
  import opened TimerFormat
  import opened Sequences

  const Height: int := 240
  const Width: int := 240
  const Margin: int := 20
  const MaxTextWidth: int := Width - 2 * Margin
  const HorizontalCenter: real := (Width / 2) as real
  const TimeYRelative: real := 0.5
  const NameYRelative: real := 0.8

  /** At most this many timers are drawn. */
  const MaxSlots: nat := 3

  datatype FontRole = TimeFont | NameFont

  /** A request made on the canvas. */
  datatype CanvasOp =
    | Background
    | Line(x0: real, y0: real, x1: real, y1: real)
    | Text(font: FontRole, text: string, x: real, y: real, maxWidth: int, scale: real, autoScale: bool)

  /** string.IsNullOrEmpty on a timer name. */
  predicate IsNullOrEmpty(name: Option<string>): (r: bool)
    ensures !r <==> name.Some? && |name.value| > 0
  {
    name.None? || name.value == ""
  }

  /** The number of slots: Math.Min(count, 3). */
  function SlotCount(count: nat): (n: nat)
    ensures n <= MaxSlots && n <= count
    ensures n == count || n == MaxSlots
  {
    if count < MaxSlots then count else MaxSlots
  }

  /** The vertical position of separator i (1 <= i < n) between the slots. */
  function SeparatorY(i: nat, n: nat): real
    requires n > 0
  {
    Height as real * (1.0 / n as real) * i as real
  }

  function TimeY(i: nat, n: nat): real
    requires n > 0
  {
    Height as real * (1.0 / n as real) * (i as real + TimeYRelative)
  }

  function NameY(i: nat, n: nat): real
    requires n > 0
  {
    Height as real * (1.0 / n as real) * (i as real + NameYRelative)
  }

  function SeparatorLine(i: nat, n: nat): CanvasOp
    requires n > 0
  {
    Line(Margin as real, SeparatorY(i, n), (Width - Margin) as real, SeparatorY(i, n))
  }

  /** Separators 1 .. count. */
  function SeparatorLines(count: nat, n: nat): (r: seq<CanvasOp>)
    requires n > 0
    ensures |r| == count
  {
    seq(count, j requires 0 <= j => SeparatorLine(j + 1, n))
  }

  /** The requests for slot i of n: the time, then the name unless it is null or empty. */
  function SlotOps(t: NamedTimer, i: nat, n: nat, now: int): seq<CanvasOp>
    requires n > 0
  {
    [Text(TimeFont, FormatTimer(RemainingTime(t, now)), HorizontalCenter, TimeY(i, n), MaxTextWidth, 1.0, true)]
    + (if IsNullOrEmpty(t.name) then []
       else [Text(NameFont, t.name.value, HorizontalCenter, NameY(i, n), MaxTextWidth, 1.0 / n as real, false)])
  }

  /** The requests for slots 0 .. k - 1. */
  function SlotsUpTo(timers: seq<NamedTimer>, n: nat, now: int, k: nat): seq<CanvasOp>
    requires 0 < n && k <= n <= |timers|
  {
    if k == 0 then [] else SlotsUpTo(timers, n, now, k - 1) + SlotOps(timers[k - 1], k - 1, n, now)
  }

  /** The whole image: background, the n - 1 separators, then the n slots. */
  function ImageOps(timers: seq<NamedTimer>, now: int): seq<CanvasOp> {
    var n := SlotCount(|timers|);
    if n == 0 then [Background]
    else [Background] + SeparatorLines(n - 1, n) + SlotsUpTo(timers, n, now, n)
  }

  /**
   * CreateImage: one timer is drawn with fixed positions and full-size name; two
   * or more are drawn in min(count, 3) horizontal bands with separators between
   * them. Both branches draw the uniform layout ImageOps.
   */
  method CreateImage(timers: seq<NamedTimer>, now: int) returns (ops: seq<CanvasOp>)
    ensures ops == ImageOps(timers, now)
  {
    ops := [Background];
    if |timers| == 1 {
      var single := DrawSingle(timers[0], now);
      ops := ops + single;
      SingleLayout(timers, now);
    } else if |timers| > 1 {
      var n := SlotCount(|timers|);
      var lines := DrawSeparators(n);
      var slots := DrawSlots(timers, n, now);
      ops := ops + lines + slots;
    }
  }

  /** With one timer the uniform layout is the background and the single slot. */
  lemma SingleLayout(timers: seq<NamedTimer>, now: int)
    requires |timers| == 1
    ensures ImageOps(timers, now) == [Background] + SlotOps(timers[0], 0, 1, now)
  {
    assert SlotsUpTo(timers, 1, now, 1) == [] + SlotOps(timers[0], 0, 1, now);
    assert SeparatorLines(0, 1) == [];
  }

  /** The slot loop: the requests of slots 0 .. n - 1, in order. */
  method DrawSlots(timers: seq<NamedTimer>, n: nat, now: int) returns (slots: seq<CanvasOp>)
    requires 0 < n <= |timers|
    ensures slots == SlotsUpTo(timers, n, now, n)
  {
    var scale := 1.0 / n as real;
    slots := [];
    for i := 0 to n
      invariant slots == SlotsUpTo(timers, n, now, i)
    {
      var slot := DrawSlot(timers[i], i, n, scale, now);
      SlotsUpToSnoc(timers, n, now, i + 1);
      slots := slots + slot;
    }
  }

  /** The single-timer branch: fixed positions and a full-size name, the layout of one band. */
  method DrawSingle(t: NamedTimer, now: int) returns (slot: seq<CanvasOp>)
    ensures slot == SlotOps(t, 0, 1, now)
  {
    var timeY := Height as real * TimeYRelative;
    var nameY := Height as real * NameYRelative;
    var name := t.name;
    var remaining := FormatTimer(RemainingTime(t, now));
    slot := [Text(TimeFont, remaining, HorizontalCenter, timeY, MaxTextWidth, 1.0, true)];
    if !IsNullOrEmpty(name) {
      slot := slot + [Text(NameFont, name.value, HorizontalCenter, nameY, MaxTextWidth, 1.0, false)];
    }
    assert timeY == TimeY(0, 1) && nameY == NameY(0, 1);
  }

  /** The separator loop: a line at the top of every band but the first. */
  method DrawSeparators(n: nat) returns (lines: seq<CanvasOp>)
    requires n > 0
    ensures lines == SeparatorLines(n - 1, n)
  {
    var scale := 1.0 / n as real;
    lines := [];
    for i := 1 to n
      invariant lines == SeparatorLines(i - 1, n)
    {
      var line := Line(Margin as real, Height as real * scale * i as real, (Width - Margin) as real, Height as real * scale * i as real);
      assert line == SeparatorLine(i, n);
      assert SeparatorLines(i, n) == SeparatorLines(i - 1, n) + [SeparatorLine(i, n)];
      lines := lines + [line];
    }
  }

  /** One pass of the slot loop: the remaining time, then the name unless it is null or empty. */
  method DrawSlot(t: NamedTimer, i: nat, n: nat, scale: real, now: int) returns (slot: seq<CanvasOp>)
    requires n > 0 && scale == 1.0 / n as real
    ensures slot == SlotOps(t, i, n, now)
  {
    var remaining := FormatTimer(RemainingTime(t, now));
    var timeY := Height as real * scale * (i as real + TimeYRelative);
    assert timeY == TimeY(i, n);
    slot := [Text(TimeFont, remaining, HorizontalCenter, timeY, MaxTextWidth, 1.0, true)];
    if !IsNullOrEmpty(t.name) {
      var nameY := Height as real * scale * (i as real + NameYRelative);
      assert nameY == NameY(i, n);
      slot := slot + [Text(NameFont, t.name.value, HorizontalCenter, nameY, MaxTextWidth, scale, false)];
    }
  }

  /** The text of the time requests, in order. */
  function TimeTexts(ops: seq<CanvasOp>): seq<string>
    decreases |ops|
  {
    if ops == [] then []
    else (if ops[0].Text? && ops[0].font == TimeFont then [ops[0].text] else []) + TimeTexts(ops[1..])
  }

  /** The text of the name requests, in order. */
  function NameTexts(ops: seq<CanvasOp>): seq<string>
    decreases |ops|
  {
    if ops == [] then []
    else (if ops[0].Text? && ops[0].font == NameFont then [ops[0].text] else []) + NameTexts(ops[1..])
  }

  /** The vertical positions of the separator lines, in order. */
  function LineYs(ops: seq<CanvasOp>): seq<real>
    decreases |ops|
  {
    if ops == [] then []
    else (if ops[0].Line? then [ops[0].y0] else []) + LineYs(ops[1..])
  }

  lemma {:induction false} TimeTextsAppend(a: seq<CanvasOp>, b: seq<CanvasOp>)
    ensures TimeTexts(a + b) == TimeTexts(a) + TimeTexts(b)
    decreases |a|
  {
    if a == [] {
      AppendEmpty(b);
      AppendEmpty(TimeTexts(b));
    } else {
      assert (a + b)[1..] == a[1..] + b;
      TimeTextsAppend(a[1..], b);
      AppendAssoc(if a[0].Text? && a[0].font == TimeFont then [a[0].text] else [], TimeTexts(a[1..]), TimeTexts(b));
    }
  }

  lemma {:induction false} NameTextsAppend(a: seq<CanvasOp>, b: seq<CanvasOp>)
    ensures NameTexts(a + b) == NameTexts(a) + NameTexts(b)
    decreases |a|
  {
    if a == [] {
      AppendEmpty(b);
      AppendEmpty(NameTexts(b));
    } else {
      assert (a + b)[1..] == a[1..] + b;
      NameTextsAppend(a[1..], b);
      AppendAssoc(if a[0].Text? && a[0].font == NameFont then [a[0].text] else [], NameTexts(a[1..]), NameTexts(b));
    }
  }

  lemma {:induction false} LineYsAppend(a: seq<CanvasOp>, b: seq<CanvasOp>)
    ensures LineYs(a + b) == LineYs(a) + LineYs(b)
    decreases |a|
  {
    if a == [] {
      AppendEmpty(b);
      AppendEmpty(LineYs(b));
    } else {
      assert (a + b)[1..] == a[1..] + b;
      LineYsAppend(a[1..], b);
      AppendAssoc(if a[0].Line? then [a[0].y0] else [], LineYs(a[1..]), LineYs(b));
    }
  }

  lemma FiltersAppend(a: seq<CanvasOp>, b: seq<CanvasOp>)
    ensures TimeTexts(a + b) == TimeTexts(a) + TimeTexts(b)
    ensures NameTexts(a + b) == NameTexts(a) + NameTexts(b)
    ensures LineYs(a + b) == LineYs(a) + LineYs(b)
  {
    TimeTextsAppend(a, b);
    NameTextsAppend(a, b);
    LineYsAppend(a, b);
  }

  /** The names of the given timers that are neither null nor empty, in order. */
  function DrawnNames(ts: seq<NamedTimer>): seq<string>
    decreases |ts|
  {
    if ts == [] then []
    else DrawnNames(ts[..|ts| - 1]) + (if IsNullOrEmpty(ts[|ts| - 1].name) then [] else [ts[|ts| - 1].name.value])
  }

  /** The formatted remaining times of the first k timers. */
  function FormattedTimes(timers: seq<NamedTimer>, k: nat, now: int): (r: seq<string>)
    requires k <= |timers|
    ensures |r| == k
  {
    seq(k, j requires 0 <= j < k => FormatTimer(RemainingTime(timers[j], now)))
  }

  /** What each filter keeps of a single request. */
  lemma SingleFilters(op: CanvasOp)
    ensures TimeTexts([op]) == (if op.Text? && op.font == TimeFont then [op.text] else [])
    ensures NameTexts([op]) == (if op.Text? && op.font == NameFont then [op.text] else [])
    ensures LineYs([op]) == (if op.Line? then [op.y0] else [])
  {
    assert [op][1..] == [];
  }

  /** A slot requests its remaining time once. */
  lemma SlotTime(t: NamedTimer, i: nat, n: nat, now: int)
    requires n > 0
    ensures TimeTexts(SlotOps(t, i, n, now)) == [FormatTimer(RemainingTime(t, now))]
  {
    var time := Text(TimeFont, FormatTimer(RemainingTime(t, now)), HorizontalCenter, TimeY(i, n), MaxTextWidth, 1.0, true);
    SingleFilters(time);
    if !IsNullOrEmpty(t.name) {
      var name := Text(NameFont, t.name.value, HorizontalCenter, NameY(i, n), MaxTextWidth, 1.0 / n as real, false);
      SingleFilters(name);
      TimeTextsAppend([time], [name]);
    }
  }

  /** A slot requests its name exactly when the name is neither null nor empty. */
  lemma SlotName(t: NamedTimer, i: nat, n: nat, now: int)
    requires n > 0
    ensures NameTexts(SlotOps(t, i, n, now)) == (if IsNullOrEmpty(t.name) then [] else [t.name.value])
  {
    var time := Text(TimeFont, FormatTimer(RemainingTime(t, now)), HorizontalCenter, TimeY(i, n), MaxTextWidth, 1.0, true);
    SingleFilters(time);
    if !IsNullOrEmpty(t.name) {
      var name := Text(NameFont, t.name.value, HorizontalCenter, NameY(i, n), MaxTextWidth, 1.0 / n as real, false);
      SingleFilters(name);
      NameTextsAppend([time], [name]);
    }
  }

  lemma {:induction false} SlotsTimeTexts(timers: seq<NamedTimer>, n: nat, now: int, k: nat)
    requires 0 < n && k <= n <= |timers|
    ensures TimeTexts(SlotsUpTo(timers, n, now, k)) == FormattedTimes(timers, k, now)
    decreases k
  {
    if k == 0 {
      assert SlotsUpTo(timers, n, now, k) == [];
    } else {
      var a, b := SlotsUpTo(timers, n, now, k - 1), SlotOps(timers[k - 1], k - 1, n, now);
      assert SlotsUpTo(timers, n, now, k) == a + b;
      SlotsTimeTexts(timers, n, now, k - 1);
      SlotTime(timers[k - 1], k - 1, n, now);
      TimeTextsAppend(a, b);
      FormattedTimesSnoc(timers, k, now);
    }
  }

  lemma FormattedTimesSnoc(timers: seq<NamedTimer>, k: nat, now: int)
    requires 0 < k <= |timers|
    ensures FormattedTimes(timers, k, now) == FormattedTimes(timers, k - 1, now) + [FormatTimer(RemainingTime(timers[k - 1], now))]
  {
  }

  lemma {:induction false} SlotsNameTexts(timers: seq<NamedTimer>, n: nat, now: int, k: nat)
    requires 0 < n && k <= n <= |timers|
    ensures NameTexts(SlotsUpTo(timers, n, now, k)) == DrawnNames(timers[..k])
    decreases k
  {
    if k == 0 {
      assert SlotsUpTo(timers, n, now, k) == [] && timers[..k] == [];
    } else {
      var a, b := SlotsUpTo(timers, n, now, k - 1), SlotOps(timers[k - 1], k - 1, n, now);
      assert SlotsUpTo(timers, n, now, k) == a + b;
      SlotsNameTexts(timers, n, now, k - 1);
      SlotName(timers[k - 1], k - 1, n, now);
      NameTextsAppend(a, b);
      assert timers[..k][..k - 1] == timers[..k - 1] && timers[..k][k - 1] == timers[k - 1];
    }
  }

  /** Slots 0 .. k - 1 are slots 0 .. k - 2 followed by slot k - 1. */
  lemma SlotsUpToSnoc(timers: seq<NamedTimer>, n: nat, now: int, k: nat)
    requires 0 < k <= n <= |timers|
    ensures SlotsUpTo(timers, n, now, k) == SlotsUpTo(timers, n, now, k - 1) + SlotOps(timers[k - 1], k - 1, n, now)
  {
  }

  /** No request in ops is a line. */
  predicate NoLine(ops: seq<CanvasOp>) {
    forall i :: 0 <= i < |ops| ==> !ops[i].Line?
  }

  lemma {:induction false} NoLineLineYs(ops: seq<CanvasOp>)
    requires NoLine(ops)
    ensures LineYs(ops) == []
    decreases |ops|
  {
    if ops != [] {
      NoLineLineYs(ops[1..]);
    }
  }

  lemma {:induction false} SlotsNoLine(timers: seq<NamedTimer>, n: nat, now: int, k: nat)
    requires 0 < n && k <= n <= |timers|
    ensures NoLine(SlotsUpTo(timers, n, now, k))
    decreases k
  {
    if k > 0 {
      SlotsNoLine(timers, n, now, k - 1);
    }
  }

  /** The slots draw no line. */
  lemma SlotsLineYs(timers: seq<NamedTimer>, n: nat, now: int, k: nat)
    requires 0 < n && k <= n <= |timers|
    ensures LineYs(SlotsUpTo(timers, n, now, k)) == []
  {
    SlotsNoLine(timers, n, now, k);
    NoLineLineYs(SlotsUpTo(timers, n, now, k));
  }

  lemma {:induction false} SeparatorFilters(count: nat, n: nat)
    requires n > 0
    ensures TimeTexts(SeparatorLines(count, n)) == [] && NameTexts(SeparatorLines(count, n)) == []
    ensures LineYs(SeparatorLines(count, n)) == seq(count, j requires 0 <= j => SeparatorY(j + 1, n))
  {
    if count > 0 {
      SeparatorFilters(count - 1, n);
      assert SeparatorLines(count, n) == SeparatorLines(count - 1, n) + [SeparatorLine(count, n)];
      FiltersAppend(SeparatorLines(count - 1, n), [SeparatorLine(count, n)]);
    }
  }

  /**
   * The image shows the remaining times of the first min(count, 3) timers in list
   * order, the non-empty names among them in order, and n - 1 separators at
   * 240 * i / n for i = 1 .. n - 1; no timer draws only the background.
   */
  lemma ImageContents(timers: seq<NamedTimer>, now: int)
    ensures var n := SlotCount(|timers|);
            && TimeTexts(ImageOps(timers, now)) == FormattedTimes(timers, n, now)
            && NameTexts(ImageOps(timers, now)) == DrawnNames(timers[..n])
            && (n == 0 ==> ImageOps(timers, now) == [Background])
            && (n > 0 ==> LineYs(ImageOps(timers, now)) == seq(n - 1, j requires 0 <= j => SeparatorY(j + 1, n)))
  {
    var n := SlotCount(|timers|);
    if n > 0 {
      var seps, slots := SeparatorLines(n - 1, n), SlotsUpTo(timers, n, now, n);
      SeparatorFilters(n - 1, n);
      SlotsTimeTexts(timers, n, now, n);
      SlotsNameTexts(timers, n, now, n);
      SlotsLineYs(timers, n, now, n);
      FiltersAppend([Background], seps);
      FiltersAppend([Background] + seps, slots);
    } else {
      assert DrawnNames(timers[..0]) == [];
    }
  }

  /** Every time request asks for full size with auto-shrink; every name request for 1/n without it. */
  predicate RequestsScaled(ops: seq<CanvasOp>, n: nat)
    requires n > 0
  {
    forall j :: 0 <= j < |ops| ==> TextScaled(ops[j], n)
  }

  predicate TextScaled(op: CanvasOp, n: nat)
    requires n > 0
  {
    op.Text? ==>
      && op.x == HorizontalCenter && op.maxWidth == 200
      && (op.font == TimeFont ==> op.scale == 1.0 && op.autoScale)
      && (op.font == NameFont ==> op.scale == 1.0 / n as real && !op.autoScale && op.text != "")
  }

  lemma ScaledAppend(a: seq<CanvasOp>, b: seq<CanvasOp>, n: nat)
    requires n > 0 && RequestsScaled(a, n) && RequestsScaled(b, n)
    ensures RequestsScaled(a + b, n)
  {
    forall j | 0 <= j < |a + b|
      ensures TextScaled((a + b)[j], n)
    {
      if j >= |a| {
        assert (a + b)[j] == b[j - |a|];
      }
    }
  }

  lemma SlotScaled(t: NamedTimer, i: nat, n: nat, now: int)
    requires n > 0
    ensures RequestsScaled(SlotOps(t, i, n, now), n)
  {
  }

  lemma {:induction false} SlotScales(timers: seq<NamedTimer>, n: nat, now: int, k: nat)
    requires 0 < n && k <= n <= |timers|
    ensures RequestsScaled(SlotsUpTo(timers, n, now, k), n)
  {
    if k > 0 {
      SlotScales(timers, n, now, k - 1);
      SlotScaled(timers[k - 1], k - 1, n, now);
      ScaledAppend(SlotsUpTo(timers, n, now, k - 1), SlotOps(timers[k - 1], k - 1, n, now), n);
      SlotsUpToSnoc(timers, n, now, k);
    }
  }

  /**
   * Slot i of n occupies the band between 240 * i / n and 240 * (i + 1) / n: the time
   * sits at its middle and the name below it, both strictly inside the band.
   */
  lemma BandLayout(i: nat, n: nat)
    requires i < n
    ensures SeparatorY(i, n) < TimeY(i, n) < NameY(i, n) < SeparatorY(i + 1, n)
    ensures SeparatorY(i, n) == Height as real * i as real / n as real
    ensures TimeY(i, n) == Height as real * (i as real + 0.5) / n as real
  {
    var h := Height as real * (1.0 / n as real);
    assert h > 0.0;
    assert SeparatorY(i, n) == h * i as real;
    assert TimeY(i, n) == h * i as real + h * 0.5;
    assert NameY(i, n) == h * i as real + h * 0.8;
    assert SeparatorY(i + 1, n) == h * i as real + h;
  }

  /** A single timer: the time at 120 and the name at 192, the constants of the one-timer branch. */
  lemma SingleTimerPositions()
    ensures TimeY(0, 1) == 120.0 && NameY(0, 1) == 192.0
    ensures MaxTextWidth == 200 && HorizontalCenter == 120.0
  {
  }
}
