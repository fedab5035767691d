/** The ESC pulse compiler: a table of pulse widths becomes a timed program of pin set and clear
    operations, which the timer interrupt interprets.  Pin masks are sets of pins. */
module PulseCompiler {

  const DELTA_TICKS_MIN: int := 5

  datatype Slot = Slot(pin: int, pulse: int)
  {
    predicate Active() { pin != -1 }

    /** The source's `operator<`: shorter pulses first, inactive slots last. */
    predicate Less(rhs: Slot) {
      if !Active() then false else if !rhs.Active() then true else pulse < rhs.pulse
    }
  }

  datatype Item = Item(setMask: set<int>, clrMask: set<int>, ticks: int, last: bool)

  const EMPTY := Item({}, {}, 0, false)

  datatype Config = Config(
    brushed: bool, intervalMin: int, intervalMax: int, interval: int,
    async: bool, minTicks: int, deltaMax: int)

  // ----- What the program should do -----

  /** What is left of a pin's bit in a mask that is cut to 16 bits. */
  function Low16(pin: int): set<int> { if 0 <= pin < 16 then {pin} else {} }

  /** The pin's bit in the terminator's mask, which is not cut. */
  function Bit(pin: int): set<int> { if 0 <= pin < 32 then {pin} else {} }

  /** A brushed motor at almost no duty is never switched on. */
  predicate Raised(cfg: Config, s: Slot) { !(cfg.brushed && s.pulse <= cfg.intervalMin) }

  /** A brushed motor at almost full duty is never switched off. */
  predicate Lowered(cfg: Config, s: Slot) { !(cfg.brushed && s.pulse >= cfg.intervalMax) }

  /** The active slots, shortest pulse first. */
  predicate Table(a: seq<Slot>) {
    (forall k :: 0 <= k < |a| ==> a[k].pin != -1 && 0 <= a[k].pulse) &&
    (forall j, k :: 0 <= j < k < |a| ==> a[j].pulse <= a[k].pulse)
  }

  /** The step from slot `k - 1` to slot `k` is long enough, and not too long, for an item of its own. */
  predicate Gap(cfg: Config, a: seq<Slot>, k: nat)
    requires 0 < k < |a|
  {
    DELTA_TICKS_MIN < a[k].pulse - a[k - 1].pulse < cfg.deltaMax
  }

  /** The item that clears slot `k`. */
  function ItemOf(cfg: Config, a: seq<Slot>, k: nat): (i: nat)
    requires k < |a|
    ensures 1 <= i <= k + 1
  {
    if k == 0 then 1 else ItemOf(cfg, a, k - 1) + (if Gap(cfg, a, k) then 1 else 0)
  }

  /** When slot `k` is cleared: the shortest pulse plus the steps that were not merged away. */
  function ClearTime(cfg: Config, a: seq<Slot>, k: nat): int
    requires k < |a|
  {
    if k == 0 then a[0].pulse
    else ClearTime(cfg, a, k - 1) + (if Gap(cfg, a, k) then a[k].pulse - a[k - 1].pulse else 0)
  }

  /** The pins raised by the first `n` slots. */
  ghost function SetPins(cfg: Config, a: seq<Slot>, n: nat): set<int>
    requires n <= |a|
  {
    set k, p | 0 <= k < n && Raised(cfg, a[k]) && p in Low16(a[k].pin) :: p
  }

  /** The pins that item `i` clears, of the first `n` slots. */
  ghost function ClrPins(cfg: Config, a: seq<Slot>, n: nat, i: nat): set<int>
    requires n <= |a|
  {
    set k, p | 0 <= k < n && ItemOf(cfg, a, k) == i && Lowered(cfg, a[k]) && p in Low16(a[k].pin) :: p
  }

  // ----- What a program does -----

  /** When item `i` is executed: the ticks of the items before it have elapsed. */
  function StartOf(items: seq<Item>, i: nat): int
    requires i <= |items|
  {
    if i == 0 then 0 else StartOf(items, i - 1) + items[i - 1].ticks
  }

  /** One step of the interpreter: clear, then set, at a time. */
  datatype Event = Event(time: int, clr: set<int>, set_: set<int>)

  /** The interpreter's run over items 0 to m, the first marked last, and the wait after it. */
  ghost predicate Plays(items: seq<Item>, events: seq<Event>, period: int) {
    1 <= |events| <= |items| && items[|events| - 1].last &&
    (forall i :: 0 <= i < |events| ==>
      events[i] == Event(StartOf(items, i), items[i].clrMask, items[i].setMask)) &&
    (forall i :: 0 <= i < |events| - 1 ==> !items[i].last) &&
    period == StartOf(items, |events|)
  }

  // ----- Timing of the clear operations -----

  /** Merging never lengthens a pulse, and steps of at most five ticks cost at most five ticks each. */
  lemma {:induction false} MergedSteps(cfg: Config, a: seq<Slot>, k: nat)
    requires Table(a) && k < |a|
    ensures ClearTime(cfg, a, k) <= a[k].pulse
    ensures (forall j :: 0 < j <= k ==> a[j].pulse - a[j - 1].pulse < cfg.deltaMax) ==>
              a[k].pulse - 5 * k <= ClearTime(cfg, a, k)
  {
    if k > 0 { MergedSteps(cfg, a, k - 1); }
  }

  /** A step that is merged away is missing from every later pulse. */
  lemma {:induction false} MissingStep(cfg: Config, a: seq<Slot>, j: nat, k: nat)
    requires Table(a) && 0 < j <= k < |a| && !Gap(cfg, a, j)
    ensures ClearTime(cfg, a, k) <= a[k].pulse - (a[j].pulse - a[j - 1].pulse)
  {
    if j == k { MergedSteps(cfg, a, k - 1); } else { MissingStep(cfg, a, j, k - 1); }
  }

  /** The k-th shortest pulse is never long, the shortest is exact, and it is at most 5k ticks short if and
      only if no step up to it reaches the timer's largest step. */
  lemma {:induction false} PulseBounds(cfg: Config, a: seq<Slot>, k: nat)
    requires Table(a) && k < |a| && 5 * k < cfg.deltaMax
    ensures ClearTime(cfg, a, k) <= a[k].pulse && ClearTime(cfg, a, 0) == a[0].pulse
    ensures a[k].pulse - 5 * k <= ClearTime(cfg, a, k) <==>
              forall j :: 0 < j <= k ==> a[j].pulse - a[j - 1].pulse < cfg.deltaMax
  {
    MergedSteps(cfg, a, k);
    forall j | 0 < j <= k && a[j].pulse - a[j - 1].pulse >= cfg.deltaMax
      ensures ClearTime(cfg, a, k) < a[k].pulse - 5 * k
    {
      MissingStep(cfg, a, j, k);
    }
  }

  /** Later slots are never cleared earlier, and slots cleared at one time share their item. */
  lemma {:induction false} ItemsInOrder(cfg: Config, a: seq<Slot>, j: nat, k: nat)
    requires Table(a) && j <= k < |a|
    ensures ItemOf(cfg, a, j) <= ItemOf(cfg, a, k) && ClearTime(cfg, a, j) <= ClearTime(cfg, a, k)
    ensures ItemOf(cfg, a, j) == ItemOf(cfg, a, k) ==> ClearTime(cfg, a, j) == ClearTime(cfg, a, k)
  {
    if j < k { ItemsInOrder(cfg, a, j, k - 1); }
  }

  /** The program that `commit` emits for the table `a`: `m` is its last item. */
  ghost predicate Compiled(cfg: Config, a: seq<Slot>, items: seq<Item>, m: nat) {
    var n := |a|;
    m == (if n == 0 then 1 else ItemOf(cfg, a, n - 1)) && m < |items| &&
    items[0].setMask == SetPins(cfg, a, n) && items[0].clrMask == {} && !items[0].last &&
    (forall i :: 1 <= i <= m ==> items[i].setMask == {} && (items[i].last <==> i == m)) &&
    (forall i :: 1 <= i < m ==> items[i].clrMask == ClrPins(cfg, a, n, i)) &&
    items[m].clrMask == (if n == 0 then {} else
      ClrPins(cfg, a, n - 1, m) + (if Lowered(cfg, a[n - 1]) then Bit(a[n - 1].pin) else {})) &&
    (forall k :: 0 <= k < n ==> ItemOf(cfg, a, k) <= m && StartOf(items, ItemOf(cfg, a, k)) == ClearTime(cfg, a, k)) &&
    (n == 0 ==> items[0].ticks == 0) &&
    (cfg.async ==> items[m].ticks == LastTicks(cfg, a))
  }

  /** The wait of the last item when the program repeats by itself. */
  function LastTicks(cfg: Config, a: seq<Slot>): int {
    if a == [] then cfg.interval
    else
      var p := a[|a| - 1].pulse;
      if cfg.interval > p + cfg.minTicks then cfg.interval - p else cfg.minTicks
  }

  /** Pins of the table are pairwise different. */
  predicate DistinctPins(a: seq<Slot>) {
    forall j, k :: 0 <= j < k < |a| ==> a[j].pin != a[k].pin
  }

  /** How far a pin's bit reaches into the mask that clears slot `k`: the terminator's is not cut. */
  function ClearLimit(a: seq<Slot>, k: nat): int { if k == |a| - 1 then 32 else 16 }

  /** Slot `k` has the pin cleared at item `i`. */
  ghost predicate Clears(cfg: Config, a: seq<Slot>, k: nat, i: nat, pin: int)
    requires k < |a|
  {
    a[k].pin == pin && Lowered(cfg, a[k]) && ItemOf(cfg, a, k) == i && 0 <= pin < ClearLimit(a, k)
  }

  /** What the program does to any pin, also one that several slots share. */
  lemma ProgramMeansPins(cfg: Config, a: seq<Slot>, items: seq<Item>, m: nat, events: seq<Event>, period: int, pin: int)
    requires Table(a) && Compiled(cfg, a, items, m) && Plays(items, events, period) && a != []
    ensures |events| == m + 1
    ensures forall i :: 0 <= i <= m ==>
      (pin in events[i].set_ <==> i == 0 && 0 <= pin < 16 && exists k :: 0 <= k < |a| && a[k].pin == pin && Raised(cfg, a[k]))
    ensures forall i :: 0 <= i <= m ==>
      (pin in events[i].clr <==> exists k :: 0 <= k < |a| && Clears(cfg, a, k, i, pin))
  {
    hide SetPins, ClrPins, ItemOf, ClearTime, Clears, Compiled, Plays;
    MasksOfEvents(cfg, a, items, m, events, period);
    PinIsSet(cfg, a, pin);
    forall i | 0 <= i <= m ensures pin in events[i].clr <==> exists k :: 0 <= k < |a| && Clears(cfg, a, k, i, pin) {
      PinIsCleared(cfg, a, i, pin);
    }
  }

  lemma PinIsSet(cfg: Config, a: seq<Slot>, pin: int)
    ensures pin in SetPins(cfg, a, |a|) <==>
              0 <= pin < 16 && exists k :: 0 <= k < |a| && a[k].pin == pin && Raised(cfg, a[k])
  {
    if k :| 0 <= k < |a| && a[k].pin == pin && Raised(cfg, a[k]) && 0 <= pin < 16 {
      assert pin in Low16(a[k].pin);
    }
  }

  /** Slot `k` has the pin in the cut mask of item `i`. */
  ghost predicate ClearsLow(cfg: Config, a: seq<Slot>, k: nat, i: nat, pin: int)
    requires k < |a|
  {
    a[k].pin == pin && Lowered(cfg, a[k]) && ItemOf(cfg, a, k) == i && 0 <= pin < 16
  }

  lemma PinInMask(cfg: Config, a: seq<Slot>, n: nat, i: nat, pin: int)
    requires n <= |a|
    ensures pin in ClrPins(cfg, a, n, i) <==> exists k :: 0 <= k < n && ClearsLow(cfg, a, k, i, pin)
  {
    hide ItemOf;
    if k :| 0 <= k < n && ClearsLow(cfg, a, k, i, pin) { assert pin in Low16(a[k].pin); }
    if k :| 0 <= k < n && ItemOf(cfg, a, k) == i && Lowered(cfg, a[k]) && pin in Low16(a[k].pin) {
      assert ClearsLow(cfg, a, k, i, pin);
    }
  }

  /** Items before the last one, and the last one. */
  lemma {:induction false} PinIsCleared(cfg: Config, a: seq<Slot>, i: nat, pin: int)
    requires a != []
    ensures var n := |a|;
            var last := if Lowered(cfg, a[n - 1]) then Bit(a[n - 1].pin) else {};
            (pin in (if i == 0 then {} else if i == ItemOf(cfg, a, n - 1) then ClrPins(cfg, a, n - 1, i) + last
                     else ClrPins(cfg, a, n, i))) <==>
            exists k :: 0 <= k < n && Clears(cfg, a, k, i, pin)
  {
    hide ClrPins, ItemOf, Lowered;
    var n := |a|;
    PinInMask(cfg, a, n - 1, i, pin);
    PinInMask(cfg, a, n, i, pin);
    forall k | 0 <= k < n ensures 1 <= ItemOf(cfg, a, k) { ItemIsLater(cfg, a, k); }
    forall k | 0 <= k < n - 1 ensures ClearsLow(cfg, a, k, i, pin) <==> Clears(cfg, a, k, i, pin) {}
    assert Clears(cfg, a, n - 1, i, pin) <==>
      i == ItemOf(cfg, a, n - 1) && Lowered(cfg, a[n - 1]) && pin in Bit(a[n - 1].pin);
    assert ClearsLow(cfg, a, n - 1, i, pin) ==> Clears(cfg, a, n - 1, i, pin);
  }

  /** The program means the table, for every pin there is: the pin of slot `k` is raised once, at time 0,
      if and only if it is one of the first 16, and cleared once, at its clear time, if and only if it is one
      of those or the pin of the longest pulse below 32; all but for the two ends of a brushed motor's range. */
  lemma {:induction false} ProgramMeansTable(cfg: Config, a: seq<Slot>, items: seq<Item>, m: nat, events: seq<Event>, period: int, k: nat)
    requires Table(a) && DistinctPins(a) && Compiled(cfg, a, items, m) && Plays(items, events, period) && k < |a|
    ensures |events| == m + 1 && ItemOf(cfg, a, k) <= m
    ensures forall i :: 0 <= i <= m ==>
      (a[k].pin in events[i].set_ <==>
        i == 0 && 0 <= a[k].pin < 16 && !(cfg.brushed && a[k].pulse <= cfg.intervalMin))
    ensures forall i :: 0 <= i <= m ==>
      (a[k].pin in events[i].clr <==>
        i == ItemOf(cfg, a, k) && 0 <= a[k].pin < (if k == |a| - 1 then 32 else 16) &&
        !(cfg.brushed && a[k].pulse >= cfg.intervalMax))
    ensures events[0].time == 0 && events[ItemOf(cfg, a, k)].time == ClearTime(cfg, a, k)
  {
    hide SetPins, ClrPins, ItemOf, ClearTime, Compiled, Plays;
    MasksOfEvents(cfg, a, items, m, events, period);
    ProgramMeansPins(cfg, a, items, m, events, period, a[k].pin);
    ItemIsLater(cfg, a, k);
    forall i | 0 <= i <= m
      ensures a[k].pin in events[i].clr <==>
                i == ItemOf(cfg, a, k) && Lowered(cfg, a[k]) && 0 <= a[k].pin < ClearLimit(a, k)
    {
      if i == ItemOf(cfg, a, k) && Lowered(cfg, a[k]) && 0 <= a[k].pin < ClearLimit(a, k) {
        assert Clears(cfg, a, k, i, a[k].pin);
      }
    }
  }

  /** A pulse is cleared later than the next shorter one by their step, if that is at least six ticks and below
      the timer's largest, and together with it otherwise; the shortest is cleared when it is over. */
  lemma ClearSteps(cfg: Config, a: seq<Slot>, items: seq<Item>, m: nat, events: seq<Event>, period: int, k: nat)
    requires Table(a) && Compiled(cfg, a, items, m) && Plays(items, events, period) && k < |a|
    ensures ItemOf(cfg, a, k) < |events| && events[ItemOf(cfg, a, 0)].time == a[0].pulse
    ensures k > 0 ==>
      var step := a[k].pulse - a[k - 1].pulse;
      (ItemOf(cfg, a, k) == ItemOf(cfg, a, k - 1) <==> !(6 <= step < cfg.deltaMax)) &&
      events[ItemOf(cfg, a, k)].time ==
        events[ItemOf(cfg, a, k - 1)].time + (if 6 <= step < cfg.deltaMax then step else 0)
  {
    hide Compiled, Plays, SetPins, ClrPins;
    MasksOfEvents(cfg, a, items, m, events, period);
  }

  /** The level of a pin after the first `n` steps: clearing comes before setting. */
  ghost predicate High(events: seq<Event>, pin: int, n: nat, before: bool)
    requires n <= |events|
  {
    if n == 0 then before
    else pin in events[n - 1].set_ || (pin !in events[n - 1].clr && High(events, pin, n - 1, before))
  }

  /** The pulse on the pin of slot `k`, the shortest one for that pin, whatever its level before.  One of the
      first 16 pins is high from the first step on, at time 0, up to the step of its item, and low from
      there; any other pin is never switched on.  The width is never long, and at most 5k ticks short if
      and only if no step up to it reaches the timer's largest one. */
  lemma PulseOnPin(cfg: Config, a: seq<Slot>, items: seq<Item>, m: nat, events: seq<Event>, period: int, k: nat, before: bool)
    requires Table(a) && Compiled(cfg, a, items, m) && Plays(items, events, period)
    requires !cfg.brushed && k < |a| && 5 * k < cfg.deltaMax
    requires forall j :: 0 <= j < k ==> a[j].pin != a[k].pin
    ensures ItemOf(cfg, a, k) < |events| && events[0].time == 0
    ensures 0 <= a[k].pin < 16 ==>
      forall n :: 1 <= n <= |events| ==> (High(events, a[k].pin, n, before) <==> n <= ItemOf(cfg, a, k))
    ensures !(0 <= a[k].pin < 16) ==>
      forall n :: 0 <= n <= |events| ==> (High(events, a[k].pin, n, before) ==> before)
    ensures events[ItemOf(cfg, a, k)].time <= a[k].pulse
    ensures a[k].pulse - 5 * k <= events[ItemOf(cfg, a, k)].time <==>
              forall j :: 0 < j <= k ==> a[j].pulse - a[j - 1].pulse < cfg.deltaMax
    ensures k == 0 ==> events[ItemOf(cfg, a, k)].time == a[0].pulse
  {
    hide Compiled, Plays, ItemOf, ClearTime, High;
    var pin, c := a[k].pin, ItemOf(cfg, a, k);
    MasksOfEvents(cfg, a, items, m, events, period);
    ProgramMeansPins(cfg, a, items, m, events, period, pin);
    PulseBounds(cfg, a, k);
    ItemIsLater(cfg, a, k);
    if 0 <= pin < 16 {
      assert Clears(cfg, a, k, c, pin);
      forall i | 0 <= i < c ensures pin !in events[i].clr {
        if j :| 0 <= j < |a| && Clears(cfg, a, j, i, pin) { ItemsInOrder(cfg, a, k, j); }
      }
      forall n | 1 <= n <= |events| ensures High(events, pin, n, before) <==> n <= c {
        LevelBetween(events, pin, c, n, before);
      }
    } else {
      forall n | 0 <= n <= |events| ensures High(events, pin, n, before) ==> before {
        NeverSet(events, pin, n, before);
      }
    }
  }

  /** Set at the first step alone and first cleared at step `c`: high in between. */
  lemma {:induction false} LevelBetween(events: seq<Event>, pin: int, c: nat, n: nat, before: bool)
    requires 1 <= n <= |events| && 1 <= c < |events| && pin in events[c].clr
    requires forall i :: 0 <= i < |events| ==> (pin in events[i].set_ <==> i == 0)
    requires forall i :: 0 <= i < c ==> pin !in events[i].clr
    ensures High(events, pin, n, before) <==> n <= c
  {
    if n > 1 { LevelBetween(events, pin, c, n - 1, before); }
  }

  lemma {:induction false} NeverSet(events: seq<Event>, pin: int, n: nat, before: bool)
    requires n <= |events| && forall i :: 0 <= i < |events| ==> pin !in events[i].set_
    ensures High(events, pin, n, before) ==> before
  {
    if n > 0 { NeverSet(events, pin, n - 1, before); }
  }

  /** A motor on pin 18, alone in its table: the compiled program clears the pin after its pulse of 1000
      ticks but never sets it. */
  lemma MotorWithoutPulse() returns (cfg: Config, a: seq<Slot>, items: seq<Item>, events: seq<Event>, period: int)
    ensures Table(a) && DistinctPins(a) && Compiled(cfg, a, items, 1) && Plays(items, events, period)
    ensures a == [Slot(18, 1000)] && Raised(cfg, a[0])
    ensures forall n :: 0 <= n <= |events| ==> !High(events, 18, n, false)
  {
    cfg := Config(false, 0, 0, 0, false, 0, 2_000_000);
    a := [Slot(18, 1000)];
    items := [Item({}, {}, 1000, false), Item({}, {18}, 0, true)];
    events := [Event(0, {}, {}), Event(1000, {18}, {})];
    period := 1000;
    MotorProgram(cfg, a, items);
    assert StartOf(items, 0) == 0 && StartOf(items, 1) == 1000 && StartOf(items, 2) == 1000;
    forall n | 0 <= n <= |events| ensures !High(events, 18, n, false) { NeverSet(events, 18, n, false); }
  }

  lemma MotorProgram(cfg: Config, a: seq<Slot>, items: seq<Item>)
    requires !cfg.brushed && !cfg.async && a == [Slot(18, 1000)]
    requires items == [Item({}, {}, 1000, false), Item({}, {18}, 0, true)]
    ensures Compiled(cfg, a, items, 1)
  {
    assert SetPins(cfg, a, 1) == {};
    assert ClrPins(cfg, a, 0, 1) == {};
    assert StartOf(items, 1) == StartOf(items, 0) + 1000;
  }

  /** The masks and times of the interpreter's steps, read off the program. */
  lemma {:induction false} MasksOfEvents(cfg: Config, a: seq<Slot>, items: seq<Item>, m: nat, events: seq<Event>, period: int)
    requires Compiled(cfg, a, items, m) && Plays(items, events, period) && a != []
    ensures |events| == m + 1 && m == ItemOf(cfg, a, |a| - 1) >= 1
    ensures events[0].set_ == SetPins(cfg, a, |a|) && events[0].clr == {} && events[0].time == 0
    ensures forall i :: 1 <= i <= m ==> events[i].set_ == {}
    ensures forall i :: 1 <= i < m ==> events[i].clr == ClrPins(cfg, a, |a|, i)
    ensures events[m].clr == ClrPins(cfg, a, |a| - 1, m) + (if Lowered(cfg, a[|a| - 1]) then Bit(a[|a| - 1].pin) else {})
    ensures forall k :: 0 <= k < |a| ==> ItemOf(cfg, a, k) <= m && events[ItemOf(cfg, a, k)].time == ClearTime(cfg, a, k)
  {
    hide SetPins, ClrPins, ClearTime;
    LastIsFirstLast(cfg, a, items, m, events, period);
  }

  lemma {:induction false} ItemIsLater(cfg: Config, a: seq<Slot>, k: nat)
    requires k < |a|
    ensures 1 <= ItemOf(cfg, a, k) <= k + 1
  {}

  lemma LastIsFirstLast(cfg: Config, a: seq<Slot>, items: seq<Item>, m: nat, events: seq<Event>, period: int)
    requires Compiled(cfg, a, items, m) && Plays(items, events, period)
    ensures |events| == m + 1
  {}

  /** Nothing but the pins of raised slots is ever switched on. */
  lemma NothingElseIsRaised(cfg: Config, a: seq<Slot>, items: seq<Item>, m: nat, events: seq<Event>, period: int,
                            i: nat, pin: int)
    requires Compiled(cfg, a, items, m) && Plays(items, events, period)
    requires i < |events| && pin in events[i].set_
    ensures i == 0 && 0 <= pin < 16 && exists k :: 0 <= k < |a| && a[k].pin == pin && Raised(cfg, a[k])
  {}

  /** The free-running period: the interval less the merged ticks, if it leaves room behind the last pulse. */
  lemma {:induction false} AsyncPeriod(cfg: Config, a: seq<Slot>, items: seq<Item>, m: nat, events: seq<Event>, period: int)
    requires Table(a) && Compiled(cfg, a, items, m) && Plays(items, events, period) && cfg.async
    ensures a == [] ==> period == cfg.interval
    ensures a != [] ==>
      var p, t := a[|a| - 1].pulse, ClearTime(cfg, a, |a| - 1);
      period == if cfg.interval > p + cfg.minTicks then cfg.interval - (p - t) else t + cfg.minTicks
  {
    LastIsFirstLast(cfg, a, items, m, events, period);
    assert period == StartOf(items, m) + items[m].ticks;
    if a == [] { assert StartOf(items, 1) == StartOf(items, 0) + items[0].ticks; }
  }

  /** The number of items used. */
  lemma ItemCount(cfg: Config, a: seq<Slot>, items: seq<Item>, m: nat)
    requires Compiled(cfg, a, items, m)
    ensures m + 1 <= (if a == [] then 2 else |a| + 1)
  {}
}
