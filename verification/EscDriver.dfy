/** The ESC driver in place (EscDriverEsp8266.cpp, and the same code in EscDriverEsp32c3.cpp): `commit`
    fills the item array from the slots, `handle` interprets it. */
module EscDriver {
  import opened PulseCompiler

  // ----- Sorting -----

  predicate Sorted(s: seq<Slot>) {
    forall i, j :: 0 <= i < j < |s| ==> !s[j].Less(s[i])
  }

  /** Stands for `std::sort`: some permutation without inversions. */
  method SortSlots(slots: seq<Slot>) returns (sorted: seq<Slot>)
    ensures Sorted(sorted) && multiset(sorted) == multiset(slots)
  {
    sorted := [];
    for i := 0 to |slots|
      invariant Sorted(sorted) && multiset(sorted) == multiset(slots[..i])
    {
      sorted := Insert(sorted, slots[i]);
      assert slots[..i + 1] == slots[..i] + [slots[i]];
    }
    assert slots[..|slots|] == slots;
  }

  method Insert(s: seq<Slot>, x: Slot) returns (r: seq<Slot>)
    requires Sorted(s)
    ensures Sorted(r) && multiset(r) == multiset(s) + multiset{x}
  {
    var i := 0;
    while i < |s| && !x.Less(s[i])
      invariant 0 <= i <= |s|
      invariant forall k :: 0 <= k < i ==> !x.Less(s[k])
    {
      i := i + 1;
    }
    r := s[..i] + [x] + s[i..];
    assert s == s[..i] + s[i..];
    forall j | i <= j < |s| ensures !s[j].Less(x) {
      if j > i { assert !s[j].Less(s[i]); }
    }
  }

  /** In a sorted sequence the active slots come first and form a table. */
  lemma ActivePrefix(s: seq<Slot>) returns (n: nat)
    requires Sorted(s) && forall k :: 0 <= k < |s| && s[k].Active() ==> 0 <= s[k].pulse
    ensures n <= |s| && Table(s[..n])
    ensures forall k :: 0 <= k < |s| ==> (s[k].Active() <==> k < n)
  {
    n := 0;
    while n < |s| && s[n].Active()
      invariant n <= |s| && forall k :: 0 <= k < n ==> s[k].Active()
    {
      n := n + 1;
    }
    forall j, k | 0 <= j < k < n ensures s[j].pulse <= s[k].pulse { assert !s[k].Less(s[j]); }
    forall k | n <= k < |s| ensures !s[k].Active() {
      if k > n { assert !s[k].Less(s[n]); }
    }
  }

  /** `a` holds exactly the active ones among the slots, as often as they occur. */
  ghost predicate IsActivePart(a: seq<Slot>, slots: seq<Slot>) {
    forall x :: multiset(a)[x] == if x.pin != -1 then multiset(slots)[x] else 0
  }

  // ----- The program under construction -----

  /** After the second loop has seen `j` slots and stands at item `cur`. */
  ghost predicate Partial(cfg: Config, a: seq<Slot>, items: seq<Item>, j: nat, cur: nat) {
    j <= |a| && 1 <= cur < |items| && cur == (if j == 0 then 1 else ItemOf(cfg, a, j - 1)) &&
    items[0] == Item(SetPins(cfg, a, |a|), {}, if a == [] then 0 else a[0].pulse, false) &&
    (forall i :: 1 <= i <= cur ==>
      items[i].setMask == {} && !items[i].last && items[i].clrMask == ClrPins(cfg, a, if j == 0 then 0 else j - 1, i)) &&
    items[cur].ticks == 0 &&
    (forall i :: cur < i < |items| ==> items[i] == EMPTY) &&
    (forall k :: 0 <= k < j ==> ItemOf(cfg, a, k) <= cur && StartOf(items, ItemOf(cfg, a, k)) == ClearTime(cfg, a, k))
  }

  function Clearing(cfg: Config, items: seq<Item>, cur: nat, pins: set<int>): seq<Item>
    requires cur < |items|
  {
    items[cur := items[cur].(clrMask := items[cur].clrMask + pins)]
  }

  function Waiting(items: seq<Item>, cur: nat, ticks: int): seq<Item>
    requires cur < |items|
  {
    items[cur := items[cur].(ticks := ticks)]
  }

  /** Start times depend on the ticks of earlier items only. */
  lemma {:induction false} StartStays(items: seq<Item>, items': seq<Item>, i: nat)
    requires i <= |items| == |items'| && forall x :: 0 <= x < i ==> items[x].ticks == items'[x].ticks
    ensures StartOf(items, i) == StartOf(items', i)
  {
    if i > 0 { StartStays(items, items', i - 1); }
  }

  /** One more slot adds its pin to its own item only. */
  lemma ClrPinsNext(cfg: Config, a: seq<Slot>, j: nat, i: nat)
    requires j < |a|
    ensures ClrPins(cfg, a, j + 1, i) == ClrPins(cfg, a, j, i) +
              (if ItemOf(cfg, a, j) == i && Lowered(cfg, a[j]) then Low16(a[j].pin) else {})
  {}

  lemma {:induction false} ClrPinsAhead(cfg: Config, a: seq<Slot>, j: nat, i: nat)
    requires Table(a) && j < |a| && ItemOf(cfg, a, j) < i
    ensures ClrPins(cfg, a, j + 1, i) == {}
  {
    hide ItemOf;
    forall k | 0 <= k <= j ensures ItemOf(cfg, a, k) != i { ItemsInOrder(cfg, a, k, j); }
  }

  /** The first slot only sets the scene. */
  lemma FirstSlot(cfg: Config, a: seq<Slot>, items: seq<Item>)
    requires Partial(cfg, a, items, 0, 1) && a != []
    ensures Partial(cfg, a, items, 1, 1)
  {}

  /** A later slot clears the pin of the one before, and waits in an item of its own if the gap is one. */
  lemma LaterSlot(cfg: Config, a: seq<Slot>, items: seq<Item>, j: nat, cur: nat)
    requires Table(a) && Partial(cfg, a, items, j, cur) && 0 < j < |a| && cur + 1 < |items|
    ensures var pins := if Lowered(cfg, a[j - 1]) then Low16(a[j - 1].pin) else {};
            var cleared := Clearing(cfg, items, cur, pins);
            if Gap(cfg, a, j) then Partial(cfg, a, Waiting(cleared, cur, a[j].pulse - a[j - 1].pulse), j + 1, cur + 1)
            else Partial(cfg, a, cleared, j + 1, cur)
  {
    hide ClrPins, SetPins, ItemOf, StartOf, ClearTime, Low16, Lowered;
    var pins := if Lowered(cfg, a[j - 1]) then Low16(a[j - 1].pin) else {};
    var cleared := Clearing(cfg, items, cur, pins);
    ItemOfNext(cfg, a, j);
    LaterMasks(cfg, a, items, cleared, j, cur, pins);
    var next := if Gap(cfg, a, j) then Waiting(cleared, cur, a[j].pulse - a[j - 1].pulse) else cleared;
    LaterStarts(cfg, a, items, next, j, cur);
    if Gap(cfg, a, j) {
      ClrPinsAhead(cfg, a, j - 1, cur + 1);
      StartNext(next, cur);
    }
  }

  lemma LaterMasks(cfg: Config, a: seq<Slot>, items: seq<Item>, cleared: seq<Item>, j: nat, cur: nat, pins: set<int>)
    requires Table(a) && Partial(cfg, a, items, j, cur) && 0 < j < |a|
    requires pins == (if Lowered(cfg, a[j - 1]) then Low16(a[j - 1].pin) else {}) && cleared == Clearing(cfg, items, cur, pins)
    ensures forall i :: 1 <= i <= cur ==> cleared[i].clrMask == ClrPins(cfg, a, j, i)
  {
    hide ClrPins, SetPins, ItemOf, StartOf, ClearTime, Low16, Lowered;
    forall i | 1 <= i <= cur ensures cleared[i].clrMask == ClrPins(cfg, a, j, i) {
      ClrPinsNext(cfg, a, j - 1, i);
    }
  }

  lemma {:induction false} LaterStarts(cfg: Config, a: seq<Slot>, items: seq<Item>, next: seq<Item>, j: nat, cur: nat)
    requires Partial(cfg, a, items, j, cur) && |next| == |items|
    requires forall x :: 0 <= x < cur ==> items[x].ticks == next[x].ticks
    ensures forall k :: 0 <= k < j ==> ItemOf(cfg, a, k) <= cur && StartOf(next, ItemOf(cfg, a, k)) == ClearTime(cfg, a, k)
    ensures StartOf(next, cur) == StartOf(items, cur)
  {
    hide ClrPins, SetPins, ItemOf, ClearTime, StartOf;
    StartStays(items, next, cur);
    forall k | 0 <= k < j
      ensures ItemOf(cfg, a, k) <= cur && StartOf(next, ItemOf(cfg, a, k)) == ClearTime(cfg, a, k)
    {
      StartStays(items, next, ItemOf(cfg, a, k));
    }
  }

  lemma ItemOfNext(cfg: Config, a: seq<Slot>, j: nat)
    requires 0 < j < |a|
    ensures ItemOf(cfg, a, j) == ItemOf(cfg, a, j - 1) + (if Gap(cfg, a, j) then 1 else 0)
    ensures ClearTime(cfg, a, j) == ClearTime(cfg, a, j - 1) + (if Gap(cfg, a, j) then a[j].pulse - a[j - 1].pulse else 0)
  {}

  /** The terminator completes the program. */
  lemma Terminated(cfg: Config, a: seq<Slot>, items: seq<Item>, m: nat, last: Item)
    requires Table(a) && Partial(cfg, a, items, |a|, m)
    requires last.setMask == {} && last.last
    requires last.clrMask == (if a == [] then {} else
               items[m].clrMask + (if Lowered(cfg, a[|a| - 1]) then Bit(a[|a| - 1].pin) else {}))
    requires cfg.async ==> last.ticks == LastTicks(cfg, a)
    ensures Compiled(cfg, a, items[m := last], m)
  {
    hide ClrPins, SetPins, ItemOf;
    var n, done := |a|, items[m := last];
    forall i | 1 <= i < m ensures done[i].clrMask == ClrPins(cfg, a, n, i) {
      if n > 0 { ClrPinsNext(cfg, a, n - 1, i); }
    }
    forall k | 0 <= k < n ensures StartOf(done, ItemOf(cfg, a, k)) == ClearTime(cfg, a, k) {
      StartStays(items, done, ItemOf(cfg, a, k));
    }
  }

  /** The first loop has collected the pins of all active slots. */
  lemma FirstItem(cfg: Config, a: seq<Slot>, items: seq<Item>)
    requires |items| >= 2
    requires items[0] == Item(SetPins(cfg, a, |a|), {}, if a == [] then 0 else a[0].pulse, false)
    requires forall i :: 1 <= i < |items| ==> items[i] == EMPTY
    ensures Partial(cfg, a, items, 0, 1)
  {}

  lemma SetPinsNext(cfg: Config, a: seq<Slot>, j: nat)
    requires j < |a|
    ensures SetPins(cfg, a, j + 1) == SetPins(cfg, a, j) + (if Raised(cfg, a[j]) then Low16(a[j].pin) else {})
  {}

  // ----- The driver -----

  class Driver {
    const cfg: Config
    const slots: array<Slot>
    const items: array<Item>

    ghost predicate Valid()
      reads this, slots
    {
      1 <= slots.Length && items.Length == 2 * slots.Length &&
      forall k :: 0 <= k < slots.Length && slots[k].Active() ==> 0 <= slots[k].pulse
    }

    constructor (cfg: Config, channels: nat)
      requires channels >= 1
      ensures Valid() && this.cfg == cfg && slots.Length == channels && fresh(slots) && fresh(items)
      ensures forall k :: 0 <= k < channels ==> !slots[k].Active()
    {
      this.cfg := cfg;
      slots := new Slot[channels](_ => Slot(-1, 0));
      items := new Item[2 * channels](_ => EMPTY);
    }

    /** `commit`: compiles the slots into the item array. */
    method Commit() returns (ghost a: seq<Slot>, ghost m: nat)
      requires Valid()
      modifies items
      ensures Table(a) && IsActivePart(a, slots[..])
      ensures Compiled(cfg, a, items[..], m)
    {
      hide SetPins, ClrPins, Partial, Compiled;
      ghost var table := slots[..];
      var sorted := SortSlots(slots[..]);
      SameElements(sorted, table);
      forall k | 0 <= k < |sorted| && sorted[k].Active() ensures 0 <= sorted[k].pulse { assert sorted[k] in table; }
      ghost var n := ActivePrefix(sorted);
      a := sorted[..n];
      PrefixHasActive(sorted, n);
      assert IsActivePart(a, table);
      forall i | 0 <= i < items.Length {
        items[i] := EMPTY;
      }
      FillSetMask(sorted, a);
      FirstItem(cfg, a, items[..]);
      var last, item := FillClrMasks(sorted, a);
      m := item;
      Terminate(sorted, last, item, a);
      assert slots[..] == table;
    }

    /** The loop over the active slots that fills item 0. */
    method FillSetMask(sorted: seq<Slot>, ghost a: seq<Slot>)
      requires a <= sorted && items.Length >= 2
      requires forall k :: 0 <= k < |sorted| ==> (sorted[k].Active() <==> k < |a|)
      requires forall i :: 0 <= i < items.Length ==> items[i] == EMPTY
      modifies items
      ensures items[0] == Item(SetPins(cfg, a, |a|), {}, if a == [] then 0 else a[0].pulse, false)
      ensures forall i :: 1 <= i < items.Length ==> items[i] == EMPTY
    {
      hide SetPins;
      NoPins(cfg, a);
      var j := 0;
      while j < |sorted| && sorted[j].Active()
        invariant j <= |a|
        invariant items[0] == Item(SetPins(cfg, a, j), {}, if j == 0 then 0 else a[0].pulse, false)
        invariant forall i :: 1 <= i < items.Length ==> items[i] == EMPTY
      {
        SetPinsNext(cfg, a, j);
        if !(cfg.brushed && sorted[j].pulse <= cfg.intervalMin) {
          items[0] := items[0].(setMask := items[0].setMask + Low16(sorted[j].pin));
        }
        if j == 0 {
          items[0] := items[0].(ticks := sorted[j].pulse);
        }
        j := j + 1;
      }
    }

    /** The loop that clears each pin once the next slot is reached, merging steps that are too short or
        too long for an item of their own. */
    method FillClrMasks(sorted: seq<Slot>, ghost a: seq<Slot>) returns (last: int, item: nat)
      requires a <= sorted && Table(a) && items.Length >= |sorted| + 1 && items.Length >= 2
      requires forall k :: 0 <= k < |sorted| ==> (sorted[k].Active() <==> k < |a|)
      requires Partial(cfg, a, items[..], 0, 1)
      modifies items
      ensures last == |a| - 1 && item < items.Length
      ensures Partial(cfg, a, items[..], |a|, item)
    {
      hide Partial, Clearing, Waiting;
      last := -1;
      item := 1;
      var j := 0;
      PartialBounds(cfg, a, items[..], 0, 1);
      while j < |sorted| && sorted[j].Active()
        invariant j <= |a| && last == j - 1
        invariant item <= (if j == 0 then 1 else j) && item < items.Length
        invariant Partial(cfg, a, items[..], j, item)
      {
        ghost var before := items[..];
        if last >= 0 {
          LaterSlot(cfg, a, before, j, item);
          ClearAndWait(sorted[last], sorted[j].pulse - sorted[last].pulse, item);
          var delta := sorted[j].pulse - sorted[last].pulse;
          if DELTA_TICKS_MIN < delta < cfg.deltaMax {
            item := item + 1;
          }
        } else {
          FirstSlot(cfg, a, before);
        }
        last := j;
        j := j + 1;
        PartialBounds(cfg, a, items[..], j, item);
      }
    }

    method ClearAndWait(s: Slot, delta: int, item: nat)
      requires item < items.Length
      modifies items
      ensures var cleared := Clearing(cfg, old(items[..]), item, if Lowered(cfg, s) then Low16(s.pin) else {});
              items[..] == if DELTA_TICKS_MIN < delta < cfg.deltaMax then Waiting(cleared, item, delta) else cleared
    {
      ghost var pins := if Lowered(cfg, s) then Low16(s.pin) else {};
      assert items[item].clrMask + {} == items[item].clrMask;
      if !(cfg.brushed && s.pulse >= cfg.intervalMax) {
        items[item] := items[item].(clrMask := items[item].clrMask + Low16(s.pin));
      }
      assert items[item] == old(items[item]).(clrMask := old(items[item]).clrMask + pins);
      assert items[..] == Clearing(cfg, old(items[..]), item, if Lowered(cfg, s) then Low16(s.pin) else {});
      if delta > DELTA_TICKS_MIN && delta < cfg.deltaMax {
        items[item] := items[item].(ticks := delta);
      }
    }

    /** The terminator item. */
    method Terminate(sorted: seq<Slot>, last: int, item: nat, ghost a: seq<Slot>)
      requires a <= sorted && Table(a) && last == |a| - 1
      requires item < items.Length && Partial(cfg, a, items[..], |a|, item)
      modifies items
      ensures Compiled(cfg, a, items[..], item)
    {
      hide ClrPins, SetPins, Compiled;
      ghost var before := items[..];
      items[item] := items[item].(last := true);
      if last >= 0 {
        if !(cfg.brushed && sorted[last].pulse >= cfg.intervalMax) {
          items[item] := items[item].(clrMask := items[item].clrMask + Bit(sorted[last].pin));
        }
      }
      if cfg.async {
        items[item] := items[item].(ticks := cfg.interval);
        if last >= 0 {
          var mt := cfg.minTicks;
          if items[item].ticks > sorted[last].pulse + mt {
            items[item] := items[item].(ticks := items[item].ticks - sorted[last].pulse);
          } else {
            items[item] := items[item].(ticks := mt);
          }
        }
      }
      if a == [] { NothingCleared(cfg, a, item); }
      Terminated(cfg, a, before, item, items[item]);
      assert items[..] == before[item := items[item]];
    }

    /** `handle`, from one commit to the end of its program.  A wait is the elapsing of its ticks, whether
        the interrupt yields or spins. */
    method Handle() returns (events: seq<Event>, period: int, ghost a: seq<Slot>, ghost m: nat)
      requires Valid()
      modifies items
      ensures Table(a) && IsActivePart(a, slots[..])
      ensures Compiled(cfg, a, items[..], m) && Plays(items[..], events, period)
    {
      a, m := Commit();
      assert items[..][m].last;
      events, period := Interpret(m);
    }

    /** The item interpreter: clear, set, wait, until the item marked last. */
    method Interpret(ghost m: nat) returns (events: seq<Event>, period: int)
      requires m < items.Length && items[m].last
      ensures Plays(items[..], events, period)
    {
      hide StartOf;
      var it := 0;
      period := 0;
      events := [];
      ghost var program := items[..];
      StartZero(program);
      while it != items.Length
        invariant 0 <= it <= m && |events| == it && period == StartOf(program, it)
        invariant forall i :: 0 <= i < it ==>
          !program[i].last && events[i] == Event(StartOf(program, i), program[i].clrMask, program[i].setMask)
        decreases items.Length - it
      {
        assert items[it] == program[it];
        StartNext(program, it);
        events := events + [Event(period, items[it].clrMask, items[it].setMask)];
        period := period + items[it].ticks;
        if items[it].last {
          return;
        }
        it := it + 1;
      }
    }
  }

  lemma {:induction false} StartZero(items: seq<Item>)
    ensures StartOf(items, 0) == 0
  {}

  lemma StartNext(items: seq<Item>, i: nat)
    requires i < |items|
    ensures StartOf(items, i + 1) == StartOf(items, i) + items[i].ticks
  {}

  lemma NothingCleared(cfg: Config, a: seq<Slot>, i: nat)
    ensures ClrPins(cfg, a, 0, i) == {}
  {}

  lemma NoPins(cfg: Config, a: seq<Slot>)
    ensures SetPins(cfg, a, 0) == {}
  {}

  lemma PartialBounds(cfg: Config, a: seq<Slot>, items: seq<Item>, j: nat, cur: nat)
    requires Partial(cfg, a, items, j, cur)
    ensures cur <= (if j == 0 then 1 else j) && cur < |items|
  {}

  lemma PrefixHasActive(s: seq<Slot>, n: nat)
    requires n <= |s| && forall k :: 0 <= k < |s| ==> (s[k].Active() <==> k < n)
    ensures IsActivePart(s[..n], s)
  {
    assert s == s[..n] + s[n..];
    forall x ensures multiset(s[..n])[x] == if x.Active() then multiset(s)[x] else 0 {
      if x.Active() {
        assert x !in s[n..];
      } else {
        assert x !in s[..n];
      }
    }
  }

  /** A permutation has the same elements and length. */
  lemma SameElements(sorted: seq<Slot>, slots: seq<Slot>)
    requires multiset(sorted) == multiset(slots)
    ensures |sorted| == |slots| && forall s :: s in sorted <==> s in slots
  {
    assert |multiset(sorted)| == |multiset(slots)|;
    forall s ensures s in sorted <==> s in slots {
      assert s in sorted <==> s in multiset(sorted);
      assert s in slots <==> s in multiset(slots);
    }
  }
}
