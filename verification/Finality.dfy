/** The last irreversible block: an order statistic over the scheduled validators, or a
    quorum of confirmations for the next block. */
module Finality {
  import opened Config
  import opened Options

  /** A validator supports a block only after this many blocks in a row. */
  const SUPPORT_MIN_RUN: nat := 2

  /** How many entries are below `v`. */
  function Below(s: seq<nat>, v: nat): (n: nat)
    ensures n <= |s|
  {
    if s == [] then 0 else (if s[0] < v then 1 else 0) + Below(s[1..], v)
  }

  /** How many entries are at least `v`. */
  function Supporters(s: seq<nat>, v: nat): nat {
    |s| - Below(s, v)
  }

  /** The indexes of the entries that are at least `v`. */
  ghost function AtLeast(s: seq<nat>, v: nat): set<nat> {
    set i: nat | i < |s| && s[i] >= v
  }

  lemma {:induction false} SupportersCount(s: seq<nat>, v: nat)
    ensures Supporters(s, v) == |AtLeast(s, v)|
    decreases |s|
  {
    hide Below;
    if s == [] {
      NoneBelow(v);
    } else {
      var n := |s| - 1;
      SupportersCount(s[..n], v);
      BelowLast(s, v);
      assert AtLeast(s, v) == AtLeast(s[..n], v) + if s[n] >= v then {n} else {};
    }
  }

  lemma NoneBelow(v: nat)
    ensures Below([], v) == 0
  {
  }

  lemma {:induction false} BelowLast(s: seq<nat>, v: nat)
    requires s != []
    ensures Below(s, v) == Below(s[..|s| - 1], v) + if s[|s| - 1] < v then 1 else 0
  {
    if |s| > 1 {
      BelowLast(s[1..], v);
      assert s[1..][..|s| - 2] == s[..|s| - 1][1..];
    }
  }

  lemma {:induction false} BelowMonotone(s: seq<nat>, v: nat, w: nat)
    requires v <= w
    ensures Below(s, v) <= Below(s, w)
  {
    if s != [] {
      BelowMonotone(s[1..], v, w);
    }
  }

  /** Below the least bound of all entries there are all of them. */
  lemma {:induction false} BelowBound(s: seq<nat>, bound: nat)
    requires forall i :: 0 <= i < |s| ==> s[i] < bound
    ensures Below(s, bound) == |s|
  {
    if s != [] {
      BelowBound(s[1..], bound);
    }
  }

  lemma {:induction false} BelowStepIsEntry(s: seq<nat>, v: nat)
    requires Below(s, v) < Below(s, v + 1)
    ensures v in s
  {
    if s[0] != v {
      BelowStepIsEntry(s[1..], v);
    }
  }

  function MaxOf(s: seq<nat>): (m: nat)
    ensures forall i :: 0 <= i < |s| ==> s[i] <= m
  {
    if s == [] then 0 else
    var m := MaxOf(s[1..]);
    assert forall i :: 1 <= i < |s| ==> s[i] == s[1..][i - 1];
    if s[0] > m then s[0] else m
  }

  /** The entry that stands at position `k` once the entries are in order. */
  method NthElement(s: seq<nat>, k: nat) returns (v: nat)
    requires k < |s|
    ensures v in s && Below(s, v) <= k < Below(s, v + 1)
  {
    v := 0;
    BelowBound(s, MaxOf(s) + 1);
    BelowZero(s);
    while Below(s, v + 1) <= k
      invariant Below(s, v) <= k && v <= MaxOf(s)
      decreases MaxOf(s) - v
    {
      v := v + 1;
    }
    BelowStepIsEntry(s, v);
  }

  lemma {:induction false} BelowZero(s: seq<nat>)
    ensures Below(s, 0) == 0
  {
    if s != [] {
      BelowZero(s[1..]);
    }
  }

  /** The position the irreversible block is read at. */
  function Offset(n: nat): (k: nat)
    ensures n > 0 ==> k < n
  {
    (FULL - IRREVERSIBLE_THRESHOLD) * n / FULL
  }

  /** The chosen number is exactly the greatest one that enough validators support. */
  lemma ChosenIsGreatestSupported(s: seq<nat>, v: nat, w: nat)
    requires s != [] && Below(s, v) <= Offset(|s|) < Below(s, v + 1)
    ensures Supporters(s, w) >= |s| - Offset(|s|) <==> w <= v
  {
    if w <= v {
      BelowMonotone(s, w, v);
    } else {
      BelowMonotone(s, v + 1, w);
    }
  }

  /** A number is supported when three quarters of the slots stand at it or above it. */
  lemma SupportQuorum(n: nat, k: nat)
    ensures k >= n - Offset(n) <==> 4 * k >= 3 * n
  {
    assert Offset(n) == n / 4;
  }

  function SlotsOf(schedule: seq<string>, supported: map<string, nat>): seq<nat>
    requires forall i :: 0 <= i < |schedule| ==> schedule[i] in supported
  {
    seq(|schedule|, i requires 0 <= i < |schedule| => supported[schedule[i]])
  }

  /** Confirmations that make the next block irreversible. */
  function ConfirmQuorum(n: nat): nat {
    n * IRREVERSIBLE_THRESHOLD / FULL
  }

  /** A quorum of confirmations is never larger than a quorum of supporting slots, and one
      smaller unless the number of slots is a multiple of four. */
  lemma QuorumsDiffer(n: nat)
    ensures ConfirmQuorum(n) == n - Offset(n) - (if n % 4 == 0 then 0 else 1)
  {
    assert Offset(n) == n / 4 && ConfirmQuorum(n) == 3 * n / 4;
  }

  // ---------------------------------------------------------------------------
  // Confirmations
  // ---------------------------------------------------------------------------

  /** The most blocks that wait for confirmations at a time. */
  const MAX_AWAITED: nat := 20

  datatype Slot = Slot(name: string, confirmed: bool)

  /** A block that waits for confirmations. */
  datatype Awaited = Awaited(num: nat, id: nat, slots: seq<Slot>)
  {
    predicate Names(validator: string) {
      exists i :: 0 <= i < |slots| && slots[i].name == validator
    }
  }

  /** How many slots have confirmed. */
  function Confirmations(slots: seq<Slot>): nat {
    if slots == [] then 0 else Confirmations(slots[..|slots| - 1]) + if slots[|slots| - 1].confirmed then 1 else 0
  }

  /** The indexes of the slots that have confirmed. */
  ghost function ConfirmedSlots(slots: seq<Slot>): set<nat> {
    set i: nat | i < |slots| && slots[i].confirmed
  }

  lemma {:induction false} ConfirmationsCount(slots: seq<Slot>)
    ensures Confirmations(slots) == |ConfirmedSlots(slots)|
  {
    if slots != [] {
      var n := |slots| - 1;
      ConfirmationsCount(slots[..n]);
      assert ConfirmedSlots(slots) == ConfirmedSlots(slots[..n]) + if slots[n].confirmed then {n} else {};
    }
  }

  function Marked(slots: seq<Slot>, validator: string): (marked: seq<Slot>)
    ensures |marked| == |slots|
    ensures forall i :: 0 <= i < |slots| ==>
      && marked[i].name == slots[i].name
      && (marked[i].confirmed <==> slots[i].confirmed || slots[i].name == validator)
  {
    seq(|slots|, i requires 0 <= i < |slots| => Slot(slots[i].name, slots[i].confirmed || slots[i].name == validator))
  }

  /** The block next to the irreversible one has its quorum among `n` scheduled validators. */
  predicate HasQuorum(a: Awaited, lib: nat, n: nat) {
    a.num == lib + 1 && Confirmations(a.slots) >= ConfirmQuorum(n)
  }

  /** Going through the waiting blocks once: the irreversible block moves on with each quorum it meets. */
  function Walk(ws: seq<Awaited>, lib: nat, n: nat): (r: (nat, seq<Awaited>))
    ensures lib <= r.0 <= lib + |ws|
  {
    if ws == [] then (lib, [])
    else
      var (before, left), a := Walk(ws[..|ws| - 1], lib, n), ws[|ws| - 1];
      if HasQuorum(a, before, n) then (a.num, left) else (before, left + [a])
  }

  predicate Ascending(ws: seq<Awaited>) {
    forall i, j :: 0 <= i < j < |ws| ==> ws[i].num < ws[j].num
  }

  /** One pass is enough: no block that is left has its quorum, and what is left stays in order. */
  lemma {:induction false} WalkIsComplete(ws: seq<Awaited>, lib: nat, n: nat, top: nat)
    requires Ascending(ws) && lib <= top && forall i :: 0 <= i < |ws| ==> ws[i].num <= top
    ensures
      var (lib', left) := Walk(ws, lib, n);
      && lib' <= top && Ascending(left)
      && (forall i :: 0 <= i < |left| ==> left[i] in ws && !HasQuorum(left[i], lib', n))
  {
    if ws != [] {
      var a := ws[|ws| - 1];
      WalkIsComplete(ws[..|ws| - 1], lib, n, top);
    }
  }

  /** Every block number the irreversible block moves over in a pass had its quorum. */
  lemma {:induction false} WalkIsSound(ws: seq<Awaited>, lib: nat, n: nat, k: nat)
    requires lib < k <= Walk(ws, lib, n).0
    ensures exists a :: a in ws && HasQuorum(a, k - 1, n)
  {
    var a, before := ws[|ws| - 1], Walk(ws[..|ws| - 1], lib, n).0;
    if k <= before {
      WalkIsSound(ws[..|ws| - 1], lib, n, k);
      var b :| b in ws[..|ws| - 1] && HasQuorum(b, k - 1, n);
      assert b in ws;
    } else {
      assert a in ws && HasQuorum(a, k - 1, n);
    }
  }

  /** The first waiting block with an id. */
  function FindAwaited(ws: seq<Awaited>, id: nat): (k: Option<nat>)
    ensures k.Some? ==> k.value < |ws| && ws[k.value].id == id
    ensures k.None? ==> forall i :: 0 <= i < |ws| ==> ws[i].id != id
  {
    if ws == [] then None
    else
      match FindAwaited(ws[..|ws| - 1], id)
      case Some(i) => Some(i)
      case None => if ws[|ws| - 1].id == id then Some(|ws| - 1) else None
  }

  /** The blocks above the irreversible one. */
  function Above(ws: seq<Awaited>, lib: nat): (r: seq<Awaited>)
    ensures forall a :: a in r <==> a in ws && a.num > lib
  {
    if ws == [] then []
    else
      var before, a := Above(ws[..|ws| - 1], lib), ws[|ws| - 1];
      if a.num <= lib then before else before + [a]
  }

  lemma {:induction false} AboveAscends(ws: seq<Awaited>, lib: nat)
    requires Ascending(ws)
    ensures Ascending(Above(ws, lib))
  {
    if ws != [] {
      AboveAscends(ws[..|ws| - 1], lib);
    }
  }

  /** Room for one more: the oldest blocks go. */
  function Newest(ws: seq<Awaited>): (r: seq<Awaited>)
    ensures |r| < MAX_AWAITED && (|ws| < MAX_AWAITED ==> r == ws)
    ensures |ws| >= MAX_AWAITED ==> |r| == MAX_AWAITED - 1 && forall i :: 0 <= i < |r| ==> r[i] == ws[|ws| - |r| + i]
  {
    if |ws| < MAX_AWAITED then ws else ws[|ws| - (MAX_AWAITED - 1)..]
  }

  /** The slots that may confirm a block: the schedule without its producer. */
  function SlotsFor(schedule: seq<string>, producer: string): seq<Slot> {
    if schedule == [] then []
    else
      var before, name := SlotsFor(schedule[..|schedule| - 1], producer), schedule[|schedule| - 1];
      if name == producer then before else before + [Slot(name, false)]
  }

  function NamesOf(slots: seq<Slot>): (names: seq<string>) {
    seq(|slots|, i requires 0 <= i < |slots| => slots[i].name)
  }

  /** A block starts without confirmations, and everybody in the schedule but its producer may confirm it, once for
      every slot. */
  lemma {:induction false} SlotsForMeans(schedule: seq<string>, producer: string)
    ensures
      var slots := SlotsFor(schedule, producer);
      && (forall i :: 0 <= i < |slots| ==> !slots[i].confirmed)
      && (forall name :: multiset(NamesOf(slots))[name] == if name == producer then 0 else multiset(schedule)[name])
  {
    if schedule != [] {
      var front, name := schedule[..|schedule| - 1], schedule[|schedule| - 1];
      SlotsForMeans(front, producer);
      assert schedule == front + [name];
      if name != producer {
        assert NamesOf(SlotsFor(schedule, producer)) == NamesOf(SlotsFor(front, producer)) + [name];
      }
    }
  }

  /** What happens to the part of the chain state that decides irreversibility. */
  datatype Event =
    | Applied(producer: string, missed: set<string>, id: nat)
    | Confirmed(id: nat, validator: string)
    | Scheduled(schedule: seq<string>, emergency: bool)

  /** The part of the chain state that decides irreversibility, without the runs of the validators. */
  datatype Snapshot = Snapshot(supported: map<string, nat>, schedule: seq<string>, head: nat, lib: nat, emergency: bool,
                               waiting: seq<Awaited>)
  {
    ghost predicate Known() {
      forall i :: 0 <= i < |schedule| ==> schedule[i] in supported
    }
  }

  /** Three quarters of the slots have their last supported block at this number or above it. */
  ghost predicate SupportedIn(s: Snapshot, num: nat)
    requires s.Known()
  {
    4 * |AtLeast(SlotsOf(s.schedule, s.supported), num)| >= 3 * |s.schedule|
  }

  /** What an event does: a block of known validators raises the head by one, moves the irreversible block to a
      supported number and through the waiting blocks that have their quorum, and then waits itself; a confirmation
      marks slots and moves the irreversible block by at most one; only a schedule changes the mode. */
  ghost predicate EventEnds(event: Event, a: Snapshot, b: Snapshot)
    requires b.Known()
  {
    match event
    case Applied(producer, missed, id) =>
      if producer in a.supported && missed <= a.supported.Keys then
        && b.head == a.head + 1 && b.schedule == a.schedule && b.emergency == a.emergency
        && (b.emergency ==> b.lib < b.head)
        && (exists mid :: AppliedBy(a, b, producer, id, mid))
      else b == a
    case Confirmed(id, validator) =>
      && b == a.(lib := b.lib, waiting := b.waiting)
      && var k := FindAwaited(a.waiting, id);
         if a.emergency || validator !in a.schedule || k.None? then b == a
         else
           var w := a.waiting[k.value].(slots := Marked(a.waiting[k.value].slots, validator));
           && b.waiting == a.waiting[k.value := w]
           && b.lib == if w.Names(validator) && HasQuorum(w, a.lib, |a.schedule|) then a.lib + 1 else a.lib
    case Scheduled(slots, on) =>
      b == if slots != [] && forall i :: 0 <= i < |slots| ==> slots[i] in a.supported
           then a.(schedule := slots, emergency := on) else a
  }

  /** The irreversible block first moves to `mid` by support, and from there by confirmations. */
  ghost predicate AppliedBy(a: Snapshot, b: Snapshot, producer: string, id: nat, mid: nat)
    requires b.Known()
  {
    && a.lib <= mid <= b.lib && (mid > a.lib ==> SupportedIn(b, mid))
    && exists left :: WaitedBy(a, b, producer, id, mid, left)
  }

  ghost predicate WaitedBy(a: Snapshot, b: Snapshot, producer: string, id: nat, mid: nat, left: seq<Awaited>) {
    && (b.lib, left) == (if a.emergency then (mid, a.waiting) else Walk(a.waiting, mid, |a.schedule|))
    && b.waiting == Newest(Above(left, b.lib)) + [Awaited(b.head, id, SlotsFor(a.schedule, producer))]
  }

  lemma StepEnds(a: Snapshot, b: Snapshot, producer: string, missed: set<string>, id: nat, mid: nat, left: seq<Awaited>)
    requires b.Known() && producer in a.supported && b.head == a.head + 1 && a.schedule == b.schedule
    requires a.emergency == b.emergency && (b.emergency ==> b.lib < b.head) && WaitedBy(a, b, producer, id, mid, left)
    requires a.lib <= mid <= b.lib && (mid > a.lib ==> SupportedIn(b, mid))
    ensures missed <= a.supported.Keys ==> EventEnds(Applied(producer, missed, id), a, b)
  {
    hide Walk, SlotsFor, Above, Newest, SupportedIn, WaitedBy;
    assert AppliedBy(a, b, producer, id, mid);
  }

  /** The part of the chain state that decides irreversibility. */
  class FinalityState {
    /** Blocks produced in a row, and the last block produced in a long enough run. */
    var run: map<string, nat>
    var supported: map<string, nat>
    var schedule: seq<string>
    var head: nat
    var lib: nat
    var emergency: bool
    /** Blocks that wait for confirmations, the oldest first. */
    var waiting: seq<Awaited>

    ghost predicate Valid()
      reads this
    {
      && run.Keys == supported.Keys && schedule != []
      && (forall i :: 0 <= i < |schedule| ==> schedule[i] in supported)
      && (forall w :: w in supported ==> supported[w] <= head)
      && lib <= head
      && Ascending(waiting) && (forall i :: 0 <= i < |waiting| ==> waiting[i].num <= head)
    }

    ghost function Now(): Snapshot
      reads this
    {
      Snapshot(supported, schedule, head, lib, emergency, waiting)
    }

    /** The last supported block of every slot of the schedule. */
    function Slots(): (s: seq<nat>)
      reads `schedule, `supported
      requires forall i :: 0 <= i < |schedule| ==> schedule[i] in supported
    {
      SlotsOf(schedule, supported)
    }

    /** The greatest block number that enough slots support. */
    ghost predicate IsSupported(v: nat)
      reads `schedule, `supported
      requires forall i :: 0 <= i < |schedule| ==> schedule[i] in supported
    {
      Supporters(Slots(), v) >= |schedule| - Offset(|schedule|)
    }

    /** Applies one block: resets the runs of the validators that missed their slots,
        credits the producer and moves the irreversible block. */
    method ApplyBlock(producer: string, missed: set<string>)
      requires Valid() && producer in supported && missed <= run.Keys
      modifies `run, `supported, `head, `lib
      ensures Valid() && head == old(head) + 1 && old(lib) <= lib
      ensures emergency ==> lib < head
      ensures supported ==
        if old(run[producer]) >= SUPPORT_MIN_RUN then old(supported)[producer := head] else old(supported)
      ensures forall w :: w in run ==>
        run[w] == if w == producer then old(run[w]) + 1 else if w in missed then 0 else old(run[w])
      ensures lib > old(lib) ==> IsSupported(lib)
      ensures forall v: nat :: old(lib) < v && IsSupported(v) && (!emergency || v < head) ==> v <= lib
    {
      run := map w | w in run :: if w in missed && w != producer then 0 else run[w];
      head := head + 1;
      if run[producer] >= SUPPORT_MIN_RUN {
        supported := supported[producer := head];
      }
      run := run[producer := run[producer] + 1];
      MoveLib();
    }

    /** Moves the irreversible block to the supported number, in emergency mode at most to
        the block before the head. */
    method MoveLib()
      requires Valid() && lib < head
      modifies `lib
      ensures Valid() && old(lib) <= lib
      ensures emergency ==> lib < head
      ensures lib > old(lib) ==> IsSupported(lib)
      ensures forall v: nat :: old(lib) < v && IsSupported(v) && (!emergency || v < head) ==> v <= lib
    {
      var slots := Slots();
      var v := NthElement(slots, Offset(|slots|));
      ghost var chosen := v;
      assert forall i :: 0 <= i < |slots| ==> slots[i] <= head;
      if emergency && v >= head {
        v := head - 1;
      }
      assert forall w: nat :: IsSupported(w) <==> w <= chosen by {
        forall w: nat
          ensures IsSupported(w) <==> w <= chosen
        {
          ChosenIsGreatestSupported(slots, chosen, w);
        }
      }
      assert chosen <= head;
      if v > lib {
        lib := v;
      }
    }

    /** A validator confirms a block. Outside emergency mode a scheduled validator's slots are marked, and with
        a quorum of marked slots the block next to the irreversible one becomes irreversible. */
    method Confirm(id: nat, validator: string)
      requires Valid()
      modifies `lib, `waiting
      ensures Valid() && old(lib) <= lib <= old(lib) + 1
      ensures
        var k := FindAwaited(old(waiting), id);
        if emergency || validator !in schedule || k.None? then lib == old(lib) && waiting == old(waiting)
        else
          var a := old(waiting)[k.value].(slots := Marked(old(waiting)[k.value].slots, validator));
          && waiting == old(waiting)[k.value := a]
          && (lib != old(lib) <==> a.Names(validator) && HasQuorum(a, old(lib), |schedule|))
    {
      if emergency || validator !in schedule {
        return;
      }
      var k := FindAwaited(waiting, id);
      if k.Some? {
        var a := waiting[k.value];
        var slots, found, count := MarkSlots(a.slots, validator);
        waiting := waiting[k.value := a.(slots := slots)];
        if found && lib + 1 == a.num && count >= ConfirmQuorum(|schedule|) {
          lib := a.num;
        }
      }
    }

    /** Marks a validator's slots and counts all that are marked. */
    method MarkSlots(slots: seq<Slot>, validator: string) returns (marked: seq<Slot>, found: bool, count: nat)
      ensures marked == Marked(slots, validator) && count == Confirmations(marked)
      ensures found <==> Awaited(0, 0, marked).Names(validator)
    {
      marked, found, count := [], false, 0;
      for j := 0 to |slots|
        invariant marked == Marked(slots[..j], validator) && count == Confirmations(marked)
        invariant found <==> exists i :: 0 <= i < j && slots[i].name == validator
      {
        var slot := slots[j];
        if slot.name == validator {
          slot := Slot(validator, true);
          found := true;
        }
        assert slots[..j + 1][..j] == slots[..j];
        marked := marked + [slot];
        assert marked[..j] == Marked(slots[..j], validator);
        if slot.confirmed {
          count := count + 1;
        }
      }
      assert slots[..|slots|] == slots;
      assert forall i :: 0 <= i < |slots| ==> marked[i].name == slots[i].name;
    }

    /** Goes through the waiting blocks after a block was applied. */
    method CheckWaiting()
      requires Valid()
      modifies `lib, `waiting
      ensures Valid() && old(lib) <= lib
      ensures (lib, waiting) == if emergency then (old(lib), old(waiting)) else Walk(old(waiting), old(lib), |schedule|)
      ensures !emergency ==> forall i :: 0 <= i < |waiting| ==> !HasQuorum(waiting[i], lib, |schedule|)
      ensures forall i :: 0 <= i < |waiting| ==> waiting[i] in old(waiting)
    {
      if emergency {
        return;
      }
      ghost var ws, from := waiting, lib;
      WalkIsComplete(ws, from, |schedule|, head);
      var all, left := waiting, [];
      for i := 0 to |all|
        invariant (lib, left) == Walk(ws[..i], from, |schedule|) && waiting == ws
      {
        assert ws[..i + 1][..i] == ws[..i];
        if HasQuorum(all[i], lib, |schedule|) {
          lib := all[i].num;
        } else {
          left := left + [all[i]];
        }
      }
      assert ws[..|ws|] == ws;
      waiting := left;
    }

    /** Lets the head block wait for confirmations. */
    method Await(id: nat, producer: string)
      requires Valid() && forall i :: 0 <= i < |waiting| ==> waiting[i].num < head
      modifies `waiting
      ensures waiting == Newest(Above(old(waiting), lib)) + [Awaited(head, id, SlotsFor(schedule, producer))]
      ensures |waiting| <= MAX_AWAITED && Valid()
    {
      hide SlotsFor, Newest, Above;
      AboveAscends(waiting, lib);
      waiting := Newest(Above(waiting, lib)) + [Awaited(head, id, SlotsFor(schedule, producer))];
    }

    /** Everything an applied block does. */
    method Step(producer: string, missed: set<string>, id: nat)
      requires Valid() && producer in supported && missed <= run.Keys
      modifies `run, `supported, `head, `lib, `waiting
      ensures Valid() && Now().Known() && EventEnds(Applied(producer, missed, id), old(Now()), Now())
      ensures old(lib) <= lib && supported.Keys == old(supported).Keys
    {
      hide Walk, HasQuorum, Supporters, SlotsFor, Above, Ascending, Newest, EventEnds, AppliedBy;
      ApplyBlock(producer, missed);
      ghost var mid := lib;
      SupportersCount(Slots(), mid);
      SupportQuorum(|schedule|, |AtLeast(Slots(), mid)|);
      CheckWaiting();
      ghost var left := waiting;
      Await(id, producer);
      StepEnds(old(Now()), Now(), producer, missed, id, mid, left);
    }

    /** A new schedule, in or out of emergency mode. */
    method Reschedule(slots: seq<string>, on: bool)
      requires Valid() && slots != [] && forall i :: 0 <= i < |slots| ==> slots[i] in supported
      modifies `schedule, `emergency
      ensures Valid() && schedule == slots && emergency == on
    {
      schedule, emergency := slots, on;
    }

    /** Handles one event; a block of unknown validators and a schedule with unknown ones are ignored. */
    method Handle(event: Event)
      requires Valid()
      modifies this
      ensures Valid() && Now().Known() && supported.Keys == old(supported).Keys
      ensures old(lib) <= lib <= head && old(head) <= head
      ensures EventEnds(event, old(Now()), Now())
    {
      hide FindAwaited, Marked, HasQuorum, Ascending, AppliedBy;
      match event
      case Applied(producer, missed, id) =>
        if producer in supported && missed <= run.Keys {
          Step(producer, missed, id);
        }
      case Confirmed(id, validator) => Confirm(id, validator);
      case Scheduled(slots, on) =>
        if slots != [] && forall i :: 0 <= i < |slots| ==> slots[i] in supported {
          Reschedule(slots, on);
        }
    }

    /** Over every run of blocks, confirmations and schedules the irreversible block never goes back and never
        passes the head. Every number it passes, unless a block with it was waiting already when the run began, is
        supported by three quarters of the slots or was confirmed by validators that fill three quarters of them,
        rounded down. `trace` lists the states before every event and at the end. */
    method Run(events: seq<Event>) returns (ghost trace: seq<Snapshot>)
      requires Valid()
      modifies this
      ensures Valid() && |trace| == |events| + 1 && trace[0] == old(Now()) && trace[|events|] == Now()
      ensures forall i, j :: 0 <= i <= j <= |events| ==> trace[i].lib <= trace[j].lib && trace[i].head <= trace[j].head
      ensures forall i :: 0 <= i <= |events| ==> trace[i].lib <= trace[i].head
      ensures IsRun(events, trace)
      ensures forall k, x :: 0 <= k < |events| && trace[k].lib < x <= trace[k + 1].lib && !Awaits(old(Now()), x) ==>
        SupportedIn(trace[k + 1], x) || ConfirmedBy(events, trace, k, x)
    {
      hide Valid, EventEnds, SupportedIn, ConfirmedBy, Awaits;
      trace := [Now()];
      assert Now().Known() && lib <= head by { Facts(); }
      for k := 0 to |events|
        invariant Valid() && |trace| == k + 1 && trace[0] == old(Now()) && trace[k] == Now()
        invariant forall i, j :: 0 <= i <= j <= k ==> trace[i].lib <= trace[j].lib && trace[i].head <= trace[j].head
        invariant forall i :: 0 <= i <= k ==> trace[i].lib <= trace[i].head && trace[i].Known()
        invariant forall i :: 0 <= i < k ==> EventEnds(events[i], trace[i], trace[i + 1])
      {
        Handle(events[k]);
        trace := trace + [Now()];
      }
      forall k, x | 0 <= k < |events| && trace[k].lib < x <= trace[k + 1].lib && !Awaits(old(Now()), x)
        ensures SupportedIn(trace[k + 1], x) || ConfirmedBy(events, trace, k, x)
      {
        LibJustified(events, trace, k, x);
      }
    }

    lemma Facts()
      requires Valid()
      ensures Now().Known() && lib <= head
    {
    }
  }

  // ---------------------------------------------------------------------------
  // Why the irreversible block moved
  // ---------------------------------------------------------------------------

  ghost predicate IsRun(events: seq<Event>, trace: seq<Snapshot>) {
    && |trace| == |events| + 1
    && (forall i :: 0 <= i <= |events| ==> trace[i].Known())
    && (forall i :: 0 <= i < |events| ==> EventEnds(events[i], trace[i], trace[i + 1]))
  }

  /** Who confirmed the block `id` after event `e` and up to event `k`. */
  ghost function Confirmers(events: seq<Event>, id: nat, e: nat, k: int): set<string> {
    set c | e < c <= k && c < |events| && events[c].Confirmed? && events[c].id == id :: events[c].validator
  }

  /** The slots of a schedule that somebody else than the producer fills and confirmed from. */
  ghost function Filled(schedule: seq<string>, producer: string, who: set<string>): set<nat> {
    set i: nat | i < |schedule| && schedule[i] != producer && schedule[i] in who
  }

  /** Block `x` was applied by an event up to `k`, and since then validators confirmed it that fill three quarters,
      rounded down, of as many slots as there are now. */
  ghost predicate ConfirmedBy(events: seq<Event>, trace: seq<Snapshot>, k: nat, x: nat)
    requires k < |events| && |trace| == |events| + 1
  {
    exists e :: 0 <= e <= k && BlockConfirmed(events, trace, k, x, e)
  }

  ghost predicate BlockConfirmed(events: seq<Event>, trace: seq<Snapshot>, k: nat, x: nat, e: nat)
    requires e <= k < |events| && |trace| == |events| + 1
  {
    && events[e].Applied? && trace[e + 1].head == x == trace[e].head + 1
    && var who := Confirmers(events, events[e].id, e, k);
       |Filled(trace[e].schedule, events[e].producer, who)| >= 3 * |trace[k].schedule| / 4
  }

  /** A waiting block goes back to the event that applied it, and every mark in it to a confirmation since then. */
  ghost predicate Stems(events: seq<Event>, trace: seq<Snapshot>, a: Awaited, k: nat)
    requires k <= |events| && |trace| == |events| + 1
  {
    exists e :: 0 <= e < k && StemsFrom(events, trace, a, k, e)
  }

  ghost predicate StemsFrom(events: seq<Event>, trace: seq<Snapshot>, a: Awaited, k: nat, e: nat)
    requires e < k <= |events| && |trace| == |events| + 1
  {
    && events[e].Applied? && a.id == events[e].id && a.num == trace[e + 1].head == trace[e].head + 1
    && NamesOf(a.slots) == NamesOf(SlotsFor(trace[e].schedule, events[e].producer))
    && forall i :: 0 <= i < |a.slots| && a.slots[i].confirmed ==>
        a.slots[i].name in Confirmers(events, a.id, e, k - 1)
  }

  lemma ConfirmersGrow(events: seq<Event>, id: nat, e: nat, k: int, m: int)
    requires k <= m
    ensures Confirmers(events, id, e, k) <= Confirmers(events, id, e, m)
  {
  }

  lemma StemsOn(events: seq<Event>, trace: seq<Snapshot>, a: Awaited, k: nat)
    requires k < |events| && |trace| == |events| + 1 && Stems(events, trace, a, k)
    ensures Stems(events, trace, a, k + 1)
  {
    var e :| 0 <= e < k && StemsFrom(events, trace, a, k, e);
    ConfirmersGrow(events, a.id, e, k - 1, k);
    assert StemsFrom(events, trace, a, k + 1, e);
  }

  lemma {:induction false} WalkLeft(ws: seq<Awaited>, lib: nat, n: nat, a: Awaited)
    requires a in Walk(ws, lib, n).1
    ensures a in ws
  {
    if a !in Walk(ws[..|ws| - 1], lib, n).1 {
      assert a == ws[|ws| - 1];
    } else {
      WalkLeft(ws[..|ws| - 1], lib, n, a);
    }
  }

  lemma NewStems(events: seq<Event>, trace: seq<Snapshot>, k: nat)
    requires k < |events| && |trace| == |events| + 1 && events[k].Applied? && trace[k + 1].head == trace[k].head + 1
    ensures Stems(events, trace,
                  Awaited(trace[k + 1].head, events[k].id, SlotsFor(trace[k].schedule, events[k].producer)), k + 1)
  {
    SlotsForMeans(trace[k].schedule, events[k].producer);
    var a := Awaited(trace[k + 1].head, events[k].id, SlotsFor(trace[k].schedule, events[k].producer));
    assert StemsFrom(events, trace, a, k + 1, k);
  }

  lemma MarkedStems(events: seq<Event>, trace: seq<Snapshot>, a: Awaited, k: nat)
    requires k < |events| && |trace| == |events| + 1 && Stems(events, trace, a, k)
    requires events[k].Confirmed? && events[k].id == a.id
    ensures Stems(events, trace, a.(slots := Marked(a.slots, events[k].validator)), k + 1)
  {
    var e :| 0 <= e < k && StemsFrom(events, trace, a, k, e);
    var w := a.(slots := Marked(a.slots, events[k].validator));
    ConfirmersGrow(events, a.id, e, k - 1, k);
    assert events[k].validator in Confirmers(events, a.id, e, k);
    assert NamesOf(w.slots) == NamesOf(a.slots);
    assert StemsFrom(events, trace, w, k + 1, e);
  }

  /** A block with this number waits for confirmations. */
  ghost predicate Awaits(s: Snapshot, x: nat) {
    exists a :: a in s.waiting && a.num == x
  }

  /** Every waiting block of a run that did not wait at its start stems from an event of it. */
  lemma {:induction false} WaitingStems(events: seq<Event>, trace: seq<Snapshot>, k: nat, a: Awaited)
    requires IsRun(events, trace) && k <= |events| && a in trace[k].waiting && !Awaits(trace[0], a.num)
    ensures Stems(events, trace, a, k)
  {
    hide Stems, SupportedIn, HasQuorum, SlotsFor, Walk, AppliedBy, Newest, Above;
    var s, t, event := trace[k - 1], trace[k], events[k - 1];
    assert EventEnds(event, s, t);
    if a in s.waiting {
      WaitingStems(events, trace, k - 1, a);
      StemsOn(events, trace, a, k - 1);
    } else {
      match event
      case Applied(producer, missed, id) =>
        OnlyNewWaits(s, t, producer, id, a);
        NewStems(events, trace, k - 1);
      case Confirmed(id, validator) =>
        var i := FindAwaited(s.waiting, id).value;
        WaitingStems(events, trace, k - 1, s.waiting[i]);
        MarkedStems(events, trace, s.waiting[i], k - 1);
    }
  }

  /** Of the blocks that wait after a block was applied only that block did not wait before. */
  lemma OnlyNewWaits(s: Snapshot, t: Snapshot, producer: string, id: nat, a: Awaited)
    requires t.Known() && a in t.waiting && a !in s.waiting && exists mid :: AppliedBy(s, t, producer, id, mid)
    ensures a == Awaited(t.head, id, SlotsFor(s.schedule, producer))
  {
    hide SupportedIn, HasQuorum, SlotsFor, Walk;
    var mid :| AppliedBy(s, t, producer, id, mid);
    var left :| WaitedBy(s, t, producer, id, mid, left);
    NewestFrom(Above(left, t.lib), a);
    if a in left {
      WalkLeft(s.waiting, mid, |s.schedule|, a);
    }
  }

  lemma NewestFrom(ws: seq<Awaited>, a: Awaited)
    ensures a in Newest(ws) ==> a in ws
  {
  }

  /** The marks of a block count at most the slots whose validators confirmed it. */
  lemma {:induction false} MarksFilled(schedule: seq<string>, producer: string, slots: seq<Slot>, who: set<string>)
    requires NamesOf(slots) == NamesOf(SlotsFor(schedule, producer))
    requires forall i :: 0 <= i < |slots| && slots[i].confirmed ==> slots[i].name in who
    ensures Confirmations(slots) <= |Filled(schedule, producer, who)|
    decreases |schedule|
  {
    assert |slots| == |NamesOf(slots)| == |SlotsFor(schedule, producer)|;
    if schedule != [] {
      var n := |schedule| - 1;
      var front, name := schedule[..n], schedule[n];
      var more := if name != producer && name in who then {n} else {};
      assert Filled(schedule, producer, who) == Filled(front, producer, who) + more;
      if name == producer {
        MarksFilled(front, producer, slots, who);
      } else {
        var m := |slots| - 1;
        assert SlotsFor(schedule, producer) == SlotsFor(front, producer) + [Slot(name, false)];
        assert NamesOf(slots)[m] == name && NamesOf(slots[..m]) == NamesOf(slots)[..m];
        assert NamesOf(SlotsFor(front, producer)) == NamesOf(SlotsFor(schedule, producer))[..m];
        MarksFilled(front, producer, slots[..m], who);
      }
    }
  }

  lemma QuorumNum(a: Awaited, lib: nat, n: nat)
    requires HasQuorum(a, lib, n)
    ensures a.num == lib + 1
  {
  }

  lemma QuorumIs(n: nat)
    ensures ConfirmQuorum(n) == 3 * n / 4
  {
  }

  /** A waiting block with its quorum was confirmed by enough validators. */
  lemma StemsConfirmed(events: seq<Event>, trace: seq<Snapshot>, a: Awaited, m: nat, k: nat, x: nat)
    requires k < |events| && |trace| == |events| + 1 && m <= k + 1 && (m == k + 1 ==> !events[k].Applied?)
    requires Stems(events, trace, a, m) && x > 0 && HasQuorum(a, x - 1, |trace[k].schedule|)
    ensures ConfirmedBy(events, trace, k, x)
  {
    hide Confirmations, SlotsFor, ConfirmQuorum, Filled;
    var e :| 0 <= e < m && StemsFrom(events, trace, a, m, e);
    var who := Confirmers(events, a.id, e, k);
    ConfirmersGrow(events, a.id, e, m - 1, k);
    MarksFilled(trace[e].schedule, events[e].producer, a.slots, who);
    QuorumIs(|trace[k].schedule|);
    assert BlockConfirmed(events, trace, k, x, e);
  }

  lemma SupportedBelow(s: Snapshot, num: nat, x: nat)
    requires s.Known() && SupportedIn(s, num) && x <= num
    ensures SupportedIn(s, x)
  {
    var slots := SlotsOf(s.schedule, s.supported);
    SupportersCount(slots, num);
    SupportersCount(slots, x);
    BelowMonotone(slots, x, num);
  }

  /** The irreversible block passes a number when a block is applied. */
  lemma AppliedJustified(events: seq<Event>, trace: seq<Snapshot>, k: nat, x: nat, producer: string, id: nat, mid: nat)
    requires IsRun(events, trace) && k < |events| && trace[k].lib < x <= trace[k + 1].lib && !Awaits(trace[0], x)
    requires AppliedBy(trace[k], trace[k + 1], producer, id, mid)
    ensures SupportedIn(trace[k + 1], x) || ConfirmedBy(events, trace, k, x)
  {
    hide SupportedIn, ConfirmedBy, HasQuorum, Stems, SlotsFor, Walk, Awaits, EventEnds, Above, Newest;
    var s, t := trace[k], trace[k + 1];
    var left :| WaitedBy(s, t, producer, id, mid, left);
    if x <= mid {
      SupportedBelow(t, mid, x);
    } else {
      WalkIsSound(s.waiting, mid, |s.schedule|, x);
      var a :| a in s.waiting && HasQuorum(a, x - 1, |s.schedule|);
      QuorumNum(a, x - 1, |s.schedule|);
      WaitingStems(events, trace, k, a);
      StemsConfirmed(events, trace, a, k, k, x);
    }
  }

  /** Every number that the irreversible block passes is supported, or the block was confirmed. */
  lemma LibJustified(events: seq<Event>, trace: seq<Snapshot>, k: nat, x: nat)
    requires IsRun(events, trace) && k < |events| && trace[k].lib < x <= trace[k + 1].lib && !Awaits(trace[0], x)
    ensures SupportedIn(trace[k + 1], x) || ConfirmedBy(events, trace, k, x)
  {
    hide SupportedIn, ConfirmedBy, HasQuorum, Stems, SlotsFor, Walk, Awaits, Marked, AppliedBy;
    var s, t, event := trace[k], trace[k + 1], events[k];
    assert EventEnds(event, s, t);
    match event
    case Applied(producer, missed, id) =>
      var mid :| AppliedBy(s, t, producer, id, mid);
      AppliedJustified(events, trace, k, x, producer, id, mid);
    case Confirmed(id, validator) =>
      var i := FindAwaited(s.waiting, id).value;
      QuorumNum(t.waiting[i], x - 1, |s.schedule|);
      WaitingStems(events, trace, k + 1, t.waiting[i]);
      StemsConfirmed(events, trace, t.waiting[i], k + 1, k, x);
    case Scheduled(_, _) =>
  }
}
