/** One stripe of the read buffer: a ring of slots that each hold at most one
    pending "this entry was read" event. Writers record at the slot their
    write count points at; a drain consumes slots from the slot the read count
    points at until it finds an empty one or has used its budget. */
module ReadBuffer {
  import opened AccessOrder

  datatype Slot = Empty | Full(node: Id)

  /** What draining one stripe leaves behind, and the events it replayed in order. */
  datatype StripeDrain = StripeDrain(slots: seq<Slot>, readCount: nat, events: seq<Id>)

  /** The slot a counter addresses: the counter modulo the number of slots
      (`count & MASK` for a power-of-two ring). */
  function SlotOf(count: nat, size: nat): (j: nat)
    requires size > 0
    ensures j < size
    ensures count < size ==> j == count
    decreases count
  {
    if count < size then count else SlotOf(count - size, size)
  }

  /** Recording a read event overwrites whatever the addressed slot holds. */
  function Record(slots: seq<Slot>, writeCount: nat, n: Id): (r: seq<Slot>)
    requires |slots| > 0
    ensures |r| == |slots| && r[SlotOf(writeCount, |slots|)] == Full(n)
    ensures forall j :: 0 <= j < |slots| && j != SlotOf(writeCount, |slots|) ==> r[j] == slots[j]
  {
    slots[SlotOf(writeCount, |slots|) := Full(n)]
  }

  /** Consumes at most `budget` events, oldest first, clearing each slot it reads. */
  function DrainSlots(slots: seq<Slot>, readCount: nat, budget: nat): (r: StripeDrain)
    requires |slots| > 0
    ensures |r.slots| == |slots|
    ensures r.readCount == readCount + |r.events| && |r.events| <= budget
    ensures slots[SlotOf(readCount, |slots|)] == Empty ==> r == StripeDrain(slots, readCount, [])
    decreases budget
  {
    if budget == 0 then StripeDrain(slots, readCount, [])
    else
      var j := SlotOf(readCount, |slots|);
      match slots[j]
      case Empty => StripeDrain(slots, readCount, [])
      case Full(n) =>
        var rest := DrainSlots(slots[j := Empty], readCount + 1, budget - 1);
        StripeDrain(rest.slots, rest.readCount, [n] + rest.events)
  }

  /** One step of a drain: the event at the read position comes first. */
  lemma DrainSlotsStep(slots: seq<Slot>, readCount: nat, budget: nat)
    requires |slots| > 0 && budget > 0 && slots[SlotOf(readCount, |slots|)].Full?
    ensures var j := SlotOf(readCount, |slots|);
      var rest := DrainSlots(slots[j := Empty], readCount + 1, budget - 1);
      DrainSlots(slots, readCount, budget) == StripeDrain(rest.slots, rest.readCount, [slots[j].node] + rest.events)
  {
  }

  /** A drain that first replayed `done`, then continued as `d`. */
  function Resume(done: seq<Id>, d: StripeDrain): (r: StripeDrain)
    ensures r.slots == d.slots && r.readCount == d.readCount && r.events == done + d.events
  {
    StripeDrain(d.slots, d.readCount, done + d.events)
  }

  lemma ResumeAppend(done: seq<Id>, n: Id, d: StripeDrain)
    ensures Resume(done, StripeDrain(d.slots, d.readCount, [n] + d.events)) == Resume(done + [n], d)
  {
    assert done + ([n] + d.events) == done + [n] + d.events;
  }

  /** The drain still owed after taking the event at the read position. */
  /** `goal` is what has been taken so far, `consumed`, followed by the drain
      still owed from `row` at read position `rc` with `budget` events left. */
  predicate Owed(goal: StripeDrain, consumed: seq<Id>, row: seq<Slot>, rc: nat, budget: nat)
  {
    |row| > 0 && goal == Resume(consumed, DrainSlots(row, rc, budget))
  }

  lemma StepDrain(goal: StripeDrain, consumed: seq<Id>, row: seq<Slot>, rc: nat, budget: nat, j: nat, n: Id)
    requires budget > 0 && Owed(goal, consumed, row, rc, budget)
    requires j == SlotOf(rc, |row|) && row[j] == Full(n)
    ensures Owed(goal, consumed + [n], row[j := Empty], rc + 1, budget - 1)
  {
    DrainSlotsStep(row, rc, budget);
    ResumeAppend(consumed, n, DrainSlots(row[j := Empty], rc + 1, budget - 1));
  }

  /** The slot a counter addresses is the counter modulo the number of slots. */
  lemma {:induction false} SlotOfMod(count: nat, size: nat)
    requires size > 0
    ensures SlotOf(count, size) == count % size
    decreases count
  {
    if count >= size {
      SlotOfMod(count - size, size);
      var q, r := (count - size) / size, (count - size) % size;
      MulSucc(size, q);
      ModUnique(count, size, q + 1, r);
    }
  }

  /** Euclidean division leaves one remainder. */
  lemma ModUnique(a: int, size: int, q: int, r: int)
    requires size > 0 && 0 <= r < size && a == size * q + r
    ensures a % size == r
  {
    var q', r' := a / size, a % size;
    assert size * q + r == size * q' + r';
    if q > q' {
      MulAtLeast(size, q - q');
    } else if q < q' {
      MulAtLeast(size, q' - q);
    }
  }

  lemma MulSucc(size: int, q: int)
    ensures size * (q + 1) == size * q + size
  {
  }

  lemma {:induction false} MulAtLeast(size: nat, k: int)
    requires k >= 1
    ensures size * k >= size
    decreases k
  {
    if k > 1 {
      MulAtLeast(size, k - 1);
      assert size * k == size * (k - 1) + size;
    }
  }

  /** How many slots slot `j` lies past slot `p`, going round a ring of `size`. */
  function Distance(j: int, p: nat, size: nat): int
  {
    if p <= j then j - p else j + size - p
  }

  /** The slot `i` places past slot `p`, going round a ring of `size`. */
  function Ring(p: nat, i: nat, size: nat): (j: nat)
    requires p < size && i < size
    ensures j < size && Distance(j, p, size) == i
  {
    if p + i < size then p + i else p + i - size
  }

  /** A stripe that holds exactly `evs`, oldest first, from slot `p` on round
      the ring, and nothing anywhere else. */
  function Window(size: nat, p: nat, evs: seq<Id>): (w: seq<Slot>)
    ensures |w| == size
  {
    seq(size, j => if 0 <= Distance(j, p, size) < |evs| then Full(evs[Distance(j, p, size)]) else Empty)
  }

  /** The window's `i`-th event sits `i` slots past its start, wrapping at the
      ring's end. */
  lemma WindowAt(size: nat, p: nat, evs: seq<Id>, i: nat)
    requires p < size && |evs| <= size && i < |evs|
    ensures Window(size, p, evs)[Ring(p, i, size)] == Full(evs[i])
  {
  }

  predicate AllEmpty(slots: seq<Slot>)
  {
    forall j :: 0 <= j < |slots| ==> slots[j] == Empty
  }

  /** Number of occupied slots. */
  function CountFull(slots: seq<Slot>): (c: nat)
    ensures c <= |slots|
    ensures AllEmpty(slots) ==> c == 0
  {
    if slots == [] then 0 else (if slots[0].Full? then 1 else 0) + CountFull(slots[1..])
  }

  lemma WindowEmpty(size: nat, p: nat)
    ensures Window(size, p, []) == Window(size, 0, []) && AllEmpty(Window(size, 0, []))
  {
  }

  /** Advancing a counter by one advances its slot by one, wrapping at the end. */
  lemma {:induction false} SlotStep(c: nat, size: nat)
    requires size > 0
    ensures SlotOf(c + 1, size) == if SlotOf(c, size) + 1 == size then 0 else SlotOf(c, size) + 1
    decreases c
  {
    if c + 1 > size {
      SlotStep(c - size, size);
    }
  }

  /** Advancing a counter by `k` advances its slot `k` places round the ring. */
  lemma {:induction false} SlotAdd(c: nat, k: nat, size: nat)
    requires size > 0 && k < size
    ensures SlotOf(c + k, size) == Ring(SlotOf(c, size), k, size)
  {
    if k > 0 {
      SlotAdd(c, k - 1, size);
      SlotStep(c + k - 1, size);
    }
  }

  lemma WindowSet(size: nat, p: nat, evs: seq<Id>, n: Id)
    requires p < size && |evs| < size
    ensures Window(size, p, evs)[Ring(p, |evs|, size) := Full(n)] == Window(size, p, evs + [n])
  {
    var k := |evs|;
    var q := Ring(p, k, size);
    var r := Window(size, p, evs)[q := Full(n)];
    var w := Window(size, p, evs + [n]);
    forall j | 0 <= j < size ensures r[j] == w[j] {
      var d := Distance(j, p, size);
      if j == q {
        assert w[j] == Full((evs + [n])[k]);
      } else if 0 <= d < k {
        assert (evs + [n])[d] == evs[d];
      }
    }
    SlotsExt(r, w);
  }

  /** Recording the next event into a window that does not fill the ring
      extends the window at its end, wrapping round the ring's last slot. */
  lemma RecordExtendsWindow(slots: seq<Slot>, readCount: nat, evs: seq<Id>, n: Id)
    requires |slots| > 0 && |evs| < |slots|
    requires slots == Window(|slots|, SlotOf(readCount, |slots|), evs)
    ensures Record(slots, readCount + |evs|, n) == Window(|slots|, SlotOf(readCount, |slots|), evs + [n])
  {
    var size := |slots|;
    var p := SlotOf(readCount, size);
    SlotAdd(readCount, |evs|, size);
    WindowSet(size, p, evs, n);
  }

  lemma SlotsExt(a: seq<Slot>, b: seq<Slot>)
    requires |a| == |b| && forall j :: 0 <= j < |a| ==> a[j] == b[j]
    ensures a == b
  {
  }

  /** Draining a window consumes exactly its events, in the order they were
      recorded, advances the read count by their number and leaves the stripe
      empty. */
  lemma DrainWindow(slots: seq<Slot>, readCount: nat, budget: nat, evs: seq<Id>)
    requires |slots| > 0 && |evs| <= |slots|
    requires slots == Window(|slots|, SlotOf(readCount, |slots|), evs)
    requires |evs| <= budget
    ensures DrainSlots(slots, readCount, budget) == StripeDrain(Window(|slots|, 0, []), readCount + |evs|, evs)
  {
    WindowReplays(slots, readCount, evs);
    DrainReplay(slots, readCount, budget, evs, Window(|slots|, 0, []));
  }

  /** Reading `slots` from read position `readCount` on meets the events
      `evs`, one per slot, then an empty slot, and clearing them leaves `left`. */
  predicate Replays(slots: seq<Slot>, readCount: nat, evs: seq<Id>, left: seq<Slot>)
    decreases |evs|
  {
    && |slots| > 0
    && var p := SlotOf(readCount, |slots|);
      if evs == [] then slots == left && slots[p] == Empty
      else slots[p] == Full(evs[0]) && Replays(slots[p := Empty], readCount + 1, evs[1..], left)
  }

  /** A drain with budget for all of them takes exactly the events the slots replay. */
  lemma {:induction false} DrainReplay(slots: seq<Slot>, readCount: nat, budget: nat, evs: seq<Id>, left: seq<Slot>)
    requires Replays(slots, readCount, evs, left) && |evs| <= budget
    ensures DrainSlots(slots, readCount, budget) == StripeDrain(left, readCount + |evs|, evs)
    decreases |evs|
  {
    if evs != [] {
      var p := SlotOf(readCount, |slots|);
      DrainReplay(slots[p := Empty], readCount + 1, budget - 1, evs[1..], left);
      DrainJoin(slots, readCount, budget, evs, left);
    }
  }

  /** A window replays its events, oldest first, and leaves the stripe empty. */
  lemma {:induction false} WindowReplays(slots: seq<Slot>, readCount: nat, evs: seq<Id>)
    requires |slots| > 0 && |evs| <= |slots|
    requires slots == Window(|slots|, SlotOf(readCount, |slots|), evs)
    ensures Replays(slots, readCount, evs, Window(|slots|, 0, []))
    decreases |evs|
  {
    var p := SlotOf(readCount, |slots|);
    if evs == [] {
      WindowEmpty(|slots|, p);
      assert slots[p] == Empty;
    } else {
      WindowHead(slots, readCount, evs);
      WindowReplays(slots[p := Empty], readCount + 1, evs[1..]);
    }
  }

  /** The oldest event of a window sits at the read position, and clearing it
      leaves the window of the rest from the next read position. */
  lemma WindowHead(slots: seq<Slot>, readCount: nat, evs: seq<Id>)
    requires |slots| > 0 && evs != [] && |evs| <= |slots|
    requires slots == Window(|slots|, SlotOf(readCount, |slots|), evs)
    ensures slots[SlotOf(readCount, |slots|)] == Full(evs[0])
    ensures slots[SlotOf(readCount, |slots|) := Empty] == Window(|slots|, SlotOf(readCount + 1, |slots|), evs[1..])
  {
    WindowAt(|slots|, SlotOf(readCount, |slots|), evs, 0);
    WindowPop(|slots|, readCount, evs);
  }

  /** A drain whose first event is `evs[0]` and whose rest replays `evs[1..]`
      replays `evs`. */
  lemma DrainJoin(slots: seq<Slot>, readCount: nat, budget: nat, evs: seq<Id>, left: seq<Slot>)
    requires |slots| > 0 && budget > 0 && evs != []
    requires slots[SlotOf(readCount, |slots|)] == Full(evs[0])
    requires DrainSlots(slots[SlotOf(readCount, |slots|) := Empty], readCount + 1, budget - 1)
          == StripeDrain(left, readCount + |evs|, evs[1..])
    ensures DrainSlots(slots, readCount, budget) == StripeDrain(left, readCount + |evs|, evs)
  {
    DrainSlotsStep(slots, readCount, budget);
    assert [evs[0]] + evs[1..] == evs;
  }

  /** Clearing the oldest slot of a window leaves the window of the rest,
      from the next slot round the ring on. */
  lemma WindowPop(size: nat, readCount: nat, evs: seq<Id>)
    requires size > 0 && evs != [] && |evs| <= size
    ensures var p := SlotOf(readCount, size);
      Window(size, p, evs)[p := Empty] == Window(size, SlotOf(readCount + 1, size), evs[1..])
  {
    var p := SlotOf(readCount, size);
    SlotStep(readCount, size);
    var p' := SlotOf(readCount + 1, size);
    var cleared := Window(size, p, evs)[p := Empty];
    var w := Window(size, p', evs[1..]);
    forall j | 0 <= j < size ensures cleared[j] == w[j] {
      var d := Distance(j, p, size);
      if j != p && d < |evs| {
        assert Distance(j, p', size) == d - 1;
        assert evs[1..][d - 1] == evs[d];
      }
    }
    SlotsExt(cleared, w);
  }

  /** `evs` from the first of `n` slots on, and the rest empty. */
  function Linear(n: nat, evs: seq<Id>): (w: seq<Slot>)
    requires |evs| <= n
    ensures |w| == n
  {
    seq(n, i => if 0 <= i < |evs| then Full(evs[i]) else Empty)
  }

  lemma {:induction false} LinearCount(n: nat, evs: seq<Id>)
    requires |evs| <= n
    ensures CountFull(Linear(n, evs)) == |evs|
    decreases n
  {
    if n > 0 {
      var w := Linear(n, evs);
      if evs == [] {
        assert w[1..] == Linear(n - 1, []);
        LinearCount(n - 1, []);
      } else {
        assert w[1..] == Linear(n - 1, evs[1..]);
        LinearCount(n - 1, evs[1..]);
      }
    }
  }

  lemma {:induction false} CountFullAppend(a: seq<Slot>, b: seq<Slot>)
    ensures CountFull(a + b) == CountFull(a) + CountFull(b)
    decreases |a|
  {
    if a != [] {
      assert (a + b)[0] == a[0] && (a + b)[1..] == a[1..] + b;
      assert CountFull(a + b) == (if a[0].Full? then 1 else 0) + CountFull(a[1..] + b);
      CountFullAppend(a[1..], b);
    } else {
      assert a + b == b;
    }
  }

  /** A window of n events occupies exactly n slots, whether or not it wraps. */
  lemma WindowCount(size: nat, p: nat, evs: seq<Id>)
    requires p < size && |evs| <= size
    ensures CountFull(Window(size, p, evs)) == |evs|
  {
    var w := Window(size, p, evs);
    assert w == w[..p] + w[p..];
    CountFullAppend(w[..p], w[p..]);
    if |evs| <= size - p {
      WindowSplit(size, p, evs, [], evs);
    } else {
      WindowSplit(size, p, evs, evs[size - p..], evs[..size - p]);
    }
  }

  /** A window starting at slot `p` is the wrapped-round part `front` in the
      slots below `p`, then the part `back` from `p` on. */
  lemma WindowSplit(size: nat, p: nat, evs: seq<Id>, front: seq<Id>, back: seq<Id>)
    requires p < size && |evs| <= size
    requires if |evs| <= size - p then front == [] && back == evs
             else front == evs[size - p..] && back == evs[..size - p]
    ensures CountFull(Window(size, p, evs)[..p]) + CountFull(Window(size, p, evs)[p..]) == |evs|
  {
    WindowFront(size, p, evs, front);
    WindowBack(size, p, evs, back);
    LinearCount(p, front);
    LinearCount(size - p, back);
  }

  lemma WindowFront(size: nat, p: nat, evs: seq<Id>, front: seq<Id>)
    requires p < size && |evs| <= size
    requires if |evs| <= size - p then front == [] else front == evs[size - p..]
    ensures |front| <= p && Window(size, p, evs)[..p] == Linear(p, front)
  {
    var w := Window(size, p, evs)[..p];
    forall i | 0 <= i < p ensures w[i] == Linear(p, front)[i] {
      assert Distance(i, p, size) == i + size - p;
    }
    SlotsExt(w, Linear(p, front));
  }

  lemma WindowBack(size: nat, p: nat, evs: seq<Id>, back: seq<Id>)
    requires p < size && |evs| <= size
    requires if |evs| <= size - p then back == evs else back == evs[..size - p]
    ensures |back| <= size - p && Window(size, p, evs)[p..] == Linear(size - p, back)
  {
    var w := Window(size, p, evs)[p..];
    forall i | 0 <= i < size - p ensures w[i] == Linear(size - p, back)[i] {
      assert Distance(p + i, p, size) == i;
    }
    SlotsExt(w, Linear(size - p, back));
  }
}
