/** The slot ring of the GDR importer: DMA tasks are submitted in order, complete in any order,
    and share `batch` slots and an inventory of buffers. */
module TaskRing {
  import opened Bits
  import opened Common

  /** A buffer pointer: a deleted buffer leaves its pointer behind. */
  datatype Buf = Unset | Live(n: nat) | Freed

  /** Entry i of the three parallel vectors; a task is named by its submission number. */
  datatype Slot = Slot(task: Option<nat>, src: Buf, dst: Buf)

  /** A task the engine holds: when it completes, the callback is handed `index`. */
  datatype Task = Task(n: nat, index: nat)

  /** `submitted` and `finished` count without bound; the code keeps both modulo 2^64. `used`
      counts the buffers taken from the inventory. */
  datatype State = State(submitted: nat, finished: nat, used: int, slots: seq<Slot>, inflight: set<Task>)

  function Start(batch: nat): State {
    State(0, 0, 0, seq(batch, i => Slot(None, Unset, Unset)), {})
  }

  function Index(batch: nat, n: nat): (i: nat)
    requires batch > 0
    ensures i < batch
  {
    Mod(Mod(n, U64), batch)
  }

  /** The unsigned difference of the two 64-bit indices. */
  function Outstanding(submitted: nat, finished: nat): nat {
    Mod(Mod(submitted, U64) + U64 - Mod(finished, U64), U64)
  }

  /** The loop condition and the test that ends the loop early. */
  predicate CanSubmit(s: State) {
    && Outstanding(s.submitted, s.finished) < |s.slots|
    && s.slots[Index(|s.slots|, s.submitted)].task == None
  }

  /** Put the next task into slot i. */
  function Place(s: State, i: nat): State
    requires i < |s.slots|
  {
    var n := s.submitted;
    State(n + 1, s.finished, s.used + 2, s.slots[i := Slot(Some(n), Live(n), Live(n))], s.inflight + {Task(n, i)})
  }

  /** The engine finishes t: the callback deletes the buffers and the task of its slot. */
  function Remove(s: State, t: Task): State
    requires t.index < |s.slots|
  {
    State(s.submitted, s.finished + 1, s.used - 2, s.slots[t.index := Slot(None, Freed, Freed)], s.inflight - {t})
  }

  datatype Event = Post | Completion(t: Task)

  function Step(s: State, e: Event): (s': State)
    ensures |s'.slots| == |s.slots|
  {
    match e
    case Post => if CanSubmit(s) then Place(s, Index(|s.slots|, s.submitted)) else s
    case Completion(t) => if t in s.inflight && t.index < |s.slots| then Remove(s, t) else s
  }

  function Run(batch: nat, events: seq<Event>): (s: State)
    ensures |s.slots| == batch
  {
    if events == [] then Start(batch)
    else Step(Run(batch, events[..|events| - 1]), events[|events| - 1])
  }

  lemma RunAppend(batch: nat, events: seq<Event>, e: Event)
    ensures Run(batch, events + [e]) == Step(Run(batch, events), e)
  {
    assert (events + [e])[..|events|] == events;
  }

  // ----- what every step keeps ---------------------------------------------------------------

  function Occupied(slots: seq<Slot>): set<nat> {
    set i: nat | i < |slots| && slots[i].task.Some?
  }

  /** A slot with a task owns two live buffers; a slot without one owns none. */
  predicate SlotOk(slot: Slot, submitted: nat) {
    match slot.task
    case Some(n) => slot.src == Live(n) && slot.dst == Live(n) && n < submitted
    case None => !slot.src.Live? && !slot.dst.Live?
  }

  ghost predicate Slots(slots: seq<Slot>, submitted: nat) {
    forall i :: 0 <= i < |slots| ==> SlotOk(slots[i], submitted)
  }

  /** The engine holds exactly the tasks in the slots, each with its slot's number. */
  ghost predicate Engine(slots: seq<Slot>, inflight: set<Task>) {
    && (forall t :: t in inflight ==> t.index < |slots| && slots[t.index].task == Some(t.n))
    && (forall i: nat :: i < |slots| && slots[i].task.Some? ==> Task(slots[i].task.value, i) in inflight)
  }

  predicate Counts(s: State) {
    s.finished + |Occupied(s.slots)| == s.submitted && s.used == 2 * |Occupied(s.slots)|
  }

  ghost predicate Inv(s: State) {
    Slots(s.slots, s.submitted) && Engine(s.slots, s.inflight) && Counts(s)
  }

  lemma {:induction false} SubsetSize(a: set<nat>, n: nat)
    requires forall i :: i in a ==> i < n
    ensures |a| <= n
  {
    if n == 0 {
      assert a == {};
    } else {
      SubsetSize(a - {n - 1}, n - 1);
    }
  }

  lemma OccupiedWithinBatch(slots: seq<Slot>)
    ensures |Occupied(slots)| <= |slots|
  {
    SubsetSize(Occupied(slots), |slots|);
  }

  lemma StartInv(batch: nat)
    ensures Inv(Start(batch))
  {
    assert Occupied(Start(batch).slots) == {};
  }

  lemma OccupiedMore(slots: seq<Slot>, i: nat, slot: Slot)
    requires i < |slots| && slots[i].task == None && slot.task.Some?
    ensures Occupied(slots[i := slot]) == Occupied(slots) + {i}
    ensures |Occupied(slots[i := slot])| == |Occupied(slots)| + 1
  {
    assert i !in Occupied(slots);
    assert Occupied(slots[i := slot]) == Occupied(slots) + {i};
  }

  lemma OccupiedLess(slots: seq<Slot>, i: nat, slot: Slot)
    requires i < |slots| && slots[i].task.Some? && slot.task == None
    ensures |Occupied(slots[i := slot])| == |Occupied(slots)| - 1
  {
    assert i in Occupied(slots);
    assert Occupied(slots[i := slot]) == Occupied(slots) - {i};
  }

  lemma PlaceKeepsInv(s: State, i: nat)
    requires Inv(s) && i < |s.slots| && s.slots[i].task == None
    ensures Inv(Place(s, i)) && Occupied(Place(s, i).slots) == Occupied(s.slots) + {i}
    ensures |Occupied(Place(s, i).slots)| == |Occupied(s.slots)| + 1
  {
    OccupiedMore(s.slots, i, Slot(Some(s.submitted), Live(s.submitted), Live(s.submitted)));
  }

  lemma RemoveKeepsInv(s: State, t: Task)
    requires Inv(s) && t in s.inflight
    ensures t.index < |s.slots| && Inv(Remove(s, t))
    ensures s.slots[t.index] == Slot(Some(t.n), Live(t.n), Live(t.n))
  {
    assert SlotOk(s.slots[t.index], s.submitted);
    OccupiedLess(s.slots, t.index, Slot(None, Freed, Freed));
  }

  lemma StepKeepsInv(s: State, e: Event)
    requires Inv(s)
    ensures Inv(Step(s, e))
  {
    match e
    case Post =>
      if CanSubmit(s) {
        PlaceKeepsInv(s, Index(|s.slots|, s.submitted));
      }
    case Completion(t) =>
      if t in s.inflight {
        RemoveKeepsInv(s, t);
      }
  }

  lemma {:induction false} RunInv(batch: nat, events: seq<Event>)
    ensures Inv(Run(batch, events))
  {
    if events == [] {
      StartInv(batch);
    } else {
      var before := events[..|events| - 1];
      RunInv(batch, before);
      StepKeepsInv(Run(batch, before), events[|events| - 1]);
    }
  }

  lemma OutstandingExact(s: State)
    requires |s.slots| < U32 && Counts(s)
    ensures Outstanding(s.submitted, s.finished) == |Occupied(s.slots)| == s.submitted - s.finished
    ensures |Occupied(s.slots)| <= |s.slots|
  {
    OccupiedWithinBatch(s.slots);
    ModDistance(s.submitted, s.finished, U64);
  }

  // ----- main results --------------------------------------------------------------------------

  /** For every completion order: the 64-bit difference of the two indices is the number of
      occupied slots, never more than the batch; each occupied slot has two buffers of the
      inventory and no other slot has any. */
  lemma OccupancyExact(batch: nat, events: seq<Event>)
    requires batch < U32
    ensures var s := Run(batch, events);
            && Outstanding(s.submitted, s.finished) == |Occupied(s.slots)| <= batch
            && s.used == 2 * |Occupied(s.slots)|
            && Engine(s.slots, s.inflight) && Slots(s.slots, s.submitted)
  {
    RunInv(batch, events);
    OutstandingExact(Run(batch, events));
  }

  /** Whatever else is submitted or completed, an outstanding task keeps its slot and its two
      live buffers. */
  lemma OutstandingUntouched(batch: nat, events: seq<Event>, e: Event, t: Task)
    requires t in Run(batch, events).inflight && e != Completion(t)
    ensures var s, s' := Run(batch, events), Run(batch, events + [e]);
            && t in s'.inflight && t.index < batch
            && s'.slots[t.index] == s.slots[t.index] == Slot(Some(t.n), Live(t.n), Live(t.n))
  {
    RunInv(batch, events);
    RunAppend(batch, events, e);
    var s := Run(batch, events);
    assert SlotOk(s.slots[t.index], s.submitted);
  }

  /** Once the engine has nothing in flight, every slot is null and every buffer is back. */
  lemma DrainedIsClean(s: State)
    requires Inv(s) && s.inflight == {}
    ensures s.used == 0 && s.finished == s.submitted
    ensures forall i :: 0 <= i < |s.slots| ==> s.slots[i].task == None
  {
    assert Occupied(s.slots) == {};
  }

  // ----- how far back an outstanding task can lie ---------------------------------------------

  ghost predicate Window(s: State) {
    forall i: nat :: i < |s.slots| && s.slots[i].task.Some? ==> s.submitted - |s.slots| <= s.slots[i].task.value
  }

  ghost predicate WindowInEveryRun(batch: nat) {
    forall events: seq<Event> :: Window(Run(batch, events))
  }

  lemma SlotDivides(batch: nat, n: nat)
    requires batch > 0 && U64 % batch == 0
    ensures Index(batch, n) == Mod(n, batch)
  {
    assert batch * (U64 / batch) == U64;
    ModOfMultiple(n, batch, U64 / batch);
  }

  /** Every task sits in the slot its number picks. */
  ghost predicate Placed(slots: seq<Slot>) {
    forall i: nat :: i < |slots| && slots[i].task.Some? ==> Index(|slots|, slots[i].task.value) == i
  }

  lemma PlaceKeepsWindow(s: State, i: nat)
    requires |s.slots| > 0 && U64 % |s.slots| == 0 && Window(s) && Placed(s.slots)
    requires i == Index(|s.slots|, s.submitted) && s.slots[i].task == None
    ensures Window(Place(s, i))
  {
    var batch, s' := |s.slots|, Place(s, i);
    forall j: nat | j < batch && s'.slots[j].task.Some? ensures s'.submitted - batch <= s'.slots[j].task.value {
      if j != i {
        var n := s.slots[j].task.value;
        SlotDivides(batch, n);
        SlotDivides(batch, s.submitted);
        assert n != s.submitted - batch;
      }
    }
  }

  lemma {:induction false} RunPlaced(batch: nat, events: seq<Event>)
    requires batch > 0
    ensures Placed(Run(batch, events).slots)
  {
    if events != [] {
      RunPlaced(batch, events[..|events| - 1]);
    }
  }

  lemma {:induction false} RunWindow(batch: nat, events: seq<Event>)
    requires batch > 0 && U64 % batch == 0
    ensures Window(Run(batch, events))
  {
    if events != [] {
      var before := events[..|events| - 1];
      RunWindow(batch, before);
      RunPlaced(batch, before);
      var s := Run(batch, before);
      if events[|events| - 1] == Post && CanSubmit(s) {
        PlaceKeepsWindow(s, Index(batch, s.submitted));
      }
    }
  }

  /** Which task each slot holds. */
  function Tasks(slots: seq<Slot>): seq<Option<nat>> {
    seq(|slots|, i requires 0 <= i < |slots| => slots[i].task)
  }

  lemma PairRun(s: State, i: nat)
    requires 2 <= |s.slots| < U32 && Inv(s) && |Occupied(s.slots)| <= 1
    requires i == Index(|s.slots|, s.submitted) && s.slots[i].task == None
    ensures var s' := Step(Step(s, Post), Completion(Task(s.submitted, i)));
            s'.submitted == s.submitted + 1 && Tasks(s'.slots) == Tasks(s.slots)
  {
    OutstandingExact(s);
    assert Step(s, Post) == Place(s, i);
  }

  /** The slots of the numbers from, ..., from + k - 1 are free. */
  ghost predicate FreeFor(tasks: seq<Option<nat>>, from: nat, k: nat)
    requires |tasks| > 0
  {
    forall n: nat :: from <= n < from + k ==> tasks[Index(|tasks|, n)] == None
  }

  lemma PairAppend(batch: nat, events: seq<Event>) returns (longer: seq<Event>)
    requires 2 <= batch < U32
    requires var s := Run(batch, events);
             s.slots[Index(batch, s.submitted)].task == None && |Occupied(s.slots)| <= 1
    ensures var s, s' := Run(batch, events), Run(batch, longer);
            s'.submitted == s.submitted + 1 && Tasks(s'.slots) == Tasks(s.slots)
  {
    var s := Run(batch, events);
    var t := Task(s.submitted, Index(batch, s.submitted));
    RunAppend(batch, events, Post);
    RunAppend(batch, events + [Post], Completion(t));
    RunInv(batch, events);
    PairRun(s, t.index);
    longer := events + [Post] + [Completion(t)];
  }

  lemma SameOccupied(a: seq<Slot>, b: seq<Slot>)
    requires Tasks(a) == Tasks(b)
    ensures Occupied(a) == Occupied(b)
  {
    assert |a| == |Tasks(a)| == |b|;
    forall i: nat | i < |a| ensures a[i].task == b[i].task {
      assert Tasks(a)[i] == Tasks(b)[i];
    }
  }

  /** Submit and complete k tasks one after the other, while the occupied slot, if any, stays. */
  lemma {:induction false} PairsRun(batch: nat, events: seq<Event>, from: nat, k: nat) returns (longer: seq<Event>)
    requires 2 <= batch < U32
    requires var s := Run(batch, events);
             s.submitted == from && FreeFor(Tasks(s.slots), from, k) && |Occupied(s.slots)| <= 1
    ensures var s, s' := Run(batch, events), Run(batch, longer);
            s'.submitted == from + k && Tasks(s'.slots) == Tasks(s.slots)
    decreases k
  {
    longer := events;
    if k > 0 {
      longer := PairsRun(batch, events, from, k - 1);
      SameOccupied(Run(batch, longer).slots, Run(batch, events).slots);
      assert Tasks(Run(batch, longer).slots)[Index(batch, from + k - 1)] == None;
      longer := PairAppend(batch, longer);
    }
  }

  /** The slots of the numbers around the wrap, when the batch does not divide 2^64: the last
      slot is skipped by the r numbers before the wrap and by batch - 1 after it. */
  lemma SlotsAroundWrap(batch: nat, n: nat)
    requires 2 <= batch < U32 && U64 % batch > 0 && U64 - U64 % batch - 1 <= n < U64 + batch - 1
    ensures Index(batch, n) == batch - 1 <==> n == U64 - U64 % batch - 1
  {
    var q, r := U64 / batch, U64 % batch;
    assert U64 == q * batch + r;
    if n < U64 {
      ModIs(n, batch);
      assert Index(batch, n) == n % batch;
      if n < U64 - r {
        assert (q - 1) * batch == q * batch - batch;
        ResidueOf(n, q - 1, batch - 1, batch);
      } else {
        ResidueOf(n, q, n - (U64 - r), batch);
      }
    } else {
      assert Mod(n, U64) == n - U64;
    }
  }

  /** From an empty ring, with the number q to come: submit q into the last slot. */
  lemma PostLast(s: State, q: nat)
    requires 2 <= |s.slots| < U32 && Inv(s) && s.submitted == q && Occupied(s.slots) == {}
    requires Index(|s.slots|, q) == |s.slots| - 1
    ensures var last, s' := |s.slots| - 1, Step(s, Post);
            s'.submitted == q + 1 && s'.slots[last].task == Some(q) && Occupied(s'.slots) == {last}
  {
    OutstandingExact(s);
    var last: nat := |s.slots| - 1;
    assert last !in Occupied(s.slots);
    PlaceKeepsInv(s, last);
  }

  lemma FreeAroundWrap(slots: seq<Slot>)
    requires 2 <= |slots| < U32 && U64 % |slots| > 0 && Occupied(slots) == {|slots| - 1}
    ensures FreeFor(Tasks(slots), U64 - U64 % |slots|, U64 % |slots| + |slots| - 1)
  {
    var batch := |slots|;
    forall n: nat | U64 - U64 % batch <= n < U64 + batch - 1 ensures Tasks(slots)[Index(batch, n)] == None {
      SlotsAroundWrap(batch, n);
      assert Index(batch, n) !in Occupied(slots);
    }
  }

  lemma FreeWhenEmpty(slots: seq<Slot>, from: nat, k: nat)
    requires |slots| > 0 && Occupied(slots) == {}
    ensures FreeFor(Tasks(slots), from, k)
  {
    forall n: nat | from <= n < from + k ensures Tasks(slots)[Index(|slots|, n)] == None {
      assert Index(|slots|, n) !in Occupied(slots);
    }
  }

  lemma OldTaskRun(batch: nat) returns (events: seq<Event>)
    requires 2 <= batch < U32 && U64 % batch > 0
    ensures !Window(Run(batch, events))
  {
    var r := U64 % batch;
    var q: nat := U64 - r - 1;
    var start := Run(batch, []);
    assert Occupied(start.slots) == {};
    FreeWhenEmpty(start.slots, 0, q);
    var e1 := PairsRun(batch, [], 0, q);
    SameOccupied(Run(batch, e1).slots, start.slots);
    RunInv(batch, e1);
    SlotsAroundWrap(batch, q);
    PostLast(Run(batch, e1), q);
    var e2 := e1 + [Post];
    RunAppend(batch, e1, Post);
    var s := Run(batch, e2);
    FreeAroundWrap(s.slots);
    events := PairsRun(batch, e2, q + 1, r + batch - 1);
    assert Tasks(Run(batch, events).slots)[batch - 1] == Tasks(s.slots)[batch - 1] == Some(q);
  }

  /** Outstanding tasks always lie within the last `batch` numbers, in every run however long,
      if and only if the batch divides 2^64: otherwise the 64-bit wrap of `now_index` breaks
      the round-robin and a task can be overtaken by more than a lap. */
  lemma WindowIffDividesWord(batch: nat)
    requires 0 < batch < U32
    ensures WindowInEveryRun(batch) <==> U64 % batch == 0
  {
    if U64 % batch == 0 {
      forall events: seq<Event> ensures Window(Run(batch, events)) {
        RunWindow(batch, events);
      }
    } else {
      var events := OldTaskRun(batch);
    }
  }

  // ----- sizes computed in 32 bits -----------------------------------------------------------------

  function Inventory(batch: nat): nat { (batch * 2) % U32 }

  ghost predicate InventorySuffices(batch: nat) {
    forall events: seq<Event> :: Run(batch, events).used <= Inventory(batch)
  }

  lemma PostNext(s: State, k: nat)
    requires k < |s.slots| < U32 && s.submitted == k && s.finished == 0 && s.slots[k].task == None
    ensures Step(s, Post) == Place(s, k)
  {
  }

  lemma {:induction false} PostsFill(batch: nat, k: nat) returns (events: seq<Event>)
    requires k <= batch < U32
    ensures var s := Run(batch, events);
            s.submitted == k && s.finished == 0 && forall i: nat :: k <= i < batch ==> s.slots[i].task == None
  {
    events := [];
    if k > 0 {
      events := PostsFill(batch, k - 1);
      PostNext(Run(batch, events), k - 1);
      RunAppend(batch, events, Post);
      events := events + [Post];
    }
  }

  /** The inventory, sized in 32-bit arithmetic, is never exhausted in any run if and only if
      the batch is below 2^31. */
  lemma InventorySufficesIff(batch: nat)
    requires batch < U32
    ensures InventorySuffices(batch) <==> batch < U32 / 2
  {
    if batch < U32 / 2 {
      forall events: seq<Event> ensures Run(batch, events).used <= Inventory(batch) {
        OccupancyExact(batch, events);
      }
    } else {
      var events := PostsFill(batch, batch);
      RunInv(batch, events);
      assert Run(batch, events).used == 2 * batch > Inventory(batch);
    }
  }

  /** Every slot's bytes lie inside the local buffer, whose length is a 32-bit product, if and
      only if that product does not wrap. */
  lemma SlotsInsideIff(batch: nat, payload: nat)
    requires 0 < batch < U32 && 0 < payload < U32
    ensures (forall i: nat :: i < batch ==> i * payload + payload <= (batch * payload) % U32)
            <==> batch * payload < U32
  {
    if batch * payload < U32 {
      forall i: nat | i < batch ensures i * payload + payload <= (batch * payload) % U32 {
        MulGap(i, batch, payload);
      }
    } else {
      var last: nat := batch - 1;
      assert last * payload + payload == batch * payload;
    }
  }

  // ----- the importer's loop in place -------------------------------------------------------------------

  /** The inner loop of post_dma_reqs. */
  function PostAll(s: State): (s': State)
    decreases |s.slots| - |Occupied(s.slots)|
  {
    if !CanSubmit(s) then s
    else
      var i := Index(|s.slots|, s.submitted);
      OccupiedMore(s.slots, i, Place(s, i).slots[i]);
      OccupiedWithinBatch(Place(s, i).slots);
      PostAll(Place(s, i))
  }

  class TaskConfig {
    const batch: nat
    var nowIndex: nat
    var finishIndex: nat
    var slots: seq<Slot>        // task_buffers, task_src_buf and task_dst_buf
    var used: int               // the buffer inventory
    var inflight: set<Task>     // the progress engine
    var created: nat            // names the next task
    ghost var finished: nat

    ghost function At(): State
      reads this
    {
      State(created, finished, used, slots, inflight)
    }

    ghost predicate Valid()
      reads this
    {
      && |slots| == batch < U32 && Inv(At())
      && nowIndex == Mod(created, U64) && finishIndex == Mod(finished, U64)
    }

    constructor (batch: nat)
      requires batch < U32
      ensures Valid() && this.batch == batch && At() == Start(batch)
    {
      this.batch := batch;
      nowIndex, finishIndex, created, finished, used := 0, 0, 0, 0, 0;
      slots := seq(batch, i => Slot(None, Unset, Unset));
      inflight := {};
      StartInv(batch);
    }

    /** Create the task and its two buffers, hand it to the progress engine. */
    method Submit(index: nat)
      requires index < |slots|
      modifies this
      ensures At() == Place(old(At()), index) && nowIndex == Mod(old(nowIndex) + 1, U64)
      ensures finished == old(finished) && finishIndex == old(finishIndex)
    {
      nowIndex := Mod(nowIndex + 1, U64);
      used := used + 2;
      slots := slots[index := Slot(Some(created), Live(created), Live(created))];
      inflight := inflight + {Task(created, index)};
      created := created + 1;
    }

    /** Post one task in the free slot `index`. */
    method PostOne(index: nat)
      requires Valid() && index < batch && slots[index].task == None
      modifies this
      ensures Valid() && At() == Place(old(At()), index) && finished == old(finished)
      ensures |Occupied(slots)| == old(|Occupied(slots)|) + 1
    {
      PlaceKeepsInv(At(), index);
      ModNext(created, U64);
      Submit(index);
    }

    /** Fill the ring: post until the window is full or the next slot is still busy. */
    method PostTasks()
      requires Valid()
      modifies this
      ensures Valid() && At() == PostAll(old(At()))
      ensures !CanSubmit(At()) && finished == old(finished) && old(inflight) <= inflight
    {
      while Mod(nowIndex + U64 - finishIndex, U64) < batch
        invariant Valid() && PostAll(At()) == PostAll(old(At())) && finished == old(finished)
        invariant old(inflight) <= inflight
        decreases batch - |Occupied(slots)|
      {
        var index := Mod(nowIndex, batch);
        if slots[index].task.Some? {
          break;
        }
        OutstandingExact(At());
        PostOne(index);
      }
    }

    /** The completion callback: the slot it is handed holds the finished task and its two
        live buffers. */
    method Completed(t: Task)
      requires Valid() && t in inflight
      modifies this
      ensures Valid() && t.index < batch && At() == Remove(old(At()), t) && created == old(created)
      ensures old(slots)[t.index] == Slot(Some(t.n), Live(t.n), Live(t.n))
    {
      RemoveKeepsInv(At(), t);
      ModNext(finished, U64);
      used := used - 2;
      slots := slots[t.index := Slot(None, Freed, Freed)];
      inflight := inflight - {t};
      finishIndex := Mod(finishIndex + 1, U64);
      finished := finished + 1;
    }

    /** The loop that dries the engine; it may report the tasks in any order. */
    method Drain()
      requires Valid()
      modifies this
      ensures Valid() && created == old(created)
      ensures used == 0 && inflight == {} && finishIndex == nowIndex
      ensures forall i :: 0 <= i < batch ==> slots[i].task == None
    {
      while inflight != {}
        invariant Valid() && created == old(created)
        decreases |inflight|
      {
        var t :| t in inflight;
        Completed(t);
      }
      DrainedIsClean(At());
    }
  }
}
