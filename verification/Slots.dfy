/** The server's connection slots: the allocator, and every interleaving of the listener with any
    number of operation tasks. */
module Slots {
  import opened Common
  import opened Requests

  /** The data the mutex protects and the operation data stored for each slot. */
  datatype Table = Table(occupied: seq<bool>, free: int, opData: seq<Option<OperationData>>)

  function CountFree(occupied: seq<bool>): nat {
    if occupied == [] then 0 else (if occupied[0] then 0 else 1) + CountFree(occupied[1..])
  }

  /** The lowest free slot, or the capacity when there is none. */
  function LowestFree(occupied: seq<bool>): (i: nat)
    ensures i <= |occupied|
    ensures i < |occupied| ==> !occupied[i]
    ensures forall j :: 0 <= j < i ==> occupied[j]
  {
    if occupied == [] || !occupied[0] then 0 else 1 + LowestFree(occupied[1..])
  }

  lemma {:induction false} CountFreeUpdate(occupied: seq<bool>, i: nat, flag: bool)
    requires i < |occupied| && occupied[i] != flag
    ensures CountFree(occupied[i := flag]) == CountFree(occupied) + if flag then -1 else 1
  {
    if i == 0 {
      assert occupied[i := flag][1..] == occupied[1..];
    } else {
      assert occupied[i := flag][1..] == occupied[1..][i - 1 := flag];
      CountFreeUpdate(occupied[1..], i - 1, flag);
    }
  }

  lemma {:induction false} SomeFreeIffCounted(occupied: seq<bool>)
    ensures CountFree(occupied) > 0 <==> LowestFree(occupied) < |occupied|
    ensures CountFree(occupied) <= |occupied|
  {
    if occupied != [] {
      SomeFreeIffCounted(occupied[1..]);
    }
  }

  lemma {:induction false} AllFree(n: nat)
    ensures CountFree(seq(n, _ => false)) == n
  {
    if n > 0 {
      AllFree(n - 1);
      assert seq(n, _ => false)[1..] == seq(n - 1, _ => false);
    }
  }

  function EmptyTable(capacity: nat): Table {
    Table(seq(capacity, _ => false), capacity, seq(capacity, _ => None))
  }

  /** `server_acquire_connection_slot`, inside the mutex. */
  function Acquire(t: Table): (Table, int) {
    var i: int := LowestFree(t.occupied);
    if t.free > 0 && i < |t.occupied| then (t.(occupied := t.occupied[i := true], free := t.free - 1), i) else (t, -1)
  }

  /** `server_release_connection_slot`, inside the mutex. */
  function Release(t: Table, i: nat): Table
    requires i < |t.occupied|
  {
    t.(occupied := t.occupied[i := false], free := t.free + 1)
  }

  /** `ServerSlots_t` */
  class ServerSlots {
    var freeSlotsCount: int
    const slotOccupiedFlags: array<bool>
    const opData: array<Option<OperationData>>

    ghost predicate Valid()
      reads this, slotOccupiedFlags, opData
    {
      slotOccupiedFlags.Length == opData.Length
    }

    ghost function View(): Table
      reads this, slotOccupiedFlags, opData
    {
      Table(slotOccupiedFlags[..], freeSlotsCount, opData[..])
    }

    /** `server_init_slots_data` */
    constructor (capacity: nat)
      ensures Valid() && fresh(slotOccupiedFlags) && fresh(opData) && View() == EmptyTable(capacity)
    {
      freeSlotsCount := capacity;
      slotOccupiedFlags := new bool[capacity](_ => false);
      opData := new Option<OperationData>[capacity](_ => None);
    }

    /** `server_acquire_connection_slot` */
    method AcquireSlot() returns (slot: int)
      requires Valid()
      modifies this, slotOccupiedFlags
      ensures Valid() && (View(), slot) == Acquire(old(View()))
    {
      slot := -1;
      if freeSlotsCount > 0 {
        var i := 0;
        while i < slotOccupiedFlags.Length
          invariant 0 <= i <= LowestFree(slotOccupiedFlags[..])
        {
          if !slotOccupiedFlags[i] {
            assert i == LowestFree(slotOccupiedFlags[..]);
            slotOccupiedFlags[i] := true;
            freeSlotsCount := freeSlotsCount - 1;
            slot := i;
            break;
          }
          i := i + 1;
        }
      }
    }

    /** `server_release_connection_slot` */
    method ReleaseSlot(slot: nat)
      requires Valid() && slot < slotOccupiedFlags.Length
      modifies this, slotOccupiedFlags
      ensures Valid() && View() == Release(old(View()), slot)
    {
      slotOccupiedFlags[slot] := false;
      freeSlotsCount := freeSlotsCount + 1;
    }
  }

  // ---------- The listener and the tasks ----------

  /** The listener in `server_try_create_operation_thread`: waiting, holding a new slot while it
      parses (`parsed` is what the parser returns), and about to create the thread. */
  datatype Listening =
    | Idle
    | Holding(slot: nat, parsed: Option<OperationData>)
    | Stored(slot: nat, request: OperationData)

  /** An operation thread: the slot and the request it was created for, and the operation data it
      has read from its slot. */
  datatype Task = Task(slot: nat, request: OperationData, loaded: Option<Option<OperationData>>)

  /** `spawned`, `acquired` and `released` are history. */
  datatype Server = Server(
    table: Table,
    listener: Listening,
    tasks: map<nat, Task>,
    spawned: nat,
    acquired: nat,
    released: nat)

  function StartServer(capacity: nat): Server {
    Server(EmptyTable(capacity), Idle, map[], 0, 0, 0)
  }

  /** One step of the listener or of one task. A task ends by releasing its slot whether it served
      its operation or was terminated early. */
  datatype Step =
    | Request(parsed: Option<OperationData>)
    | Refuse
    | Store
    | Spawn
    | Load(task: nat)
    | End(task: nat)

  ghost predicate Enabled(s: Server, step: Step) {
    match step
    case Request(_) => s.listener.Idle?
    case Refuse => s.listener.Holding? && s.listener.parsed.None? && s.listener.slot < |s.table.occupied|
    case Store => s.listener.Holding? && s.listener.parsed.Some? && s.listener.slot < |s.table.opData|
    case Spawn => s.listener.Stored?
    case Load(id) => id in s.tasks && s.tasks[id].loaded.None? && s.tasks[id].slot < |s.table.opData|
    case End(id) => id in s.tasks && s.tasks[id].loaded.Some? && s.tasks[id].slot < |s.table.occupied|
  }

  function Next(s: Server, step: Step): Server
    requires Enabled(s, step)
  {
    match step
    case Request(parsed) =>
      var (t, slot) := Acquire(s.table);
      if slot < 0 then s else s.(table := t, listener := Holding(slot, parsed), acquired := s.acquired + 1)
    case Refuse => s.(table := Release(s.table, s.listener.slot), listener := Idle, released := s.released + 1)
    case Store =>
      var slot, request := s.listener.slot, s.listener.parsed;
      s.(table := s.table.(opData := s.table.opData[slot := request]), listener := Stored(slot, request.value))
    case Spawn =>
      s.(tasks := s.tasks[s.spawned := Task(s.listener.slot, s.listener.request, None)],
         spawned := s.spawned + 1, listener := Idle)
    case Load(id) =>
      var task := s.tasks[id];
      s.(tasks := s.tasks[id := task.(loaded := Some(s.table.opData[task.slot]))])
    case End(id) =>
      s.(table := Release(s.table, s.tasks[id].slot), tasks := s.tasks - {id}, released := s.released + 1)
  }

  /** The listener owns the slot until the thread exists. */
  ghost predicate ListenerOwns(s: Server, i: nat) {
    !s.listener.Idle? && s.listener.slot == i
  }

  ghost predicate TaskOwns(s: Server, id: nat, i: nat) {
    id in s.tasks && s.tasks[id].slot == i
  }

  ghost predicate Owned(s: Server, i: nat) {
    ListenerOwns(s, i) || exists id :: TaskOwns(s, id, i)
  }

  /** No two owners share a slot. */
  ghost predicate Exclusive(s: Server) {
    && (forall id: nat, i: nat :: TaskOwns(s, id, i) ==> !ListenerOwns(s, i))
    && (forall id: nat, id': nat, i: nat :: TaskOwns(s, id, i) && TaskOwns(s, id', i) ==> id == id')
  }

  /** A slot is occupied exactly while it has an owner. */
  ghost predicate OccupiedIffOwned(s: Server) {
    && (forall i: nat :: ListenerOwns(s, i) ==> i < |s.table.occupied|)
    && (forall id: nat, i: nat :: TaskOwns(s, id, i) ==> i < |s.table.occupied|)
    && forall i: nat :: i < |s.table.occupied| ==> (s.table.occupied[i] <==> Owned(s, i))
  }

  /** A slot stores the request its owner was given it for, and a task has read just that. */
  ghost predicate OwnData(s: Server) {
    && |s.table.opData| == |s.table.occupied|
    && (s.listener.Stored? && s.listener.slot < |s.table.opData| ==>
          s.table.opData[s.listener.slot] == Some(s.listener.request))
    && forall id :: id in s.tasks && s.tasks[id].slot < |s.table.opData| ==>
         && s.table.opData[s.tasks[id].slot] == Some(s.tasks[id].request)
         && (s.tasks[id].loaded == None || s.tasks[id].loaded == Some(Some(s.tasks[id].request)))
  }

  /** Every acquired slot is released exactly once, when its owner lets go of it. */
  ghost predicate Conserved(s: Server) {
    && s.table.free == CountFree(s.table.occupied)
    && s.acquired == s.released + |s.tasks.Keys| + (if s.listener.Idle? then 0 else 1)
    && forall id :: id in s.tasks ==> id < s.spawned
  }

  ghost predicate Inv(s: Server) {
    Exclusive(s) && OccupiedIffOwned(s) && OwnData(s) && Conserved(s)
  }

  lemma StartKeeps(capacity: nat)
    ensures Inv(StartServer(capacity))
  {
    AllFree(capacity);
  }

  lemma RequestKeeps(s: Server, parsed: Option<OperationData>)
    requires Inv(s) && s.listener.Idle?
    ensures Inv(Next(s, Request(parsed)))
  {
    var s', i := Next(s, Request(parsed)), LowestFree(s.table.occupied);
    if s'.listener.Holding? {
      CountFreeUpdate(s.table.occupied, i, true);
      assert forall id: nat, j: nat :: TaskOwns(s', id, j) <==> TaskOwns(s, id, j);
      assert forall j: nat :: Owned(s', j) <==> Owned(s, j) || j == i;
    }
  }

  lemma RefuseKeeps(s: Server)
    requires Inv(s) && Enabled(s, Refuse)
    ensures Inv(Next(s, Refuse))
  {
    var s', i := Next(s, Refuse), s.listener.slot;
    assert Owned(s, i);
    CountFreeUpdate(s.table.occupied, i, false);
    assert forall id: nat, j: nat :: TaskOwns(s', id, j) <==> TaskOwns(s, id, j);
    assert forall j: nat :: Owned(s', j) <==> Owned(s, j) && j != i;
  }

  lemma StoreKeeps(s: Server)
    requires Inv(s) && Enabled(s, Store)
    ensures Inv(Next(s, Store))
  {
    var s' := Next(s, Store);
    assert forall id: nat, j: nat :: TaskOwns(s', id, j) <==> TaskOwns(s, id, j);
    assert forall j: nat :: Owned(s', j) <==> Owned(s, j);
    assert forall id :: id in s.tasks ==> TaskOwns(s, id, s.tasks[id].slot);
  }

  lemma SpawnKeeps(s: Server)
    requires Inv(s) && Enabled(s, Spawn)
    ensures Inv(Next(s, Spawn))
  {
    var s', i := Next(s, Spawn), s.listener.slot;
    assert ListenerOwns(s, i);
    assert forall id: nat, j: nat :: TaskOwns(s', id, j) <==> TaskOwns(s, id, j) || (id == s.spawned && j == i);
    assert TaskOwns(s', s.spawned, i);
    assert forall j: nat :: Owned(s', j) <==> Owned(s, j);
  }

  lemma LoadKeeps(s: Server, id: nat)
    requires Inv(s) && Enabled(s, Load(id))
    ensures Inv(Next(s, Load(id)))
  {
    var s' := Next(s, Load(id));
    assert forall other: nat, j: nat :: TaskOwns(s', other, j) <==> TaskOwns(s, other, j);
    assert forall j: nat :: Owned(s', j) <==> Owned(s, j);
    assert s'.tasks.Keys == s.tasks.Keys;
    assert forall j: nat :: ListenerOwns(s', j) <==> ListenerOwns(s, j);
  }

  lemma EndKeeps(s: Server, id: nat)
    requires Inv(s) && Enabled(s, End(id))
    ensures Inv(Next(s, End(id)))
  {
    var s', i := Next(s, End(id)), s.tasks[id].slot;
    assert TaskOwns(s, id, i);
    assert Owned(s, i);
    CountFreeUpdate(s.table.occupied, i, false);
    assert forall other: nat, j: nat :: TaskOwns(s', other, j) <==> TaskOwns(s, other, j) && other != id;
    assert forall j: nat :: Owned(s', j) <==> Owned(s, j) && j != i;
    assert s'.tasks.Keys == s.tasks.Keys - {id};
    assert forall j: nat :: ListenerOwns(s', j) <==> ListenerOwns(s, j);
  }

  ghost predicate Run(s: Server, steps: seq<Step>)
    decreases |steps|
  {
    steps == [] || (Enabled(s, steps[0]) && Run(Next(s, steps[0]), steps[1..]))
  }

  ghost function After(s: Server, steps: seq<Step>): Server
    requires Run(s, steps)
    decreases |steps|
  {
    if steps == [] then s else After(Next(s, steps[0]), steps[1..])
  }

  lemma StepKeeps(s: Server, step: Step)
    requires Inv(s) && Enabled(s, step)
    ensures Inv(Next(s, step)) && |Next(s, step).table.occupied| == |s.table.occupied|
  {
    match step
    case Request(parsed) => RequestKeeps(s, parsed);
    case Refuse => RefuseKeeps(s);
    case Store => StoreKeeps(s);
    case Spawn => SpawnKeeps(s);
    case Load(id) => LoadKeeps(s, id);
    case End(id) => EndKeeps(s, id);
  }

  lemma {:induction false} RunKeeps(s: Server, steps: seq<Step>)
    requires Inv(s) && Run(s, steps)
    ensures Inv(After(s, steps)) && |After(s, steps).table.occupied| == |s.table.occupied|
    decreases |steps|
  {
    if steps != [] {
      StepKeeps(s, steps[0]);
      RunKeeps(Next(s, steps[0]), steps[1..]);
    }
  }

  /** Over every interleaving of the listener with any number of tasks, at any capacity: no slot has
      two owners, the occupied slots are the owned ones and their complement is the counter, every
      task has read the operation data stored for it and nothing else, and all slots acquired and
      not released are held by the listener or by one of the tasks. */
  lemma SlotSafety(capacity: nat, steps: seq<Step>)
    requires Run(StartServer(capacity), steps)
    ensures var s := After(StartServer(capacity), steps);
      && |s.table.occupied| == capacity
      && Exclusive(s) && OccupiedIffOwned(s) && OwnData(s) && Conserved(s)
      && 0 <= s.table.free <= capacity
  {
    StartKeeps(capacity);
    RunKeeps(StartServer(capacity), steps);
    SomeFreeIffCounted(After(StartServer(capacity), steps).table.occupied);
  }

  /** No slot is acquired if and only if every slot has an owner; otherwise it is the lowest one that
      has none. */
  lemma Acquisition(s: Server)
    requires Inv(s)
    ensures var slot := Acquire(s.table).1;
      && (slot == -1 <==> forall i :: 0 <= i < |s.table.occupied| ==> Owned(s, i))
      && (slot != -1 ==>
            && 0 <= slot < |s.table.occupied| && !Owned(s, slot)
            && forall i :: 0 <= i < slot ==> Owned(s, i))
  {
    SomeFreeIffCounted(s.table.occupied);
  }

  /** A request is rejected if and only if every slot has an owner; otherwise it gets the lowest one
      that has none. */
  lemma AcquireOutcome(capacity: nat, steps: seq<Step>)
    requires Run(StartServer(capacity), steps)
    ensures var s := After(StartServer(capacity), steps);
      var slot := Acquire(s.table).1;
      && (slot == -1 <==> forall i :: 0 <= i < capacity ==> Owned(s, i))
      && (slot != -1 ==> 0 <= slot < capacity && !Owned(s, slot) && forall i :: 0 <= i < slot ==> Owned(s, i))
  {
    SlotSafety(capacity, steps);
    Acquisition(After(StartServer(capacity), steps));
  }
}
