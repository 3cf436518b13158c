/** Small integer ids, handed out, returned and reused; and the handles that own them. */
module IdManager {

  datatype Option<+T> = None | Some(value: T)

  /** The highest id handed out so far, and the returned ids below it, last returned last. */
  datatype Ids = Ids(top: nat, free: seq<nat>)

  const NO_IDS := Ids(0, [])

  function Acquire(ids: Ids, max: nat): Option<(nat, Ids)> {
    if ids.free != [] then
      Some((ids.free[|ids.free| - 1], ids.(free := ids.free[..|ids.free| - 1])))
    else if ids.top == max then None
    else Some((ids.top + 1, ids.(top := ids.top + 1)))
  }

  function Return(ids: Ids, id: nat): Ids
    requires ids.top > 0
  {
    if id == ids.top then ids.(top := ids.top - 1) else ids.(free := ids.free + [id])
  }

  /** The id manager of the code, which throws where this one answers None. */
  class Manager {
    const max: nat
    var newId: nat
    var freeIds: seq<nat>

    function State(): Ids
      reads this
    {
      Ids(newId, freeIds)
    }

    constructor (max: nat)
      ensures this.max == max && State() == NO_IDS
    {
      this.max := max;
      newId, freeIds := 0, [];
    }

    method AcquireId() returns (r: Option<nat>)
      modifies this
      ensures match Acquire(old(State()), max)
              case None => r == None && State() == old(State())
              case Some((id, ids)) => r == Some(id) && State() == ids
    {
      if |freeIds| != 0 {
        var id := freeIds[|freeIds| - 1];
        freeIds := freeIds[..|freeIds| - 1];
        return Some(id);
      }
      if newId == max {
        return None;
      }
      newId := newId + 1;
      return Some(newId);
    }

    method ReturnId(id: nat)
      requires newId > 0
      modifies this
      ensures State() == Return(old(State()), id)
    {
      if id == newId {
        newId := newId - 1;
      } else {
        freeIds := freeIds + [id];
      }
    }
  }

  /// Which ids are in use

  function Range(top: nat): (r: set<nat>)
    ensures forall id :: id in r <==> 1 <= id <= top
  {
    if top == 0 then {} else Range(top - 1) + {top}
  }

  /** The live and the free ids are disjoint, duplicate-free, and together exactly 1 to `top`. */
  ghost predicate Accounts(ids: Ids, live: set<nat>) {
    && (forall i, j :: 0 <= i < j < |ids.free| ==> ids.free[i] != ids.free[j])
    && (forall i :: 0 <= i < |ids.free| ==> ids.free[i] !in live && 1 <= ids.free[i] <= ids.top)
    && (forall id :: id in live ==> 1 <= id <= ids.top)
    && (forall id :: 1 <= id <= ids.top ==> id in live || id in ids.free)
  }

  lemma {:induction false} RangeSize(top: nat)
    ensures |Range(top)| == top
  {
    if top > 0 {
      RangeSize(top - 1);
    }
  }

  /** With nothing to reuse, every id handed out is live. */
  lemma NothingFree(ids: Ids, live: set<nat>)
    requires Accounts(ids, live) && ids.free == []
    ensures live == Range(ids.top) && |live| == ids.top
  {
    RangeSize(ids.top);
  }

  lemma ReuseLast(ids: Ids, live: set<nat>)
    requires Accounts(ids, live) && ids.free != []
    ensures
      var last := |ids.free| - 1;
      Accounts(ids.(free := ids.free[..last]), live + {ids.free[last]})
  {
    var last := |ids.free| - 1;
    forall k | 1 <= k <= ids.top ensures k in live + {ids.free[last]} || k in ids.free[..last] {
      if k !in live {
        InFront(ids.free, k);
      }
    }
  }

  lemma InFront(free: seq<nat>, k: nat)
    requires k in free
    ensures k == free[|free| - 1] || k in free[..|free| - 1]
  {
    var i :| 0 <= i < |free| && free[i] == k;
    assert i < |free| - 1 ==> free[..|free| - 1][i] == k;
  }

  /** An acquired id is new and not zero; and it exceeds no number of ids live at once. */
  lemma AcquireIsFresh(ids: Ids, live: set<nat>, max: nat)
    requires Accounts(ids, live) && ids.top <= max
    ensures Acquire(ids, max).None? <==> live == Range(max)
    ensures match Acquire(ids, max)
            case None => true
            case Some((id, after)) =>
              && 1 <= id <= max && id !in live && Accounts(after, live + {id}) && after.top <= max
              && (after.top == ids.top || after.top == |live| + 1)
  {
    if ids.free != [] {
      var id := ids.free[|ids.free| - 1];
      assert id in Range(max) && id !in live;
      ReuseLast(ids, live);
    } else {
      NothingFree(ids, live);
      assert ids.top < max ==> ids.top + 1 in Range(max) && ids.top + 1 !in live;
    }
  }

  /** With fewer live ids than there are, one can be acquired. */
  lemma AcquireSucceeds(ids: Ids, live: set<nat>, max: nat)
    requires Accounts(ids, live) && ids.top <= max && |live| < max
    ensures Acquire(ids, max).Some?
    ensures var (id, after) := Acquire(ids, max).value;
      && id != 0 && id !in live && Accounts(after, live + {id})
      && (after.top == ids.top || after.top == |live| + 1)
  {
    AcquireIsFresh(ids, live, max);
    RangeSize(max);
  }

  lemma ReturnFrees(ids: Ids, live: set<nat>, id: nat)
    requires Accounts(ids, live) && id in live
    ensures Accounts(Return(ids, id), live - {id})
    ensures Return(ids, id).top <= ids.top
  {
    var after := Return(ids, id);
    forall k | 1 <= k <= after.top ensures k in live - {id} || k in after.free {
      if k == id {
        assert after.free[|ids.free|] == id;
      } else if k !in live {
        var i :| 0 <= i < |ids.free| && ids.free[i] == k;
        assert after.free[i] == k;
      }
    }
    if id == ids.top {
      assert forall i :: 0 <= i < |ids.free| ==> ids.free[i] != id;
    }
  }

  /// Handles

  /** All handles of one manager, by name, with the id each holds; 0 for a handle without manager. */
  datatype Pool = Pool(ids: Ids, handles: map<nat, nat>)

  datatype HandleOp =
    | Declare(h: nat)                   // default constructor
    | Create(h: nat)                    // constructor taking the manager
    | MoveInto(h: nat, from: nat)       // move constructor: swap with an empty handle
    | Assign(h: nat, from: nat)         // move assignment: swap
    | Destroy(h: nat)                   // destructor

  predicate Legal(pool: Pool, op: HandleOp) {
    match op
    case Declare(h) => h !in pool.handles
    case Create(h) => h !in pool.handles
    case MoveInto(h, from) => h !in pool.handles && from in pool.handles
    case Assign(h, from) => h in pool.handles && from in pool.handles
    case Destroy(h) => h in pool.handles
  }

  /** Creating a handle when no id is left throws, and makes no handle. */
  function Perform(pool: Pool, op: HandleOp, max: nat): Pool
    requires Legal(pool, op) && (op.Destroy? && pool.handles[op.h] != 0 ==> pool.ids.top > 0)
  {
    var handles := pool.handles;
    match op
    case Declare(h) => pool.(handles := handles[h := 0])
    case Create(h) =>
      var r := Acquire(pool.ids, max);
      if r.None? then pool else Pool(r.value.1, handles[h := r.value.0])
    case MoveInto(h, from) => pool.(handles := handles[h := handles[from]][from := 0])
    case Assign(h, from) => pool.(handles := handles[h := handles[from]][from := handles[h]])
    case Destroy(h) =>
      Pool(if handles[h] == 0 then pool.ids else Return(pool.ids, handles[h]), handles - {h})
  }

  ghost function Owned(handles: map<nat, nat>): set<nat> {
    set h | h in handles && handles[h] != 0 :: handles[h]
  }

  /** Every live id sits in exactly one handle, and the manager accounts for exactly these ids. */
  ghost predicate PoolInv(pool: Pool, max: nat) {
    && (forall h, k :: h in pool.handles && k in pool.handles && h != k && pool.handles[h] != 0 ==>
          pool.handles[h] != pool.handles[k])
    && Accounts(pool.ids, Owned(pool.handles)) && pool.ids.top <= max
  }

  lemma OwnedAfterCreate(handles: map<nat, nat>, h: nat, id: nat)
    requires h !in handles
    ensures Owned(handles[h := id]) == Owned(handles) + if id == 0 then {} else {id}
  {
    var after := handles[h := id];
    assert after[h] == id;
    forall x | x in Owned(handles) ensures x in Owned(after) {
      var k :| k in handles && handles[k] != 0 && handles[k] == x;
      assert after[k] == x;
    }
  }

  lemma OwnedAfterFill(handles: map<nat, nat>, h: nat, id: nat)
    requires h in handles && handles[h] == 0
    ensures Owned(handles[h := id]) == Owned(handles) + if id == 0 then {} else {id}
  {
    var after := handles[h := id];
    assert after[h] == id;
    forall x | x in Owned(handles) ensures x in Owned(after) {
      var k :| k in handles && handles[k] != 0 && handles[k] == x;
      assert after[k] == x;
    }
  }

  lemma OwnedAfterDestroy(handles: map<nat, nat>, h: nat)
    requires h in handles
    requires forall k :: k in handles && k != h && handles[h] != 0 ==> handles[k] != handles[h]
    ensures Owned(handles - {h}) == Owned(handles) - {handles[h]}
  {
    var after := handles - {h};
    forall x | x in Owned(handles) && x != handles[h] ensures x in Owned(after) {
      var k :| k in handles && handles[k] != 0 && handles[k] == x;
      assert after[k] == x;
    }
  }

  /** A swap of two handles, or of a handle with a fresh empty one, moves ids without losing or doubling any. */
  lemma OwnedAfterSwap(handles: map<nat, nat>, h: nat, from: nat)
    requires from in handles
    ensures
      var after := handles[h := handles[from]][from := if h in handles then handles[h] else 0];
      Owned(after) == Owned(handles)
  {
    var after := handles[h := handles[from]][from := if h in handles then handles[h] else 0];
    forall x | x in Owned(handles) ensures x in Owned(after) {
      var k :| k in handles && handles[k] != 0 && handles[k] == x;
      assert after[if k == from then h else if k == h then from else k] == x;
    }
  }

  lemma CreateKeepsInv(pool: Pool, op: HandleOp, max: nat)
    requires PoolInv(pool, max) && Legal(pool, op) && op.Create?
    ensures var after := Perform(pool, op, max);
      PoolInv(after, max) && (after.ids.top <= pool.ids.top || after.ids.top == |Owned(after.handles)|)
  {
    var live := Owned(pool.handles);
    AcquireIsFresh(pool.ids, live, max);
    var r := Acquire(pool.ids, max);
    if r.Some? {
      OwnedAfterCreate(pool.handles, op.h, r.value.0);
      assert forall k :: k in pool.handles ==> pool.handles[k] == 0 || pool.handles[k] in live;
    }
  }

  lemma SwapKeepsInv(pool: Pool, op: HandleOp, max: nat)
    requires PoolInv(pool, max) && Legal(pool, op) && (op.MoveInto? || op.Assign?)
    ensures PoolInv(Perform(pool, op, max), max)
  {
    OwnedAfterSwap(pool.handles, op.h, op.from);
  }

  lemma DestroyKeepsInv(pool: Pool, op: HandleOp, max: nat)
    requires PoolInv(pool, max) && Legal(pool, op) && op.Destroy?
    ensures pool.handles[op.h] != 0 ==> pool.ids.top > 0
    ensures PoolInv(Perform(pool, op, max), max) && Perform(pool, op, max).ids.top <= pool.ids.top
  {
    var live, id := Owned(pool.handles), pool.handles[op.h];
    OwnedAfterDestroy(pool.handles, op.h);
    if id != 0 {
      assert id in live;
      ReturnFrees(pool.ids, live, id);
    } else {
      assert Owned(pool.handles - {op.h}) == live;
    }
  }

  lemma PerformKeepsInv(pool: Pool, op: HandleOp, max: nat)
    requires PoolInv(pool, max) && Legal(pool, op)
    ensures op.Destroy? && pool.handles[op.h] != 0 ==> pool.ids.top > 0
    ensures var after := Perform(pool, op, max);
      PoolInv(after, max) && (after.ids.top <= pool.ids.top || after.ids.top == |Owned(after.handles)|)
  {
    match op
    case Declare(h) => OwnedAfterCreate(pool.handles, h, 0);
    case Create(_) => CreateKeepsInv(pool, op, max);
    case MoveInto(_, _) => SwapKeepsInv(pool, op, max);
    case Assign(_, _) => SwapKeepsInv(pool, op, max);
    case Destroy(_) => DestroyKeepsInv(pool, op, max);
  }

  ghost predicate Performs(pool: Pool, op: HandleOp, after: Pool, max: nat) {
    && Legal(pool, op) && (op.Destroy? && pool.handles[op.h] != 0 ==> pool.ids.top > 0)
    && after == Perform(pool, op, max)
  }

  /** The handles other than `h` are there as before. */
  ghost predicate OthersKept(handles: map<nat, nat>, h: nat, after: map<nat, nat>) {
    after.Keys == handles.Keys && forall k :: k in handles && k != h ==> after[k] == handles[k]
  }

  lemma CreateTakesNewId(pool: Pool, tmp: nat, max: nat) returns (created: Pool, id: nat)
    requires PoolInv(pool, max) && tmp !in pool.handles && Owned(pool.handles) != Range(max)
    ensures Performs(pool, Create(tmp), created, max) && PoolInv(created, max)
    ensures 1 <= id <= max && id !in Owned(pool.handles) && created.handles == pool.handles[tmp := id]
  {
    AcquireIsFresh(pool.ids, Owned(pool.handles), max);
    PerformKeepsInv(pool, Create(tmp), max);
    created := Perform(pool, Create(tmp), max);
    id := created.handles[tmp];
  }

  lemma SwappedAndDestroyed(handles: map<nat, nat>, h: nat, tmp: nat, id: nat)
    requires h in handles && tmp !in handles
    ensures
      var created := handles[tmp := id];
      created[h := created[tmp]][tmp := created[h]] - {tmp} == handles[h := id]
  {
  }

  lemma OwnedAfterReplace(handles: map<nat, nat>, h: nat, id: nat)
    requires h in handles && id != 0 && id !in Owned(handles)
    requires forall k :: k in handles && k != h && handles[h] != 0 ==> handles[k] != handles[h]
    ensures Owned(handles[h := id]) == Owned(handles) - {handles[h]} + {id}
  {
    var less := handles - {h};
    OwnedAfterDestroy(handles, h);
    OwnedAfterCreate(less, h, id);
    assert less[h := id] == handles[h := id];
  }

  /**
    `h = IdHandle(manager)`: a temporary is created, swapped with `h` and destroyed. Then the temporary is gone, `h`
    holds an id that was not live, an id that it held before is live no longer, and the other handles are as before.
  */
  lemma AssignedHandleHasNewId(pool: Pool, h: nat, tmp: nat, max: nat)
    returns (created: Pool, swapped: Pool, after: Pool)
    requires PoolInv(pool, max) && h in pool.handles && tmp !in pool.handles && Owned(pool.handles) != Range(max)
    ensures Performs(pool, Create(tmp), created, max)
    ensures Performs(created, Assign(h, tmp), swapped, max)
    ensures Performs(swapped, Destroy(tmp), after, max)
    ensures PoolInv(after, max) && OthersKept(pool.handles, h, after.handles)
    ensures 1 <= after.handles[h] <= max && after.handles[h] !in Owned(pool.handles)
    ensures Owned(after.handles) == Owned(pool.handles) - {pool.handles[h]} + {after.handles[h]}
  {
    var id;
    created, id := CreateTakesNewId(pool, tmp, max);
    swapped := PerformLegal(created, Assign(h, tmp), max);
    after := PerformLegal(swapped, Destroy(tmp), max);
    SwappedAndDestroyed(pool.handles, h, tmp, id);
    assert after.handles == pool.handles[h := id];
    if pool.handles[h] != 0 {
      HeldOnce(pool, h, max);
    }
    OwnedAfterReplace(pool.handles, h, id);
  }

  lemma HeldOnce(pool: Pool, h: nat, max: nat)
    requires PoolInv(pool, max) && h in pool.handles && pool.handles[h] != 0
    ensures forall k :: k in pool.handles && k != h ==> pool.handles[k] != pool.handles[h]
  {
  }

  lemma PerformLegal(pool: Pool, op: HandleOp, max: nat) returns (after: Pool)
    requires PoolInv(pool, max) && Legal(pool, op)
    ensures Performs(pool, op, after, max) && PoolInv(after, max)
  {
    PerformKeepsInv(pool, op, max);
    after := Perform(pool, op, max);
  }

  /** With all ids live the statement throws when the temporary is created, and nothing has changed. */
  lemma NoIdNoChange(pool: Pool, tmp: nat, max: nat)
    requires PoolInv(pool, max) && tmp !in pool.handles && Owned(pool.handles) == Range(max)
    ensures Perform(pool, Create(tmp), max) == pool
  {
    AcquireIsFresh(pool.ids, Owned(pool.handles), max);
  }

  /** A handle made from another that then ends has taken its id over: the live ids are the same, and the manager. */
  lemma MovedHandleKeepsId(pool: Pool, h: nat, from: nat, max: nat) returns (moved: Pool, after: Pool)
    requires PoolInv(pool, max) && h !in pool.handles && from in pool.handles
    ensures Performs(pool, MoveInto(h, from), moved, max)
    ensures Performs(moved, Destroy(from), after, max)
    ensures PoolInv(after, max) && after.ids == pool.ids
    ensures after.handles == pool.handles[h := pool.handles[from]] - {from}
    ensures Owned(after.handles) == Owned(pool.handles)
  {
    moved := PerformLegal(pool, MoveInto(h, from), max);
    after := PerformLegal(moved, Destroy(from), max);
    MovedAndDestroyed(pool.handles, h, from);
  }

  lemma MovedAndDestroyed(handles: map<nat, nat>, h: nat, from: nat)
    requires h !in handles && from in handles
    ensures
      var after := handles[h := handles[from]][from := 0] - {from};
      after == handles[h := handles[from]] - {from} && Owned(after) == Owned(handles)
  {
    var moved := handles[h := handles[from]][from := 0];
    OwnedAfterSwap(handles, h, from);
    OwnedAfterDestroy(moved, from);
    assert moved[from] == 0 && 0 !in Owned(moved);
  }

  /** A handle without manager ends without a trace. */
  lemma EmptyHandleEnds(pool: Pool, h: nat, max: nat) returns (declared: Pool)
    requires PoolInv(pool, max) && h !in pool.handles
    ensures Performs(pool, Declare(h), declared, max) && h in declared.handles
    ensures Performs(declared, Destroy(h), pool, max)
  {
    declared := PerformLegal(pool, Declare(h), max);
    assert pool.handles[h := 0] - {h} == pool.handles;
  }

  /** A history of pools, each the result of an operation on the one before. */
  ghost predicate PerformAt(run: seq<Pool>, ops: seq<HandleOp>, max: nat, i: nat)
    requires 0 < i < |run| && |run| == |ops| + 1
  {
    Performs(run[i - 1], ops[i - 1], run[i], max)
  }

  ghost predicate IsHistory(run: seq<Pool>, ops: seq<HandleOp>, max: nat) {
    && |run| == |ops| + 1 && run[0] == Pool(NO_IDS, map[])
    && forall i {:trigger PerformAt(run, ops, max, i)} :: 0 < i < |run| ==> PerformAt(run, ops, max, i)
  }

  /** However handles are made, moved and destroyed, no id exceeds the peak number of ids live at once. */
  lemma {:induction false} HandlesOwnTheirIds(run: seq<Pool>, ops: seq<HandleOp>, max: nat, i: nat, peak: nat)
    requires IsHistory(run, ops, max) && i < |run|
    requires forall j :: 0 <= j <= i ==> |Owned(run[j].handles)| <= peak
    ensures PoolInv(run[i], max)
    ensures run[i].ids.top <= peak
    ensures forall h :: h in run[i].handles ==> run[i].handles[h] <= peak
  {
    if i > 0 {
      HandlesOwnTheirIds(run, ops, max, i - 1, peak);
      assert PerformAt(run, ops, max, i);
      PerformKeepsInv(run[i - 1], ops[i - 1], max);
    }
    forall h | h in run[i].handles && run[i].handles[h] != 0 ensures run[i].handles[h] <= peak {
      assert run[i].handles[h] in Owned(run[i].handles);
    }
  }
}
