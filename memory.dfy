/** The run-time memory of `running/memory`: references to where a value
    lives (`MemRef`), the fixed 1000-slot working stack (`Stack`) and the
    name-to-value frames (`Frame`). */
module Memory {
  import opened Wrappers
  import opened Values

  /** `MemRef` with its `MemData`: a stack slot, a variable of the current
      frame, or nothing. */
  datatype MemRef = StackMem(idx: int) | FrameMem(name: string) | EmptyMem

  /** `MemRef::copy`: a reference of the same kind with the same payload. */
  function Copy(m: MemRef): (r: MemRef)
    ensures r.StackMem? <==> m.StackMem?
    ensures r.FrameMem? <==> m.FrameMem?
    ensures r.StackMem? ==> r.idx == m.idx
    ensures r.FrameMem? ==> r.name == m.name
  {
    match m
    case FrameMem(s) => FrameMem(s)
    case StackMem(i) => StackMem(i)
    case EmptyMem => EmptyMem
  }

  /** `MemRef::is_stack_ref`. */
  predicate IsStackRef(m: MemRef) {
    match m
    case StackMem(_) => true
    case _ => false
  }

  /** `MemRef::is_frame_ref`. */
  predicate IsFrameRef(m: MemRef) {
    match m
    case FrameMem(_) => true
    case _ => false
  }

  /** `MemRef::get_as_stack`: the slot of a stack reference; a frame or
      empty reference is a fault. */
  function GetAsStack(m: MemRef): (r: Result<int, Fault>)
    ensures r.Success? <==> IsStackRef(m)
    ensures r.Success? ==> m == StackMem(r.value)
    ensures r.Failure? ==> r.error == NotAStackRef
  {
    match m
    case StackMem(i) => Success(i)
    case _ => Failure(NotAStackRef)
  }

  /** `MemRef::get_as_frame`: the name of a frame reference; a stack or
      empty reference is a fault. */
  function GetAsFrame(m: MemRef): (r: Result<string, Fault>)
    ensures r.Success? <==> IsFrameRef(m)
    ensures r.Success? ==> m == FrameMem(r.value)
    ensures r.Failure? ==> r.error == NotAFrameRef
  {
    match m
    case FrameMem(n) => Success(n)
    case _ => Failure(NotAFrameRef)
  }

  /** The three kinds of reference exclude each other: `stack(i)` is only a
      stack reference, `frame(n)` only a frame reference, and `empty()`
      neither. */
  lemma MemRefKinds(i: int, n: string)
    ensures IsStackRef(StackMem(i)) && !IsFrameRef(StackMem(i))
    ensures IsFrameRef(FrameMem(n)) && !IsStackRef(FrameMem(n))
    ensures !IsStackRef(EmptyMem) && !IsFrameRef(EmptyMem)
    ensures GetAsStack(StackMem(i)) == Success(i) && GetAsFrame(FrameMem(n)) == Success(n)
    ensures Copy(StackMem(i)) == StackMem(i) && Copy(FrameMem(n)) == FrameMem(n)
  {
  }

  /** The number of slots of the working stack. */
  const StackSize: int := 1000

  /** The lowest slot at or above `i` that holds no value. */
  function LowestFreeFrom(data: map<int, Value>, i: int): (r: Result<int, Fault>)
    requires 0 <= i
    ensures r.Success? ==> i <= r.value < StackSize && r.value !in data
    ensures r.Success? ==> forall j :: i <= j < r.value ==> j in data
    ensures r.Failure? ==> r.error == StackFull && forall j :: i <= j < StackSize ==> j in data
    decreases StackSize - i
  {
    if i >= StackSize then Failure(StackFull)
    else if i !in data then Success(i)
    else LowestFreeFrom(data, i + 1)
  }

  /** `get_lowest_free_index` on the stack contents. */
  function LowestFree(data: map<int, Value>): (r: Result<int, Fault>)
    ensures r.Success? ==> 0 <= r.value < StackSize && r.value !in data
    ensures r.Success? ==> forall j :: 0 <= j < r.value ==> j in data
    ensures r.Failure? ==> r.error == StackFull && forall j :: 0 <= j < StackSize ==> j in data
  {
    LowestFreeFrom(data, 0)
  }

  /** `Stack::insert` on the stack contents: the value goes into the lowest
      free slot. */
  function StackInsert(data: map<int, Value>, v: Value): (r: Result<(map<int, Value>, MemRef), Fault>)
    ensures r.Success? <==> LowestFree(data).Success?
    ensures r.Success? ==> r.value.1 == StackMem(LowestFree(data).value)
    ensures r.Success? ==> r.value.0 == data[LowestFree(data).value := v]
  {
    match LowestFree(data)
    case Success(i) => Success((data[i := v], StackMem(i)))
    case Failure(f) => Failure(f)
  }

  /** `Stack::take` on the stack contents: the slot's value, and the slot
      emptied. */
  function StackTake(data: map<int, Value>, m: MemRef): (r: Result<(map<int, Value>, Value), Fault>)
    ensures r.Success? <==> m.StackMem? && m.idx in data
    ensures r.Success? ==> r.value == (data - {m.idx}, data[m.idx])
  {
    match GetAsStack(m)
    case Failure(f) => Failure(f)
    case Success(i) =>
      if i in data then Success((data - {i}, data[i])) else Failure(EmptyStackSlot)
  }

  /** `Stack::get_ref` on the stack contents. */
  function StackGet(data: map<int, Value>, m: MemRef): (r: Result<Value, Fault>)
    ensures r.Success? <==> m.StackMem? && m.idx in data
    ensures r.Success? ==> r.value == data[m.idx]
  {
    match GetAsStack(m)
    case Failure(f) => Failure(f)
    case Success(i) => if i in data then Success(data[i]) else Failure(EmptyStackSlot)
  }

  /** A value put on the stack is read back unchanged from the reference
      the insert returned, and taking it out restores the stack. */
  lemma InsertThenTake(data: map<int, Value>, v: Value)
    requires StackInsert(data, v).Success?
    ensures StackGet(StackInsert(data, v).value.0, StackInsert(data, v).value.1) == Success(v)
    ensures StackTake(StackInsert(data, v).value.0, StackInsert(data, v).value.1) == Success((data, v))
  {
    var i := LowestFree(data).value;
    assert data[i := v] - {i} == data;
  }

  /** The stack is full exactly when every one of its slots is used, and
      then an insert fails. */
  lemma StackFullMeansAllUsed(data: map<int, Value>, v: Value)
    ensures StackInsert(data, v).Failure? <==> forall j :: 0 <= j < StackSize ==> j in data
  {
    if forall j :: 0 <= j < StackSize ==> j in data {
      assert LowestFree(data).Failure?;
    }
  }

  /** `Stack`: the used slots and their values, with the `free_spaces`
      array marking which of the 1000 slots are free. */
  class Stack {
    var data: map<int, Value>
    const free: array<bool>

    /** Slot `i` is marked free exactly when it holds no value, and only
        the 1000 slots exist. */
    ghost predicate Valid()
      reads this, free
    {
      free.Length == StackSize &&
      (forall i :: 0 <= i < StackSize ==> (free[i] <==> i !in data)) &&
      (forall k :: k in data ==> 0 <= k < StackSize)
    }

    /** `Stack::new`: every slot free. */
    constructor ()
      ensures Valid() && fresh(free)
      ensures data == map[]
    {
      data := map[];
      free := new bool[StackSize](_ => true);
    }

    /** `get_lowest_free_index`: the scan over `free_spaces`. */
    method GetLowestFreeIndex() returns (r: Result<int, Fault>)
      requires Valid()
      ensures r == LowestFree(data)
    {
      var idx := 0;
      while idx < free.Length
        invariant 0 <= idx <= free.Length
        invariant LowestFreeFrom(data, idx) == LowestFree(data)
      {
        if free[idx] {
          return Success(idx);
        }
        idx := idx + 1;
      }
      return Failure(StackFull);
    }

    /** `alloc_slot`: mark the lowest free slot used and store the value. */
    method AllocSlot(val: Value) returns (r: Result<int, Fault>)
      requires Valid()
      modifies this, free
      ensures Valid()
      ensures r.Success? <==> LowestFree(old(data)).Success?
      ensures r.Success? ==> r.value == LowestFree(old(data)).value
      ensures r.Failure? ==> r.error == StackFull
      ensures r.Success? ==> data == old(data)[r.value := val]
    {
      r := GetLowestFreeIndex();
      if r.Success? {
        free[r.value] := false;
        data := data[r.value := val];
      }
    }

    /** `dealloc_slot`: free the slot and return its value; a slot that
        holds nothing (or does not exist) is a fault. */
    method DeallocSlot(idx: int) returns (r: Result<Value, Fault>)
      requires Valid()
      modifies this, free
      ensures Valid()
      ensures r.Success? <==> idx in old(data)
      ensures r.Success? ==> r.value == old(data)[idx]
      ensures data == old(data) - {idx}
      ensures r.Failure? ==> r.error == EmptyStackSlot
    {
      if !(0 <= idx < free.Length) {
        return Failure(EmptyStackSlot);
      }
      var had := idx in data;
      var v := if had then Some(data[idx]) else None;
      data := data - {idx};
      free[idx] := true;
      if v.None? {
        return Failure(EmptyStackSlot);
      }
      r := Success(v.value);
    }

    /** `Stack::insert`. */
    method Insert(val: Value) returns (r: Result<MemRef, Fault>)
      requires Valid()
      modifies this, free
      ensures Valid()
      ensures r.Success? <==> StackInsert(old(data), val).Success?
      ensures r.Success? ==> (data, r.value) == StackInsert(old(data), val).value
      ensures r.Failure? ==> r.error == StackFull
    {
      var i := AllocSlot(val);
      match i
      case Success(slot) => r := Success(StackMem(slot));
      case Failure(f) => r := Failure(f);
    }

    /** `Stack::take`. */
    method Take(m: MemRef) returns (r: Result<Value, Fault>)
      requires Valid()
      modifies this, free
      ensures Valid()
      ensures r.Success? <==> StackTake(old(data), m).Success?
      ensures r.Success? ==> (data, r.value) == StackTake(old(data), m).value
      ensures r.Failure? ==> StackTake(old(data), m) == Failure(r.error)
    {
      match GetAsStack(m)
      case Failure(f) =>
        r := Failure(f);
      case Success(idx) =>
        r := DeallocSlot(idx);
    }

    /** `Stack::get_ref`: reads a slot without changing anything. */
    function GetRef(m: MemRef): (r: Result<Value, Fault>)
      reads this
      ensures r == StackGet(data, m)
    {
      match GetAsStack(m)
      case Failure(f) => Failure(f)
      case Success(i) => if i in data then Success(data[i]) else Failure(EmptyStackSlot)
    }
  }

  /** `VarTable::add_var` on the variables of a frame: a name already bound
      keeps its value. */
  function AddVarTo(vars: map<string, Value>, name: string, v: Value): (r: map<string, Value>)
    ensures name in r && r.Keys == vars.Keys + {name}
    ensures name in vars ==> r == vars
    ensures name !in vars ==> r[name] == v
    ensures forall k :: k in vars ==> r[k] == vars[k]
  {
    if name in vars then vars else vars[name := v]
  }

  /** `Frame`: the variables of one call level. */
  class Frame {
    var vars: map<string, Value>

    /** `Frame::new`. */
    constructor ()
      ensures vars == map[]
    {
      vars := map[];
    }

    /** `contains_var`: a frame reference when the name is bound. */
    function ContainsVar(name: string): (r: Option<MemRef>)
      reads this
      ensures r.Some? <==> name in vars
      ensures r.Some? ==> r.value == FrameMem(name)
    {
      if name in vars then Some(FrameMem(name)) else None
    }

    /** `get` (and `get_mut`, which differs only in the borrow it hands
        out): the bound value, or an unknown-variable fault. */
    function Get(name: string): (r: Result<Value, Fault>)
      reads this
      ensures r.Success? <==> name in vars
      ensures r.Success? ==> r.value == vars[name]
      ensures r.Failure? ==> r.error == UnknownVar(name)
    {
      if name in vars then Success(vars[name]) else Failure(UnknownVar(name))
    }

    /** `remove`: the bound value, unbinding the name. */
    method Remove(name: string) returns (r: Result<Value, Fault>)
      modifies this
      ensures r.Success? <==> name in old(vars)
      ensures r.Success? ==> r.value == old(vars)[name]
      ensures vars == old(vars) - {name}
      ensures r.Failure? ==> r.error == UnknownVar(name)
    {
      r := Get(name);
      vars := vars - {name};
    }

    /** `add_var`: binds the name and answers true only if it was unbound;
        otherwise answers false and changes nothing. */
    method AddVar(name: string, value: Value) returns (added: bool)
      modifies this
      ensures added <==> name !in old(vars)
      ensures vars == AddVarTo(old(vars), name, value)
    {
      if name in vars {
        return false;
      }
      vars := vars[name := value];
      return true;
    }
  }
}
