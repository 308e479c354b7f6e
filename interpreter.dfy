/** `EightInterpreter` (`running/interpreter.rs`): a list of frames, the
    newest at index 0, and the working stack. Every operation is proved
    against a function on `Machine`, the interpreter's state as a value. */
module Running {
  import opened Wrappers
  import opened Values
  import opened Memory

  /** The interpreter's state as a value: the variables of each frame
      (newest first), the stack contents, and the lines printed so far. */
  datatype Machine = Machine(frames: seq<map<string, Value>>, stack: map<int, Value>, out: seq<string>)

  /** The shape every reachable state has: at least one frame, and stack
      values only in the 1000 slots. */
  predicate WellFormed(m: Machine) {
    |m.frames| >= 1 && forall k :: k in m.stack ==> 0 <= k < StackSize
  }

  /** A method's result paired with the state it leaves, in the form the
      functions below return. */
  function Outcome<T>(r: Result<T, Fault>, m: Machine): Result<(Machine, T), Fault> {
    if r.Success? then Success((m, r.value)) else Failure(r.error)
  }

  function Done(r: Result<(), Fault>, m: Machine): Result<Machine, Fault> {
    if r.Success? then Success(m) else Failure(r.error)
  }

  /** `add_val_to_stack`. */
  function MAddValToStack(m: Machine, v: Value): (r: Result<(Machine, MemRef), Fault>)
    ensures r.Success? ==> r.value.1.StackMem? && r.value.1.idx !in m.stack
    ensures r.Success? ==> r.value.0 == m.(stack := m.stack[r.value.1.idx := v])
    ensures r.Failure? ==> r.error == StackFull
  {
    match StackInsert(m.stack, v)
    case Success(p) => Success((m.(stack := p.0), p.1))
    case Failure(f) => Failure(f)
  }

  /** `take_val`: a stack value is taken out of its slot, a frame value is
      unbound from the newest frame, and the empty reference gives the None
      value. */
  function MTakeVal(m: Machine, r: MemRef): Result<(Machine, Value), Fault>
    requires |m.frames| >= 1
  {
    match r
    case StackMem(_) =>
      (match StackTake(m.stack, r)
       case Success(p) => Success((m.(stack := p.0), p.1))
       case Failure(f) => Failure(f))
    case FrameMem(n) =>
      if n in m.frames[0] then Success((m.(frames := m.frames[0 := m.frames[0] - {n}]), m.frames[0][n]))
      else Failure(UnknownVar(n))
    case EmptyMem => Success((m, NoneValue))
  }

  /** `pop_stack_vals`: frees a stack slot; other references change nothing. */
  function MPopStackVals(m: Machine, r: MemRef): Result<Machine, Fault> {
    if IsStackRef(r) then
      (match StackTake(m.stack, r)
       case Success(p) => Success(m.(stack := p.0))
       case Failure(f) => Failure(f))
    else Success(m)
  }

  /** `add_val_to_frame`: `add_var` on the newest frame. */
  function MAddValToFrame(m: Machine, name: string, v: Value): (r: Machine)
    requires |m.frames| >= 1
    ensures |r.frames| == |m.frames| && r.stack == m.stack && r.out == m.out
    ensures r.frames[1..] == m.frames[1..]
  {
    m.(frames := m.frames[0 := AddVarTo(m.frames[0], name, v)])
  }

  /** `add_mem_to_frame`: a stack reference is ignored, a frame reference
      binds its name in the newest frame, and an empty reference faults. */
  function MAddMemToFrame(m: Machine, r: MemRef, v: Value): Result<Machine, Fault>
    requires |m.frames| >= 1
  {
    if IsStackRef(r) then Success(m)
    else
      match GetAsFrame(r)
      case Success(n) => Success(MAddValToFrame(m, n, v))
      case Failure(f) => Failure(f)
  }

  /** `new_frame`: an empty frame in front. */
  function MNewFrame(m: Machine): Machine {
    m.(frames := [map[]] + m.frames)
  }

  /** `pop_or_clear_frame`: a sole frame is replaced by an empty one;
      otherwise the last frame of the list (the oldest) is dropped. */
  function MPopOrClearFrame(m: Machine): Machine
    requires |m.frames| >= 1
  {
    if |m.frames| == 1 then m.(frames := [map[]]) else m.(frames := m.frames[..|m.frames| - 1])
  }

  /** `get_val_from_frame`: a frame reference to a name bound in the newest
      frame. */
  function MGetValFromFrame(m: Machine, name: string): Result<MemRef, Fault>
    requires |m.frames| >= 1
  {
    if name in m.frames[0] then Success(FrameMem(name)) else Failure(UnknownVar(name))
  }

  /** `get_val`: the value a reference designates, read from the stack or
      the newest frame; the empty reference designates the None value. */
  function MGetVal(m: Machine, r: MemRef): Result<Value, Fault>
    requires |m.frames| >= 1
  {
    match r
    case StackMem(_) => StackGet(m.stack, r)
    case FrameMem(n) => if n in m.frames[0] then Success(m.frames[0][n]) else Failure(UnknownVar(n))
    case EmptyMem => Success(NoneValue)
  }

  /** Popping never leaves the interpreter without a frame, and with more
      than one frame it removes the oldest one, not the newest. */
  lemma PopOrClearKeepsAFrame(m: Machine)
    requires |m.frames| >= 1
    ensures |MPopOrClearFrame(m).frames| >= 1
    ensures |m.frames| > 1 ==> MPopOrClearFrame(m).frames == m.frames[..|m.frames| - 1]
    ensures |m.frames| > 1 ==> MPopOrClearFrame(m).frames[0] == m.frames[0]
    ensures |m.frames| == 1 ==> MPopOrClearFrame(m).frames == [map[]]
  {
  }

  /** A frame pushed and then popped does not give back the frames there
      were: the new empty frame stays and the oldest frame is lost; from a
      single frame, all its variables are gone. */
  lemma NewThenPopDropsOldest(m: Machine)
    requires |m.frames| >= 1
    ensures MPopOrClearFrame(MNewFrame(m)).frames == [map[]] + m.frames[..|m.frames| - 1]
    ensures |m.frames| == 1 ==> MPopOrClearFrame(MNewFrame(m)).frames == [map[]]
  {
    var n := MNewFrame(m).frames;
    assert n[..|n| - 1] == [map[]] + m.frames[..|m.frames| - 1];
  }

  /** A value added to the stack is read back and taken back through the
      returned reference, and taking it restores the state. */
  lemma StackValueRoundTrip(m: Machine, v: Value)
    requires |m.frames| >= 1
    requires MAddValToStack(m, v).Success?
    ensures MGetVal(MAddValToStack(m, v).value.0, MAddValToStack(m, v).value.1) == Success(v)
    ensures MTakeVal(MAddValToStack(m, v).value.0, MAddValToStack(m, v).value.1) == Success((m, v))
  {
    InsertThenTake(m.stack, v);
  }

  /** Two values pushed one after the other can both be read back, and
      popping both slots restores the stack the pushes started from. */
  lemma PushTwiceThenPop(m: Machine, va: Value, vb: Value)
    requires |m.frames| >= 1 && MAddValToStack(m, va).Success?
    requires MAddValToStack(MAddValToStack(m, va).value.0, vb).Success?
    ensures var p := MAddValToStack(m, va).value;
            var q := MAddValToStack(p.0, vb).value;
            MGetVal(q.0, p.1) == Success(va) && MGetVal(q.0, q.1) == Success(vb) &&
            MPopStackVals(q.0, p.1) == Success(p.0.(stack := p.0.stack[q.1.idx := vb] - {p.1.idx})) &&
            MPopStackVals(MPopStackVals(q.0, p.1).value, q.1) == Success(m)
  {
    var p := MAddValToStack(m, va).value;
    var q := MAddValToStack(p.0, vb).value;
    assert p.1.idx != q.1.idx;
    assert (q.0.stack - {p.1.idx}) - {q.1.idx} == m.stack;
  }

  /** Binding a name already bound in the newest frame changes nothing, and
      a new name can be read back, then taken out again. */
  lemma FrameValueRoundTrip(m: Machine, name: string, v: Value)
    requires |m.frames| >= 1
    ensures name in m.frames[0] ==> MAddValToFrame(m, name, v) == m
    ensures name !in m.frames[0] ==>
              MGetVal(MAddValToFrame(m, name, v), FrameMem(name)) == Success(v) &&
              MTakeVal(MAddValToFrame(m, name, v), FrameMem(name)) == Success((m, v))
  {
    if name !in m.frames[0] {
      var m' := MAddValToFrame(m, name, v);
      assert m.frames[0][name := v] - {name} == m.frames[0];
      assert m'.frames[0 := m'.frames[0] - {name}] == m.frames;
    } else {
      assert m.frames[0 := m.frames[0]] == m.frames;
    }
  }

  /** The variables of each frame, in order. */
  function FrameVars(fs: seq<Frame>): (r: seq<map<string, Value>>)
    reads set f | f in fs
    ensures |r| == |fs|
    ensures forall i :: 0 <= i < |fs| ==> r[i] == fs[i].vars
  {
    seq(|fs|, i requires 0 <= i < |fs| reads fs => fs[i].vars)
  }

  /** `EightInterpreter`: the frames (newest first), the working stack, and
      the lines `print` writes to standard output. */
  class EightInterpreter {
    var frames: seq<Frame>
    const stack: Stack
    var output: seq<string>
    ghost var Repr: set<object>

    /** The frames are distinct objects, there is always at least one, and
        the stack keeps its own invariant. */
    ghost predicate Valid()
      reads this, Repr
    {
      this in Repr && stack in Repr && stack.free in Repr && stack.Valid() &&
      |frames| >= 1 &&
      (forall f :: f in frames ==> f in Repr) &&
      (forall i, j :: 0 <= i < j < |frames| ==> frames[i] != frames[j])
    }

    /** The interpreter's state as a value. */
    ghost function State(): (m: Machine)
      requires Valid()
      reads this, Repr
      ensures WellFormed(m)
    {
      Machine(FrameVars(frames), stack.data, output)
    }

    /** `EightInterpreter::new`: one empty frame and an empty stack. */
    constructor ()
      ensures Valid() && fresh(Repr)
      ensures State() == Machine([map[]], map[], [])
    {
      var f := new Frame();
      var st := new Stack();
      frames := [f];
      stack := st;
      output := [];
      Repr := {this, f, st, st.free};
      new;
      assert FrameVars(frames) == [map[]];
    }

    /** `add_val_to_stack`. */
    method AddValToStack(val: Value) returns (r: Result<MemRef, Fault>)
      requires Valid()
      modifies Repr
      ensures Valid() && Repr == old(Repr)
      ensures Outcome(r, State()) == MAddValToStack(old(State()), val)
    {
      r := stack.Insert(val);
      assert FrameVars(frames) == old(FrameVars(frames));
    }

    /** `take_val`. */
    method TakeVal(mem: MemRef) returns (r: Result<Value, Fault>)
      requires Valid()
      modifies Repr
      ensures Valid() && Repr == old(Repr)
      ensures Outcome(r, State()) == MTakeVal(old(State()), mem)
    {
      if IsStackRef(mem) {
        r := stack.Take(mem);
        assert FrameVars(frames) == old(FrameVars(frames));
      } else if IsFrameRef(mem) {
        r := frames[0].Remove(mem.name);
        assert forall i :: 1 <= i < |frames| ==> frames[i].vars == old(frames[i].vars);
        assert FrameVars(frames) == old(FrameVars(frames))[0 := old(frames[0].vars) - {mem.name}];
      } else {
        r := Success(NoneValue);
      }
    }

    /** `pop_stack_vals`. */
    method PopStackVals(mem: MemRef) returns (r: Result<(), Fault>)
      requires Valid()
      modifies Repr
      ensures Valid() && Repr == old(Repr)
      ensures Done(r, State()) == MPopStackVals(old(State()), mem)
    {
      r := Success(());
      if IsStackRef(mem) {
        var v := stack.Take(mem);
        if v.Failure? {
          r := Failure(v.error);
        }
        assert FrameVars(frames) == old(FrameVars(frames));
      }
    }

    /** `add_val_to_frame`: the result of `add_var` is dropped. */
    method AddValToFrame(name: string, val: Value)
      requires Valid()
      modifies Repr
      ensures Valid() && Repr == old(Repr)
      ensures State() == MAddValToFrame(old(State()), name, val)
    {
      var _ := frames[0].AddVar(name, val);
      assert forall i :: 1 <= i < |frames| ==> frames[i].vars == old(frames[i].vars);
      assert FrameVars(frames) == old(FrameVars(frames))[0 := AddVarTo(old(frames[0].vars), name, val)];
    }

    /** `add_mem_to_frame`. */
    method AddMemToFrame(mem: MemRef, val: Value) returns (r: Result<(), Fault>)
      requires Valid()
      modifies Repr
      ensures Valid() && Repr == old(Repr)
      ensures Done(r, State()) == MAddMemToFrame(old(State()), mem, val)
    {
      if IsStackRef(mem) {
        return Success(());
      }
      match GetAsFrame(mem)
      case Failure(f) =>
        r := Failure(f);
      case Success(n) =>
        AddValToFrame(n, val);
        r := Success(());
    }

    /** `new_frame`: a fresh empty frame at index 0. */
    method NewFrame()
      requires Valid()
      modifies this
      ensures Valid() && fresh(Repr - old(Repr))
      ensures State() == MNewFrame(old(State()))
    {
      var f := new Frame();
      frames := [f] + frames;
      Repr := Repr + {f};
      assert FrameVars(frames) == [map[]] + old(FrameVars(frames));
    }

    /** `pop_or_clear_frame`. */
    method PopOrClearFrame()
      requires Valid()
      modifies this
      ensures Valid() && fresh(Repr - old(Repr))
      ensures State() == MPopOrClearFrame(old(State()))
    {
      if |frames| == 1 {
        var f := new Frame();
        frames := [f];
        Repr := Repr + {f};
        assert FrameVars(frames) == [map[]];
      } else {
        frames := frames[..|frames| - 1];
        assert FrameVars(frames) == old(FrameVars(frames))[..|frames|];
      }
    }

    /** `get_val_from_frame`. */
    function GetValFromFrame(name: string): (r: Result<MemRef, Fault>)
      requires Valid()
      reads this, Repr
      ensures r == MGetValFromFrame(State(), name)
    {
      match frames[0].ContainsVar(name)
      case Some(m) => Success(m)
      case None => Failure(UnknownVar(name))
    }

    /** `get_val`: reads the stack or the newest frame and changes
        nothing. */
    function GetVal(mem: MemRef): (r: Result<Value, Fault>)
      requires Valid()
      reads this, Repr
      ensures r == MGetVal(State(), mem)
    {
      if IsStackRef(mem) then stack.GetRef(mem)
      else if IsFrameRef(mem) then frames[0].Get(mem.name)
      else Success(NoneValue)
    }

    /** One line written to standard output by `println!`. */
    method WriteLine(line: string)
      requires Valid()
      modifies this
      ensures Valid() && Repr == old(Repr)
      ensures State() == old(State()).(out := old(State()).out + [line])
    {
      output := output + [line];
    }
  }
}
