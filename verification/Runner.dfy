/** The runner as it runs: fuel and memory that change as it goes, and loops over instructions. */
module Runner {
  import opened Ints
  import opened Wasm
  import opened Run
  import L = Layout

  /** What a method ended with and left behind is what the meaning says. */
  ghost predicate Agrees(r: Ran, end: Step<Flow>, fuel: nat, memory: seq<byte>, locals: seq<Value>, stack: seq<Value>) {
    match r
    case Done(left, (s, flow)) => end == Ok(flow) && fuel == left && State(memory, locals, stack) == s
    case Trapped(trap) => end == Stops(trap)
    case Panics => end == Panic
  }

  class Runner {
    const w: World
    var fuel: nat
    var memory: seq<byte>

    constructor (w: World, fuel: nat, memory: seq<byte>)
      ensures this.w == w && this.fuel == fuel && this.memory == memory
    {
      this.w := w;
      this.fuel := fuel;
      this.memory := memory;
    }

    // -- instructions that only touch the state ------------------------------

    method Arithmetic(op: NumOp, stack: seq<Value>) returns (end: Step<Flow>, after: seq<Value>)
      ensures forall locals :: Agrees(Plainly(fuel, ExecNum(op, State(memory, locals, stack))), end, fuel, memory, locals, after)
    {
      after := stack;
      if after == [] {
        return Stops(EmptyStack), after;
      }
      var right := AsI64(after[|after| - 1]);
      after := after[..|after| - 1];
      if Unary(op) {
        return Ok(Normal), after + [UnaryOn(op, right)];
      }
      if after == [] {
        return Stops(EmptyStack), after;
      }
      var left := AsI64(after[|after| - 1]);
      after := after[..|after| - 1];
      match BinaryOn(op, left, right) {
        case Ok(v) => return Ok(Normal), after + [v];
        case Stops(trap) => return Stops(trap), after;
        case Panic => return Panic, after;
      }
    }

    method Load(ins: Ins, stack: seq<Value>) returns (end: Step<Flow>, after: seq<Value>)
      requires ins.I32Load? || ins.I64Load? || ins.I32Load8U?
      ensures forall locals :: Agrees(Plainly(fuel, ExecLoad(ins, State(memory, locals, stack))), end, fuel, memory, locals, after)
    {
      after := stack;
      if after == [] {
        return Stops(EmptyStack), after;
      }
      var base := AsI64(after[|after| - 1]);
      after := after[..|after| - 1];
      var at := base + ins.offset;
      if base < 0 {
        return Stops(OutOfBounds), after;
      }
      if ins.I32Load8U? {
        if at >= |memory| {
          return Stops(OutOfBounds), after;
        }
        return Ok(Normal), after + [V32(memory[at])];
      }
      if at + 8 > |memory| {
        return Stops(OutOfBounds), after;
      }
      var word := BytesWord(memory[at..at + 8]);
      return Ok(Normal), after + [if ins.I64Load? then V64(word) else V32(Wrap32(word))];
    }

    method Store(ins: Ins, stack: seq<Value>) returns (end: Step<Flow>, after: seq<Value>)
      requires ins.I32Store? || ins.I64Store? || ins.I32Store8?
      modifies this`memory
      ensures forall locals ::
                Agrees(Plainly(fuel, ExecStore(ins, State(old(memory), locals, stack))), end, fuel, memory, locals, after)
    {
      after := stack;
      if after == [] {
        return Stops(EmptyStack), after;
      }
      var v := AsI64(after[|after| - 1]);
      after := after[..|after| - 1];
      if after == [] {
        return Stops(EmptyStack), after;
      }
      var base := AsI64(after[|after| - 1]);
      after := after[..|after| - 1];
      var at := base + ins.offset;
      if base < 0 {
        return Stops(OutOfBounds), after;
      }
      if ins.I32Store8? {
        if at >= |memory| {
          return Stops(OutOfBounds), after;
        }
        memory := memory[at := v % 256];
      } else {
        if at + 8 > |memory| {
          return Stops(OutOfBounds), after;
        }
        memory := memory[..at] + WordBytes(v) + memory[at + 8..];
      }
      end := Ok(Normal);
    }

    method Grow(stack: seq<Value>) returns (end: Step<Flow>, after: seq<Value>)
      modifies this`memory
      ensures forall locals :: Agrees(Plainly(fuel, ExecGrow(State(old(memory), locals, stack))), end, fuel, memory, locals, after)
    {
      after := stack;
      if after == [] {
        return Stops(EmptyStack), after;
      }
      var asked := AsI64(after[|after| - 1]);
      after := after[..|after| - 1];
      var was := Pages(memory);
      var wanted := was + asked;
      if asked < 0 || wanted < 0 || wanted > MEMORY_PAGES_CEILING {
        return Ok(Normal), after + [V32(-1)];
      }
      memory := Resized(memory, wanted * L.PAGE);
      return Ok(Normal), after + [V32(was)];
    }

    method Local(ins: Ins, locals: seq<Value>, stack: seq<Value>) returns (end: Step<Flow>, locals': seq<Value>, stack': seq<Value>)
      requires ins.LocalGet? || ins.LocalSet? || ins.LocalTee?
      ensures Agrees(Plainly(fuel, ExecSimple(ins, State(memory, locals, stack))), end, fuel, memory, locals', stack')
    {
      locals', stack' := locals, stack;
      end := Ok(Normal);
      if ins.LocalGet? {
        if ins.index >= |locals| {
          return Panic, locals', stack';
        }
        stack' := stack' + [locals[ins.index]];
      } else if stack == [] {
        end := Stops(EmptyStack);
      } else if ins.index >= |locals| {
        end := Panic;
      } else {
        locals' := locals[ins.index := stack[|stack| - 1]];
        if ins.LocalSet? {
          stack' := stack[..|stack| - 1];
        }
      }
    }

    method Plain(ins: Ins, locals: seq<Value>, stack: seq<Value>) returns (end: Step<Flow>, locals': seq<Value>, stack': seq<Value>)
      requires Simple(ins)
      modifies this`memory
      ensures Agrees(Plainly(fuel, ExecSimple(ins, State(old(memory), locals, stack))), end, fuel, memory, locals', stack')
    {
      locals', stack' := locals, stack;
      end := Ok(Normal);
      match ins {
        case Nop =>
        case Drop => if stack != [] { stack' := stack[..|stack| - 1]; }
        case LocalGet(_) => end, locals', stack' := Local(ins, locals, stack);
        case LocalSet(_) => end, locals', stack' := Local(ins, locals, stack);
        case LocalTee(_) => end, locals', stack' := Local(ins, locals, stack);
        case I32Const(n) => stack' := stack + [V32(n)];
        case I64Const(n) => stack' := stack + [V64(n)];
        case Num(op) => end, stack' := Arithmetic(op, stack);
        case I32Load(_) => end, stack' := Load(ins, stack);
        case I64Load(_) => end, stack' := Load(ins, stack);
        case I32Load8U(_) => end, stack' := Load(ins, stack);
        case I32Store(_) => end, stack' := Store(ins, stack);
        case I64Store(_) => end, stack' := Store(ins, stack);
        case I32Store8(_) => end, stack' := Store(ins, stack);
        case MemorySize => stack' := stack + [V32(Pages(memory))];
        case MemoryGrow => end, stack' := Grow(stack);
      }
    }

    // -- control -------------------------------------------------------------

    /** A body, an instruction at a time, until something jumps, stops, or runs out. */
    method Instructions(body: seq<Ins>, locals: seq<Value>, stack: seq<Value>)
      returns (end: Step<Flow>, locals': seq<Value>, stack': seq<Value>)
      modifies this
      ensures Agrees(Body(w, old(fuel), body, State(old(memory), locals, stack)), end, fuel, memory, locals', stack')
      ensures end.Ok? ==> fuel <= old(fuel) && (end.value != Normal ==> fuel < old(fuel))
      decreases fuel, 1
    {
      hide Structured, ExecSimple, Plainly;
      locals', stack' := locals, stack;
      end := Ok(Normal);
      var i := 0;
      while i < |body|
        invariant i <= |body| && fuel <= old(fuel)
        invariant end == Ok(Normal)
        invariant Body(w, old(fuel), body, State(old(memory), locals, stack))
               == Body(w, fuel, body[i..], State(memory, locals', stack'))
      {
        assert body[i..][0] == body[i] && body[i..][1..] == body[i + 1..];
        if fuel == 0 {
          return Stops(TooLong), locals', stack';
        }
        fuel := fuel - 1;
        end, locals', stack' := Instruction(if body[i].Marked? then body[i].inner else body[i], locals', stack');
        if end != Ok(Normal) {
          return;
        }
        i := i + 1;
      }
    }

    /** One instruction, once it has been paid for and its marker taken off. */
    method Instruction(ins: Ins, locals: seq<Value>, stack: seq<Value>)
      returns (end: Step<Flow>, locals': seq<Value>, stack': seq<Value>)
      modifies this
      ensures Agrees(if w.checks && ins.Drop? && stack == [] then Trapped(EmptyStack)
                     else if Simple(ins) then Plainly(old(fuel), ExecSimple(ins, State(old(memory), locals, stack)))
                     else Structured(w, old(fuel) + 1, ins, State(old(memory), locals, stack)),
                     end, fuel, memory, locals', stack')
      ensures end.Ok? ==> fuel <= old(fuel)
      decreases fuel, 5
    {
      locals', stack' := locals, stack;
      if w.checks && ins.Drop? && stack == [] {
        end := Stops(EmptyStack);
      } else if Simple(ins) {
        end, locals', stack' := Plain(ins, locals, stack);
      } else if ins.Marked? {
        end := Panic;
      } else if ins.Unreachable? {
        end := Stops(Why(memory));
      } else if ins.Return? {
        end := Ok(Returning);
      } else if ins.Br? {
        end := Ok(Break(ins.depth));
      } else if ins.BrIf? {
        if stack == [] {
          return Stops(EmptyStack), locals', stack';
        }
        end := Ok(if AsBool(stack[|stack| - 1]) then Break(ins.depth) else Normal);
        stack' := stack[..|stack| - 1];
      } else if ins.Block? {
        end, locals', stack' := Instructions(ins.body, locals, stack);
        end := Outwards(end);
      } else if ins.Loop? {
        end, locals', stack' := Repeat(ins.body, locals, stack);
      } else if ins.If? {
        if stack == [] {
          return Stops(EmptyStack), locals', stack';
        }
        var arm := if AsBool(stack[|stack| - 1]) then ins.taken else ins.otherwise;
        end, locals', stack' := Instructions(arm, locals, stack[..|stack| - 1]);
        end := Outwards(end);
      } else if ins.Call? {
        end, stack' := Apply(ins.func, locals, stack);
      } else {
        end, stack' := ApplySlot(ins.typeIndex, locals, stack);
      }
    }

    /** What a jump out of a block means to what is around it. */
    function Outwards(end: Step<Flow>): Step<Flow> {
      match end
      case Ok(Break(depth)) => Ok(if depth == 0 then Normal else Break(depth - 1))
      case other => other
    }

    /** A loop: again for as long as the body jumps to its label. */
    method Repeat(body: seq<Ins>, locals: seq<Value>, stack: seq<Value>)
      returns (end: Step<Flow>, locals': seq<Value>, stack': seq<Value>)
      modifies this
      ensures Agrees(Iterate(w, old(fuel), body, State(old(memory), locals, stack)), end, fuel, memory, locals', stack')
      ensures end.Ok? ==> fuel <= old(fuel)
      decreases fuel, 2
    {
      end, locals', stack' := Instructions(body, locals, stack);
      while end == Ok(Break(0))
        invariant end.Ok? ==> fuel <= old(fuel)
        invariant end == Ok(Break(0)) ==> fuel < old(fuel)
        invariant (end == Ok(Break(0)) ==>
                     (Iterate(w, old(fuel), body, State(old(memory), locals, stack))
                        == Iterate(w, fuel, body, State(memory, locals', stack'))))
        invariant end != Ok(Break(0)) ==>
                    Agrees(Iterate(w, old(fuel), body, State(old(memory), locals, stack)), Outwards(end), fuel, memory, locals', stack')
        decreases if end == Ok(Break(0)) then fuel + 1 else 0
      {
        end, locals', stack' := Instructions(body, locals', stack');
      }
      end := Outwards(end);
    }

    method ApplySlot(at: nat, locals: seq<Value>, stack: seq<Value>) returns (end: Step<Flow>, after: seq<Value>)
      modifies this
      ensures Agrees(ApplyTable(w, old(fuel) + 1, at, State(old(memory), locals, stack)), end, fuel, memory, locals, after)
      ensures end.Ok? ==> fuel <= old(fuel)
      decreases fuel, 4
    {
      if stack == [] {
        return Stops(EmptyStack), stack;
      }
      var slot := AsI64(stack[|stack| - 1]);
      after := stack[..|stack| - 1];
      if !(0 <= slot < |w.m.table|) {
        return Stops(OutOfBounds), after;
      }
      if w.checks && !SignatureAgrees(w.m, w.m.table[slot], at) {
        return Stops(SignatureMismatch), after;
      }
      end, after := Apply(w.m.table[slot], locals, after);
    }

    /** Arguments off the stack, the result onto it. */
    method Apply(index: nat, locals: seq<Value>, stack: seq<Value>) returns (end: Step<Flow>, after: seq<Value>)
      modifies this
      ensures Agrees(Run.Apply(w, old(fuel), index, State(old(memory), locals, stack)), end, fuel, memory, locals, after)
      ensures end.Ok? ==> fuel <= old(fuel)
      decreases fuel, 3
    {
      after := stack;
      var count := Arity(w.m, index);
      if count.Stops? {
        return Stops(count.trap), after;
      }
      if count.Panic? || |stack| < count.value {
        return Panic, after;
      }
      var at := |stack| - count.value;
      after := stack[..at];
      var result := Call(index, stack[at..]);
      match result {
        case Ok(value) =>
          end := Ok(Normal);
          if value.Some? {
            after := after + [value.value];
          }
        case Stops(trap) => end := Stops(trap);
        case Panic => end := Panic;
      }
    }

    /** The function at this index: a host's answer, or a body run on locals of its own. */
    method Call(index: nat, args: seq<Value>) returns (result: Step<Option<Value>>)
      modifies this
      ensures match Invoke(w, old(fuel), index, args, old(memory))
        case Done(left, (after, value)) => result == Ok(value) && fuel == left && memory == after
        case Trapped(trap) => result == Stops(trap)
        case Panics => result == Panic
      ensures result.Ok? ==> fuel <= old(fuel)
      decreases fuel, 2
    {
      if index < |w.m.imports| {
        if w.host.None? {
          return Stops(NeedsAHost(index));
        }
        match w.host.value(index, args, memory) {
          case Answer(value, after) =>
            memory := after;
            return Ok(value);
          case Refuses(trap) => return Stops(trap);
        }
      }
      if index - |w.m.imports| >= |w.m.funcs| {
        return Panic;
      }
      var func := w.m.funcs[index - |w.m.imports|];
      if func.typeIndex >= |w.m.types| {
        return Panic;
      }
      var locals := args + seq(|func.locals|, i requires 0 <= i < |func.locals| => Zero(func.locals[i]));
      var end, _, stack := Instructions(func.body, locals, []);
      match end {
        case Ok(_) =>
          var answers := w.m.types[func.typeIndex].results != [] && stack != [];
          result := Ok(if answers then Some(stack[|stack| - 1]) else None);
        case Stops(trap) => result := Stops(trap);
        case Panic => result := Panic;
      }
    }
  }

  /** One export run within a budget, and what it came to. */
  method RunOne(w: World, index: nat, args: seq<Value>, budget: nat, memory: seq<byte>) returns (r: Step<Run.Outcome>)
    ensures r == RunExport(w, index, args, budget, memory)
  {
    var runner := new Runner(w, budget, memory);
    var result := runner.Call(index, args);
    match result {
      case Ok(value) =>
        return Ok(Run.Outcome(value, SaturatingSub(Bump(runner.memory), Bump(memory)), budget - runner.fuel, runner.memory));
      case Stops(trap) => return Stops(trap);
      case Panic => return Panic;
    }
  }
}
