/**
 * Type soundness: a module the validator accepts does not go wrong when it runs. No pop
 * finds an empty stack, no index is out of range, no branch leaves its function, and what
 * comes back has the declared type.
 */
module Soundness {
  import opened Ints
  import opened Wasm
  import opened Validate
  import opened Run
  import Fuel

  // -- what it is for values to have types -----------------------------------

  ghost predicate Typed(stack: seq<Value>, slots: seq<Slot>) {
    |stack| == |slots| && forall i | 0 <= i < |stack| :: slots[i] == Val(TypeOf(stack[i]))
  }

  ghost predicate AllTyped(values: seq<Value>, types: seq<ValType>) {
    |values| == |types| && forall i | 0 <= i < |values| :: TypeOf(values[i]) == types[i]
  }

  /** The top of the stack holds values of these types. */
  ghost predicate EndsTyped(stack: seq<Value>, types: seq<ValType>) {
    |types| <= |stack| && AllTyped(stack[|stack| - |types|..], types)
  }

  /** A result of at most one type, as the runner hands it over. */
  ghost predicate ResultTyped(value: Option<Value>, results: seq<ValType>) {
    if results == [] then value.None? else value.Some? && TypeOf(value.value) == results[0]
  }

  /** The host answers every import with a value of the type the import declares. */
  ghost predicate HostTyped(m: Module, host: HostFn) {
    forall index: nat, args, memory |
      index < |m.imports| && FuncTypeOf(m, index).Some? && AllTyped(args, FuncTypeOf(m, index).value.params) ::
      match host(index, args, memory)
      case Answer(value, _) => ResultTyped(value, FuncTypeOf(m, index).value.results)
      case Refuses(trap) => trap != EmptyStack
  }

  /**
   * What soundness asks of a module besides validating: its branches are tight, no type has
   * two results, and its host answers with what the imports declare.
   */
  ghost predicate WellFormed(w: World) {
    && Validates(w.m, Tight)
    && (forall i | 0 <= i < |w.m.types| :: |w.m.types[i].results| <= 1)
    && (forall i | 0 <= i < |w.m.imports| :: w.m.imports[i] < |w.m.types|)
    && (w.host.Some? ==> HostTyped(w.m, w.host.value))
  }

  /** Frames open no lower than the frames around them, and the stack reaches them all. */
  ghost predicate Layered(c: Control) {
    && Sound(c)
    && forall i, j | 0 <= i <= j < |c.frames| :: c.frames[i].height <= c.frames[j].height
  }

  /** The state a body runs in is the state it was checked in. */
  ghost predicate Matches(env: Env, c: Control, s: State) {
    Typed(s.stack, c.stack) && AllTyped(s.locals, env.locals)
  }

  /** What a body or an instruction checked from `c` to `after` may do when it runs. */
  ghost predicate Follows(env: Env, c: Control, after: Control, r: Ran)
    requires Layered(c) && Keeps(c, after)
  {
    match r
    case Panics => false
    case Trapped(trap) => trap != EmptyStack
    case Done(_, (s, Normal)) => !Top(after).unreachable && Matches(env, after, s)
    case Done(_, (s, Break(depth))) =>
      depth < |c.frames| &&
      var target := c.frames[|c.frames| - 1 - depth];
      Typed(s.stack, c.stack[..target.height] + Vals(target.labelTypes)) && AllTyped(s.locals, env.locals)
    case Done(_, (s, Returning)) => EndsTyped(s.stack, c.frames[0].endTypes)
  }

  // -- the validator's stack is the runner's ---------------------------------

  /** Popping in reachable code takes exactly the types asked for off the top. */
  lemma {:induction false} PopAllSplits(c: Control, types: seq<ValType>)
    requires Sound(c) && !Top(c).unreachable && PopAll(c, types).Some?
    requires forall slot | slot in c.stack :: slot.Val?
    ensures c.stack == PopAll(c, types).value.stack + Vals(types)
    decreases |types|
  {
    if types == [] {
      assert Vals(types) == [];
    } else {
      var last := types[|types| - 1];
      var rest := PopExpect(c, last).value;
      assert c.stack != [] && c.stack[|c.stack| - 1].Val?;
      assert c.stack[|c.stack| - 1] == Val(last);
      assert c.stack == rest.stack + [Val(last)];
      PopAllSplits(rest, types[..|types| - 1]);
      assert Vals(types) == Vals(types[..|types| - 1]) + [Val(last)];
    }
  }

  lemma TypedSplits(stack: seq<Value>, under: seq<Slot>, types: seq<ValType>)
    requires Typed(stack, under + Vals(types))
    ensures Typed(stack[..|under|], under)
    ensures AllTyped(stack[|under|..], types)
    ensures |stack| == |under| + |types|
  {
    var slots := under + Vals(types);
    forall i | 0 <= i < |under| ensures under[i] == Val(TypeOf(stack[i])) {
      assert slots[i] == under[i];
    }
    forall i | 0 <= i < |types| ensures TypeOf(stack[|under| + i]) == types[i] {
      assert slots[|under| + i] == Val(types[i]);
    }
  }

  lemma TypedJoins(under: seq<Value>, slots: seq<Slot>, values: seq<Value>, types: seq<ValType>)
    requires Typed(under, slots) && AllTyped(values, types)
    ensures Typed(under + values, slots + Vals(types))
  {
  }

  /** The two facts every popping instruction starts from. */
  lemma Popping(c: Control, types: seq<ValType>, stack: seq<Value>)
    requires Sound(c) && !Top(c).unreachable && PopAll(c, types).Some? && Typed(stack, c.stack)
    ensures var rest := PopAll(c, types).value;
      && |stack| == |rest.stack| + |types|
      && Typed(stack[..|rest.stack|], rest.stack)
      && AllTyped(stack[|rest.stack|..], types)
  {
    PopAllSplits(c, types);
    TypedSplits(stack, PopAll(c, types).value.stack, types);
  }

  // -- instructions that only touch the state --------------------------------

  lemma NumSound(op: NumOp, s: State, under: seq<Value>)
    requires under <= s.stack && AllTyped(s.stack[|under|..], NumParams(op))
    ensures match ExecNum(op, s)
      case Ok(next) =>
        && next.memory == s.memory && next.locals == s.locals
        && exists v :: next.stack == under + [v] && TypeOf(v) == NumResult(op)
      case Stops(trap) => trap != EmptyStack
      case Panic => false
  {
    var n := |NumParams(op)|;
    assert n == if Unary(op) then 1 else 2;
    var (right, below) := Popped(s).value;
    if Unary(op) {
      assert below.stack == under;
      assert Pushed(below, UnaryOn(op, AsI64(right))).stack == under + [UnaryOn(op, AsI64(right))];
    } else {
      var (left, rest) := Popped(below).value;
      assert rest.stack == under;
      BinaryResult(op, AsI64(left), AsI64(right));
    }
  }

  lemma BinaryResult(op: NumOp, left: i64, right: i64)
    requires !Unary(op)
    ensures match BinaryOn(op, left, right)
      case Ok(v) => TypeOf(v) == NumResult(op)
      case Stops(trap) => trap == DivideByZero
      case Panic => false
  {
  }

  /** A simple instruction replaces values of its parameter types with values of its result types. */
  lemma SimpleSound(env: Env, ins: Ins, s: State, under: seq<Value>)
    requires Simple(ins) && !ins.Drop? && PlainType(env, ins).Some?
    requires AllTyped(s.locals, env.locals)
    requires under <= s.stack && AllTyped(s.stack[|under|..], PlainType(env, ins).value.params)
    ensures match ExecSimple(ins, s)
      case Ok(next) =>
        && AllTyped(next.locals, env.locals)
        && under <= next.stack && AllTyped(next.stack[|under|..], PlainType(env, ins).value.results)
      case Stops(trap) => trap != EmptyStack
      case Panic => false
  {
    if ins.Num? {
      NumSound(ins.op, s, under);
    } else if ins.I32Load? || ins.I64Load? || ins.I32Load8U? {
      LoadSound(ins, s, under);
    } else if ins.I32Store? || ins.I64Store? || ins.I32Store8? {
      StoreSound(ins, s, under);
    }
  }

  lemma LoadSound(ins: Ins, s: State, under: seq<Value>)
    requires ins.I32Load? || ins.I64Load? || ins.I32Load8U?
    requires under <= s.stack && |s.stack| == |under| + 1
    ensures match ExecLoad(ins, s)
      case Ok(next) =>
        && next.memory == s.memory && next.locals == s.locals
        && exists v :: next.stack == under + [v] && TypeOf(v) == if ins.I64Load? then I64 else I32
      case Stops(trap) => trap == OutOfBounds
      case Panic => false
  {
    assert Popped(s).value.1.stack == under;
  }

  lemma StoreSound(ins: Ins, s: State, under: seq<Value>)
    requires ins.I32Store? || ins.I64Store? || ins.I32Store8?
    requires under <= s.stack && |s.stack| == |under| + 2
    ensures match ExecStore(ins, s)
      case Ok(next) => next.locals == s.locals && next.stack == under && |next.memory| == |s.memory|
      case Stops(trap) => trap == OutOfBounds
      case Panic => false
  {
    assert Popped(Popped(s).value.1).value.1.stack == under;
  }

  // -- frames ----------------------------------------------------------------

  /** A step from c to next may do for c whatever its continuation from next may do. */
  lemma FitsFrom(env: Env, c: Control, next: Control, after: Control, r: Ran)
    requires Layered(c) && Keeps(c, next) && Keeps(next, after) && Layered(next)
    requires Follows(env, next, after, r)
    ensures Keeps(c, after) && Follows(env, c, after, r)
  {
    KeepsTrans(c, next, after);
    if r.Done? && r.value.1.Break? {
      var at := |c.frames| - 1 - r.value.1.depth;
      SameTarget(c, next, at);
    }
    assert next.frames[0].endTypes == c.frames[0].endTypes by { SameTarget(c, next, 0); }
  }

  lemma SameTarget(c: Control, next: Control, at: nat)
    requires Layered(c) && Keeps(c, next) && at < |c.frames|
    ensures next.frames[at].height == c.frames[at].height
    ensures next.frames[at].labelTypes == c.frames[at].labelTypes
    ensures next.frames[at].endTypes == c.frames[at].endTypes
    ensures next.stack[..next.frames[at].height] == c.stack[..c.frames[at].height]
  {
    if at < |c.frames| - 1 {
      assert next.frames[at] == next.frames[..|c.frames| - 1][at] == c.frames[..|c.frames| - 1][at] == c.frames[at];
    }
    var h := c.frames[at].height;
    assert h <= Top(c).height;
    assert next.stack[..h] == next.stack[..Top(c).height][..h];
    assert c.stack[..h] == c.stack[..Top(c).height][..h];
  }

  lemma LayeredStays(c: Control, next: Control)
    requires Layered(c) && Keeps(c, next)
    ensures Layered(next)
  {
    forall i, j | 0 <= i <= j < |next.frames| ensures next.frames[i].height <= next.frames[j].height {
      SameTarget(c, next, i);
      SameTarget(c, next, j);
    }
  }

  lemma LayeredInside(c: Control, labelTypes: seq<ValType>, endTypes: seq<ValType>)
    requires Layered(c)
    ensures Layered(PushFrame(c, labelTypes, endTypes))
  {
    forall i | 0 <= i < |c.frames| ensures c.frames[i].height <= |c.stack| {
      assert c.frames[i].height <= Top(c).height;
    }
  }

  // -- branches --------------------------------------------------------------

  /** What a branch leaves behind is what its target's label asks for, and nothing over. */
  lemma TightBranch(env: Env, c: Control, depth: nat, s: State)
    requires env.rules.Tight? && Layered(c) && !Top(c).unreachable && Matches(env, c, s)
    requires BranchTarget(c, depth).Some? && PopAll(c, BranchTarget(c, depth).value.labelTypes).Some?
    requires TightAt(PopAll(c, BranchTarget(c, depth).value.labelTypes).value, depth)
    ensures var target := c.frames[|c.frames| - 1 - depth];
      Typed(s.stack, c.stack[..target.height] + Vals(target.labelTypes))
  {
    var target := c.frames[|c.frames| - 1 - depth];
    var rest := PopAll(c, target.labelTypes).value;
    PopAllSplits(c, target.labelTypes);
    assert rest.stack == c.stack[..|rest.stack|];
  }

  // -- the induction ---------------------------------------------------------

  lemma {:induction false} BodySound(w: World, env: Env, fuel: nat, c: Control, body: seq<Ins>, s: State)
    requires WellFormed(w) && w.checks && env.m == w.m && env.rules.Tight?
    requires Layered(c) && !Top(c).unreachable && Matches(env, c, s)
    requires CheckBody(env, c, body).Some?
    ensures Follows(env, c, CheckBody(env, c, body).value, Body(w, fuel, body, s))
    decreases fuel, 1, 0
  {
    if body != [] && fuel != 0 {
      var next := CheckIns(env, c, body[0]).value;
      InstrSound(w, env, fuel, c, body[0], s);
      var first := Instr(w, fuel, body[0], s);
      LayeredStays(c, next);
      var after := CheckBody(env, next, body[1..]).value;
      if first.Done? && first.value.1 == Normal {
        BodySound(w, env, first.fuel, next, body[1..], first.value.0);
        FitsFrom(env, c, next, after, Body(w, first.fuel, body[1..], first.value.0));
      }
    }
  }

  lemma {:induction false} InstrSound(w: World, env: Env, fuel: nat, c: Control, marked: Ins, s: State)
    requires fuel > 0
    requires WellFormed(w) && w.checks && env.m == w.m && env.rules.Tight?
    requires Layered(c) && !Top(c).unreachable && Matches(env, c, s)
    requires CheckIns(env, c, marked).Some?
    ensures Follows(env, c, CheckIns(env, c, marked).value, Instr(w, fuel, marked, s))
    decreases fuel, 0, 2
  {
    var ins := if marked.Marked? then marked.inner else marked;
    assert CheckIns(env, c, marked) == CheckIns(env, c, ins) && !ins.Marked?;
    if Simple(ins) {
      if ins.Drop? {
        assert |s.stack| == |c.stack|;
        assert s.stack != [];
      }
      SimpleFits(env, c, ins, s, fuel - 1);
    } else {
      StructuredSound(w, env, fuel, c, ins, s);
    }
  }

  lemma SimpleFits(env: Env, c: Control, ins: Ins, s: State, fuel: nat)
    requires Simple(ins)
    requires Layered(c) && !Top(c).unreachable && Matches(env, c, s)
    requires CheckIns(env, c, ins).Some?
    ensures Follows(env, c, CheckIns(env, c, ins).value, Plainly(fuel, ExecSimple(ins, s)))
  {
    if ins.Drop? {
      assert |s.stack| == |c.stack|;
    } else {
      var ty := PlainType(env, ins).value;
      assert CheckIns(env, c, ins) == CheckPlain(c, ty);
      Popping(c, ty.params, s.stack);
      var rest := PopAll(c, ty.params).value;
      SimpleSound(env, ins, s, s.stack[..|rest.stack|]);
      var step := ExecSimple(ins, s);
      if step.Ok? {
        var under := s.stack[..|rest.stack|];
        var left := step.value.stack[|under|..];
        assert step.value.stack == under + left;
        TypedJoins(under, rest.stack, left, ty.results);
      }
    }
  }

  lemma {:induction false} StructuredSound(w: World, env: Env, fuel: nat, c: Control, ins: Ins, s: State)
    requires fuel > 0 && !Simple(ins) && !ins.Marked?
    requires WellFormed(w) && w.checks && env.m == w.m && env.rules.Tight?
    requires Layered(c) && !Top(c).unreachable && Matches(env, c, s)
    requires CheckIns(env, c, ins).Some?
    ensures Follows(env, c, CheckIns(env, c, ins).value, Structured(w, fuel, ins, s))
    decreases fuel, 0, 1
  {
    if ins.Block? {
      BlockSound(w, env, fuel - 1, c, Results(ins.result), ins.body, s);
    } else if ins.Loop? {
      LoopSound(w, env, fuel - 1, c, Results(ins.result), ins.body, s);
    } else if ins.If? {
      ChooseSound(w, env, fuel, c, ins, s);
    } else if ins.Call? {
      ApplySound(w, env, fuel - 1, c, ins.func, s);
    } else if ins.CallIndirect? {
      TableSound(w, env, fuel, c, ins.typeIndex, s);
    } else {
      JumpSound(w, env, fuel, c, ins, s);
    }
  }

  /** Instructions that leave their block, or may. */
  lemma JumpSound(w: World, env: Env, fuel: nat, c: Control, ins: Ins, s: State)
    requires fuel > 0 && (ins.Br? || ins.BrIf? || ins.Return? || ins.Unreachable?)
    requires env.rules.Tight? && Layered(c) && !Top(c).unreachable && Matches(env, c, s)
    requires CheckIns(env, c, ins).Some?
    ensures Follows(env, c, CheckIns(env, c, ins).value, Structured(w, fuel, ins, s))
  {
    if ins.Br? {
      BranchSound(env, fuel - 1, c, ins.depth, s);
    } else if ins.BrIf? {
      BranchIfSound(env, fuel - 1, c, ins.depth, s);
    } else if ins.Return? {
      ReturnSound(env, fuel - 1, c, s);
    }
  }

  lemma BranchSound(env: Env, fuel: nat, c: Control, depth: nat, s: State)
    requires env.rules.Tight?
    requires Layered(c) && !Top(c).unreachable && Matches(env, c, s)
    requires CheckBr(env.rules, c, depth).Some?
    ensures Follows(env, c, CheckBr(env.rules, c, depth).value, Done(fuel, (s, Break(depth))))
  {
    TightBranch(env, c, depth, s);
  }

  lemma ReturnSound(env: Env, fuel: nat, c: Control, s: State)
    requires Layered(c) && !Top(c).unreachable && Matches(env, c, s)
    requires CheckReturn(c).Some?
    ensures Follows(env, c, CheckReturn(c).value, Done(fuel, (s, Returning)))
  {
    Popping(c, c.frames[0].endTypes, s.stack);
  }

  lemma BranchIfSound(env: Env, fuel: nat, c: Control, depth: nat, s: State)
    requires env.rules.Tight?
    requires Layered(c) && !Top(c).unreachable && Matches(env, c, s)
    requires CheckBrIf(env.rules, c, depth).Some?
    ensures Follows(env, c, CheckBrIf(env.rules, c, depth).value, BranchIf(fuel, depth, s))
  {
    Popping(c, [I32], s.stack);
    var rest := PopAll(c, [I32]).value;
    PopAllKeeps(c, [I32]);
    LayeredStays(c, rest);
    var (condition, under) := Popped(s).value;
    assert under.stack == s.stack[..|rest.stack|];
    var r := Done(fuel, (under, if AsBool(condition) then Break(depth) else Normal));
    StaysOrBranches(env, rest, depth, under, r);
    FitsFrom(env, c, rest, rest, r);
  }

  /** A conditional branch leaves the stack as it found it, whichever way it goes. */
  lemma StaysOrBranches(env: Env, c: Control, depth: nat, s: State, r: Ran)
    requires env.rules.Tight? && Layered(c) && !Top(c).unreachable && Matches(env, c, s)
    requires BranchTarget(c, depth).Some? && PopAll(c, BranchTarget(c, depth).value.labelTypes).Some?
    requires TightAt(PopAll(c, BranchTarget(c, depth).value.labelTypes).value, depth)
    requires r.Done? && r.value.0 == s && (r.value.1 == Normal || r.value.1 == Break(depth))
    ensures var target := BranchTarget(c, depth).value;
      PushAll(PopAll(c, target.labelTypes).value, target.labelTypes) == c
    ensures Keeps(c, c) && Follows(env, c, c, r)
  {
    hide PopAll;
    TightBranch(env, c, depth, s);
    PopAllSplits(c, BranchTarget(c, depth).value.labelTypes);
  }

  lemma {:induction false} BlockSound(
    w: World, env: Env, fuel: nat, c: Control, types: seq<ValType>, body: seq<Ins>, s: State)
    requires WellFormed(w) && w.checks && env.m == w.m && env.rules.Tight?
    requires Layered(c) && !Top(c).unreachable && Matches(env, c, s)
    requires CheckNested(env, c, types, types, body).Some?
    ensures Follows(env, c, PushAll(c, types), Leave(Body(w, fuel, body, s)))
    decreases fuel, 1, 1
  {
    var entered := PushFrame(c, types, types);
    LayeredInside(c, types, types);
    BodySound(w, env, fuel, entered, body, s);
    PushAllKeeps(c, c, types);
    EndOfBlock(env, c, types, types, CheckBody(env, entered, body).value, Body(w, fuel, body, s));
  }

  /** What a body may do inside a frame, read from outside it. */
  lemma EndOfBlock(
    env: Env, c: Control, labelTypes: seq<ValType>, endTypes: seq<ValType>, inner: Control, r: Ran)
    requires Layered(c) && Layered(PushFrame(c, labelTypes, endTypes))
    requires Keeps(PushFrame(c, labelTypes, endTypes), inner) && PopFrame(inner).Some?
    requires !Top(c).unreachable && Keeps(c, PushAll(c, endTypes))
    requires Follows(env, PushFrame(c, labelTypes, endTypes), inner, r)
    requires !(r.Done? && r.value.1 == Break(0) && labelTypes != endTypes)
    ensures Follows(env, c, PushAll(c, endTypes), Leave(r))
  {
    var entered := PushFrame(c, labelTypes, endTypes);
    assert c.stack == entered.stack[..|c.stack|];
    if r.Done? && r.value.1 == Normal {
      PopAllSplits(inner, endTypes);
      assert PopAll(inner, endTypes).value.stack == inner.stack[..|c.stack|] == entered.stack[..|c.stack|];
    } else if r.Done? && r.value.1.Break? && r.value.1.depth > 0 {
      var at := |c.frames| - r.value.1.depth;
      assert entered.frames[at] == c.frames[at];
    }
  }

  lemma {:induction false} LoopSound(
    w: World, env: Env, fuel: nat, c: Control, types: seq<ValType>, body: seq<Ins>, s: State)
    requires WellFormed(w) && w.checks && env.m == w.m && env.rules.Tight?
    requires Layered(c) && !Top(c).unreachable && Matches(env, c, s)
    requires CheckNested(env, c, [], types, body).Some?
    ensures Follows(env, c, PushAll(c, types), Iterate(w, fuel, body, s))
    decreases fuel, 2, 0
  {
    var entered := PushFrame(c, [], types);
    LayeredInside(c, [], types);
    BodySound(w, env, fuel, entered, body, s);
    PushAllKeeps(c, c, types);
    var turn := Body(w, fuel, body, s);
    if turn.Done? && turn.value.1 == Break(0) {
      assert entered.stack[..|c.stack|] + Vals([]) == c.stack;
      LoopSound(w, env, turn.fuel, c, types, body, turn.value.0);
    } else {
      EndOfBlock(env, c, [], types, CheckBody(env, entered, body).value, turn);
    }
  }

  lemma {:induction false} ChooseSound(w: World, env: Env, fuel: nat, c: Control, ins: Ins, s: State)
    requires fuel > 0 && ins.If?
    requires WellFormed(w) && w.checks && env.m == w.m && env.rules.Tight?
    requires Layered(c) && !Top(c).unreachable && Matches(env, c, s)
    requires CheckIns(env, c, ins).Some?
    ensures Follows(env, c, CheckIns(env, c, ins).value, Choose(w, fuel, ins.taken, ins.otherwise, s))
    decreases fuel, 0, 0
  {
    Popping(c, [I32], s.stack);
    var rest := PopAll(c, [I32]).value;
    PopAllKeeps(c, [I32]);
    LayeredStays(c, rest);
    var (condition, under) := Popped(s).value;
    assert under.stack == s.stack[..|rest.stack|];
    var arm := if AsBool(condition) then ins.taken else ins.otherwise;
    BlockSound(w, env, fuel - 1, rest, Results(ins.result), arm, under);
    PushAllKeeps(rest, rest, Results(ins.result));
    FitsFrom(env, c, rest, PushAll(rest, Results(ins.result)), Leave(Body(w, fuel - 1, arm, under)));
  }

  lemma {:induction false} TableSound(w: World, env: Env, fuel: nat, c: Control, at: nat, s: State)
    requires fuel > 0
    requires WellFormed(w) && w.checks && env.m == w.m && env.rules.Tight?
    requires Layered(c) && !Top(c).unreachable && Matches(env, c, s)
    requires at < |w.m.types|
    requires CheckPlain(c, FuncType(w.m.types[at].params + [I32], w.m.types[at].results)).Some?
    ensures Follows(env, c, CheckPlain(c, FuncType(w.m.types[at].params + [I32], w.m.types[at].results)).value,
                 ApplyTable(w, fuel, at, s))
    decreases fuel, 0, 0
  {
    var ty := w.m.types[at];
    var taken := ty.params + [I32];
    assert taken[..|taken| - 1] == ty.params && taken[|taken| - 1] == I32;
    var rest := PopExpect(c, I32).value;
    assert PopAll(c, taken) == PopAll(rest, ty.params);
    assert PopAll(c, [I32]) == Some(rest);
    Popping(c, [I32], s.stack);
    PopAllKeeps(c, [I32]);
    LayeredStays(c, rest);
    var (slot, under) := Popped(s).value;
    assert under.stack == s.stack[..|rest.stack|];
    if 0 <= AsI64(slot) < |w.m.table| && SignatureAgrees(w.m, w.m.table[AsI64(slot)], at) {
      var index := w.m.table[AsI64(slot)];
      ApplySound(w, env, fuel - 1, rest, index, under);
      FitsFrom(env, c, rest, CheckPlain(rest, ty).value, Apply(w, fuel - 1, index, under));
    }
  }

  lemma {:induction false} ApplySound(w: World, env: Env, fuel: nat, c: Control, index: nat, s: State)
    requires WellFormed(w) && w.checks && env.m == w.m && env.rules.Tight?
    requires Layered(c) && !Top(c).unreachable && Matches(env, c, s)
    requires FuncTypeOf(w.m, index).Some? && CheckPlain(c, FuncTypeOf(w.m, index).value).Some?
    ensures Follows(env, c, CheckPlain(c, FuncTypeOf(w.m, index).value).value, Apply(w, fuel, index, s))
    decreases fuel, 3, 0
  {
    hide WellFormed, PopAll, Invoke;
    var ty := FuncTypeOf(w.m, index).value;
    ArityTyped(w.m, index);
    Popping(c, ty.params, s.stack);
    var at := |s.stack| - |ty.params|;
    InvokeSound(w, fuel, index, s.stack[at..], s.memory);
    var r := Invoke(w, fuel, index, s.stack[at..], s.memory);
    if r.Done? {
      AtMostOne(w, index);
      ResultFits(env, c, ty, s, r.value.1, r.value.0, r.fuel);
    }
  }

  lemma ArityTyped(m: Module, index: nat)
    requires FuncTypeOf(m, index).Some?
    ensures Arity(m, index) == Ok(|FuncTypeOf(m, index).value.params|)
  {
  }

  /** The arguments of a call replaced by its result. */
  lemma ResultFits(
    env: Env, c: Control, ty: FuncType, s: State, value: Option<Value>, memory: seq<byte>, fuel: nat)
    requires Layered(c) && !Top(c).unreachable && Matches(env, c, s)
    requires CheckPlain(c, ty).Some? && |ty.params| <= |s.stack|
    requires |ty.results| <= 1 && ResultTyped(value, ty.results)
    ensures var under := State(memory, s.locals, s.stack[..|s.stack| - |ty.params|]);
      Follows(env, c, CheckPlain(c, ty).value,
           Done(fuel, (if value.Some? then Pushed(under, value.value) else under, Normal)))
  {
    Popping(c, ty.params, s.stack);
    var rest := PopAll(c, ty.params).value;
    var under := s.stack[..|s.stack| - |ty.params|];
    var left := if value.Some? then [value.value] else [];
    assert AllTyped(left, ty.results);
    TypedJoins(under, rest.stack, left, ty.results);
    assert under + [] == under;
  }

  lemma AtMostOne(w: World, index: nat)
    requires WellFormed(w) && FuncTypeOf(w.m, index).Some?
    ensures |FuncTypeOf(w.m, index).value.results| <= 1
  {
  }

  /** A function called with arguments of its parameter types answers with its result type, or traps. */
  lemma {:induction false} InvokeSound(w: World, fuel: nat, index: nat, args: seq<Value>, memory: seq<byte>)
    requires WellFormed(w) && w.checks
    requires FuncTypeOf(w.m, index).Some? && AllTyped(args, FuncTypeOf(w.m, index).value.params)
    ensures match Invoke(w, fuel, index, args, memory)
      case Done(_, (_, value)) => ResultTyped(value, FuncTypeOf(w.m, index).value.results)
      case Trapped(trap) => trap != EmptyStack
      case Panics => false
    decreases fuel, 2, 0
  {
    if index < |w.m.imports| {
      HostSound(w, fuel, index, args, memory);
    } else {
      var func := w.m.funcs[index - |w.m.imports|];
      FuncSound(w, fuel, func, args, memory);
      var r := Body(w, fuel, func.body, Begun(func, args, memory));
      if r.Done? {
        AtMostOne(w, index);
        TopTyped(r.value.0.stack, w.m.types[func.typeIndex].results);
      }
    }
  }

  lemma HostSound(w: World, fuel: nat, index: nat, args: seq<Value>, memory: seq<byte>)
    requires WellFormed(w) && index < |w.m.imports|
    requires FuncTypeOf(w.m, index).Some? && AllTyped(args, FuncTypeOf(w.m, index).value.params)
    ensures match Invoke(w, fuel, index, args, memory)
      case Done(_, (_, value)) => ResultTyped(value, FuncTypeOf(w.m, index).value.results)
      case Trapped(trap) => trap != EmptyStack
      case Panics => false
  {
  }

  /** What a call takes off the stack of a function that has ended. */
  lemma TopTyped(stack: seq<Value>, results: seq<ValType>)
    requires EndsTyped(stack, results) && |results| <= 1
    ensures ResultTyped(if results != [] && stack != [] then Some(stack[|stack| - 1]) else None, results)
  {
    if results != [] {
      assert stack[|stack| - 1..][0] == stack[|stack| - 1];
    }
  }

  lemma {:induction false} FuncSound(w: World, fuel: nat, func: Func, args: seq<Value>, memory: seq<byte>)
    requires WellFormed(w) && w.checks
    requires func in w.m.funcs && func.typeIndex < |w.m.types|
    requires AllTyped(args, w.m.types[func.typeIndex].params)
    ensures match Body(w, fuel, func.body, Begun(func, args, memory))
      case Done(_, (s, _)) => EndsTyped(s.stack, w.m.types[func.typeIndex].results)
      case Trapped(trap) => trap != EmptyStack
      case Panics => false
    decreases fuel, 1, 1
  {
    var ty := w.m.types[func.typeIndex];
    assert FuncChecks(w.m, func, Tight);
    var env := Env(w.m, ty.params + func.locals, Tight);
    var c := Entry(ty.results);
    BodySound(w, env, fuel, c, func.body, Begun(func, args, memory));
    EndOfFunction(env, ty.results, CheckBody(env, c, func.body).value, Body(w, fuel, func.body, Begun(func, args, memory)));
  }

  /** However a function body ends, its result is on top of the stack. */
  lemma EndOfFunction(env: Env, results: seq<ValType>, inner: Control, r: Ran)
    requires Keeps(Entry(results), inner) && PopFrame(inner).Some?
    requires Layered(Entry(results)) && Follows(env, Entry(results), inner, r)
    ensures r.Done? ==> EndsTyped(r.value.0.stack, results)
  {
    if r.Done? && r.value.1 == Normal {
      OnlyResults(results, inner);
      TypedEnds(r.value.0.stack, results);
    } else if r.Done? && r.value.1.Break? {
      assert Entry(results).stack[..0] + Vals(results) == Vals(results);
      TypedEnds(r.value.0.stack, results);
    }
  }

  lemma OnlyResults(results: seq<ValType>, inner: Control)
    requires Keeps(Entry(results), inner) && PopFrame(inner).Some?
    requires !Top(inner).unreachable && forall slot | slot in inner.stack :: slot.Val?
    ensures inner.stack == Vals(results)
  {
    assert Top(inner).endTypes == results && Top(inner).height == 0;
    PopAllSplits(inner, results);
    assert PopAll(inner, results).value.stack == [];
  }

  lemma TypedEnds(stack: seq<Value>, types: seq<ValType>)
    requires Typed(stack, Vals(types))
    ensures EndsTyped(stack, types)
  {
    assert stack[|stack| - |types|..] == stack;
  }

  // -- what it comes to ------------------------------------------------------

  /**
   * Whatever the arguments, the memory and the budget, a run in a well-formed world that
   * meets no table call of the wrong signature ends in a value of the declared type or in a
   * trap that is not an empty stack, and no index is out of range on the way. Looking for
   * drops of nothing as well would not have changed it: there are none.
   */
  lemma RunsAreSound(w: World, index: nat, args: seq<Value>, budget: nat, memory: seq<byte>)
    requires WellFormed(w)
    requires FuncTypeOf(w.m, index).Some? && AllTyped(args, FuncTypeOf(w.m, index).value.params)
    requires RunExport(w.(checks := true), index, args, budget, memory) != Stops(SignatureMismatch)
    ensures match RunExport(w, index, args, budget, memory)
      case Ok(outcome) => ResultTyped(outcome.value, FuncTypeOf(w.m, index).value.results)
      case Stops(trap) => trap != EmptyStack
      case Panic => false
    ensures RunExport(w.(checks := true), index, args, budget, memory) == RunExport(w, index, args, budget, memory)
  {
    var checking := w.(checks := true);
    InvokeSound(checking, budget, index, args, memory);
    if w.checks {
      assert checking == w;
    } else {
      Fuel.ChecksOnlyStop(checking, budget, index, args, memory);
      assert checking.(checks := false) == w;
    }
  }
}
