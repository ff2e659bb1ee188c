/**
 * What a run does not depend on. A run that ends within a budget ends the same way, having
 * spent the same, within every larger one; and a run in a world that compares signatures at
 * table calls is the run in the world that does not, unless a comparison stopped it.
 */
module Fuel {
  import opened Ints
  import opened Wasm
  import opened Run

  function Spared<T>(r: Result<T>, extra: nat): Result<T> {
    if r.Done? then r.(fuel := r.fuel + extra) else r
  }

  /** The second world is the first, or the first without its signature checks. */
  ghost predicate Looser(w: World, v: World) {
    v == w || v == w.(checks := false)
  }

  /** The run was stopped neither by the budget, if it grows, nor by a check, if it goes. */
  ghost predicate Ends<T>(w: World, v: World, extra: nat, r: Result<T>) {
    && Looser(w, v)
    && (extra > 0 ==> r != Trapped(TooLong))
    && (v != w ==> r != Trapped(SignatureMismatch) && r != Trapped(EmptyStack))
  }

  lemma {:induction false} BodySpares(w: World, v: World, fuel: nat, extra: nat, body: seq<Ins>, s: State)
    requires Ends(w, v, extra, Body(w, fuel, body, s))
    ensures Body(v, fuel + extra, body, s) == Spared(Body(w, fuel, body, s), extra)
    decreases fuel, 1, 0
  {
    if body != [] && fuel != 0 {
      InstrSpares(w, v, fuel, extra, body[0], s);
      var first := Instr(w, fuel, body[0], s);
      if first.Done? && first.value.1 == Normal {
        BodySpares(w, v, first.fuel, extra, body[1..], first.value.0);
      }
    }
  }

  lemma {:induction false} InstrSpares(w: World, v: World, fuel: nat, extra: nat, marked: Ins, s: State)
    requires fuel > 0
    requires Ends(w, v, extra, Instr(w, fuel, marked, s))
    ensures Instr(v, fuel + extra, marked, s) == Spared(Instr(w, fuel, marked, s), extra)
    decreases fuel, 0, 2
  {
    var ins := if marked.Marked? then marked.inner else marked;
    if !Simple(ins) {
      StructuredSpares(w, v, fuel, extra, ins, s);
    }
  }

  lemma {:induction false} StructuredSpares(w: World, v: World, fuel: nat, extra: nat, ins: Ins, s: State)
    requires fuel > 0 && !Simple(ins)
    requires Ends(w, v, extra, Structured(w, fuel, ins, s))
    ensures Structured(v, fuel + extra, ins, s) == Spared(Structured(w, fuel, ins, s), extra)
    decreases fuel, 0, 1
  {
    if ins.Block? {
      BodySpares(w, v, fuel - 1, extra, ins.body, s);
    } else if ins.Loop? {
      IterateSpares(w, v, fuel - 1, extra, ins.body, s);
    } else if ins.If? {
      ChooseSpares(w, v, fuel, extra, ins.taken, ins.otherwise, s);
    } else if ins.Call? {
      ApplySpares(w, v, fuel - 1, extra, ins.func, s);
    } else if ins.CallIndirect? {
      TableSpares(w, v, fuel, extra, ins.typeIndex, s);
    }
  }

  lemma {:induction false} ChooseSpares(
    w: World, v: World, fuel: nat, extra: nat, taken: seq<Ins>, otherwise: seq<Ins>, s: State)
    requires fuel > 0
    requires Ends(w, v, extra, Choose(w, fuel, taken, otherwise, s))
    ensures Choose(v, fuel + extra, taken, otherwise, s) == Spared(Choose(w, fuel, taken, otherwise, s), extra)
    decreases fuel, 0, 0
  {
    if Popped(s).Ok? {
      var (condition, under) := Popped(s).value;
      BodySpares(w, v, fuel - 1, extra, if AsBool(condition) then taken else otherwise, under);
    }
  }

  lemma {:induction false} TableSpares(w: World, v: World, fuel: nat, extra: nat, at: nat, s: State)
    requires fuel > 0
    requires Ends(w, v, extra, ApplyTable(w, fuel, at, s))
    ensures ApplyTable(v, fuel + extra, at, s) == Spared(ApplyTable(w, fuel, at, s), extra)
    decreases fuel, 0, 0
  {
    if Popped(s).Ok? {
      var (slot, under) := Popped(s).value;
      var k := AsI64(slot);
      if 0 <= k < |w.m.table| && (w.checks ==> SignatureAgrees(w.m, w.m.table[k], at)) {
        ApplySpares(w, v, fuel - 1, extra, w.m.table[k], under);
      }
    }
  }

  lemma {:induction false} IterateSpares(w: World, v: World, fuel: nat, extra: nat, body: seq<Ins>, s: State)
    requires Ends(w, v, extra, Iterate(w, fuel, body, s))
    ensures Iterate(v, fuel + extra, body, s) == Spared(Iterate(w, fuel, body, s), extra)
    decreases fuel, 2, 0
  {
    BodySpares(w, v, fuel, extra, body, s);
    var turn := Body(w, fuel, body, s);
    if turn.Done? && turn.value.1 == Break(0) {
      IterateSpares(w, v, turn.fuel, extra, body, turn.value.0);
    }
  }

  lemma {:induction false} ApplySpares(w: World, v: World, fuel: nat, extra: nat, index: nat, s: State)
    requires Ends(w, v, extra, Apply(w, fuel, index, s))
    ensures Apply(v, fuel + extra, index, s) == Spared(Apply(w, fuel, index, s), extra)
    decreases fuel, 3, 0
  {
    var count := Arity(w.m, index);
    if count.Ok? && count.value <= |s.stack| {
      InvokeSpares(w, v, fuel, extra, index, s.stack[|s.stack| - count.value..], s.memory);
    }
  }

  lemma {:induction false} InvokeSpares(
    w: World, v: World, fuel: nat, extra: nat, index: nat, args: seq<Value>, memory: seq<byte>)
    requires Ends(w, v, extra, Invoke(w, fuel, index, args, memory))
    ensures Invoke(v, fuel + extra, index, args, memory) == Spared(Invoke(w, fuel, index, args, memory), extra)
    decreases fuel, 2, 0
  {
    if |w.m.imports| <= index < |w.m.imports| + |w.m.funcs| {
      var func := w.m.funcs[index - |w.m.imports|];
      if func.typeIndex < |w.m.types| {
        BodySpares(w, v, fuel, extra, func.body, Begun(func, args, memory));
      }
    }
  }

  /**
   * Two budgets that a run ends within give one outcome: the same value, memory, room taken
   * and number of instructions, or the same trap. No run takes more steps than its budget.
   */
  lemma BudgetOnlyCutsShort(w: World, index: nat, args: seq<Value>, one: nat, other: nat, memory: seq<byte>)
    ensures RunExport(w, index, args, one, memory).Ok? ==>
              RunExport(w, index, args, one, memory).value.steps <= one
    ensures one <= other && RunExport(w, index, args, one, memory) != Stops(TooLong) ==>
              RunExport(w, index, args, other, memory) == RunExport(w, index, args, one, memory)
  {
    if one <= other && RunExport(w, index, args, one, memory) != Stops(TooLong) {
      InvokeSpares(w, w, one, other - one, index, args, memory);
    }
  }

  /** Unless a check stopped the run, whether there are any does not show. */
  lemma ChecksOnlyStop(w: World, fuel: nat, index: nat, args: seq<Value>, memory: seq<byte>)
    requires w.checks
    requires Invoke(w, fuel, index, args, memory) != Trapped(SignatureMismatch)
    requires Invoke(w, fuel, index, args, memory) != Trapped(EmptyStack)
    ensures Invoke(w.(checks := false), fuel, index, args, memory) == Invoke(w, fuel, index, args, memory)
  {
    InvokeSpares(w, w.(checks := false), fuel, 0, index, args, memory);
  }
}
