/** The validator as it runs, its two stacks changed by one instruction after another. */
module Checker {
  import opened Ints
  import opened Wasm
  import opened Validate

  class Checker {
    const m: Module
    const locals: seq<ValType>
    var stack: seq<Slot>
    var frames: seq<Frame>

    constructor (m: Module, locals: seq<ValType>)
      ensures this.m == m && this.locals == locals && Abs() == Control([], [])
    {
      this.m := m;
      this.locals := locals;
      stack, frames := [], [];
    }

    /** The two stacks as the value the rules are stated on. */
    function Abs(): Control
      reads this
    {
      Control(stack, frames)
    }

    function Rules(): Env
    {
      Env(m, locals, Specified)
    }

    method PushOne(ty: ValType)
      modifies this`stack
      ensures Abs() == Push(old(Abs()), ty)
    {
      stack := stack + [Val(ty)];
    }

    method PushTypes(types: seq<ValType>)
      modifies this`stack
      ensures Abs() == PushAll(old(Abs()), types)
    {
      var i := 0;
      assert stack + Vals(types[..0]) == stack;
      while i < |types|
        invariant i <= |types| && stack == old(stack) + Vals(types[..i])
      {
        PushOne(types[i]);
        i := i + 1;
        assert Vals(types[..i]) == Vals(types[..i - 1]) + [Val(types[i - 1])];
      }
      assert types[..i] == types;
    }

    method PopOne() returns (slot: Option<Slot>)
      requires Sound(Abs())
      modifies this`stack
      ensures Sound(Abs())
      ensures match Pop(old(Abs()))
        case Some((found, rest)) => slot == Some(found) && Abs() == rest
        case None => slot.None?
    {
      var frame := frames[|frames| - 1];
      if |stack| == frame.height {
        return if frame.unreachable then Some(Unknown) else None;
      }
      slot := Some(stack[|stack| - 1]);
      stack := stack[..|stack| - 1];
    }

    method PopType(expected: ValType) returns (ok: bool)
      requires Sound(Abs())
      modifies this`stack
      ensures Sound(Abs())
      ensures ok <==> PopExpect(old(Abs()), expected).Some?
      ensures ok ==> Abs() == PopExpect(old(Abs()), expected).value
    {
      var slot := PopOne();
      ok := slot.Some? && (slot.value == Unknown || slot.value == Val(expected));
    }

    /** The last of them first. */
    method PopTypes(types: seq<ValType>) returns (ok: bool)
      requires Sound(Abs())
      modifies this`stack
      ensures Sound(Abs())
      ensures ok <==> PopAll(old(Abs()), types).Some?
      ensures ok ==> Abs() == PopAll(old(Abs()), types).value
    {
      var i := |types|;
      ok := true;
      assert types[..i] == types;
      while i > 0
        invariant i <= |types| && Sound(Abs())
        invariant PopAll(Abs(), types[..i]) == PopAll(old(Abs()), types)
      {
        assert types[..i][|types[..i]| - 1] == types[i - 1] && types[..i][..i - 1] == types[..i - 1];
        ok := PopType(types[i - 1]);
        if !ok {
          return;
        }
        i := i - 1;
      }
    }

    method OpenFrame(labelTypes: seq<ValType>, endTypes: seq<ValType>)
      modifies this`frames
      ensures Abs() == PushFrame(old(Abs()), labelTypes, endTypes)
    {
      frames := frames + [Frame(labelTypes, endTypes, |stack|, false)];
    }

    method CloseFrame() returns (ok: bool)
      requires Sound(Abs())
      modifies this
      ensures ok <==> PopFrame(old(Abs())).Some?
      ensures ok ==> Abs() == PopFrame(old(Abs())).value
    {
      ok := PopTypes(frames[|frames| - 1].endTypes);
      if ok {
        ok := |stack| == frames[|frames| - 1].height;
        if ok {
          frames := frames[..|frames| - 1];
        }
      }
    }

    method SetUnreachable()
      requires Sound(Abs())
      modifies this
      ensures Abs() == Cut(old(Abs()))
    {
      var frame := frames[|frames| - 1];
      stack := stack[..frame.height];
      frames := frames[|frames| - 1 := frame.(unreachable := true)];
    }

    /** An instruction that takes some types off the stack and leaves others. */
    method Plainly(params: seq<ValType>, results: seq<ValType>) returns (ok: bool)
      requires Sound(Abs())
      modifies this`stack
      ensures ok <==> CheckPlain(old(Abs()), FuncType(params, results)).Some?
      ensures ok ==> Abs() == CheckPlain(old(Abs()), FuncType(params, results)).value
    {
      ok := PopTypes(params);
      if ok {
        PushTypes(results);
      }
    }

    method Branch(depth: nat) returns (ok: bool)
      requires Sound(Abs())
      modifies this
      ensures ok <==> CheckBr(Specified, old(Abs()), depth).Some?
      ensures ok ==> Abs() == CheckBr(Specified, old(Abs()), depth).value
    {
      if depth >= |frames| {
        return false;
      }
      ok := PopTypes(frames[|frames| - 1 - depth].labelTypes);
      if ok {
        SetUnreachable();
      }
    }

    method BranchWhen(depth: nat) returns (ok: bool)
      requires Sound(Abs())
      modifies this
      ensures ok <==> CheckBrIf(Specified, old(Abs()), depth).Some?
      ensures ok ==> Abs() == CheckBrIf(Specified, old(Abs()), depth).value
    {
      ok := PopTypes([I32]);
      if ok {
        ok := depth < |frames|;
        if ok {
          var target := frames[|frames| - 1 - depth].labelTypes;
          ok := PopTypes(target);
          if ok {
            PushTypes(target);
          }
        }
      }
    }

    method Leave() returns (ok: bool)
      requires Sound(Abs())
      modifies this
      ensures ok <==> CheckReturn(old(Abs())).Some?
      ensures ok ==> Abs() == CheckReturn(old(Abs())).value
    {
      ok := PopTypes(frames[0].endTypes);
      if ok {
        SetUnreachable();
      }
    }

    /** One instruction: accepted, and the stacks changed, exactly as the rules say. */
    method Instruction(ins: Ins) returns (ok: bool)
      requires Sound(Abs())
      modifies this
      ensures ok <==> CheckIns(Rules(), old(Abs()), ins).Some?
      ensures ok ==> Abs() == CheckIns(Rules(), old(Abs()), ins).value && Sound(Abs())
      decreases ins, 1
    {
      if ins.Marked? {
        ok := Instruction(ins.inner);
      } else if ins.Unreachable? {
        SetUnreachable();
        ok := true;
      } else if ins.Block? {
        ok := Nested(Results(ins.result), Results(ins.result), ins.body);
      } else if ins.Loop? {
        ok := Nested([], Results(ins.result), ins.body);
      } else if ins.If? {
        ok := Arms(ins);
      } else if ins.Br? {
        ok := Branch(ins.depth);
      } else if ins.BrIf? {
        ok := BranchWhen(ins.depth);
      } else if ins.Return? {
        ok := Leave();
      } else if ins.Drop? {
        var slot := PopOne();
        ok := slot.Some?;
      } else {
        var ty := PlainType(Rules(), ins);
        ok := ty.Some?;
        if ok {
          ok := Plainly(ty.value.params, ty.value.results);
        }
      }
    }

    /** The arms of an `if`, one after the other from equal stacks. */
    method Arms(ins: Ins) returns (ok: bool)
      requires Sound(Abs()) && ins.If?
      modifies this
      ensures ok <==> CheckIns(Rules(), old(Abs()), ins).Some?
      ensures ok ==> Abs() == CheckIns(Rules(), old(Abs()), ins).value && Sound(Abs())
      decreases ins, 0
    {
      ok := PopTypes([I32]);
      if ok {
        if ins.result.Some? && ins.otherwise == [] {
          return false;
        }
        ok := Inside(Results(ins.result), Results(ins.result), ins.taken);
        if ok {
          ok := Inside(Results(ins.result), Results(ins.result), ins.otherwise);
          if ok {
            PushTypes(Results(ins.result));
          }
        }
      }
    }

    method Nested(labelTypes: seq<ValType>, endTypes: seq<ValType>, body: seq<Ins>) returns (ok: bool)
      requires Sound(Abs())
      modifies this
      ensures ok <==> CheckNested(Rules(), old(Abs()), labelTypes, endTypes, body).Some?
      ensures ok ==> Abs() == CheckNested(Rules(), old(Abs()), labelTypes, endTypes, body).value && Sound(Abs())
      decreases body, 2
    {
      ok := Inside(labelTypes, endTypes, body);
      if ok {
        PushTypes(endTypes);
      }
    }

    /** A body in a frame that is opened before it and closed after: nothing outside changes. */
    method Inside(labelTypes: seq<ValType>, endTypes: seq<ValType>, body: seq<Ins>) returns (ok: bool)
      requires Sound(Abs())
      modifies this
      ensures ok <==> CheckNested(Rules(), old(Abs()), labelTypes, endTypes, body).Some?
      ensures ok ==> Abs() == old(Abs())
      decreases body, 1
    {
      OpenFrame(labelTypes, endTypes);
      ok := Instructions(body);
      if ok {
        ok := CloseFrame();
        if ok {
          NestedCloses(Rules(), old(Abs()), labelTypes, endTypes, body);
        }
      }
    }

    method Instructions(body: seq<Ins>) returns (ok: bool)
      requires Sound(Abs())
      modifies this
      ensures ok <==> CheckBody(Rules(), old(Abs()), body).Some?
      ensures ok ==> Abs() == CheckBody(Rules(), old(Abs()), body).value && Sound(Abs())
      decreases body, 0
    {
      var i := 0;
      ok := true;
      while i < |body|
        invariant i <= |body| && Sound(Abs())
        invariant CheckBody(Rules(), Abs(), body[i..]) == CheckBody(Rules(), old(Abs()), body)
      {
        assert body[i..][0] == body[i] && body[i..][1..] == body[i + 1..];
        ok := Instruction(body[i]);
        if !ok {
          return;
        }
        i := i + 1;
      }
    }
  }

  /** Once its body has been checked and its frame closed, a block has changed nothing outside. */
  lemma NestedCloses(env: Env, c: Control, labelTypes: seq<ValType>, endTypes: seq<ValType>, body: seq<Ins>)
    requires Sound(c)
    requires var checked := CheckBody(env, PushFrame(c, labelTypes, endTypes), body); checked.Some? && PopFrame(checked.value).Some?
    ensures PopFrame(CheckBody(env, PushFrame(c, labelTypes, endTypes), body).value).value == c
  {
    var entered := PushFrame(c, labelTypes, endTypes);
    var inner := CheckBody(env, entered, body).value;
    assert entered.frames[..|c.frames|] == c.frames;
    NestedLeavesOuter(entered, inner, c);
  }

  /** Every body, then the table: accepted exactly when the module validates. */
  method ValidateModule(m: Module) returns (ok: bool)
    ensures ok <==> Validates(m, Specified)
  {
    var at := 0;
    while at < |m.funcs|
      invariant at <= |m.funcs|
      invariant forall i | 0 <= i < at :: FuncChecks(m, m.funcs[i], Specified)
    {
      ok := CheckFunc(m, m.funcs[at]);
      if !ok {
        return;
      }
      at := at + 1;
    }
    at := 0;
    while at < |m.table|
      invariant at <= |m.table|
      invariant forall i | 0 <= i < at :: m.table[i] < |m.imports| + |m.funcs|
    {
      if m.table[at] >= |m.imports| + |m.funcs| {
        return false;
      }
      at := at + 1;
    }
    ok := true;
  }

  method CheckFunc(m: Module, func: Func) returns (ok: bool)
    ensures ok <==> FuncChecks(m, func, Specified)
  {
    if func.typeIndex >= |m.types| {
      return false;
    }
    var ty := m.types[func.typeIndex];
    var checker := new Checker(m, ty.params + func.locals);
    checker.OpenFrame(ty.results, ty.results);
    ok := checker.Instructions(func.body);
    if ok {
      ok := checker.CloseFrame();
    }
  }
}
