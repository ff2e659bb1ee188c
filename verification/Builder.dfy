/** The compiler as it runs: instructions, locals, sites and literals appended to as the IR is walked. */
module Builder {
  import opened Ints
  import opened Wasm
  import opened Types
  import opened Compile
  import Ir
  import L = Layout

  lemma WordEnds(n: nat, k: nat)
    requires k <= (8 - n % 8) % 8
    ensures (16 + n + k) % L.WORD == 0 <==> k == (8 - n % 8) % 8
  {
  }

  /** The bytes a string is stored as, padded a zero at a time up to a word. */
  method LayOut(text: Text) returns (bytes: seq<byte>)
    ensures bytes == Laid(text)
  {
    hide Characters, AsWord, WordBytes;
    bytes := WordBytes(AsWord(Characters(text))) + WordBytes(AsWord(|text|)) + text;
    ghost var unpadded := bytes;
    ghost var short := (8 - |text| % 8) % 8;
    var k := 0;
    WordEnds(|text|, k);
    while |bytes| % L.WORD != 0
      invariant k <= short && bytes == unpadded + seq(k, _ => 0)
      invariant |bytes| % L.WORD == 0 <==> k == short
      decreases short - k
    {
      bytes := bytes + [0];
      k := k + 1;
      WordEnds(|text|, k);
    }
  }

  /** The literals of a whole program, placed once each. */
  class LiteralTable {
    var next: nat
    var placed: seq<(Text, nat)>
    var data: seq<(nat, seq<byte>)>

    constructor ()
      ensures Abs() == NO_STRINGS
    {
      next, placed, data := L.HEAP_START, [], [];
    }

    function Abs(): Strings
      reads this
    {
      Strings(next, placed, data)
    }

    /** Where this text lives: where it was placed before, or past everything placed so far. */
    method PlaceText(text: Text) returns (at: nat)
      modifies this
      ensures (Abs(), at) == Place(old(Abs()), text)
    {
      var i := 0;
      while i < |placed|
        invariant i <= |placed| && Where(placed[i..], text) == Where(placed, text)
      {
        if placed[i].0 == text {
          return placed[i].1;
        }
        i := i + 1;
      }
      var bytes := LayOut(text);
      at := next;
      next := next + |bytes|;
      data := data + [(at, bytes)];
      placed := placed + [(text, at)];
    }
  }

  /** The representations of the locals beyond the parameters, from this one on. */
  function Beyond(f: Ir.Function, i: nat): seq<ValType>
    requires i <= |f.locals| && |f.params| <= |f.locals|
  {
    Represented(f.locals[if i < |f.params| then |f.params| else i..])
  }

  lemma NextLocal(f: Ir.Function, i: nat, next: nat)
    requires i < |f.locals| && |f.params| <= |f.locals|
    ensures var ty := ValTypeOf(f.locals[i]);
      && Beyond(f, i) == (if i >= |f.params| then Results(ty) else []) + Beyond(f, i + 1)
      && SlotsFrom(f.locals[i..], next)
           == [if ty.None? then None else Some(next)] + SlotsFrom(f.locals[i + 1..], if ty.None? then next else next + 1)
  {
    assert f.locals[i..][0] == f.locals[i] && f.locals[i..][1..] == f.locals[i + 1..];
  }

  /** Which local each slot becomes, and the locals beyond the parameters those need. */
  method NumberSlots(f: Ir.Function) returns (slots: seq<Option<nat>>, extra: seq<ValType>)
    requires |f.params| <= |f.locals|
    ensures slots == SlotsFrom(f.locals, 0) && extra == Represented(f.locals[|f.params|..])
  {
    hide SlotsFrom, Beyond, Represented;
    var next := 0;
    slots, extra := [], [];
    var i := 0;
    NumberingStarts(f);
    while i < |f.locals|
      invariant i <= |f.locals|
      invariant SlotsFrom(f.locals, 0) == slots + SlotsFrom(f.locals[i..], next)
      invariant Beyond(f, 0) == extra + Beyond(f, i)
    {
      NextLocal(f, i, next);
      var ty := ValTypeOf(f.locals[i]);
      if ty.None? {
        slots := slots + [None];
      } else {
        slots := slots + [Some(next)];
        next := next + 1;
        if i >= |f.params| {
          extra := extra + [ty.value];
        }
      }
      i := i + 1;
    }
    NumberingEnds(f, next);
  }

  lemma NumberingStarts(f: Ir.Function)
    requires |f.params| <= |f.locals|
    ensures [] + SlotsFrom(f.locals[0..], 0) == SlotsFrom(f.locals, 0)
    ensures [] + Beyond(f, 0) == Beyond(f, 0) == Represented(f.locals[|f.params|..])
  {
    assert f.locals[0..] == f.locals;
  }

  lemma NumberingEnds(f: Ir.Function, next: nat)
    requires |f.params| <= |f.locals|
    ensures SlotsFrom(f.locals[|f.locals|..], next) == [] && Beyond(f, |f.locals|) == []
  {
  }

  class Builder {
    const cx: Cx
    const slots: seq<Option<nat>>
    const params: nat
    const strings: LiteralTable
    var instructions: seq<Ins>
    var extra: seq<ValType>
    var sites: nat

    /** The slots as the rules number them. */
    predicate Valid()
    {
      slots == SlotsFrom(cx.f.locals, 0) && params == Params(cx.f)
    }

    constructor (cx: Cx, strings: LiteralTable)
      requires |cx.f.params| <= |cx.f.locals|
      ensures Valid() && this.cx == cx && this.strings == strings
      ensures instructions == [] && Now() == Begin(cx.f, strings.Abs())
    {
      this.cx := cx;
      this.strings := strings;
      this.params := Params(cx.f);
      instructions, sites := [], 0;
      var slots, extra := NumberSlots(cx.f);
      this.slots := slots;
      this.extra := extra;
    }

    /** What has been handed out so far. */
    function Now(): Draft
      reads this, strings
    {
      Draft(extra, strings.Abs(), sites)
    }

    /** Everything emitted is what was there before and this. */
    twostate predicate Emits(r: Emitted)
      reads this, strings
    {
      instructions == old(instructions) + r.code && Now() == r.draft
    }

    method Temporary(ty: ValType) returns (at: nat)
      requires Valid()
      modifies this`extra
      ensures at == Fresh(cx, old(Now())) && Now() == Took(old(Now()), ty)
    {
      extra := extra + [ty];
      at := params + |extra| - 1;
    }

    method Emit(code: seq<Ins>)
      modifies this`instructions
      ensures instructions == old(instructions) + code
    {
      instructions := instructions + code;
    }

    method FailureInstructions(code: Text, message: Text) returns (words: seq<Ins>)
      modifies strings
      ensures Emitted(words, Now()) == Failure(old(Now()), code, message)
    {
      var atCode := strings.PlaceText(code);
      var atMessage := strings.PlaceText(message);
      words := FailWords(atCode, atMessage);
    }

    method TrapWhenTrue()
      modifies this`instructions, strings
      ensures var failure := ArithmeticFailure(old(Now()));
        instructions == old(instructions) + [TrapOnTrue(failure.code)] && Now() == failure.draft
    {
      var words := FailureInstructions(Ir.ARITHMETIC_CODE, Ir.ARITHMETIC_MESSAGE);
      Emit([TrapOnTrue(words + [Ins.Unreachable])]);
    }

    method Mark(ins: Ins)
      modifies this`instructions, this`sites
      ensures instructions == old(instructions) + [Marked(old(sites), ins)] && sites == old(sites) + 1
    {
      sites := sites + 1;
      Emit([Marked(sites - 1, ins)]);
    }

    /** The operator on two slots, and the test of whether its answer fits. */
    method Operate(op: Ir.BinaryOp, left: nat, right: nat)
      requires Valid() && Ir.Arithmetic(op)
      modifies this, strings
      ensures Emits(CheckedOp(cx, old(Now()), op, left, right))
    {
      if op.AddInt? || op.SubInt? {
        Sum(op, left, right);
      } else if op.MulInt? {
        Product(left, right);
      } else {
        Quotient(op, left, right);
      }
    }

    method Sum(op: Ir.BinaryOp, left: nat, right: nat)
      requires Valid() && (op.AddInt? || op.SubInt?)
      modifies this, strings
      ensures Emits(CheckedOp(cx, old(Now()), op, left, right))
    {
      hide Test, WentPast, ArithmeticFailure;
      var x := Temporary(I64);
      Emit(Test(left, if op.AddInt? then I64Add else I64Sub, right) + [LocalSet(x)]);
      Emit(if op.AddInt? then WentPast(right, x, left, I64LtS, I64GtS) else WentPast(right, x, left, I64GtS, I64LtS));
      TrapWhenTrue();
      Emit([LocalGet(x)]);
    }

    method Product(left: nat, right: nat)
      requires Valid()
      modifies this, strings
      ensures Emits(CheckedOp(cx, old(Now()), Ir.MulInt, left, right))
    {
      hide Test, LeastByMinusOne, NeitherZero, DividesBack, Failure;
      var x := Temporary(I64);
      Emit(Test(left, I64Mul, right) + [LocalSet(x)] + LeastByMinusOne(left, right));
      TrapWhenTrue();
      var words := FailureInstructions(Ir.ARITHMETIC_CODE, Ir.ARITHMETIC_MESSAGE);
      Emit(NeitherZero(left, right) + [Ins.If(None, DividesBack(x, left, right, words + [Ins.Unreachable]), []), LocalGet(x)]);
    }

    method Quotient(op: Ir.BinaryOp, left: nat, right: nat)
      requires Valid() && (op.DivInt? || op.RemInt?)
      modifies this, strings
      ensures Emits(CheckedOp(cx, old(Now()), op, left, right))
    {
      hide Test, NoQuotient, ArithmeticFailure;
      Emit(NoQuotient(left, right));
      TrapWhenTrue();
      Emit(Test(left, if op.DivInt? then I64DivS else I64RemS, right));
    }

    /** An operand into a slot. */
    method Into(e: Ir.Expr, x: nat)
      requires Valid()
      modifies this, strings
      ensures var r := CompileExpr(cx, old(Now()), e);
        instructions == old(instructions) + (r.code + [LocalSet(x)]) && Now() == r.draft
      decreases e, 3
    {
      hide CompileExpr;
      CompileOne(e);
      Emit([LocalSet(x)]);
    }

    method Arithmetic(op: Ir.BinaryOp, left: Ir.Expr, right: Ir.Expr)
      requires Valid() && Ir.Arithmetic(op)
      modifies this, strings
      ensures var d := old(Now());
        var one := CompileExpr(cx, Took(Took(d, I64), I64), left);
        Emits(CheckedBinary(cx, op, Fresh(cx, d), one, CompileExpr(cx, one.draft, right)))
      decreases Ir.Binary(op, left, right), 1
    {
      hide CheckedOp, CompileExpr, Valid, Params, Represented;
      var x := Temporary(I64);
      var y := Temporary(I64);
      Operands(op, left, x, right, y);
      Operate(op, x, y);
    }

    /** Both operands, each kept in a temporary of its own. */
    method Operands(ghost op: Ir.BinaryOp, left: Ir.Expr, x: nat, right: Ir.Expr, y: nat)
      requires Valid()
      modifies this, strings
      ensures var one := CompileExpr(cx, old(Now()), left);
        var two := CompileExpr(cx, one.draft, right);
        && instructions == old(instructions) + (one.code + [LocalSet(x)] + (two.code + [LocalSet(y)]))
        && Now() == two.draft
      decreases Ir.Binary(op, left, right), 0
    {
      hide CompileExpr, Params, Represented;
      Into(left, x);
      Into(right, y);
    }

    method Negate(operand: Ir.Expr)
      requires Valid()
      modifies this, strings
      ensures var d := old(Now()); Emits(CheckedNegate(CompileExpr(cx, Took(d, I64), operand), Fresh(cx, d)))
      decreases Ir.Expr.Unary(Ir.Negate, operand), 1
    {
      hide ArithmeticFailure, TestConst, CompileExpr, Valid;
      var x := Temporary(I64);
      Into(operand, x);
      Oppose(x);
    }

    /** Zero less what is in a slot, unless that is the least integer. */
    method Oppose(x: nat)
      modifies this, strings
      ensures var failure := ArithmeticFailure(old(Now()));
        && instructions == old(instructions) + (TestConst(x, I64Eq, MIN_64) + [TrapOnTrue(failure.code)]
                                                  + [I64Const(0), LocalGet(x), Num(I64Sub)])
        && Now() == failure.draft
    {
      hide ArithmeticFailure, TestConst;
      Emit(TestConst(x, I64Eq, MIN_64));
      TrapWhenTrue();
      Emit([I64Const(0), LocalGet(x), Num(I64Sub)]);
    }

    /** One expression: what is emitted, and what is handed out, is what the rules say. */
    method CompileOne(e: Ir.Expr)
      requires Valid()
      modifies this, strings
      ensures Emits(CompileExpr(cx, old(Now()), e))
      decreases e, 2
    {
      hide CheckedBinary, CheckedNegate, SlotsFrom, BinaryIns, Ir.TyOf, ValTypeOf;
      if e.UnitLit? {
      } else if e.BoolLit? {
        Emit([I32Const(if e.b then 1 else 0)]);
      } else if e.IntLit? {
        Emit([I64Const(e.n)]);
      } else if e.Local? {
        if e.local < |slots| && slots[e.local].Some? {
          Emit([LocalGet(slots[e.local].value)]);
        }
      } else if e.Unary? {
        if e.uop.Not? {
          CompileOne(e.operand);
          Emit([Num(I32Eqz)]);
        } else {
          Negate(e.operand);
        }
      } else if e.Binary? {
        if Ir.Arithmetic(e.op) {
          Arithmetic(e.op, e.left, e.right);
        } else {
          CompileOne(e.left);
          CompileOne(e.right);
          Mark(BinaryIns(e.op, Ir.TyOf(cx.p, cx.f, e.left)));
        }
      } else if e.Call? {
        CompileEach(e.args);
        Mark(Ins.Call(e.func + cx.shift));
      } else if e.If? {
        CompileOne(e.condition);
        var taken := Nested(e.taken);
        var otherwise := Nested(e.otherwise);
        Emit([Ins.If(ValTypeOf(e.ty), taken, otherwise)]);
      } else {
        CompileBlockHere(e.block);
      }
    }

    method CompileEach(args: seq<Ir.Expr>)
      requires Valid()
      modifies this, strings
      ensures Emits(CompileArgs(cx, old(Now()), args))
      decreases args, 0
    {
      var i := 0;
      while i < |args|
        invariant i <= |args| && Valid()
        invariant var rest := CompileArgs(cx, Now(), args[i..]);
          && old(instructions) + CompileArgs(cx, old(Now()), args).code == instructions + rest.code
          && CompileArgs(cx, old(Now()), args).draft == rest.draft
      {
        assert args[i..][0] == args[i] && args[i..][1..] == args[i + 1..];
        CompileOne(args[i]);
        i := i + 1;
      }
    }

    method CompileBlockHere(block: Ir.Block)
      requires Valid()
      modifies this, strings
      ensures Emits(Compile.CompileBlock(cx, old(Now()), block))
      decreases block, 0
    {
      CompileAll(block.stmts);
      CompileOne(block.value);
    }

    /** Compiles a block aside and hands back only what it emitted, leaving the instructions so far alone. */
    method Nested(block: Ir.Block) returns (code: seq<Ins>)
      requires Valid()
      modifies this, strings
      ensures Emitted(code, Now()) == Compile.CompileBlock(cx, old(Now()), block) && instructions == old(instructions)
      decreases block, 1
    {
      var saved := instructions;
      instructions := [];
      CompileBlockHere(block);
      code := instructions;
      instructions := saved;
    }

    method CompileAll(stmts: seq<Ir.Stmt>)
      requires Valid()
      modifies this, strings
      ensures Emits(CompileStmts(cx, old(Now()), stmts))
      decreases stmts, 0
    {
      var i := 0;
      while i < |stmts|
        invariant i <= |stmts| && Valid()
        invariant var rest := CompileStmts(cx, Now(), stmts[i..]);
          && old(instructions) + CompileStmts(cx, old(Now()), stmts).code == instructions + rest.code
          && CompileStmts(cx, old(Now()), stmts).draft == rest.draft
      {
        assert stmts[i..][0] == stmts[i] && stmts[i..][1..] == stmts[i + 1..];
        Statement(stmts[i]);
        i := i + 1;
      }
    }

    method Statement(stmt: Ir.Stmt)
      requires Valid()
      modifies this, strings
      ensures Emits(CompileStmt(cx, old(Now()), stmt))
      decreases stmt, 2
    {
      if stmt.Assign? {
        CompileOne(stmt.value);
        if stmt.slot < |slots| && slots[stmt.slot].Some? {
          Emit([LocalSet(slots[stmt.slot].value)]);
        }
      } else if stmt.Discard? {
        CompileOne(stmt.value);
        if ValTypeOf(Ir.TyOf(cx.p, cx.f, stmt.value)).Some? {
          Emit([Drop]);
        }
      } else if stmt.Return? {
        CompileOne(stmt.value);
        Emit([Ins.Return]);
      } else if stmt.Fail? {
        var words := FailureInstructions(stmt.code, stmt.message);
        Emit(words);
        Mark(Ins.Unreachable);
      } else {
        WalkTurn(stmt);
      }
    }

    method WalkTurn(stmt: Ir.Stmt)
      requires Valid() && stmt.While?
      modifies this, strings
      ensures Emits(CompileStmt(cx, old(Now()), stmt))
      decreases stmt, 1
    {
      hide SlotsFrom, CompileExpr, CompileStmts, Turn;
      var saved := instructions;
      instructions := [];
      OneTurn(stmt.condition, stmt.body);
      var inner := instructions;
      instructions := saved;
      Emit([Ins.Block(None, [Ins.Loop(None, inner)])]);
    }

    method OneTurn(condition: Ir.Expr, body: seq<Ir.Stmt>)
      requires Valid() && instructions == []
      modifies this, strings
      ensures var test := CompileExpr(cx, old(Now()), condition);
        var turn := CompileStmts(cx, test.draft, body);
        instructions == Turn(test.code, turn.code) && Now() == turn.draft
      decreases Ir.While(condition, body), 0
    {
      hide SlotsFrom, CompileExpr, CompileStmts;
      CompileOne(condition);
      Emit([Num(I32Eqz), BrIf(1)]);
      CompileAll(body);
      Emit([Br(0)]);
    }
  }

  /** One function: its body, the return it always ends with, and the locals it came to need. */
  method CompileFunction(cx: Cx, strings: LiteralTable) returns (code: seq<Ins>, locals: seq<ValType>)
    requires |cx.f.params| <= |cx.f.locals|
    modifies strings
    ensures var body := CompileBody(cx, old(strings.Abs()));
      code == body.code && locals == body.draft.extra && strings.Abs() == body.draft.strings
  {
    var builder := new Builder(cx, strings);
    builder.CompileBlockHere(cx.f.body);
    builder.Emit([Ins.Return]);
    code, locals := builder.instructions, builder.extra;
  }
}
