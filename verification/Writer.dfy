/** Writing bytes as the backend does: a growing output, loops, and the walk that finds the sites. */
module Writer {
  import opened Ints
  import opened Wasm
  import opened Leb128
  import opened Encode

  class Output {
    var bytes: seq<byte>

    constructor ()
      ensures bytes == []
    {
      bytes := [];
    }

    method Push(b: byte)
      modifies this
      ensures bytes == old(bytes) + [b]
    {
      bytes := bytes + [b];
    }

    /** Seven bits at a time, lowest first, with the top bit saying there are more. */
    method WriteUnsigned(n: nat)
      modifies this
      ensures bytes == old(bytes) + Unsigned(n)
    {
      var value := n;
      while true
        invariant old(bytes) + Unsigned(n) == bytes + Unsigned(value)
        decreases value
      {
        var low := value % 128;
        var rest := value / 128;
        Push(if rest != 0 then low + 128 else low);
        if rest == 0 {
          return;
        }
        value := rest;
      }
    }

    /** The same, until what is left is only copies of the sign. */
    method WriteSigned(v: int)
      modifies this
      ensures bytes == old(bytes) + Signed(v)
    {
      var value := v;
      while true
        invariant old(bytes) + Signed(v) == bytes + Signed(value)
        decreases if value >= 0 then value else -value - 1
      {
        var low := value % 128;
        var rest := value / 128;
        var done := (rest == 0 && low < 64) || (rest == -1 && low >= 64);
        Push(if done then low else low + 128);
        if done {
          return;
        }
        value := rest;
      }
    }

    method WriteFlat(ins: Ins)
      requires Flat(ins)
      modifies this
      ensures bytes == old(bytes) + FlatBytes(ins)
    {
      hide Unsigned, Signed, NumByte, IndexedByte, AccessByte, Alignment;
      if Indexed(ins) {
        Push(IndexedByte(ins));
        WriteUnsigned(IndexOf(ins));
      } else if Access(ins) {
        Push(AccessByte(ins));
        Push(Alignment(AccessByte(ins)));
        WriteUnsigned(ins.offset);
      } else if ins.CallIndirect? {
        WriteIndirect(ins.typeIndex);
      } else if ins.I32Const? || ins.I64Const? {
        WriteConst(ins);
      } else if ins.MemorySize? || ins.MemoryGrow? {
        WriteMemory(ins);
      } else if ins.Num? {
        Push(NumByte(ins.op));
      } else {
        Push(if ins.Unreachable? then 0x00 else if ins.Nop? then 0x01 else if ins.Return? then 0x0f else 0x1a);
      }
    }

    method WriteIndirect(at: nat)
      modifies this
      ensures bytes == old(bytes) + FlatBytes(CallIndirect(at))
    {
      hide Unsigned;
      Push(0x11);
      WriteUnsigned(at);
      Push(0);
    }

    method WriteConst(ins: Ins)
      requires ins.I32Const? || ins.I64Const?
      modifies this
      ensures bytes == old(bytes) + FlatBytes(ins)
    {
      hide Signed;
      Push(if ins.I32Const? then 0x41 else 0x42);
      WriteSigned(if ins.I32Const? then ins.n else ins.m);
    }

    method WriteMemory(ins: Ins)
      requires ins.MemorySize? || ins.MemoryGrow?
      modifies this
      ensures bytes == old(bytes) + FlatBytes(ins)
    {
      Push(if ins.MemorySize? then 0x3f else 0x40);
      Push(0x00);
    }

    method Write(ins: Ins)
      modifies this
      ensures bytes == old(bytes) + Bytes(ins)
      decreases ins, 1
    {
      if ins.Marked? {
        Write(ins.inner);
      } else if ins.Block? || ins.Loop? {
        Push(if ins.Block? then 0x02 else 0x03);
        Push(BlockType(ins.result));
        WriteAll(ins.body);
        Push(END);
      } else if ins.If? {
        WriteArms(ins);
      } else {
        WriteFlat(ins);
      }
    }

    method WriteArms(ins: Ins)
      requires ins.If?
      modifies this
      ensures bytes == old(bytes) + Bytes(ins)
      decreases ins, 0
    {
      hide AllBytes;
      Push(0x04);
      Push(BlockType(ins.result));
      WriteAll(ins.taken);
      if ins.otherwise != [] {
        Push(ELSE);
        WriteAll(ins.otherwise);
      }
      Push(END);
    }

    method WriteAll(body: seq<Ins>)
      modifies this
      ensures bytes == old(bytes) + AllBytes(body)
      decreases body, 0
    {
      var i := 0;
      while i < |body|
        invariant i <= |body| && old(bytes) + AllBytes(body) == bytes + AllBytes(body[i..])
      {
        assert body[i..][0] == body[i] && body[i..][1..] == body[i + 1..];
        Write(body[i]);
        i := i + 1;
      }
    }
  }

  /** How many bytes an instruction takes, by writing it out. */
  method InstructionSize(ins: Ins) returns (size: nat)
    ensures size == |Bytes(ins)|
  {
    var out := new Output();
    out.Write(ins);
    size := |out.bytes|;
  }

  // -- sites -----------------------------------------------------------------

  /** The table of sites once these have been recorded in it, one after another. */
  function Recorded(table: seq<Option<nat>>, sites: seq<(nat, nat)>): (r: seq<Option<nat>>)
    ensures |r| == |table|
    decreases |sites|
  {
    if sites == [] then table
    else Recorded(if sites[0].0 < |table| then table[sites[0].0 := Some(sites[0].1)] else table, sites[1..])
  }

  ghost predicate Within(sites: seq<(nat, nat)>, n: nat) { forall k | 0 <= k < |sites| :: sites[k].0 < n }

  lemma {:induction false} RecordedAppend(table: seq<Option<nat>>, one: seq<(nat, nat)>, two: seq<(nat, nat)>)
    ensures Recorded(table, one + two) == Recorded(Recorded(table, one), two)
    decreases |one|
  {
    if one == [] {
      assert one + two == two;
    } else {
      assert (one + two)[1..] == one[1..] + two;
      RecordedAppend(if one[0].0 < |table| then table[one[0].0 := Some(one[0].1)] else table, one[1..], two);
    }
  }

  lemma WithinParts(one: seq<(nat, nat)>, two: seq<(nat, nat)>, n: nat)
    requires Within(one + two, n)
    ensures Within(one, n) && Within(two, n)
  {
    forall k | 0 <= k < |one| ensures one[k].0 < n {
      assert (one + two)[k] == one[k];
    }
    forall k | 0 <= k < |two| ensures two[k].0 < n {
      assert (one + two)[|one| + k] == two[k];
    }
  }

  /** The walk over a body, keeping the offset and filling the table in place. */
  method WalkSites(table: array<Option<nat>>, body: seq<Ins>, at: nat) returns (end: nat)
    requires Within(AllWalked(body, at).0, table.Length)
    modifies table
    ensures end == AllWalked(body, at).1
    ensures table[..] == Recorded(old(table[..]), AllWalked(body, at).0)
    decreases body, 0
  {
    end := at;
    var i := 0;
    while i < |body|
      invariant i <= |body|
      invariant AllWalked(body, at).1 == AllWalked(body[i..], end).1
      invariant Within(AllWalked(body[i..], end).0, table.Length)
      invariant Recorded(old(table[..]), AllWalked(body, at).0) == Recorded(table[..], AllWalked(body[i..], end).0)
    {
      assert body[i..][0] == body[i] && body[i..][1..] == body[i + 1..];
      var (one, middle) := Walked(body[i], end);
      WithinParts(one, AllWalked(body[i + 1..], middle).0, table.Length);
      RecordedAppend(table[..], one, AllWalked(body[i + 1..], middle).0);
      end := WalkSite(table, body[i], end);
      i := i + 1;
    }
  }

  method WalkSite(table: array<Option<nat>>, ins: Ins, at: nat) returns (end: nat)
    requires Within(Walked(ins, at).0, table.Length)
    modifies table
    ensures end == Walked(ins, at).1
    ensures table[..] == Recorded(old(table[..]), Walked(ins, at).0)
    decreases ins, 1
  {
    if ins.Marked? {
      WithinParts([(ins.site, at)], Walked(ins.inner, at).0, table.Length);
      assert [(ins.site, at)][0].0 < table.Length;
      table[ins.site] := Some(at);
      RecordedAppend(old(table[..]), [(ins.site, at)], Walked(ins.inner, at).0);
      assert table[..] == old(table[..])[ins.site := Some(at)] == Recorded(old(table[..]), [(ins.site, at)]);
      end := WalkSite(table, ins.inner, at);
    } else if ins.Block? || ins.Loop? {
      end := WalkSites(table, ins.body, at + 2);
      end := end + 1;
    } else if ins.If? {
      end := WalkArms(table, ins, at);
    } else {
      var size := InstructionSize(ins);
      end := at + size;
    }
  }

  method WalkArms(table: array<Option<nat>>, ins: Ins, at: nat) returns (end: nat)
    requires ins.If? && Within(Walked(ins, at).0, table.Length)
    modifies table
    ensures end == Walked(ins, at).1
    ensures table[..] == Recorded(old(table[..]), Walked(ins, at).0)
    decreases ins, 0
  {
    hide Recorded, AllWalked, Within;
    var (one, middle) := AllWalked(ins.taken, at + 2);
    if ins.otherwise != [] {
      WithinParts(one, AllWalked(ins.otherwise, middle + 1).0, table.Length);
      RecordedAppend(table[..], one, AllWalked(ins.otherwise, middle + 1).0);
    }
    end := WalkSites(table, ins.taken, at + 2);
    if ins.otherwise != [] {
      end := WalkSites(table, ins.otherwise, end + 1);
    }
    end := end + 1;
  }
}
