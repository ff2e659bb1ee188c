/**
 * The memory a compiled program starts from: every literal a string, the heap in order above
 * them, and no handler installed.
 */
module Starting {
  import opened Ints
  import opened Wasm
  import opened Types
  import opened Compile
  import opened CompileRuns
  import opened CompileTheorem
  import opened Heap
  import opened Texts
  import Frames
  import Ir
  import Literals
  import Program
  import Run
  import L = Layout

  lemma StartReads(memory: seq<byte>, at: nat, text: Text)
    requires |memory| <= MAX_64 && Reads(memory, at, text)
    ensures TextAt(memory, at, text)
  {
    hide Characters, WordBytes;
    CharactersFew(text);
    WordRoundTrip(Characters(text));
    WordRoundTrip(|text|);
  }

  /** Every literal is laid out as a string: both counts right, and its bytes. */
  lemma LiteralIsText(p: Ir.Program, k: nat)
    requires LiteralsFit(p) && k < |Program.StringsAt(p, |p|).placed|
    ensures var (text, at) := Program.StringsAt(p, |p|).placed[k]; TextAt(Run.MemoryOf(Program.CompileProgram(p)), at, text)
  {
    hide Reads, Program.CompileProgram, Program.StringsAt, LiteralsFit, Run.MemoryOf;
    MemoryPrimed(p);
    var (text, at) := Program.StringsAt(p, |p|).placed[k];
    StartReads(Run.MemoryOf(Program.CompileProgram(p)), at, text);
  }

  /** Literals stay above the heap's start, and each takes whole words. */
  lemma {:induction false} DataIsHigh(memory: seq<byte>, placed: seq<(Text, nat)>, data: seq<(nat, seq<byte>)>, next: nat)
    requires Literals.Consecutive(placed, data, next) && next <= |memory|
    ensures L.HEAP_START <= next && next % 8 == 0
    ensures Run.PlaceAll(memory, data)[..L.HEAP_START] == memory[..L.HEAP_START]
    decreases |data|
  {
    hide Run.PlaceAll, Laid, Run.Splice;
    if data == [] {
      NothingPlaced(memory);
    } else {
      var n := |data| - 1;
      Literals.NextAfter(placed[..n], data[..n], data[n].0);
      DataIsHigh(memory, placed[..n], data[..n], data[n].0);
      Literals.LastPlaced(memory, data);
      LaidWords(placed[n].0);
      SpliceKeeps(Run.PlaceAll(memory, data[..n]), data[n].0, data[n].1, 0, L.HEAP_START);
      FromZero(Run.PlaceAll(memory, data));
      FromZero(Run.PlaceAll(memory, data[..n]));
    }
  }

  lemma NothingPlaced(memory: seq<byte>)
    ensures Run.PlaceAll(memory, []) == memory
  {
  }

  lemma FromZero(memory: seq<byte>)
    requires |memory| >= L.HEAP_START
    ensures memory[..L.HEAP_START] == memory[0..L.HEAP_START]
  {
  }

  lemma LaidWords(text: Text)
    ensures |Laid(text)| % 8 == 0
  {
  }

  /** The heap is in order above the literals, and there is nobody to perform to. */
  lemma StartIsSound(p: Ir.Program)
    requires LiteralsFit(p)
    ensures Orderly(Run.MemoryOf(Program.CompileProgram(p)))
    ensures BumpOf(Run.MemoryOf(Program.CompileProgram(p))) == Program.StringsAt(p, |p|).next
    ensures Frames.Installed(Run.MemoryOf(Program.CompileProgram(p)), [])
  {
    hide Program.CompileProgram, Program.StringsAt, Program.Bumps, WordAt, WordBytes, Run.PlaceAll, Run.Splice, Orderly,
         Frames.Installed, Literals.Consecutive;
    ProgramShape(p);
    LiteralsInOrder(p, |p|);
    var zeros: seq<byte>, strings := seq(16 * L.PAGE, _ => 0), Program.StringsAt(p, |p|);
    var one := Run.PlaceAll(zeros, strings.data);
    DataIsHigh(zeros, strings.placed, strings.data, strings.next);
    Literals.PlaceAllAppend(zeros, strings.data, Program.Bumps(strings.next));
    Literals.BumpsPlaced(one, strings.next);
    StartWords(one, strings.next);
  }

  lemma StartWords(one: seq<byte>, next: nat)
    requires |one| == 16 * L.PAGE && one[..L.HEAP_START] == seq(L.HEAP_START, _ => 0)
    requires L.HEAP_START <= next <= |one| && next % 8 == 0
    ensures
      var memory := Run.Splice(Run.Splice(one, L.BUMP, WordBytes(AsWord(next))), L.FRAME_BUMP, WordBytes(AsWord(L.FRAME_START)));
      Orderly(memory) && BumpOf(memory) == next && Frames.Installed(memory, [])
  {
    hide WordBytes;
    var two := Run.Splice(one, L.BUMP, WordBytes(AsWord(next)));
    var three := Run.Splice(two, L.FRAME_BUMP, WordBytes(AsWord(L.FRAME_START)));
    SpliceReads(one, L.BUMP, WordBytes(AsWord(next)));
    SpliceReads(two, L.FRAME_BUMP, WordBytes(AsWord(L.FRAME_START)));
    SpliceKeeps(two, L.FRAME_BUMP, WordBytes(AsWord(L.FRAME_START)), 0, 8);
    SpliceKeeps(two, L.FRAME_BUMP, WordBytes(AsWord(L.FRAME_START)), 8, 16);
    SpliceKeeps(one, L.BUMP, WordBytes(AsWord(next)), 8, 16);
    WordRoundTrip(next);
    WordRoundTrip(L.FRAME_START);
    assert one[8..16] == one[..L.HEAP_START][8..16] == seq(8, _ => 0);
    ZeroWord();
    assert three[8..16] == seq(8, _ => 0);
  }

  /** Of any program's literals, those whose room is inside the first sixteen pages can be read, and no other. */
  lemma LiteralReadsWhen(p: Ir.Program, k: nat)
    requires k < |Program.StringsAt(p, |p|).placed|
    ensures
      var (text, at) := Program.StringsAt(p, |p|).placed[k];
      Reads(Run.MemoryOf(Program.CompileProgram(p)), at, text) <==> at + |Laid(text)| <= 16 * L.PAGE
  {
    hide Program.CompileProgram, Program.StringsAt, Program.Bumps, WordBytes, Run.PlaceAll, Run.Splice, Reads, Laid, Literals.Consecutive;
    ProgramShape(p);
    LiteralsInOrder(p, |p|);
    var zeros: seq<byte>, strings := seq(16 * L.PAGE, _ => 0), Program.StringsAt(p, |p|);
    var one := Run.PlaceAll(zeros, strings.data);
    Literals.DataReadsWhen(zeros, strings.placed, strings.data, strings.next);
    Literals.PlaceAllAppend(zeros, strings.data, Program.Bumps(strings.next));
    Literals.BumpsPlaced(one, strings.next);
    var two := Run.Splice(one, L.BUMP, WordBytes(AsWord(strings.next)));
    var (text, at) := strings.placed[k];
    LowWritten(one, L.BUMP, WordBytes(AsWord(strings.next)), at, text);
    LowWritten(two, L.FRAME_BUMP, WordBytes(AsWord(L.FRAME_START)), at, text);
  }

  lemma LowWritten(memory: seq<byte>, low: nat, bytes: seq<byte>, at: nat, text: Text)
    requires low + |bytes| <= L.HEAP_START <= |memory|
    ensures Reads(Run.Splice(memory, low, bytes), at, text) <==> Reads(memory, at, text)
  {
    hide Reads;
    var after := Run.Splice(memory, low, bytes);
    assert after[L.HEAP_START..] == memory[L.HEAP_START..];
    if Reads(memory, at, text) {
      ReadsStay(memory, after, at, text);
    }
    if Reads(after, at, text) {
      ReadsStay(after, memory, at, text);
    }
  }
}
