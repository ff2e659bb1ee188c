/**
 * Numbers as text, both ways: what is printed, what is accepted, and that neither overflows
 * on the way.
 */
module Numbers {
  import opened Ints
  import opened Wasm
  import opened Types
  import opened Run
  import opened Compile
  import opened Heap
  import opened Texts
  import Exact
  import L = Layout

  const MINUS: byte := 45
  const PLUS: byte := 43
  const ZERO: byte := 48

  // -- decimals --------------------------------------------------------------

  predicate IsDigit(b: byte) { ZERO <= b <= ZERO + 9 }

  predicate AllDigits(text: Text) { forall i | 0 <= i < |text| :: IsDigit(text[i]) }

  function Magnitude(n: int): nat { if n < 0 then -n else n }

  /** The number a run of digits spells. */
  function DigitsValue(text: Text): nat
    requires AllDigits(text)
  {
    if text == [] then 0 else 10 * DigitsValue(text[..|text| - 1]) + (text[|text| - 1] - ZERO)
  }

  /** The digits of a number, with no zeros in front. */
  function Digits(n: nat): (r: Text)
    ensures r != [] && AllDigits(r)
    ensures n > 0 ==> r[0] != ZERO
  {
    if n < 10 then [ZERO + n] else Digits(n / 10) + [ZERO + n % 10]
  }

  lemma {:induction false} DigitsSpell(n: nat)
    ensures DigitsValue(Digits(n)) == n
    decreases n
  {
    var d := Digits(n);
    if n < 10 {
      assert d[..0] == [];
    } else {
      DigitsSpell(n / 10);
      assert d[..|d| - 1] == Digits(n / 10);
    }
  }

  /** How a number is written: a minus sign when it is negative, and its digits. */
  function Printed(n: int): (r: Text)
    ensures r != []
  {
    if n < 0 then [MINUS] + Digits(-n) else Digits(n)
  }

  // -- reading ---------------------------------------------------------------

  /** The text without a leading byte, when that is the byte it leads with. */
  function Without(text: Text, sign: byte): Text {
    if text != [] && text[0] == sign then text[1..] else text
  }

  function Signed(negative: bool, n: int): int { if negative then -n else n }

  /** What reading comes to: a minus and then a plus are each taken if they are there. */
  function Read(text: Text): Option<i64> {
    var negative := text != [] && text[0] == MINUS;
    var digits := Without(Without(text, MINUS), PLUS);
    if digits == [] || !AllDigits(digits) then None
    else
      var n := Signed(negative, DigitsValue(digits));
      if Exact.Fits(n) then Some(n) else None
  }

  /** At most one sign, and then at least one digit. */
  predicate Decimal(text: Text) {
    var digits := if text != [] && (text[0] == MINUS || text[0] == PLUS) then text[1..] else text;
    digits != [] && AllDigits(digits)
  }

  /** The number a decimal spells. */
  function DecimalValue(text: Text): int
    requires Decimal(text)
  {
    if text[0] == MINUS then Signed(true, DigitsValue(text[1..]))
    else if text[0] == PLUS then DigitsValue(text[1..])
    else DigitsValue(text)
  }

  predicate TwoSigns(text: Text) { |text| >= 2 && text[0] == MINUS && text[1] == PLUS }

  /** Every number reads back as it was printed, the least one included. */
  lemma PrintedReads(n: i64)
    ensures Read(Printed(n)) == Some(n)
  {
    DigitsSpell(Magnitude(n));
    var digits := Digits(Magnitude(n));
    assert IsDigit(digits[0]);
    if n < 0 {
      assert Printed(n)[1..] == digits;
    }
  }

  /**
   * Text that does not start with both signs is read exactly when it is a decimal whose
   * value is a 64-bit integer, and as that value.
   */
  lemma ReadsDecimals(text: Text)
    requires !TwoSigns(text)
    ensures Read(text).Some? <==> Decimal(text) && Exact.Fits(DecimalValue(text))
    ensures Read(text).Some? ==> Read(text).value == DecimalValue(text)
  {
    if text != [] && text[0] == MINUS {
      assert text[1..] != [] ==> text[1..][0] != PLUS;
    }
  }

  /** Both signs and then digits that spell no more than the least integer takes away. */
  predicate Slips(text: Text) {
    TwoSigns(text) && |text| > 2 && AllDigits(text[2..]) && DigitsValue(text[2..]) <= -MIN_64
  }

  /** Reading is exact for every text but those, which it takes for what follows the plus, negated: `-+5` is minus five. */
  lemma ReadsExactly(text: Text)
    ensures (Read(text).Some? <==> Decimal(text) && Exact.Fits(DecimalValue(text))) <==> !Slips(text)
    ensures Slips(text) ==> Read(text) == Some(Signed(true, DigitsValue(text[2..])))
    ensures !Slips(text) && Read(text).Some? ==> Read(text).value == DecimalValue(text)
  {
    if TwoSigns(text) {
      assert text[1..][1..] == text[2..];
      assert !IsDigit(text[1..][0]);
    } else {
      ReadsDecimals(text);
    }
  }

  lemma ReadsTwoSigns()
    ensures Slips([MINUS, PLUS, ZERO + 5]) && Read([MINUS, PLUS, ZERO + 5]) == Some(-5)
  {
    var five: Text, digits: Text := [MINUS, PLUS, ZERO + 5], [ZERO + 5];
    assert five[2..] == digits && digits[..0] == [] && DigitsValue(digits) == 5;
    ReadsExactly(five);
  }

  // -- printing into memory --------------------------------------------------

  /** Truncating division by ten of a number that is not positive, and the digit it drops. */
  lemma DropsDigit(t: i64)
    requires t <= 0
    ensures TruncDiv(t, 10) <= 0 && Magnitude(TruncDiv(t, 10)) == Magnitude(t) / 10
    ensures 0 - TruncRem(t, 10) == Magnitude(t) % 10
    ensures TruncDiv(t, 10) == 0 <==> Magnitude(t) < 10
  {
  }

  /** How many digits a number that is not positive takes, by dividing until nothing is left. */
  method CountDigits(m: i64) returns (digits: nat)
    requires m <= 0
    ensures digits == |Digits(Magnitude(m))|
  {
    var t := m;
    digits := 0;
    while true
      invariant t <= 0 && digits + |Digits(Magnitude(t))| == |Digits(Magnitude(m))|
      decreases Magnitude(t)
    {
      DropsDigit(t);
      digits := digits + 1;
      if TruncDiv(t, 10) == 0 {
        return;
      }
      t := TruncDiv(t, 10);
    }
  }

  /** At most twenty bytes: nineteen digits and a sign. */
  lemma {:induction false} FewDigits(n: nat, k: nat, bound: nat)
    requires k > 0 && n < bound && bound == Pow10(k)
    ensures |Digits(n)| <= k
    decreases k
  {
    if n >= 10 {
      assert k > 1 by { assert Pow10(1) == 10; }
      FewDigits(n / 10, k - 1, Pow10(k - 1));
    }
  }

  function Pow10(k: nat): nat { if k == 0 then 1 else 10 * Pow10(k - 1) }

  lemma PrintedShort(n: i64)
    ensures |Printed(n)| <= 20
  {
    assert Pow10(4) == 10000 by { assert Pow10(2) == 100; }
    assert Pow10(8) == 100000000 by { assert Pow10(6) == 1000000; }
    assert Pow10(12) == 1000000000000 by { assert Pow10(10) == 10000000000; }
    assert Pow10(16) == 10000000000000000 by { assert Pow10(14) == 100000000000000; }
    assert Pow10(19) == 10000000000000000000 by { assert Pow10(18) == 1000000000000000000; }
    FewDigits(Magnitude(n), 19, Pow10(19));
  }

  /** What is printed is one byte a character. */
  lemma {:induction false} PlainCharacters(text: Text)
    requires forall i | 0 <= i < |text| :: text[i] < 128
    ensures Characters(text) == |text|
    decreases |text|
  {
    if text != [] {
      PlainCharacters(text[1..]);
    }
  }

  lemma PrintedCharacters(n: i64)
    ensures Characters(Printed(n)) == |Printed(n)|
  {
    PlainCharacters(Printed(n));
  }

  /** Digits from the end back, taken off a number that is not positive. */
  method PutDigits(machine: Machine, m: i64, last: nat)
    requires m <= 0 && |Digits(Magnitude(m))| <= last + 1 && last < |machine.memory|
    modifies machine
    ensures |machine.memory| == |old(machine.memory)|
    ensures var from := last + 1 - |Digits(Magnitude(m))|;
      && machine.memory[from..last + 1] == Digits(Magnitude(m))
      && forall i | 0 <= i < |machine.memory| && !(from <= i <= last) :: machine.memory[i] == old(machine.memory)[i]
  {
    ghost var from := last + 1 - |Digits(Magnitude(m))|;
    ghost var before := machine.memory;
    var i: int, t := last, m;
    while true
      invariant t <= 0 && from - 1 <= i <= last && |machine.memory| == |before|
      invariant i + 1 - |Digits(Magnitude(t))| == from
      invariant Digits(Magnitude(m)) == Digits(Magnitude(t)) + machine.memory[i + 1..last + 1]
      invariant forall k | 0 <= k < |before| && !(i < k <= last) :: machine.memory[k] == before[k]
      decreases Magnitude(t)
    {
      DropsDigit(t);
      ghost var held := machine.memory;
      machine.PutByte(i, ZERO + (0 - TruncRem(t, 10)));
      OneMore(held, i, last + 1, ZERO + Magnitude(t) % 10);
      t := TruncDiv(t, 10);
      i := i - 1;
      if t == 0 {
        return;
      }
    }
  }

  lemma OneMore(memory: seq<byte>, i: nat, end: nat, b: byte)
    requires i < end <= |memory|
    ensures memory[i := b][i..end] == [b] + memory[i + 1..end]
  {
  }

  /**
   * A new string holding the number: its digits are taken off the negative side, where the
   * least number has room.
   */
  method NumberText(machine: Machine, n: i64) returns (r: Option<nat>)
    requires Orderly(machine.memory)
    modifies machine
    ensures r.Some? <==> BumpOf(old(machine.memory)) + StringRoom(|Printed(n)|) <= CEILING
    ensures r.Some? ==>
              && r.value == BumpOf(old(machine.memory)) && TextAt(machine.memory, r.value, Printed(n))
              && Orderly(machine.memory) && Extends(old(machine.memory), machine.memory)
              && BumpOf(machine.memory) == r.value + StringRoom(|Printed(n)|)
  {
    var negative := n < 0;
    var m: i64 := if negative then n else 0 - n;
    var digits := CountDigits(m);
    var total := digits + if negative then 1 else 0;
    PrintedShort(n);
    PrintedCharacters(n);
    assert total == |Printed(n)|;
    r := machine.Allocate(StringRoom(total));
    if r.None? {
      return;
    }
    var out := r.value;
    ghost var reserved := machine.memory;
    PutNumber(machine, out, total, n, m);
    Finished(reserved, machine.memory, out, total, n);
  }

  method PutNumber(machine: Machine, out: nat, total: nat, n: i64, m: i64)
    requires total == |Printed(n)| <= 20 && out + TEXT + total <= |machine.memory|
    requires m <= 0 && Magnitude(m) == Magnitude(n)
    modifies machine
    ensures |machine.memory| == |old(machine.memory)|
    ensures WordAt(machine.memory, out) == total && WordAt(machine.memory, out + 8) == total
    ensures machine.memory[out + TEXT..out + TEXT + total] == Printed(n)
    ensures forall i | 0 <= i < |machine.memory| && !(out <= i < out + TEXT + total) ::
              machine.memory[i] == old(machine.memory)[i]
  {
    hide BytesWord, Printed, Digits;
    SignAndDigits(n);
    machine.PutCounts(out, total, total);
    ghost var counted := machine.memory;
    if n < 0 {
      machine.PutByte(out + TEXT, MINUS);
    }
    PutDigits(machine, m, out + TEXT + total - 1);
    if n < 0 {
      SignFirst(machine.memory, out + TEXT, out + TEXT + total);
    }
    assert machine.memory[out..out + 8] == counted[out..out + 8];
    assert machine.memory[out + 8..out + 16] == counted[out + 8..out + 16];
  }

  lemma SignAndDigits(n: i64)
    ensures Printed(n) == (if n < 0 then [MINUS] else []) + Digits(Magnitude(n)) && Digits(Magnitude(n)) != []
  {
  }

  lemma SignFirst(memory: seq<byte>, from: nat, to: nat)
    requires from < to <= |memory|
    ensures memory[from..to] == [memory[from]] + memory[from + 1..to]
  {
  }

  /** What the counts and the bytes written add up to. */
  lemma Finished(before: seq<byte>, after: seq<byte>, out: nat, total: nat, n: i64)
    requires Orderly(before) && |after| == |before| && out >= L.HEAP_START && out + StringRoom(total) <= |before|
    requires total == |Printed(n)| == Characters(Printed(n))
    requires forall i | 0 <= i < |before| && !(out <= i < out + TEXT + total) :: after[i] == before[i]
    requires WordAt(after, out) == total && WordAt(after, out + 8) == total
    requires after[out + TEXT..out + TEXT + total] == Printed(n)
    requires BumpOf(before) == out + StringRoom(total)
    ensures TextAt(after, out, Printed(n)) && Orderly(after) && BumpOf(after) == BumpOf(before)
  {
    assert after[0..8] == before[0..8];
  }

  // -- reading out of memory -------------------------------------------------

  lemma {:induction false} PrefixSmaller(digits: Text, k: nat)
    requires AllDigits(digits) && k <= |digits|
    ensures DigitsValue(digits[..k]) <= DigitsValue(digits)
    decreases |digits|
  {
    if k < |digits| {
      PrefixSmaller(digits[..|digits| - 1], k);
      assert digits[..|digits| - 1][..k] == digits[..k];
    } else {
      assert digits[..k] == digits;
    }
  }

  /** The accumulator after one more digit, if there is room for it. */
  function OneDigit(acc: i64, digit: nat): Option<i64>
    requires acc <= 0 && digit <= 9
  {
    if acc < TruncDiv(MIN_64, 10) then None
    else if acc * 10 < MIN_64 + digit then None
    else Some(acc * 10 - digit)
  }

  /** Asking first loses nothing: a step is refused exactly when the number would not fit. */
  lemma StepExact(acc: i64, digit: nat)
    requires acc <= 0 && digit <= 9
    ensures OneDigit(acc, digit).Some? <==> acc * 10 - digit >= MIN_64
    ensures OneDigit(acc, digit).Some? ==> OneDigit(acc, digit).value <= 0
    ensures acc >= TruncDiv(MIN_64, 10) ==> acc * 10 >= MIN_64
  {
  }

  lemma DigitsSoFar(digits: Text, i: nat)
    requires i < |digits| && AllDigits(digits[..i]) && IsDigit(digits[i])
    ensures AllDigits(digits[..i + 1])
    ensures DigitsValue(digits[..i + 1]) == 10 * DigitsValue(digits[..i]) + (digits[i] - ZERO)
  {
    assert digits[..i + 1][..i] == digits[..i];
  }

  /** The digits after any signs, accumulated negatively, as long as there is room. */
  method ReadDigits(memory: seq<byte>, at: nat, from: nat, n: nat, ghost digits: Text) returns (acc: Option<i64>)
    requires from <= n && at + TEXT + n <= |memory| && digits == memory[at + TEXT + from..at + TEXT + n]
    ensures acc.Some? <==> AllDigits(digits) && DigitsValue(digits) <= -MIN_64
    ensures acc.Some? ==> acc.value == Signed(true, DigitsValue(digits))
  {
    var i := from;
    var so: i64 := 0;
    assert digits[..0] == [];
    while i < n
      invariant from <= i <= n
      invariant AllDigits(digits[..i - from]) && so == Signed(true, DigitsValue(digits[..i - from]))
    {
      var b := memory[at + TEXT + i];
      assert b == digits[i - from];
      if b < ZERO || b > ZERO + 9 {
        return None;
      }
      DigitsSoFar(digits, i - from);
      StepExact(so, b - ZERO);
      if so < TruncDiv(MIN_64, 10) {
        if AllDigits(digits) {
          PrefixSmaller(digits, i - from + 1);
        }
        return None;
      }
      so := so * 10;
      if so < MIN_64 + (b - ZERO) {
        if AllDigits(digits) {
          PrefixSmaller(digits, i - from + 1);
        }
        return None;
      }
      so := so - (b - ZERO);
      i := i + 1;
    }
    assert digits[..n - from] == digits;
    return Some(so);
  }

  /**
   * The number a string spells. Both sign tests look at the next byte even when there is
   * none, so a string that is used up by then and ends exactly where memory does traps.
   */
  method TextNumber(memory: seq<byte>, at: nat, ghost text: Text) returns (r: Run.Step<Option<i64>>)
    requires TextAt(memory, at, text)
    ensures r == if at + TEXT + |text| == |memory| && (text == [] || text == [MINUS]) then Run.Stops(Run.OutOfBounds)
                 else Run.Ok(Read(text))
  {
    var n: nat := WordAt(memory, at + 8);
    var i, negative := 0, false;
    if at + TEXT >= |memory| {
      return Run.Stops(Run.OutOfBounds);
    }
    if i < n && memory[at + TEXT + i] == MINUS {
      negative := true;
      i := i + 1;
    }
    if at + TEXT + i >= |memory| {
      return Run.Stops(Run.OutOfBounds);
    }
    if i < n && memory[at + TEXT + i] == PLUS {
      i := i + 1;
    }
    SignsTaken(memory, at, n, text, negative, i);
    if i >= n {
      return Run.Ok(None);
    }
    var acc := ReadDigits(memory, at, i, n, Without(Without(text, MINUS), PLUS));
    if acc.None? || (!negative && acc.value == MIN_64) {
      return Run.Ok(None);
    }
    return Run.Ok(Some(if negative then acc.value else 0 - acc.value));
  }

  lemma SignsTaken(memory: seq<byte>, at: nat, n: nat, text: Text, negative: bool, i: nat)
    requires TextAt(memory, at, text) && n == |text| && i <= n
    requires negative == (text != [] && text[0] == MINUS)
    requires var past := if negative then 1 else 0;
      i == if past < |text| && text[past] == PLUS then past + 1 else past
    ensures Without(Without(text, MINUS), PLUS) == text[i..] == memory[at + TEXT + i..at + TEXT + n]
  {
    var one := Without(text, MINUS);
    assert one == text[if negative then 1 else 0..];
    assert Without(one, PLUS) == text[i..];
    assert memory[at + TEXT..at + TEXT + n][i..] == memory[at + TEXT + i..at + TEXT + n];
  }

  /** A string a program can hold is on a word, so only an empty one can be used up at the end of memory. */
  lemma StopsOnNothing(memory: seq<byte>, at: nat, text: Text)
    requires Held(memory, at, text) && at % 8 == 0
    ensures at + TEXT + |text| == |memory| && (text == [] || text == [MINUS]) <==> text == [] && at + TEXT == |memory|
  {
    WholeWords(|memory|);
  }

  lemma WholeWords(n: nat)
    requires n % L.PAGE == 0
    ensures n % 8 == 0
  {
    assert n == 8 * (n / L.PAGE * 8192);
  }

  /** One page, an empty string in its last sixteen bytes, and the bump pointer at its end. */
  function FullPage(): seq<byte> { Splice(seq(L.PAGE, _ => 0), L.BUMP, WordBytes(L.PAGE)) }

  /** There is such a string: a heap in order that holds an empty one where it ends. */
  lemma NothingAtTheEnd()
    ensures Held(FullPage(), L.PAGE - TEXT, []) && |FullPage()| == L.PAGE && (L.PAGE - TEXT) % 8 == 0
  {
    hide WordBytes;
    var zeros: seq<byte> := seq(L.PAGE, _ => 0);
    var page := FullPage();
    SplicePuts(zeros, L.BUMP, WordBytes(L.PAGE));
    WordRoundTrip(L.PAGE);
    PutKeeps(zeros, page, L.BUMP, WordBytes(L.PAGE), L.PAGE - 16, L.PAGE - 8);
    PutKeeps(zeros, page, L.BUMP, WordBytes(L.PAGE), L.PAGE - 8, L.PAGE);
    assert page[L.PAGE - 16..L.PAGE - 8] == seq(8, _ => 0) && page[L.PAGE - 8..L.PAGE] == seq(8, _ => 0);
    ZeroWord();
  }
}
