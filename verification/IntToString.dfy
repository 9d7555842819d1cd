/** Printing 64-bit integers into a ring of eight static buffers
    (compiler/self-host/kryos_runtime.c `kryos_i64_to_string`). */
module IntToString {
  import opened Numerals

  const I64_MIN: int := -0x8000_0000_0000_0000
  const I64_MAX: int := 0x7FFF_FFFF_FFFF_FFFF
  const U64_MAX: int := 0xFFFF_FFFF_FFFF_FFFF

  const SLOTS: nat := 8
  const WIDTH: nat := 32
  const NUL: char := 0 as char

  // ----- decimal text -----

  function TenTo(k: nat): nat {
    if k == 0 then 1 else 10 * TenTo(k - 1)
  }

  lemma {:induction false} DigitsAreFew(u: nat, k: nat)
    requires u < TenTo(k)
    ensures |Digits(u)| <= k
    decreases k
  {
    if u > 0 {
      DigitsAreFew(u / 10, k - 1);
    }
  }

  lemma DecimalFits(u: nat)
    requires u <= U64_MAX
    ensures 0 < |Decimal(u)| <= 20
  {
    TenToTwenty();
    DigitsAreFew(u, 20);
    DigitsParse(u);
  }

  lemma TenToTwenty()
    ensures TenTo(20) == 100_000_000_000_000_000_000
  {
    assert TenTo(5) == 100_000;
    assert TenTo(10) == 10_000_000_000;
    assert TenTo(15) == 1_000_000_000_000_000;
  }

  // ----- the ring -----

  /** The call number `i` writes into this slot. */
  function SlotOf(i: nat): nat {
    i % SLOTS
  }

  /** The C string at offset `start` of a buffer is `t`: its characters, then the first NUL. */
  predicate ReadsAs(row: seq<char>, start: nat, t: string) {
    && start + |t| < |row|
    && row[start..start + |t|] == t && NUL !in t
    && row[start + |t|] == NUL
  }

  class NumberRing {
    const bufs: array2<char>
    var slot: nat
    /** Every value printed so far and where in its buffer its text starts. */
    ghost var printed: seq<int>
    ghost var starts: seq<nat>

    ghost predicate Shaped()
    {
      bufs.Length0 == SLOTS && bufs.Length1 == WIDTH
    }

    ghost function Row(b: nat): (row: seq<char>)
      requires Shaped() && b < SLOTS
      reads bufs
      ensures |row| == WIDTH && forall k | 0 <= k < WIDTH :: row[k] == bufs[b, k]
    {
      seq(WIDTH, k requires 0 <= k < WIDTH reads bufs => bufs[b, k])
    }

    /** The last eight texts are still where they were written. */
    ghost predicate Valid()
      reads this, bufs
    {
      && Shaped()
      && |starts| == |printed| && slot == SlotOf(|printed|)
      && forall i | 0 <= i < |printed| && |printed| <= i + SLOTS ::
           ReadsAs(Row(SlotOf(i)), starts[i], Signed(printed[i]))
    }

    constructor ()
      ensures Valid() && fresh(bufs) && printed == []
    {
      bufs := new char[SLOTS, WIDTH]((i, j) => NUL);
      slot, printed, starts := 0, [], [];
    }

    /** The digits of a positive number, written backwards from the end of buffer `b`. */
    method WriteDigits(b: nat, n: nat) returns (p: nat)
      requires Shaped() && b < SLOTS && 0 < n <= U64_MAX
      modifies bufs
      ensures p == WIDTH - 1 - |Digits(n)|
      ensures forall k | p <= k < WIDTH - 1 :: bufs[b, k] == Digits(n)[k - p]
      ensures forall i, k | 0 <= i < SLOTS && 0 <= k < WIDTH && (i != b || k == WIDTH - 1) ::
                bufs[i, k] == old(bufs[i, k])
    {
      DecimalFits(n);
      ghost var all := Digits(n);
      ghost var start := WIDTH - 1 - |all|;
      var u := n;
      p := WIDTH - 1;
      while u != 0
        invariant start <= p <= WIDTH - 1
        invariant Digits(u) == all[..p - start]
        invariant forall k | p <= k < WIDTH - 1 :: bufs[b, k] == all[k - start]
        invariant forall i, k | 0 <= i < SLOTS && 0 <= k < WIDTH && (i != b || k == WIDTH - 1) ::
                    bufs[i, k] == old(bufs[i, k])
      {
        assert Digits(u)[|Digits(u)| - 1] == Digit(u % 10);
        assert Digits(u)[..|Digits(u)| - 1] == Digits(u / 10);
        p := p - 1;
        bufs[b, p] := Digit(u % 10);
        u := u / 10;
      }
    }

    /** Zero, or the digits; behind them the NUL. */
    method WriteUnsigned(b: nat, u: nat) returns (p: nat)
      requires Shaped() && b < SLOTS && u <= U64_MAX
      modifies bufs
      ensures p == WIDTH - 1 - |Decimal(u)| && 0 < p
      ensures ReadsAs(Row(b), p, Decimal(u))
      ensures forall i | 0 <= i < SLOTS && i != b :: Row(i) == old(Row(i))
    {
      DecimalFits(u);
      DecimalParses(u);
      bufs[b, WIDTH - 1] := NUL;
      if u == 0 {
        p := WIDTH - 2;
        bufs[b, p] := '0';
      } else {
        p := WriteDigits(b, u);
      }
      assert Row(b)[p..p + |Decimal(u)|] == Decimal(u);
      assert NUL !in Decimal(u);
    }

    /** One character more in front of a text. */
    method Prepend(b: nat, start: nat, c: char, ghost t: string) returns (p: nat)
      requires Shaped() && b < SLOTS && 0 < start && c != NUL && ReadsAs(Row(b), start, t)
      modifies bufs
      ensures p == start - 1 && ReadsAs(Row(b), p, [c] + t)
      ensures forall i | 0 <= i < SLOTS && i != b :: Row(i) == old(Row(i))
    {
      ghost var row := Row(b);
      p := start - 1;
      bufs[b, p] := c;
      assert Row(b) == row[p := c];
      assert Row(b)[p..p + 1 + |t|] == [c] + row[start..start + |t|];
    }

    /** The sign, if there is one, in front of the digits. */
    method WriteSigned(b: nat, n: int) returns (p: nat)
      requires Shaped() && b < SLOTS && I64_MIN <= n <= I64_MAX
      modifies bufs
      ensures ReadsAs(Row(b), p, Signed(n))
      ensures forall i | 0 <= i < SLOTS && i != b :: Row(i) == old(Row(i))
    {
      hide Decimal, ReadsAs;
      // the negation is taken one short of the minimum, and the one added after the cast
      assert n < 0 ==> 0 <= -(n + 1) <= I64_MAX;
      var u: nat := if n < 0 then -(n + 1) + 1 else n;
      p := WriteUnsigned(b, u);
      if n < 0 {
        p := Prepend(b, p, '-', Decimal(u));
      }
    }

    /** The result is the buffer and the offset the C pointer points to. */
    method I64ToString(n: int) returns (b: nat, p: nat)
      requires Valid() && I64_MIN <= n <= I64_MAX
      modifies this`slot, this`printed, this`starts, bufs
      ensures Valid()
      ensures printed == old(printed) + [n] && starts == old(starts) + [p]
      ensures b == SlotOf(|old(printed)|) && ReadsAs(Row(b), p, Signed(n))
    {
      hide Signed, ReadsAs;
      b := slot;
      slot := (slot + 1) % SLOTS;
      p := WriteSigned(b, n);
      forall i | 0 <= i < |printed| && |printed| + 1 <= i + SLOTS
        ensures ReadsAs(Row(SlotOf(i)), starts[i], Signed(printed[i]))
      {
        SlotsRecurEveryEight(i, |printed|);
        assert Row(SlotOf(i)) == old(Row(SlotOf(i)));
      }
      printed, starts := printed + [n], starts + [p];
    }
  }

  /** The ring reuses a buffer exactly at the eighth call after it. */
  lemma SlotsRecurEveryEight(i: nat, j: nat)
    requires i < j
    ensures j < i + SLOTS ==> SlotOf(i) != SlotOf(j)
    ensures j == i + SLOTS ==> SlotOf(i) == SlotOf(j)
  {
  }
}
