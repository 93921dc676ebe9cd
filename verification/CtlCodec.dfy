/** The byte array `ctl`: variable-length and fixed-width integers, unit heads. */
module CtlCodec {

  type byte = b: int | 0 <= b < 256

  const CTL_NR_BIT: nat := 7
  const CTL_RJMP_BIT: nat := 6
  const CTL_SIZE_MAX: nat := 255

  /** Usable entries of the pattern-id table: 63 slots, one of which holds the sentinel. */
  const MAX_PATTERNS: nat := 62

  // ----- Formats -----

  /** Seven bits per byte, low bits first; the top bit marks continuation. */
  function VarInt(val: nat): seq<byte> {
    if val < 128 then [val] else [val % 128 + 128] + VarInt(val / 128)
  }

  /** `n` bytes, little-endian. */
  function FixedInt(val: nat, n: nat): (bs: seq<byte>)
    ensures |bs| == n
  {
    if n == 0 then [] else [val % 256] + FixedInt(val / 256, n - 1)
  }

  /** The value of little-endian bytes. */
  function FixedVal(bs: seq<byte>): nat {
    if bs == [] then 0 else bs[0] + 256 * FixedVal(bs[1..])
  }

  /** `val` is representable in `n` bytes. */
  predicate Fits(val: nat, n: nat) {
    if n == 0 then val == 0 else Fits(val / 256, n - 1)
  }

  lemma {:induction false} FixedRoundTrip(val: nat, n: nat)
    ensures FixedVal(FixedInt(val, n)) == val <==> Fits(val, n)
  {
    if n != 0 {
      FixedRoundTrip(val / 256, n - 1);
      assert FixedInt(val, n)[1..] == FixedInt(val / 256, n - 1);
    }
  }

  /** Smallest of the widths 1, 2, 4 that survives the narrowing assignment, else 8. */
  function DeltaSize(val: nat): nat {
    if val % 0x100 == val then 1
    else if val % 0x1_0000 == val then 2
    else if val % 0x1_0000_0000 == val then 4
    else 8
  }

  lemma {:induction false} FitsWider(val: nat, n: nat)
    requires val < 0x1_0000_0000_0000_0000
    requires n == 1 || n == 2 || n == 4 || n == 8
    ensures Fits(val, n) <==> DeltaSize(val) <= n
  {
    assert Fits(val, 1) <==> val < 0x100 by {
      assert Fits(val / 256, 0) <==> val / 256 == 0;
    }
    FitsTwo(val);
    FitsTwo(val / 0x1_0000);
    FitsFour(val);
    FitsFour(val / 0x1_0000_0000);
    FitsEight(val);
  }

  lemma {:induction false} FitsTwo(val: nat)
    ensures Fits(val, 2) <==> val < 0x1_0000
  {
    assert Fits(val / 256, 1) <==> Fits(val / 256 / 256, 0);
  }

  lemma {:induction false} FitsFour(val: nat)
    ensures Fits(val, 4) <==> val < 0x1_0000_0000
  {
    FitsTwo(val / 256 / 256);
    assert Fits(val, 4) <==> Fits(val / 256, 3);
    assert Fits(val / 256, 3) <==> Fits(val / 256 / 256, 2);
  }

  lemma {:induction false} FitsEight(val: nat)
    ensures Fits(val, 8) <==> val < 0x1_0000_0000_0000_0000
  {
    FitsFour(val / 256 / 256 / 256 / 256);
    assert Fits(val, 8) <==> Fits(val / 256, 7);
    assert Fits(val / 256, 7) <==> Fits(val / 256 / 256, 6);
    assert Fits(val / 256 / 256, 6) <==> Fits(val / 256 / 256 / 256, 5);
    assert Fits(val / 256 / 256 / 256, 5) <==> Fits(val / 256 / 256 / 256 / 256, 4);
  }

  // ----- Bits of the flag byte -----

  function Pow2(n: nat): (p: nat)
    ensures p > 0
  { if n == 0 then 1 else 2 * Pow2(n - 1) }

  predicate TestBit(b: byte, bit: nat)
    requires bit < 8
  { b / Pow2(bit) % 2 == 1 }

  function SetBit(b: byte, bit: nat): byte
    requires bit < 8
  {
    PowValues();
    if TestBit(b, bit) then b else
    assert b + Pow2(bit) < 256 by { NoCarry(b, bit); }
    b + Pow2(bit)
  }

  lemma {:induction false} PowValues()
    ensures Pow2(0) == 1 && Pow2(1) == 2 && Pow2(2) == 4 && Pow2(3) == 8
    ensures Pow2(4) == 16 && Pow2(5) == 32 && Pow2(6) == 64 && Pow2(7) == 128
  {
    assert Pow2(3) == 8;
    assert Pow2(5) == 32;
  }

  lemma {:induction false} NoCarry(b: byte, bit: nat)
    requires bit < 8 && !TestBit(b, bit)
    ensures b + Pow2(bit) < 256
  {
    PowValues();
    if bit == 0 {} else if bit == 1 {} else if bit == 2 {} else if bit == 3 {}
    else if bit == 4 {} else if bit == 5 {} else if bit == 6 {} else { assert bit == 7; }
  }

  function PatternBits(flags: byte): nat { flags % 64 }

  /** The flag byte of a unit head. */
  function FlagByte(id: byte, nr: bool, jmp: bool): byte {
    var f := if nr then SetBit(id, CTL_NR_BIT) else id;
    if jmp then SetBit(f, CTL_RJMP_BIT) else f
  }

  /** The three fields of a flag byte are read back independently. */
  lemma {:induction false} FlagRoundTrip(id: byte, nr: bool, jmp: bool)
    requires id < 64
    ensures TestBit(FlagByte(id, nr, jmp), CTL_NR_BIT) <==> nr
    ensures TestBit(FlagByte(id, nr, jmp), CTL_RJMP_BIT) <==> jmp
    ensures PatternBits(FlagByte(id, nr, jmp)) == id
  {
    PowValues();
  }

  // ----- Reading -----

  /** `w` is what stands in `ctl` at `pos`. */
  predicate At(ctl: seq<byte>, pos: nat, w: seq<byte>) {
    pos + |w| <= |ctl| && ctl[pos..pos + |w|] == w
  }

  lemma {:induction false} AtSplit(ctl: seq<byte>, pos: nat, a: seq<byte>, b: seq<byte>)
    ensures At(ctl, pos, a + b) <==> At(ctl, pos, a) && At(ctl, pos + |a|, b)
  {
    if At(ctl, pos, a + b) {
      assert a == ctl[pos..pos + |a + b|][..|a|];
      assert b == ctl[pos..pos + |a + b|][|a|..];
    }
    if At(ctl, pos, a) && At(ctl, pos + |a|, b) {
      assert ctl[pos..pos + |a + b|] == ctl[pos..pos + |a|] + ctl[pos + |a|..pos + |a| + |b|];
    }
  }

  /** Fixed-width little-endian read. */
  function FixedGet(ctl: seq<byte>, pos: nat, n: nat): nat
    requires pos + n <= |ctl|
  {
    FixedVal(ctl[pos..pos + n])
  }

  lemma {:induction false} FixedGetBack(ctl: seq<byte>, pos: nat, val: nat, n: nat)
    requires At(ctl, pos, FixedInt(val, n)) && Fits(val, n)
    ensures FixedGet(ctl, pos, n) == val
  {
    FixedRoundTrip(val, n);
  }

  lemma {:induction false} ShiftOut(weight: nat, todo: nat)
    ensures weight * todo == todo % 128 * weight + weight * 128 * (todo / 128)
  {
    assert todo == todo % 128 + 128 * (todo / 128);
  }

  /** The first byte of a number, and what follows it. */
  lemma {:induction false} VarIntAt(ctl: seq<byte>, pos: nat, val: nat)
    requires At(ctl, pos, VarInt(val))
    ensures pos < |ctl|
    ensures val < 128 ==> ctl[pos] == val && |VarInt(val)| == 1
    ensures val >= 128 ==>
      ctl[pos] == val % 128 + 128 && At(ctl, pos + 1, VarInt(val / 128)) && |VarInt(val)| == 1 + |VarInt(val / 128)|
  {
    assert ctl[pos] == ctl[pos..pos + |VarInt(val)|][0];
    if val >= 128 {
      AtSplit(ctl, pos, [val % 128 + 128], VarInt(val / 128));
    }
  }

  /** Decodes the variable-length integer at `pos`, whatever follows it. */
  method UlGet(ctl: seq<byte>, pos: nat, ghost val: nat) returns (ret: nat, next: nat)
    requires At(ctl, pos, VarInt(val))
    ensures ret == val
    ensures next == pos + |VarInt(val)|
  {
    hide VarInt, At;
    next := pos;
    VarIntAt(ctl, next, val);
    ret := ctl[next];
    next := next + 1;
    if ret <= 127 {
      return;
    }
    ret := ret - 128;
    var weight: nat := 128;
    ghost var todo: nat := val / 128;
    while true
      invariant At(ctl, next, VarInt(todo))
      invariant next + |VarInt(todo)| == pos + |VarInt(val)|
      invariant val == ret + weight * todo
      decreases todo
    {
      VarIntAt(ctl, next, todo);
      ShiftOut(weight, todo);
      var uc := ctl[next];
      next := next + 1;
      if uc <= 127 {
        ret := ret + uc * weight;
        break;
      }
      uc := uc - 128;
      ret := ret + uc * weight;
      weight := weight * 128;
      todo := todo / 128;
    }
  }

  // ----- Writing -----

  /** What a unit head looks like. */
  function HeadBytes(nr: bool, rowjmp: nat, id: byte, size: byte, ucol: nat, ucolSize: nat, full: bool): seq<byte> {
    [FlagByte(id, nr, rowjmp != 0), size]
    + (if rowjmp != 0 then VarInt(rowjmp) else [])
    + (if full then FixedInt(ucol, ucolSize) else VarInt(ucol))
  }

  class CtlBuilder {
    var ctl: seq<byte>

    constructor ()
      ensures ctl == []
    {
      ctl := [];
    }

    method AppendVariableInt(val: nat)
      modifies this
      ensures ctl == old(ctl) + VarInt(val)
    {
      var rest := val;
      while true
        invariant ctl + VarInt(rest) == old(ctl) + VarInt(val)
        decreases rest
      {
        var b: byte := rest % 128;
        if rest < 128 {
          ctl := ctl + [b];
          break;
        }
        ghost var before := ctl;
        ctl := ctl + [b + 128];
        assert before + VarInt(rest) == ctl + VarInt(rest / 128);
        rest := rest / 128;
      }
    }

    method AppendFixedInt(val: nat, n: nat)
      modifies this
      ensures ctl == old(ctl) + FixedInt(val, n)
    {
      var rest, i := val, 0;
      while i < n
        invariant i <= n
        invariant ctl + FixedInt(rest, n - i) == old(ctl) + FixedInt(val, n)
      {
        ghost var before := ctl;
        ctl := ctl + [rest % 256];
        assert before + FixedInt(rest, n - i) == ctl + FixedInt(rest / 256, n - i - 1);
        rest, i := rest / 256, i + 1;
      }
    }

    method AppendCtlHead(nr: bool, rowjmp: nat, id: byte, size: byte, ucol: nat, ucolSize: nat, full: bool)
      modifies this
      ensures ctl == old(ctl) + HeadBytes(nr, rowjmp, id, size, ucol, ucolSize, full)
    {
      hide VarInt, FixedInt, SetBit;
      var flag := id;
      if nr {
        flag := SetBit(flag, CTL_NR_BIT);
      }
      if rowjmp != 0 {
        flag := SetBit(flag, CTL_RJMP_BIT);
      }
      ctl := ctl + [flag];
      ctl := ctl + [size];
      if rowjmp != 0 {
        AppendVariableInt(rowjmp);
      }
      if full {
        AppendFixedInt(ucol, ucolSize);
      } else {
        AppendVariableInt(ucol);
      }
    }
  }
}
