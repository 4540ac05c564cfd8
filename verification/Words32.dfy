/** Arithmetic on the 32-bit words of rand.c: one step of the recurrence and tempering,
    and that both can be undone. */
module Words32 {
  /** The top bit of u and the others of v. */
  function Joined(u: bv32, v: bv32): bv32 {
    (u & 0x8000_0000) | (v & 0x7fff_ffff)
  }

  function Rolled(y: bv32): bv32 {
    (y >> 1) ^ (if y & 1 == 1 then 0x9908_b0df else 0)
  }

  /** One step of the recurrence, from x[i], x[i+1] and x[i+397]. */
  function Twist(u: bv32, v: bv32, far: bv32): bv32 {
    far ^ Rolled(Joined(u, v))
  }

  function TemperU(y: bv32): bv32 {
    y ^ (y >> 11)
  }

  function TemperS(y: bv32): bv32 {
    y ^ ((y << 7) & 0x9d2c_5680)
  }

  function TemperT(y: bv32): bv32 {
    y ^ ((y << 15) & 0xefc6_0000)
  }

  function TemperL(y: bv32): bv32 {
    y ^ (y >> 18)
  }

  function Temper(x: bv32): bv32 {
    TemperL(TemperT(TemperS(TemperU(x))))
  }

  /** Tempered, without the top bit. */
  function Output(x: bv32): bv32 {
    Temper(x) & 0x7fff_ffff
  }

  function UndoU(y: bv32): bv32 {
    y ^ (y >> 11) ^ (y >> 22)
  }

  function UndoS(y: bv32): bv32 {
    var a := y ^ ((y << 7) & 0x9d2c_5680);
    var b := y ^ ((a << 7) & 0x9d2c_5680);
    var c := y ^ ((b << 7) & 0x9d2c_5680);
    y ^ ((c << 7) & 0x9d2c_5680)
  }

  function Untemper(z: bv32): bv32 {
    UndoU(UndoS(TemperT(TemperL(z))))
  }

  lemma Xors(x: bv32, a: bv32, b: bv32)
    ensures (x ^ a) ^ (a ^ b) ^ b == x && (x ^ a ^ b) ^ (a ^ b) == x
  {
  }

  lemma Halves(w: bv32, w': bv32)
    requires w & 0x3fff == w' & 0x3fff && w & 0xffff_c000 == w' & 0xffff_c000
    ensures w == w'
  {
  }

  lemma LowL(y: bv32)
    ensures TemperL(TemperL(y)) & 0x3fff == y & 0x3fff
  {
  }

  lemma HighL(y: bv32)
    ensures TemperL(TemperL(y)) & 0xffff_c000 == y & 0xffff_c000
  {
  }

  lemma BackL(y: bv32)
    ensures TemperL(TemperL(y)) == y
  {
    LowL(y);
    HighL(y);
    Halves(TemperL(TemperL(y)), y);
  }

  lemma BackT(y: bv32)
    ensures TemperT(TemperT(y)) == y
  {
  }

  lemma BackS(y: bv32)
    ensures UndoS(TemperS(y)) == y && TemperS(UndoS(y)) == y
  {
  }

  lemma ShiftOnce(y: bv32)
    ensures TemperU(y) >> 11 == (y >> 11) ^ (y >> 22)
  {
  }

  lemma ShiftTwice(y: bv32)
    ensures TemperU(y) >> 22 == y >> 22
  {
  }

  lemma ShiftUndone(y: bv32)
    ensures UndoU(y) >> 11 == (y >> 11) ^ (y >> 22)
  {
  }

  lemma BackU(y: bv32)
    ensures UndoU(TemperU(y)) == y && TemperU(UndoU(y)) == y
  {
    ShiftOnce(y);
    ShiftTwice(y);
    ShiftUndone(y);
    Xors(y, y >> 11, y >> 22);
  }

  /** Tempering takes the words to the words one to one. */
  lemma TemperOneToOne(x: bv32, z: bv32)
    ensures Untemper(Temper(x)) == x && Temper(Untemper(z)) == z
  {
    var u, l := TemperU(x), TemperL(z);
    BackU(x);
    BackS(u);
    BackT(TemperS(u));
    BackL(TemperT(TemperS(u)));
    BackL(z);
    BackT(l);
    BackS(TemperT(l));
    BackU(UndoS(TemperT(l)));
  }

  function Unrolled(z: bv32): bv32 {
    if z & 0x8000_0000 == 0 then z << 1 else ((z ^ 0x9908_b0df) << 1) | 1
  }

  lemma BackRolled(y: bv32)
    ensures Unrolled(Rolled(y)) == y
  {
  }

  lemma SameXor(far: bv32, y: bv32, y': bv32)
    requires far ^ y == far ^ y'
    ensures y == y'
  {
  }

  /** A step of the recurrence loses nothing of what goes into it. */
  lemma TwistBack(u: bv32, v: bv32, u': bv32, v': bv32, far: bv32)
    requires Twist(u, v, far) == Twist(u', v', far)
    ensures Joined(u, v) == Joined(u', v')
  {
    var y, y' := Joined(u, v), Joined(u', v');
    SameXor(far, Rolled(y), Rolled(y'));
    BackRolled(y);
    BackRolled(y');
  }

  lemma JoinedParts(u: bv32, w: bv32, v: bv32, u': bv32, w': bv32, v': bv32)
    requires Joined(u, w) == Joined(u', w') && Joined(w, v) == Joined(w', v')
    ensures w == w'
  {
  }
}
