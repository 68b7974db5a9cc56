/** Generic bit-field layouts.

    A register byte is split into consecutive fields packed
    least-significant-bit first: a layout is the sequence of field widths,
    the first width belonging to bits 0 .. width-1.  `FieldAt` is the
    reference meaning of a field (shift right, then mask); `Unpack` and
    `Pack` convert between a byte and the values of all of its fields, and
    `SetField` is the read-modify-write of one field.

    The shifts are defined by repeated halving and doubling, so that every
    proof step below is linear arithmetic. */
module BitField {

  type u1 = x: nat | x < 2
  type u2 = x: nat | x < 4
  type u3 = x: nat | x < 8
  type u4 = x: nat | x < 16
  type u5 = x: nat | x < 32
  type u7 = x: nat | x < 128
  type u8 = x: nat | x < 256
  type u16 = x: nat | x < 0x1_0000

  function Pow2(n: nat): (p: nat)
    ensures p >= 1
  {
    if n == 0 then 1 else 2 * Pow2(n - 1)
  }

  lemma Pow2Values()
    ensures Pow2(1) == 2 && Pow2(2) == 4 && Pow2(3) == 8 && Pow2(4) == 16
    ensures Pow2(5) == 32 && Pow2(7) == 128 && Pow2(8) == 256
  {
  }

  /** `b >> n` */
  function Shr(b: nat, n: nat): nat
  {
    if n == 0 then b else Shr(b / 2, n - 1)
  }

  /** `v << n` */
  function Shl(v: nat, n: nat): nat
  {
    if n == 0 then v else 2 * Shl(v, n - 1)
  }

  /** `b & (2^n - 1)`: the low `n` bits of `b`. */
  function Low(b: nat, n: nat): (r: nat)
    ensures r < Pow2(n)
  {
    if n == 0 then 0 else b % 2 + 2 * Low(b / 2, n - 1)
  }

  /** The `w` bits of `b` that start at bit `lo`: `(b >> lo) & (2^w - 1)`. */
  function FieldAt(b: nat, lo: nat, w: nat): (v: nat)
    ensures v < Pow2(w)
  {
    Low(Shr(b, lo), w)
  }

  /** Bit `k` of `b`. */
  function Bit(b: nat, k: nat): (v: nat)
    ensures v < 2
  {
    FieldAt(b, k, 1)
  }

  function Sum(ws: seq<nat>): nat
  {
    if ws == [] then 0 else ws[0] + Sum(ws[1..])
  }

  /** Bit position of field `i`: the sum of the widths before it. */
  function Offset(ws: seq<nat>, i: nat): nat
    requires i <= |ws|
  {
    if i == 0 then 0 else ws[0] + Offset(ws[1..], i - 1)
  }

  /** Every value fits the width of its field. */
  predicate Fits(vs: seq<nat>, ws: seq<nat>)
  {
    |vs| == |ws| && forall i :: 0 <= i < |vs| ==> vs[i] < Pow2(ws[i])
  }

  /** The field values of `b`, lowest field first. */
  function Unpack(b: nat, ws: seq<nat>): (vs: seq<nat>)
    ensures Fits(vs, ws)
    decreases |ws|
  {
    if ws == [] then []
    else [Low(b, ws[0])] + Unpack(Shr(b, ws[0]), ws[1..])
  }

  /** The byte holding the field values `vs`; as with an assignment to a C
      bit-field, a value wider than its field keeps only its low bits. */
  function Pack(vs: seq<nat>, ws: seq<nat>): (b: nat)
    requires |vs| == |ws|
    ensures b < Pow2(Sum(ws))
  {
    if ws == [] then 0
    else
      var rest := Pack(vs[1..], ws[1..]);
      JoinBound(Low(vs[0], ws[0]), rest, ws[0], Sum(ws[1..]));
      Low(vs[0], ws[0]) + Shl(rest, ws[0])
  }

  // ---------------------------------------------------------------------
  // Shifts and masks.

  lemma {:induction false} ShrShr(b: nat, a: nat, c: nat)
    ensures Shr(Shr(b, a), c) == Shr(b, a + c)
  {
    if a > 0 {
      ShrShr(b / 2, a - 1, c);
    }
  }

  /** `(b & (2^n - 1)) + ((b >> n) << n) == b` */
  lemma {:induction false} LowShr(b: nat, n: nat)
    ensures Low(b, n) + Shl(Shr(b, n), n) == b
  {
    if n > 0 {
      LowShr(b / 2, n - 1);
      ShlShr(Shr(b / 2, n - 1), n);
    }
  }

  lemma ShlShr(y: nat, n: nat)
    requires n > 0
    ensures Shl(y, n) == 2 * Shl(y, n - 1)
  {
  }

  /** A value that already fits `n` bits is its own low part. */
  lemma {:induction false} LowSmall(x: nat, n: nat)
    requires x < Pow2(n)
    ensures Low(x, n) == x
  {
    if n > 0 {
      LowSmall(x / 2, n - 1);
    }
  }

  /** Placing `y` above an `n`-bit `x` can be undone by masking and shifting. */
  lemma {:induction false} Join(x: nat, y: nat, n: nat)
    requires x < Pow2(n)
    ensures Low(x + Shl(y, n), n) == x && Shr(x + Shl(y, n), n) == y
  {
    if n > 0 {
      Join(x / 2, y, n - 1);
      assert (x + Shl(y, n)) / 2 == x / 2 + Shl(y, n - 1);
    }
  }

  lemma {:induction false} JoinBound(x: nat, y: nat, n: nat, m: nat)
    requires x < Pow2(n) && y < Pow2(m)
    ensures x + Shl(y, n) < Pow2(n + m)
  {
    if n > 0 {
      JoinBound(x / 2, y, n - 1, m);
      assert Pow2(n + m) == 2 * Pow2(n - 1 + m);
    }
  }

  lemma {:induction false} ShrBound(b: nat, n: nat, m: nat)
    requires b < Pow2(n + m)
    ensures Shr(b, n) < Pow2(m)
  {
    if n > 0 {
      assert Pow2(n + m) == 2 * Pow2(n - 1 + m);
      ShrBound(b / 2, n - 1, m);
    }
  }

  lemma {:induction false} ShrLow(y: nat, w: nat, t: nat)
    requires t <= w
    ensures Shr(Low(y, w), t) == Low(Shr(y, t), w - t)
  {
    if t > 0 {
      assert Low(y, w) / 2 == Low(y / 2, w - 1);
      ShrLow(y / 2, w - 1, t - 1);
    }
  }

  lemma {:induction false} LowLow(z: nat, m: nat, s: nat)
    requires s <= m
    ensures Low(Low(z, m), s) == Low(z, s)
  {
    if s > 0 {
      LowLow(z / 2, m - 1, s - 1);
    }
  }

  /** Bits `t .. t+s-1` of the low `w` bits of `y` are bits `t .. t+s-1`
      of `y`, when they lie below `w`. */
  lemma FieldOfLow(y: nat, w: nat, t: nat, s: nat)
    requires t + s <= w
    ensures FieldAt(Low(y, w), t, s) == FieldAt(y, t, s)
  {
    ShrLow(y, w, t);
    LowLow(Shr(y, t), w - t, s);
  }

  // ---------------------------------------------------------------------
  // The mask is the remainder modulo a power of two.

  lemma MulBounds(d: nat, t: int)
    ensures t >= 1 ==> d * t >= d
    ensures t <= -1 ==> d * t + d <= 0
  {
  }

  lemma DivModUnique(x: nat, d: nat, k: nat, r: nat)
    requires r < d && x == d * k + r
    ensures x % d == r && x / d == k
  {
    var q := x / d;
    assert d * (q - k) == r - x % d;
    MulBounds(d, q - k);
  }

  lemma ModStep(x: nat, m: nat)
    requires m > 0
    ensures x % (2 * m) == x % 2 + 2 * ((x / 2) % m)
  {
    var q := x / 2;
    assert x == (2 * m) * (q / m) + (x % 2 + 2 * (q % m));
    DivModUnique(x, 2 * m, q / m, x % 2 + 2 * (q % m));
  }

  /** `b & (2^n - 1) == b % 2^n` */
  lemma {:induction false} LowMod(b: nat, n: nat)
    ensures Low(b, n) == b % Pow2(n)
  {
    if n > 0 {
      LowMod(b / 2, n - 1);
      ModStep(b, Pow2(n - 1));
    }
  }

  /** `b >> n == b / 2^n` */
  lemma {:induction false} ShrDiv(b: nat, n: nat)
    ensures Shr(b, n) == b / Pow2(n)
  {
    if n > 0 {
      ShrDiv(b / 2, n - 1);
      var m := Pow2(n - 1);
      var q := (b / 2) / m;
      var r := b % 2 + 2 * ((b / 2) % m);
      assert b == Pow2(n) * q + r;
      DivModUnique(b, Pow2(n), q, r);
    }
  }

  // ---------------------------------------------------------------------
  // Pack and Unpack are inverse to each other.

  lemma {:induction false} PackUnpack(b: nat, ws: seq<nat>)
    requires b < Pow2(Sum(ws))
    ensures Pack(Unpack(b, ws), ws) == b
    decreases |ws|
  {
    if ws != [] {
      var vs := Unpack(b, ws);
      assert vs[1..] == Unpack(Shr(b, ws[0]), ws[1..]);
      ShrBound(b, ws[0], Sum(ws[1..]));
      PackUnpack(Shr(b, ws[0]), ws[1..]);
      LowSmall(Low(b, ws[0]), ws[0]);
      LowShr(b, ws[0]);
    }
  }

  lemma {:induction false} UnpackPack(vs: seq<nat>, ws: seq<nat>)
    requires Fits(vs, ws)
    ensures Unpack(Pack(vs, ws), ws) == vs
  {
    if ws != [] {
      var rest := Pack(vs[1..], ws[1..]);
      LowSmall(vs[0], ws[0]);
      Join(vs[0], rest, ws[0]);
      assert Fits(vs[1..], ws[1..]) by {
        forall i | 0 <= i < |vs[1..]| ensures vs[1..][i] < Pow2(ws[1..][i]) {
          assert vs[1..][i] == vs[i + 1];
        }
      }
      UnpackPack(vs[1..], ws[1..]);
      assert Unpack(Pack(vs, ws), ws) == [vs[0]] + vs[1..];
    }
  }

  /** A value below 2^(sum of widths) is determined by its fields. */
  lemma UnpackInjective(b1: nat, b2: nat, ws: seq<nat>)
    requires b1 < Pow2(Sum(ws)) && b2 < Pow2(Sum(ws))
    requires Unpack(b1, ws) == Unpack(b2, ws)
    ensures b1 == b2
  {
    PackUnpack(b1, ws);
    PackUnpack(b2, ws);
  }

  /** Field `i` of a byte sits at bit `Offset(ws, i)`. */
  lemma {:induction false} UnpackAt(b: nat, ws: seq<nat>, i: nat)
    requires i < |ws|
    ensures Unpack(b, ws)[i] == FieldAt(b, Offset(ws, i), ws[i])
    decreases i
  {
    if i > 0 {
      UnpackAt(Shr(b, ws[0]), ws[1..], i - 1);
      ShrShr(b, ws[0], Offset(ws[1..], i - 1));
    }
  }

  /** The bits of field `j` are the bits of its value. */
  lemma BitInField(b: nat, ws: seq<nat>, j: nat, t: nat)
    requires j < |ws| && t < ws[j]
    ensures Bit(b, Offset(ws, j) + t) == Bit(Unpack(b, ws)[j], t)
  {
    var o := Offset(ws, j);
    UnpackAt(b, ws, j);
    FieldOfLow(Shr(b, o), ws[j], t, 1);
    ShrShr(b, o, t);
  }

  /** The field that holds bit `k` of a layout. */
  function FieldIndex(ws: seq<nat>, k: nat): (j: nat)
    requires k < Sum(ws)
    ensures j < |ws| && Offset(ws, j) <= k < Offset(ws, j) + ws[j]
  {
    if k < ws[0] then 0 else 1 + FieldIndex(ws[1..], k - ws[0])
  }

  // ---------------------------------------------------------------------
  // Read-modify-write of one field.

  /** `b` with field `i` replaced by the low bits of `v`: decode the byte,
      change one field, encode it again. */
  function SetField(b: nat, ws: seq<nat>, i: nat, v: nat): (r: nat)
    requires i < |ws|
    ensures r < Pow2(Sum(ws))
    ensures Unpack(r, ws) == Unpack(b, ws)[i := Low(v, ws[i])]
  {
    var vs := Unpack(b, ws)[i := Low(v, ws[i])];
    UnpackPack(vs, ws);
    Pack(vs, ws)
  }

  /** Setting a field changes no bit outside it. */
  lemma SetFieldKeepsOtherBits(b: nat, ws: seq<nat>, i: nat, v: nat, k: nat)
    requires i < |ws| && k < Sum(ws)
    requires k < Offset(ws, i) || Offset(ws, i) + ws[i] <= k
    ensures Bit(SetField(b, ws, i, v), k) == Bit(b, k)
  {
    var j := FieldIndex(ws, k);
    assert j != i;
    SetFieldKeepsField(b, ws, i, v, j);
    SameFieldSameBits(SetField(b, ws, i, v), b, ws, j, k);
  }

  /** Two bytes that agree on field `j` agree on each of its bits. */
  lemma SameFieldSameBits(r: nat, b: nat, ws: seq<nat>, j: nat, k: nat)
    requires j < |ws| && Offset(ws, j) <= k < Offset(ws, j) + ws[j]
    requires Unpack(r, ws)[j] == Unpack(b, ws)[j]
    ensures Bit(r, k) == Bit(b, k)
  {
    BitOfField(r, ws, j, k);
    BitOfField(b, ws, j, k);
  }

  /** Bit `k` of a byte, read inside field `j`. */
  lemma BitOfField(b: nat, ws: seq<nat>, j: nat, k: nat)
    requires j < |ws| && Offset(ws, j) <= k < Offset(ws, j) + ws[j]
    ensures Bit(b, k) == Bit(Unpack(b, ws)[j], k - Offset(ws, j))
  {
    var t := k - Offset(ws, j);
    BitInField(b, ws, j, t);
    assert Offset(ws, j) + t == k;
  }

  lemma SetFieldKeepsField(b: nat, ws: seq<nat>, i: nat, v: nat, j: nat)
    requires i < |ws| && j < |ws| && j != i
    ensures Unpack(SetField(b, ws, i, v), ws)[j] == Unpack(b, ws)[j]
  {
  }

  /** Setting a field writes the low bits of the new value into it. */
  lemma SetFieldWritesField(b: nat, ws: seq<nat>, i: nat, v: nat, t: nat)
    requires i < |ws| && t < ws[i]
    ensures Bit(SetField(b, ws, i, v), Offset(ws, i) + t) == Bit(v, t)
  {
    BitInField(SetField(b, ws, i, v), ws, i, t);
    FieldOfLow(v, ws[i], t, 1);
  }
}
