/** What the CRC computes: the remainder of a polynomial division over GF(2),
    and the errors it therefore detects. */
module WhisperCrcAlgebra {
  import opened WhisperCrc

  // ----- linearity

  lemma {:induction false} RunLinear(a: Word, b: Word, s: seq<bool>, t: seq<bool>)
    requires |s| == |t|
    ensures Run(Xor(a, b), Xor(s, t)) == Xor(Run(a, s), Run(b, t))
  {
    if s == [] {
    } else {
      var n := |s| - 1;
      RunLinear(a, b, s[..n], t[..n]);
      assert Xor(s, t)[..n] == Xor(s[..n], t[..n]);
      ShiftLinear(Run(a, s[..n]), Run(b, t[..n]), s[n], t[n]);
    }
  }

  lemma ShiftLinear(a: Word, b: Word, p: bool, q: bool)
    ensures Shift(Xor(a, b), p != q) == Xor(Shift(a, p), Shift(b, q))
  {
  }

  function XorBytes(d: seq<Byte>, e: seq<Byte>): (r: seq<Byte>)
    requires |d| == |e|
    ensures |r| == |d|
  {
    seq(|d|, i requires 0 <= i < |d| => Xor(d[i], e[i]))
  }

  lemma {:induction false} BitsXor(d: seq<Byte>, e: seq<Byte>)
    requires |d| == |e|
    ensures |Bits(d)| == |Bits(e)| == 8 * |d| && Bits(XorBytes(d, e)) == Xor(Bits(d), Bits(e))
  {
    if d == [] {
    } else {
      var n := |d| - 1;
      BitsXor(d[..n], e[..n]);
      assert XorBytes(d, e)[..n] == XorBytes(d[..n], e[..n]);
    }
  }

  /** The CRC of a difference is the difference of the CRCs. */
  lemma CrcLinear(d: seq<Byte>, e: seq<Byte>)
    requires |d| == |e|
    ensures Crc(XorBytes(d, e)) == Xor(Crc(d), Crc(e))
  {
    BitsXor(d, e);
    RunLinear(ZERO, ZERO, Bits(d), Bits(e));
    assert Xor(ZERO, ZERO) == ZERO;
  }

  // ----- parity

  /** Whether an odd number of the bits are set. */
  function Odd(s: seq<bool>): bool {
    if s == [] then false else Odd(s[..|s| - 1]) != s[|s| - 1]
  }

  lemma {:induction false} OddXor(s: seq<bool>, t: seq<bool>)
    requires |s| == |t|
    ensures Odd(Xor(s, t)) == (Odd(s) != Odd(t))
  {
    if s == [] {
    } else {
      OddXor(s[..|s| - 1], t[..|s| - 1]);
      assert Xor(s, t)[..|s| - 1] == Xor(s[..|s| - 1], t[..|s| - 1]);
    }
  }

  lemma {:induction false} OddCons(b: bool, s: seq<bool>)
    ensures Odd([b] + s) == (b != Odd(s))
  {
    if s == [] {
      assert [b] + s == [b];
    } else {
      OddCons(b, s[..|s| - 1]);
      assert ([b] + s)[..|s|] == [b] + s[..|s| - 1];
    }
  }

  lemma OddPoly()
    ensures Odd(POLY)
  {
    assert POLY[..15] == [true, false, true] + Falses(12);
    OddFalses(12);
    OddCons(true, [false, true] + Falses(12));
    OddCons(false, [true] + Falses(12));
    OddCons(true, Falses(12));
    assert [true, false, true] + Falses(12) == [true] + ([false, true] + Falses(12));
    assert [false, true] + Falses(12) == [false] + ([true] + Falses(12));
  }

  lemma {:induction false} OddFalses(n: nat)
    ensures !Odd(Falses(n))
  {
    if n == 0 {
    } else {
      OddFalses(n - 1);
      assert Falses(n)[..n - 1] == Falses(n - 1);
    }
  }

  lemma ShiftParity(w: Word, bit: bool)
    ensures Odd(Shift(w, bit)) == (Odd(w) != bit)
  {
    OddCons(false, w[..15]);
    OddPoly();
    OddXor(Double(w), POLY);
  }

  /** The register has the parity of the message: x + 1 divides the polynomial. */
  lemma {:induction false} RunParity(s: seq<bool>)
    ensures Odd(Run(ZERO, s)) == Odd(s)
  {
    if s == [] {
      OddFalses(16);
    } else {
      RunParity(s[..|s| - 1]);
      ShiftParity(Run(ZERO, s[..|s| - 1]), s[|s| - 1]);
    }
  }

  /** Messages that differ in an odd number of bits never share a CRC. */
  lemma OddErrorsDetected(d: seq<Byte>, e: seq<Byte>)
    requires |d| == |e| && Odd(Bits(XorBytes(d, e)))
    ensures Crc(d) != Crc(e)
  {
    CrcLinear(d, e);
    RunParity(Bits(XorBytes(d, e)));
    OddXor(Crc(d), Crc(e));
  }

  // ----- bursts

  /** The register holds `tail`, its first bit topmost, and nothing below. */
  ghost predicate TopIs(w: Word, tail: seq<bool>)
    requires |tail| <= 16
  {
    forall k :: 0 <= k < 16 ==> w[k] == (k >= 16 - |tail| && tail[15 - k])
  }

  lemma ShiftBack(now: Word, bit: bool, tail: seq<bool>)
    requires |tail| < 16 && TopIs(Shift(now, bit), tail)
    ensures TopIs(now, [bit] + tail)
  {
    var next := Shift(now, bit);
    assert !next[0];
    assert now[15] == bit;
    forall k | 0 <= k < 15 ensures now[k] == next[k + 1] {}
  }

  /** Running the register backwards over the last j bits of a message whose CRC is
      zero: nothing was subtracted, so those bits sit at the top of the register. */
  lemma {:induction false} BurstBack(b: seq<bool>, j: nat)
    requires j <= |b| && j <= 16 && Run(ZERO, b) == ZERO
    ensures TopIs(Run(ZERO, b[..|b| - j]), b[|b| - j..])
  {
    if j == 0 {
      assert b[..|b|] == b;
    } else {
      BurstBack(b, j - 1);
      var n := |b| - j;
      assert b[..n + 1][..n] == b[..n];
      assert b[n..] == [b[n]] + b[n + 1..];
      ShiftBack(Run(ZERO, b[..n]), b[n], b[n + 1..]);
    }
  }

  lemma {:induction false} ShortZero(b: seq<bool>, k: nat)
    requires |b| <= 16 && Run(ZERO, b) == ZERO && k < |b|
    ensures !b[k]
  {
    BurstBack(b, |b|);
    assert b[..0] == [] && b[0..] == b;
    assert !Run(ZERO, [])[15 - k];
  }

  lemma {:induction false} LeadingFalses(n: nat, s: seq<bool>)
    ensures Run(ZERO, Falses(n) + s) == Run(ZERO, s)
  {
    if s == [] {
      assert Falses(n) + s == Falses(n);
      if n > 0 {
        LeadingFalses(n - 1, []);
        assert Falses(n)[..n - 1] == Falses(n - 1);
        assert Falses(n - 1) + [] == Falses(n - 1);
        assert Shift(ZERO, false) == ZERO;
      }
    } else {
      var m := |s| - 1;
      LeadingFalses(n, s[..m]);
      assert (Falses(n) + s)[..n + m] == Falses(n) + s[..m];
    }
  }

  lemma {:induction false} TrailingFalses(s: seq<bool>, n: nat)
    requires Run(ZERO, s + Falses(n)) == ZERO
    ensures Run(ZERO, s) == ZERO
  {
    if n == 0 {
      assert s + Falses(0) == s;
    } else {
      assert (s + Falses(n))[..|s| + n - 1] == s + Falses(n - 1);
      var w := Run(ZERO, s + Falses(n - 1));
      assert Shift(w, false) == ZERO;
      assert !Shift(w, false)[0];
      forall k | 0 <= k < 15 ensures !w[k] { assert !Shift(w, false)[k + 1]; }
      assert w == ZERO;
      TrailingFalses(s, n - 1);
    }
  }

  lemma SplitBurst(e: seq<bool>, p: nat, q: nat)
    requires p <= q <= |e|
    requires forall i :: 0 <= i < |e| && !(p <= i < q) ==> !e[i]
    ensures e == Falses(p) + (e[p..q] + Falses(|e| - q))
  {
  }

  lemma BurstParts(e: seq<bool>, p: nat, b: seq<bool>, n: nat)
    requires e == Falses(p) + (b + Falses(n)) && Run(ZERO, e) == ZERO
    ensures Run(ZERO, b) == ZERO
  {
    LeadingFalses(p, b + Falses(n));
    TrailingFalses(b, n);
  }

  lemma ShortSeen(b: seq<bool>)
    requires |b| <= 16 && Run(ZERO, b) == ZERO
    ensures forall k :: 0 <= k < |b| ==> !b[k]
  {
    forall k | 0 <= k < |b| ensures !b[k] { ShortZero(b, k); }
  }

  lemma AllFalse(e: seq<bool>, p: nat, q: nat)
    requires p <= q <= |e| && forall k :: 0 <= k < q - p ==> !e[p..q][k]
    requires forall i :: 0 <= i < |e| && !(p <= i < q) ==> !e[i]
    ensures forall i :: 0 <= i < |e| ==> !e[i]
  {
    forall i | 0 <= i < |e| ensures !e[i] {
      if p <= i < q { assert e[i] == e[p..q][i - p]; }
    }
  }

  /** An error confined to 16 consecutive bits is the zero error if the register does not see it. */
  lemma BurstSeen(e: seq<bool>, p: nat, q: nat)
    requires Run(ZERO, e) == ZERO && p <= q <= |e| && q <= p + 16
    requires forall i :: 0 <= i < |e| && !(p <= i < q) ==> !e[i]
    ensures forall i :: 0 <= i < |e| ==> !e[i]
  {
    SplitBurst(e, p, q);
    BurstParts(e, p, e[p..q], |e| - q);
    ShortSeen(e[p..q]);
    AllFalse(e, p, q);
  }

  lemma {:induction false} BitsAt(d: seq<Byte>, i: nat, j: nat)
    requires i < |d| && j < 8
    ensures |Bits(d)| == 8 * |d| && Bits(d)[8 * i + j] == d[i][j]
  {
    BitsXor(d, d);
    if i < |d| - 1 {
      BitsAt(d[..|d| - 1], i, j);
    } else {
      BitsXor(d[..|d| - 1], d[..|d| - 1]);
    }
  }

  lemma SameBitsSameMessage(d: seq<Byte>, e: seq<Byte>)
    requires |d| == |e| && Bits(d) == Bits(e)
    ensures d == e
  {
    forall i | 0 <= i < |d| ensures d[i] == e[i] {
      forall j | 0 <= j < 8 ensures d[i][j] == e[i][j] {
        BitsAt(d, i, j);
        BitsAt(e, i, j);
      }
    }
  }

  /** Two different messages of equal length that differ only inside 16 consecutive
      bits never share a CRC. */
  lemma BurstsDetected(d: seq<Byte>, e: seq<Byte>, p: nat)
    requires |d| == |e| && |Bits(d)| == |Bits(e)|
    requires forall i :: 0 <= i < |Bits(d)| && !(p <= i < p + 16) ==> Bits(d)[i] == Bits(e)[i]
    ensures Crc(d) == Crc(e) <==> d == e
  {
    if Crc(d) == Crc(e) {
      var s, t := Bits(d), Bits(e);
      var x := Xor(s, t);
      assert Run(ZERO, x) == ZERO by {
        CrcLinear(d, e);
        BitsXor(d, e);
        assert Xor(Crc(d), Crc(e)) == ZERO;
      }
      BurstSeen(x, if p <= |x| then p else |x|, if p + 16 <= |x| then p + 16 else |x|);
      assert forall i :: 0 <= i < |s| ==> !x[i] ==> s[i] == t[i];
      assert s == t;
      SameBitsSameMessage(d, e);
    }
  }

  // ----- division

  // A polynomial over GF(2) is the sequence of its coefficients, constant term first.

  function Coef(p: seq<bool>, i: int): bool { 0 <= i < |p| && p[i] }

  ghost predicate Same(p: seq<bool>, q: seq<bool>) { forall i :: Coef(p, i) == Coef(q, i) }

  function Add(p: seq<bool>, q: seq<bool>): seq<bool> {
    seq(if |p| < |q| then |q| else |p|, i requires 0 <= i => Coef(p, i) != Coef(q, i))
  }

  function Mul(p: seq<bool>, q: seq<bool>): seq<bool> {
    if p == [] then [] else Add(if p[0] then q else [], [false] + Mul(p[1..], q))
  }

  // x^16 + x^15 + x^2 + 1
  const GENERATOR: seq<bool> := POLY + [true]

  /** The polynomial of a message: the first bit sent has the highest degree. */
  function Message(s: seq<bool>): seq<bool> {
    if s == [] then [] else [s[|s| - 1]] + Message(s[..|s| - 1])
  }

  /** m * x^16 == q * GENERATOR + r, with r of degree below 16. */
  ghost predicate Divides(m: seq<bool>, q: seq<bool>, r: Word) {
    Same(Falses(16) + m, Add(Mul(q, GENERATOR), r))
  }

  lemma AddCoef(p: seq<bool>, q: seq<bool>, i: int)
    ensures Coef(Add(p, q), i) == (Coef(p, i) != Coef(q, i))
  {
  }

  lemma MulCoef(p: seq<bool>, q: seq<bool>, i: int)
    requires p != []
    ensures Coef(Mul(p, q), i) == ((p[0] && Coef(q, i)) != Coef(Mul(p[1..], q), i - 1))
  {
    AddCoef(if p[0] then q else [], [false] + Mul(p[1..], q), i);
  }

  /** One round of the register is one step of long division. */
  lemma DivisionStep(m: seq<bool>, q: seq<bool>, r: Word, bit: bool)
    requires Divides(m, q, r)
    ensures Divides([bit] + m, [bit != r[15]] + q, Shift(r, bit))
  {
    var f, r' := bit != r[15], Shift(r, bit);
    var q' := [f] + q;
    forall i ensures Coef(Falses(16) + ([bit] + m), i) == Coef(Add(Mul(q', GENERATOR), r'), i) {
      AddCoef(Mul(q', GENERATOR), r', i);
      MulCoef(q', GENERATOR, i);
      assert q'[1..] == q;
      AddCoef(Mul(q, GENERATOR), r, i - 1);
      assert Coef(Falses(16) + m, i - 1) == (Coef(Mul(q, GENERATOR), i - 1) != Coef(r, i - 1));
    }
  }

  lemma {:induction false} RunDivides(s: seq<bool>) returns (q: seq<bool>)
    ensures Divides(Message(s), q, Run(ZERO, s))
  {
    if s == [] {
      q := [];
      forall i ensures Coef(Falses(16) + Message(s), i) == Coef(Add(Mul(q, GENERATOR), ZERO), i) {
        AddCoef(Mul(q, GENERATOR), ZERO, i);
      }
    } else {
      var n := |s| - 1;
      var p := RunDivides(s[..n]);
      DivisionStep(Message(s[..n]), p, Run(ZERO, s[..n]), s[n]);
      q := [s[n] != Run(ZERO, s[..n])[15]] + p;
    }
  }

  /** A multiple of the generator is zero, or has degree at least 16. */
  lemma {:induction false} MultipleIsLarge(q: seq<bool>) returns (top: int)
    ensures top < 0 ==> forall i :: !Coef(Mul(q, GENERATOR), i)
    ensures top >= 0 ==> top >= 16 && Coef(Mul(q, GENERATOR), top)
  {
    if q == [] {
      top := -1;
    } else {
      top := MultipleIsLarge(q[1..]);
      if top >= 0 {
        top := top + 1;
        MulCoef(q, GENERATOR, top);
      } else if q[0] {
        top := 16;
        MulCoef(q, GENERATOR, top);
      } else {
        forall i ensures !Coef(Mul(q, GENERATOR), i) { MulCoef(q, GENERATOR, i); }
      }
    }
  }

  lemma {:induction false} MulAdd(p: seq<bool>, q: seq<bool>, i: int)
    ensures Coef(Mul(Add(p, q), GENERATOR), i) == (Coef(Mul(p, GENERATOR), i) != Coef(Mul(q, GENERATOR), i))
    decreases |p| + |q|
  {
    var a := Add(p, q);
    if p == [] {
      assert a == q;
    } else if q == [] {
      assert a == p;
    } else {
      assert a[1..] == Add(p[1..], q[1..]);
      MulAdd(p[1..], q[1..], i - 1);
      MulCoef(a, GENERATOR, i);
      MulCoef(p, GENERATOR, i);
      MulCoef(q, GENERATOR, i);
    }
  }

  lemma RemainderUnique(m: seq<bool>, q: seq<bool>, r: Word, q': seq<bool>, r': Word)
    requires Divides(m, q, r) && Divides(m, q', r')
    ensures r == r'
  {
    forall i ensures Coef(Mul(Add(q, q'), GENERATOR), i) == (Coef(r, i) != Coef(r', i)) {
      MulAdd(q, q', i);
      AddCoef(Mul(q, GENERATOR), r, i);
      AddCoef(Mul(q', GENERATOR), r', i);
      assert Coef(Falses(16) + m, i) == Coef(Add(Mul(q, GENERATOR), r), i);
      assert Coef(Falses(16) + m, i) == Coef(Add(Mul(q', GENERATOR), r'), i);
    }
    var top := MultipleIsLarge(Add(q, q'));
    forall k | 0 <= k < 16 ensures r[k] == r'[k] { assert Coef(r, k) == Coef(r', k); }
  }

  ghost predicate IsRemainder(m: seq<bool>, r: Word) { exists q :: Divides(m, q, r) }

  lemma GeneratorTerms()
    ensures forall i :: Coef(GENERATOR, i) <==> i == 0 || i == 2 || i == 15 || i == 16
  {
  }

  /** Bit j of byte i is the coefficient of x to the number of bits that are sent after it. */
  ghost predicate SentInOrder(data: seq<Byte>, m: seq<bool>) {
    && (forall i, j {:trigger data[i][j]} :: 0 <= i < |data| && 0 <= j < 8 ==>
          data[i][j] == Coef(m, 8 * (|data| - i) - 1 - j))
    && (forall k :: k < 0 || k >= 8 * |data| ==> !Coef(m, k))
  }

  lemma {:induction false} MessageCoef(s: seq<bool>, k: int)
    ensures |Message(s)| == |s|
    ensures Coef(Message(s), k) == (0 <= k < |s| && s[|s| - 1 - k])
  {
    if s != [] {
      var init := s[..|s| - 1];
      MessageCoef(init, k - 1);
      assert k >= 1 ==> Coef(Message(s), k) == Coef(Message(init), k - 1);
    }
  }

  lemma MessageOrder(data: seq<Byte>)
    ensures SentInOrder(data, Message(Bits(data)))
  {
    var s := Bits(data);
    BitsXor(data, data);
    forall i, j | 0 <= i < |data| && 0 <= j < 8
      ensures data[i][j] == Coef(Message(s), 8 * (|data| - i) - 1 - j)
    {
      BitsAt(data, i, j);
      MessageCoef(s, 8 * (|data| - i) - 1 - j);
    }
    forall k | k < 0 || k >= 8 * |data| ensures !Coef(Message(s), k) { MessageCoef(s, k); }
  }

  /** The CRC is the remainder of the message times x^16 divided by x^16 + x^15 + x^2 + 1, and nothing else is. */
  lemma CrcIsRemainder(data: seq<Byte>, r: Word)
    ensures forall i :: Coef(GENERATOR, i) <==> i == 0 || i == 2 || i == 15 || i == 16
    ensures SentInOrder(data, Message(Bits(data)))
    ensures Crc(data) == r <==> IsRemainder(Message(Bits(data)), r)
  {
    GeneratorTerms();
    MessageOrder(data);
    var m := Message(Bits(data));
    var q := RunDivides(Bits(data));
    assert Divides(m, q, Crc(data));
    if IsRemainder(m, r) {
      var q' :| Divides(m, q', r);
      RemainderUnique(m, q, Crc(data), q', r);
    }
  }

  lemma {:induction false} ValueShifted(n: nat, s: seq<bool>)
    ensures Value(Falses(n) + s) == Power2(n) * Value(s)
  {
    if n > 0 {
      ValueShifted(n - 1, s);
      assert (Falses(n) + s)[1..] == Falses(n - 1) + s;
      assert 2 * (Power2(n - 1) * Value(s)) == Power2(n) * Value(s);
    } else {
      assert Falses(0) + s == s;
    }
  }

  function Power2(n: nat): nat { if n == 0 then 1 else 2 * Power2(n - 1) }

  /** The polynomial register is 0x8005. */
  lemma PolyValue()
    ensures Value(POLY) == 0x8005
  {
    var p3 := Falses(12) + [true];
    var p2 := [true] + p3;
    var p1 := [false] + p2;
    ValueShifted(12, [true]);
    assert [true][1..] == [] && Value([true]) == 1;
    Powers();
    assert p2[1..] == p3 && p1[1..] == p2 && POLY[1..] == p1;
    assert Value(p1) == 2 * Value(p2) && Value(p2) == 1 + 2 * Value(p3);
  }

  lemma Powers()
    ensures Power2(12) == 4096
  {
    assert Power2(4) == 16;
    assert Power2(8) == 256;
  }

  /** The last bit sent alone leaves the polynomial in the register. */
  lemma CheckValue(b: Byte)
    requires b == Falses(7) + [true]
    ensures Value(b) == 0x80 && Value(Crc([b])) == 0x8005
  {
    ValueShifted(7, [true]);
    assert [true][1..] == [] && Value([true]) == 1 && Power2(7) == 128;
    assert [b][..0] == [] && Bits([b][..0]) == [] && Bits([b]) == [] + b == Falses(7) + [true];
    LeadingFalses(7, [true]);
    assert [true][..0] == [] && Run(ZERO, [true]) == Shift(ZERO, true);
    assert Double(ZERO) == ZERO && Xor(ZERO, POLY) == POLY;
    PolyValue();
  }
}
