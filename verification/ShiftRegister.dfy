/** Binary histories: a register that shifts in one bit at a time and forgets all but the last k. */
module ShiftRegister {
  function Bit(b: bool): nat { if b then 1 else 0 }

  function Pow2(k: nat): (m: nat)
    ensures m >= 1
  {
    if k == 0 then 1 else 2 * Pow2(k - 1)
  }

  /** The number that a sequence of bits codes, the latest bit lowest, on top of an earlier history. */
  function Horner(start: nat, bits: seq<bool>): nat {
    if bits == [] then start else 2 * Horner(start, bits[..|bits| - 1]) + Bit(bits[|bits| - 1])
  }

  function Code(bits: seq<bool>): nat { Horner(0, bits) }

  /** The last k bits. */
  function Latest(bits: seq<bool>, k: nat): seq<bool>
    requires k <= |bits|
  {
    bits[|bits| - k..]
  }

  lemma LatestSnoc(bits: seq<bool>, b: bool, k: nat)
    requires k <= |bits|
    ensures Latest(bits + [b], k + 1) == Latest(bits, k) + [b]
  {
  }

  lemma {:induction false} HornerSplits(start: nat, a: seq<bool>, b: seq<bool>)
    ensures Horner(start, a + b) == Horner(Horner(start, a), b)
  {
    if b == [] {
      assert a + b == a;
    } else {
      HornerSplits(start, a, b[..|b| - 1]);
      assert (a + b)[..|a + b| - 1] == a + b[..|b| - 1];
    }
  }

  lemma Doubles(a: nat, p: nat)
    ensures a * (2 * p) == 2 * (a * p)
  {
  }

  lemma {:induction false} HornerIsSum(start: nat, bits: seq<bool>)
    ensures Horner(start, bits) == start * Pow2(|bits|) + Code(bits) && Code(bits) < Pow2(|bits|)
  {
    if bits != [] {
      HornerIsSum(start, bits[..|bits| - 1]);
      Doubles(start, Pow2(|bits| - 1));
    }
  }

  lemma TimesMonotone(a: nat, b: nat, m: nat)
    requires a < b
    ensures a * m + m <= b * m
  {
    var d := b - a;
    assert b * m == a * m + d * m;
    assert d * m == (d - 1) * m + m;
  }

  lemma ModOfSum(q: nat, m: nat, r: nat)
    requires r < m
    ensures (q * m + r) % m == r
  {
    var x := q * m + r;
    assert x == x / m * m + x % m;
    if q < x / m {
      TimesMonotone(q, x / m, m);
    } else if x / m < q {
      TimesMonotone(x / m, q, m);
    }
  }

  /** Reducing modulo 2^k keeps exactly the last k bits, whatever the register started with. */
  lemma ModKeepsLatest(start: nat, bits: seq<bool>, k: nat)
    requires k <= |bits|
    ensures Horner(start, bits) % Pow2(k) == Code(Latest(bits, k)) < Pow2(k)
  {
    var before, last := bits[..|bits| - k], Latest(bits, k);
    assert bits == before + last;
    HornerSplits(start, before, last);
    HornerIsSum(Horner(start, before), last);
    ModOfSum(Horner(start, before), Pow2(k), Code(last));
  }

  /** Shifting one more bit into the code of the last k bits gives the code of the now last k bits. */
  lemma ShiftIn(bits: seq<bool>, b: bool, k: nat)
    requires k <= |bits|
    ensures (2 * Code(Latest(bits, k)) + Bit(b)) % Pow2(k) == Code(Latest(bits + [b], k)) < Pow2(k)
  {
    var more := Latest(bits, k) + [b];
    assert more[..|more| - 1] == Latest(bits, k);
    assert Code(more) == 2 * Code(Latest(bits, k)) + Bit(b);
    ModKeepsLatest(0, more, k);
    assert Latest(bits + [b], k) == Latest(more, k);
  }

  // ---------- the two ways of updating a register ----------

  lemma ModStep(x: nat, m: nat, y: nat)
    requires m > 0
    ensures (2 * (x % m) + y) % m == (2 * x + y) % m
  {
    var q, r := x / m, x % m;
    assert x == q * m + r;
    var q', r' := (2 * r + y) / m, (2 * r + y) % m;
    Collects(q, q', m);
    assert 2 * x + y == (2 * q + q') * m + r';
    ModOfSum(2 * q + q', m, r');
  }

  lemma Collects(a: nat, b: nat, m: nat)
    ensures (2 * a + b) * m == 2 * (a * m) + b * m
  {
  }

  lemma EvenMod(m: nat, s: nat)
    requires m > 0 && m % 2 == 0
    ensures (2 * s) % m % 2 == 0 && (2 * s) % m + 1 < m
  {
    var q, r := 2 * s / m, (2 * s) % m;
    assert 2 * s == q * m + r;
    var half := m / 2;
    assert m == 2 * half && q * m == 2 * (q * half);
    assert r == 2 * (s - q * half);
  }

  /** The update of the channel: shift, add, reduce. */
  function ChannelStep(s: nat, b: bool, m: nat): nat
    requires m > 0
  {
    (2 * s + Bit(b)) % m
  }

  /** The update of the trainer: shift, reduce, add. */
  function TrainerStep(s: nat, b: bool, m: nat): nat
    requires m > 0
  {
    (2 * s) % m + Bit(b)
  }

  /** The two updates agree for all states exactly when the modulus is even. */
  lemma UpdatesAgreeIffEven(m: nat)
    requires m > 0
    ensures (forall s: nat, b: bool :: ChannelStep(s, b, m) == TrainerStep(s, b, m)) <==> m % 2 == 0
  {
    if m % 2 == 0 {
      forall s: nat, b: bool
        ensures ChannelStep(s, b, m) == TrainerStep(s, b, m)
      {
        EvenUpdatesAgree(m, s, b);
      }
    } else {
      var s := (m - 1) / 2;
      assert 2 * s + 1 == m;
      ModOfSum(1, m, 0);
      ModOfSum(0, m, 2 * s);
      assert ChannelStep(s, true, m) != TrainerStep(s, true, m);
    }
  }

  lemma EvenUpdatesAgree(m: nat, s: nat, b: bool)
    requires m > 0 && m % 2 == 0
    ensures ChannelStep(s, b, m) == TrainerStep(s, b, m) < m
  {
    EvenMod(m, s);
    var q, r := 2 * s / m, (2 * s) % m;
    assert 2 * s == q * m + r;
    ModOfSum(q, m, r + Bit(b));
  }

  /** Either update shifts one more bit into a register that holds a history modulo 2^k, k >= 1. */
  lemma RegisterStep(start: nat, bits: seq<bool>, b: bool, k: nat)
    requires k >= 1
    ensures var s, m := Horner(start, bits) % Pow2(k), Pow2(k);
            ChannelStep(s, b, m) == TrainerStep(s, b, m) == Horner(start, bits + [b]) % m < m
  {
    var x, m := Horner(start, bits), Pow2(k);
    assert (bits + [b])[..|bits|] == bits;
    assert m == 2 * Pow2(k - 1);
    ModStep(x, m, Bit(b));
    EvenUpdatesAgree(m, x % m, b);
  }

  lemma CodeSnoc(bits: seq<bool>, b: bool)
    ensures Code(bits + [b]) == 2 * Code(bits) + Bit(b)
  {
  }
}
