/** Environment ids: env_alloc's generation numbers and what envid2env rejects
    (lab4/kern/env.c, lab4/inc/env.h). */
module EnvIds {
  import opened Words

  const NENV: nat := 1024
  const GENERATION: nat := 4096       // 1 << ENVGENSHIFT
  const PERIOD: nat := 524287         // 2^19 - 1

  function Envx(id: int): (i: nat)
    ensures i < NENV
  {
    id % NENV
  }

  /** The id env_alloc gives slot i when the slot's last id was id; the addition wraps around. */
  function NextId(id: int, i: nat): int {
    var sum := Wrap32(id + GENERATION);
    var generation := sum - sum % NENV;
    (if generation <= 0 then GENERATION else generation) + i
  }

  /** An id slot i can hold: none yet, or a positive generation with the slot number below it. */
  predicate SlotId(id: int, i: nat) {
    id == 0 || (i < NENV && GENERATION <= id < 0x8000_0000 && id % GENERATION == i)
  }

  lemma WrapValue(n: int)
    requires 0 <= n < 0x1_0000_0000
    ensures Wrap32(n) == if n < 0x8000_0000 then n else n - 0x1_0000_0000
  {
  }

  lemma LowBits(q: int, r: nat)
    requires r < NENV
    ensures (q * NENV + r) % NENV == r
  {
    var x := q * NENV + r;
    assert x == x / NENV * NENV + x % NENV;
  }

  lemma MaskValue(g: int, i: nat)
    requires i < NENV
    ensures g * GENERATION + i - (g * GENERATION + i) % NENV == g * GENERATION
  {
    LowBits(4 * g, i);
    assert g * GENERATION == 4 * g * NENV;
  }

  lemma NextIdAt(g: nat, i: nat)
    requires i < NENV && g <= PERIOD
    ensures NextId(g * GENERATION + i, i) == (if g == PERIOD then 1 else g + 1) * GENERATION + i
  {
    WrapValue((g + 1) * GENERATION + i);
    MaskValue(if g == PERIOD then -(PERIOD + 1) else g + 1, i);
  }

  /** A new id is positive, carries its slot number, and advances the generation, wrapping to 1. */
  lemma NextIdGood(id: int, i: nat)
    requires i < NENV && SlotId(id, i)
    ensures SlotId(NextId(id, i), i) && NextId(id, i) > 0 && Envx(NextId(id, i)) == i
    ensures NextId(id, i) == (if id / GENERATION == PERIOD then 1 else id / GENERATION + 1) * GENERATION + i
  {
    var g := id / GENERATION;
    if id == 0 {
      assert Wrap32(GENERATION) == GENERATION;
    } else {
      assert id == g * GENERATION + i;
      NextIdAt(g, i);
    }
    Decompose(if g == PERIOD then 1 else g + 1, i);
  }

  lemma Decompose(g: nat, i: nat)
    requires 1 <= g <= PERIOD && i < NENV
    ensures SlotId(g * GENERATION + i, i) && Envx(g * GENERATION + i) == i
  {
    LowBits(4 * g, i);
    assert g * GENERATION == 4 * g * NENV;
    GenerationOf(g, i);
    var x := g * GENERATION + i;
    assert x == x / GENERATION * GENERATION + x % GENERATION;
  }

  /** The id of slot i after n allocations of it. */
  function IdAfter(i: nat, n: nat): int { if n == 0 then 0 else NextId(IdAfter(i, n - 1), i) }

  lemma {:induction false} IdAfterClosed(i: nat, n: nat)
    requires i < NENV
    ensures SlotId(IdAfter(i, n), i)
    ensures n > 0 ==> IdAfter(i, n) == ((n - 1) % PERIOD + 1) * GENERATION + i
  {
    if n > 0 {
      IdAfterClosed(i, n - 1);
      NextIdGood(IdAfter(i, n - 1), i);
      if n > 1 {
        var g := (n - 2) % PERIOD + 1;
        GenerationOf(g, i);
        ModNext(n - 2);
      }
    }
  }

  lemma GenerationOf(g: nat, i: nat)
    requires i < NENV
    ensures (g * GENERATION + i) / GENERATION == g
  {
  }

  lemma ModNext(n: nat)
    ensures (n + 1) % PERIOD == if n % PERIOD == PERIOD - 1 then 0 else n % PERIOD + 1
  {
  }

  /** Any 2^19 - 1 consecutive allocations of one slot give distinct ids, and the next one repeats. */
  lemma IdsDistinct(i: nat, a: nat, b: nat)
    requires i < NENV && 0 < a < b
    ensures IdAfter(i, a) == IdAfter(i, b) <==> (b - a) % PERIOD == 0
    ensures b - a < PERIOD ==> IdAfter(i, a) != IdAfter(i, b)
  {
    IdAfterClosed(i, a);
    IdAfterClosed(i, b);
    var (x, y) := ((a - 1) % PERIOD, (b - 1) % PERIOD);
    assert (b - a) % PERIOD == 0 <==> x == y by {
      assert a - 1 == PERIOD * ((a - 1) / PERIOD) + x;
      assert b - 1 == PERIOD * ((b - 1) / PERIOD) + y;
      var d := (b - 1) / PERIOD - (a - 1) / PERIOD;
      assert b - a == PERIOD * d + (y - x);
      ModFrom(b - a, d, y - x);
    }
  }

  lemma ModFrom(n: int, d: int, r: int)
    requires n == PERIOD * d + r && 0 - PERIOD < r < PERIOD
    ensures n % PERIOD == 0 <==> r == 0
  {
  }
}
