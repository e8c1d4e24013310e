// Which slot a hash value belongs to while the table grows one slot at a time.
module HashAddressing {
  function Pow2(n: nat): (p: nat)
    ensures p > 0
  {
    if n == 0 then 1 else 2 * Pow2(n - 1)
  }

  // hash & ((1 << level) - 1), on unbounded integers
  function HashLevel(hash: nat, level: nat): (slot: nat)
    ensures slot < Pow2(level)
  {
    hash % Pow2(level)
  }

  function HashSlot(hash: nat, level: nat, splitSlot: nat): (slot: nat)
  {
    var slot := HashLevel(hash, level);
    if slot < splitSlot then HashLevel(hash, level + 1) else slot
  }

  function Advanced(level: nat, splitSlot: nat): (nat, nat)
  {
    if splitSlot + 1 == Pow2(level) then (level + 1, 0) else (level, splitSlot + 1)
  }

  lemma Division(h: nat, d: nat) returns (k: nat, r: nat)
    requires d > 0
    ensures h == d * k + r && r < d && r == h % d
  {
    k, r := h / d, h % d;
  }

  lemma ModTwice(h: nat, m: nat, d: nat)
    requires m > 0 && d == 2 * m
    ensures h % d == h % m || h % d == h % m + m
  {
    var k, r := Division(h, d);
    HalvedSteps(h, m, d, k, r);
  }

  lemma HalvedSteps(h: nat, m: nat, d: nat, k: nat, r: nat)
    requires m > 0 && d == 2 * m && h == d * k + r && r < d
    ensures h % m == if r < m then r else r - m
  {
    assert d * k == (2 * k) * m;
    if r < m {
      ModIs(h, m, 2 * k, r);
    } else {
      assert (2 * k + 1) * m == (2 * k) * m + m;
      ModIs(h, m, 2 * k + 1, r - m);
    }
  }

  lemma ModIs(h: nat, m: nat, k: nat, r: nat)
    requires m > 0 && r < m && h == k * m + r
    ensures h % m == r
  {
    var q, s := h / m, h % m;
    assert h == q * m + s;
    if q < k { MulLess(q, k, m); }
    if q > k { MulLess(k, q, m); }
  }

  lemma MulLess(a: nat, b: nat, m: nat)
    requires a < b
    ensures a * m + m <= b * m
  {
    assert (a + 1) * m <= b * m;
  }

  // one more level either keeps the slot or adds half the new range
  lemma NextLevel(hash: nat, level: nat)
    ensures HashLevel(hash, level + 1) == HashLevel(hash, level)
      || HashLevel(hash, level + 1) == HashLevel(hash, level) + Pow2(level)
  {
    ModTwice(hash, Pow2(level), Pow2(level + 1));
  }

  // ---------- the slot by the digits of the hash

  lemma {:induction false} PowersOfTwo(a: nat, b: nat)
    ensures Pow2(0) == 1 && Pow2(1) == 2 && Pow2(a + b) == Pow2(a) * Pow2(b)
  {
    if a > 0 {
      PowersOfTwo(a - 1, b);
      assert Pow2(a + b) == 2 * (Pow2(a - 1) * Pow2(b)) == (2 * Pow2(a - 1)) * Pow2(b);
    }
  }

  // What stands below the level is kept: the part above never matters.
  lemma LowBits(high: nat, low: nat, level: nat)
    requires low < Pow2(level)
    ensures HashLevel(high * Pow2(level) + low, level) == low
  {
    ModIs(high * Pow2(level) + low, Pow2(level), high, low);
  }

  // Every hash is made of a part above the level and one below it.
  lemma HashParts(hash: nat, level: nat) returns (high: nat)
    ensures hash == high * Pow2(level) + HashLevel(hash, level) && HashLevel(hash, level) < Pow2(level)
  {
    hide Pow2;
    var r;
    high, r := Division(hash, Pow2(level));
  }

  lemma Halved(high: nat, p: nat)
    ensures high * p == high / 2 * (2 * p) + high % 2 * p && high % 2 * p <= p
  {
    var q, bit := high / 2, high % 2;
    assert high == 2 * q + bit;
    assert (2 * q + bit) * p == 2 * q * p + bit * p;
    assert q * (2 * p) == 2 * q * p;
  }

  // The address: the low bits, or one bit more when their slot has been split already.
  lemma SlotOfBits(high: nat, low: nat, level: nat, splitSlot: nat)
    requires low < Pow2(level)
    ensures HashSlot(high * Pow2(level) + low, level, splitSlot)
         == if low < splitSlot && high % 2 == 1 then low + Pow2(level) else low
  {
    assert Pow2(level + 1) == 2 * Pow2(level);
    hide Pow2, HashLevel;
    var q, bit, p := high / 2, high % 2, Pow2(level);
    LowBits(high, low, level);
    Halved(high, p);
    LowBits(q, bit * p + low, level + 1);
  }

  lemma SlotInRange(hash: nat, level: nat, splitSlot: nat)
    requires splitSlot < Pow2(level)
    ensures HashSlot(hash, level, splitSlot) < Pow2(level) + splitSlot
  {
    NextLevel(hash, level);
  }

  // Advancing moves exactly the items of the slot that was split, to where the next level puts them.
  lemma SlotAfterAdvance(hash: nat, level: nat, splitSlot: nat)
    requires splitSlot < Pow2(level)
    ensures var (l, s) := Advanced(level, splitSlot); var before := HashSlot(hash, level, splitSlot);
      && s < Pow2(l) && Pow2(l) + s == Pow2(level) + splitSlot + 1
      && HashSlot(hash, l, s) == if before == splitSlot then HashLevel(hash, level + 1) else before
  {
    assert Pow2(level + 1) == 2 * Pow2(level);
    hide HashLevel, Pow2;
    NextLevel(hash, level);
  }
}
