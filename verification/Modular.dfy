/** The few facts about division by a variable that ring indices, chunk counts and counter blocks need. */
module Modular {

  /** Counts a condition. */
  function One(b: bool): nat {
    if b then 1 else 0
  }

  lemma ScaleSign(d: int, c: int)
    requires c > 0
    ensures d >= 1 ==> d * c >= c
    ensures d >= 2 ==> d * c >= 2 * c
    ensures d <= -1 ==> d * c <= -c
  {}

  lemma DivModUnique(a: nat, c: nat, q: nat, r: nat)
    requires r < c && a == q * c + r
    ensures a / c == q && a % c == r
  {
    var d := a / c - q;
    assert d * c == r - a % c;
    ScaleSign(d, c);
  }

  lemma QuotientRemainder(a: nat, c: nat) returns (q: nat, r: nat)
    requires c > 0
    ensures q == a / c && r == a % c && r < c && a == q * c + r
  {
    q, r := a / c, a % c;
  }

  lemma SmallMod(x: nat, c: nat)
    requires x < c
    ensures x % c == x
  {}

  lemma AddOneTurn(x: nat, c: nat)
    requires c > 0
    ensures (x + c) / c == x / c + 1 && (x + c) % c == x % c
  {
    DivModUnique(x + c, c, x / c + 1, x % c);
  }

  /** Reducing early does not matter. */
  lemma AddMod(x: nat, y: nat, c: nat)
    requires c > 0
    ensures (x % c + y) % c == (x + y) % c
  {
    var z := x % c + y;
    assert (x / c + z / c) * c == (x / c) * c + (z / c) * c;
    DivModUnique(x + y, c, x / c + z / c, z % c);
  }

  /** The distance between two counters less than a turn apart, from their slots alone. */
  lemma SlotDistance(a: nat, b: nat, c: nat)
    requires a <= b < a + c
    ensures b - a == if a % c <= b % c then b % c - a % c else c - a % c + b % c
  {
    var d := b / c - a / c;
    assert b - a == d * c + b % c - a % c;
    ScaleSign(d, c);
  }

  /** Within one turn of the ring, distinct counters have distinct slots. */
  lemma DistinctSlots(a: nat, b: nat, c: nat)
    requires a < b < a + c
    ensures a % c != b % c
  {
    SlotDistance(a, b, c);
  }

  /** Splitting off the lowest byte. */
  lemma LowDigit(n: nat, size: nat)
    requires size > 0
    ensures n % (256 * size) == n % 256 + 256 * (n / 256 % size)
  {
    var high := n / 256;
    var q, r := high / size, high % size;
    assert high == q * size + r;
    assert 256 * (q * size) == q * (256 * size);
    DivModUnique(n, 256 * size, q, 256 * r + n % 256);
  }
}
