/** Network ranges: the byte loop and shifted mask against section 3.1 of RFC 4632. */
module Cidr {
  type byte = b: int | 0 <= b < 256

  datatype AddressFamily = InterNetwork | InterNetworkV6

  function Width(family: AddressFamily): nat {
    if family.InterNetwork? then 32 else 128
  }

  datatype Address = Address(family: AddressFamily, bytes: seq<byte>)
  {
    predicate Valid() {
      8 * |bytes| == Width(family)
    }
  }

  datatype Range = Range(network: Address, prefix: nat)
  {
    predicate Valid() {
      network.Valid() && prefix <= Width(network.family)
    }
  }

  function Pow2(n: nat): (r: nat)
    ensures r > 0
  {
    if n == 0 then 1 else 2 * Pow2(n - 1)
  }

  /** Shifts, one bit at a time. */
  function ShiftLeft(x: nat, k: nat): nat {
    if k == 0 then x else 2 * ShiftLeft(x, k - 1)
  }

  function ShiftRight(x: nat, k: nat): nat {
    if k == 0 then x else ShiftRight(x / 2, k - 1)
  }

  /** Bitwise conjunction of non-negative integers. */
  function And(x: nat, y: nat): nat {
    if x == 0 then 0 else (if x % 2 == 1 && y % 2 == 1 then 1 else 0) + 2 * And(x / 2, y / 2)
  }

  /** The integer a byte string stands for, most significant byte first. */
  function Value(bytes: seq<byte>): nat {
    if |bytes| == 0 then 0 else 256 * Value(bytes[..|bytes| - 1]) + bytes[|bytes| - 1]
  }

  method Contains(range: Range, address: Address) returns (r: bool)
    requires range.Valid() && address.Valid()
    ensures r <==>
      && address.family == range.network.family
      && var hostBits := Width(address.family) - range.prefix;
         Value(address.bytes) / Pow2(hostBits) == Value(range.network.bytes) / Pow2(hostBits)
  {
    if address.family != range.network.family {
      return false;
    }
    var addressBytes, networkBytes := address.bytes, range.network.bytes;
    var wholeBytes, remainingBits := range.prefix / 8, range.prefix % 8;
    DivisionAgrees(addressBytes, networkBytes, range.prefix);
    for index := 0 to wholeBytes
      invariant addressBytes[..index] == networkBytes[..index]
    {
      if addressBytes[index] != networkBytes[index] {
        assert addressBytes[..wholeBytes][index] != networkBytes[..wholeBytes][index];
        return false;
      }
      assert addressBytes[..index + 1] == addressBytes[..index] + [addressBytes[index]];
      assert networkBytes[..index + 1] == networkBytes[..index] + [networkBytes[index]];
    }
    if remainingBits == 0 {
      return true;
    }
    var mask := ShiftLeft(0xFF, 8 - remainingBits);
    MaskedEqual(addressBytes[wholeBytes], networkBytes[wholeBytes], 8 - remainingBits);
    return And(addressBytes[wholeBytes], mask) == And(networkBytes[wholeBytes], mask);
  }

  /* ---------- shifts and division ---------- */

  lemma SmallMultiple(z: int, d: int)
    requires -d < z * d < d
    ensures z == 0
  {
    assert z >= 1 ==> z * d >= d;
    assert z <= -1 ==> z * d <= -d;
  }

  lemma QuotientIs(n: nat, d: nat, q: nat, r: nat)
    requires n == d * q + r && r < d
    ensures n / d == q
  {
    assert n == d * (n / d) + n % d;
    assert (n / d - q) * d == r - n % d;
    SmallMultiple(n / d - q, d);
  }

  lemma HalfThenDivide(n: nat, d: nat)
    requires d > 0
    ensures (n / 2) / d == n / (2 * d)
  {
    var q, r := (n / 2) / d, (n / 2) % d;
    assert n / 2 == d * q + r;
    assert n == 2 * d * q + (2 * r + n % 2);
    QuotientIs(n, 2 * d, q, 2 * r + n % 2);
  }

  lemma {:induction false} ShiftRightDivides(n: nat, k: nat)
    ensures ShiftRight(n, k) == n / Pow2(k)
  {
    if k > 0 {
      ShiftRightDivides(n / 2, k - 1);
      HalfThenDivide(n, Pow2(k - 1));
    }
  }

  lemma {:induction false} ShiftRightTwice(n: nat, a: nat, b: nat)
    ensures ShiftRight(n, a + b) == ShiftRight(ShiftRight(n, a), b)
  {
    if a > 0 {
      ShiftRightTwice(n / 2, a - 1, b);
    }
  }

  lemma {:induction false} ShiftRightSum(h: nat, x: nat, w: nat, s: nat)
    requires s <= w
    ensures ShiftRight(ShiftLeft(h, w) + x, s) == ShiftLeft(h, w - s) + ShiftRight(x, s)
  {
    if s > 0 {
      assert (ShiftLeft(h, w) + x) / 2 == ShiftLeft(h, w - 1) + x / 2;
      ShiftRightSum(h, x / 2, w - 1, s - 1);
    }
  }

  lemma {:induction false} ShiftRightBelow(x: nat, w: nat, s: nat)
    requires s <= w && x < ShiftLeft(1, w)
    ensures ShiftRight(x, s) < ShiftLeft(1, w - s)
  {
    if s > 0 {
      ShiftRightBelow(x / 2, w - 1, s - 1);
    }
  }

  lemma {:induction false} ShiftLeftInjective(x: nat, y: nat, k: nat)
    requires ShiftLeft(x, k) == ShiftLeft(y, k)
    ensures x == y
  {
    if k > 0 {
      ShiftLeftInjective(x, y, k - 1);
    }
  }

  lemma ByteShifts(x: nat)
    ensures ShiftLeft(x, 8) == 256 * x && ShiftRight(256 * x, 8) == x && ShiftLeft(1, 8) == 256
  {
    var a, b, c, d := ShiftLeft(x, 1), ShiftLeft(x, 2), ShiftLeft(x, 4), ShiftLeft(x, 6);
    assert a == 2 * x && b == 4 * x;
    assert ShiftLeft(x, 3) == 8 * x && c == 16 * x;
    assert ShiftLeft(x, 5) == 32 * x && d == 64 * x;
    assert ShiftLeft(x, 7) == 128 * x;
    ShiftRightSum(x, 0, 8, 8);
    ShiftRightBelow(0, 0, 0);
    ShiftRightZero(8);
    assert ShiftLeft(1, 2) == 4 && ShiftLeft(1, 4) == 16 && ShiftLeft(1, 6) == 64;
  }

  lemma {:induction false} ShiftRightZero(k: nat)
    ensures ShiftRight(0, k) == 0
  {
    if k > 0 {
      ShiftRightZero(k - 1);
    }
  }

  /* ---------- masks ---------- */

  lemma {:induction false} AndShifted(x: nat, y: nat, k: nat)
    ensures And(x, ShiftLeft(y, k)) == ShiftLeft(And(ShiftRight(x, k), y), k)
  {
    if k > 0 {
      AndShifted(x / 2, y, k - 1);
    }
  }

  lemma {:induction false} AndOnes(x: nat, n: nat)
    requires x < ShiftLeft(1, n)
    ensures And(x, ShiftLeft(1, n) - 1) == x
  {
    if x > 0 {
      var half := ShiftLeft(1, n - 1);
      assert ShiftLeft(1, n) == 2 * half;
      assert (2 * half - 1) / 2 == half - 1 && (2 * half - 1) % 2 == 1;
      AndOnes(x / 2, n - 1);
      assert And(x / 2, half - 1) == x / 2;
    }
  }

  lemma {:induction false} ShiftRightShrinks(x: nat, k: nat)
    ensures ShiftRight(x, k) <= x
  {
    if k > 0 {
      ShiftRightShrinks(x / 2, k - 1);
    }
  }

  /** A mask of ones shifted left by k compares exactly the bits above the lowest k. */
  lemma MaskedEqual(x: byte, y: byte, k: nat)
    ensures And(x, ShiftLeft(0xFF, k)) == And(y, ShiftLeft(0xFF, k)) <==> ShiftRight(x, k) == ShiftRight(y, k)
  {
    ByteShifts(1);
    AndShifted(x, 0xFF, k);
    AndShifted(y, 0xFF, k);
    ShiftRightShrinks(x, k);
    ShiftRightShrinks(y, k);
    AndOnes(ShiftRight(x, k), 8);
    AndOnes(ShiftRight(y, k), 8);
    if ShiftLeft(ShiftRight(x, k), k) == ShiftLeft(ShiftRight(y, k), k) {
      ShiftLeftInjective(ShiftRight(x, k), ShiftRight(y, k), k);
    }
  }

  /* ---------- leading bits ---------- */

  lemma {:induction false} ValueInjective(a: seq<byte>, b: seq<byte>)
    requires |a| == |b| && Value(a) == Value(b)
    ensures a == b
  {
    if |a| > 0 {
      var n := |a| - 1;
      ValueInjective(a[..n], b[..n]);
      assert a == a[..n] + [a[n]] && b == b[..n] + [b[n]];
    }
  }

  /** The first p bits, as an integer. */
  function Leading(bytes: seq<byte>, p: nat): nat
    requires p <= 8 * |bytes|
  {
    ShiftRight(Value(bytes), 8 * |bytes| - p)
  }

  /** Dropping the last byte drops eight bits. */
  lemma LeadingDrops(bytes: seq<byte>, p: nat)
    requires |bytes| > 0 && p <= 8 * (|bytes| - 1)
    ensures Leading(bytes, p) == Leading(bytes[..|bytes| - 1], p)
  {
    var n := |bytes| - 1;
    var high := Value(bytes[..n]);
    ShiftRightTwice(Value(bytes), 8, 8 * n - p);
    ByteShifts(high);
    ShiftRightSum(high, bytes[n], 8, 8);
    ByteShifts(1);
    ShiftRightBelow(bytes[n], 8, 8);
  }

  /** Within the last byte, the leading bits are those of the bytes before it and its own. */
  lemma LeadingSplits(bytes: seq<byte>, k: nat)
    requires |bytes| > 0 && k < 8
    ensures
      var n := |bytes| - 1;
      Leading(bytes, 8 * n + k) == ShiftLeft(Value(bytes[..n]), k) + ShiftRight(bytes[n], 8 - k)
  {
    var n := |bytes| - 1;
    ByteShifts(Value(bytes[..n]));
    ShiftRightSum(Value(bytes[..n]), bytes[n], 8, 8 - k);
  }

  lemma SplitEqual(a: nat, b: nat, x: byte, y: byte, k: nat)
    requires k <= 8
    ensures ShiftLeft(a, k) + ShiftRight(x, 8 - k) == ShiftLeft(b, k) + ShiftRight(y, 8 - k)
        <==> a == b && ShiftRight(x, 8 - k) == ShiftRight(y, 8 - k)
  {
    ByteShifts(1);
    ShiftRightBelow(x, 8, 8 - k);
    ShiftRightBelow(y, 8, 8 - k);
    ShiftRightBelow(ShiftRight(x, 8 - k), k, k);
    ShiftRightBelow(ShiftRight(y, 8 - k), k, k);
    ShiftRightSum(a, ShiftRight(x, 8 - k), k, k);
    ShiftRightSum(b, ShiftRight(y, 8 - k), k, k);
  }

  /** Two addresses have the same leading bits exactly when the whole bytes agree and the high bits
      of the byte after them do. */
  lemma {:induction false} LeadingAgrees(a: seq<byte>, b: seq<byte>, p: nat)
    requires |a| == |b| && p <= 8 * |a|
    ensures Leading(a, p) == Leading(b, p)
        <==> a[..p / 8] == b[..p / 8]
             && (p % 8 != 0 ==> ShiftRight(a[p / 8], 8 - p % 8) == ShiftRight(b[p / 8], 8 - p % 8))
  {
    var n := |a| - 1;
    if p == 8 * |a| {
      assert a[..p / 8] == a && b[..p / 8] == b;
      if Value(a) == Value(b) {
        ValueInjective(a, b);
      }
    } else if p <= 8 * n {
      LeadingDrops(a, p);
      LeadingDrops(b, p);
      LeadingAgrees(a[..n], b[..n], p);
      assert a[..n][..p / 8] == a[..p / 8] && b[..n][..p / 8] == b[..p / 8];
    } else {
      LeadingSplits(a, p - 8 * n);
      LeadingSplits(b, p - 8 * n);
      SplitEqual(Value(a[..n]), Value(b[..n]), a[n], b[n], p - 8 * n);
      if Value(a[..n]) == Value(b[..n]) {
        ValueInjective(a[..n], b[..n]);
      }
    }
  }

  /** The same in terms of integer division: addresses agree after dividing by two to the number of
      host bits exactly when the byte loop and the masked byte agree. */
  lemma DivisionAgrees(a: seq<byte>, b: seq<byte>, p: nat)
    requires |a| == |b| && p <= 8 * |a|
    ensures Value(a) / Pow2(8 * |a| - p) == Value(b) / Pow2(8 * |a| - p)
        <==> a[..p / 8] == b[..p / 8]
             && (p % 8 != 0 ==> ShiftRight(a[p / 8], 8 - p % 8) == ShiftRight(b[p / 8], 8 - p % 8))
  {
    ShiftRightDivides(Value(a), 8 * |a| - p);
    ShiftRightDivides(Value(b), 8 * |a| - p);
    LeadingAgrees(a, b, p);
  }
}
