/**
  The keys that GenerateKeyFromInt of bench/bench.cc makes from integers, and exactly when
  they are distinct.
*/
module Keys {

  /** A byte of a key, 0 to 255. */
  type Byte = b: int | 0 <= b < 256

  type Key = seq<Byte>

  /** The order in which the machine stores the bytes of an integer. */
  datatype Endian = Little | Big

  // ----- Keys -----

  function Pow256(n: nat): (p: nat)
    ensures p >= 1
  {
    if n == 0 then 1 else 256 * Pow256(n - 1)
  }

  /** The low n bytes of v, least significant first. */
  function LowBytes(v: nat, n: nat): (r: seq<Byte>)
    ensures |r| == n
  {
    if n == 0 then [] else [v % 256] + LowBytes(v / 256, n - 1)
  }

  function Reverse(s: seq<Byte>): (r: seq<Byte>)
    ensures |r| == |s|
  {
    if s == [] then [] else Reverse(s[1..]) + [s[0]]
  }

  lemma {:induction false} ReverseAt(s: seq<Byte>, i: nat)
    requires i < |s|
    ensures Reverse(s)[i] == s[|s| - 1 - i]
  {
    if i < |s| - 1 {
      ReverseAt(s[1..], i);
    }
  }

  /** The eight bytes of a uint64_t in memory. */
  function InMemory(order: Endian, v: nat): (r: seq<Byte>)
    ensures |r| == 8
  {
    if order == Little then LowBytes(v, 8) else Reverse(LowBytes(v, 8))
  }

  /** The key for the integer v: its first bytes in memory, padded with the digit 0. */
  function KeyOf(order: Endian, keySize: nat, v: nat): (k: Key)
    ensures |k| == keySize
  {
    if keySize < 8 then InMemory(order, v)[..keySize]
    else InMemory(order, v) + seq(keySize - 8, i => 48)
  }

  /** Fills the key buffer in place. */
  method GenerateKeyFromInt(order: Endian, v: nat, key: array<Byte>)
    requires v < Pow256(8)
    modifies key
    ensures key[..] == KeyOf(order, key.Length, v)
  {
    var bytes := InMemory(order, v);
    var fill := if key.Length < 8 then key.Length else 8;
    for i := 0 to fill
      invariant forall j :: 0 <= j < i ==> key[j] == bytes[j]
    {
      key[i] := bytes[i];
    }
    for i := fill to key.Length
      invariant forall j :: 0 <= j < fill ==> key[j] == bytes[j]
      invariant forall j :: fill <= j < i ==> key[j] == 48
    {
      key[i] := 48;
    }
  }

  lemma {:induction false} LowBytesInjective(v: nat, w: nat, n: nat)
    requires v < Pow256(n) && w < Pow256(n) && LowBytes(v, n) == LowBytes(w, n)
    ensures v == w
  {
    if n > 0 {
      assert LowBytes(v, n)[0] == LowBytes(w, n)[0];
      assert LowBytes(v, n)[1..] == LowBytes(v / 256, n - 1);
      assert LowBytes(w, n)[1..] == LowBytes(w / 256, n - 1);
      LowBytesInjective(v / 256, w / 256, n - 1);
    }
  }

  lemma {:induction false} LowBytesPrefix(v: nat, m: nat, n: nat)
    requires m <= n
    ensures LowBytes(v, n)[..m] == LowBytes(v, m)
  {
    if m > 0 {
      LowBytesPrefix(v / 256, m - 1, n - 1);
    }
  }

  /** The low n bytes of 256^n are those of 0. */
  lemma {:induction false} LowBytesWrap(n: nat)
    ensures LowBytes(Pow256(n), n) == LowBytes(0, n)
  {
    if n > 0 {
      LowBytesWrap(n - 1);
    }
  }

  lemma {:induction false} Pow256Grows(m: nat, n: nat)
    requires m <= n
    ensures 1 <= Pow256(m) <= Pow256(n)
  {
    if n > 0 {
      Pow256Grows(if m == 0 then 0 else m - 1, n - 1);
    }
  }

  lemma ReverseInjective(s: seq<Byte>, t: seq<Byte>)
    requires Reverse(s) == Reverse(t)
    ensures s == t
  {
    forall i | 0 <= i < |s| ensures s[i] == t[i] {
      ReverseAt(s, |s| - 1 - i);
      ReverseAt(t, |s| - 1 - i);
    }
  }

  // ----- What a key says about its integer -----

  /** The number that bytes denote, least significant first. */
  function ValueOf(s: seq<Byte>): nat {
    if s == [] then 0 else s[0] + 256 * ValueOf(s[1..])
  }

  /** v without its low n bytes. */
  function High(v: nat, n: nat): nat {
    if n == 0 then v else High(v / 256, n - 1)
  }

  lemma {:induction false} LowAndHigh(v: nat, n: nat)
    ensures v == ValueOf(LowBytes(v, n)) + High(v, n) * Pow256(n)
    ensures ValueOf(LowBytes(v, n)) < Pow256(n)
  {
    if n > 0 {
      LowAndHigh(v / 256, n - 1);
      assert LowBytes(v, n)[1..] == LowBytes(v / 256, n - 1);
      Regroup(High(v, n), Pow256(n - 1));
    }
  }

  lemma Regroup(h: nat, p: nat)
    ensures 256 * (h * p) == h * (256 * p)
  {
  }

  lemma DivMod(v: nat, r: nat, q: nat, m: nat)
    requires v == r + q * m && r < m
    ensures v % m == r && v / m == q
  {
    var d := v / m - q;
    assert d * m + v % m == r by {
      assert (v / m) * m + v % m == v;
      assert d * m == (v / m) * m - q * m;
    }
    assert d >= 1 ==> d * m >= m;
    assert d <= -1 ==> d * m <= 0 - m;
  }

  lemma {:induction false} LowBytesDrop(v: nat, k: nat, n: nat)
    requires k <= n
    ensures LowBytes(v, n)[k..] == LowBytes(High(v, k), n - k)
  {
    if k > 0 {
      LowBytesDrop(v / 256, k - 1, n - 1);
      assert LowBytes(v, n)[k..] == LowBytes(v, n)[1..][k - 1..];
    }
  }

  lemma {:induction false} HighHigh(v: nat, k: nat, n: nat)
    requires k <= n
    ensures High(High(v, k), n - k) == High(v, n)
  {
    if k > 0 {
      HighHigh(v / 256, k - 1, n - 1);
    }
  }

  lemma {:induction false} HighIsZero(v: nat, n: nat)
    requires v < Pow256(n)
    ensures High(v, n) == 0
  {
    if n > 0 {
      HighIsZero(v / 256, n - 1);
    }
  }

  /** The low n bytes are the integer modulo 256^n. */
  lemma {:induction false} LowBytesValue(v: nat, n: nat)
    ensures ValueOf(LowBytes(v, n)) == v % Pow256(n) && High(v, n) == v / Pow256(n)
  {
    LowAndHigh(v, n);
    DivMod(v, ValueOf(LowBytes(v, n)), High(v, n), Pow256(n));
  }

  /** The bytes from the k-th on are the integer divided by 256^k. */
  lemma {:induction false} HighBytesValue(v: nat, k: nat, n: nat)
    requires k <= n && v < Pow256(n)
    ensures ValueOf(LowBytes(v, n)[k..]) == v / Pow256(k)
  {
    var h := High(v, k);
    assert h == v / Pow256(k) by { LowBytesValue(v, k); }
    LowBytesDrop(v, k, n);
    HighHigh(v, k, n);
    HighIsZero(v, n);
    LowAndHigh(h, n - k);
  }

  lemma {:induction false} ReverseConcat(a: seq<Byte>, b: seq<Byte>)
    ensures Reverse(a + b) == Reverse(b) + Reverse(a)
  {
    if a == [] {
      assert a + b == b;
    } else {
      assert (a + b)[1..] == a[1..] + b;
      ReverseConcat(a[1..], b);
    }
  }

  lemma {:induction false} ReverseTwice(s: seq<Byte>)
    ensures Reverse(Reverse(s)) == s
  {
    if s != [] {
      ReverseTwice(s[1..]);
      ReverseConcat(Reverse(s[1..]), [s[0]]);
      assert Reverse([s[0]]) == [s[0]];
    }
  }

  lemma {:induction false} ReverseTake(s: seq<Byte>, m: nat)
    requires m <= |s|
    ensures Reverse(Reverse(s)[..m]) == s[|s| - m..]
  {
    var lo, hi := s[..|s| - m], s[|s| - m..];
    assert s == lo + hi;
    ReverseConcat(lo, hi);
    assert Reverse(s)[..m] == Reverse(hi);
    ReverseTwice(hi);
  }

  /** The first m of the n bytes of an integer in memory. */
  lemma {:induction false} FirstBytes(v: nat, n: nat, m: nat)
    requires m <= n && v < Pow256(n)
    ensures ValueOf(LowBytes(v, n)[..m]) == v % Pow256(m)
    ensures ValueOf(Reverse(Reverse(LowBytes(v, n))[..m])) == v / Pow256(n - m)
  {
    LowBytesPrefix(v, m, n);
    LowBytesValue(v, m);
    ReverseTake(LowBytes(v, n), m);
    HighBytesValue(v, n - m, n);
  }

  /** What a key holds: of its first eight bytes those there are hold the low end of the
      integer on a little-endian machine and the high end on a big-endian one; all further
      bytes are the digit 0. */
  lemma {:induction false} KeyMeaning(order: Endian, keySize: nat, v: nat)
    requires v < Pow256(8)
    ensures forall i :: 8 <= i < keySize ==> KeyOf(order, keySize, v)[i] == '0' as int
    ensures var m := if keySize < 8 then keySize else 8;
            var stored := KeyOf(order, keySize, v)[..m];
            && (order == Little ==> ValueOf(stored) == v % Pow256(m))
            && (order == Big ==> ValueOf(Reverse(stored)) == v / Pow256(8 - m))
  {
    var m := if keySize < 8 then keySize else 8;
    assert KeyOf(order, keySize, v)[..m] == InMemory(order, v)[..m];
    FirstBytes(v, 8, m);
  }

  // ----- Distinct keys -----

  /** Are the integers below `limit` few enough for this size of key? */
  predicate KeysSuffice(order: Endian, keySize: nat, limit: nat) {
    keySize >= 8 || limit <= 1 || (order == Little && limit <= Pow256(keySize))
  }

  lemma KeyInjective(order: Endian, keySize: nat, limit: nat, v: nat, w: nat)
    requires limit <= Pow256(8) && KeysSuffice(order, keySize, limit) && v < limit && w < limit
    requires KeyOf(order, keySize, v) == KeyOf(order, keySize, w)
    ensures v == w
  {
    if keySize >= 8 {
      assert InMemory(order, v) == KeyOf(order, keySize, v)[..8];
      assert InMemory(order, w) == KeyOf(order, keySize, w)[..8];
      if order == Big {
        ReverseInjective(LowBytes(v, 8), LowBytes(w, 8));
      }
      LowBytesInjective(v, w, 8);
    } else if limit > 1 {
      LowBytesPrefix(v, keySize, 8);
      LowBytesPrefix(w, keySize, 8);
      LowBytesInjective(v, w, keySize);
    }
  }

  /** The key as a function of the integer. */
  function KeyMaker(order: Endian, keySize: nat): nat -> Key {
    v => KeyOf(order, keySize, v)
  }

  /** The integers below `limit` have distinct keys. */
  ghost predicate Distinct(key: nat -> Key, limit: nat) {
    forall v: nat, w: nat :: v < w < limit ==> key(v) != key(w)
  }

  /** All integers below `limit` have distinct keys exactly when the keys are long enough:
      eight bytes, or on a little-endian machine enough bytes for the largest integer. */
  lemma DistinctKeysExactly(order: Endian, keySize: nat, limit: nat)
    requires limit <= Pow256(8)
    ensures Distinct(KeyMaker(order, keySize), limit) <==> KeysSuffice(order, keySize, limit)
  {
    var key := KeyMaker(order, keySize);
    if KeysSuffice(order, keySize, limit) {
      forall v: nat, w: nat | v < w < limit ensures key(v) != key(w) {
        if key(v) == key(w) {
          KeyInjective(order, keySize, limit, v, w);
        }
      }
    } else if order == Little {
      Pow256Grows(0, keySize);
      LowBytesPrefix(0, keySize, 8);
      LowBytesPrefix(Pow256(keySize), keySize, 8);
      LowBytesWrap(keySize);
      assert key(0) == key(Pow256(keySize));
    } else {
      HighBytesOfOne();
      assert KeyOf(Big, keySize, 0) == KeyOf(Big, keySize, 1);
      assert key(0) == key(1);
    }
  }

  lemma HighBytesOfOne()
    ensures forall i :: 0 <= i < 7 ==> InMemory(Big, 0)[i] == InMemory(Big, 1)[i]
  {
    HighBytesEqual(0, 1, 8);
  }

  /** Integers below 256 differ in their last byte in memory only. */
  lemma {:induction false} HighBytesEqual(v: nat, w: nat, n: nat)
    requires v < 256 && w < 256 && n > 0
    ensures forall i :: 0 <= i < n - 1 ==> Reverse(LowBytes(v, n))[i] == Reverse(LowBytes(w, n))[i]
  {
    var a, b := LowBytes(v, n), LowBytes(w, n);
    assert a[1..] == LowBytes(0, n - 1) == b[1..];
    forall i | 0 <= i < n - 1 ensures Reverse(a)[i] == Reverse(b)[i] {
      ReverseAt(a, i);
      ReverseAt(b, i);
      assert a[n - 1 - i] == a[1..][n - 2 - i] && b[n - 1 - i] == b[1..][n - 2 - i];
    }
  }
}
