/**
 * The order in which a request visits the servlet runners: a start index drawn from
 * a 32-bit hash, then steps of +1 or -1 around the list.
 */
module Rotation {
  import opened Words

  /** The hash before any 32-bit wrap: a base-23 polynomial in the address bytes. */
  function Polynomial(seed: int, ip: seq<int>): (h: int)
  {
    if ip == [] then seed else 23 * Polynomial(seed, ip[..|ip| - 1]) + ip[|ip| - 1]
  }

  function Seed(requestTime: int, count: int, rand: int): int
  {
    23 * (requestTime * 23 + count) + rand
  }

  /** The wrapped magnitude of a hash: -h, which is again negative for the most negative h. */
  function Magnitude(h: int): (r: int)
    requires -TWO_31 <= h < TWO_31
    ensures -TWO_31 <= r < TWO_31
    ensures r < 0 <==> h == -TWO_31
    ensures r == h || r == -h
  {
    if h < 0 then Signed(-h) else h
  }

  /** `random_host`: every intermediate value is a wrapped `int`. */
  method RandomHost(ip: seq<int>, requestTime: int, rand: int, count: int) returns (r: int)
    ensures r == Magnitude(Signed(Polynomial(Seed(requestTime, count, rand), ip)))
  {
    var host := Signed(requestTime * 23 + count);
    SignedAbsorbs(requestTime * 23 + count, rand);
    host := Signed(23 * host + rand);
    ghost var seed := Seed(requestTime, count, rand);
    var i := 0;
    while i < |ip|
      invariant 0 <= i <= |ip|
      invariant host == Signed(Polynomial(seed, ip[..i]))
    {
      SignedAbsorbs(Polynomial(seed, ip[..i]), ip[i]);
      assert ip[..i + 1][..i] == ip[..i];
      host := Signed(23 * host + ip[i]);
      i := i + 1;
    }
    assert ip[..|ip|] == ip;
    r := if host < 0 then Signed(-host) else host;
  }

  /** The start index `open_connection` makes of a hash. */
  function Start(hash: int, size: int): (host: nat)
    requires size > 0
    ensures host < size
    ensures if hash >= 0 then (hash - host) % size == 0 else (hash + host) % size == 0
  {
    var r := Remainder(hash, size);
    if r < 0 then -r else r
  }

  /** 23 is invertible among 32-bit words. */
  const INVERSE_23 := 3921491879

  lemma InverseWord(x: int)
    ensures Signed(23 * (INVERSE_23 * x)) == Signed(x)
  {
    assert 23 * INVERSE_23 == 1 + 21 * TWO_32;
    assert 23 * (INVERSE_23 * x) == x + (21 * x) * TWO_32;
    SameWord(x, 21 * x);
  }

  lemma SameWord(x: int, q: int)
    ensures Signed(x + q * TWO_32) == Signed(x)
  {
    var r := (x + TWO_31) % TWO_32;
    ModUnique(x + q * TWO_32 + TWO_31, TWO_32, (x + TWO_31) / TWO_32 + q, r);
  }

  /** Every word is the hash of some seed, whatever the address. */
  lemma {:induction false} EveryWord(ip: seq<int>, w: int) returns (seed: int)
    requires -TWO_31 <= w < TWO_31
    ensures -TWO_31 <= seed < TWO_31 && Signed(Polynomial(seed, ip)) == w
    decreases |ip|
  {
    if ip == [] {
      seed := w;
    } else {
      var n := |ip| - 1;
      var s := Signed(INVERSE_23 * (w - ip[n]));
      seed := EveryWord(ip[..n], s);
      SignedAbsorbs(Polynomial(seed, ip[..n]), ip[n]);
      SignedAbsorbs(INVERSE_23 * (w - ip[n]), ip[n]);
      InverseWord(w - ip[n]);
      SameShift(23 * (INVERSE_23 * (w - ip[n])), w - ip[n], ip[n]);
    }
  }

  lemma SameShift(x: int, y: int, b: int)
    requires Signed(x) == Signed(y)
    ensures Signed(x + b) == Signed(y + b)
  {
  }

  /** Every runner is the first choice for some random number, whatever the address, the time and the counter. */
  lemma EveryStart(ip: seq<int>, requestTime: int, count: int, size: nat, k: nat) returns (rand: int)
    requires k < size <= TWO_31
    ensures -TWO_31 <= rand < TWO_31
    ensures Start(Magnitude(Signed(Polynomial(Seed(requestTime, count, rand), ip))), size) == k
  {
    hide Polynomial, Signed, Start;
    var seed := EveryWord(ip, k);
    var base := 23 * (requestTime * 23 + count);
    rand := Signed(seed - base);
    WordOfWord(seed - base);
    SameShift(rand, seed - base, base);
    assert (seed - base) + base == seed;
    SamePolynomial(base + rand, seed, ip);
    StartOfSmall(k, size);
  }

  lemma WordOfWord(x: int)
    ensures Signed(Signed(x)) == Signed(x)
  {
  }

  lemma StartOfSmall(k: nat, size: nat)
    requires k < size
    ensures Start(k, size) == k
  {
    ModUnique(k, size, 0, k);
  }

  lemma {:induction false} SamePolynomial(a: int, b: int, ip: seq<int>)
    requires Signed(a) == Signed(b)
    ensures Signed(Polynomial(a, ip)) == Signed(Polynomial(b, ip))
    decreases |ip|
  {
    if ip == [] {
    } else {
      var n := |ip| - 1;
      SamePolynomial(a, b, ip[..n]);
      SignedAbsorbs(Polynomial(a, ip[..n]), ip[n]);
      SignedAbsorbs(Polynomial(b, ip[..n]), ip[n]);
    }
  }

  /** One address byte, with the number of times the hash overflows. */
  lemma HashStep(seed: int, ip: seq<int>, b: int, h: int, q: int, next: seq<int>) returns (r: int)
    requires Signed(Polynomial(seed, ip)) == h && next == ip + [b]
    requires -TWO_31 <= 23 * h + b - q * TWO_32 < TWO_31
    ensures r == 23 * h + b - q * TWO_32 && Signed(Polynomial(seed, next)) == r
  {
    r := 23 * h + b - q * TWO_32;
    assert (ip + [b])[..|ip|] == ip;
    SignedAbsorbs(Polynomial(seed, ip), b);
    SameWord(r, q);
  }

  /** The hash of the address "10.0.0.1" at one time, for one random number. */
  lemma OneHash()
    ensures Magnitude(Signed(Polynomial(Seed(969656063, 0, 12345), [49, 48, 46, 48, 46, 48, 46, 49]))) == 421812582
    ensures Start(421812582, 3) == 0
  {
    hide Polynomial, Signed;
    var seed := Seed(969656063, 0, 12345);
    FirstWord(seed);
    var h := HashStep(seed, [], 49, 1846961448, 10, [49]);
    h := HashStep(seed, [49], 48, h, -3, [49, 48]);
    h := HashStep(seed, [49, 48], 46, h, 11, [49, 48, 46]);
    h := HashStep(seed, [49, 48, 46], 48, h, 4, [49, 48, 46, 48]);
    h := HashStep(seed, [49, 48, 46, 48], 46, h, -4, [49, 48, 46, 48, 46]);
    h := HashStep(seed, [49, 48, 46, 48, 46], 48, h, -10, [49, 48, 46, 48, 46, 48]);
    h := HashStep(seed, [49, 48, 46, 48, 46, 48], 46, h, 8, [49, 48, 46, 48, 46, 48, 46]);
    h := HashStep(seed, [49, 48, 46, 48, 46, 48, 46], 49, h, 7, [49, 48, 46, 48, 46, 48, 46, 49]);
  }

  lemma FirstWord(seed: int)
    requires seed == Seed(969656063, 0, 12345)
    ensures Signed(Polynomial(seed, [])) == 1846961448
  {
    assert seed == 1846961448 + 119 * TWO_32;
    SameWord(1846961448, 119);
  }

  /** Odd starts walk up, even starts walk down. */
  function Direction(host: nat): (incr: int)
    ensures incr == 1 || incr == -1
  {
    2 * (host % 2) - 1
  }

  /** The product form the sweeps use, before it is reduced. */
  function Offset(host: nat, size: nat, i: nat): (o: nat)
    requires host < size
  {
    assert i * (Direction(host) + size) >= 0;
    host + i * (Direction(host) + size)
  }

  /** The index visited in iteration i, as the three sweeps compute it. */
  function Slot(host: nat, size: nat, i: nat): (k: nat)
    requires host < size
    ensures k < size
  {
    Offset(host, size, i) % size
  }

  /** Iteration i in plain terms: i places up or down from the start, around the list. */
  function Around(host: nat, size: nat, i: nat): (k: nat)
    requires host < size && i < size
    ensures k < size
  {
    if Direction(host) == 1 then
      if host + i < size then host + i else host + i - size
    else
      if i <= host then host - i else host - i + size
  }

  lemma SlotIsAround(host: nat, size: nat, i: nat)
    requires host < size && i < size
    ensures Slot(host, size, i) == Around(host, size, i)
  {
    var incr := Direction(host);
    assert Offset(host, size, i) == (host + i * incr) + i * size;
    if incr == 1 {
      assert i * incr == i;
      ModShift(host + i, i, size);
      ModUnique(host + i, size, if host + i < size then 0 else 1, Around(host, size, i));
    } else {
      assert i * incr == 0 - i;
      ModShift(host - i, i, size);
      ModUnique(host - i, size, if i <= host then 0 else -1, Around(host, size, i));
    }
  }

  /** The whole sweep. */
  function Order(host: nat, size: nat): (order: seq<nat>)
    requires host < size
    ensures |order| == size
    ensures forall i :: 0 <= i < size ==> order[i] == Slot(host, size, i)
  {
    seq(size, i requires 0 <= i => Slot(host, size, i))
  }

  /** From an odd start the sweep walks up around the list, from an even one down. */
  lemma OrderWalks(host: nat, size: nat)
    requires host < size
    ensures forall i :: 0 <= i < size ==> Order(host, size)[i] == (if host % 2 == 1 then host + i else host - i) % size
  {
    forall i | 0 <= i < size
      ensures Order(host, size)[i] == (if host % 2 == 1 then host + i else host - i) % size
    {
      SlotIsAround(host, size, i);
      if host % 2 == 1 {
        ModUnique(host + i, size, if host + i < size then 0 else 1, Around(host, size, i));
      } else {
        ModUnique(host - i, size, if i <= host then 0 else -1, Around(host, size, i));
      }
    }
  }

  predicate Distinct<T(==)>(s: seq<T>)
  {
    forall i, j :: 0 <= i < j < |s| ==> s[i] != s[j]
  }

  /** A permutation of 0..size. */
  ghost predicate Permutes(order: seq<nat>, size: nat)
  {
    && |order| == size
    && Distinct(order)
    && (forall i :: 0 <= i < |order| ==> order[i] < size)
    && (forall k: nat :: k < size ==> k in order)
  }

  /** Every sweep visits every index exactly once, from any start, in either direction. */
  lemma OrderPermutes(host: nat, size: nat)
    requires host < size
    ensures Permutes(Order(host, size), size)
    ensures Order(host, size)[0] == host
  {
    var order := Order(host, size);
    forall i | 0 <= i < size
      ensures order[i] == Around(host, size, i)
    {
      SlotIsAround(host, size, i);
    }
    forall k: nat | k < size
      ensures k in order
    {
      var i := if Direction(host) == 1 then (if host <= k then k - host else k - host + size)
               else (if k <= host then host - k else host - k + size);
      assert order[i] == k;
    }
  }

  /**
   * The products the sweeps form stay within a 32-bit `int`, for every start and
   * iteration, exactly up to 46340 runners.
   */
  lemma SlotFitsWord(size: nat)
    requires size > 0
    ensures (forall host: nat, i: nat :: host < size && i < size ==> Offset(host, size, i) < TWO_31)
            <==> size <= 46340
  {
    if size <= 46340 {
      forall host: nat, i: nat | host < size && i < size
        ensures Offset(host, size, i) < TWO_31
      {
        ProductMonotone(i, 46339, Direction(host) + size, 46341);
      }
    } else {
      // An odd start as high as possible, in the last iteration.
      var host := if size % 2 == 0 then size - 1 else size - 2;
      ProductMonotone(46340, size - 1, 46342, Direction(host) + size);
      assert Offset(host, size, size - 1) >= TWO_31;
    }
  }
}
