/** The point search behind a token id (polymarket_bot/conditional_tokens.py): from a seed,
    the next x on the curve y^2 = x^3 + 3, packed with the parity of y into one word. */
module CollectionId {
  import opened Arithmetic

  const FIELD_MODULUS := 21888242871839275222246405745257275088696311157297823662689037894645226208583
  const TWO_254: nat := 0x4000000000000000000000000000000000000000000000000000000000000000
  const TWO_255: nat := 0x8000000000000000000000000000000000000000000000000000000000000000
  const TWO_256: nat := 0x10000000000000000000000000000000000000000000000000000000000000000

  function Pow(b: nat, e: nat): nat {
    if e == 0 then 1 else b * Pow(b, e - 1)
  }

  /** What the search asks of its modulus: Fermat's theorem for the base two included. */
  ghost predicate Modulus(p: nat) {
    4 < p < TWO_254 && p % 4 == 3 && Pow(2, p - 1) % p == 1
  }

  lemma {:induction false} FieldModulusInRange()
    ensures 4 < FIELD_MODULUS < TWO_254 && FIELD_MODULUS % 4 == 3
  {}

  function Curve(p: nat, x: nat): nat
    requires 0 < p
  {
    (Pow(x, 3) % p + 3) % p
  }

  function Root(p: nat, x: nat): nat
    requires 0 < p
  {
    Pow(Curve(p, x), (p + 1) / 4) % p
  }

  /** The candidate root is one. */
  predicate Passes(p: nat, x: nat)
    requires 0 < p
  {
    Pow(Root(p, x), 2) % p == Curve(p, x)
  }

  // ----- The search ends

  lemma {:induction false} PowAdd(b: nat, i: nat, j: nat)
    ensures Pow(b, i + j) == Pow(b, i) * Pow(b, j)
  {
    if i > 0 {
      PowAdd(b, i - 1, j);
      Associate(b, Pow(b, i - 1), Pow(b, j));
    }
  }

  lemma Associate(a: int, b: int, c: int)
    ensures a * (b * c) == (a * b) * c
  {}

  lemma {:induction false} PowFour(k: nat)
    ensures Pow(4, k) == Pow(2, 2 * k)
  {
    if k > 0 {
      PowFour(k - 1);
      assert Pow(2, 2 * k) == 2 * Pow(2, 2 * k - 1);
      assert Pow(2, 2 * k - 1) == 2 * Pow(2, 2 * (k - 1));
    }
  }

  lemma Distribute(a: int, b: int, m: int)
    ensures (a + b) * m == a * m + b * m
  {}

  lemma ModOfSum(a: int, k: int, m: nat)
    requires 0 < m
    ensures (a + k * m) % m == a % m
  {
    var q := a / m;
    Distribute(q, k, m);
    ModUnique(a + k * m, q + k, a % m, m);
  }

  lemma ModOfProduct(a: nat, b: nat, m: nat)
    requires 0 < m
    ensures ((a % m) * (b % m)) % m == (a * b) % m
  {
    var i, j := a / m, b / m;
    var r, s := a % m, b % m;
    assert a == i * m + r && b == j * m + s;
    Expand(i, j, r, s, m);
    ModOfSum(r * s, i * j * m + i * s + j * r, m);
  }

  lemma Expand(i: int, j: int, r: int, s: int, m: int)
    ensures (i * m + r) * (j * m + s) == r * s + (i * j * m + i * s + j * r) * m
  {}

  lemma CurveAtOne(p: nat)
    requires 4 < p
    ensures Curve(p, 1) == 4
  {
    assert Pow(1, 1) == 1 * Pow(1, 0) && Pow(1, 2) == 1 * Pow(1, 1) && Pow(1, 3) == 1 * Pow(1, 2);
  }

  /** The value of the curve at x. */
  lemma CurveExactly(p: nat, x: nat)
    requires 0 < p
    ensures Curve(p, x) == (x * x * x + 3) % p
  {
    Cube(x);
    ModPlus(Pow(x, 3), 3, p);
  }

  lemma ModPlus(a: nat, b: nat, m: nat)
    requires 0 < m
    ensures (a % m + b) % m == (a + b) % m
  {
    var q, r := a / m, a % m;
    assert a + b == r + b + q * m by { assert a == q * m + r; }
    ModOfSum(r + b, q, m);
  }

  lemma {:induction false} Cube(x: nat)
    ensures Pow(x, 3) == x * x * x
  {
    SquareIsPow(x);
    assert Pow(x, 3) == x * Pow(x, 2);
    Associate(x, x, x);
  }

  lemma {:induction false} RootAtOne(p: nat)
    requires 4 < p && p % 4 == 3
    ensures var root := Pow(4, (p + 1) / 4);
            root * root == Pow(2, p - 1) * 4
  {
    var k := (p + 1) / 4;
    assert 4 * k == p + 1;
    PowFour(k);
    PowAdd(2, 2 * k, 2 * k);
    PowAdd(2, p - 1, 2);
    SquareIsPow(2);
  }

  /** The candidate at one always passes: its value on the curve is four, and the square of
      its candidate root is four times a power that is one. */
  lemma {:induction false} OnePasses(p: nat)
    requires Modulus(p)
    ensures Passes(p, 1)
  {
    CurveAtOne(p);
    RootAtOne(p);
    var root, power := Pow(4, (p + 1) / 4), Pow(2, p - 1);
    ModOfProduct(root, root, p);
    ModOfProduct(power, 4, p);
    ModUnique(4, 0, 4, p);
    SquareIsPow(Root(p, 1));
    assert Root(p, 1) == root % p;
    assert ((power % p) * (4 % p)) % p == 4;
  }

  lemma {:induction false} SquareIsPow(r: nat)
    ensures Pow(r, 2) == r * r
  {
    assert Pow(r, 2) == r * Pow(r, 1) && Pow(r, 1) == r * Pow(r, 0);
  }

  /** How many steps from x reach one. */
  function StepsToOne(p: nat, x: nat): (n: nat)
    requires 2 < p
    ensures 1 <= n <= p
  {
    var r := x % p;
    if r == 0 then 1 else p - r + 1
  }

  lemma StepTowardsOne(p: nat, x: nat)
    requires 2 < p
    ensures var next := (x + 1) % p;
            next == 1 || StepsToOne(p, next) == StepsToOne(p, x) - 1
  {
    var q, r := x / p, x % p;
    Distribute(q, 1, p);
    if r + 1 < p {
      ModUnique(x + 1, q, r + 1, p);
    } else {
      ModUnique(x + 1, q + 1, 0, p);
    }
    var next := if r + 1 < p then r + 1 else 0;
    ModUnique(next, 0, next, p);
  }

  // ----- The word

  /** Flips the bit above every x. */
  function Flag(x: nat): (w: nat) {
    if (x / TWO_254) % 2 == 0 then x + TWO_254 else x - TWO_254
  }

  function Pack(x: nat, odd: bool): nat { if odd then Flag(x) else x }

  function Unpack(word: nat): (nat, bool) { (word % TWO_254, word / TWO_254 % 2 == 1) }

  /** A word is the word of one x and one parity. */
  lemma {:induction false} PackedOnce(x: nat, odd: bool, p: nat)
    requires x < p < TWO_254
    ensures Unpack(Pack(x, odd)) == (x, odd) && Pack(x, odd) < TWO_255
  {}

  /** y^2 = x^3 + 3, modulo p. */
  predicate OnCurve(p: nat, x: nat, y: nat)
    requires 0 < p
  {
    (y * y) % p == (x * x * x + 3) % p
  }

  /** Whether (x, y) is the point of a seed: x the first to pass after it, y a root there
      whose parity is the seed's top bit. */
  ghost predicate PointOf(p: nat, seed: nat, x: nat, y: nat)
    requires 0 < p
  {
    && x < p && y <= p && OnCurve(p, x, y)
    && (y % 2 == 1 <==> TWO_255 <= seed)
    && exists n: nat :: 1 <= n <= p && FirstAfter(p, seed, n) && x == (seed + n) % p
  }

  ghost predicate FirstAfter(p: nat, seed: nat, n: nat)
    requires 0 < p
  {
    PassesAt(p, seed, n) && forall j: nat :: 1 <= j < n ==> !PassesAt(p, seed, j)
  }

  predicate PassesAt(p: nat, seed: nat, n: nat)
    requires 0 < p
  {
    Passes(p, (seed + n) % p)
  }

  lemma NegatedRoot(p: nat, y: nat)
    requires 0 < p && y <= p
    ensures Pow(p - y, 2) % p == Pow(y, 2) % p
  {
    SquareIsPow(p - y);
    SquareIsPow(y);
    Opposite(p, y);
    ModOfSum(y * y, p - 2 * y, p);
  }

  lemma Opposite(p: int, y: int)
    ensures (p - y) * (p - y) == y * y + (p - 2 * y) * p
  {}

  lemma NextStep(p: nat, seed: nat, n: nat)
    requires 0 < p
    ensures ((seed + n) % p + 1) % p == (seed + n + 1) % p
  {
    var q := (seed + n) / p;
    assert seed + n == q * p + (seed + n) % p;
    ModOfSum((seed + n) % p + 1, q, p);
  }

  /** The loop of the search: it ends within p steps, since one passes. */
  method SearchPoint(p: nat, seed: nat) returns (x: nat, y: nat, ghost n: nat)
    requires Modulus(p)
    ensures 1 <= n <= p && FirstAfter(p, seed, n) && x == (seed + n) % p
    ensures y == Root(p, x) && x < p && y < p
  {
    x, n := (seed + 1) % p, 1;
    y := Root(p, x);
    OnePasses(p);
    StepTowardsOne(p, seed);
    while Pow(y, 2) % p != Curve(p, x)
      invariant x == (seed + n) % p && y == Root(p, x)
      invariant 1 <= n <= p && forall j: nat :: 1 <= j < n ==> !PassesAt(p, seed, j)
      invariant x == 1 || n + StepsToOne(p, x) <= p
      decreases p - n
    {
      assert x != 1;
      StepTowardsOne(p, x);
      NextStep(p, seed, n);
      x := (x + 1) % p;
      y := Root(p, x);
      n := n + 1;
    }
  }

  lemma SeedsPoint(p: nat, seed: nat, x: nat, root: nat, n: nat, y: nat)
    requires 0 < p && p % 2 == 1 && 1 <= n <= p && FirstAfter(p, seed, n) && x == (seed + n) % p && root == Root(p, x)
    requires y == if (root % 2 == 1) == (TWO_255 <= seed) then root else p - root
    ensures PointOf(p, seed, x, y)
  {
    assert PassesAt(p, seed, n);
    assert root < p;
    NegatedRoot(p, root);
    OtherParity(p, root);
    CurveExactly(p, x);
    SquareIsPow(y);
  }

  lemma OtherParity(p: nat, y: nat)
    requires p % 2 == 1 && y <= p
    ensures (p - y) % 2 != y % 2
  {}

  lemma OddModulus(p: nat)
    requires p % 4 == 3
    ensures p % 2 == 1
  {}

  /** The seed's point, packed. */
  method CollectionIdOf(p: nat, seed: nat) returns (word: nat, ghost y: nat)
    requires Modulus(p) && seed < TWO_256
    ensures word < TWO_255 && PointOf(p, seed, Unpack(word).0, y)
    ensures Unpack(word).1 <==> TWO_255 <= seed
  {
    OddModulus(p);
    var odd := seed / TWO_255 != 0;
    var x, root, n := SearchPoint(p, seed);
    var signed := WithParity(p, root, odd);
    SeedsPoint(p, seed, x, root, n, signed);
    y := signed;
    word := PackPoint(p, x, signed);
  }

  /** The word of a point: x, flagged when y is odd. */
  method PackPoint(p: nat, x: nat, y: nat) returns (word: nat)
    requires x < p < TWO_254
    ensures word < TWO_255 && Unpack(word) == (x, y % 2 == 1)
  {
    word := x;
    if y % 2 == 1 {
      word := Flag(x);
    }
    PackedOnce(x, y % 2 == 1, p);
  }

  /** The one of a root and its opposite that has the parity asked for. */
  method WithParity(p: nat, root: nat, odd: bool) returns (y: nat)
    requires p % 2 == 1 && root <= p
    ensures y == if (root % 2 == 1) == odd then root else p - root
    ensures y % 2 == 1 <==> odd
  {
    OtherParity(p, root);
    y := root;
    if (y % 2 == 0) == odd {
      y := p - y;
    }
  }

  // ----- What it finds

  /** And only an x with a point passes. */
  lemma OnlyPointsPass(p: nat, x: nat)
    requires 0 < p && Passes(p, x)
    ensures OnCurve(p, x, Root(p, x))
  {
    CurveExactly(p, x);
    SquareIsPow(Root(p, x));
  }

  /** Every x with a point passes: where x^3 + 3 is the square of some z that Fermat's
      theorem holds for, the candidate root is one. */
  lemma {:induction false} EveryPointPasses(p: nat, x: nat, z: nat)
    requires Modulus(p) && OnCurve(p, x, z) && Pow(z, p - 1) % p == 1
    ensures Passes(p, x)
  {
    CurveExactly(p, x);
    SquareIsPow(z);
    var k := (p + 1) / 4;
    var c := Curve(p, x);
    assert 4 * k == p + 1;
    PowMod(Pow(z, 2), k, p);
    PowOfPow(z, 2, k);
    assert Root(p, x) == Pow(z, 2 * k) % p;
    ModOfProduct(Pow(z, 2 * k), Pow(z, 2 * k), p);
    PowAdd(z, 2 * k, 2 * k);
    SquareIsPow(Root(p, x));
    PowAdd(z, p - 1, 2);
    ModOfProduct(Pow(z, p - 1), Pow(z, 2), p);
    assert 1 * (Pow(z, 2) % p) == c;
    ModUnique(c, 0, c, p);
  }

  lemma {:induction false} PowMod(b: nat, e: nat, m: nat)
    requires 1 < m
    ensures Pow(b % m, e) % m == Pow(b, e) % m
  {
    if e > 0 {
      PowMod(b, e - 1, m);
      ModOfProduct(b, Pow(b, e - 1), m);
      ModOfProduct(b % m, Pow(b % m, e - 1), m);
      ModUnique(b % m, 0, b % m, m);
    }
  }

  lemma {:induction false} PowOfPow(b: nat, i: nat, k: nat)
    ensures Pow(Pow(b, i), k) == Pow(b, i * k)
  {
    if k > 0 {
      PowOfPow(b, i, k - 1);
      assert i * k == i + i * (k - 1);
      PowAdd(b, i, i * (k - 1));
    }
  }
}
