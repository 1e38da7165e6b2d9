/** Shared vocabulary: optional values, instants, and a few sequence facts. */
module Common {
  datatype Option<+T> = None | Some(value: T)

  /** Instants count nanoseconds. Differences of instants are durations. */
  type Instant = int

  const NANOS_PER_SEC: int := 1_000_000_000

  /** `DateTime::timestamp()`: the whole seconds of an instant, rounded down. */
  function WholeSecs(t: Instant): int {
    t / NANOS_PER_SEC
  }

  function Seconds(n: int): int {
    n * NANOS_PER_SEC
  }

  /** `Duration::num_seconds()`: whole seconds of a duration, rounded towards zero. */
  function NumSeconds(d: int): int {
    if d >= 0 then d / NANOS_PER_SEC else -((-d) / NANOS_PER_SEC)
  }

  function Max(a: int, b: int): int {
    if a >= b then a else b
  }

  function Min(a: int, b: int): int {
    if a <= b then a else b
  }

  function Pow2(n: nat): (p: nat)
    ensures p >= 1
  {
    if n == 0 then 1 else 2 * Pow2(n - 1)
  }

  lemma {:induction false} Pow2Adds(m: nat, n: nat)
    ensures Pow2(m + n) == Pow2(m) * Pow2(n)
  {
    if m > 0 {
      Pow2Adds(m - 1, n);
      assert Pow2(m) * Pow2(n) == 2 * (Pow2(m - 1) * Pow2(n));
    }
  }

  lemma {:induction false} AtLeast(b: nat, x: nat)
    requires x >= 1
    ensures b * x >= b
  {
    if x > 1 {
      AtLeast(b, x - 1);
    }
  }

  lemma QuotientIsUnique(b: nat, q: int, r: nat, q': int, r': nat)
    requires b * q + r == b * q' + r' && r < b && r' < b
    ensures q == q'
  {
    assert b * (q - q') == r' - r && b * (q' - q) == r - r';
    if q > q' {
      AtLeast(b, q - q');
    } else if q' > q {
      AtLeast(b, q' - q);
    }
  }

  lemma DivideIs(a: nat, b: nat, q: nat, r: nat)
    requires a == b * q + r && r < b
    ensures a / b == q
  {
    QuotientIsUnique(b, q, r, a / b, a % b);
  }

  lemma DivideTwice(a: nat, b: nat)
    requires b >= 1
    ensures a / (2 * b) == a / b / 2
  {
    var q, r := a / b, a % b;
    var half, odd := q / 2, q % 2;
    assert b * q == b * (2 * half) + b * odd;
    assert b * (2 * half) == (2 * b) * half;
    assert b * odd == if odd == 0 then 0 else b;
    DivideIs(a, 2 * b, half, b * odd + r);
  }

  /** An arbitrary element, as an unordered iteration yields it. */
  method Take<T(==)>(s: set<T>) returns (x: T)
    requires s != {}
    ensures x in s
  {
    x :| x in s;
  }

  ghost function Pick<T>(s: set<T>): (x: T)
    requires s != {}
    ensures x in s
  {
    var x :| x in s; x
  }

  ghost predicate Distinct<T>(s: seq<T>) {
    forall i, j | 0 <= i < j < |s| :: s[i] != s[j]
  }

  lemma {:induction false} SubsetSize<T>(a: set<T>, b: set<T>)
    requires a <= b
    ensures |a| <= |b|
  {
    if a != {} {
      var x := Pick(a);
      SubsetSize(a - {x}, b - {x});
    }
  }
}
