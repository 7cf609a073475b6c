/** Byte strings and the two error-carrying results the other modules share. */
module Common {
  type byte = b: int | 0 <= b < 256
  type Bytes = seq<byte>

  const WORD: int := 0x1_0000_0000

  datatype Option<+T> = None | Some(value: T)

  datatype Result<+T, +E> = Ok(value: T) | Err(error: E)

  /** An 8-bit RGBA raster, row-major. */
  datatype Image = Image(w: nat, h: nat, px: Bytes) {
    ghost predicate Valid() { |px| == h * (w * 4) }
  }

  function Min(a: int, b: int): int { if a < b then a else b }

  function Max(a: int, b: int): int { if a < b then b else a }

  function Abs(a: int): int { if a < 0 then -a else a }

  /** Unicode white space. */
  predicate WhiteSpace(r: int) {
    r in {9, 10, 11, 12, 13, 32, 0x85, 0xA0, 0x1680, 0x2028, 0x2029, 0x202F, 0x205F, 0x3000} || 0x2000 <= r <= 0x200A
  }

  /** Concatenation of a list of byte strings, or of lists of anything. */
  function Concat<T>(parts: seq<seq<T>>): seq<T> {
    if parts == [] then [] else parts[0] + Concat(parts[1..])
  }

  lemma Assoc<T>(a: seq<T>, b: seq<T>, c: seq<T>)
    ensures a + (b + c) == (a + b) + c
  {
  }

  lemma {:induction false} ConcatAppend<T>(a: seq<seq<T>>, b: seq<seq<T>>)
    ensures Concat(a + b) == Concat(a) + Concat(b)
  {
    if a == [] {
      assert a + b == b;
    } else {
      ConcatAppend(a[1..], b);
      assert (a + b)[0] == a[0] && (a + b)[1..] == a[1..] + b;
      Assoc(a[0], Concat(a[1..]), Concat(b));
    }
  }

  // ------------------------------------------------------- multiplication and floor

  lemma MulMono(a: int, b: int, c: nat)
    requires a <= b
    ensures a * c <= b * c
  {
    assert (b - a) * c >= 0;
  }

  lemma FloorAtLeast(n: int, d: int, k: int)
    requires d > 0 && k * d <= n
    ensures k <= n / d
  {
    var q := n / d;
    assert n < q * d + d;
    assert q < k ==> (q + 1) * d <= k * d;
  }

  lemma FloorLess(n: int, d: int, k: int)
    requires d > 0 && n < k * d
    ensures n / d < k
  {
    var q := n / d;
    assert q * d <= n;
    assert k <= q ==> k * d <= q * d;
  }

  lemma FloorBetween(n: int, d: int, lo: int, hi: int)
    requires d > 0 && lo * d <= n <= hi * d
    ensures lo <= n / d <= hi
  {
    FloorAtLeast(n, d, lo);
    assert (hi + 1) * d == hi * d + d;
    FloorLess(n, d, hi + 1);
  }
}
