/** Vocabulary shared by every component of the model. */
module Common {

  datatype Option<+T> = None | Some(value: T)

  datatype Result<+T, +E> = Ok(value: T) | Err(error: E)

  /** An unsigned 8-bit value, kept as an integer so that sizes and offsets stay integers too. */
  type byte = x: int | 0 <= x < 256

  /** A run of n zero bytes: what a memset with 0 leaves behind. */
  function Zeros(n: nat): (s: seq<byte>)
    ensures |s| == n
  {
    seq(n, _ => 0)
  }

  /** All the pieces, end to end. */
  function Concat<T>(pieces: seq<seq<T>>): seq<T> {
    if pieces == [] then [] else Concat(pieces[..|pieces| - 1]) + pieces[|pieces| - 1]
  }

  lemma {:induction false} ConcatAppend<T>(a: seq<seq<T>>, b: seq<seq<T>>)
    ensures Concat(a + b) == Concat(a) + Concat(b)
  {
    if b == [] {
      assert a + b == a;
    } else {
      var front, last := b[..|b| - 1], b[|b| - 1];
      assert (a + b)[..|a + b| - 1] == a + front;
      ConcatAppend(a, front);
    }
  }

  lemma ConcatOne<T>(x: seq<T>)
    ensures Concat([x]) == x
  {
    var none: seq<seq<T>> := [x][..0];
    assert Concat(none) == [];
  }

  lemma ConcatCons<T>(x: seq<T>, rest: seq<seq<T>>)
    ensures Concat([x] + rest) == x + Concat(rest)
  {
    ConcatAppend([x], rest);
    ConcatOne(x);
  }

  function Min(a: int, b: int): int { if a <= b then a else b }

  function Max(a: int, b: int): int { if a >= b then a else b }

  /** Euclidean division is the only way to write a as q * d + r with a remainder below d. */
  lemma DivModUnique(a: int, d: int, q: int, r: int)
    requires d > 0 && 0 <= r < d && a == q * d + r
    ensures a / d == q && a % d == r
  {
    var q', r' := a / d, a % d;
    assert a == q' * d + r';
    assert (q - q') * d == r' - r;
    assert (q' - q) * d == r - r';
    if q > q' {
      MulMono(1, q - q', d);
    } else if q < q' {
      MulMono(1, q' - q, d);
    }
  }

  lemma MulMono(a: int, b: int, w: int)
    requires a <= b && 0 <= w
    ensures a * w <= b * w
  {
  }
}
