/** Small types shared by the modules of this project. */
module Common {
  datatype Option<+T> = None | Some(value: T)

  /** One octet of a wire format. */
  type Byte = b: int | 0 <= b < 256

  /** A 16-bit wrapping counter. */
  type Word = w: int | 0 <= w < 0x1_0000

  function Min(a: int, b: int): int { if a <= b then a else b }

  function Max(a: int, b: int): int { if a <= b then b else a }

  function Abs(x: int): nat { if x >= 0 then x else -x }

  /** CLAMP of the C sources. */
  function Clamp(x: int, low: int, high: int): int
    requires low <= high
  {
    Max(low, Min(x, high))
  }

  /** C division: the quotient is truncated toward zero. */
  function TruncDiv(a: int, b: int): int
    requires b > 0
  {
    if a >= 0 then a / b else -((-a) / b)
  }

  /** C remainder: it takes the sign of the dividend. */
  function TruncMod(a: int, b: int): int
    requires b > 0
  {
    a - b * TruncDiv(a, b)
  }

  /** Index of the k-th element of a sixteen-entry ring that starts at `head`. */
  function Ring16(head: nat, k: nat): (i: nat)
    ensures i < 16
  {
    (head + k) % 16
  }

  lemma Ring16Distinct(head: nat, j: nat, k: nat)
    requires j < k < j + 16
    ensures Ring16(head, j) != Ring16(head, k)
  {
  }

  lemma WrapThenAdd(a: nat, k: nat)
    ensures (a % 16 + k) % 16 == (a + k) % 16
  {
    var rest, turns := a % 16, a / 16;
    assert a + k == rest + k + 16 * turns;
  }

  lemma Ring16Step(head: nat, k: nat)
    ensures Ring16((head + 1) % 16, k) == Ring16(head, k + 1)
    ensures (Ring16(head, k) + 1) % 16 == Ring16(head, k + 1)
    ensures head < 16 ==> Ring16(head, 0) == head
  {
    WrapThenAdd(head + 1, k);
    WrapThenAdd(head + k, 1);
  }

  /** A subset is no larger. */
  lemma {:induction false} SubsetSize<T>(small: set<T>, large: set<T>)
    requires small <= large
    ensures |small| <= |large|
  {
    if small != {} {
      var x :| x in small;
      SubsetSize(small - {x}, large - {x});
    }
  }
}
