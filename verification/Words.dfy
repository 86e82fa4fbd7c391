/** Machine words, Go's integer conversions and the Option type the models share. */
module Words {

  datatype Option<+T> = None | Some(value: T)

  const TWO_16: int := 0x1_0000
  const TWO_63: int := 0x8000_0000_0000_0000
  const TWO_64: int := 0x1_0000_0000_0000_0000

  type byte = b: int | 0 <= b < 256
  type uint16 = x: int | 0 <= x < TWO_16
  type uint64 = x: int | 0 <= x < TWO_64

  /** Go's `int(x)` for an unsigned 64-bit x on a 64-bit platform: two's complement. */
  function Int64(x: uint64): int {
    if x < TWO_63 then x else x - TWO_64
  }

  /** Unsigned 64-bit addition, which wraps. */
  function Add64(x: uint64, y: int): uint64 {
    (x + y) % TWO_64
  }

  /** Go's integer division truncates toward zero. */
  function Quot(a: int, b: int): int
    requires b > 0
  {
    if a >= 0 then a / b else -((-a) / b)
  }

  function Min(a: int, b: int): int {
    if a <= b then a else b
  }

  function Max(a: int, b: int): int {
    if a >= b then a else b
  }

  ghost predicate Distinct<T>(s: seq<T>) {
    forall i, j | 0 <= i < j < |s| :: s[i] != s[j]
  }

  function Span(st: int, en: int): (s: set<int>)
    ensures forall p :: p in s <==> st <= p <= en
    decreases en - st
  {
    if st > en then {} else Span(st, en - 1) + {en}
  }

  function UpTo(n: nat): (s: seq<nat>)
    ensures |s| == n
  {
    seq(n, i => i)
  }

  function Zeros(n: nat): seq<byte> {
    seq(n, _ => 0)
  }

  /** The concatenation of a sequence of byte strings. */
  function Concat(parts: seq<seq<byte>>): seq<byte> {
    if parts == [] then [] else Concat(parts[..|parts| - 1]) + parts[|parts| - 1]
  }
}
