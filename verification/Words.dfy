// Machine words of the Go program, on Dafny's unbounded integers.
module Words {
  newtype byte = x: int | 0 <= x < 256

  type uint64 = x: int | 0 <= x < 0x1_0000_0000_0000_0000

  // What an atomic.Uint64 holds after its true value has become x: x modulo 2^64 (see WrapIsModulo).
  // The recursion keeps % out of every proof that does not ask for it.
  function Wrap64(x: int): uint64
    decreases if x < 0 then -x else if x < 0x1_0000_0000_0000_0000 then 0 else x
  {
    if x < 0 then Wrap64(x + 0x1_0000_0000_0000_0000)
    else if x < 0x1_0000_0000_0000_0000 then x
    else Wrap64(x - 0x1_0000_0000_0000_0000)
  }

  // What an int64 holds after its true value has become x.
  function WrapSigned64(x: int): int {
    if -0x8000_0000_0000_0000 <= x < 0x8000_0000_0000_0000 then x
    else (x + 0x8000_0000_0000_0000) % 0x1_0000_0000_0000_0000 - 0x8000_0000_0000_0000
  }

  // Go's integer division truncates towards zero; Dafny's rounds down for a positive divisor.
  function Truncate(x: int, divisor: int): int
    requires divisor > 0
  {
    if x >= 0 then x / divisor else -((-x) / divisor)
  }

  lemma {:induction false} WrapIsModulo(x: int)
    ensures Wrap64(x) == x % 0x1_0000_0000_0000_0000
    decreases if x < 0 then -x else if x < 0x1_0000_0000_0000_0000 then 0 else x
  {
    if x < 0 {
      WrapIsModulo(x + 0x1_0000_0000_0000_0000);
    } else if x >= 0x1_0000_0000_0000_0000 {
      WrapIsModulo(x - 0x1_0000_0000_0000_0000);
    }
  }

  lemma WrapAdd(x: int, y: int)
    ensures Wrap64(Wrap64(x) + y) == Wrap64(x + y)
  {
    WrapIsModulo(x);
    WrapIsModulo(Wrap64(x) + y);
    WrapIsModulo(x + y);
  }

  // What is owed to a counter can be moved to the other side.
  lemma WrapBack(counter: uint64, due: nat, x: int)
    requires Wrap64(counter + due) == Wrap64(x)
    ensures counter == Wrap64(x - due)
  {
    WrapAdd(counter + due, -(due as int));
    WrapAdd(x, -(due as int));
  }

  lemma WrapEqual(x: int, y: int)
    ensures Wrap64(x) == Wrap64(y) <==> (x - y) % 0x1_0000_0000_0000_0000 == 0
  {
    WrapIsModulo(x);
    WrapIsModulo(y);
  }

  lemma WrapDistinct(x: int, y: int)
    requires x < y < x + 0x1_0000_0000_0000_0000
    ensures Wrap64(x) != Wrap64(y)
  {
    WrapEqual(x, y);
  }

  lemma WrapSignedRange(x: int)
    ensures -0x8000_0000_0000_0000 <= WrapSigned64(x) < 0x8000_0000_0000_0000
    ensures (WrapSigned64(x) - x) % 0x1_0000_0000_0000_0000 == 0
  {
  }

  lemma WrapSignedAdd(x: int, y: int)
    ensures WrapSigned64(WrapSigned64(x) + y) == WrapSigned64(x + y)
  {
  }
}
