/** Unsigned 32-bit arithmetic that stops at its ends (lib/sat-math.h). */
module SatMath {
  const UINT_MAX: nat := 0xffff_ffff

  function SatAdd(x: nat, y: nat): nat {
    if x + y <= UINT_MAX then x + y else UINT_MAX
  }

  function SatSub(x: nat, y: nat): nat {
    if x >= y then x - y else 0
  }

  function SatMul(x: nat, y: nat): nat {
    if y == 0 then 0 else if x <= UINT_MAX / y then x * y else UINT_MAX
  }
}
