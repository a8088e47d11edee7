/** MIN and MAX (lib/util.h). */
module MinMax {
  function Min(x: int, y: int): int {
    if x < y then x else y
  }

  function Max(x: int, y: int): int {
    if x > y then x else y
  }
}
