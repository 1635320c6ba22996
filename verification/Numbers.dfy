/** Bounds of two numbers, and units of time in microseconds. */
module Numbers {

  const SECOND := 1_000_000
  const MINUTE := 60 * SECOND
  const DAY := 24 * 60 * MINUTE

  function Min(x: int, y: int): int { if x <= y then x else y }
  function Max(x: int, y: int): int { if x >= y then x else y }

  function MinReal(x: real, y: real): real { if x <= y then x else y }
  function MaxReal(x: real, y: real): real { if x >= y then x else y }
}
