/** The lesser of two numbers, and the decimal numeral of one. */
module Numbers {
  function Min(a: int, b: int): int {
    if a < b then a else b
  }

  function Digits(n: nat): string {
    (if n < 10 then "" else Digits(n / 10)) + [('0' as int + n % 10) as char]
  }
}
