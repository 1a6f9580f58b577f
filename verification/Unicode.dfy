/** White space as the Go standard library sees it. */
module Unicode {

  /** `unicode.IsSpace` */
  predicate Space(ch: char)
  {
    var n := ch as int;
    9 <= n <= 13 || n == 0x20 || n == 0x85 || n == 0xA0 || n == 0x1680 || 0x2000 <= n <= 0x200A ||
    n == 0x2028 || n == 0x2029 || n == 0x202F || n == 0x205F || n == 0x3000
  }

  /** `strings.TrimSpace` leaves nothing. */
  predicate AllSpace(s: string)
  {
    forall ch :: ch in s ==> Space(ch)
  }
}
