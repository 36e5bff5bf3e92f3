/**
  What the client-side form checks share: their outcome, and the length
  JavaScript reports for a string.
 */
module Forms {
  /** The first failing check's message, or the request body the form sends. */
  datatype FormCheck<P> = Rejected(message: string) | Accepted(payload: P)

  /** Code units a character takes in UTF-16: two above U+FFFF. */
  function Utf16Units(c: char): (n: nat)
    ensures 1 <= n <= 2
  {
    if c as int > 0xFFFF then 2 else 1
  }

  /** `s.length` in JavaScript, which counts UTF-16 code units. */
  function Utf16Length(s: string): (n: nat)
    ensures |s| <= n <= 2 * |s|
    ensures n == 0 <==> s == []
  {
    if s == [] then 0 else Utf16Units(s[0]) + Utf16Length(s[1..])
  }
}
