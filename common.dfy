/** Failure-carrying results shared by every component.
    The services report failures by raising HTTP exceptions (a status code
    and a detail message) or, in request validators, a `ValueError`;
    both become the `Err` side of `Result`. */
module Common {

  datatype Option<T> = None | Some(value: T)
  {
    function GetOr(default: T): T
    {
      match this
      case Some(v) => v
      case None => default
    }
  }

  /** An HTTP exception raised by a service, or a validation error
      raised by a request validator. */
  datatype Error =
    | Http(status: nat, detail: string)
    | Validation(message: string)

  datatype Result<T> = Ok(value: T) | Err(error: Error)

  const BadRequest: nat := 400
  const Unauthorized: nat := 401
  const Forbidden: nat := 403
  const NotFound: nat := 404
  const Conflict: nat := 409

  predicate IsDigits(s: string)
  {
    forall i :: 0 <= i < |s| ==> '0' <= s[i] <= '9'
  }

  /** The number a string of decimal digits denotes (Horner's rule). */
  function DecimalValue(s: string): nat
    requires IsDigits(s)
  {
    if s == [] then 0
    else DecimalValue(s[..|s| - 1]) * 10 + (s[|s| - 1] as int - '0' as int)
  }

  /** Decimal digits of a natural number, as `str` writes them: they
      denote `n`, and only 0 itself starts with a zero. */
  function NatToDecimal(n: nat): (s: string)
    ensures |s| >= 1 && IsDigits(s)
    ensures DecimalValue(s) == n
    ensures s[0] == '0' <==> n == 0
    decreases n
  {
    var d := ['0' + (n % 10) as char];
    if n < 10 then d
    else
      var s := NatToDecimal(n / 10) + d;
      assert s[..|s| - 1] == NatToDecimal(n / 10);
      s
  }

  /** Different numbers have different decimal texts. */
  lemma NatToDecimalInjective(a: nat, b: nat)
    requires NatToDecimal(a) == NatToDecimal(b)
    ensures a == b
  {
    assert DecimalValue(NatToDecimal(a)) == a;
  }

  /** Python's `str` of an integer. */
  function IntToDecimal(x: int): string
  {
    if x < 0 then "-" + NatToDecimal(-x) else NatToDecimal(x)
  }
}
