/** Vocabulary shared by every app of the backend: optional values, the HTTP
    responses the views return, the request clock and the permission classes. */
module Common {

  datatype Option<+T> = None | Some(value: T)

  /** An HTTP response, reduced to its status code and the text of its
      "message" or "error" entry (for a body that carries data instead, the
      one datum the model keeps). */
  datatype Response = Response(code: nat, message: string)

  const HttpOk: nat := 200
  const HttpCreated: nat := 201
  const HttpNoContent: nat := 204
  const HttpBadRequest: nat := 400
  const HttpUnauthorized: nat := 401
  const HttpForbidden: nat := 403
  const HttpNotFound: nat := 404
  const HttpServerError: nat := 500

  /** What `get_object()` and `get_object_or_404` answer for a missing row. */
  const NotFound: Response := Response(HttpNotFound, "Not found.")

  /** The clock is an input: an instant is a count of seconds, and
      `datetime.now().date()` is the day that instant falls in. */
  const SecondsPerDay: nat := 86400

  function DateOf(instant: int): (day: int)
    ensures day * SecondsPerDay <= instant < (day + 1) * SecondsPerDay
  {
    instant / SecondsPerDay
  }

  /** The permission classes the views name. `AdminUser` and `ManagerUser`
      are the project's own classes (users/permissions.py, not part of this
      model); `StaffUser` is the framework's IsAdminUser, which tests is_staff. */
  datatype Permission =
    | AllowAny
    | IsAuthenticated
    | StaffUser
    | AdminUser
    | ManagerUser

  /** A count as an f-string renders it: decimal digits, no sign, no leading zero. */
  function Decimal(n: nat): (s: string)
    ensures |s| >= 1 && IsDigits(s)
    ensures |s| > 1 ==> s[0] != '0'
  {
    if n < 10 then [DigitChar(n)] else Decimal(n / 10) + [DigitChar(n % 10)]
  }

  function DigitChar(d: nat): (c: char)
    requires d < 10
    ensures '0' <= c <= '9'
  {
    ('0' as int + d) as char
  }

  predicate IsDigits(s: string)
  {
    forall i :: 0 <= i < |s| ==> '0' <= s[i] <= '9'
  }

  /** The number a string of decimal digits denotes. */
  function DecimalValue(s: string): nat
    requires IsDigits(s)
  {
    if s == [] then 0 else DecimalValue(s[..|s| - 1]) * 10 + (s[|s| - 1] as int - '0' as int)
  }

  /** Reading back a rendered count gives the count. */
  lemma {:induction false} DecimalRoundTrip(n: nat)
    ensures DecimalValue(Decimal(n)) == n
  {
    if n >= 10 {
      DecimalRoundTrip(n / 10);
      var s := Decimal(n);
      assert s[..|s| - 1] == Decimal(n / 10);
    }
  }

  /** Python's `int()` applied to a request string, for strings made of an
      optional sign and decimal digits; `None` (the ValueError) otherwise. */
  function ParseInt(s: string): (r: Option<int>)
    ensures r.Some? ==> s != []
    ensures s != [] && IsDigits(s) ==> r == Some(DecimalValue(s))
    ensures |s| >= 2 && s[0] == '-' && IsDigits(s[1..]) ==> r == Some(-(DecimalValue(s[1..]) as int))
    ensures |s| >= 2 && s[0] == '+' && IsDigits(s[1..]) ==> r == Some(DecimalValue(s[1..]))
    ensures r.None? <==> s == [] || (!IsDigits(s) && !(|s| >= 2 && (s[0] == '-' || s[0] == '+') && IsDigits(s[1..])))
  {
    if s == [] then None
    else if IsDigits(s) then Some(DecimalValue(s))
    else if |s| >= 2 && (s[0] == '-' || s[0] == '+') && IsDigits(s[1..]) then
      Some(if s[0] == '-' then -(DecimalValue(s[1..]) as int) else DecimalValue(s[1..]))
    else None
  }

  /** A rendered count parses back to the count. */
  lemma ParseRendered(n: nat)
    ensures ParseInt(Decimal(n)) == Some(n)
  {
    DecimalRoundTrip(n);
  }

  /** A subset has no more elements than the set around it. */
  lemma {:induction false} SubsetNoLarger<T>(a: set<T>, b: set<T>)
    requires a <= b
    ensures |a| <= |b|
  {
    if a != {} {
      var x :| x in a;
      SubsetNoLarger(a - {x}, b - {x});
    }
  }

  /** Python truthiness of an optional string field of a request body:
      missing, null and "" are all false. */
  predicate Present(s: Option<string>)
  {
    s.Some? && s.value != ""
  }
}
