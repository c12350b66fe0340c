/** The stored finding of backend/app/models/error.py: its kind, its severity
    and the text columns the checkers fill in. */
module Errors {
  import opened Text

  datatype ErrorType = Spelling | Address | BrokenLink | Seo | Phone

  datatype Severity = Info | Warning | Error | Critical

  /** The string value of each `ErrorType` member. */
  function TypeValue(t: ErrorType): string
  {
    match t
    case Spelling => "spelling"
    case Address => "address"
    case BrokenLink => "broken_link"
    case Seo => "seo"
    case Phone => "phone"
  }

  /** The string value of each `ErrorSeverity` member. */
  function SeverityValue(s: Severity): string
  {
    match s
    case Info => "info"
    case Warning => "warning"
    case Error => "error"
    case Critical => "critical"
  }

  /** `ErrorType(v)`: the member whose value is `v`, or nothing when the
      constructor would raise. */
  function TypeFromValue(v: string): (r: Option<ErrorType>)
    ensures r.Some? ==> TypeValue(r.value) == v
  {
    if v == "spelling" then Some(Spelling)
    else if v == "address" then Some(Address)
    else if v == "broken_link" then Some(BrokenLink)
    else if v == "seo" then Some(Seo)
    else if v == "phone" then Some(Phone)
    else None
  }

  /** `ErrorSeverity(v)`, likewise. */
  function SeverityFromValue(v: string): (r: Option<Severity>)
    ensures r.Some? ==> SeverityValue(r.value) == v
  {
    if v == "info" then Some(Info)
    else if v == "warning" then Some(Warning)
    else if v == "error" then Some(Error)
    else if v == "critical" then Some(Critical)
    else None
  }

  /** Every member is found again from its value, so the values are distinct. */
  lemma TypeValueRoundTrip(t: ErrorType)
    ensures TypeFromValue(TypeValue(t)) == Some(t)
  {
    match t
    case Spelling =>
    case Address => assert "address" != "spelling";
    case BrokenLink => assert "broken_link" != "spelling" && "broken_link" != "address";
    case Seo => assert "seo" != "spelling" && "seo" != "address" && "seo" != "broken_link";
    case Phone =>
      assert "phone" != "spelling" && "phone" != "address" && "phone" != "broken_link" && "phone" != "seo";
  }

  lemma SeverityValueRoundTrip(s: Severity)
    ensures SeverityFromValue(SeverityValue(s)) == Some(s)
  {
    match s
    case Info =>
    case Warning => assert "warning" != "info";
    case Error => assert "error" != "info" && "error" != "warning";
    case Critical => assert "critical" != "info" && "critical" != "warning" && "critical" != "error";
  }

  /** A row of the `errors` table as the scan task creates it; the id, page
      id, line/column numbers and timestamp are not modelled. */
  datatype Finding = Finding(
    kind: ErrorType,
    severity: Severity,
    message: string,
    context: Option<string>,
    suggestion: Option<string>,
    linkUrl: Option<string>,
    linkStatus: Option<int>)
}
