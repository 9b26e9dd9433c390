/**
  The reservation status whitelist of PUT /reservations/:reservation_id/status. A status
  is accepted only when it is one of the three allowed strings; anything else, including
  a missing status or a non-string JSON value, is rejected before the store is touched.
 */
module Reservations {
  import opened Wrappers
  import opened JsValues

  datatype ReservationStatus = Active | Completed | Cancelled

  /** The string the store holds for a status. */
  function StatusName(st: ReservationStatus): string {
    match st
    case Active => "Active"
    case Completed => "Completed"
    case Cancelled => "Cancelled"
  }

  /** The allowed statuses, in the order the handler lists them. */
  const ValidStatuses: seq<string> := ["Active", "Completed", "Cancelled"]

  /**
    `validStatuses.includes(status)`: the status the request names, if it is allowed.
    `includes` compares strictly, so only a string equal to an allowed name matches.
   */
  function ParseStatus(status: JsValue): (r: Option<ReservationStatus>)
    ensures r.Some? <==> status.Str? && status.s in ValidStatuses
    ensures forall st :: r == Some(st) <==> status == Str(StatusName(st))
  {
    if status == Str("Active") then Some(Active)
    else if status == Str("Completed") then Some(Completed)
    else if status == Str("Cancelled") then Some(Cancelled)
    else None
  }

  /** Every status the store may be asked to write is accepted, and read back as itself. */
  lemma StatusNameRoundTrip(st: ReservationStatus)
    ensures ParseStatus(Str(StatusName(st))) == Some(st)
    ensures StatusName(st) in ValidStatuses
  {
  }

  /** Values the whitelist refuses: another word, a different case, a missing or non-string value. */
  lemma RejectedStatuses()
    ensures ParseStatus(Str("Pending")) == None
    ensures ParseStatus(Str("active")) == None
    ensures ParseStatus(Undefined) == None
    ensures ParseStatus(Num(1)) == None
  {
  }
}
