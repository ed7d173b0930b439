/** The value types of the customer component: the stored record, the two
    request records, and the result shapes that replace Java's null,
    Optional and exceptions. */
module Customers {

  /** A nullable Java reference (or an Optional): absent or present. */
  datatype Option<+T> = None | Some(value: T)

  /** The outcome of a service call: its value, or the failure it throws. */
  datatype Result<+T, +E> = Ok(value: T) | Err(error: E)

  /** The outcome of a linear scan of the in-memory list. The list backend
      compares ids with `c.getId().equals(id)`, which throws a
      NullPointerException when the scan reaches a stored customer whose id
      is null before it has found its answer; `NullIdFault` is that throw. */
  datatype Scan<+T> = Answer(value: T) | NullIdFault

  /** The Customer entity; `id` is null until a backend assigns one.
      Equality is structural over all four fields. */
  datatype Customer = Customer(id: Option<int>, name: string, email: string, age: int)

  /** Input of registration: no identity, only the three data fields. */
  datatype CustomerRegistrationRequest = CustomerRegistrationRequest(name: string, email: string, age: int)

  /** Input of a partial update. A null field means "leave unchanged". The
      `id` component is carried but never read by the service. */
  datatype CustomerUpdateRequest = CustomerUpdateRequest(
    id: Option<int>, name: Option<string>, email: Option<string>, age: Option<int>)

  /** The value a request field leaves in place: the request's value when it
      is given, otherwise the current one. */
  function Override<T>(given: Option<T>, current: T): (r: T)
    ensures given.None? ==> r == current
    ensures given.Some? ==> r == given.value
  {
    match given
    case Some(v) => v
    case None => current
  }
}
