/** The business rules over the customer store: lookup with a not-found
    failure, registration with a unique email, delete of an existing id, and
    the partial-update merge. Failures are result values instead of thrown
    exceptions. */
module Service {
  import opened Customers
  import opened Decimal
  import opened ListBackend

  /** The three failures the service throws, plus the NullPointerException
      that escapes from the list backend's scan over a customer without id. */
  datatype ServiceError = NotFound(id: int) | DuplicateEmail | BadRequest | NullPointer

  /** The message each of the service's own exceptions carries. */
  function Message(e: ServiceError): (m: string)
    requires !e.NullPointer?
    ensures |m| > 0 && m[0] == if e.NotFound? then 'C' else if e.DuplicateEmail? then 'e' else 'n'
    ensures e.NotFound? ==> |m| > 32 && m[18..|m| - 14] == IntToDecimal(e.id)
  {
    match e
    case NotFound(id) => "Customer with ID [" + IntToDecimal(id) + "] is not found"
    case DuplicateEmail => "email already taken"
    case BadRequest => "no data changes found"
  }

  /** The message tells the failures apart, and a not-found message names
      the very id that was asked for. */
  lemma MessageDistinguishes(e1: ServiceError, e2: ServiceError)
    requires !e1.NullPointer? && !e2.NullPointer?
    requires Message(e1) == Message(e2)
    ensures e1 == e2
  {
    var prefix := "Customer with ID [";
    var suffix := "] is not found";
    match e1
    case NotFound(a) =>
      assert Message(e1)[0] == 'C';
      var b := e2.id;
      var m := Message(e1);
      assert m[|prefix|..|m| - |suffix|] == IntToDecimal(a);
      assert m[|prefix|..|m| - |suffix|] == IntToDecimal(b);
      IntToDecimalInjective(a, b);
    case DuplicateEmail =>
      assert Message(e1)[0] == 'e';
    case BadRequest =>
      assert Message(e1)[0] == 'n';
  }

  /** The service-level invariant: no two stored customers share an email. */
  ghost predicate UniqueEmails(s: seq<Customer>)
  {
    forall i, j :: 0 <= i < j < |s| ==> s[i].email != s[j].email
  }

  /** What the service keeps true of the store: unique emails and unique ids. */
  ghost predicate Consistent(s: seq<Customer>)
  {
    UniqueEmails(s) && UniqueIds(s)
  }

  /** The customer a registration creates: no id yet, the request's data. */
  function Registered(req: CustomerRegistrationRequest): (c: Customer)
    ensures c.id.None? && c.name == req.name && c.email == req.email && c.age == req.age
  {
    Customer(None, req.name, req.email, req.age)
  }

  /** The record a partial update leaves: each field given in the request
      replaces the stored one, the id stays. */
  function Merge(current: Customer, req: CustomerUpdateRequest): (r: Customer)
    ensures r.id == current.id
    ensures r.name == if req.name.Some? && req.name.value != current.name then req.name.value else current.name
    ensures r.email == if req.email.Some? && req.email.value != current.email then req.email.value else current.email
    ensures r.age == if req.age.Some? && req.age.value != current.age then req.age.value else current.age
  {
    Customer(current.id, Override(req.name, current.name), Override(req.email, current.email), Override(req.age, current.age))
  }

  /** The outcome of `updateCustomerById` on store `s`: the failure, or the
      record written back. */
  function PlanUpdate(s: seq<Customer>, id: int, req: CustomerUpdateRequest): (r: Result<Customer, ServiceError>)
    ensures r.Ok? ==> r.value.id == Some(id)
    ensures r.Ok? ==> FindById(s, id).Answer? && FindById(s, id).value.Some? &&
                      r.value != FindById(s, id).value.value &&
                      (r.value.email == FindById(s, id).value.value.email || !HasEmail(s, r.value.email))
    ensures r.Err? ==> r.error != NotFound(id) || FindById(s, id) == Answer(None)
  {
    match FindById(s, id)
    case NullIdFault => Err(NullPointer)
    case Answer(None) => Err(NotFound(id))
    case Answer(Some(current)) =>
      var merged := Merge(current, req);
      if merged.email != current.email && HasEmail(s, merged.email) then Err(DuplicateEmail)
      else if merged == current then Err(BadRequest)
      else Ok(merged)
  }

  /** The merge changes nothing exactly when every given field equals the stored one. */
  lemma NoChangeIffNothingDiffers(current: Customer, req: CustomerUpdateRequest)
    ensures Merge(current, req) == current <==>
      (req.name.None? || req.name.value == current.name) &&
      (req.email.None? || req.email.value == current.email) &&
      (req.age.None? || req.age.value == current.age)
  {
  }

  /** A failed lookup decides the update before any other check. */
  lemma UpdateLookupFirst(s: seq<Customer>, id: int, req: CustomerUpdateRequest)
    ensures PlanUpdate(s, id, req) == Err(NotFound(id)) <==> PassesPrefix(s, id, |s|)
    ensures PlanUpdate(s, id, req) == Err(NullPointer) <==>
      exists k :: 0 <= k < |s| && PassesPrefix(s, id, k) && s[k].id.None?
  {
  }

  /** With the stored record found, the update fails with DuplicateEmail
      exactly when it changes the email to one some stored customer has, and
      with BadRequest exactly when it changes no field; in every other case
      it succeeds and writes the merged record. */
  lemma UpdateOutcomeFound(s: seq<Customer>, id: int, req: CustomerUpdateRequest, current: Customer)
    requires FindById(s, id) == Answer(Some(current))
    ensures PlanUpdate(s, id, req) == Err(DuplicateEmail) <==>
      req.email.Some? && req.email.value != current.email &&
      exists k :: 0 <= k < |s| && s[k].email == req.email.value
    ensures PlanUpdate(s, id, req) == Err(BadRequest) <==>
      (req.name.None? || req.name.value == current.name) &&
      (req.email.None? || req.email.value == current.email) &&
      (req.age.None? || req.age.value == current.age)
    ensures PlanUpdate(s, id, req) in {Err(DuplicateEmail), Err(BadRequest), Ok(Merge(current, req))}
  {
    NoChangeIffNothingDiffers(current, req);
  }

  /** Resubmitting the current email never yields DuplicateEmail; with a
      real change to the age the update goes through. */
  lemma SameEmailIsNotDuplicate(s: seq<Customer>, id: int, req: CustomerUpdateRequest, current: Customer)
    requires FindById(s, id) == Answer(Some(current))
    requires req.email == Some(current.email)
    ensures PlanUpdate(s, id, req) != Err(DuplicateEmail)
    ensures req.age.Some? && req.age.value != current.age ==>
      PlanUpdate(s, id, req) == Ok(current.(age := req.age.value, name := Override(req.name, current.name)))
  {
  }

  /** After a successful update, a lookup of the id returns the written record. */
  lemma {:induction false} FindAfterReplace(s: seq<Customer>, id: int, m: Customer)
    requires m.id == Some(id)
    requires FindById(s, id).Answer? && FindById(s, id).value.Some?
    ensures FindById(ReplaceById(s, m), id) == Answer(Some(m))
  {
    if s[0].id == Some(id) {
      assert ReplaceById(s, m)[0] == m;
    } else {
      var t := ReplaceById(s, m);
      assert t[0] == s[0];
      assert t[1..] == ReplaceById(s[1..], m);
      FindAfterReplace(s[1..], id, m);
    }
  }

  lemma UpdateThenGet(s: seq<Customer>, id: int, req: CustomerUpdateRequest)
    ensures PlanUpdate(s, id, req).Ok? ==>
              FindById(ReplaceById(s, PlanUpdate(s, id, req).value), id) == Answer(Some(PlanUpdate(s, id, req).value))
  {
    if PlanUpdate(s, id, req).Ok? {
      var current := FindById(s, id).value.value;
      FindAfterReplace(s, id, Merge(current, req));
    }
  }

  /** Registering a customer whose email is free keeps the invariant. */
  lemma AddKeepsConsistent(s: seq<Customer>, req: CustomerRegistrationRequest)
    requires Consistent(s)
    requires !HasEmail(s, req.email)
    ensures Consistent(s + [Registered(req)])
  {
    var t := s + [Registered(req)];
    forall i, j | 0 <= i < j < |t|
      ensures t[i].email != t[j].email
    {
      if j == |s| {
        assert t[i] == s[i];
      }
    }
  }

  /** A successful update keeps the invariant: the id is kept, and a new
      email was checked free. */
  lemma UpdateKeepsConsistent(s: seq<Customer>, id: int, req: CustomerUpdateRequest)
    requires Consistent(s)
    requires PlanUpdate(s, id, req).Ok?
    ensures Consistent(ReplaceById(s, PlanUpdate(s, id, req).value))
  {
    var current := FindById(s, id).value.value;
    var m := Merge(current, req);
    var k :| 0 <= k < |s| && PassesPrefix(s, id, k) && s[k] == current && s[k].id == Some(id);
    var t := ReplaceById(s, m);
    forall j | 0 <= j < |s| && j != k
      ensures t[j] == s[j]
    {
      if j < k {
        assert s[j].id != s[k].id;
      } else {
        assert s[k].id != s[j].id;
      }
    }
    assert t[k] == m;
    forall i, j | 0 <= i < j < |t|
      ensures t[i].email != t[j].email
    {
      if i == k || j == k {
        var o := if i == k then j else i;
        if m.email == current.email {
          assert s[o].email != s[k].email;
        } else {
          assert !HasEmail(s, m.email);
        }
      }
    }
  }

  /** Removing one element keeps the invariant. */
  lemma RemoveAtKeepsConsistent(s: seq<Customer>, k: nat)
    requires Consistent(s) && k < |s|
    ensures Consistent(s[..k] + s[k + 1..])
  {
    var t := s[..k] + s[k + 1..];
    assert forall i :: 0 <= i < |t| ==> t[i] == s[if i < k then i else i + 1];
  }

  /** Deleting keeps the invariant: the rest of the list stays as it was. */
  lemma DeleteKeepsConsistent(s: seq<Customer>, id: int)
    requires Consistent(s)
    ensures DeleteIntended(s, id).Answer? ==> Consistent(DeleteIntended(s, id).value)
  {
    if FindById(s, id).Answer? && FindById(s, id).value.Some? {
      DeleteIntendedRemovesFirstMatch(s, id);
      var k :| 0 <= k < |s| && PassesPrefix(s, id, k) && s[k].id == Some(id) &&
        DeleteIntended(s, id) == Answer(s[..k] + s[k + 1..]);
      RemoveAtKeepsConsistent(s, k);
    }
  }

  /** Updating Art's age on the seeded store writes Art with age 40. */
  lemma AgeUpdateOnSeed()
    ensures PlanUpdate(Seed(), 1, CustomerUpdateRequest(None, None, None, Some(40)))
         == Ok(Customer(Some(1), "Art", "art@gmail.com", 40))
  {
  }

  /** The service, wired to the list backend. */
  class CustomerService {
    const dao: CustomerListDataAccessService

    constructor (dao: CustomerListDataAccessService)
      ensures this.dao == dao
    {
      this.dao := dao;
    }

    /** The backend's whole list, in its order; there is no failure path. */
    function GetAllCustomers(): (r: seq<Customer>)
      reads dao
      ensures r == dao.customers
    {
      dao.SelectAllCustomers()
    }

    function GetCustomer(id: int): (r: Result<Customer, ServiceError>)
      reads dao
      ensures r.Ok? ==> r.value in dao.customers && r.value.id == Some(id)
      ensures r == Err(NotFound(id)) <==> PassesPrefix(dao.customers, id, |dao.customers|)
      ensures r.Err? ==> r.error == NotFound(id) || r.error == NullPointer
      ensures r == Err(NullPointer) <==> FindById(dao.customers, id) == NullIdFault
      ensures r.Ok? ==> FindById(dao.customers, id) == Answer(Some(r.value))
      ensures IdsPresent(dao.customers) ==>
        (r.Ok? <==> exists k :: 0 <= k < |dao.customers| && dao.customers[k].id == Some(id))
    {
      match dao.SelectCustomerById(id)
      case NullIdFault => Err(NullPointer)
      case Answer(None) => Err(NotFound(id))
      case Answer(Some(c)) => Ok(c)
    }

    method AddCustomer(req: CustomerRegistrationRequest) returns (r: Result<(), ServiceError>)
      modifies dao
      ensures HasEmail(old(dao.customers), req.email) ==>
        r == Err(DuplicateEmail) && dao.customers == old(dao.customers)
      ensures !HasEmail(old(dao.customers), req.email) ==>
        r == Ok(()) && dao.customers == old(dao.customers) + [Registered(req)]
      ensures Consistent(old(dao.customers)) ==> Consistent(dao.customers)
    {
      if dao.ExistsPersonWithEmail(req.email) {
        return Err(DuplicateEmail);
      }
      var customer := Customer(None, req.name, req.email, req.age);
      if Consistent(dao.customers) {
        AddKeepsConsistent(dao.customers, req);
      }
      dao.InsertCustomer(customer);
      r := Ok(());
    }

    method DeleteCustomerById(id: int) returns (r: Result<(), ServiceError>)
      modifies dao
      ensures r == Err(NotFound(id)) <==> PassesPrefix(old(dao.customers), id, |old(dao.customers)|)
      ensures r == Err(NullPointer) <==> FindById(old(dao.customers), id) == NullIdFault
      ensures r.Err? ==> r.error == NotFound(id) || r.error == NullPointer
      ensures r.Err? ==> dao.customers == old(dao.customers)
      ensures r.Ok? ==> DeleteIntended(old(dao.customers), id) == Answer(dao.customers)
      ensures r.Ok? ==>
                exists k :: 0 <= k < |old(dao.customers)| && old(dao.customers)[k].id == Some(id) &&
                            PassesPrefix(old(dao.customers), id, k) && dao.customers == old(dao.customers)[..k] + old(dao.customers)[k + 1..]
      ensures Consistent(old(dao.customers)) ==> Consistent(dao.customers)
    {
      match dao.ExistsPersonWithId(id) {
        case NullIdFault =>
          r := Err(NullPointer);
        case Answer(true) =>
          ghost var before := dao.customers;
          DeleteIntendedRemovesFirstMatch(before, id);
          if Consistent(before) {
            DeleteKeepsConsistent(before, id);
          }
          var _ := dao.DeleteCustomerIntended(id);
          r := Ok(());
        case Answer(false) =>
          r := Err(NotFound(id));
      }
    }

    /** Loads the record, applies each given field that differs, re-checks a
        changed email, refuses an update that changes nothing, and writes
        the whole record back once. */
    method UpdateCustomerById(id: int, req: CustomerUpdateRequest) returns (r: Result<(), ServiceError>)
      modifies dao
      ensures PlanUpdate(old(dao.customers), id, req).Err? ==>
        r == Err(PlanUpdate(old(dao.customers), id, req).error) && dao.customers == old(dao.customers)
      ensures PlanUpdate(old(dao.customers), id, req).Ok? ==>
        r == Ok(()) && dao.customers == ReplaceById(old(dao.customers), PlanUpdate(old(dao.customers), id, req).value)
      ensures Consistent(old(dao.customers)) ==> Consistent(dao.customers)
    {
      var loaded := GetCustomer(id);
      if loaded.Err? {
        return Err(loaded.error);
      }
      var customerData := loaded.value;
      ghost var current := customerData;
      var isChanged := false;

      if req.name.Some? && req.name.value != customerData.name {
        customerData := customerData.(name := req.name.value);
        isChanged := true;
      }

      if req.email.Some? && req.email.value != customerData.email {
        if dao.ExistsPersonWithEmail(req.email.value) {
          return Err(DuplicateEmail);
        }
        customerData := customerData.(email := req.email.value);
        isChanged := true;
      }

      if req.age.Some? && req.age.value != customerData.age {
        customerData := customerData.(age := req.age.value);
        isChanged := true;
      }

      assert customerData == Merge(current, req);
      if !isChanged {
        return Err(BadRequest);
      }

      if Consistent(dao.customers) {
        UpdateKeepsConsistent(dao.customers, id, req);
      }
      dao.UpdateCustomer(customerData);
      r := Ok(());
    }
  }
}
