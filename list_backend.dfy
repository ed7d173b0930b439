/** The in-memory backend: an ordered list of customers, seeded with two
    fixed rows, appended to on insert and searched by linear scans. */
module ListBackend {
  import opened Customers

  /** A scan looking for `id` goes on past `c`: `c` has an id, and another one.
      (On a null id the scan throws instead; see `Scan`.) */
  ghost predicate PassesOver(c: Customer, id: int)
  {
    c.id.Some? && c.id.value != id
  }

  /** A scan looking for `id` goes on past each of the first `k` customers. */
  ghost predicate PassesPrefix(s: seq<Customer>, id: int, k: nat)
    requires k <= |s|
  {
    forall j :: 0 <= j < k ==> PassesOver(s[j], id)
  }

  /** Every stored customer has been given an id. */
  ghost predicate IdsPresent(s: seq<Customer>)
  {
    forall k :: 0 <= k < |s| ==> s[k].id.Some?
  }

  /** No two stored customers share an id (customers without one are not compared). */
  ghost predicate UniqueIds(s: seq<Customer>)
  {
    forall i, j :: 0 <= i < j < |s| && s[i].id.Some? ==> s[i].id != s[j].id
  }

  /** The rows the static initializer puts in the list, in order. */
  function Seed(): (r: seq<Customer>)
    ensures IdsPresent(r) && UniqueIds(r)
    ensures forall i, j :: 0 <= i < j < |r| ==> r[i].email != r[j].email
  {
    [Customer(Some(1), "Art", "art@gmail.com", 33), Customer(Some(2), "Mina", "mina@gmail.com", 32)]
  }

  /** `customers.stream().filter(c -> c.getId().equals(id)).findFirst()`:
      the first customer with the id, none, or the exception thrown when a
      null id is reached first. */
  function FindById(s: seq<Customer>, id: int): (r: Scan<Option<Customer>>)
    ensures r == Answer(None) <==> PassesPrefix(s, id, |s|)
    ensures r.Answer? && r.value.Some? ==>
      exists k :: 0 <= k < |s| && PassesPrefix(s, id, k) && s[k] == r.value.value && s[k].id == Some(id)
    ensures r == NullIdFault <==> exists k :: 0 <= k < |s| && PassesPrefix(s, id, k) && s[k].id.None?
  {
    if |s| == 0 then Answer(None)
    else if s[0].id.None? then NullIdFault
    else if s[0].id.value == id then Answer(Some(s[0]))
    else
      var r := FindById(s[1..], id);
      assert forall k :: 0 <= k < |s| - 1 ==> (PassesPrefix(s[1..], id, k) <==> PassesPrefix(s, id, k + 1));
      r
  }

  /** `customers.stream().anyMatch(c -> c.getEmail().equals(email))`. */
  function HasEmail(s: seq<Customer>, email: string): (r: bool)
    ensures r <==> exists k :: 0 <= k < |s| && s[k].email == email
  {
    if |s| == 0 then false
    else s[0].email == email || HasEmail(s[1..], email)
  }

  /** The two kinds of object this component hands to `List.remove(Object)`. */
  datatype JavaObj = CustomerObj(customer: Customer) | OptionalObj(content: Option<Customer>)

  /** `a.equals(b)`: a Customer equals a Customer with the same four fields;
      an Optional equals only an Optional with an equal content. */
  function JavaEquals(a: JavaObj, b: JavaObj): (r: bool)
    ensures r <==> a == b
    ensures a.OptionalObj? && b.CustomerObj? ==> !r
  {
    match a
    case CustomerObj(c) => b.CustomerObj? && b.customer == c
    case OptionalObj(o) => b.OptionalObj? && b.content == o
  }

  /** The index `List.remove(Object o)` removes at: the first element that
      `o` equals, or the length of the list when there is none. */
  function IndexOfEqual(s: seq<Customer>, o: JavaObj): (k: nat)
    ensures k <= |s|
    ensures forall j :: 0 <= j < k ==> !JavaEquals(o, CustomerObj(s[j]))
    ensures k < |s| ==> JavaEquals(o, CustomerObj(s[k]))
  {
    if |s| == 0 then 0
    else if JavaEquals(o, CustomerObj(s[0])) then 0
    else 1 + IndexOfEqual(s[1..], o)
  }

  /** `List.remove(Object o)`: drops the first element that `o` equals, if any. */
  function ListRemove(s: seq<Customer>, o: JavaObj): (r: seq<Customer>)
    ensures (forall k :: 0 <= k < |s| ==> !JavaEquals(o, CustomerObj(s[k]))) <==> r == s
    ensures r != s ==> r == s[..IndexOfEqual(s, o)] + s[IndexOfEqual(s, o) + 1..]
  {
    var k := IndexOfEqual(s, o);
    if k == |s| then s else s[..k] + s[k + 1..]
  }

  /** `deleteCustomer` as written: the `Optional` found by the scan is handed
      to `List.remove`, so no element matches. */
  function DeleteAsWritten(s: seq<Customer>, id: int): (r: Scan<seq<Customer>>)
    ensures r == NullIdFault <==> FindById(s, id) == NullIdFault
    ensures r.Answer? ==> r.value == s
  {
    match FindById(s, id)
    case NullIdFault => NullIdFault
    case Answer(found) => Answer(ListRemove(s, OptionalObj(found)))
  }

  /** `deleteCustomer` as evidently intended: the customer found by the scan,
      when there is one, is what `List.remove` receives. */
  function DeleteIntended(s: seq<Customer>, id: int): (r: Scan<seq<Customer>>)
    ensures r == NullIdFault <==> FindById(s, id) == NullIdFault
    ensures FindById(s, id) == Answer(None) ==> r == Answer(s)
    ensures r.Answer? && FindById(s, id).value.Some? ==> |r.value| == |s| - 1
  {
    match FindById(s, id)
    case NullIdFault => NullIdFault
    case Answer(None) => Answer(s)
    case Answer(Some(c)) => Answer(ListRemove(s, CustomerObj(c)))
  }

  /** The store's `updateCustomer`, which this backend does not define: each
      stored customer carrying the (non-null) id of `c` is replaced by `c`.
      The service only ever passes a record loaded from the store with its
      fields merged, so no field of `c` is null, and for such records
      replacing the whole row and writing only the non-null fields agree. */
  function ReplaceById(s: seq<Customer>, c: Customer): (r: seq<Customer>)
    ensures |r| == |s|
    ensures forall k :: 0 <= k < |s| ==> r[k].id == s[k].id
    ensures forall k :: 0 <= k < |s| ==> r[k] == if c.id.Some? && s[k].id == c.id then c else s[k]
  {
    seq(|s|, k requires 0 <= k < |s| => if c.id.Some? && s[k].id == c.id then c else s[k])
  }

  /** When every stored customer has an id, the scan never throws and finds
      a customer exactly when one with that id is stored. */
  lemma FindWhenIdsPresent(s: seq<Customer>, id: int)
    requires IdsPresent(s)
    ensures FindById(s, id).Answer?
    ensures FindById(s, id).value.Some? <==> exists k :: 0 <= k < |s| && s[k].id == Some(id)
    ensures FindById(s, id).value.Some? ==> FindById(s, id).value.value.id == Some(id)
  {
  }

  /** The seeded list shows it: deleting customer 1 leaves it stored. */
  lemma DeleteAsWrittenOnSeed()
    ensures FindById(Seed(), 1) == Answer(Some(Seed()[0]))
    ensures DeleteAsWritten(Seed(), 1) == Answer(Seed())
  {
  }

  /** The intended delete removes exactly the customer the scan finds, at
      its position, and keeps the others in order. */
  lemma DeleteIntendedRemovesFirstMatch(s: seq<Customer>, id: int)
    requires FindById(s, id).Answer? && FindById(s, id).value.Some?
    ensures exists k :: 0 <= k < |s| && PassesPrefix(s, id, k) && s[k].id == Some(id) &&
                        DeleteIntended(s, id) == Answer(s[..k] + s[k + 1..])
  {
    var c := FindById(s, id).value.value;
    var k :| 0 <= k < |s| && PassesPrefix(s, id, k) && s[k] == c && s[k].id == Some(id);
    var i := IndexOfEqual(s, CustomerObj(c));
    assert i == k;
  }

  /** With ids present and unique, deleting a stored id removes one customer,
      and a later lookup of that id finds nothing. */
  lemma DeleteThenNotFound(s: seq<Customer>, id: int)
    requires IdsPresent(s) && UniqueIds(s)
    requires exists k :: 0 <= k < |s| && s[k].id == Some(id)
    ensures DeleteIntended(s, id).Answer?
    ensures |DeleteIntended(s, id).value| == |s| - 1
    ensures FindById(DeleteIntended(s, id).value, id) == Answer(None)
  {
    FindWhenIdsPresent(s, id);
    DeleteIntendedRemovesFirstMatch(s, id);
    var k :| 0 <= k < |s| && PassesPrefix(s, id, k) && s[k].id == Some(id) &&
      DeleteIntended(s, id) == Answer(s[..k] + s[k + 1..]);
    var t := s[..k] + s[k + 1..];
    forall j | 0 <= j < |t|
      ensures PassesOver(t[j], id)
    {
      if j < k {
        assert t[j] == s[j];
      } else {
        assert t[j] == s[j + 1];
        assert s[k].id != s[j + 1].id;
      }
    }
  }

  /** The list backend. The Java list is a static field shared by every
      instance; here each instance owns its list. */
  class CustomerListDataAccessService {
    var customers: seq<Customer>

    /** The static initializer: the two seeded rows, Art then Mina. */
    constructor ()
      ensures customers == Seed()
    {
      customers := [];
      customers := customers + [Customer(Some(1), "Art", "art@gmail.com", 33)];
      customers := customers + [Customer(Some(2), "Mina", "mina@gmail.com", 32)];
    }

    /** The stored list itself, in insertion order. */
    function SelectAllCustomers(): (r: seq<Customer>)
      reads this
      ensures r == customers
    {
      customers
    }

    function SelectCustomerById(id: int): (r: Scan<Option<Customer>>)
      reads this
      ensures r.Answer? && r.value.Some? ==> r.value.value in customers && r.value.value.id == Some(id)
      ensures r.Answer? && r.value.Some? ==>
                exists k :: 0 <= k < |customers| && PassesPrefix(customers, id, k) && customers[k] == r.value.value
      ensures r == Answer(None) <==> PassesPrefix(customers, id, |customers|)
      ensures r == NullIdFault <==>
        exists k :: 0 <= k < |customers| && PassesPrefix(customers, id, k) && customers[k].id.None?
    {
      FindById(customers, id)
    }

    /** As written, the list never shrinks; the call still scans the list
        and so throws where the scan does. */
    method DeleteCustomer(id: int) returns (r: Scan<()>)
      modifies this
      ensures customers == old(customers)
      ensures r == NullIdFault <==> FindById(old(customers), id) == NullIdFault
    {
      var found := SelectCustomerById(id);
      match found {
        case NullIdFault =>
          r := NullIdFault;
        case Answer(customer) =>
          customers := ListRemove(customers, OptionalObj(customer));
          r := Answer(());
      }
    }

    /** The delete the service relies on: the first customer with the id is
        removed, the others keep their order. */
    method DeleteCustomerIntended(id: int) returns (r: Scan<()>)
      modifies this
      ensures r == NullIdFault <==> FindById(old(customers), id) == NullIdFault
      ensures DeleteIntended(old(customers), id) == (if r.NullIdFault? then NullIdFault else Answer(customers))
      ensures r.NullIdFault? || FindById(old(customers), id) == Answer(None) ==> customers == old(customers)
    {
      var found := SelectCustomerById(id);
      match found {
        case NullIdFault =>
          r := NullIdFault;
        case Answer(None) =>
          r := Answer(());
        case Answer(Some(customer)) =>
          customers := ListRemove(customers, CustomerObj(customer));
          r := Answer(());
      }
    }

    /** `customers.add(customer)`: appends, leaving earlier rows as they were. */
    method InsertCustomer(customer: Customer)
      modifies this
      ensures customers == old(customers) + [customer]
    {
      customers := customers + [customer];
    }

    /** The store's full-record `updateCustomer` (an assumption: this backend
        has none). */
    method UpdateCustomer(customer: Customer)
      modifies this
      ensures customers == ReplaceById(old(customers), customer)
    {
      customers := ReplaceById(customers, customer);
    }

    function ExistsPersonWithEmail(email: string): (r: bool)
      reads this
      ensures r <==> exists k :: 0 <= k < |customers| && customers[k].email == email
    {
      HasEmail(customers, email)
    }

    /** `filter(...).findAny().isPresent()` on a sequential stream: the same
        scan as `SelectCustomerById`, asked only whether it found someone. */
    function ExistsPersonWithId(id: int): (r: Scan<bool>)
      reads this
      ensures r == NullIdFault <==> SelectCustomerById(id) == NullIdFault
      ensures r.Answer? ==> (r.value <==> SelectCustomerById(id).value.Some?)
      ensures IdsPresent(customers) ==>
        r == Answer(exists k :: 0 <= k < |customers| && customers[k].id == Some(id))
    {
      match FindById(customers, id)
      case NullIdFault => NullIdFault
      case Answer(found) =>
        Answer(found.Some?)
    }
  }
}
