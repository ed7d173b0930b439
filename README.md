# Customer records: service rules over an in-memory store

This project models the customer-record core of a Spring Boot CRUD example
in Dafny:

- `CustomerService` holds the business rules over a customer store.
  - A lookup of an absent id fails with NotFound, whose message is
    `Customer with ID [<id>] is not found`.
  - A registration whose email is already stored fails with DuplicateEmail
    (`email already taken`). Otherwise one customer without an id is appended.
  - A delete goes to the store only when the id exists. Otherwise it fails
    with NotFound.
  - `updateCustomerById` is a partial-update merge. It loads the record and
    applies each non-null field that differs from the stored one. A changed
    email is re-checked for uniqueness. An update that changes nothing fails
    with BadRequest (`no data changes found`). Otherwise the whole record is
    written back once.
- `CustomerListDataAccessService` is the in-memory store: an ordered list
  seeded with Art (id 1) and Mina (id 2). It appends on insert and answers
  lookups and existence checks with linear scans.

Modules:

- `Customers` (customer.dfy): the `Customer` record, the registration and
  update requests, and the `Option`, `Result` and `Scan` shapes.
  - `Option` stands for Java's `null` and `Optional`.
  - `Result` stands for a service call's value or the exception it throws.
  - `Scan` stands for a list scan's answer, or the NullPointerException that
    `c.getId().equals(id)` throws when the scan reaches a stored customer
    whose id is null.
- `Decimal` (decimal.dfy): how `Integer.toString` renders the id in the
  not-found message, with the parser that inverts it.
- `ListBackend` (list_backend.dfy): the class `CustomerListDataAccessService`.
  - It holds `customers: seq<Customer>`. Insert and delete reassign it.
  - The stream queries are functions over the list.
  - The pure functions `FindById`, `HasEmail` and `ListRemove` specify what
    those queries and `List.remove` do.
- `Service` (service.dfy): the class `CustomerService` over a list store.
  - `PlanUpdate` specifies the outcome of an update declaratively.
  - The imperative `UpdateCustomerById` sets fields one by one and threads an
    `isChanged` flag. It is proved equal to `PlanUpdate`.
  - Every service method is proved to preserve `Consistent`: emails are
    unique, and so are the ids that are present.

Assumptions, and behaviour of the code that the model keeps:

- The list backend defines no `updateCustomer`. The service calls the store's
  `updateCustomer` with the full merged record. It is modelled as "replace
  each stored customer that has this (non-null) id by the given record". This
  is an assumption of the model. The SQL store's update writes only the
  non-null fields of the record it is given. The service always passes a
  record loaded from the store with its fields merged, so no field is null.
  For such records the two behaviours agree.
- The list backend assigns no id on insert. `insertCustomer` stores the id-less customer that `addCustomer` builds.
  After that, any scan that reaches that customer before finding its answer
  throws. The model returns this as `NullIdFault` / `NullPointer`.
  `deleteCustomer` never removes anything (see Findings).
- `existsPersonWithID` uses `findAny()` on a sequential stream. That is the
  same scan as `findFirst()`, so it throws in exactly the same cases.
- In `updateCustomerById`, an email equal to the stored one is never
  re-checked for uniqueness, so a record is never rejected because of its own
  email (`SameEmailIsNotDuplicate`).

## Model

| member | source | states |
|---|---|---|
| `ListBackend.Seed` | src/main/java/com/artchristian/customer/CustomerListDataAccessService.java:51-67 | the seeded rows all carry ids, their ids are distinct and their emails are distinct |
| `ListBackend.CustomerListDataAccessService.constructor` | src/main/java/com/artchristian/customer/CustomerListDataAccessService.java:51-67 | the list starts as exactly [Art (1, art@gmail.com, 33), Mina (2, mina@gmail.com, 32)], in that order |
| `ListBackend.CustomerListDataAccessService.SelectAllCustomers` | src/main/java/com/artchristian/customer/CustomerListDataAccessService.java:13-16 | returns the stored list itself, in insertion order, and reads the store without changing it |
| `ListBackend.FindById` | src/main/java/com/artchristian/customer/CustomerListDataAccessService.java:18-23 | there are three outcomes. (1) The first customer with the id, every earlier one having another, non-null id. (2) Empty, exactly when every customer has another, non-null id. (3) A NullPointerException, exactly when a null-id customer is reached before any match |
| `ListBackend.CustomerListDataAccessService.SelectCustomerById` | src/main/java/com/artchristian/customer/CustomerListDataAccessService.java:18-23 | a found customer is stored, has the asked id, and sits at the first position whose id matches, every earlier customer having another, non-null id; empty and exception exactly as the scan above |
| `ListBackend.FindWhenIdsPresent` | src/main/java/com/artchristian/customer/CustomerListDataAccessService.java:18-23 | when every stored customer has an id, the lookup never throws and finds a customer iff one with that id is stored, and what it finds has that id |
| `ListBackend.CustomerListDataAccessService.InsertCustomer` | src/main/java/com/artchristian/customer/CustomerListDataAccessService.java:33-36 | appends: the list grows by one, the last element is the argument, the earlier elements are unchanged |
| `ListBackend.HasEmail` | src/main/java/com/artchristian/customer/CustomerListDataAccessService.java:38-42 | true iff some stored customer has exactly this email |
| `ListBackend.CustomerListDataAccessService.ExistsPersonWithEmail` | src/main/java/com/artchristian/customer/CustomerListDataAccessService.java:38-42 | true iff some element of the store's list has exactly this email |
| `ListBackend.CustomerListDataAccessService.ExistsPersonWithId` | src/main/java/com/artchristian/customer/CustomerListDataAccessService.java:44-48 | throws exactly when `SelectCustomerById` throws, and otherwise answers whether it finds a customer. With all ids present, it is true iff some stored customer has the id |
| `ListBackend.JavaEquals` | src/main/java/com/artchristian/customer/CustomerListDataAccessService.java:30 | `equals` between the two kinds of object `remove` can see holds exactly for equal objects, so an `Optional` never equals a `Customer` |
| `ListBackend.IndexOfEqual` | src/main/java/com/artchristian/customer/CustomerListDataAccessService.java:30 | the position `List.remove(o)` removes at: no earlier element equals `o`, the one there does, or it is the length when none does |
| `ListBackend.ListRemove` | src/main/java/com/artchristian/customer/CustomerListDataAccessService.java:30 | the list is unchanged iff no element equals the argument; otherwise exactly the first equal element goes and the others keep their order |
| `ListBackend.DeleteAsWritten` | src/main/java/com/artchristian/customer/CustomerListDataAccessService.java:25-31 | the delete as written throws exactly when its lookup scan throws, and otherwise leaves the list unchanged for every list and id: the `Optional` handed to `List.remove` equals no element |
| `ListBackend.DeleteAsWrittenOnSeed` | src/main/java/com/artchristian/customer/CustomerListDataAccessService.java:25-31 | on the seeded list, id 1 is found, and deleting it leaves the list as it was |
| `ListBackend.CustomerListDataAccessService.DeleteCustomer` | src/main/java/com/artchristian/customer/CustomerListDataAccessService.java:25-31 | the list is unchanged whatever the id; the call throws exactly when the lookup scan does |
| `ListBackend.DeleteIntended` | src/main/java/com/artchristian/customer/CustomerListDataAccessService.java:25-31 | the corrected delete throws exactly when its lookup scan throws; it leaves the list unchanged when the scan passes every customer (each has another, non-null id), and otherwise removes exactly one |
| `ListBackend.DeleteIntendedRemovesFirstMatch` | src/main/java/com/artchristian/customer/CustomerListDataAccessService.java:25-31 | when the lookup finds a customer, the corrected delete removes exactly the element at the first matching position and keeps the rest in order |
| `ListBackend.CustomerListDataAccessService.DeleteCustomerIntended` | src/main/java/com/artchristian/customer/CustomerListDataAccessService.java:25-31 | the new list is the corrected delete of the old one; a missing id or a throwing scan leaves it unchanged |
| `ListBackend.DeleteThenNotFound` | src/main/java/com/artchristian/customer/CustomerListDataAccessService.java:25-31 | with ids present and unique, deleting a stored id removes one customer, and a later lookup of the id finds nothing |
| `ListBackend.ReplaceById` | src/main/java/com/artchristian/customer/CustomerService.java:85 | the store's assumed `updateCustomer`: same length, ids kept at every position, and each customer with the record's non-null id replaced by the record |
| `ListBackend.CustomerListDataAccessService.UpdateCustomer` | src/main/java/com/artchristian/customer/CustomerService.java:85 | the new list is the old one with each customer carrying the record's non-null id replaced by the record, all others unchanged |
| `Decimal.NatToDecimal` | src/main/java/com/artchristian/customer/CustomerService.java:29 | decimal digits only, at least one, no leading zero |
| `Decimal.IntToDecimal` | src/main/java/com/artchristian/customer/CustomerService.java:29 | the text starts with a minus sign iff the id is negative |
| `Decimal.NatRoundTrip` | src/main/java/com/artchristian/customer/CustomerService.java:29 | parsing the rendered digits gives back the number |
| `Decimal.IntRoundTrip` | src/main/java/com/artchristian/customer/CustomerService.java:29 | parsing the rendered id gives back the id, negative ids included |
| `Decimal.IntToDecimalInjective` | src/main/java/com/artchristian/customer/CustomerService.java:29 | distinct ids are rendered as distinct texts |
| `Service.Message` | src/main/java/com/artchristian/customer/CustomerService.java:25-83 | each failure's message starts with its own letter, and a not-found message carries the decimal rendering of the id between its fixed prefix and suffix |
| `Service.MessageDistinguishes` | src/main/java/com/artchristian/customer/CustomerService.java:25-83 | the three messages tell the failures apart, and two not-found messages are equal only for the same id |
| `Service.CustomerService.constructor` | src/main/java/com/artchristian/customer/CustomerService.java:17-19 | the service delegates to the store it is given |
| `Service.CustomerService.GetAllCustomers` | src/main/java/com/artchristian/customer/CustomerService.java:21-23 | returns the store's whole list, in its order, with no failure path |
| `Service.CustomerService.GetCustomer` | src/main/java/com/artchristian/customer/CustomerService.java:25-30 | there are three outcomes. (1) The customer the lookup scan finds first for the asked id, which is stored and carries that id. (2) NotFound(id), exactly when the scan passes every customer. (3) NullPointer, exactly when the scan throws. No other failure. With all ids present, it succeeds iff the id is stored |
| `Service.Registered` | src/main/java/com/artchristian/customer/CustomerService.java:39-43 | the customer a registration builds has no id and the request's name, email and age |
| `Service.CustomerService.AddCustomer` | src/main/java/com/artchristian/customer/CustomerService.java:32-45 | a stored email gives DuplicateEmail and leaves the store unchanged. Otherwise exactly one id-less customer with the request's data is appended. Unique emails and ids are preserved |
| `Service.AddKeepsConsistent` | src/main/java/com/artchristian/customer/CustomerService.java:35-44 | appending the registered customer when its email is free keeps emails and ids unique |
| `Service.CustomerService.DeleteCustomerById` | src/main/java/com/artchristian/customer/CustomerService.java:47-54 | there are three outcomes. (1) NotFound exactly when the existence scan passes every customer, each having another, non-null id. (2) NullPointer exactly when the existence scan throws. Both leave the store unchanged, and no other failure occurs. (3) Otherwise the call succeeds, and the first customer with the id is removed and the rest keep their order. The invariant is preserved |
| `Service.RemoveAtKeepsConsistent` | src/main/java/com/artchristian/customer/CustomerListDataAccessService.java:25-31 | removing any one element keeps emails and ids unique |
| `Service.DeleteKeepsConsistent` | src/main/java/com/artchristian/customer/CustomerService.java:47-54 | deleting keeps emails and ids unique |
| `Service.PlanUpdate` | src/main/java/com/artchristian/customer/CustomerService.java:56-86 | a planned write carries the asked id, differs from the record the lookup found, and has either that record's email or one no stored customer has; NotFound(id) only when the lookup finds nothing |
| `Service.Merge` | src/main/java/com/artchristian/customer/CustomerService.java:62-79 | the id is kept. Each of name, email and age is the request's value when that is non-null and differs from the stored one, and the stored value otherwise |
| `Service.NoChangeIffNothingDiffers` | src/main/java/com/artchristian/customer/CustomerService.java:60-83 | the merge leaves the record as it was iff every request field is null or equal to the stored value, i.e. iff `isChanged` stays false |
| `Service.UpdateLookupFirst` | src/main/java/com/artchristian/customer/CustomerService.java:58 | the update fails with NotFound exactly when the lookup finds nothing, and with NullPointer exactly when the lookup throws. No later check can produce either |
| `Service.UpdateOutcomeFound` | src/main/java/com/artchristian/customer/CustomerService.java:62-85 | once the record is found, the outcome is DuplicateEmail, BadRequest or success with the merged record, and nothing else. DuplicateEmail iff the request changes the email to one already stored; BadRequest iff no field differs. So an update that changes some field, with the email unchanged or free, succeeds |
| `Service.SameEmailIsNotDuplicate` | src/main/java/com/artchristian/customer/CustomerService.java:67-71 | resubmitting the stored email never gives DuplicateEmail. Together with a real age change the update succeeds with the new age |
| `Service.CustomerService.UpdateCustomerById` | src/main/java/com/artchristian/customer/CustomerService.java:56-86 | a failure leaves the store unchanged. Success writes the merged record once, as `PlanUpdate` specifies. Unique emails and ids are preserved |
| `Service.FindAfterReplace` | src/main/java/com/artchristian/customer/CustomerService.java:85 | after writing a record with a stored id, a lookup of that id returns the written record |
| `Service.UpdateThenGet` | src/main/java/com/artchristian/customer/CustomerService.java:56-86 | after a successful update, `getCustomer(id)` returns exactly the merged record |
| `Service.UpdateKeepsConsistent` | src/main/java/com/artchristian/customer/CustomerService.java:67-85 | a successful update keeps emails and ids unique: the id is kept, and a changed email was checked to be free |
| `Service.AgeUpdateOnSeed` | src/main/java/com/artchristian/customer/CustomerService.java:56-86 | on the seeded list, setting only age 40 for id 1 writes (1, Art, art@gmail.com, 40) |

## Findings

| source | as written | input that shows it | evidently intended | confidence | as-written member | corrected member |
|---|---|---|---|---|---|---|
| src/main/java/com/artchristian/customer/CustomerListDataAccessService.java:27-30 | `customers.remove(customer)` receives the `Optional<Customer>` returned by `findFirst()`. `Optional.equals` holds only for another `Optional`, so no stored `Customer` matches and the list never shrinks | seeded list, `deleteCustomer(1)`: Art (id 1) is still stored and still found | remove the customer the scan found | high; not executed | `ListBackend.DeleteAsWritten` (its contract, and `ListBackend.DeleteAsWrittenOnSeed` on the seeded list) | `ListBackend.DeleteIntended` (proved by `ListBackend.DeleteIntendedRemovesFirstMatch`, `ListBackend.DeleteThenNotFound`); the service's delete uses it |

## Left out

- The JDBC and JPA backends are not part of this model: they are SQL and ORM
  calls. The service is modelled over the list backend, which is the only
  backend whose code is present. The list backend has no `updateCustomer`, so
  the store's update is the assumed full-record replace described above.
- Service.CustomerService.DeleteCustomerById: composed with the corrected
  list delete (`DeleteCustomerIntended`), which removes the customer. The
  store the service is wired to (`@Qualifier("jdbc")`, CustomerService.java:17)
  is expected to remove it too: CustomerJDBCDataAccessServiceTest.java:91-115
  deletes an inserted customer and then finds nothing under its id.
  Composed with the list delete as written (`DeleteCustomer`), a successful
  call would leave the store unchanged (see Findings).
- `CustomerController`, the Spring bootstrap and its `Faker`/`Random` seeding
  are left out. They are HTTP routing, framework wiring and randomness.
- The exception classes and their mapping to HTTP status codes are left out.
  The failures are result values.
- Aliasing is not modelled. The model uses value semantics.
  - `selectCustomerById` of the list backend returns the stored object, so
    the setters in `updateCustomerById` change the stored row in place.
  - A name change followed by a DuplicateEmail failure would therefore
    already have altered the list.
  - The model uses value semantics, where a failed update leaves the store
    unchanged. This is an assumption: it holds for a store that hands out
    copies of its rows, and the code of the JDBC store the service is wired
    to is not part of this model.
- The list is a static field shared by all instances. Here each store
  instance owns its list.
- Java `null` is modelled only where the code treats it:
  - the id of a customer;
  - the fields of an update request.
- Null emails, names or ages in stored customers or in registration
  requests are not modelled. A null asked-for id is not modelled either. The
  service receives ids from request paths.
- Java's 32-bit `Integer` is modelled as an unbounded integer. No arithmetic
  is done on ids or ages, so there is no wrap-around to model.
- `CustomerUpdateRequest` is modelled with its four components. The `id`
  component is never read by the service. The unit test builds the request
  with three arguments; that test code is not part of this model.
- `Service.CustomerService.GetAllCustomers` returns the store's list by value.
  The Java method returns the live list object, which a caller could mutate.
