/**
 * The record shapes the view-models read and write.  They follow what the
 * view-model code accesses (the entity classes in the repository describe
 * older tables); a `null` string is modelled as the empty string, and a
 * navigation property that may be missing as an `Option`.
 */
module Records {
  import opened Wrappers
  import opened Calendar

  /** `EmployeeRole`: a row of the role table. */
  datatype EmployeeRole = EmployeeRole(id: int, name: string)

  /** An employee account as the login, registration and admin screens use it. */
  datatype Employee = Employee(
    id: int,
    firstName: string,
    lastName: string,
    name: string,
    email: string,
    passwordHash: string,
    roleId: int,
    role: Option<EmployeeRole>,
    isActive: bool,
    created: Instant)

  datatype Client = Client(
    id: int,
    companyName: string,
    contactPerson: string,
    email: string,
    phone: string,
    address: string,
    created: Instant)

  /** `TaskStatuss` and `TaskPriority`: an id and a display name. */
  datatype Named = Named(id: int, name: string)

  /** A task with the navigation properties the task filter reads. */
  datatype TaskItem = TaskItem(
    id: int,
    title: string,
    description: string,
    clientId: int,
    managerId: int,
    programmerId: Option<int>,
    statusId: int,
    priorityId: int,
    created: Instant,
    due: Option<Instant>,
    client: Option<Client>,
    status: Option<Named>)

  /** `FirstOrDefault(u => u.Email == email)` on the employee table. */
  function FirstWithEmail(db: seq<Employee>, email: string): (r: Option<Employee>)
    ensures r.Some? ==> r.value in db && r.value.email == email
    ensures r.None? <==> forall k :: 0 <= k < |db| ==> db[k].email != email
    ensures r.Some? ==> exists k :: 0 <= k < |db| && db[k] == r.value
                          && forall j :: 0 <= j < k ==> db[j].email != email
  {
    if db == [] then None
    else if db[0].email == email then Some(db[0])
    else
      var r := FirstWithEmail(db[1..], email);
      assert forall k :: 1 <= k < |db| ==> db[k] == db[1..][k - 1];
      r
  }

  /** Appending a record with a new e-mail leaves every earlier answer alone and makes the new record the answer for its own e-mail. */
  lemma {:induction false} FirstWithEmailAppend(db: seq<Employee>, e: Employee, email: string)
    requires FirstWithEmail(db, e.email).None?
    ensures FirstWithEmail(db + [e], email) == if email == e.email then Some(e) else FirstWithEmail(db, email)
  {
    if db == [] {
      assert db + [e] == [e];
    } else {
      assert (db + [e])[1..] == db[1..] + [e];
      if db[0].email != email {
        FirstWithEmailAppend(db[1..], e, email);
      }
    }
  }
}
