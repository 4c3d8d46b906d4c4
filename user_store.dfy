/** The backend's `users` table and its two request handlers, `POST /register`
    and `GET /user/:id` (backend/index.js).

    The table has an AUTOINCREMENT integer key, a NOT NULL `username`, a NOT NULL
    UNIQUE `email` (compared byte for byte, SQLite's default BINARY collation) and a
    NOT NULL `password` that holds the bcrypt hash. The model keeps the rows in
    insertion order together with the next id AUTOINCREMENT will hand out; since no
    handler deletes a row and a failed INSERT is rolled back, that id is one more
    than the last id handed out.

    bcrypt is a function parameter of each registration: a fresh salt makes a fresh
    function, so nothing assumes two hashes of one password agree. A failure of
    bcrypt or of the storage engine (anything but the UNIQUE violation) is the
    `fault` parameter: the message the handler echoes with status 500. */
module UserStore {
  import opened Common

  /** A field of the JSON request body: missing/`null`, or a string. */
  type Field = Option<string>

  /** JavaScript truthiness of a body field: present and not the empty string. */
  predicate Truthy(f: Field) {
    f.Some? && f.value != ""
  }

  datatype RegisterRequest = RegisterRequest(username: Field, email: Field, password: Field)

  /** A row of `users`; `password` is the stored credential (the hash). */
  datatype UserRow = UserRow(id: nat, username: string, email: string, password: string)

  /** The public columns of a row, the only ones either handler sends back. */
  datatype PublicUser = PublicUser(id: nat, username: string, email: string)

  datatype Body = UserBody(user: PublicUser) | ErrorBody(error: string)

  /** An HTTP response: status code and JSON body. */
  datatype Response = Response(status: nat, body: Body)

  const AllFieldsRequired := "All fields are required"
  const EmailExists := "Email already exists"
  const UserNotFound := "User not found"

  /** The `users` table: rows in insertion order and the next AUTOINCREMENT id. */
  datatype Table = Table(rows: seq<UserRow>, nextId: nat)

  /** The table's constraints: ids are positive, below `nextId` and increasing in
      insertion order (so never reused); username and email are non-empty; no two
      rows share an email. */
  ghost predicate WellFormed(t: Table) {
    && 1 <= t.nextId
    && (forall i :: 0 <= i < |t.rows| ==> 1 <= t.rows[i].id < t.nextId)
    && (forall i, j :: 0 <= i < j < |t.rows| ==> t.rows[i].id < t.rows[j].id)
    && (forall i :: 0 <= i < |t.rows| ==> t.rows[i].username != "" && t.rows[i].email != "")
    && (forall i, j :: 0 <= i < j < |t.rows| ==> t.rows[i].email != t.rows[j].email)
  }

  /** The empty table `CREATE TABLE IF NOT EXISTS` leaves on a fresh database. */
  function EmptyTable(): (t: Table)
    ensures WellFormed(t) && t.rows == []
  {
    Table([], 1)
  }

  function Public(row: UserRow): PublicUser {
    PublicUser(row.id, row.username, row.email)
  }

  /** Whether the UNIQUE constraint on `email` rejects inserting `email`. */
  function EmailTaken(rows: seq<UserRow>, email: string): (taken: bool)
    ensures taken <==> exists i :: 0 <= i < |rows| && rows[i].email == email
  {
    if rows == [] then false
    else rows[0].email == email || EmailTaken(rows[1..], email)
  }

  /** `SELECT ... FROM users WHERE id=?`: the first row with that id, if any. */
  function FindById(rows: seq<UserRow>, id: int): (found: Option<UserRow>)
    ensures found.None? <==> forall i :: 0 <= i < |rows| ==> rows[i].id != id
    ensures found.Some? ==> found.value.id == id && found.value in rows
  {
    if rows == [] then None
    else if rows[0].id == id then Some(rows[0])
    else FindById(rows[1..], id)
  }

  /** With unique ids, the lookup finds exactly the row that carries the id. */
  lemma FindByIdFindsRow(t: Table, i: nat)
    requires WellFormed(t) && i < |t.rows|
    ensures FindById(t.rows, t.rows[i].id) == Some(t.rows[i])
  {
  }

  datatype Outcome = Outcome(table: Table, response: Response)

  /** `POST /register`: the response and the table afterwards. */
  function Registration(t: Table, req: RegisterRequest, hash: string -> string, fault: Option<string>): (out: Outcome)
    requires WellFormed(t)
    // the table's constraints hold after every request
    ensures WellFormed(out.table)
    // a missing or empty field is refused before anything else
    ensures !(Truthy(req.username) && Truthy(req.email) && Truthy(req.password)) ==>
              out == Outcome(t, Response(400, ErrorBody(AllFieldsRequired)))
    // an email already stored is refused and nothing is inserted
    ensures Truthy(req.username) && Truthy(req.email) && Truthy(req.password) && fault.None? &&
            EmailTaken(t.rows, req.email.value) ==>
              out == Outcome(t, Response(400, ErrorBody(EmailExists)))
    // a failure of bcrypt or of the storage engine answers 500 with its message
    ensures Truthy(req.username) && Truthy(req.email) && Truthy(req.password) && fault.Some? ==>
              out == Outcome(t, Response(500, ErrorBody(fault.value)))
    // success exactly when all fields are present, nothing failed and the email is new
    ensures out.response.status == 200 <==>
              Truthy(req.username) && Truthy(req.email) && Truthy(req.password) && fault.None? &&
              !EmailTaken(t.rows, req.email.value)
    ensures out.response.status == 200 <==> out.response.body.UserBody?
    // every failure leaves the table as it was
    ensures out.response.status != 200 ==> out.table == t
    // a success appends one row that stores what the hash function made of the password,
    // and answers with the new id and the submitted username and email, never the password
    ensures out.response.status == 200 ==>
              && out.response.body.user == PublicUser(t.nextId, req.username.value, req.email.value)
              && out.table.rows == t.rows + [UserRow(t.nextId, req.username.value, req.email.value, hash(req.password.value))]
              && out.table.nextId > t.nextId
    // the new id is larger than every id handed out before
    ensures out.response.status == 200 ==>
              forall i :: 0 <= i < |t.rows| ==> t.rows[i].id < out.response.body.user.id
  {
    if !(Truthy(req.username) && Truthy(req.email) && Truthy(req.password)) then
      Outcome(t, Response(400, ErrorBody(AllFieldsRequired)))
    else if fault.Some? then
      Outcome(t, Response(500, ErrorBody(fault.value)))
    else if EmailTaken(t.rows, req.email.value) then
      Outcome(t, Response(400, ErrorBody(EmailExists)))
    else
      var row := UserRow(t.nextId, req.username.value, req.email.value, hash(req.password.value));
      Outcome(Table(t.rows + [row], t.nextId + 1), Response(200, UserBody(Public(row))))
  }

  /** `GET /user/:id`: the response; the table is only read. */
  function Lookup(t: Table, id: int, fault: Option<string>): (response: Response)
    ensures fault.Some? ==> response == Response(500, ErrorBody(fault.value))
    ensures fault.None? && response.status == 404 <==>
              fault.None? && forall i :: 0 <= i < |t.rows| ==> t.rows[i].id != id
    ensures response.status == 404 ==> response.body == ErrorBody(UserNotFound)
    ensures response.status == 200 ==>
              exists i :: 0 <= i < |t.rows| && t.rows[i].id == id && response.body == UserBody(Public(t.rows[i]))
    ensures response.status in {200, 404, 500}
  {
    if fault.Some? then Response(500, ErrorBody(fault.value))
    else match FindById(t.rows, id)
      case None => Response(404, ErrorBody(UserNotFound))
      case Some(row) => Response(200, UserBody(Public(row)))
  }

  /** Every stored row is found by its id, with its public columns only. */
  lemma LookupStoredRow(t: Table, i: nat)
    requires WellFormed(t) && i < |t.rows|
    ensures Lookup(t, t.rows[i].id, None) == Response(200, UserBody(Public(t.rows[i])))
  {
  }

  /** A user just registered can be fetched by the id the registration returned. */
  lemma RegisterThenLookup(t: Table, req: RegisterRequest, hash: string -> string)
    requires WellFormed(t)
    requires Registration(t, req, hash, None).response.status == 200
    ensures var out := Registration(t, req, hash, None);
            Lookup(out.table, out.response.body.user.id, None) == Response(200, out.response.body)
  {
    var out := Registration(t, req, hash, None);
    LookupStoredRow(out.table, |t.rows|);
  }

  /** Registering an email a second time fails, and the first account is untouched. */
  lemma SecondRegistrationRejected(t: Table, first: RegisterRequest, second: RegisterRequest,
                                   hash1: string -> string, hash2: string -> string)
    requires WellFormed(t)
    requires Registration(t, first, hash1, None).response.status == 200
    requires Truthy(second.username) && Truthy(second.password) && second.email == first.email
    ensures var after := Registration(t, first, hash1, None).table;
            Registration(after, second, hash2, None) == Outcome(after, Response(400, ErrorBody(EmailExists)))
  {
    var after := Registration(t, first, hash1, None).table;
    assert after.rows[|t.rows|].email == first.email.value;
  }

  /** One call of `POST /register`, with the hash function and fault it meets. */
  datatype RegisterCall = RegisterCall(req: RegisterRequest, hash: string -> string, fault: Option<string>)

  /** Handling a series of registrations one after another. */
  function RegisterAll(t: Table, calls: seq<RegisterCall>): (out: (Table, seq<Response>))
    requires WellFormed(t)
    ensures WellFormed(out.0) && |out.1| == |calls| && t.nextId <= out.0.nextId
    decreases |calls|
  {
    if calls == [] then (t, [])
    else
      var first := Registration(t, calls[0].req, calls[0].hash, calls[0].fault);
      var rest := RegisterAll(first.table, calls[1..]);
      (rest.0, [first.response] + rest.1)
  }

  /** The ids that the successful responses among `responses` hand out lie in `[lo, hi)`. */
  ghost predicate IdsWithin(responses: seq<Response>, lo: nat, hi: nat) {
    forall i :: 0 <= i < |responses| && responses[i].body.UserBody? ==> lo <= responses[i].body.user.id < hi
  }

  /** The ids that the successful responses among `responses` hand out increase strictly. */
  ghost predicate IdsIncreasing(responses: seq<Response>) {
    forall i, j :: 0 <= i < j < |responses| && responses[i].body.UserBody? && responses[j].body.UserBody? ==>
      responses[i].body.user.id < responses[j].body.user.id
  }

  /** Across any series of registrations the ids handed out increase strictly and
      stay within the range between the old and the new `nextId`: no id is reused. */
  lemma {:induction false} RegisteredIdsIncrease(t: Table, calls: seq<RegisterCall>)
    requires WellFormed(t)
    ensures IdsWithin(RegisterAll(t, calls).1, t.nextId, RegisterAll(t, calls).0.nextId)
    ensures IdsIncreasing(RegisterAll(t, calls).1)
    decreases |calls|
  {
    if calls != [] {
      var first := Registration(t, calls[0].req, calls[0].hash, calls[0].fault);
      var rest := RegisterAll(first.table, calls[1..]);
      RegisteredIdsIncrease(first.table, calls[1..]);
      assert IdsWithin(rest.1, first.table.nextId, rest.0.nextId);
      var out := RegisterAll(t, calls);
      assert out.1 == [first.response] + rest.1 && out.0 == rest.0;
      assert first.response.body.UserBody? ==> first.response.body.user.id == t.nextId < first.table.nextId;
      forall i | 0 <= i < |out.1| && out.1[i].body.UserBody?
        ensures t.nextId <= out.1[i].body.user.id < out.0.nextId
      {
        if i > 0 {
          assert out.1[i] == rest.1[i - 1];
        }
      }
      forall i, j | 0 <= i < j < |out.1| && out.1[i].body.UserBody? && out.1[j].body.UserBody?
        ensures out.1[i].body.user.id < out.1[j].body.user.id
      {
        assert out.1[j] == rest.1[j - 1];
        if i > 0 {
          assert out.1[i] == rest.1[i - 1];
        }
      }
    }
  }

  /** The `users` table as the server holds it: mutated in place by each request. */
  class UserTable {
    var rows: seq<UserRow>
    var nextId: nat

    ghost predicate Valid()
      reads this
    {
      WellFormed(State())
    }

    function State(): Table
      reads this
    {
      Table(rows, nextId)
    }

    /** The table as first created at server start. */
    constructor ()
      ensures Valid() && State() == EmptyTable()
    {
      rows := [];
      nextId := 1;
    }

    /** `POST /register`, with the early returns of the handler. */
    method Register(req: RegisterRequest, hash: string -> string, fault: Option<string>) returns (response: Response)
      requires Valid()
      modifies this
      ensures Valid()
      ensures Outcome(State(), response) == Registration(old(State()), req, hash, fault)
    {
      if !Truthy(req.username) || !Truthy(req.email) || !Truthy(req.password) {
        return Response(400, ErrorBody(AllFieldsRequired));
      }
      if fault.Some? {
        return Response(500, ErrorBody(fault.value));
      }
      var hashedPassword := hash(req.password.value);
      if EmailTaken(rows, req.email.value) {
        return Response(400, ErrorBody(EmailExists));
      }
      var lastId := nextId;
      rows := rows + [UserRow(lastId, req.username.value, req.email.value, hashedPassword)];
      nextId := nextId + 1;
      response := Response(200, UserBody(PublicUser(lastId, req.username.value, req.email.value)));
    }

    /** `GET /user/:id`; it has no `modifies` clause, so the table is unchanged. */
    method GetUser(id: int, fault: Option<string>) returns (response: Response)
      requires Valid()
      ensures response == Lookup(State(), id, fault)
    {
      if fault.Some? {
        return Response(500, ErrorBody(fault.value));
      }
      var row := FindById(rows, id);
      if row.None? {
        return Response(404, ErrorBody(UserNotFound));
      }
      response := Response(200, UserBody(PublicUser(row.value.id, row.value.username, row.value.email)));
    }
  }
}
