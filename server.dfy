/** The Express application of server/index.js: the `authenticateToken`
    gate and the six route handlers, as methods of one object that owns the
    `users` and `projects` tables. Each handler runs as one atomic step. */
module Server {
  import opened Wrappers
  import opened Headers
  import opened Tokens
  import opened Credentials
  import opened Schema
  import opened Seqs

  /** The distinct error answers of the handlers, one per message text. */
  datatype ErrorKind =
    | AuthRequired        // no token (401)
    | InvalidToken        // jwt.verify failed (403)
    | MissingCredentials  // register without username or password (400)
    | DuplicateUsername   // register with a taken username (400)
    | RegistrationFailed  // register: other insert failure (500)
    | ServerError         // login: lookup failure (500)
    | BadCredentials      // login: unknown user or wrong password (401)
    | FetchFailed         // list failure (500)
    | AddFailed           // create failure (500)
    | UpdateFailed        // update failure (500)
    | DeleteFailed        // delete failure (500)

  /** The JSON body of a response. */
  datatype Body =
    | Error(kind: ErrorKind)
    | Registered(userId: nat)
    | LoggedIn(token: string, username: string)
    | Rows(rows: seq<Project>)
    | ProjectAdded(id: string)
    | ProjectUpdated
    | ProjectDeleted

  /** What the client receives; `NoResponse` when the handler ends without
      answering. */
  datatype Response = Sent(body: Body) | NoResponse

  function ErrorStatus(kind: ErrorKind): nat {
    match kind
    case MissingCredentials | DuplicateUsername => 400
    case AuthRequired | BadCredentials => 401
    case InvalidToken => 403
    case RegistrationFailed | ServerError | FetchFailed | AddFailed | UpdateFailed | DeleteFailed => 500
  }

  /** The HTTP status sent with each body: every outcome has exactly one,
      and it is a success code exactly when the body is not an error. */
  function Status(body: Body): (code: nat)
    ensures code in {200, 201, 400, 401, 403, 500}
    ensures 200 <= code < 300 <==> !body.Error?
    ensures code == 201 <==> body.Registered? || body.ProjectAdded?
  {
    match body
    case Error(kind) => ErrorStatus(kind)
    case Registered(_) | ProjectAdded(_) => 201
    case LoggedIn(_, _) | Rows(_) | ProjectUpdated | ProjectDeleted => 200
  }

  /** A value of a JSON request body, for JavaScript truthiness. Numbers are
      integers here. */
  datatype JsonValue = Undefined | Null | Bool(b: bool) | Number(n: int) | Text(s: string)

  predicate Truthy(v: JsonValue) {
    match v
    case Undefined | Null => false
    case Bool(b) => b
    case Number(n) => n != 0
    case Text(s) => s != ""
  }

  /** A string field of the body that is truthy: present and non-empty. */
  predicate Present(field: Option<string>) {
    field.Some? && field.value != ""
  }

  /** The body of `POST /api/projects`. */
  datatype ProjectBody = ProjectBody(
    id: Option<string>, name: Option<string>, content: Option<string>, preference: Option<int>)

  /** The insert of `POST /api/projects` satisfies the table constraints:
      `id` is given and not yet a key, `name` is not NULL, the owner
      exists, and `preference` fits the `INTEGER` column. */
  predicate Insertable(users: seq<User>, projects: seq<Project>, uid: nat, body: ProjectBody) {
    && body.id.Some? && !ProjectIdTaken(projects, body.id.value)
    && body.name.Some?
    && UserExists(users, uid)
    && FitsInteger(body.preference)
  }

  class Api {
    var users: seq<User>
    var projects: seq<Project>
    /** The next value of the `users.id` serial. */
    var nextUserId: nat
    /** The store clock behind `created_at`. */
    var clock: nat
    /** `jwt.sign` and the decoding half of `jwt.verify` under the server's secret. */
    const sign: Jwt -> string
    const decode: string -> Option<Jwt>

    ghost predicate Valid()
      reads this
    {
      nextUserId >= 1 && TablesValid(users, projects, nextUserId, clock) && SoundCodec(sign, decode)
    }

    /** The server after `initDatabase` on a new database: both tables
        empty. */
    constructor (sign: Jwt -> string, decode: string -> Option<Jwt>)
      requires SoundCodec(sign, decode)
      ensures Valid()
      ensures users == [] && projects == [] && nextUserId == 1 && clock == 0
      ensures this.sign == sign && this.decode == decode
    {
      this.sign := sign;
      this.decode := decode;
      users, projects, nextUserId, clock := [], [], 1, 0;
    }

    /** `authenticateToken`: the principal the request runs as, or the error
        that stops it before any handler code. */
    function Gate(authorization: Option<string>, now: nat): (r: Result<Claims, ErrorKind>)
      ensures BearerToken(authorization).None? <==> r == Err(AuthRequired)
      ensures r.Err? ==> r.error == AuthRequired || r.error == InvalidToken
      ensures r == Err(InvalidToken) <==>
        BearerToken(authorization).Some? && Verify(decode(BearerToken(authorization).value), now).Err?
      ensures r.Ok? ==> Verify(decode(BearerToken(authorization).value), now) == Ok(r.value)
    {
      match BearerToken(authorization)
      case None => Err(AuthRequired)
      case Some(token) =>
        match Verify(decode(token), now)
        case Err(_) => Err(InvalidToken)
        case Ok(claims) => Ok(claims)
    }

    /** A token from `/api/login`, sent as `Bearer <token>`, lets its holder
        in as exactly the user it was issued to for 24 hours, and is refused
        with 403 afterwards. */
    lemma GateAcceptsIssuedToken(claims: Claims, issuedAt: nat, now: nat)
      requires SoundCodec(sign, decode)
      ensures Gate(Some("Bearer " + sign(Issue(claims, issuedAt))), now)
           == if now < issuedAt + TokenLifetime then Ok(claims) else Err(InvalidToken)
    {
      var jwt := Issue(claims, issuedAt);
      BearerHeader(sign(jwt));
      IssuedTokenLifetime(claims, issuedAt, now);
    }

    /** `POST /api/register`. */
    method Register(username: Option<string>, password: Option<string>, salt: nat, fault: bool)
      returns (resp: Response)
      requires Valid()
      modifies this
      ensures Valid()
      ensures
        if !Present(username) || !Present(password) then
          resp == Sent(Error(MissingCredentials)) && unchanged(this)
        else if fault then
          resp == Sent(Error(RegistrationFailed)) && unchanged(this)
        else if UsernameTaken(old(users), username.value) then
          resp == Sent(Error(DuplicateUsername)) && unchanged(this)
        else
          && resp == Sent(Registered(old(nextUserId)))
          && users == old(users) + [User(old(nextUserId), username.value, Hash(password.value, salt), old(clock))]
          && projects == old(projects)
          && nextUserId == old(nextUserId) + 1 && clock == old(clock) + 1
    {
      if !Present(username) || !Present(password) {
        return Sent(Error(MissingCredentials));
      }
      var digest := Hash(password.value, salt);
      if fault {
        return Sent(Error(RegistrationFailed));
      }
      if UsernameTaken(users, username.value) {
        return Sent(Error(DuplicateUsername));
      }
      InsertUserValid(users, projects, nextUserId, clock, username.value, digest);
      users := users + [User(nextUserId, username.value, digest, clock)];
      resp := Sent(Registered(nextUserId));
      nextUserId := nextUserId + 1;
      clock := clock + 1;
    }

    /** `POST /api/login`. Both refusals carry the same error. With no
        password for an existing user, `bcrypt.compare` rejects inside the
        callback and no answer is sent. */
    method Login(username: Option<string>, password: Option<string>, now: nat, fault: bool)
      returns (resp: Response)
      requires Valid()
      ensures
        if fault then resp == Sent(Error(ServerError))
        else match FindUser(users, username)
          case None => resp == Sent(Error(BadCredentials))
          case Some(u) =>
            if password.None? then resp == NoResponse
            else if !Compare(password.value, u.password) then resp == Sent(Error(BadCredentials))
            else resp == Sent(LoggedIn(sign(Issue(Claims(u.id, u.username), now)), u.username))
      ensures resp.Sent? && resp.body.LoggedIn? ==>
        exists i :: 0 <= i < |users| && username == Some(users[i].username)
          && password.Some? && Compare(password.value, users[i].password)
          && resp.body == LoggedIn(sign(Issue(Claims(users[i].id, users[i].username), now)), users[i].username)
      ensures forall i ::
        (0 <= i < |users| && !fault && username == Some(users[i].username)
         && password.Some? && Compare(password.value, users[i].password)) ==>
        resp == Sent(LoggedIn(sign(Issue(Claims(users[i].id, users[i].username), now)), users[i].username))
    {
      if fault {
        return Sent(Error(ServerError));
      }
      var found := FindUser(users, username);
      forall i | 0 <= i < |users| && username == Some(users[i].username) ensures found == Some(users[i]) {
        FindUserUnique(users, nextUserId, clock, i);
      }
      match found
      case None =>
        resp := Sent(Error(BadCredentials));
      case Some(u) =>
        if password.None? {
          resp := NoResponse;
        } else if !Compare(password.value, u.password) {
          resp := Sent(Error(BadCredentials));
        } else {
          var token := sign(Issue(Claims(u.id, u.username), now));
          resp := Sent(LoggedIn(token, u.username));
        }
    }

    /** `GET /api/projects`: the caller's projects, newest first. */
    method ListProjects(authorization: Option<string>, now: nat, fault: bool)
      returns (resp: Response)
      requires Valid()
      ensures
        match Gate(authorization, now)
        case Err(e) => resp == Sent(Error(e))
        case Ok(caller) =>
          resp == if fault then Sent(Error(FetchFailed)) else Sent(Rows(Listing(projects, caller.id)))
      ensures resp.Sent? && resp.body.Rows? ==>
        var caller := Gate(authorization, now).value;
        && NewestFirst(resp.body.rows)
        && (forall p :: p in resp.body.rows ==> p in projects && p.userId == caller.id)
        && (forall p :: p in projects && p.userId == caller.id ==> p in resp.body.rows)
    {
      var gate := Gate(authorization, now);
      if gate.Err? {
        return Sent(Error(gate.error));
      }
      if fault {
        return Sent(Error(FetchFailed));
      }
      var uid := gate.value.id;
      var rows: seq<Project> := [];
      var i := |projects|;
      while i > 0
        invariant 0 <= i <= |projects|
        invariant rows == Reverse(Owned(projects[i..], uid))
      {
        i := i - 1;
        var tail := projects[i + 1..];
        assert projects[i..] == [projects[i]] + tail;
        assert ([projects[i]] + tail)[1..] == tail;
        if projects[i].userId == uid {
          assert ([projects[i]] + Owned(tail, uid))[1..] == Owned(tail, uid);
          rows := rows + [projects[i]];
        }
      }
      assert projects[0..] == projects;
      ListingIsOwnedNewestFirst(projects, uid);
      resp := Sent(Rows(rows));
    }

    /** `POST /api/projects`: the owner is always the caller; `preference`
        becomes 0 when falsy and `completed` false. */
    method CreateProject(authorization: Option<string>, now: nat, body: ProjectBody, fault: bool)
      returns (resp: Response)
      requires Valid()
      modifies this
      ensures Valid()
      ensures
        match Gate(authorization, now)
        case Err(e) => resp == Sent(Error(e)) && unchanged(this)
        case Ok(caller) =>
          if fault || !Insertable(old(users), old(projects), caller.id, body) then
            resp == Sent(Error(AddFailed)) && unchanged(this)
          else
            && resp == Sent(ProjectAdded(body.id.value))
            && projects == old(projects)
                 + [NewRow(body.id.value, caller.id, body.name.value, body.content, body.preference, old(clock))]
            && users == old(users) && nextUserId == old(nextUserId) && clock == old(clock) + 1
    {
      var gate := Gate(authorization, now);
      if gate.Err? {
        return Sent(Error(gate.error));
      }
      var uid := gate.value.id;
      if fault || !Insertable(users, projects, uid, body) {
        return Sent(Error(AddFailed));
      }
      var row := NewRow(body.id.value, uid, body.name.value, body.content, body.preference, clock);
      InsertProjectValid(users, projects, nextUserId, clock, row);
      projects := projects + [row];
      clock := clock + 1;
      resp := Sent(ProjectAdded(body.id.value));
    }

    /** `PUT /api/projects/:id`: sets `preference` as given (NULL when
        absent) and `completed` to the truthiness of the body value, on the
        caller's row with that id only; matching no row is still a success.
        A preference outside the `INTEGER` range makes the statement fail. */
    method UpdateProject(authorization: Option<string>, now: nat, id: string,
                         preference: Option<int>, completed: JsonValue, fault: bool)
      returns (resp: Response)
      requires Valid()
      modifies this
      ensures Valid()
      ensures
        match Gate(authorization, now)
        case Err(e) => resp == Sent(Error(e)) && unchanged(this)
        case Ok(caller) =>
          if fault || !FitsInteger(preference) then resp == Sent(Error(UpdateFailed)) && unchanged(this)
          else
            && resp == Sent(ProjectUpdated)
            && projects == UpdateRows(old(projects), id, caller.id, preference, Truthy(completed))
            && users == old(users) && nextUserId == old(nextUserId) && clock == old(clock)
    {
      var gate := Gate(authorization, now);
      if gate.Err? {
        return Sent(Error(gate.error));
      }
      if fault || !FitsInteger(preference) {
        return Sent(Error(UpdateFailed));
      }
      var uid := gate.value.id;
      var done := Truthy(completed);
      var rows := projects;
      var i := 0;
      while i < |rows|
        invariant 0 <= i <= |rows| == |projects|
        invariant forall k :: 0 <= k < i ==> rows[k] == Touch(projects[k], id, uid, preference, done)
        invariant forall k :: i <= k < |rows| ==> rows[k] == projects[k]
      {
        if rows[i].id == id && rows[i].userId == uid {
          rows := rows[i := rows[i].(preference := preference, completed := done)];
        }
        i := i + 1;
      }
      forall k | 0 <= k < |rows| ensures rows[k] == UpdateRows(projects, id, uid, preference, done)[k] {
        UpdateRowsAt(projects, id, uid, preference, done, k);
      }
      UpdateValid(users, projects, nextUserId, clock, id, uid, preference, done);
      projects := rows;
      resp := Sent(ProjectUpdated);
    }

    /** `DELETE /api/projects/:id`: removes the caller's row with that id
        only; matching no row is still a success. */
    method DeleteProject(authorization: Option<string>, now: nat, id: string, fault: bool)
      returns (resp: Response)
      requires Valid()
      modifies this
      ensures Valid()
      ensures
        match Gate(authorization, now)
        case Err(e) => resp == Sent(Error(e)) && unchanged(this)
        case Ok(caller) =>
          if fault then resp == Sent(Error(DeleteFailed)) && unchanged(this)
          else
            && resp == Sent(ProjectDeleted)
            && projects == DeleteRows(old(projects), id, caller.id)
            && users == old(users) && nextUserId == old(nextUserId) && clock == old(clock)
    {
      var gate := Gate(authorization, now);
      if gate.Err? {
        return Sent(Error(gate.error));
      }
      if fault {
        return Sent(Error(DeleteFailed));
      }
      var uid := gate.value.id;
      var rows := projects;
      var kept: seq<Project> := [];
      var i := 0;
      while i < |rows|
        invariant 0 <= i <= |rows|
        invariant kept == DeleteRows(rows[..i], id, uid)
        invariant unchanged(this)
      {
        assert rows[..i + 1] == rows[..i] + [rows[i]];
        FilterSnoc(rows[..i], rows[i], Unmatched(id, uid));
        if !(rows[i].id == id && rows[i].userId == uid) {
          kept := kept + [rows[i]];
        }
        i := i + 1;
      }
      assert rows[..|rows|] == rows;
      DeleteValid(users, projects, nextUserId, clock, id, uid);
      projects := kept;
      resp := Sent(ProjectDeleted);
    }
  }

  /** Registration and login of one user, "alice": every answer below
      follows from the handlers' contracts alone. */
  method RegisterAndLogin(api: Api, salt: nat, now: nat)
    requires api.Valid() && api.users == [] && api.projects == [] && api.nextUserId == 1 && api.clock == 0
    modifies api
  {
    var r := api.Register(Some("alice"), Some("pw1"), salt, false);
    assert r == Sent(Registered(1));
    assert api.users[0].username == "alice";
    r := api.Register(Some("alice"), Some("pw2"), salt, false);
    assert r == Sent(Error(DuplicateUsername));

    r := api.Login(Some("alice"), Some("pw2"), now, false);
    assert r == Sent(Error(BadCredentials));
    r := api.Login(Some("bob"), Some("pw1"), now, false);
    assert r == Sent(Error(BadCredentials));
    r := api.Login(Some("alice"), Some("pw1"), now, false);
    assert r == Sent(LoggedIn(api.sign(Issue(Claims(1, "alice"), now)), "alice"));
  }

  /** The life of one project of a logged-in user, from creation to
      deletion, and the refusals without or with an expired token. */
  method ProjectLifecycle(api: Api, issuedAt: nat)
    requires api.Valid() && |api.users| == 1 && api.users[0].id == 1 && api.users[0].username == "alice"
    requires api.projects == []
    modifies api
  {
    var alice := Claims(1, "alice");
    var header := Some("Bearer " + api.sign(Issue(alice, issuedAt)));
    var now := issuedAt;
    api.GateAcceptsIssuedToken(alice, issuedAt, now);
    var r := api.ListProjects(header, now, false);
    assert r == Sent(Rows([]));

    ghost var t := api.clock;
    r := api.CreateProject(header, now, ProjectBody(Some("p1"), Some("Build site"), None, None), false);
    assert r == Sent(ProjectAdded("p1"));
    var p1 := Project("p1", 1, "Build site", None, Some(0), false, t);
    assert api.projects == [p1];
    r := api.ListProjects(header, now, false);
    assert r == Sent(Rows([p1]));

    r := api.UpdateProject(header, now, "p1", Some(5), Bool(true), false);
    assert r == Sent(ProjectUpdated);
    assert api.projects == [p1.(preference := Some(5), completed := true)];
    r := api.UpdateProject(header, now, "p1", Some(IntegerMax + 1), Bool(false), false);
    assert r == Sent(Error(UpdateFailed));
    assert api.projects == [p1.(preference := Some(5), completed := true)];

    r := api.DeleteProject(header, now, "p1", false);
    assert r == Sent(ProjectDeleted);
    r := api.ListProjects(header, now, false);
    assert r == Sent(Rows([]));

    r := api.ListProjects(None, now, false);
    assert r == Sent(Error(AuthRequired));
    api.GateAcceptsIssuedToken(alice, issuedAt, issuedAt + TokenLifetime);
    r := api.ListProjects(header, issuedAt + TokenLifetime, false);
    assert r == Sent(Error(InvalidToken));
  }
}
