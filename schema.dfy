/** The two tables of server/database/init.js and what each SQL statement
    of server/index.js means on them. Rows are kept in insertion order;
    `createdAt` is the value of a store clock that grows with every insert,
    standing for `DEFAULT CURRENT_TIMESTAMP`. */
module Schema {
  import opened Wrappers
  import opened Seqs
  import opened Credentials

  /** A row of `users`. */
  datatype User = User(id: nat, username: string, password: Digest, createdAt: nat)

  /** A row of `projects`; `content` and `preference` are nullable columns. */
  datatype Project = Project(
    id: string,
    userId: nat,
    name: string,
    content: Option<string>,
    preference: Option<int>,
    completed: bool,
    createdAt: nat)

  // ---- constraints -------------------------------------------------------

  /** The range of a PostgreSQL `INTEGER` (32-bit signed) column. */
  const IntegerMin: int := -0x8000_0000
  const IntegerMax: int := 0x7FFF_FFFF

  /** A value the nullable `preference INTEGER` column can hold. */
  predicate FitsInteger(v: Option<int>) {
    v.None? || IntegerMin <= v.value <= IntegerMax
  }

  predicate UserExists(users: seq<User>, id: nat) {
    exists i :: 0 <= i < |users| && users[i].id == id
  }

  predicate UsernameTaken(users: seq<User>, name: string) {
    exists i :: 0 <= i < |users| && users[i].username == name
  }

  predicate ProjectIdTaken(projects: seq<Project>, id: string) {
    exists i :: 0 <= i < |projects| && projects[i].id == id
  }

  /** `p` was inserted before `q` and they have different primary keys. */
  predicate Earlier(p: Project, q: Project) {
    p.createdAt < q.createdAt && p.id != q.id
  }

  /** `id SERIAL PRIMARY KEY`, `username TEXT UNIQUE NOT NULL`. */
  ghost predicate UsersValid(users: seq<User>, nextUserId: nat, clock: nat) {
    && (forall i :: 0 <= i < |users| ==> 1 <= users[i].id < nextUserId && users[i].createdAt < clock)
    && (forall i, j :: 0 <= i < j < |users| ==>
          users[i].id < users[j].id && users[i].username != users[j].username)
  }

  /** `id TEXT PRIMARY KEY`, `FOREIGN KEY (user_id) REFERENCES users (id)`,
      `preference INTEGER`, and rows stored in the order of their creation
      time. */
  ghost predicate ProjectsValid(projects: seq<Project>, users: seq<User>, clock: nat) {
    && (forall i :: 0 <= i < |projects| ==>
          && projects[i].createdAt < clock && UserExists(users, projects[i].userId)
          && FitsInteger(projects[i].preference))
    && Pairwise(projects, Earlier)
  }

  ghost predicate TablesValid(users: seq<User>, projects: seq<Project>, nextUserId: nat, clock: nat) {
    UsersValid(users, nextUserId, clock) && ProjectsValid(projects, users, clock)
  }

  // ---- users -------------------------------------------------------------

  /** `SELECT * FROM users WHERE username = ?`: the first matching row.
      A missing username binds SQL NULL, which matches no row. */
  function FindUser(users: seq<User>, name: Option<string>): (r: Option<User>)
    ensures r.Some? ==> name == Some(r.value.username) && r.value in users
    ensures r.None? ==> name.None? || !UsernameTaken(users, name.value)
  {
    if users == [] || name.None? then None
    else if users[0].username == name.value then Some(users[0])
    else
      var r := FindUser(users[1..], name);
      assert r.None? ==> !UsernameTaken(users, name.value) by {
        if r.None? {
          forall i | 1 <= i < |users| ensures users[i].username != name.value {
            assert users[1..][i - 1] == users[i];
          }
        }
      }
      r
  }

  /** With unique usernames, looking a user's name up finds that user. */
  lemma {:induction false} FindUserUnique(users: seq<User>, nextUserId: nat, clock: nat, i: nat)
    requires UsersValid(users, nextUserId, clock) && i < |users|
    ensures FindUser(users, Some(users[i].username)) == Some(users[i])
  {
    if i > 0 {
      assert users[0].username != users[i].username;
      assert UsersValid(users[1..], nextUserId, clock) by {
        forall a, b | 0 <= a < b < |users[1..]|
          ensures users[1..][a].id < users[1..][b].id && users[1..][a].username != users[1..][b].username
        {
          assert users[1..][a] == users[a + 1] && users[1..][b] == users[b + 1];
        }
      }
      FindUserUnique(users[1..], nextUserId, clock, i - 1);
    }
  }

  /** Appending a row changes a lookup only for a name that was not found. */
  lemma {:induction false} FindUserAppend(users: seq<User>, u: User, name: Option<string>)
    ensures FindUser(users + [u], name)
         == if FindUser(users, name).Some? then FindUser(users, name)
            else if name == Some(u.username) then Some(u)
            else None
  {
    if users == [] {
      assert users + [u] == [u];
      assert [u][1..] == [];
    } else if name.Some? && users[0].username != name.value {
      assert (users + [u])[1..] == users[1..] + [u];
      FindUserAppend(users[1..], u, name);
    }
  }

  /** `INSERT INTO users` keeps the users table valid when the name is new;
      the row gets the next serial id and the current time. */
  lemma InsertUserValid(users: seq<User>, projects: seq<Project>, nextUserId: nat, clock: nat,
                        name: string, password: Digest)
    requires TablesValid(users, projects, nextUserId, clock)
    requires nextUserId >= 1 && !UsernameTaken(users, name)
    ensures TablesValid(users + [User(nextUserId, name, password, clock)], projects, nextUserId + 1, clock + 1)
  {
    var users' := users + [User(nextUserId, name, password, clock)];
    forall i | 0 <= i < |projects| ensures UserExists(users', projects[i].userId) {
      var k :| 0 <= k < |users| && users[k].id == projects[i].userId;
      assert users'[k] == users[k];
    }
  }

  // ---- projects: SELECT ----------------------------------------------------

  function OwnedBy(uid: nat): Project -> bool {
    (p: Project) => p.userId == uid
  }

  /** The rows of `WHERE user_id = ?`, in insertion order. */
  function Owned(projects: seq<Project>, uid: nat): seq<Project> {
    Filter(projects, OwnedBy(uid))
  }

  /** `SELECT * FROM projects WHERE user_id = ? ORDER BY created_at DESC`,
      for a table stored in creation order. */
  function Listing(projects: seq<Project>, uid: nat): seq<Project> {
    Reverse(Owned(projects, uid))
  }

  ghost predicate NewestFirst(rows: seq<Project>) {
    forall i, j :: 0 <= i < j < |rows| ==> rows[i].createdAt > rows[j].createdAt
  }

  /** The listing holds exactly the caller's rows, newest first. */
  lemma ListingIsOwnedNewestFirst(projects: seq<Project>, uid: nat)
    requires Pairwise(projects, Earlier)
    ensures NewestFirst(Listing(projects, uid))
    ensures forall p :: p in Listing(projects, uid) ==> p in projects && p.userId == uid
    ensures forall p :: p in projects && p.userId == uid ==> p in Listing(projects, uid)
  {
    var owned := Owned(projects, uid);
    FilterPairwise(projects, OwnedBy(uid), Earlier);
    ReversePairwise(owned, Earlier);
    var rows := Listing(projects, uid);
    forall i, j | 0 <= i < j < |rows| ensures rows[i].createdAt > rows[j].createdAt {
      assert Earlier(rows[j], rows[i]);
    }
    FilterMembership(projects, OwnedBy(uid));
    ReverseMembership(owned);
  }

  /** Membership and newest-first order determine a listing: it is the
      only answer the ORDER BY query can give. */
  lemma {:induction false} NewestFirstUnique(a: seq<Project>, b: seq<Project>)
    requires NewestFirst(a) && NewestFirst(b)
    requires forall p :: p in a ==> p in b
    requires forall p :: p in b ==> p in a
    ensures a == b
  {
    assert a != [] ==> a[0] in b;
    assert b != [] ==> b[0] in a;
    if a != [] && b != [] {
      NewestFirstHead(b, a[0]);
      NewestFirstHead(a, b[0]);
      assert a[0] == b[0];
      forall p | p in a[1..] ensures p in b[1..] {
        var i :| 1 <= i < |a| && a[i] == p;
        assert p.createdAt < a[0].createdAt;
        assert p in a;
        var k :| 0 <= k < |b| && b[k] == p;
        assert k != 0;
      }
      forall p | p in b[1..] ensures p in a[1..] {
        var i :| 1 <= i < |b| && b[i] == p;
        assert p.createdAt < b[0].createdAt;
        assert p in b;
        var k :| 0 <= k < |a| && a[k] == p;
        assert k != 0;
      }
      NewestFirstUnique(a[1..], b[1..]);
      assert a == [a[0]] + a[1..] && b == [b[0]] + b[1..];
    }
  }

  /** The head of a newest-first listing is newer than all its other rows. */
  lemma NewestFirstHead(rows: seq<Project>, p: Project)
    requires NewestFirst(rows) && p in rows
    ensures p == rows[0] || p.createdAt < rows[0].createdAt
  {
    var i :| 0 <= i < |rows| && rows[i] == p;
  }

  // ---- projects: INSERT ----------------------------------------------------

  /** The row `INSERT INTO projects (id, user_id, name, content, preference)`
      stores: `preference || 0`, and `completed` from its column default. */
  function NewRow(id: string, uid: nat, name: string, content: Option<string>,
                  preference: Option<int>, now: nat): Project
  {
    Project(id, uid, name, content, Some(preference.GetOr(0)), false, now)
  }

  /** A new row comes first in its owner's listing and leaves every other
      owner's listing as it was. */
  lemma ListingAfterInsert(projects: seq<Project>, p: Project, uid: nat)
    ensures Listing(projects + [p], uid)
         == if p.userId == uid then [p] + Listing(projects, uid) else Listing(projects, uid)
  {
    FilterSnoc(projects, p, OwnedBy(uid));
    var owned := Owned(projects, uid);
    if p.userId == uid {
      ReverseCons(owned, p);
    } else {
      assert owned + [] == owned;
    }
  }

  lemma {:induction false} ReverseCons(s: seq<Project>, x: Project)
    ensures Reverse(s + [x]) == [x] + Reverse(s)
  {
    if s != [] {
      assert (s + [x])[1..] == s[1..] + [x];
      ReverseCons(s[1..], x);
    }
  }

  lemma InsertProjectValid(users: seq<User>, projects: seq<Project>, nextUserId: nat, clock: nat,
                           p: Project)
    requires TablesValid(users, projects, nextUserId, clock)
    requires p.createdAt == clock && !ProjectIdTaken(projects, p.id) && UserExists(users, p.userId)
    requires FitsInteger(p.preference)
    ensures TablesValid(users, projects + [p], nextUserId, clock + 1)
  {
    var ps := projects + [p];
    forall i, j | 0 <= i < j < |ps| ensures Earlier(ps[i], ps[j]) {
      if j == |projects| {
        assert ps[i] == projects[i];
      } else {
        assert ps[i] == projects[i] && ps[j] == projects[j];
      }
    }
  }

  // ---- projects: UPDATE ----------------------------------------------------

  /** One row under `UPDATE projects SET preference = ?, completed = ?
      WHERE id = ? AND user_id = ?`. */
  function Touch(p: Project, id: string, uid: nat, preference: Option<int>, completed: bool): Project {
    if p.id == id && p.userId == uid then p.(preference := preference, completed := completed) else p
  }

  function UpdateRows(projects: seq<Project>, id: string, uid: nat,
                      preference: Option<int>, completed: bool): (r: seq<Project>)
    ensures |r| == |projects|
  {
    if projects == [] then []
    else [Touch(projects[0], id, uid, preference, completed)]
         + UpdateRows(projects[1..], id, uid, preference, completed)
  }

  /** Row `k` after the update is row `k` before it, touched. */
  lemma {:induction false} UpdateRowsAt(projects: seq<Project>, id: string, uid: nat,
                                        preference: Option<int>, completed: bool, k: nat)
    requires k < |projects|
    ensures UpdateRows(projects, id, uid, preference, completed)[k]
         == Touch(projects[k], id, uid, preference, completed)
  {
    if k > 0 {
      UpdateRowsAt(projects[1..], id, uid, preference, completed, k - 1);
    }
  }

  /** The update changes only `preference` and `completed`, only of the rows
      matching both the id and the owner, and nothing else. */
  lemma UpdateChangesOnlyMatchedRows(projects: seq<Project>, id: string, uid: nat,
                                     preference: Option<int>, completed: bool)
    ensures var r := UpdateRows(projects, id, uid, preference, completed);
      forall k :: 0 <= k < |projects| ==>
        && r[k].id == projects[k].id && r[k].userId == projects[k].userId
        && r[k].name == projects[k].name && r[k].content == projects[k].content
        && r[k].createdAt == projects[k].createdAt
        && (if projects[k].id == id && projects[k].userId == uid
            then r[k].preference == preference && r[k].completed == completed
            else r[k] == projects[k])
  {
    forall k | 0 <= k < |projects| {
      UpdateRowsAt(projects, id, uid, preference, completed, k);
    }
  }

  /** Another owner's rows are never touched by an update. */
  lemma {:induction false} UpdateIsolation(projects: seq<Project>, id: string, uid: nat,
                                           preference: Option<int>, completed: bool, other: nat)
    requires other != uid
    ensures Owned(UpdateRows(projects, id, uid, preference, completed), other) == Owned(projects, other)
  {
    if projects != [] {
      UpdateIsolation(projects[1..], id, uid, preference, completed, other);
      var r := UpdateRows(projects, id, uid, preference, completed);
      assert r[0] == Touch(projects[0], id, uid, preference, completed);
      assert r[1..] == UpdateRows(projects[1..], id, uid, preference, completed);
    }
  }

  /** An update that matches no row (an unknown id, or another owner's
      project) leaves the table as it was. */
  lemma {:induction false} UpdateNoMatch(projects: seq<Project>, id: string, uid: nat,
                                         preference: Option<int>, completed: bool)
    requires forall k :: 0 <= k < |projects| ==> !(projects[k].id == id && projects[k].userId == uid)
    ensures UpdateRows(projects, id, uid, preference, completed) == projects
  {
    if projects != [] {
      UpdateNoMatch(projects[1..], id, uid, preference, completed);
      assert projects == [projects[0]] + projects[1..];
    }
  }

  /** Repeating an update changes nothing more. */
  lemma UpdateIdempotent(projects: seq<Project>, id: string, uid: nat,
                         preference: Option<int>, completed: bool)
    ensures UpdateRows(UpdateRows(projects, id, uid, preference, completed), id, uid, preference, completed)
         == UpdateRows(projects, id, uid, preference, completed)
  {
    var once := UpdateRows(projects, id, uid, preference, completed);
    var twice := UpdateRows(once, id, uid, preference, completed);
    forall k | 0 <= k < |projects| ensures twice[k] == once[k] {
      UpdateRowsAt(projects, id, uid, preference, completed, k);
      UpdateRowsAt(once, id, uid, preference, completed, k);
    }
  }

  lemma UpdateValid(users: seq<User>, projects: seq<Project>, nextUserId: nat, clock: nat,
                    id: string, uid: nat, preference: Option<int>, completed: bool)
    requires TablesValid(users, projects, nextUserId, clock) && FitsInteger(preference)
    ensures TablesValid(users, UpdateRows(projects, id, uid, preference, completed), nextUserId, clock)
  {
    var r := UpdateRows(projects, id, uid, preference, completed);
    forall i, j | 0 <= i < j < |r| ensures Earlier(r[i], r[j]) {
      UpdateRowsAt(projects, id, uid, preference, completed, i);
      UpdateRowsAt(projects, id, uid, preference, completed, j);
    }
    forall i | 0 <= i < |r|
      ensures r[i].createdAt < clock && UserExists(users, r[i].userId) && FitsInteger(r[i].preference)
    {
      UpdateRowsAt(projects, id, uid, preference, completed, i);
    }
  }

  // ---- projects: DELETE ----------------------------------------------------

  function Unmatched(id: string, uid: nat): Project -> bool {
    (p: Project) => !(p.id == id && p.userId == uid)
  }

  /** `DELETE FROM projects WHERE id = ? AND user_id = ?`. */
  function DeleteRows(projects: seq<Project>, id: string, uid: nat): seq<Project> {
    Filter(projects, Unmatched(id, uid))
  }

  /** The delete removes exactly the rows matching both the id and the
      owner, and keeps the others in their order. */
  lemma DeleteRemovesOnlyMatchedRows(projects: seq<Project>, id: string, uid: nat)
    ensures forall p :: p in DeleteRows(projects, id, uid) ==> p in projects && !(p.id == id && p.userId == uid)
    ensures forall p :: p in projects && !(p.id == id && p.userId == uid) ==> p in DeleteRows(projects, id, uid)
    ensures Subsequence(DeleteRows(projects, id, uid), projects)
  {
    FilterMembership(projects, Unmatched(id, uid));
    FilterIsSubsequence(projects, Unmatched(id, uid));
  }

  /** Another owner's rows are never removed by a delete. */
  lemma {:induction false} DeleteIsolation(projects: seq<Project>, id: string, uid: nat, other: nat)
    requires other != uid
    ensures Owned(DeleteRows(projects, id, uid), other) == Owned(projects, other)
  {
    if projects != [] {
      DeleteIsolation(projects[1..], id, uid, other);
    }
  }

  /** A delete that matches no row leaves the table as it was. */
  lemma DeleteNoMatch(projects: seq<Project>, id: string, uid: nat)
    requires forall k :: 0 <= k < |projects| ==> !(projects[k].id == id && projects[k].userId == uid)
    ensures DeleteRows(projects, id, uid) == projects
  {
    FilterAll(projects, Unmatched(id, uid));
  }

  /** Deleting twice is deleting once. */
  lemma DeleteIdempotent(projects: seq<Project>, id: string, uid: nat)
    ensures DeleteRows(DeleteRows(projects, id, uid), id, uid) == DeleteRows(projects, id, uid)
  {
    FilterIdempotent(projects, Unmatched(id, uid));
  }

  lemma DeleteValid(users: seq<User>, projects: seq<Project>, nextUserId: nat, clock: nat,
                    id: string, uid: nat)
    requires TablesValid(users, projects, nextUserId, clock)
    ensures TablesValid(users, DeleteRows(projects, id, uid), nextUserId, clock)
  {
    var r := DeleteRows(projects, id, uid);
    FilterPairwise(projects, Unmatched(id, uid), Earlier);
    FilterMembership(projects, Unmatched(id, uid));
    forall i | 0 <= i < |r|
      ensures r[i].createdAt < clock && UserExists(users, r[i].userId) && FitsInteger(r[i].preference)
    {
      assert r[i] in r;
      var k :| 0 <= k < |projects| && projects[k] == r[i];
    }
  }
}
