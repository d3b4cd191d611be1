# project-list: owner-scoped project store with token authentication

This project models the core of a small project-list application and proves
properties of the model in Dafny.

- **The server.** Users register and log in with a password. Login returns
  a 24-hour bearer token. With that token a user lists, creates, updates and
  deletes their own projects. The server keeps two tables, `users` and
  `projects`, and every route handler is one atomic transition on them.
- **The client list.** The browser keeps a list of projects in its own
  state. It can add a project, toggle completion, set a preference, delete a
  project and clear the completed ones.

Modules, one per file:

- `Wrappers` (wrappers.dfy): `Option` for JavaScript's `undefined`/`null`,
  and `Result`.
- `Seqs` (seqs.dfy): `Filter` (JavaScript's `Array.prototype.filter`) and
  `Reverse`, with their lemmas (membership, order, idempotence).
- `Headers` (headers.dfy): `authHeader.split(' ')[1]`, as `Split` plus
  `BearerToken`.
- `Tokens` (tokens.dfy): the JWT, as an abstract record. It holds the
  claims `{id, username}`, the issue and expiry times and whether the
  signature checks.
- `Credentials` (credentials.dfy): the bcrypt hash, as an abstract digest.
- `Schema` (schema.dfy): the tables and their constraints, from
  `server/database/init.js`. It also gives each SQL statement's meaning as a
  function on the tables, with lemmas.
- `Server` (server.dfy): the class `Api`. It holds the two tables, the
  serial counter for `users.id` and a clock for `created_at`. Its methods are
  the six route handlers, and its function `Gate` is `authenticateToken`.
- `Client` (client.dfy): the class `Board`. It holds the `projects` state
  of `src/components/Main.jsx`, and its methods are the handlers.

Outside inputs become parameters:

- the current time `now`, in seconds;
- the bcrypt salt;
- the uuid of a new client project;
- a `fault` flag for an unexpected store failure, which every handler turns
  into its 500 answer.

`jwt.sign` and the decoding half of `jwt.verify` are two constant fields of
`Api`. The constructor requires the library's promise about them
(`SoundCodec`): a signed token decodes back to itself, is non-empty and has
no space.

Two methods, `Server.RegisterAndLogin` and `Server.ProjectLifecycle`, walk
through one user's session using only the handlers' contracts. They go from
registration to deletion, and end with a missing token and an expired one.

Behaviour of the code worth knowing:

- **The scheme word is unchecked.** `authenticateToken` only takes the
  second space-separated field of the header. `Basic abc` yields the token
  `abc`.
- **Expiry starts at the expiry second.** `jsonwebtoken` rejects a token
  once `now >= exp`.
- **An empty project name is accepted.** The server's insert only rejects a
  missing name (`NOT NULL`).
- **A missing preference on update writes NULL.** `PUT` stores the body's
  `preference` as given, so the `preference` column is nullable in the
  model.
- **Login without a password gets no answer.** For an existing user,
  `bcrypt.compare(undefined, …)` rejects inside the callback and no
  response is sent (`NoResponse`). Nothing handles that rejection, so on
  current Node.js the whole server process then exits; the model only
  records the missing answer (see "Left out").
- **Only the column width bounds a preference.** Any integer in the
  32-bit `INTEGER` range is stored; a larger or smaller one makes the
  INSERT or UPDATE fail, and the handler answers 500.
- **Another owner's project is a successful no-op.** Update and delete of
  such a project answer 200 and change nothing.

## Model

| member | source | states |
|---|---|---|
| `Headers.Split` | server/index.js:19 | `split(' ')` always gives at least one field, and no field holds a space |
| `Headers.JoinSplit` | server/index.js:19 | joining the fields with single spaces gives back the header, so splitting loses nothing |
| `Headers.BearerTokenIsSecondField` | server/index.js:17-23 | the token is `Some(t)` exactly when `t` is non-empty and is the second space-separated field of the header; a missing header, a missing second field or an empty one gives no token |
| `Headers.BearerHeader` | server/index.js:18-19 | the header `Bearer <t>` yields `t` for any non-empty token without spaces |
| `Tokens.Verify` | server/index.js:25-29 | verification succeeds exactly for a token that decodes, has a valid signature and is not yet expired (`now < exp`), and then returns its signed claims; otherwise the error names which of the three failed |
| `Tokens.IssuedTokenLifetime` | server/index.js:78 | an issued token verifies to its claims before issue time + 24 h and fails as expired from then on |
| `Credentials.CompareHash` | server/index.js:42 | a digest accepts the password it was made from and no other, whatever the salt |
| `Schema.FindUser` | server/index.js:65 | the lookup returns a user with exactly that username; it returns none only when no such user exists or the username is missing |
| `Schema.FindUserUnique` | server/database/init.js:20 | with unique usernames, looking up a user's name finds that very user |
| `Schema.FindUserAppend` | server/index.js:44-46 | after an insert, a lookup finds the new user for its name if that name was not there before, and otherwise finds what it found before |
| `Schema.InsertUserValid` | server/database/init.js:17-23 | inserting a user whose name is not taken, with the next serial id, keeps both tables valid |
| `Schema.ListingIsOwnedNewestFirst` | server/index.js:84-86 | the listing holds exactly the caller's rows (possibly none), in strictly decreasing `created_at` order |
| `Schema.NewestFirstUnique` | server/index.js:85 | two newest-first sequences with the same rows are equal, so the ORDER BY result is determined |
| `Schema.ListingAfterInsert` | server/index.js:99-101 | a new row comes first in its owner's listing and leaves every other owner's listing unchanged |
| `Schema.InsertProjectValid` | server/database/init.js:27-38 | inserting a row with a new primary key, an existing owner, a preference within the 32-bit `INTEGER` range and the current time keeps the tables valid |
| `Schema.UpdateRows` | server/index.js:116 | the UPDATE keeps the number of rows |
| `Schema.UpdateRowsAt` | server/index.js:116 | row k after the update is row k before it, with `preference` and `completed` set if it matches both id and owner |
| `Schema.UpdateChangesOnlyMatchedRows` | server/index.js:115-117 | only `preference` and `completed` change, only on rows matching both id and owner; id, owner, name, content and creation time never change |
| `Schema.UpdateIsolation` | server/index.js:116 | another owner's rows are identical before and after any update by the caller |
| `Schema.UpdateNoMatch` | server/index.js:115-122 | an update that matches no row leaves the table unchanged |
| `Schema.UpdateIdempotent` | server/index.js:116 | applying the same update twice equals applying it once |
| `Schema.UpdateValid` | server/database/init.js:27-38 | an update whose preference fits the `INTEGER` column keeps the tables valid |
| `Schema.DeleteRemovesOnlyMatchedRows` | server/index.js:131 | a row survives the delete exactly when it does not match both id and owner, and survivors keep their order |
| `Schema.DeleteIsolation` | server/index.js:131 | another owner's rows are identical before and after any delete by the caller |
| `Schema.DeleteNoMatch` | server/index.js:130-138 | a delete that matches no row leaves the table unchanged |
| `Schema.DeleteIdempotent` | server/index.js:131 | deleting twice equals deleting once |
| `Schema.DeleteValid` | server/database/init.js:27-38 | a delete keeps the tables valid |
| `Server.Status` | server/index.js:22-138 | every response body has one status, which is one of 200, 201, 400, 401, 403 and 500; it is 2xx exactly for non-error bodies and 201 exactly for registration and creation |
| `Server.Api.constructor` | server/database/init.js:14-38 | on a new database the store starts with both tables empty and the serial at 1 |
| `Server.Api.Gate` | server/index.js:17-32 | no token gives 401 (`AuthRequired`) and only then; 403 (`InvalidToken`) exactly when a token is present and fails verification (undecodable, bad signature or expired); an accepted request runs as exactly the claims of its verified token |
| `Server.Api.GateAcceptsIssuedToken` | server/index.js:78 | `Bearer <token from login>` is accepted as exactly the issued claims for 24 hours and refused with 403 afterwards |
| `Server.Api.Register` | server/index.js:34-60 | a missing or empty username or password gives 400; a taken username gives 400; in both cases and on a store failure (500) nothing changes; otherwise exactly one user is appended with the next id, the hash of the password and the current time, and 201 returns that id |
| `Server.Api.Login` | server/index.js:62-81 | an unknown username and a wrong password give the same 401; a correct password returns a token whose claims are that user's id and username with a 24 h expiry, plus the username; the store is only read |
| `Server.Api.ListProjects` | server/index.js:83-94 | the gate runs first; the answer is 200 with exactly the caller's rows, newest first (empty when there are none), or 500 on a store failure |
| `Server.Api.CreateProject` | server/index.js:96-109 | the row is owned by the caller whatever the body says; `preference` is 0 when falsy and `completed` is false; a missing id or name, a duplicate id, an unknown owner, a preference outside the 32-bit `INTEGER` range or a store failure gives 500 and nothing changes |
| `Server.Api.UpdateProject` | server/index.js:111-125 | sets `preference` and `completed` (as the truthiness of the body value) only on the caller's row with that id; users and every other row are unchanged; a zero-row match still answers 200; a preference outside the 32-bit `INTEGER` range or a store failure gives 500 and nothing changes |
| `Server.Api.DeleteProject` | server/index.js:127-140 | removes only the caller's row with that id and keeps the rest in order; a zero-row match still answers 200 |
| `Client.AddKeepsIdsDistinct` | src/components/Main.jsx:22-23 | appending a project whose uuid is fresh keeps all ids distinct |
| `Client.FirstIndexOf` | src/components/Main.jsx:37 | `find` lands on a project with the id, and no earlier project has it |
| `Client.ToggledChangesOnlyFirstMatch` | src/components/Main.jsx:35-40 | toggling flips `completed` of the first project with the id; the length, the order and every other project are unchanged |
| `Client.ToggleTwice` | src/components/Main.jsx:35-40 | toggling the same id twice gives back the list |
| `Client.WithPreference` | src/components/Main.jsx:43-45 | the `map` keeps the length of the list |
| `Client.WithPreferenceAt` | src/components/Main.jsx:42-47 | every project with the id gets the new preference with its other fields unchanged, and every other project is unchanged |
| `Client.Without` | src/components/Main.jsx:50-53 | exactly the projects with another id remain, each occurrence kept (equal counts in the multiset), in their original relative order |
| `Client.WithoutIdempotent` | src/components/Main.jsx:51 | deleting an id twice equals deleting it once |
| `Client.Uncompleted` | src/components/Main.jsx:55-58 | exactly the projects not completed remain, each occurrence kept (equal counts in the multiset), in their original relative order, so none left is completed |
| `Client.UncompletedIdempotent` | src/components/Main.jsx:56 | clearing twice equals clearing once |
| `Client.Board.constructor` | src/components/Main.jsx:8-10 | the list starts with the single seeded project, id 1 |
| `Client.Board.AddProject` | src/components/Main.jsx:15-33 | an empty name leaves the list unchanged; otherwise exactly one project is appended with the given name and content, `completed` false, `preference` 0 and the drawn uuid, after the unchanged earlier projects |
| `Client.Board.ToggleProject` | src/components/Main.jsx:35-40 | requires a project with the id; the new list is the old one with the first match's `completed` flipped |
| `Client.Board.UpdatePreference` | src/components/Main.jsx:42-47 | the new list is the `map` that sets the preference of every project with the id |
| `Client.Board.DeleteProject` | src/components/Main.jsx:50-53 | the new list is the old one without the projects of that id |
| `Client.Board.ClearCompleted` | src/components/Main.jsx:55-58 | the new list is the old one without its completed projects |

## Left out

- React rendering, the `Login`, `Header`, `ProjectList` and `Project` components, `window.confirm`, `alert`, `localStorage` and the clearing of the input fields after an add (src/components/Main.jsx:31-32): display and event wiring, with no logic to state.
- bcrypt internals: the digest is abstract and commits to its password. The salt is a parameter. bcrypt's 72-byte password truncation is not modelled.
- JWT internals: signing, signature checking and the token's text are abstract. The `nbf`/`iat` checks of `jsonwebtoken` are not modelled.
- Server.Api.Gate: the principal is `{id, username}`; the `iat` and `exp` fields that `jwt.verify` also puts in `req.user` are not carried.
- Store failures other than constraint violations are the `fault` flag, not a model of the database.
- The `try`/`catch` around `bcrypt.hash` (server/index.js:57-59) is not modelled: body fields are strings or absent, and `bcrypt.hash` only throws for other values.
- Body values of other JSON types are not modelled. These are usernames or passwords that are not strings, and preferences that are not integers. Integer preferences outside 0–5 but within the 32-bit `INTEGER` range are accepted, as in the source; outside that range the INSERT or UPDATE fails with 500.
- Driver mismatch: the handlers call SQLite-style `db.run/get/all` on a PostgreSQL `Pool` (server/database/init.js:48). The model gives each statement its SQL meaning. It reads the `UNIQUE` message test (server/index.js:49) as detecting the unique-username violation, which is SQLite's wording. PostgreSQL's message does not contain that word.
- Server.Api.Register: the serial id advances only on a successful insert. PostgreSQL's `SERIAL` also consumes a value on a failed insert.
- `created_at` is a store clock that increases with every insert, so no two rows tie. Ties between real timestamps, and the order the database would give them, are not modelled.
- Server.Api.Login: with an existing username and no password, the unhandled rejection of `bcrypt.compare` inside the `db.get` callback (server/index.js:65,73) ends the Node.js process. The model returns `NoResponse` and keeps serving, so the process exit and the loss of service for later requests are not captured.
- Concurrency: each handler is one atomic step; concurrent requests and async scheduling are not modelled.
- Restarts: `CREATE TABLE IF NOT EXISTS` keeps existing rows, so `Server.Api.constructor` models a start on a new database only. Every handler requires only the table invariant, so it applies after a restart too.
- Express setup, CORS, JSON parsing, `app.listen`, `dotenv` and the `JWT_SECRET` fallback (server/index.js:1-15, 142-144), the connection setup and logging of server/database/init.js:1-13 and server/database.js, and `initDatabase`'s DDL execution are not modelled.
- Client.Board.ToggleProject: the source mutates the project object shared with the previous state array. The model replaces the element by value, so this aliasing is not captured.
- Client.Board.AddProject: the uuid is a parameter; its freshness is the hypothesis of `Client.AddKeepsIdsDistinct`, not a guarantee.
