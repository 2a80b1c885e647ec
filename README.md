# token-cookie-project: authentication and task store, modelled in Dafny

The server keeps two collections in process memory: registered users and to-do tasks.
Anyone can register and log in. Logging in yields a signed session token `{ id, role }`, sent back as a cookie.
Protected routes pass through an authenticated gate:
- a missing token gets 401;
- a token that fails verification gets 403;
- otherwise the handler runs with the token's claims.

The admin routes add a second gate, which refuses every role except `"admin"`.
A caller can list, create and delete their own tasks.
Admins can list every user and every task.

The model has seven modules:
- `Wrappers`: `Option`.
- `Collections`: the JavaScript `find` and `filter` the handlers are written with, and their laws.
- `Records`: users, tasks, token claims, response bodies, the fixed responses and the seeded state.
- `Stores`: the lookups, listings and record builders on the two collections, the user-store invariants, and the lemmas about ownership and deletion.
- `Gates`: the authenticated gate, the admin gate and the two in sequence.
- `Server`: class `App`, holding `users: seq<User>` and `tasks: seq<Task>`. It has one method per route. Each method runs the gates and then the handler, and its postcondition gives the response and the whole new state.
- `Scenarios`: client methods that run request sequences against `App` and state what the caller sees.

The user store keeps two invariants, packaged as `App.Valid()`:
- every user's id is its position plus one;
- no two users share an email.

The seeded state establishes both, and every registration preserves them.

The task store keeps no invariant. A new task's id is the current count plus one, so after a deletion it can equal an id still in use.
`DELETE /tasks/:id` first checks that the caller owns a task with that id. It then removes every task with that id, whoever owns it.
The model keeps this behaviour as it is:
- `Stores.DeleteThenList` states exactly what each owner loses.
- `Stores.DeleteSparesOthers` proves that other owners lose nothing when ids are distinct.
- `Scenarios.CrossOwnerDeletion` starts from the seeded state. It shows the admin deleting their own task, creating a task that receives the id 2 of the user's task, and then deleting task 2, which also removes the user's task.

Three facts about the code that the model keeps as they are:
- A role is any non-empty string given at registration, so anyone can register with role `"admin"`.
- Delete filters on the id alone, not the owner, as described above.
- The owner field of a task is `userId`.

Opaque parts are parameters:
- `passwordHash` is the bcrypt digest of the submitted password.
- `matches(plain, hash)` is bcrypt's comparison.
- `verify(token)` is the JWT signature-and-expiry check at the time of the request.
- `now` is the creation time of a task.

## Model

| member | source | states |
|---|---|---|
| `Collections.Find` | server.js:61 | `find` returns nothing exactly when no element matches; otherwise it returns a matching element that no earlier element matches |
| `Collections.Filter` | server.js:106 | `filter` never returns more elements than its input |
| `Collections.FilterMembers` | server.js:106 | every element `filter` returns comes from the input and satisfies the predicate; every input element that satisfies it is returned |
| `Collections.FilterAppend` | server.js:106 | filtering distributes over concatenation, which fixes the result's order to the input's order |
| `Collections.FilterCount` | server.js:132 | as a multiset, the result of `filter` is exactly the selected part of the input, with every occurrence of a selected element kept |
| `Collections.FilterCommute` | server.js:132 | two filters give the same result in either order |
| `Collections.FilterKeepsAll` | server.js:132 | a filter that every element passes returns its input unchanged |
| `Stores.UserByEmail` | server.js:43 | nothing exactly when no user has that exact (case-sensitive) email; otherwise a user of the store with that email, the first one by `Collections.Find` |
| `Stores.UserById` | server.js:100 | nothing exactly when no user has that id; otherwise a user of the store with that id |
| `Stores.NewUser` | server.js:48-54 | the new record continues the id sequence (ids equal to position plus one stay so after appending it) and its role is never empty; id = count + 1 is stated by `Server.App.Register` |
| `Stores.TasksOf` | server.js:106 | no longer than the store, and every listed task belongs to the owner; completeness and multiplicity by `Stores.TasksOfExact`, order by `Collections.FilterAppend` |
| `Stores.OwnedTask` | server.js:127-128 | nothing exactly when no task has both the requested id and the owner; an id that did not parse (None, for NaN) matches nothing; a found task is in the store with that id and owner |
| `Stores.WithoutId` | server.js:132 | no remaining task has the id, whoever owned it; the owner is not consulted; what each owner keeps is stated by `Stores.DeleteThenList` |
| `Stores.NewTask` | server.js:113-120 | no contract; specified through `Server.App.CreateTask`: id = count + 1 regardless of ids still in use, the caller as owner, not completed, the given creation time |
| `Stores.RoleOrDefault` | server.js:53 | a stored role is never empty; a non-empty requested role is stored as given; any role other than "user" was requested |
| `Stores.SeedUsersValid` | server.js:18-21 | the two seeded accounts have ids 1 and 2 at positions 0 and 1 and distinct emails |
| `Stores.RegisterKeepsInvariants` | server.js:43-55 | appending a registration whose email is not taken keeps ids equal to position plus one and keeps emails distinct |
| `Stores.UserByEmailUnique` | server.js:61 | with distinct emails, the email lookup returns the one user with that email, and nothing exactly when nobody has it |
| `Stores.UserByIdPosition` | server.js:100 | with sequential ids, the id lookup returns the user at position id - 1, and nothing for an id outside 1..count |
| `Stores.TasksOfExact` | server.js:106 | a caller's listing contains every task they own, as often as it occurs in the store, and no task of anyone else |
| `Stores.TasksOfAppend` | server.js:113-121 | a created task is appended to its owner's listing and appears in no other owner's listing, which stays unchanged |
| `Stores.DeleteThenList` | server.js:132 | after deleting an id, each owner's listing is their former listing without that id, in the same order, whoever asked |
| `Stores.DeleteSparesOthers` | server.js:128-132 | when task ids are distinct, a delete by the owner leaves every other owner's listing unchanged |
| `Gates.HasToken` | server.js:86-88 | no contract; the token is truthy: present and not the empty string; specified through `Gates.Authenticate` |
| `Gates.Authenticate` | server.js:85-97 | the handler runs exactly when a non-empty token verifies, and then with the verified claims; refusals are 401 "No token provided" exactly when no token is present, and 403 "Invalid or expired token" otherwise |
| `Gates.RequireAdmin` | server.js:136-141 | passes exactly when the role is "admin", keeping the claims; otherwise 403 "Access denied. Admins only." |
| `Gates.AuthenticateAdmin` | server.js:144 | an admin route lets a request through exactly when its token verifies to claims with role "admin"; without a token the answer is 401 "No token provided", with a token that fails verification 403 "Invalid or expired token", and for verified non-admin claims 403 "Access denied. Admins only." |
| `Records.View` | server.js:77 | no contract; the user as the login response shows it (id, email, role); specified through `Server.App.Login` |
| `Records.SeedUsers` | server.js:18-21 | no contract; the two startup accounts, with their hashed passwords as inputs; specified through `Stores.SeedUsersValid` and `Server.App.constructor` |
| `Records.SeedTasks` | server.js:24-27 | no contract; the two startup tasks, without creation times; specified through `Server.App.constructor` |
| `Server.App.Valid` | server.js:43-55 | no contract; the user-store invariant: every id is its position plus one and no two users share an email; established by the constructor, required and kept by `Register`, `CreateTask` and `DeleteTask` |
| `Server.App.constructor` | server.js:18-27 | the startup state is the two seeded users, with hashed passwords, and the two seeded tasks; the user invariants hold |
| `Server.App.Register` | server.js:40-57 | 400 "Email already registered" exactly when some user has the exact email, leaving users unchanged; otherwise 201 and exactly one user appended with id = old count + 1 and the defaulted role, earlier users unchanged and in order; tasks never change; invariants kept |
| `Server.App.Login` | server.js:59-77 | 200 exactly when a user with that email has a matching password; then the response shows that user's id, email and role and signs `{ id, role }` into the token; unknown email and wrong password give the same 400 "Invalid email or password"; no state changes |
| `Server.App.GetProfile` | server.js:99-102 | behind the authenticated gate, 200 with the user at position id - 1 for the token's id, or no user when no user has that id |
| `Server.App.ListTasks` | server.js:105-108 | behind the authenticated gate, 200 with exactly the caller's tasks in store order; no state changes |
| `Server.App.CreateTask` | server.js:111-123 | behind the authenticated gate, 201 and exactly one task appended with id = old count + 1, the caller as owner, `completed = false` and the given creation time; existing tasks and users unchanged; a refused request changes nothing; the user-store invariant is kept |
| `Server.App.DeleteTask` | server.js:126-134 | behind the authenticated gate: 404 "Task not found or not authorized" exactly when no task has both the id and the caller as owner, whether the id is absent, unparsable or another owner's, with tasks unchanged; otherwise 200, no task with that id remains, and every task with another id is kept in order; users and the user-store invariant are unchanged |
| `Server.App.AdminUsers` | server.js:144-146 | behind both gates, 200 with every user record; the method cannot change state |
| `Server.App.AdminTasks` | server.js:149-151 | behind both gates, 200 with every task; the method cannot change state |
| `Scenarios.RegisterAndLogin` | server.js:40-77 | registering a@x.com gives 201, registering it again gives 400, A@x.com is a different email (201), and logging in as a@x.com gives 200 with token claims `{ id: 3, role: "user" }` |
| `Scenarios.OwnTaskLifecycle` | server.js:105-134 | a caller creates a task (201, id 3, owned by them, not completed), lists exactly that task, deletes it (200) and then lists nothing |
| `Scenarios.CrossOwnerDeletion` | server.js:114-132 | from the seeded state, the admin deletes task 1, creates a task that reuses id 2, and deletes task 2 successfully; the user's task, listed before, is gone afterwards |

## Left out

- Password hashing and comparison (server.js:34, 47, 65) come from bcrypt. The hash is an input to `Register` and the comparison an input to `Login`. Salting and the one-way property are not modelled.
- Token signing and verification (server.js:68, 91), including the one-hour expiry, come from the JWT library. `Login` returns the payload `{ id, role }` to be signed. Protected routes take the verification as a function of the token. The `iat` and `exp` fields of the decoded token are not modelled.
- Cookie options and cookie clearing (server.js:70-75, 81) are transport details. The `/logout` route (server.js:80-83) is not part of this model: it only clears the cookie and changes no state.
- Express setup, body and cookie parsing, `dotenv` and `app.listen` (server.js:2-15, 153-157) are not modelled.
- Startup hashing of the seeded passwords (server.js:30-38) runs in the background. The model starts from the state after it finishes. Not modelled: requests served before then see empty hashes, and a registration made before then is lost when line 31 reassigns `users`.
- Requests are modelled as atomic. In the source, `/register` waits for the hash (server.js:47) between the duplicate check and the append. Two concurrent registrations of one email can both pass the check, so the distinct-email invariant holds only for requests handled one at a time.
- `new Date()` (server.js:119) is the `now` parameter.
- `parseInt` of the route parameter (server.js:127) is modelled by its outcome: an optional integer, with None for NaN, which matches no task.
- Request bodies are modelled as strings. A missing field (`undefined`) or a non-string JSON value for email, password, name, title or description is not modelled. The role is optional and, when present, a string.
- JSON encoding is not modelled. For example, `{ user: undefined }` is sent as `{}` and is modelled as `Profile(None)`.
- `Collections.Filter`: its own contract bounds only the length of the result. Membership, order and multiplicity are stated by the `FilterMembers`, `FilterAppend` and `FilterCount` lemmas.
