/** The server's state and its routes. Each method handles one request to
    completion: the gates first, then the handler. */
module Server {
  import opened Wrappers
  import opened Collections
  import opened Records
  import opened Stores
  import opened Gates

  class App {
    /** The module-level `users` and `tasks` arrays. */
    var users: seq<User>
    var tasks: seq<Task>

    /** What holds of the user collection between requests. The task
        collection has no such invariant: its ids may repeat. */
    ghost predicate Valid()
      reads this
    {
      SequentialIds(users) && DistinctEmails(users)
    }

    /** The state at startup, after the seeded passwords have been hashed. */
    constructor (adminHash: string, userHash: string)
      ensures Valid()
      ensures users == SeedUsers(adminHash, userHash) && tasks == SeedTasks()
    {
      users := SeedUsers(adminHash, userHash);
      tasks := SeedTasks();
      SeedUsersValid(adminHash, userHash);
    }

    /** POST /register. `passwordHash` is the bcrypt digest of the submitted
        password. */
    method Register(email: string, passwordHash: string, firstName: string, role: Option<string>)
      returns (r: Response)
      requires Valid()
      modifies this
      ensures Valid()
      ensures tasks == old(tasks)
      ensures r.status == 400 <==> exists i | 0 <= i < |old(users)| :: old(users)[i].email == email
      ensures r.status == 400 ==> r == EmailTaken && users == old(users)
      ensures r.status != 400 ==>
                && users == old(users) + [NewUser(old(users), email, passwordHash, firstName, role)]
                && r == Response(201, Registered(RegisteredMessage, users[|users| - 1]))
    {
      UserByEmailUnique(users, email);
      if UserByEmail(users, email).Some? {
        return EmailTaken;
      }
      var newUser := NewUser(users, email, passwordHash, firstName, role);
      RegisterKeepsInvariants(users, email, passwordHash, firstName, role);
      users := users + [newUser];
      r := Response(201, Registered(RegisteredMessage, newUser));
    }

    /** POST /login. `matches` stands for the hash library's comparison of a
        plain password with a stored digest. Both failure causes give the same
        response. */
    method Login(email: string, password: string, matches: (string, string) -> bool)
      returns (r: Response)
      requires Valid()
      ensures r.status == 200 <==>
                exists i | 0 <= i < |users| :: users[i].email == email && matches(password, users[i].passwordHash)
      ensures r.status == 200 ==>
                exists i | 0 <= i < |users| :: && users[i].email == email
                                               && r.body == LoggedIn(LoginMessage, View(users[i]), Claims(users[i].id, users[i].role))
      ensures r.status != 200 ==> r == BadCredentials
    {
      UserByEmailUnique(users, email);
      var user := UserByEmail(users, email);
      if user.None? {
        return BadCredentials;
      }
      var u := user.value;
      if !matches(password, u.passwordHash) {
        return BadCredentials;
      }
      r := Response(200, LoggedIn(LoginMessage, View(u), Claims(u.id, u.role)));
    }

    /** GET /profile: the caller's own record, or none if no user has the id in
        the token (the body is then `{}`). */
    method GetProfile(token: Option<string>, verify: string -> Option<Claims>) returns (r: Response)
      requires Valid()
      ensures Authenticate(token, verify).Halt? ==> r == Authenticate(token, verify).response
      ensures Authenticate(token, verify).Pass? ==>
                var id := Authenticate(token, verify).claims.id;
                r == Response(200, Profile(if 1 <= id <= |users| then Some(users[id - 1]) else None))
    {
      var gate := Authenticate(token, verify);
      if gate.Halt? {
        return gate.response;
      }
      UserByIdPosition(users, gate.claims.id);
      r := Response(200, Profile(UserById(users, gate.claims.id)));
    }

    /** GET /tasks: the caller's tasks, in store order. */
    method ListTasks(token: Option<string>, verify: string -> Option<Claims>) returns (r: Response)
      ensures Authenticate(token, verify).Halt? ==> r == Authenticate(token, verify).response
      ensures Authenticate(token, verify).Pass? ==>
                var id := Authenticate(token, verify).claims.id;
                && r == Response(200, TaskList(TasksOf(tasks, id)))
                && (forall i | 0 <= i < |r.body.tasks| :: r.body.tasks[i] in tasks && r.body.tasks[i].userId == id)
                && (forall i | 0 <= i < |tasks| && tasks[i].userId == id :: tasks[i] in r.body.tasks)
    {
      var gate := Authenticate(token, verify);
      if gate.Halt? {
        return gate.response;
      }
      FilterMembers(tasks, (t: Task) => t.userId == gate.claims.id);
      r := Response(200, TaskList(TasksOf(tasks, gate.claims.id)));
    }

    /** POST /tasks. `now` is the creation time. */
    method CreateTask(token: Option<string>, verify: string -> Option<Claims>,
                      title: string, description: string, now: Timestamp) returns (r: Response)
      requires Valid()
      modifies this
      ensures Valid()
      ensures users == old(users)
      ensures Authenticate(token, verify).Halt? ==>
                r == Authenticate(token, verify).response && tasks == old(tasks)
      ensures Authenticate(token, verify).Pass? ==>
                var t := NewTask(old(tasks), Authenticate(token, verify).claims.id, title, description, now);
                && tasks == old(tasks) + [t]
                && r == Response(201, TaskAdded(TaskAddedMessage, t))
    {
      var gate := Authenticate(token, verify);
      if gate.Halt? {
        return gate.response;
      }
      var newTask := NewTask(tasks, gate.claims.id, title, description, now);
      tasks := tasks + [newTask];
      r := Response(201, TaskAdded(TaskAddedMessage, newTask));
    }

    /** DELETE /tasks/:id. `id` is the parsed route parameter, None when it is
        not a number. The caller must own a task with that id; then every task
        with that id goes, whoever owns it. */
    method DeleteTask(token: Option<string>, verify: string -> Option<Claims>, id: Option<int>)
      returns (r: Response)
      requires Valid()
      modifies this
      ensures Valid()
      ensures users == old(users)
      ensures Authenticate(token, verify).Halt? ==>
                r == Authenticate(token, verify).response && tasks == old(tasks)
      ensures Authenticate(token, verify).Pass? ==>
                var caller := Authenticate(token, verify).claims.id;
                && (r.status == 404 <==> OwnedTask(old(tasks), id, caller).None?)
                && (r.status == 404 ==> r == TaskNotFound && tasks == old(tasks))
                && (r.status != 404 ==> r == TaskDeleted && tasks == WithoutId(old(tasks), id.value))
                && (r.status != 404 ==> forall i | 0 <= i < |tasks| :: Some(tasks[i].id) != id)
                && (r.status != 404 ==>
                      forall i | 0 <= i < |old(tasks)| && Some(old(tasks)[i].id) != id :: old(tasks)[i] in tasks)
    {
      var gate := Authenticate(token, verify);
      if gate.Halt? {
        return gate.response;
      }
      if OwnedTask(tasks, id, gate.claims.id).None? {
        return TaskNotFound;
      }
      FilterMembers(tasks, (t: Task) => t.id != id.value);
      tasks := WithoutId(tasks, id.value);
      r := TaskDeleted;
    }

    /** GET /admin/users: every record, hashes included. */
    method AdminUsers(token: Option<string>, verify: string -> Option<Claims>) returns (r: Response)
      ensures AuthenticateAdmin(token, verify).Halt? ==> r == AuthenticateAdmin(token, verify).response
      ensures AuthenticateAdmin(token, verify).Pass? ==> r == Response(200, UserList(users))
    {
      var gate := AuthenticateAdmin(token, verify);
      if gate.Halt? {
        return gate.response;
      }
      r := Response(200, UserList(users));
    }

    /** GET /admin/tasks: every task of every owner. */
    method AdminTasks(token: Option<string>, verify: string -> Option<Claims>) returns (r: Response)
      ensures AuthenticateAdmin(token, verify).Halt? ==> r == AuthenticateAdmin(token, verify).response
      ensures AuthenticateAdmin(token, verify).Pass? ==> r == Response(200, TaskList(tasks))
    {
      var gate := AuthenticateAdmin(token, verify);
      if gate.Halt? {
        return gate.response;
      }
      r := Response(200, TaskList(tasks));
    }
  }
}
