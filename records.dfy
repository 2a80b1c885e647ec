/** The records the server keeps in memory and the responses it sends. */
module Records {
  import opened Wrappers

  /** A point in time as the caller's clock gives it (`new Date()`). */
  type Timestamp = int

  /** A registered account. `passwordHash` is the bcrypt digest; `role` is the
      string stored at registration ("admin" grants the admin routes). */
  datatype User = User(id: int, email: string, passwordHash: string, firstName: string, role: string)

  /** A to-do item. The two seeded tasks carry no creation time. */
  datatype Task = Task(id: int, userId: int, title: string, description: string,
                       completed: bool, createdAt: Option<Timestamp>)

  /** The payload of a session token: `{ id, role }`. */
  datatype Claims = Claims(id: int, role: string)

  /** The user as the login response shows it: no name, no hash. */
  datatype PublicUser = PublicUser(id: int, email: string, role: string)

  function View(u: User): PublicUser
  {
    PublicUser(u.id, u.email, u.role)
  }

  /** The JSON body of a response. `LoggedIn.account` is sent under the key
      `user`; `LoggedIn.token` is the payload signed
      into the `token` cookie. */
  datatype Body =
    | Message(message: string)
    | Registered(message: string, newUser: User)
    | LoggedIn(message: string, account: PublicUser, token: Claims)
    | Profile(user: Option<User>)
    | TaskList(tasks: seq<Task>)
    | TaskAdded(message: string, task: Task)
    | UserList(users: seq<User>)

  datatype Response = Response(status: int, body: Body)

  const EmailTaken := Response(400, Message("Email already registered"))
  const RegisteredMessage := "User registered successfully"
  const BadCredentials := Response(400, Message("Invalid email or password"))
  const LoginMessage := "Login successful"
  const NoToken := Response(401, Message("No token provided"))
  const BadToken := Response(403, Message("Invalid or expired token"))
  const TaskAddedMessage := "Task added"
  const TaskNotFound := Response(404, Message("Task not found or not authorized"))
  const TaskDeleted := Response(200, Message("Task deleted successfully"))
  const AdminsOnly := Response(403, Message("Access denied. Admins only."))

  /** The two accounts present at startup, once their passwords (both
      "password123") have been hashed to `adminHash` and `userHash`. */
  function SeedUsers(adminHash: string, userHash: string): seq<User>
  {
    [ User(1, "admin@test.com", adminHash, "Admin", "admin"),
      User(2, "user@test.com", userHash, "User", "user") ]
  }

  /** The two tasks present at startup. */
  function SeedTasks(): seq<Task>
  {
    [ Task(1, 1, "Admin Task", "Admin only task", false, None),
      Task(2, 2, "User Task", "Regular user task", false, None) ]
  }
}
