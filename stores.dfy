/** The lookups, listings and record builders the handlers apply to the user
    and task collections, and what they guarantee. */
module Stores {
  import opened Wrappers
  import opened Collections
  import opened Records

  // ---- User store ----

  /** `users.find(u => u.email === email)`: exact, case-sensitive comparison. */
  function UserByEmail(users: seq<User>, email: string): (r: Option<User>)
    ensures r.None? <==> forall i | 0 <= i < |users| :: users[i].email != email
    ensures r.Some? ==> r.value in users && r.value.email == email
  {
    Find(users, (u: User) => u.email == email)
  }

  /** `users.find(u => u.id === id)`. */
  function UserById(users: seq<User>, id: int): (r: Option<User>)
    ensures r.None? <==> forall i | 0 <= i < |users| :: users[i].id != id
    ensures r.Some? ==> r.value in users && r.value.id == id
  {
    Find(users, (u: User) => u.id == id)
  }

  /** `role || 'user'`: a missing or empty role becomes "user", any other role
      is stored as given. */
  function RoleOrDefault(role: Option<string>): (r: string)
    ensures r != ""
    ensures role.Some? && role.value != "" ==> r == role.value
    ensures r != "user" ==> role == Some(r)
  {
    if role.Some? && role.value != "" then role.value else "user"
  }

  /** The record a successful registration appends. */
  function NewUser(users: seq<User>, email: string, passwordHash: string, firstName: string,
                   role: Option<string>): (u: User)
    ensures SequentialIds(users) ==> SequentialIds(users + [u])
    ensures u.role != ""
  {
    User(|users| + 1, email, passwordHash, firstName, RoleOrDefault(role))
  }

  /** Every user's id is its position plus one, so ids are distinct. */
  ghost predicate SequentialIds(users: seq<User>)
  {
    forall i | 0 <= i < |users| :: users[i].id == i + 1
  }

  /** No two users share an email. */
  ghost predicate DistinctEmails(users: seq<User>)
  {
    forall i, j | 0 <= i < j < |users| :: users[i].email != users[j].email
  }

  /** The seeded accounts satisfy both invariants. */
  lemma SeedUsersValid(adminHash: string, userHash: string)
    ensures SequentialIds(SeedUsers(adminHash, userHash))
    ensures DistinctEmails(SeedUsers(adminHash, userHash))
  {
  }

  /** Appending the record of a registration whose email is not yet taken keeps
      both invariants. */
  lemma RegisterKeepsInvariants(users: seq<User>, email: string, passwordHash: string,
                                firstName: string, role: Option<string>)
    requires SequentialIds(users) && DistinctEmails(users)
    requires UserByEmail(users, email).None?
    ensures SequentialIds(users + [NewUser(users, email, passwordHash, firstName, role)])
    ensures DistinctEmails(users + [NewUser(users, email, passwordHash, firstName, role)])
  {
  }

  /** With distinct emails, the lookup by email finds the one user who has it,
      and finds nobody exactly when nobody has it. */
  lemma UserByEmailUnique(users: seq<User>, email: string)
    requires DistinctEmails(users)
    ensures forall i | 0 <= i < |users| && users[i].email == email :: UserByEmail(users, email) == Some(users[i])
    ensures UserByEmail(users, email).None? <==> forall i | 0 <= i < |users| :: users[i].email != email
  {
  }

  /** With sequential ids, the user with id `id` is the one at position `id - 1`. */
  lemma UserByIdPosition(users: seq<User>, id: int)
    requires SequentialIds(users)
    ensures UserById(users, id) == if 1 <= id <= |users| then Some(users[id - 1]) else None
  {
  }

  // ---- Task store ----

  /** `tasks.filter(t => t.userId === owner)`. */
  function TasksOf(tasks: seq<Task>, owner: int): (r: seq<Task>)
    ensures |r| <= |tasks|
    ensures forall i | 0 <= i < |r| :: r[i].userId == owner
  {
    FilterMembers(tasks, (t: Task) => t.userId == owner);
    Filter(tasks, (t: Task) => t.userId == owner)
  }

  /** `tasks.find(t => t.id === id && t.userId === owner)`, where an id that did
      not parse (NaN) matches nothing. */
  function OwnedTask(tasks: seq<Task>, id: Option<int>, owner: int): (r: Option<Task>)
    ensures r.None? <==> !exists i | 0 <= i < |tasks| :: id == Some(tasks[i].id) && tasks[i].userId == owner
    ensures r.Some? ==> r.value in tasks && id == Some(r.value.id) && r.value.userId == owner
  {
    if id.None? then None else Find(tasks, (t: Task) => t.id == id.value && t.userId == owner)
  }

  /** `tasks.filter(t => t.id !== id)`: note that it does not look at the owner. */
  function WithoutId(tasks: seq<Task>, id: int): (r: seq<Task>)
    ensures |r| <= |tasks|
    ensures forall i | 0 <= i < |r| :: r[i].id != id
  {
    FilterMembers(tasks, (t: Task) => t.id != id);
    Filter(tasks, (t: Task) => t.id != id)
  }

  /** The record a task creation appends: the id is the current count plus one,
      whatever ids are still in use. */
  function NewTask(tasks: seq<Task>, owner: int, title: string, description: string, now: Timestamp): Task
  {
    Task(|tasks| + 1, owner, title, description, false, Some(now))
  }

  /** No two tasks share an id. The server does not maintain this. */
  ghost predicate DistinctTaskIds(tasks: seq<Task>)
  {
    forall i, j | 0 <= i < j < |tasks| :: tasks[i].id != tasks[j].id
  }

  /** The listing holds exactly the owner's tasks, each as often as it occurs in
      the store. */
  lemma TasksOfExact(tasks: seq<Task>, owner: int, t: Task)
    ensures multiset(TasksOf(tasks, owner))[t] == if t.userId == owner then multiset(tasks)[t] else 0
  {
    FilterCount(tasks, (t: Task) => t.userId == owner, t);
  }

  /** An appended task shows up at the end of its owner's listing and in no
      other owner's listing; every listing is otherwise unchanged. */
  lemma TasksOfAppend(tasks: seq<Task>, t: Task, owner: int)
    ensures TasksOf(tasks + [t], owner) == TasksOf(tasks, owner) + (if t.userId == owner then [t] else [])
  {
    FilterAppend(tasks, [t], (t: Task) => t.userId == owner);
    assert [t][1..] == [];
  }

  /** Deleting an id and then listing an owner's tasks is the same as listing
      them and dropping that id: each owner loses exactly their tasks with
      that id, and the rest of their listing keeps its order. */
  lemma DeleteThenList(tasks: seq<Task>, id: int, owner: int)
    ensures TasksOf(WithoutId(tasks, id), owner) == WithoutId(TasksOf(tasks, owner), id)
  {
    FilterCommute(tasks, (t: Task) => t.id != id, (t: Task) => t.userId == owner);
  }

  /** When ids are distinct and the caller owns the task with `id`, deleting it
      leaves every other owner's listing untouched. Without distinct ids this
      fails: see Scenarios.CrossOwnerDeletion. */
  lemma DeleteSparesOthers(tasks: seq<Task>, id: int, caller: int, other: int)
    requires DistinctTaskIds(tasks)
    requires OwnedTask(tasks, Some(id), caller).Some?
    requires other != caller
    ensures TasksOf(WithoutId(tasks, id), other) == TasksOf(tasks, other)
  {
    var theirs := TasksOf(tasks, other);
    var k :| 0 <= k < |tasks| && tasks[k].id == id && tasks[k].userId == caller;
    FilterMembers(tasks, (t: Task) => t.userId == other);
    forall i | 0 <= i < |theirs| ensures theirs[i].id != id {
      var j :| 0 <= j < |tasks| && tasks[j] == theirs[i];
      assert j != k;
    }
    DeleteThenList(tasks, id, other);
    FilterKeepsAll(theirs, (t: Task) => t.id != id);
  }
}
