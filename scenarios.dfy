/** Clients of the server that run whole request sequences against it and
    state what the caller observes. */
module Scenarios {
  import opened Wrappers
  import opened Records
  import opened Stores
  import opened Server

  /** Register Ann, register the same email again, register the same email
      with a capital letter, then log in as Ann. */
  method RegisterAndLogin() returns (statuses: seq<int>, token: Claims)
    ensures statuses == [201, 400, 201, 200]
    ensures token == Claims(3, "user")
  {
    var app := new App("admin-hash", "user-hash");
    var r1 := app.Register("a@x.com", "hash-pw1", "Ann", None);
    assert app.users[0].email[0] == 'a' && app.users[1].email[0] == 'u';
    assert app.users[0].email != "a@x.com" && app.users[1].email != "a@x.com";
    assert r1.status == 201;
    var r2 := app.Register("a@x.com", "hash-pw2", "Ann2", None);
    assert app.users[2] == User(3, "a@x.com", "hash-pw1", "Ann", "user");
    assert "A@x.com"[0] != "a@x.com"[0];
    var r3 := app.Register("A@x.com", "hash-pw3", "Ann3", None);
    assert r3.status == 201;
    var matches := (plain: string, hash: string) => plain == "pw1" && hash == "hash-pw1";
    assert app.users[2] == User(3, "a@x.com", "hash-pw1", "Ann", "user");
    var r4 := app.Login("a@x.com", "pw1", matches);
    assert r4.status == 200;
    token := r4.body.token;
    statuses := [r1.status, r2.status, r3.status, r4.status];
  }

  /** With a token for id 3 (Ann's, as above), create a task, list the
      caller's tasks, delete the task and list them again. The task routes
      consult only the token, never the user store. */
  method OwnTaskLifecycle() returns (statuses: seq<int>, listed: seq<Task>, emptied: seq<Task>)
    ensures statuses == [201, 200, 200, 200]
    ensures listed == [Task(3, 3, "T1", "first", false, Some(100))]
    ensures emptied == []
  {
    var app := new App("admin-hash", "user-hash");
    var verify := (t: string) => if t == "ann" then Some(Claims(3, "user")) else None;
    assert Gates.Authenticate(Some("ann"), verify) == Gates.Pass(Claims(3, "user"));
    var t1 := Task(3, 3, "T1", "first", false, Some(100));

    var r1 := app.CreateTask(Some("ann"), verify, "T1", "first", 100);
    assert app.tasks == SeedTasks() + [t1];
    var r2 := app.ListTasks(Some("ann"), verify);
    TasksOfAppend(SeedTasks(), t1, 3);
    assert TasksOf(SeedTasks(), 3) == [];
    listed := r2.body.tasks;
    assert listed == [t1];

    assert app.tasks[2].id == 3 && app.tasks[2].userId == 3;
    var r3 := app.DeleteTask(Some("ann"), verify, Some(3));
    assert r3 == TaskDeleted;
    assert TasksOf(app.tasks, 3) == [] by {
      DeleteThenList(SeedTasks() + [t1], 3, 3);
      assert WithoutId([t1], 3) == [];
    }
    var r4 := app.ListTasks(Some("ann"), verify);
    emptied := r4.body.tasks;
    statuses := [r1.status, r2.status, r3.status, r4.status];
  }

  /** Ids come from the task count, so after a delete a new task can take an id
      that is still in use. The admin deletes their own task 1, creates a task
      (which gets id 2, like the user's task), and deletes task 2: the request
      succeeds as the admin owns a task 2, and the user's task goes too. */
  method CrossOwnerDeletion() returns (deleted: Response, before: seq<Task>, after: seq<Task>)
    ensures deleted == TaskDeleted
    ensures before == [Task(2, 2, "User Task", "Regular user task", false, None)]
    ensures after == []
  {
    var app := new App("admin-hash", "user-hash");
    var verify := (t: string) =>
      if t == "admin" then Some(Claims(1, "admin"))
      else if t == "user" then Some(Claims(2, "user"))
      else None;
    var admin, user := Claims(1, "admin"), Claims(2, "user");
    assert Gates.Authenticate(Some("admin"), verify) == Gates.Pass(admin);
    assert Gates.Authenticate(Some("user"), verify) == Gates.Pass(user);
    var theirs := SeedTasks()[1];

    assert SeedTasks()[0].id == 1 && SeedTasks()[0].userId == 1;
    var d1 := app.DeleteTask(Some("admin"), verify, Some(1));
    assert app.tasks == WithoutId(SeedTasks(), 1) == [theirs] by {
      assert SeedTasks() == [SeedTasks()[0]] + [theirs];
      Collections.FilterAppend([SeedTasks()[0]], [theirs], (t: Task) => t.id != 1);
    }

    var c := app.CreateTask(Some("admin"), verify, "Again", "", 0);
    var mine := Task(2, 1, "Again", "", false, Some(0));
    assert app.tasks == [theirs, mine];
    var l1 := app.ListTasks(Some("user"), verify);
    TasksOfAppend([theirs], mine, 2);
    assert TasksOf([theirs], 2) == [theirs] by {
      Collections.FilterKeepsAll([theirs], (t: Task) => t.userId == 2);
    }
    before := l1.body.tasks;
    assert before == [theirs];

    assert app.tasks[1].id == 2 && app.tasks[1].userId == 1;
    deleted := app.DeleteTask(Some("admin"), verify, Some(2));
    assert deleted == TaskDeleted;
    assert app.tasks == WithoutId([theirs, mine], 2) == [] by {
      assert [theirs, mine] == [theirs] + [mine];
      Collections.FilterAppend([theirs], [mine], (t: Task) => t.id != 2);
      assert WithoutId([theirs], 2) == [] && WithoutId([mine], 2) == [];
    }
    var l2 := app.ListTasks(Some("user"), verify);
    after := l2.body.tasks;
  }
}
