/** What both scripts share about the remote side: the outcome of a child process
    and the `[user@]host` login string handed to `ssh` and `scp`. */
module Remote {

  /** What a finished child process reports: its exit status and what it wrote
      to standard output and standard error. Process spawning, pipes and
      `communicate()` are outside the model; each invocation's outcome is an input. */
  datatype ProcResult = ProcResult(exitCode: int, stdout: string, stderr: string)

  /** `"{user}{at}{dest}"` with `at` being "@" exactly when the user is non-empty. */
  function Login(user: string, dest: string): string
  {
    if user != "" then user + "@" + dest else dest
  }

  /** How `ssh` and `scp` read a login: the user is what precedes the last '@'
      (empty when there is none), the host what follows it. */
  function SplitLogin(login: string): (r: (string, string))
    ensures '@' !in r.1
    ensures |r.0| + |r.1| <= |login|
  {
    if login == [] then ("", "")
    else if login[|login| - 1] == '@' then (login[..|login| - 1], "")
    else
      var (user, host) := SplitLogin(login[..|login| - 1]);
      (user, host + [login[|login| - 1]])
  }

  /** With no '@' in the host name, the remote side reads back exactly the user
      and host that were meant; in particular an empty user never shows up as a
      leading '@'. */
  lemma {:induction false} LoginRoundTrip(user: string, dest: string)
    requires '@' !in dest
    ensures SplitLogin(Login(user, dest)) == (user, dest)
  {
    if user != "" {
      AfterLastAt(user, dest);
    } else {
      NoAt(dest);
    }
  }

  lemma {:induction false} NoAt(dest: string)
    requires '@' !in dest
    ensures SplitLogin(dest) == ("", dest)
  {
    if dest != [] {
      var init := dest[..|dest| - 1];
      assert forall c :: c in init ==> c in dest;
      NoAt(init);
      assert init + [dest[|dest| - 1]] == dest;
    }
  }

  lemma {:induction false} AfterLastAt(user: string, dest: string)
    requires '@' !in dest
    ensures SplitLogin(user + "@" + dest) == (user, dest)
  {
    var login := user + "@" + dest;
    if dest == [] {
      assert login[..|login| - 1] == user;
    } else {
      var init := dest[..|dest| - 1];
      assert forall c :: c in init ==> c in dest;
      assert dest[|dest| - 1] in dest;
      AfterLastAt(user, init);
      assert login[..|login| - 1] == user + "@" + init;
      assert init + [dest[|dest| - 1]] == dest;
    }
  }

  /** The login begins with '@' only when the name it starts with does: an empty
      user leaves no dangling separator in front of the host. */
  lemma LoginNoLeadingAt(user: string, dest: string)
    requires user != "" ==> user[0] != '@'
    requires user == "" && dest != "" ==> dest[0] != '@'
    ensures Login(user, dest) != [] ==> Login(user, dest)[0] != '@'
  {
    if user != "" {
      assert Login(user, dest)[0] == user[0];
    }
  }

  /** For a host without '@', the login holds an '@' exactly when a user is given;
      the user name itself may hold '@'. */
  lemma AtSignIffUser(user: string, dest: string)
    requires '@' !in dest
    ensures '@' in Login(user, dest) <==> user != ""
  {
    if user != "" {
      assert Login(user, dest)[|user|] == '@';
    }
  }
}
