/** The batch loop of Show.py: every non-empty line of the rendered template is
    sent to the device as its own `ssh` command, and what each command prints
    is appended to the output file in the order the commands were run.

    Rendering is outside this module: the loop starts from the rendered text.
    What each started command reports is read from an oracle indexed by the
    order in which the commands are started. */
module Show {
  import opened Strings
  import opened Fmt
  import opened Remote

  /** The replacement fields of the login format string `"{user}{at}{dest}"`. */
  datatype LoginField = User | At | Dest

  const LoginTemplate: seq<Piece<LoginField>> := [Field(User), Field(At), Field(Dest)]

  /** The keyword arguments the login is formatted with. */
  function LoginArgs(user: string, dest: string): LoginField -> string
  {
    (f: LoginField) =>
      match f
      case User => user
      case At => if user != "" then "@" else ""
      case Dest => dest
  }

  /** The formatted login is `user@dest` for a given user and `dest` otherwise. */
  lemma FormatLogin(user: string, dest: string)
    ensures Format(LoginTemplate, LoginArgs(user, dest)) == Login(user, dest)
  {
    var args := LoginArgs(user, dest);
    FormatCons(Field(Dest), [], args);
    FormatCons(Field(At), [Field(Dest)], args);
    FormatCons(Field(User), [Field(At), Field(Dest)], args);
    assert [Field(User)] + [Field(At), Field(Dest)] == LoginTemplate;
  }

  // ---------------------------------------------------------------------------
  // The line filter

  /** `[l for l in result.split("\n") if l != '']`: the non-empty lines, in order. */
  function KeptLines(result: string): seq<string>
  {
    NonEmpty(SplitOn(result, {'\n'}))
  }

  /** Every line sent is non-empty and holds no line break. */
  lemma KeptLinesShape(result: string)
    ensures forall i :: 0 <= i < |KeptLines(result)| ==>
              KeptLines(result)[i] != "" && Avoids(KeptLines(result)[i], {'\n'})
  {
    var parts := SplitOn(result, {'\n'});
    SplitAvoids(result, {'\n'});
    NonEmptyKept(parts);
    forall i | 0 <= i < |KeptLines(result)|
      ensures Avoids(KeptLines(result)[i], {'\n'})
    {
      var k :| 0 <= k < |parts| && parts[k] == KeptLines(result)[i];
    }
  }

  /** A line is sent exactly when it is one of the text's lines and is not empty. */
  lemma KeptLinesMembers(result: string, line: string)
    ensures line in KeptLines(result) <==> line in SplitOn(result, {'\n'}) && line != ""
  {
    NonEmptyMembers(SplitOn(result, {'\n'}), line);
  }

  /** The kept lines, laid end to end, are the text with its line breaks removed:
      no character other than a line break is lost, and the order is kept. */
  lemma KeptLinesText(result: string)
    ensures Concat(KeptLines(result)) == Without(result, {'\n'})
  {
    ConcatNonEmpty(SplitOn(result, {'\n'}));
    ConcatSplit(result, {'\n'});
  }

  /** The lines of a text, blank ones included, joined by line breaks: the lines
      sent are its non-empty lines, each once and in their order. */
  lemma KeptLinesOfJoin(lines: seq<string>)
    requires |lines| >= 1
    requires forall i :: 0 <= i < |lines| ==> Avoids(lines[i], {'\n'})
    ensures KeptLines(Join(lines, '\n')) == NonEmpty(lines)
  {
    SplitJoin(lines, '\n');
  }

  /** A text without empty lines and without a trailing line break is sent line for line. */
  lemma EveryLineKept(lines: seq<string>)
    requires forall i :: 0 <= i < |lines| ==> lines[i] != "" && Avoids(lines[i], {'\n'})
    ensures KeptLines(Join(lines, '\n')) == lines
  {
    if lines == [] {
      assert SplitOn("", {'\n'}) == [""];
      assert NonEmpty([""]) == [];
    } else {
      KeptLinesOfJoin(lines);
      NonEmptyAll(lines);
    }
  }

  lemma {:induction false} NonEmptyAll(parts: seq<string>)
    requires forall i :: 0 <= i < |parts| ==> parts[i] != ""
    ensures NonEmpty(parts) == parts
  {
    if parts != [] {
      NonEmptyAll(parts[1..]);
      assert [parts[0]] + parts[1..] == parts;
    }
  }

  // ---------------------------------------------------------------------------
  // The batch loop

  /** The command run for one line: `setsid ssh [user@]dest '<line>'`. */
  function SshCommand(user: string, dest: string, line: string): seq<string>
  {
    ["setsid", "ssh", Login(user, dest), "'" + line + "'"]
  }

  /** What the output file holds after the first `n` commands: their standard
      outputs, in the order they were run. */
  function Stdouts(run: nat -> ProcResult, n: nat): string
  {
    if n == 0 then "" else Stdouts(run, n - 1) + run(n - 1).stdout
  }

  /** The file only grows: what was written after `m` commands is a prefix of what
      is written after `n >= m` commands. */
  lemma {:induction false} StdoutsGrow(run: nat -> ProcResult, m: nat, n: nat)
    requires m <= n
    ensures Stdouts(run, m) <= Stdouts(run, n)
    decreases n
  {
    if m < n {
      StdoutsGrow(run, m, n - 1);
    }
  }

  /** Each command's output sits in the file right after the outputs of the
      commands before it, whatever the exit statuses were. */
  lemma StdoutsPlace(run: nat -> ProcResult, k: nat, n: nat)
    requires k < n
    ensures Stdouts(run, k) + run(k).stdout <= Stdouts(run, n)
  {
    StdoutsGrow(run, k + 1, n);
  }

  /** The loop of Show.py over the rendered text `result`: one command per kept
      line, in order; `run(i)` is what the i-th command reports. Returns the
      commands started and the text written to the output file. */
  method RunBatch(result: string, user: string, dest: string, run: nat -> ProcResult)
    returns (commands: seq<seq<string>>, written: string)
    ensures |commands| == |KeptLines(result)|
    ensures forall i :: 0 <= i < |commands| ==> commands[i] == SshCommand(user, dest, KeptLines(result)[i])
    ensures written == Stdouts(run, |commands|)
  {
    var lines := KeptLines(result);
    var login := Format(LoginTemplate, LoginArgs(user, dest));
    FormatLogin(user, dest);
    commands, written := [], "";
    for i := 0 to |lines|
      invariant |commands| == i
      invariant forall k :: 0 <= k < i ==> commands[k] == SshCommand(user, dest, lines[k])
      invariant written == Stdouts(run, i)
    {
      var osCmd := ["setsid", "ssh", login, "'" + lines[i] + "'"];
      var p := run(i);
      commands := commands + [osCmd];
      written := written + p.stdout;
    }
  }
}
