/** The deployment logic of CiscoCfg.py: render a configuration template, copy
    the result to a Cisco device with `scp` run under `setsid`, and have it
    merged into the running configuration either at once or after a countdown
    by an EEM applet that is itself copied into the running configuration.

    The file system, child processes and the two template engines are outside
    the model. What the script does to them is recorded as a trace of effects;
    what a child process reports is read from an oracle indexed by the order in
    which the processes are started. */
module CiscoCfg {
  import opened Strings
  import opened Fmt
  import opened Remote

  // ---------------------------------------------------------------------------
  // Constants

  /** The `ssh` option flag and the setting that turns off the host-key confirmation prompt. */
  const SshOptionFlag := "-o"
  const NoHostKeyCheck := "StrictHostKeyChecking=no"
  /** `SSH_OPTIONS`, `"-o StrictHostKeyChecking=no"`: the options handed to `scp`. */
  const SshOptions := SshOptionFlag + " " + NoHostKeyCheck
  /** Makes `setsid` wait for the child and return its exit status. */
  const SetsidOptions := "-w"
  /** Where a delayed configuration is staged on the device. */
  const CiscoFilesystem := "bootflash:/"
  /** Copying a file to this remote path merges it into the active configuration. */
  const RunningConfig := "running-config"

  /** The two replacement fields of the EEM applet skeleton. */
  datatype EemField = Wait | File

  /** The applet's trigger: a one-shot countdown, in seconds. */
  const Countdown := "event timer countdown time "
  /** The applet's bound on its own running time, in seconds. */
  const MaxRun := " maxrun 60"
  /** The command by which the applet deletes itself once it has run. */
  const SelfRemoval := "no event manager applet CiscoCfgRUN"

  /** The applet's header line and the indentation of its trigger. */
  const EemBanner := "\nevent manager applet CiscoCfgRUN authorization bypass\n  "
  /** The action lines between the run-time bound and the copy command. */
  const EemEnable := "\n  action 0.1 cli command \"enable\"\n  action 1.0 cli command \""
  /** The action lines between the copy command and the self-removal. */
  const EemLog := "\" pattern \"running-config\"\n  action 1.1 cli command \"running-config\"\n  action 2.0 syslog msg \"Configuration upload done by CiscoCfg.py\"\n  action 3.0 cli command \"configure terminal\"\n  action 3.1 cli command \""
  /** The last action lines and the end of the applet. */
  const EemEnd := "\"\n  action 3.2 cli command \"end\"\nend\n"

  /** The text before `{wait}`. */
  const EemHead := EemBanner + Countdown
  /** The text between `{wait}` and `{file}`: the run-time bound, `enable`, and the
      start of the copy of the staged file. */
  const EemMiddle := MaxRun + EemEnable + ("copy " + CiscoFilesystem)
  /** The text after `{file}`: the copy's target, the log message and the self-removal. */
  const EemTail := " " + RunningConfig + EemLog + SelfRemoval + EemEnd

  /** The EEM applet skeleton: after `{wait}` seconds it enables, copies the staged
      `bootflash:/{file}` into the running configuration, logs, and deletes itself. */
  const EemTemplate: seq<Piece<EemField>> := [Lit(EemHead), Field(Wait), Lit(EemMiddle), Field(File), Lit(EemTail)]

  // ---------------------------------------------------------------------------
  // Exceptions, effects, engines

  /** The Python exceptions the script raises, with their messages. */
  datatype Exception = AttributeError(message: string) | OSError(message: string)

  const UnknownEngineError := AttributeError("Unknown template engine")
  const TransferError := OSError("Error during file transfer")

  /** The outcome of a Python call: the value it returned or the exception it raised. */
  datatype Raises<T> = Returned(value: T) | Raised(exc: Exception)

  /** What the script does outside itself, in the order it does it. */
  datatype Effect =
    | WriteFile(path: string, content: string)    // open(path, 'w').write(content)
    | CreateApplet(path: string, content: string) // NamedTemporaryFile holding content, written and flushed
    | Scp(file: string, username: string, dest: string, path: string, exitCode: int)
                                                  // scp_file: the command ScpArgv(file, username, dest, path) run to completion
    | DiscardTemp(path: string)                   // leaving the `with` block of the temporary file
    | RemoveFile(path: string)                    // os.remove(path)

  /** The JSON object of template variables, with its values as text. */
  type Data = map<string, string>

  /** The two template engines, as functions of the template's file name and the
      data: `string.Template(...).safe_substitute` over the file's text, and a
      `tipyte` template compiled with the identity escaper. */
  datatype Engines = Engines(stringEngine: (string, Data) -> string, tipyteEngine: (string, Data) -> string)

  predicate IsEngine(engine: string)
  {
    engine == "string" || engine == "tipyte"
  }

  /** Every child process in the trace exited with status 0. */
  predicate AllSucceeded(trace: seq<Effect>)
  {
    forall i :: 0 <= i < |trace| && trace[i].Scp? ==> trace[i].exitCode == 0
  }

  // ---------------------------------------------------------------------------
  // render_template

  /** The engine dispatch of `render_template`: the text to be written to the
      output file, or the error raised before that file is opened. */
  function RenderTemplate(tmplName: string, data: Data, engine: string, engines: Engines): (r: Raises<string>)
    ensures r.Raised? <==> !IsEngine(engine)
    ensures r.Raised? ==> r.exc == UnknownEngineError
    ensures engine == "string" ==> r.Returned? && r.value == engines.stringEngine(tmplName, data)
    ensures engine == "tipyte" ==> r.Returned? && r.value == engines.tipyteEngine(tmplName, data)
  {
    if engine == "string" then Returned(engines.stringEngine(tmplName, data))
    else if engine == "tipyte" then Returned(engines.tipyteEngine(tmplName, data))
    else Raised(UnknownEngineError)
  }

  // ---------------------------------------------------------------------------
  // scp_file

  /** The command `scp_file` starts, written out: `setsid -w scp -o
      StrictHostKeyChecking=no <filename> [<username>@]<dest>:<path>`. */
  function ScpArgv(filename: string, username: string, dest: string, path: string): seq<string>
  {
    ["setsid", "-w", "scp", "-o", "StrictHostKeyChecking=no", filename, Login(username, dest) + ":" + path]
  }

  /** The replacement fields of the copy command's words. */
  datatype ScpField = FileArg | UsernameArg | AtArg | DestArg | PathArg

  /** The last word of the copy command, `{username}{at}{dest}:{path}`. */
  const TargetWord: seq<Piece<ScpField>> := [Field(UsernameArg), Field(AtArg), Field(DestArg), Lit(":"), Field(PathArg)]

  /** The copy command before formatting, given the words of the two option
      strings: `setsid`, the setsid options, `scp` and the ssh options, none of
      which holds a replacement field, then `{file}` and the target word. */
  function ScpTemplate(setsidWords: seq<string>, sshWords: seq<string>): seq<seq<Piece<ScpField>>>
  {
    LitWords(["setsid"] + setsidWords + ["scp"] + sshWords) + [[Field(FileArg)], TargetWord]
  }

  /** The keyword arguments `scp_file` formats every word with. */
  function ScpArgs(filename: string, username: string, dest: string, path: string): ScpField -> string
  {
    (f: ScpField) =>
      match f
      case FileArg => filename
      case UsernameArg => username
      case AtArg => if username != "" then "@" else ""
      case DestArg => dest
      case PathArg => path
  }

  /** The option words pass through formatting unchanged, `{file}` becomes the
      file name and the last word the `[user@]dest:path` target. */
  lemma FormatScpTemplate(setsidWords: seq<string>, sshWords: seq<string>,
                          filename: string, username: string, dest: string, path: string)
    ensures FormatEach(ScpTemplate(setsidWords, sshWords), ScpArgs(filename, username, dest, path))
            == ["setsid"] + setsidWords + ["scp"] + sshWords + [filename, Login(username, dest) + ":" + path]
  {
    var args := ScpArgs(filename, username, dest, path);
    var lead := ["setsid"] + setsidWords + ["scp"] + sshWords;
    var tail: seq<seq<Piece<ScpField>>> := [[Field(FileArg)], TargetWord];
    FormatEachConcat(LitWords(lead), tail, args);
    FormatLitWords(lead, args);
    FormatCons(Field(FileArg), [], args);
    FormatFive(Field(UsernameArg), Field(AtArg), Field(DestArg), Lit(":"), Field(PathArg), args);
    assert Format(tail[0], args) == filename;
    if username == "" {
      assert Format(tail[1], args) == "" + "" + dest + ":" + path;
      assert "" + "" + dest == dest;
    }
    assert Format(tail[1], args) == Login(username, dest) + ":" + path;
  }

  /** `SETSID_OPTIONS.split()` */
  lemma SetsidWords()
    ensures Words(SetsidOptions) == ["-w"]
  {
    OneWord(SetsidOptions);
  }

  /** `SSH_OPTIONS.split()` */
  lemma SshWords()
    ensures Words(SshOptions) == ["-o", "StrictHostKeyChecking=no"]
  {
    TwoPrintableWords(SshOptions, SshOptionFlag, NoHostKeyCheck);
  }

  /** The command with the option words spliced in is the written-out command. */
  lemma ScpArgvWords(setsidWords: seq<string>, sshWords: seq<string>, filename: string, target: string)
    requires setsidWords == ["-w"] && sshWords == ["-o", "StrictHostKeyChecking=no"]
    ensures ["setsid"] + setsidWords + ["scp"] + sshWords + [filename, target]
            == ["setsid", "-w", "scp", "-o", "StrictHostKeyChecking=no", filename, target]
  {
  }

  /** `scp_file`: builds the copy command word by word, runs it, and raises
      `OSError` when it exits with a non-zero status; otherwise returns what the
      command wrote to standard error. `proc` is what the started command reports;
      `step` records the copy in the trace. */
  method ScpFile(filename: string, username: string, dest: string, path: string, proc: ProcResult)
    returns (osCmd: seq<string>, step: Effect, rc: Raises<string>)
    ensures osCmd == ScpArgv(filename, username, dest, path)
    ensures step == Scp(filename, username, dest, path, proc.exitCode)
    ensures rc.Raised? <==> proc.exitCode != 0
    ensures rc.Raised? ==> rc.exc == TransferError
    ensures rc.Returned? ==> rc.value == proc.stderr
  {
    var setsidWords, sshWords := Words(SetsidOptions), Words(SshOptions);
    var template := ScpTemplate(setsidWords, sshWords);
    var args := ScpArgs(filename, username, dest, path);
    osCmd := FormatWords(template, args);
    FormatScpTemplate(setsidWords, sshWords, filename, username, dest, path);
    SetsidWords();
    SshWords();
    ScpArgvWords(setsidWords, sshWords, filename, Login(username, dest) + ":" + path);
    step := Scp(filename, username, dest, path, proc.exitCode);
    if proc.exitCode != 0 {
      rc := Raised(TransferError);
    } else {
      rc := Returned(proc.stderr);
    }
  }

  // ---------------------------------------------------------------------------
  // load_file_delayed

  /** The keyword arguments of `EEM_TEMPLATE.format(wait=..., file=...)`. */
  function EemArgs(wait: int, file: string): EemField -> string
  {
    (f: EemField) =>
      match f
      case Wait => IntToDecimal(wait)
      case File => file
  }

  /** `EEM_TEMPLATE.format(wait=wait, file=file)`: the applet text for a countdown
      of `wait` seconds that activates `bootflash:/<file>`. */
  function EemText(wait: int, file: string): string
  {
    Format(EemTemplate, EemArgs(wait, file))
  }

  /** The applet counts `wait` seconds down, copies `bootflash:/<file>` into the
      running configuration and removes itself. */
  lemma EemTextBlocks(wait: int, file: string)
    ensures IsInfix(Countdown + IntToDecimal(wait) + MaxRun, EemText(wait, file))
    ensures IsInfix(("copy " + CiscoFilesystem) + file + (" " + RunningConfig), EemText(wait, file))
    ensures IsInfix(SelfRemoval, EemText(wait, file))
  {
    var args := EemArgs(wait, file);
    assert args(Wait) == IntToDecimal(wait) && args(File) == file;
    SkeletonInfixes(EemBanner, Countdown, MaxRun, EemEnable, "copy " + CiscoFilesystem,
                    " " + RunningConfig, EemLog, SelfRemoval, EemEnd, args);
  }

  /** Filling in a skeleton shaped like the applet's keeps its blocks unbroken. */
  lemma SkeletonInfixes(banner: string, countdown: string, bound: string, enable: string, copy: string,
                        target: string, log: string, removal: string, end: string, args: EemField -> string)
    ensures var text := Format([Lit(banner + countdown), Field(Wait), Lit(bound + enable + copy),
                                Field(File), Lit(target + log + removal + end)], args);
      IsInfix(countdown + args(Wait) + bound, text) &&
      IsInfix(copy + args(File) + target, text) &&
      IsInfix(removal, text)
  {
    FormatFive(Lit(banner + countdown), Field(Wait), Lit(bound + enable + copy),
               Field(File), Lit(target + log + removal + end), args);
    EemInfixes(banner, countdown, args(Wait), bound, enable, copy, args(File), target, log, removal, end);
  }

  /** The blocks of a filled-in skeleton appear in it unbroken. */
  lemma EemInfixes(banner: string, countdown: string, w: string, bound: string, enable: string, copy: string,
                   file: string, target: string, log: string, removal: string, end: string)
    ensures var text := (banner + countdown) + w + (bound + enable + copy) + file + (target + log + removal + end);
      IsInfix(countdown + w + bound, text) &&
      IsInfix(copy + file + target, text) &&
      IsInfix(removal, text)
  {
    var head, middle, tail := banner + countdown, bound + enable + copy, target + log + removal + end;
    // the countdown block sits in the text before `{file}`
    var t1, ec := countdown + w + bound, enable + copy;
    Assoc(banner, countdown, w);
    Assoc(bound, enable, copy);
    Assoc(banner, countdown + w, bound + ec);
    Assoc(countdown + w, bound, ec);
    Assoc(banner, t1, ec);
    assert head + w + middle == banner + t1 + ec;
    InfixOfConcat(banner, t1, ec);
    InfixAppend(t1, head + w + middle, file);
    InfixAppend(t1, head + w + middle + file, tail);
    // the copy line straddles `{file}`
    var t2, x, rest := copy + file + target, head + w + (bound + enable), log + removal + end;
    Assoc(head + w, bound + enable, copy);
    Assoc(x, copy, file);
    Assoc(target, log, removal);
    Assoc(target, log + removal, end);
    Assoc(x + (copy + file), target, rest);
    Assoc(x, copy + file, target);
    assert head + w + middle + file + tail == x + t2 + rest;
    InfixOfConcat(x, t2, rest);
    // the self-removal sits in the text after `{file}`
    InfixOfConcat(target + log, removal, end);
    InfixPrepend(removal, head + w + middle + file, tail);
  }

  /** `load_file_delayed`: writes the applet for `basename(filename)` to a
      temporary file and copies it into the running configuration; the temporary
      file is discarded when the `with` block is left, whether the copy raised or not. */
  method LoadFileDelayed(filename: string, dest: string, username: string, wait: int, tempName: string, proc: ProcResult)
    returns (effects: seq<Effect>, rc: Raises<string>)
    ensures effects == [CreateApplet(tempName, EemText(wait, Basename(filename))),
                        Scp(tempName, username, dest, RunningConfig, proc.exitCode),
                        DiscardTemp(tempName)]
    ensures rc.Raised? <==> proc.exitCode != 0
    ensures rc.Raised? ==> rc.exc == TransferError
    ensures rc.Returned? ==> rc.value == proc.stderr
  {
    var eemCfg := EemText(wait, Basename(filename));
    var osCmd, copy;
    osCmd, copy, rc := ScpFile(tempName, username, dest, RunningConfig, proc);
    effects := [CreateApplet(tempName, eemCfg), copy, DiscardTemp(tempName)];
  }

  // ---------------------------------------------------------------------------
  // ssh_cfg

  /** Where the delayed mode stages the rendered file on the device. */
  function StagingPath(outFile: string): string
  {
    CiscoFilesystem + Basename(outFile)
  }

  /** The applet delivered in delayed mode copies exactly the file that was staged. */
  lemma StagedFileActivated(outFile: string, delay: int)
    ensures IsInfix("copy " + StagingPath(outFile) + " " + RunningConfig, EemText(delay, Basename(outFile)))
  {
    var name := Basename(outFile);
    EemTextBlocks(delay, name);
    Assoc("copy ", CiscoFilesystem, name);
    Assoc("copy " + CiscoFilesystem + name, " ", RunningConfig);
  }

  /** The copies `ssh_cfg` makes once the output file is written, as far as they
      get: the rendered file straight to the running configuration when `delay`
      is 0; otherwise to the staging file system and, if that copy succeeded,
      the EEM applet to the running configuration. */
  function Copies(outFile: string, username: string, dest: string, delay: int, tempName: string,
                  run: nat -> ProcResult): (effects: seq<Effect>)
    // the first copy is always the rendered file, to the place the mode calls for
    ensures |effects| >= 1
    ensures delay == 0 ==> effects[0] == Scp(outFile, username, dest, RunningConfig, run(0).exitCode)
    ensures delay != 0 ==> effects[0] == Scp(outFile, username, dest, StagingPath(outFile), run(0).exitCode)
    // immediate mode copies once; delayed mode stops after a failed staging copy
    ensures delay == 0 || run(0).exitCode != 0 ==> |effects| == 1
    // otherwise the applet follows, delivered to the running configuration from a discarded temporary file
    ensures delay != 0 && run(0).exitCode == 0 ==>
              effects[1..] == [CreateApplet(tempName, EemText(delay, Basename(outFile))),
                               Scp(tempName, username, dest, RunningConfig, run(1).exitCode),
                               DiscardTemp(tempName)]
  {
    var staged := [Scp(outFile, username, dest, StagingPath(outFile), run(0).exitCode)];
    if delay == 0 then [Scp(outFile, username, dest, RunningConfig, run(0).exitCode)]
    else if run(0).exitCode != 0 then staged
    else staged + [CreateApplet(tempName, EemText(delay, Basename(outFile))),
                   Scp(tempName, username, dest, RunningConfig, run(1).exitCode),
                   DiscardTemp(tempName)]
  }

  /** In delayed mode, the applet written to the temporary file activates the very
      file the first copy staged. */
  lemma CopiesActivateStaged(outFile: string, username: string, dest: string, delay: int, tempName: string,
                             run: nat -> ProcResult)
    requires delay != 0 && run(0).exitCode == 0
    ensures var effects := Copies(outFile, username, dest, delay, tempName, run);
      effects[0].Scp? && effects[0].path == StagingPath(outFile) &&
      effects[1].CreateApplet? && IsInfix("copy " + effects[0].path + " " + RunningConfig, effects[1].content)
  {
    StagedFileActivated(outFile, delay);
  }

  /** The copies all succeed exactly when the first copy exits with status 0 and,
      in delayed mode, so does the copy of the applet. */
  lemma CopiesSucceed(outFile: string, username: string, dest: string, delay: int, tempName: string,
                      run: nat -> ProcResult)
    ensures AllSucceeded(Copies(outFile, username, dest, delay, tempName, run))
            <==> run(0).exitCode == 0 && (delay == 0 || run(1).exitCode == 0)
  {
    var effects := Copies(outFile, username, dest, delay, tempName, run);
    var copy, applet := effects[0], effects[1..];
    assert effects == [copy] + applet;
    SucceededCons(copy, applet);
    if delay != 0 && run(0).exitCode == 0 {
      assert applet == [applet[0]] + ([applet[1]] + [applet[2]]);
      SucceededCons(applet[0], [applet[1]] + [applet[2]]);
      SucceededCons(applet[1], [applet[2]]);
      SucceededCons(applet[2], []);
    } else {
      assert applet == [];
    }
  }

  /** A trace succeeds when its first step does and the rest of it does. */
  lemma SucceededCons(e: Effect, rest: seq<Effect>)
    ensures AllSucceeded([e] + rest) <==> (e.Scp? ==> e.exitCode == 0) && AllSucceeded(rest)
  {
    var trace := [e] + rest;
    if AllSucceeded(trace) {
      assert trace[0] == e;
      forall i | 0 <= i < |rest| && rest[i].Scp?
        ensures rest[i].exitCode == 0
      {
        assert trace[i + 1] == rest[i];
      }
    }
    if AllSucceeded(rest) && (e.Scp? ==> e.exitCode == 0) {
      forall i | 0 <= i < |trace| && trace[i].Scp?
        ensures trace[i].exitCode == 0
      {
        if i > 0 {
          assert trace[i] == rest[i - 1];
        }
      }
    }
  }

  /** The copy stage leaves the output file alone: it neither writes nor removes a file. */
  lemma CopiesLeaveFiles(outFile: string, username: string, dest: string, delay: int, tempName: string,
                         run: nat -> ProcResult)
    ensures var effects := Copies(outFile, username, dest, delay, tempName, run);
      forall i :: 0 <= i < |effects| ==> !effects[i].WriteFile? && !effects[i].RemoveFile?
  {
    var effects := Copies(outFile, username, dest, delay, tempName, run);
    if delay != 0 && run(0).exitCode == 0 {
      var applet := effects[1..];
      assert applet[0].CreateApplet? && applet[1].Scp? && applet[2].DiscardTemp?;
      assert forall i :: 1 <= i < |effects| ==> effects[i] == applet[i - 1];
    }
  }

  /** Effects that start no process neither add to nor hide a failed copy. */
  lemma SucceededAround(before: Effect, copies: seq<Effect>, after: seq<Effect>)
    requires !before.Scp?
    requires forall i :: 0 <= i < |after| ==> !after[i].Scp?
    ensures AllSucceeded([before] + copies + after) <==> AllSucceeded(copies)
  {
    var trace := [before] + copies + after;
    assert trace[0] == before;
    assert forall i :: 1 <= i < 1 + |copies| ==> trace[i] == copies[i - 1];
    assert forall i :: 1 + |copies| <= i < |trace| ==> trace[i] == after[i - 1 - |copies|];
    if AllSucceeded(trace) {
      forall i | 0 <= i < |copies| && copies[i].Scp?
        ensures copies[i].exitCode == 0
      {
        assert trace[i + 1] == copies[i];
      }
    }
  }

  /** The `else` branch of `ssh_cfg` up to `os.remove`: one `scp_file` call, or an
      `scp_file` call followed by `load_file_delayed`; the first exception raised
      ends it. */
  method Deliver(outFile: string, username: string, dest: string, delay: int, tempName: string,
                 run: nat -> ProcResult)
    returns (effects: seq<Effect>, rc: Raises<()>)
    ensures effects == Copies(outFile, username, dest, delay, tempName, run)
    ensures rc.Raised? <==> !AllSucceeded(effects)
    ensures rc.Raised? ==> rc.exc == TransferError
  {
    var osCmd, copy, copied;
    if delay == 0 {
      osCmd, copy, copied := ScpFile(outFile, username, dest, RunningConfig, run(0));
      effects := [copy];
      assert effects == Copies(outFile, username, dest, delay, tempName, run);
    } else {
      osCmd, copy, copied := ScpFile(outFile, username, dest, StagingPath(outFile), run(0));
      effects := [copy];
      if copied.Returned? {
        var applet;
        applet, copied := LoadFileDelayed(outFile, dest, username, delay, tempName, run(1));
        effects := effects + applet;
        assert effects[1..] == applet;
      }
      assert effects == Copies(outFile, username, dest, delay, tempName, run);
    }
    CopiesSucceed(outFile, username, dest, delay, tempName, run);
    if copied.Raised? {
      rc := Raised(copied.exc);
    } else {
      rc := Returned(());
    }
  }

  /** A trace made of a write, copies that neither write nor remove, and a removal
      exactly when the copies succeeded: it succeeds with its copies, and holds the
      removal only as its last step and only after successful copies. */
  lemma RemovalLast(write: Effect, copies: seq<Effect>, outFile: string, trace: seq<Effect>)
    requires write.WriteFile?
    requires forall i :: 0 <= i < |copies| ==> !copies[i].WriteFile? && !copies[i].RemoveFile?
    requires trace == [write] + copies + (if AllSucceeded(copies) then [RemoveFile(outFile)] else [])
    ensures AllSucceeded(trace) <==> AllSucceeded(copies)
    ensures RemoveFile(outFile) in trace <==> AllSucceeded(copies)
    ensures RemoveFile(outFile) in trace ==> trace[|trace| - 1] == RemoveFile(outFile)
  {
    var removal: seq<Effect> := if AllSucceeded(copies) then [RemoveFile(outFile)] else [];
    SucceededAround(write, copies, removal);
    assert forall i :: 1 <= i < 1 + |copies| ==> trace[i] == copies[i - 1];
    if RemoveFile(outFile) in trace {
      var i :| 0 <= i < |trace| && trace[i] == RemoveFile(outFile);
      assert i == |trace| - 1 && AllSucceeded(copies);
    }
    if AllSucceeded(copies) {
      assert trace[|trace| - 1] == RemoveFile(outFile);
    }
  }

  /** `ssh_cfg`: render the template into `outFile`; unless `dryrun`, copy it to the
      device (straight into the running configuration when `delay` is 0, otherwise
      to the staging file system followed by the EEM applet), then remove `outFile`.
      `run(k)` is what the k-th started process reports; `tempName` is the name of
      the temporary file that holds the applet. */
  method SshCfg(dest: string, tmplName: string, outFile: string, data: Data, engine: string,
                username: string, delay: int, dryrun: bool,
                engines: Engines, tempName: string, run: nat -> ProcResult)
    returns (trace: seq<Effect>, outcome: Raises<()>)
    // an unknown engine raises before anything is written
    ensures !IsEngine(engine) ==> trace == [] && outcome == Raised(UnknownEngineError)
    // a known engine first writes exactly the rendered text
    ensures IsEngine(engine) ==>
              |trace| >= 1 && trace[0] == WriteFile(outFile, RenderTemplate(tmplName, data, engine, engines).value)
    // a dry run only renders
    ensures IsEngine(engine) && dryrun ==> |trace| == 1 && outcome == Returned(())
    // otherwise the copies follow, and the output file is removed if they all succeeded
    ensures IsEngine(engine) && !dryrun ==>
              var copies := Copies(outFile, username, dest, delay, tempName, run);
              trace[1..] == copies + (if AllSucceeded(copies) then [RemoveFile(outFile)] else [])
    // the call returns exactly when the engine is known and no copy failed
    ensures outcome.Returned? <==> IsEngine(engine) && AllSucceeded(trace)
    ensures IsEngine(engine) && outcome.Raised? ==> outcome.exc == TransferError
    // the output file is removed only after every copy returned, as the last step
    ensures RemoveFile(outFile) in trace <==> !dryrun && outcome.Returned?
    ensures RemoveFile(outFile) in trace ==> trace[|trace| - 1] == RemoveFile(outFile)
  {
    var rendered := RenderTemplate(tmplName, data, engine, engines);
    if rendered.Raised? {
      trace, outcome := [], Raised(rendered.exc);
      return;
    }
    trace := [WriteFile(outFile, rendered.value)];
    if dryrun {
      outcome := Returned(());
      return;
    }
    var effects, rc := Deliver(outFile, username, dest, delay, tempName, run);
    CopiesLeaveFiles(outFile, username, dest, delay, tempName, run);
    var write := trace[0];
    trace := trace + effects;
    if rc.Returned? {
      trace := trace + [RemoveFile(outFile)];
    }
    RemovalLast(write, effects, outFile, trace);
    outcome := if rc.Raised? then Raised(rc.exc) else Returned(());
  }
}
