# cisco_ssh_cfg, modelled in Dafny

Two scripts push configuration to a Cisco device. `CiscoCfg.py` renders a
template into an output file and copies it to the device with `scp` run under
`setsid -w`. It either copies straight into `running-config`, or stages the
file on `bootflash:/` and then delivers an EEM applet. After a countdown, the
applet copies the staged file into the running configuration and deletes
itself. `Show.py` sends every non-empty line of a rendered template to the
device as its own `ssh` command and collects what the commands print.

The model keeps the decisions and the text these scripts build, and proves
what they promise:

- `strings.dfy` (`Strings`) covers what the scripts use from Python's
  strings: `str.split` with and without a separator, dropping empty pieces,
  `os.path.basename`, and the decimal rendering of an `int`.
- `format.dfy` (`Fmt`) covers `str.format` for the scripts' constant format
  strings. Each format string is written pre-cut into literal text and
  replacement fields, with one field enumeration per call site.
- `remote.dfy` (`Remote`) holds the outcome of a child process and the
  `[user@]host` login, with the way `ssh`/`scp` read a login back.
- `cisco_cfg.dfy` (`CiscoCfg`) covers `render_template`, `scp_file`,
  `load_file_delayed` and `ssh_cfg`. `ssh_cfg` is a method that records its
  effects (write, copy, temporary file, removal) in a trace and returns either
  normally or with the exception it raises.
- `show.dfy` (`Show`) covers the line filter and the command loop of `Show.py`.

Child processes are not run. What the k-th started process reports (exit
status, standard output, standard error) is read from an oracle parameter
`run(k)`. The two template engines are function parameters. The name of the
temporary file is a parameter.

Behaviour worth knowing:

- In immediate mode the code copies the rendered file straight to
  `running-config` with `scp`. It does not upload first and then run a copy
  command over `ssh`.
- `ssh_cfg` has no `try`/`finally`. A failed copy raises before
  `os.remove`, so the output file stays in place. Only the EEM temporary file
  is always discarded, by its `with` block.
- The raised `OSError` carries the fixed message "Error during file
  transfer", not the copy's standard error.
- An unknown engine raises `AttributeError("Unknown template engine")`.
  Engines are named `"string"` and `"tipyte"`.
- Any `delay` other than 0 selects delayed mode, a negative one included.

## Model

| member | source | states |
|---|---|---|
| CiscoCfg.RenderTemplate | CiscoCfg.py:38-54 | raises exactly for an engine other than "string"/"tipyte", with AttributeError("Unknown template engine"); otherwise the text is the chosen engine's rendering |
| CiscoCfg.SetsidWords | CiscoCfg.py:61 | `SETSID_OPTIONS.split()` is `["-w"]` |
| CiscoCfg.SshWords | CiscoCfg.py:63 | `SSH_OPTIONS.split()` is `["-o", "StrictHostKeyChecking=no"]` |
| CiscoCfg.ScpArgv | CiscoCfg.py:59-74 | definition of the `scp` command line: the skeleton words each formatted with file, user, host and path; its word-by-word shape is proved by `CiscoCfg.FormatScpTemplate`, and `CiscoCfg.ScpFile` proves it is the command run |
| CiscoCfg.ScpTemplate | CiscoCfg.py:59-66 | definition of `os_scp_tmpl_cmd`: `setsid`, the setsid option words, `scp`, the ssh option words, `{file}` and `{username}{at}{dest}:{path}`; its formatting is stated by `CiscoCfg.FormatScpTemplate` |
| CiscoCfg.ScpArgs | CiscoCfg.py:69-73 | definition of the keyword arguments, with `at` '@' exactly for a non-empty user; what they produce is stated by `CiscoCfg.FormatScpTemplate` |
| CiscoCfg.FormatScpTemplate | CiscoCfg.py:59-74 | formatting every word of the command skeleton keeps the option words, turns `{file}` into the file name and the last word into `[user@]dest:path`, for any option words |
| CiscoCfg.ScpFile | CiscoCfg.py:57-83 | the command is exactly `setsid -w scp -o StrictHostKeyChecking=no <file> [user@]dest:path`; the trace record it hands back names the same file, user, host and path with the command's exit status; it raises OSError("Error during file transfer") exactly when the exit status is non-zero, and otherwise returns the captured standard error |
| CiscoCfg.EemText | CiscoCfg.py:89 | definition of `EEM_TEMPLATE.format(wait=..., file=...)`; what the applet contains is proved by `CiscoCfg.EemTextBlocks` and `CiscoCfg.StagedFileActivated` |
| CiscoCfg.EemArgs | CiscoCfg.py:89 | definition of the keyword arguments `wait` (rendered in decimal) and `file`; what they produce is stated by `CiscoCfg.EemTextBlocks` |
| CiscoCfg.EemTextBlocks | CiscoCfg.py:24-35 | the applet contains `event timer countdown time <wait> maxrun 60`, the copy `copy bootflash:/<file> running-config` and its own removal `no event manager applet CiscoCfgRUN`, each unbroken |
| CiscoCfg.SkeletonInfixes | CiscoCfg.py:24-35 | for any skeleton shaped like the applet's, the filled-in countdown, copy line and removal appear unbroken in the formatted text |
| CiscoCfg.EemInfixes | CiscoCfg.py:26-32 | the countdown, copy and removal blocks stay contiguous in the concatenated applet text |
| CiscoCfg.LoadFileDelayed | CiscoCfg.py:86-93 | writes the applet text `EemText(wait, basename(filename))` to the temporary file, copies that file to running-config, and discards it whether or not the copy raised; raises OSError exactly on a non-zero exit status, and otherwise returns the copy's captured standard error |
| CiscoCfg.StagedFileActivated | CiscoCfg.py:119-120 | the applet delivered in delayed mode copies `bootflash:/<basename(out_file)>`, the very path the first copy staged, into running-config |
| CiscoCfg.StagingPath | CiscoCfg.py:119 | definition of `CISCO_FILESYSTEM + os.path.basename(out_file)`; that the applet copies this path is stated by `CiscoCfg.StagedFileActivated` and `CiscoCfg.CopiesActivateStaged` |
| CiscoCfg.CopiesActivateStaged | CiscoCfg.py:115-120 | in delayed mode after a successful staging copy, the applet text recorded in the trace copies the path the first trace step staged into running-config |
| CiscoCfg.Copies | CiscoCfg.py:115-120 | the first copy is always the rendered file, to running-config when `delay` is 0 and to `bootflash:/<basename>` otherwise; immediate mode copies once; a failed staging copy ends the stage; otherwise the applet for `basename(out_file)` follows and is copied to running-config from a discarded temporary file |
| CiscoCfg.CopiesSucceed | CiscoCfg.py:115-120 | the copies all succeed exactly when the first copy exits 0 and, in delayed mode, so does the applet's copy |
| CiscoCfg.CopiesLeaveFiles | CiscoCfg.py:115-120 | the copy stage neither writes nor removes a file |
| CiscoCfg.Deliver | CiscoCfg.py:115-120 | performs exactly the copies of `Copies`, raising OSError("Error during file transfer") exactly when one of them failed |
| CiscoCfg.RemovalLast | CiscoCfg.py:111-121 | in a trace of the write, the copies and a removal after successful copies, the removal is present exactly when the copies succeeded, and is then the last step |
| CiscoCfg.SshCfg | CiscoCfg.py:97-121 | unknown engine: nothing done and AttributeError; otherwise the rendered text is written first; dry run: nothing else; not a dry run: the copies of `Copies`, then removal of out_file exactly if every copy succeeded, as the last step; returns exactly when the engine is known and every copy exited 0; otherwise the exception is the transfer error |
| Remote.SplitLogin | CiscoCfg.py:65 | the host read back from a login holds no '@', and user and host together are no longer than the login |
| Remote.Login | CiscoCfg.py:65-72 | definition of `{username}{at}{dest}` with `at` '@' exactly for a non-empty user; its properties are `Remote.LoginRoundTrip`, `Remote.AtSignIffUser` and `Remote.LoginNoLeadingAt` |
| Remote.LoginRoundTrip | CiscoCfg.py:65-72 | with no '@' in the host, the login `{username}{at}{dest}` reads back as the same user and host |
| Remote.LoginNoLeadingAt | CiscoCfg.py:72 | the login begins with '@' only if the user does, or, with no user, the host does: an empty user leaves no dangling '@' |
| Remote.AtSignIffUser | CiscoCfg.py:72 | for a host without '@', the login holds an '@' exactly when a username is given, whatever characters the username holds |
| Strings.BasenameSuffix | CiscoCfg.py:119 | `os.path.basename`: no '/' in the result, which is the suffix of the path after its last '/' (the whole path when there is none) |
| Strings.BasenameAfterSlash | CiscoCfg.py:89 | the base name of `dir/name` is `name` |
| Strings.Basename | CiscoCfg.py:119 | definition of `os.path.basename`: what follows the last '/'; its properties are `Strings.BasenameSuffix` and `Strings.BasenameAfterSlash` |
| Strings.NatToDecimal | CiscoCfg.py:89 | the decimal rendering of a natural number is a non-empty string of digits without a leading zero |
| Strings.IntToDecimal | CiscoCfg.py:89 | the rendering of an int is non-empty and starts with '-' exactly for negative numbers |
| Strings.NatDecimalRoundTrip | CiscoCfg.py:89 | reading the digits of a natural number back gives the number |
| Strings.IntDecimalRoundTrip | CiscoCfg.py:89 | reading the rendering of any int back gives the int, so the countdown carries exactly `wait` |
| Strings.WordsShape | CiscoCfg.py:61-63 | `str.split()` yields non-empty words without whitespace |
| Strings.Words | CiscoCfg.py:61-63 | definition of `str.split()`: the whitespace-separated pieces with empty ones dropped; its properties are `Strings.WordsShape`, `Strings.TwoWords` and `Strings.OneWord` |
| Strings.TwoWords | CiscoCfg.py:63 | two whitespace-free words joined by a blank split into exactly those two words |
| Strings.TwoPrintableWords | CiscoCfg.py:63 | a text of two words of printable, non-blank characters joined by one blank splits into those words |
| Strings.OneWord | CiscoCfg.py:61 | a non-empty whitespace-free word splits into itself |
| Strings.SplitOn | Show.py:39 | `split` always yields at least one piece |
| Strings.SplitAvoids | Show.py:39 | no piece of `s.split(sep)` contains a separator |
| Strings.JoinSplit | Show.py:39 | joining the pieces of `s.split(sep)` with `sep` gives back `s` |
| Strings.SplitJoin | Show.py:39 | splitting the join of separator-free pieces gives back the pieces |
| Strings.ConcatSplit | Show.py:39 | the pieces laid end to end are the text with its separators deleted |
| Strings.NonEmpty | Show.py:39 | definition of the filter `[l for l in parts if l != '']`, which never yields more pieces than it was given; its properties are `Strings.NonEmptyAppend`, `Strings.NonEmptyMembers`, `Strings.NonEmptyKept` and `Strings.ConcatNonEmpty` |
| Strings.NonEmptyAppend | Show.py:39 | the filter works piece by piece: the kept pieces of a juxtaposition are the kept pieces of each part, in order, so order and repetitions are kept |
| Strings.NonEmptyKept | Show.py:39 | every kept piece is non-empty and is one of the pieces |
| Strings.NonEmptyMembers | Show.py:39 | a piece is kept exactly when it is a piece and is non-empty |
| Strings.ConcatNonEmpty | Show.py:39 | dropping empty pieces loses no character |
| Fmt.FormatConcat | CiscoCfg.py:69-74 | formatting a juxtaposition of format strings is the juxtaposition of their formattings |
| Fmt.Format | CiscoCfg.py:69-74 | definition of `str.format` on a pre-cut format string: each piece's text in order; its properties are `Fmt.FormatConcat` and `Fmt.FormatFive` |
| Fmt.FormatFive | CiscoCfg.py:65 | a five-piece format string formats to its pieces' texts in order |
| Fmt.FormatEach | CiscoCfg.py:68-74 | one formatted word per skeleton word, each formatted with the same arguments |
| Fmt.FormatLitWords | CiscoCfg.py:59-74 | words without replacement fields come out of formatting unchanged |
| Fmt.FormatEachConcat | CiscoCfg.py:59-74 | formatting a command skeleton word by word distributes over juxtaposition |
| Fmt.FormatWords | CiscoCfg.py:67-74 | the word-by-word loop yields each skeleton word formatted with the same arguments, in order |
| Show.FormatLogin | Show.py:41 | `"{user}{at}{dest}".format(...)` is `user@dest` for a given user and `dest` otherwise |
| Show.LoginArgs | Show.py:41 | definition of the keyword arguments `user`, `dest` and `at`, '@' exactly for a non-empty user; what they produce is stated by `Show.FormatLogin` |
| Show.KeptLines | Show.py:39 | definition of `[l for l in result.split("\n") if l != '']`; its properties are `Show.KeptLinesShape`, `Show.KeptLinesMembers`, `Show.KeptLinesText`, `Show.KeptLinesOfJoin` and `Show.EveryLineKept` |
| Show.KeptLinesShape | Show.py:39 | every kept line is non-empty and contains no line break |
| Show.KeptLinesMembers | Show.py:39 | a line is sent exactly when it is a line of the text and is non-empty |
| Show.KeptLinesText | Show.py:39 | the kept lines, laid end to end in order, are the text without its line breaks |
| Show.KeptLinesOfJoin | Show.py:39 | for a text made of lines joined by line breaks, blank lines included, the lines sent are exactly its non-empty lines, each as often as it occurs, in their order |
| Show.EveryLineKept | Show.py:39 | a text of non-empty lines, the empty text included, is sent line for line |
| Show.SshCommand | Show.py:40-42 | definition of `['setsid', 'ssh', login, "'" + line + "'"]`; `Show.RunBatch` proves one such command per kept line |
| Show.Stdouts | Show.py:47 | definition of the output file's contents after k commands: their standard outputs in order; its properties are `Show.StdoutsGrow` and `Show.StdoutsPlace` |
| Show.StdoutsGrow | Show.py:47 | the output file only grows: after fewer commands it holds a prefix of what it holds after more |
| Show.StdoutsPlace | Show.py:44-47 | each command's output follows the outputs of the commands before it, whatever their exit statuses |
| Show.RunBatch | Show.py:38-47 | one command `setsid ssh [user@]dest '<line>'` per kept line, in line order; the file receives every command's standard output in that order, and no exit status stops the loop |

## Left out

- Spawning processes, pipes, the `"\n"` written to `scp`'s standard input and `communicate()` are left out. Each started process's outcome is an input, `run(k)`.
- The trace records each copy by the arguments of `scp_file` (file, user, host, remote path) and its exit status. The command line itself is `ScpArgv` of those arguments. `ScpFile` proves it builds that command and returns the record that `LoadFileDelayed` and `Deliver` append.
- The `print` logging of both scripts is left out.
- The internals of `string.Template.safe_substitute` are left out. They belong to Python's standard library, so the "string" engine is a function parameter.
- `tipyte` is left out. It is an external library; the "tipyte" engine is a function parameter.
- The template variables are modelled as a map from names to text; JSON values of other types are not modelled.
- File writes and deletions are recorded as effects in a trace. Reading the template happens inside the engine functions. Failures of any of these (`IOError`) are not modelled.
- The naming of `NamedTemporaryFile` is a parameter.
- Both scripts are modelled as Python 2 programs: `Show.py` prints with the Python 2 statement (`Show.py:27`), and `CiscoCfg.py` writes a `str` into the binary temporary file (`CiscoCfg.py:88-90`), which succeeds only in Python 2. Python 3 is not modelled.
- The parser of `str.format` is not modelled. Every format string is a constant of the scripts and is written pre-cut into text and fields. A missing keyword argument (`KeyError`) cannot arise.
- `str.split()` is modelled as Python 2's byte-string split: blank, `\t`, `\n`, `\r`, `\x0b` and `\x0c` are whitespace. Unicode strings and their wider whitespace are not modelled.
- The keyword defaults of `ssh_cfg` (`CiscoCfg.py:97`) are left out: every argument of `SshCfg` is explicit. `data=None` is not modelled: the string engine would then raise `TypeError` at the first placeholder, and the model's engines cannot raise.
- Command-line and JSON parsing (`CiscoCfg.py:124-161`, `Show.py:15-25`) and the `SSH_ASKPASS`/`DISPLAY` environment setup are left out.
- Show.py's final print of `err` (`Show.py:49`) is left out. That name is unbound when no line is kept.
- Show.RunBatch: starts from the rendered text. Reading and rendering the template (`Show.py:31-33`) is the same uninterpreted "string" engine as in `CiscoCfg.RenderTemplate`.
