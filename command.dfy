/** The guard in front of the shell: a command that mentions the Django
    development server is refused without being run; every other command
    runs through the shell, in the project directory or in a directory
    below it, under a fixed timeout. The shell itself is outside the model:
    what it produces for a command is a parameter. */
module Command {
  import opened Text
  import opened FileSystem

  /** The text whose presence anywhere in a command blocks it. */
  const BLOCKED_WORD: string := "runserver"

  /** The standard error text returned for a blocked command. */
  const BLOCKED_MESSAGE: string :=
    "Error: Running the Django development server (runserver) is not allowed through this tool."

  /** The exit code returned for a blocked command. */
  const BLOCKED_CODE: int := 1

  /** Seconds a command may run before it is abandoned. */
  const TIMEOUT_SECONDS: nat := 15

  /** What the shell does with a command it is given. */
  datatype Outcome =
    | Completed(stdout: string, stderr: string, code: int)
    | TimedOut
    | SpawnFailed

  /** What `execute_bash_command` gives back: the triple of standard
      output, standard error and exit code, or the exception it lets
      through. */
  datatype CommandResult =
    | Output(stdout: string, stderr: string, code: int)
    | Raised(error: Error)

  /** Whether the guard refuses `command`. */
  predicate Blocked(command: string) {
    Contains(command, BLOCKED_WORD)
  }

  /** The working directory a command runs in: the project directory when
      no directory is given (Python's `None` or the empty string, which is
      falsy), otherwise that directory below the project directory. */
  function WorkingDir(projectDir: Path, cwd: Option<Path>): (r: Path)
    ensures projectDir <= r
    ensures cwd.None? ==> r == projectDir
    ensures cwd.Some? ==> r[|projectDir|..] == cwd.value
  {
    match cwd
    case None => projectDir
    case Some(c) => projectDir + c
  }

  /** The guard is closed under extension: whatever text surrounds a
      blocked command, the result is blocked too, so the server cannot be
      started by wrapping the word in a longer command line. */
  lemma BlockedExtends(before: string, command: string, after: string)
    requires Blocked(command)
    ensures Blocked(before + command + after)
  {
    ContainsSpec(command, BLOCKED_WORD);
    ContainsSpec(before + command + after, BLOCKED_WORD);
    var i :| OccursAt(command, BLOCKED_WORD, i);
    var whole := before + command + after;
    var j := |before| + i;
    assert whole[j..j + |BLOCKED_WORD|] == command[i..i + |BLOCKED_WORD|];
    assert OccursAt(whole, BLOCKED_WORD, j);
  }

  /** The guard looks at the text only: the usual ways of starting the
      development server are all refused. */
  lemma ManagePyRunserverBlocked(args: string)
    ensures Blocked("python manage.py runserver" + args)
  {
    var c := "python manage.py runserver" + args;
    assert c[17..26] == BLOCKED_WORD;
    assert OccursAt(c, BLOCKED_WORD, 17);
    ContainsSpec(c, BLOCKED_WORD);
  }
}
