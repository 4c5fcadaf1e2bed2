/** The `awk` helper: one run of the interpreter on a script and an input, whose
    result comes back with the interpreter's mention of the temporary script
    file removed from stderr. Writing the two temporary files and spawning the
    process are outside the model: the process result is an argument here. */
module Runner {
  import opened Text

  /** What a run of the interpreter reports: whether it failed, and what it
      wrote to stdout and to stderr. */
  datatype ExecResult = ExecResult(err: bool, stdout: string, stderr: string)

  /** The external interpreter, run in sandbox mode with a script file and an
      input file holding the two strings. */
  type Interpreter = (string, string) -> ExecResult

  /** The prefix the helper looks for in stderr, naming the temporary script file. */
  function PathPrefix(scriptPath: string): (p: string)
    ensures |p| == |scriptPath| + 6 && p[..5] == "awk: " && p[|p| - 1] == ':'
  {
    "awk: " + scriptPath + ":"
  }

  /** The prefix the interpreter actually puts in front of a diagnostic about the
      script file: its program name, then the file. */
  function DiagnosticPrefix(scriptPath: string): (p: string)
    ensures |p| == |scriptPath| + 7 && p[..6] == "gawk: " && p[|p| - 1] == ':'
  {
    "gawk: " + scriptPath + ":"
  }

  /** The stderr post-processing as written: the first occurrence of
      `awk: <scriptPath>:` is removed and the rest is kept. */
  function StripPathPrefix(stderr: string, scriptPath: string): (r: string)
    ensures !Occurs(stderr, PathPrefix(scriptPath)) ==> r == stderr
    ensures forall i :: IsFirstOccurrence(stderr, PathPrefix(scriptPath), i) ==>
      r == stderr[..i] + stderr[i + |scriptPath| + 6..]
  {
    ReplaceFirst(stderr, PathPrefix(scriptPath), "")
  }

  /** A diagnostic that names the script file: the interpreter's name, the file,
      and the rest of the message. */
  function Diagnostic(scriptPath: string, rest: string): (d: string)
    ensures |d| == |scriptPath| + 7 + |rest|
    ensures d[..|scriptPath| + 7] == DiagnosticPrefix(scriptPath) && d[|scriptPath| + 7..] == rest
  {
    DiagnosticPrefix(scriptPath) + rest
  }

  /** As written, the strip matches one character into the interpreter's own
      prefix and leaves that first character, `g`, in front of the message. */
  lemma StripPathPrefixLeavesInitial(scriptPath: string, rest: string)
    ensures StripPathPrefix(Diagnostic(scriptPath, rest), scriptPath) == "g" + rest
  {
    var s := Diagnostic(scriptPath, rest);
    var p := PathPrefix(scriptPath);
    assert s[1..1 + |p|] == p;
    assert s[0] != p[0];
    assert IsFirstOccurrence(s, p, 1);
    assert s[1 + |p|..] == rest;
  }

  /** The evidently intended strip: the first occurrence of the interpreter's
      `gawk: <scriptPath>:` prefix is removed. */
  function StripDiagnosticPrefix(stderr: string, scriptPath: string): (r: string)
    ensures !Occurs(stderr, DiagnosticPrefix(scriptPath)) ==> r == stderr
    ensures forall i :: IsFirstOccurrence(stderr, DiagnosticPrefix(scriptPath), i) ==>
      r == stderr[..i] + stderr[i + |scriptPath| + 7..]
  {
    ReplaceFirst(stderr, DiagnosticPrefix(scriptPath), "")
  }

  /** With the intended strip, a diagnostic about the script file reaches the
      user as the bare message, with no trace of the temporary path. */
  lemma StripDiagnosticPrefixLeavesMessage(scriptPath: string, rest: string)
    ensures StripDiagnosticPrefix(Diagnostic(scriptPath, rest), scriptPath) == rest
  {
    ReplaceLeading(DiagnosticPrefix(scriptPath), "", rest);
  }

  /** The result the helper hands to its callback: the process's failure flag and
      stdout untouched, its stderr put through the strip as written. */
  function Awk(scriptPath: string, raw: ExecResult): (r: ExecResult)
    ensures r.err == raw.err && r.stdout == raw.stdout
    ensures !Occurs(raw.stderr, PathPrefix(scriptPath)) ==> r == raw
    ensures forall i :: IsFirstOccurrence(raw.stderr, PathPrefix(scriptPath), i) ==>
      r.stderr == raw.stderr[..i] + raw.stderr[i + |scriptPath| + 6..]
  {
    raw.(stderr := StripPathPrefix(raw.stderr, scriptPath))
  }

  /** The helper with the intended strip: only stderr differs from `Awk`, and a
      diagnostic about the script file is reduced to its message. */
  function AwkIntended(scriptPath: string, raw: ExecResult): (r: ExecResult)
    ensures r.err == raw.err && r.stdout == raw.stdout
    ensures !Occurs(raw.stderr, DiagnosticPrefix(scriptPath)) ==> r == raw
    ensures forall rest :: raw.stderr == Diagnostic(scriptPath, rest) ==> r.stderr == rest
  {
    var n := |scriptPath| + 7;
    if |raw.stderr| >= n then
      StripDiagnosticPrefixLeavesMessage(scriptPath, raw.stderr[n..]);
      raw.(stderr := StripDiagnosticPrefix(raw.stderr, scriptPath))
    else
      raw.(stderr := StripDiagnosticPrefix(raw.stderr, scriptPath))
  }

  /** As written, a rejected script's diagnostic reaches the user with the stray
      `g` in front of the message. */
  lemma AwkOnDiagnostic(scriptPath: string, raw: ExecResult, rest: string)
    requires raw.stderr == Diagnostic(scriptPath, rest)
    ensures Awk(scriptPath, raw).stderr == "g" + rest
  {
    StripPathPrefixLeavesInitial(scriptPath, rest);
  }
}
