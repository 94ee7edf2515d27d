/**
 * The command line `createSession` hands to the pseudo-terminal: the agent binary
 * with the caller's parameters, the agent with the words of `CC_CLAUDE_ARGS`, or the
 * user's login shell. Environment variables are inputs; an unset variable and an
 * empty one are both falsy in the source and are both written "" here.
 */
module Launch {
  import opened SessionIndex

  datatype Environment = Environment(shell: string, claudeArgs: string)

  datatype Command = Command(program: string, args: seq<string>)

  const Agent: string := "claude"
  const DefaultShell: string := "/bin/sh"

  /** `s.split(sep)` for a one-character separator: every piece between separators, empty ones included. */
  function Split(s: string, sep: char): (parts: seq<string>)
    ensures |parts| >= 1
    ensures forall i | 0 <= i < |parts| :: sep !in parts[i]
  {
    if s == [] then [""]
    else
      var rest := Split(s[1..], sep);
      if s[0] == sep then [""] + rest
      else [[s[0]] + rest[0]] + rest[1..]
  }

  /** `parts.join(sep)`. */
  function Join(parts: seq<string>, sep: char): string
    requires |parts| >= 1
  {
    if |parts| == 1 then parts[0] else parts[0] + [sep] + Join(parts[1..], sep)
  }

  /** Joining the pieces with the separator gives the string back. */
  lemma {:induction false} JoinSplit(s: string, sep: char)
    ensures Join(Split(s, sep), sep) == s
  {
    if s != [] {
      JoinSplit(s[1..], sep);
      var rest := Split(s[1..], sep);
      if s[0] == sep {
        assert ([""] + rest)[1..] == rest;
        assert s == [sep] + s[1..];
      } else {
        var parts := [[s[0]] + rest[0]] + rest[1..];
        if |rest| == 1 {
          assert s == [s[0]] + s[1..];
        } else {
          assert parts[1..] == rest[1..];
          assert s == [s[0]] + s[1..];
        }
      }
    }
  }

  /** A word without the separator stays glued to the first piece of what follows it. */
  lemma {:induction false} SplitPrefix(w: string, s: string, sep: char)
    requires sep !in w
    ensures Split(w + s, sep) == [w + Split(s, sep)[0]] + Split(s, sep)[1..]
  {
    if w != [] {
      SplitPrefix(w[1..], s, sep);
      var parts := Split(s, sep);
      var rest := Split(w[1..] + s, sep);
      assert (w + s)[0] == w[0] != sep;
      assert (w + s)[1..] == w[1..] + s;
      assert rest == [w[1..] + parts[0]] + parts[1..];
      assert rest[1..] == parts[1..];
      assert [w[0]] + rest[0] == w + parts[0];
    } else {
      var parts := Split(s, sep);
      assert w + s == s;
      assert parts == [parts[0]] + parts[1..];
      assert w + parts[0] == parts[0];
    }
  }

  /** Splitting a join of separator-free pieces gives the pieces back. */
  lemma {:induction false} SplitJoin(parts: seq<string>, sep: char)
    requires |parts| >= 1
    requires forall i | 0 <= i < |parts| :: sep !in parts[i]
    ensures Split(Join(parts, sep), sep) == parts
  {
    if |parts| == 1 {
      SplitPrefix(parts[0], "", sep);
      assert parts[0] + "" == parts[0];
    } else {
      var tail := Join(parts[1..], sep);
      SplitJoin(parts[1..], sep);
      assert ([sep] + tail)[1..] == tail;
      assert Split([sep] + tail, sep) == [""] + parts[1..];
      SplitPrefix(parts[0], [sep] + tail, sep);
      assert parts[0] + ([sep] + tail) == parts[0] + [sep] + tail;
      assert parts[0] + "" == parts[0];
      assert parts == [parts[0]] + parts[1..];
    }
  }

  /**
   * The program and arguments of `createSession`: parameters, when given, always run
   * the agent; otherwise a terminal gets the login shell and an agent session the
   * words of its environment variable.
   */
  function LaunchCommand(kind: SessionType, parameters: seq<string>, env: Environment): (c: Command)
    ensures |parameters| > 0 ==> c == Command(Agent, parameters)
    ensures kind == Claude ==> c.program == Agent
    ensures kind == Terminal && parameters == [] ==>
      c.args == ["-l"] && c.program == (if env.shell != "" then env.shell else DefaultShell)
    ensures kind == Claude && parameters == [] && env.claudeArgs == "" ==> c.args == []
    ensures kind == Claude && parameters == [] && env.claudeArgs != "" ==>
      && |c.args| >= 1 && Join(c.args, ' ') == env.claudeArgs
      && forall i | 0 <= i < |c.args| :: ' ' !in c.args[i]
  {
    if kind == Terminal then
      if |parameters| > 0 then Command(Agent, parameters)
      else Command(if env.shell != "" then env.shell else DefaultShell, ["-l"])
    else
      var args := if |parameters| > 0 then parameters
        else if env.claudeArgs != "" then Split(env.claudeArgs, ' ')
        else [];
      JoinSplit(env.claudeArgs, ' ');
      Command(Agent, args)
  }
}
