/**
 * The A1 command interpreter (interpreter.c): the keyword dispatch with its
 * arity checks, the decoding of `exec`'s trailing flags and policy, the
 * checks `exec` makes before loading, the policy parser, the alphanumeric
 * checks, the ordering `my_ls` sorts names by, and `badcommand`.
 *
 * The commands themselves print, touch the file system or run the
 * scheduler; a dispatched command is returned as a `Command` value.
 */
module Interpreter {
  import opened Wrappers
  import Scheduler
  import ShellMemory

  /** Tokens a command may have, its name included. */
  const MAX_ARGS_SIZE: nat := 7

  // ---------------------------------------------------------------------
  // badcommand.
  // ---------------------------------------------------------------------

  /** commandError_t, numbered from 1 in declaration order. */
  datatype CommandError =
    | BadCommand | TooManyTokens | FileInexistent | Mkdir | Cd | Scandir
    | FileOpen | NonAlphanum | MemLoadScript

  function Code(e: CommandError): int {
    match e
    case BadCommand => 1
    case TooManyTokens => 2
    case FileInexistent => 3
    case Mkdir => 4
    case Cd => 5
    case Scandir => 6
    case FileOpen => 7
    case NonAlphanum => 8
    case MemLoadScript => 9
  }

  /** What badcommand prints and what it returns. */
  datatype Report = Report(message: string, code: int)

  /**
   * badcommand: the error's own code, which is never 0 (success), with the
   * line printed for it; the scandir, file-open and non-alphanumeric errors
   * print nothing.
   */
  function BadCommandReport(errorCode: CommandError): (r: Report)
    ensures r.code == Code(errorCode) && r.code != 0
    ensures forall e :: Code(e) == r.code ==> e == errorCode
    ensures r.message == "" <==> errorCode in {Scandir, FileOpen, NonAlphanum}
  {
    var message :=
      match errorCode
      case BadCommand => "Unknown Command\n"
      case TooManyTokens => "Bad command: Too many tokens\n"
      case FileInexistent => "Bad command: File not found\n"
      case Mkdir => "Bad command: my_mkdir\n"
      case Cd => "Bad command: my_cd\n"
      case MemLoadScript => "Memory loading for script error: exec\n"
      case _ => "";
    Report(message, Code(errorCode))
  }

  // ---------------------------------------------------------------------
  // policy_parser.
  // ---------------------------------------------------------------------

  /** The keyword of each real policy. */
  function PolicyName(p: Scheduler.Policy): string
    requires p != Scheduler.INVALID_POLICY
  {
    match p
    case FCFS => "FCFS"
    case SJF => "SJF"
    case RR => "RR"
    case RR30 => "RR30"
    case AGING => "AGING"
  }

  function PolicyParser(policyStr: string): Scheduler.Policy {
    if policyStr == "FCFS" then Scheduler.FCFS
    else if policyStr == "SJF" then Scheduler.SJF
    else if policyStr == "RR" then Scheduler.RR
    else if policyStr == "RR30" then Scheduler.RR30
    else if policyStr == "AGING" then Scheduler.AGING
    else Scheduler.INVALID_POLICY
  }

  /**
   * policy_parser is an exact keyword map: each policy's keyword parses to
   * it, and a string parses to a real policy only if it is that policy's
   * keyword.
   */
  lemma PolicyParserExact(policyStr: string, p: Scheduler.Policy)
    requires p != Scheduler.INVALID_POLICY
    ensures PolicyParser(PolicyName(p)) == p
    ensures PolicyParser(policyStr) == p <==> policyStr == PolicyName(p)
  {
  }

  // ---------------------------------------------------------------------
  // is_alphanumeric, is_alphanumeric_list.
  // ---------------------------------------------------------------------

  predicate IsDigit(c: char) { '0' <= c <= '9' }
  predicate IsUpper(c: char) { 'A' <= c <= 'Z' }
  predicate IsLower(c: char) { 'a' <= c <= 'z' }
  predicate IsAlpha(c: char) { IsUpper(c) || IsLower(c) }
  /** isalnum in the C locale. */
  predicate IsAlnum(c: char) { IsDigit(c) || IsAlpha(c) }

  ghost predicate Alphanumeric(s: string) {
    forall i :: 0 <= i < |s| ==> IsAlnum(s[i])
  }

  /** is_alphanumeric: every character is a letter or a digit ("" is). */
  method IsAlphanumeric(str: string) returns (r: bool)
    ensures r <==> Alphanumeric(str)
  {
    var i := 0;
    while i < |str|
      invariant 0 <= i <= |str|
      invariant forall k :: 0 <= k < i ==> IsAlnum(str[k])
    {
      if !IsAlnum(str[i]) {
        return false;
      }
      i := i + 1;
    }
    return true;
  }

  /** is_alphanumeric_list: the first lenLst strings are all alphanumeric. */
  method IsAlphanumericList(lst: seq<string>, lenLst: int) returns (r: bool)
    requires lenLst <= |lst|
    ensures r <==> forall i :: 0 <= i < lenLst ==> Alphanumeric(lst[i])
  {
    var i := 0;
    while i < lenLst
      invariant 0 <= i <= if lenLst < 0 then 0 else lenLst
      invariant forall k :: 0 <= k < i ==> Alphanumeric(lst[k])
    {
      var ok := IsAlphanumeric(lst[i]);
      if !ok {
        return false;
      }
      i := i + 1;
    }
    return true;
  }

  // ---------------------------------------------------------------------
  // custom_sort.
  // ---------------------------------------------------------------------

  function ToLower(c: char): (r: char)
    ensures IsUpper(c) ==> IsLower(r) && r != c
    ensures !IsUpper(c) ==> r == c
  {
    if IsUpper(c) then (c as int + 32) as char else c
  }

  function Sign(x: int): int {
    if x < 0 then -1 else if x > 0 then 1 else 0
  }

  /**
   * The order on characters that custom_sort uses: by lower-case form, and
   * between the two cases of one letter, upper case first.
   */
  function CharOrder(x: char, y: char): (r: int)
    ensures r == -1 || r == 0 || r == 1
    ensures r == 0 <==> x == y
  {
    if ToLower(x) != ToLower(y) then Sign(ToLower(x) as int - ToLower(y) as int)
    else Sign(x as int - y as int)
  }

  /**
   * The order custom_sort defines on names: lexicographic by CharOrder,
   * with a proper prefix first.
   */
  function NameOrder(a: string, b: string): (r: int)
    ensures r == -1 || r == 0 || r == 1
  {
    if |a| == 0 && |b| == 0 then 0
    else if |a| == 0 then -1
    else if |b| == 0 then 1
    else if CharOrder(a[0], b[0]) != 0 then CharOrder(a[0], b[0])
    else NameOrder(a[1..], b[1..])
  }

  /** The explicit digit-before-letter test agrees with CharOrder. */
  lemma DigitBeforeLetter(x: char, y: char)
    requires IsDigit(x) && IsAlpha(y)
    ensures CharOrder(x, y) == -1 && CharOrder(y, x) == 1
  {
  }

  /**
   * custom_sort: -1, 0 or 1 as name1 comes before, equals or comes after
   * name2 in NameOrder.
   */
  method CustomSort(name1: string, name2: string) returns (r: int)
    ensures r == NameOrder(name1, name2)
  {
    var i := 0;
    while i < |name1| && i < |name2|
      invariant 0 <= i <= |name1| && i <= |name2|
      invariant NameOrder(name1, name2) == NameOrder(name1[i..], name2[i..])
    {
      assert name1[i..][0] == name1[i] && name2[i..][0] == name2[i];
      if IsDigit(name1[i]) && IsAlpha(name2[i]) {
        DigitBeforeLetter(name1[i], name2[i]);
        return -1;
      } else if IsAlpha(name1[i]) && IsDigit(name2[i]) {
        DigitBeforeLetter(name2[i], name1[i]);
        return 1;
      }
      if ToLower(name1[i]) != ToLower(name2[i]) {
        if ToLower(name1[i]) < ToLower(name2[i]) {
          return -1;
        } else {
          return 1;
        }
      }
      if name1[i] != name2[i] {
        if name1[i] < name2[i] {
          return -1;
        } else {
          return 1;
        }
      }
      assert name1[i..][1..] == name1[i + 1..] && name2[i..][1..] == name2[i + 1..];
      i := i + 1;
    }
    if i == |name1| && i != |name2| {
      return -1;
    } else if i == |name2| && i != |name1| {
      return 1;
    }
    return 0;
  }

  /** custom_sort answers 0 exactly for identical names. */
  lemma {:induction false} NameOrderZero(a: string, b: string)
    ensures NameOrder(a, b) == 0 <==> a == b
  {
    if |a| > 0 && |b| > 0 && CharOrder(a[0], b[0]) == 0 {
      NameOrderZero(a[1..], b[1..]);
      if a[1..] == b[1..] {
        assert a == [a[0]] + a[1..] && b == [b[0]] + b[1..];
      }
    }
  }

  /** Swapping the names negates custom_sort's answer. */
  lemma {:induction false} NameOrderAntisymmetric(a: string, b: string)
    ensures NameOrder(a, b) == -NameOrder(b, a)
  {
    if |a| > 0 && |b| > 0 && CharOrder(a[0], b[0]) == 0 {
      NameOrderAntisymmetric(a[1..], b[1..]);
    }
  }

  lemma CharOrderTransitive(x: char, y: char, z: char)
    requires CharOrder(x, y) == -1 && CharOrder(y, z) == -1
    ensures CharOrder(x, z) == -1
  {
  }

  /** custom_sort is transitive, so the order scandir sorts by is total. */
  lemma {:induction false} NameOrderTransitive(a: string, b: string, c: string)
    requires NameOrder(a, b) == -1 && NameOrder(b, c) == -1
    ensures NameOrder(a, c) == -1
  {
    if |a| > 0 && |b| > 0 && |c| > 0 {
      if CharOrder(a[0], b[0]) == 0 && CharOrder(b[0], c[0]) == 0 {
        NameOrderTransitive(a[1..], b[1..], c[1..]);
      } else if CharOrder(a[0], b[0]) == -1 && CharOrder(b[0], c[0]) == -1 {
        CharOrderTransitive(a[0], b[0], c[0]);
      }
    }
  }

  /**
   * At the first position where two names differ, a digit comes before a
   * letter, and the upper-case form of a letter before its lower-case form;
   * a proper prefix comes before the longer name.
   */
  lemma {:induction false} NameOrderAtDifference(a: string, b: string, i: nat)
    requires i <= |a| && i <= |b| && a[..i] == b[..i]
    ensures i == |a| < |b| ==> NameOrder(a, b) == -1
    ensures i < |a| && i < |b| && IsDigit(a[i]) && IsAlpha(b[i]) ==> NameOrder(a, b) == -1
    ensures i < |a| && i < |b| && IsUpper(a[i]) && b[i] == ToLower(a[i]) ==> NameOrder(a, b) == -1
  {
    if i > 0 {
      assert a[0] == a[..i][0] && b[0] == b[..i][0];
      assert a[1..][..i - 1] == a[..i][1..] && b[1..][..i - 1] == b[..i][1..];
      NameOrderAtDifference(a[1..], b[1..], i - 1);
    }
  }

  // ---------------------------------------------------------------------
  // interpreter: arity checks and dispatch.
  // ---------------------------------------------------------------------

  /** A command the interpreter hands on, with its arguments. */
  datatype Command =
    | Help
    | Quit
    | Set(name: string, values: seq<string>)
    | Print(name: string)
    | Run(script: string)
    | Echo(input: string)
    | MyLs
    | MyTouch(dirName: string)
    | MyMkdir(dirName: string)
    | MyCd(dirName: string)
    | Exec(scripts: seq<string>, policy: Scheduler.Policy, isRunningInBackground: bool, isRunningConcurrently: bool)

  /** What a call of interpreter comes to: a command run, or badcommand's code. */
  datatype Action = Perform(cmd: Command) | Reject(error: CommandError)

  /** The position strcspn(s, "\r\n") gives: the first line ending, or |s|. */
  function LineEnd(s: string): (r: nat)
    ensures r <= |s|
    ensures forall k :: 0 <= k < r ==> s[k] != '\r' && s[k] != '\n'
    ensures r < |s| ==> s[r] == '\r' || s[r] == '\n'
  {
    if |s| == 0 || s[0] == '\r' || s[0] == '\n' then 0 else 1 + LineEnd(s[1..])
  }

  /** An argument cut at its first line ending. */
  function TrimLine(s: string): (r: string)
    ensures |r| <= |s| && r == s[..|r|]
    ensures '\r' !in r && '\n' !in r
    ensures '\r' !in s && '\n' !in s ==> r == s
  {
    s[..LineEnd(s)]
  }

  /**
   * The dispatch of interpreter, given at least one and at most
   * MAX_ARGS_SIZE arguments already cut at their line endings.
   */
  function Dispatch(args: seq<string>): (r: Action)
    requires 1 <= |args| <= MAX_ARGS_SIZE
  {
    var cmd := args[0];
    if cmd == "help" then (if |args| != 1 then Reject(BadCommand) else Perform(Help))
    else if cmd == "quit" then (if |args| != 1 then Reject(BadCommand) else Perform(Quit))
    else if cmd == "set" then (if |args| < 3 then Reject(BadCommand) else Perform(Set(args[1], args[2..])))
    else if cmd == "print" then (if |args| != 2 then Reject(BadCommand) else Perform(Print(args[1])))
    else if cmd == "run" then (if |args| != 2 then Reject(BadCommand) else Perform(Run(args[1])))
    else if cmd == "echo" then (if |args| != 2 then Reject(BadCommand) else Perform(Echo(args[1])))
    else if cmd == "my_ls" then (if |args| != 1 then Reject(BadCommand) else Perform(MyLs))
    else if cmd == "my_touch" then (if |args| != 2 then Reject(BadCommand) else Perform(MyTouch(args[1])))
    else if cmd == "my_mkdir" then (if |args| != 2 then Reject(BadCommand) else Perform(MyMkdir(args[1])))
    else if cmd == "my_cd" then (if |args| != 2 then Reject(BadCommand) else Perform(MyCd(args[1])))
    else if cmd == "exec" then DecodeExec(args)
    else Reject(BadCommand)
  }

  /**
   * exec's decoding: a last token "MT" asks for concurrency, a "#" just
   * before it (or last) for a background shell, and the token before those
   * names the policy; the ones between the command and the policy are the
   * scripts.
   */
  function DecodeExec(args: seq<string>): (r: Action)
    requires 1 <= |args| <= MAX_ARGS_SIZE && args[0] == "exec"
  {
    var mt := if args[|args| - 1] == "MT" then 1 else 0;
    var bg := if args[|args| - 1 - mt] == "#" then 1 else 0;
    var policy := PolicyParser(args[|args| - 1 - mt - bg]);
    if |args| < 3 || |args| > 7 || policy == Scheduler.INVALID_POLICY then Reject(BadCommand)
    else Perform(Exec(args[1..|args| - 1 - mt - bg], policy, bg == 1, mt == 1))
  }

  /** The tokens of an exec line: command, scripts, policy and flags. */
  function ExecLine(scripts: seq<string>, p: Scheduler.Policy, bg: bool, mt: bool): seq<string>
    requires p != Scheduler.INVALID_POLICY
  {
    ["exec"] + scripts + [PolicyName(p)] + (if bg then ["#"] else []) + (if mt then ["MT"] else [])
  }

  /** A sequence is the concatenation of its slices at four cut points. */
  lemma SliceFive<T>(s: seq<T>, a: nat, b: nat, c: nat, d: nat)
    requires a <= b <= c <= d <= |s|
    ensures s == s[..a] + s[a..b] + s[b..c] + s[c..d] + s[d..]
  {
    assert s[..b] == s[..a] + s[a..b];
    assert s[..c] == s[..b] + s[b..c];
    assert s[..d] == s[..c] + s[c..d];
    assert s == s[..d] + s[d..];
  }

  /**
   * A decoded exec accounts for every token: the command, the scripts (at
   * most five), the policy keyword, then "#" if it runs in the background
   * and "MT" if it runs concurrently.
   */
  lemma ExecTokens(args: seq<string>)
    requires 1 <= |args| <= MAX_ARGS_SIZE && args[0] == "exec"
    ensures DecodeExec(args).Perform? ==>
              var e := DecodeExec(args).cmd;
              && e.policy != Scheduler.INVALID_POLICY
              && |e.scripts| <= 5
              && args == ExecLine(e.scripts, e.policy, e.isRunningInBackground, e.isRunningConcurrently)
  {
    if DecodeExec(args).Perform? {
      var e := DecodeExec(args).cmd;
      var mt := if e.isRunningConcurrently then 1 else 0;
      var bg := if e.isRunningInBackground then 1 else 0;
      var n := |args|;
      var k := n - 1 - mt - bg;
      PolicyParserExact(args[k], e.policy);
      assert args[..1] == ["exec"];
      assert args[1..k] == e.scripts;
      assert args[k..k + 1] == [PolicyName(e.policy)];
      assert args[k + 1..n - mt] == (if e.isRunningInBackground then ["#"] else []);
      assert args[n - mt..] == (if e.isRunningConcurrently then ["MT"] else []);
      SliceFive(args, 1, k, k + 1, n - mt);
    }
  }

  /**
   * Conversely, every exec line with one to five tokens between the command
   * and the end decodes to its scripts, policy and flags, whatever the
   * script names are.
   */
  lemma ExecLineDecodes(scripts: seq<string>, p: Scheduler.Policy, bg: bool, mt: bool)
    requires p != Scheduler.INVALID_POLICY
    requires 1 <= |scripts| + (if bg then 1 else 0) + (if mt then 1 else 0) <= 5
    ensures DecodeExec(ExecLine(scripts, p, bg, mt)) == Perform(Exec(scripts, p, bg, mt))
  {
    var line := ExecLine(scripts, p, bg, mt);
    var n := |line|;
    var m := if mt then 1 else 0;
    var b := if bg then 1 else 0;
    PolicyParserExact(PolicyName(p), p);
    assert line[n - 1] == if mt then "MT" else if bg then "#" else PolicyName(p);
    assert line[n - 1 - m] == if bg then "#" else PolicyName(p);
    assert line[n - 1 - m - b] == PolicyName(p);
    assert line[1..n - 1 - m - b] == scripts;
  }

  /** set receives at most MAX_VALUE_SIZE values, as the variable store needs. */
  lemma SetValuesFit(args: seq<string>)
    requires 1 <= |args| <= MAX_ARGS_SIZE
    ensures Dispatch(args).Perform? && Dispatch(args).cmd.Set? ==>
              1 <= |Dispatch(args).cmd.values| <= ShellMemory.MAX_VALUE_SIZE
  {
  }

  /**
   * interpreter: fewer than one argument is a bad command and more than
   * MAX_ARGS_SIZE too many tokens, before anything is looked at; otherwise
   * every argument is cut at its first line ending, in place, and the
   * command is dispatched on the cut arguments.
   */
  method Interpret(commandArgs: array<string>, argsSize: int) returns (r: Action)
    requires argsSize <= commandArgs.Length
    modifies commandArgs
    ensures argsSize < 1 ==> r == Reject(BadCommand) && commandArgs[..] == old(commandArgs[..])
    ensures argsSize > MAX_ARGS_SIZE ==> r == Reject(TooManyTokens) && commandArgs[..] == old(commandArgs[..])
    ensures 1 <= argsSize <= MAX_ARGS_SIZE ==>
              && |commandArgs[..]| == |old(commandArgs[..])|
              && (forall i :: 0 <= i < commandArgs.Length ==>
                    commandArgs[i] == if i < argsSize then TrimLine(old(commandArgs[i])) else old(commandArgs[i]))
              && r == Dispatch(commandArgs[..argsSize])
  {
    if argsSize < 1 {
      return Reject(BadCommand);
    } else if argsSize > MAX_ARGS_SIZE {
      return Reject(TooManyTokens);
    }
    var i := 0;
    while i < argsSize
      invariant 0 <= i <= argsSize
      invariant forall k :: 0 <= k < commandArgs.Length ==>
                  commandArgs[k] == if k < i then TrimLine(old(commandArgs[k])) else old(commandArgs[k])
    {
      commandArgs[i] := TrimLine(commandArgs[i]);
      i := i + 1;
    }
    r := Dispatch(commandArgs[..argsSize]);
  }

  // ---------------------------------------------------------------------
  // exec: the checks before loading.
  // ---------------------------------------------------------------------

  ghost predicate HasDuplicate(scripts: seq<string>) {
    exists i, j :: 0 <= i < j < |scripts| && scripts[i] == scripts[j]
  }

  /**
   * exec's duplicate-name check as written: only the first two names, and
   * the third against them when there are exactly three, are compared.
   */
  function ExecRejectsDuplicatesAsWritten(scripts: seq<string>): bool {
    |scripts| > 1 && (scripts[0] == scripts[1]
                      || (|scripts| == 3 && (scripts[0] == scripts[2] || scripts[1] == scripts[2])))
  }

  /** Up to three scripts the check is right. */
  lemma AsWrittenCheckUpToThree(scripts: seq<string>)
    requires |scripts| <= 3
    ensures ExecRejectsDuplicatesAsWritten(scripts) <==> HasDuplicate(scripts)
  {
    if HasDuplicate(scripts) {
      var i, j :| 0 <= i < j < |scripts| && scripts[i] == scripts[j];
    }
  }

  /** exec accepts up to five scripts, and four with a repeated name pass the check. */
  lemma AsWrittenCheckMissesDuplicate()
    ensures var scripts := ["a", "b", "c", "a"];
            && DecodeExec(["exec"] + scripts + ["FCFS"]) == Perform(Exec(scripts, Scheduler.FCFS, false, false))
            && HasDuplicate(scripts) && !ExecRejectsDuplicatesAsWritten(scripts)
  {
    var scripts := ["a", "b", "c", "a"];
    assert scripts[0] == scripts[3];
    assert (["exec"] + scripts + ["FCFS"])[1..5] == scripts;
  }

  /** exec's duplicate-name check over every pair of names. */
  method ExecRejectsDuplicates(scripts: seq<string>) returns (dup: bool)
    ensures dup <==> HasDuplicate(scripts)
  {
    var i := 0;
    while i < |scripts|
      invariant 0 <= i <= |scripts|
      invariant forall a, b :: 0 <= a < b < |scripts| && a < i ==> scripts[a] != scripts[b]
    {
      var j := i + 1;
      while j < |scripts|
        invariant i < j <= |scripts|
        invariant forall b :: i < b < j ==> scripts[i] != scripts[b]
      {
        if scripts[i] == scripts[j] {
          return true;
        }
        j := j + 1;
      }
      i := i + 1;
    }
    return false;
  }

  /** exec's answer: badcommand's code, or nothing (the source returns no value). */
  datatype ExecResult = ExecFailed(code: int) | NoValue

  /** The flag exec keeps between calls. */
  class ExecState {
    /** execOnlyLoading: a background exec ran, later execs only load. */
    var execOnlyLoading: bool

    constructor ()
      ensures !execOnlyLoading
    {
      execOnlyLoading := false;
    }

    /**
     * exec, given whether each script's file opens, whether loading it
     * succeeds, and whether loading the shell's own input succeeds. Names
     * that repeat are rejected before anything is loaded, by the corrected
     * check over every pair of names (ExecRejectsDuplicates); the code as
     * written compares only the first two or three names, so it would load
     * `exec a b c a FCFS` (AsWrittenCheckMissesDuplicate). A file that does
     * not open or does not load stops the batch, the scripts before it
     * staying loaded; a background exec loads the shell's input and sets
     * the flag; the scheduler runs unless the flag was set earlier by
     * another background exec.
     */
    method Exec(scripts: seq<string>, isRunningInBackground: bool,
                opens: seq<bool>, loads: seq<bool>, shellLoads: bool)
      returns (r: ExecResult, loaded: seq<string>, schedulerRuns: bool)
      requires |opens| == |scripts| && |loads| == |scripts|
      modifies this
      ensures HasDuplicate(scripts) ==>
                r == ExecFailed(Code(BadCommand)) && loaded == [] && !schedulerRuns && execOnlyLoading == old(execOnlyLoading)
      ensures !HasDuplicate(scripts) ==>
                && |loaded| <= |scripts| && loaded == scripts[..|loaded|]
                && (forall i :: 0 <= i < |loaded| ==> opens[i] && loads[i])
                && (|loaded| < |scripts| ==>
                      && r == ExecFailed(Code(if !opens[|loaded|] then FileInexistent else MemLoadScript))
                      && !(opens[|loaded|] && loads[|loaded|]))
      ensures !HasDuplicate(scripts) && |loaded| < |scripts| ==> !schedulerRuns && execOnlyLoading == old(execOnlyLoading)
      ensures !HasDuplicate(scripts) && |loaded| == |scripts| ==>
                if isRunningInBackground && !shellLoads then
                  r == ExecFailed(Code(MemLoadScript)) && !schedulerRuns && execOnlyLoading == old(execOnlyLoading)
                else
                  && r == NoValue
                  && execOnlyLoading == (old(execOnlyLoading) || isRunningInBackground)
                  && schedulerRuns == (!old(execOnlyLoading) || isRunningInBackground)
    {
      loaded := [];
      schedulerRuns := false;
      var dup := ExecRejectsDuplicates(scripts);
      if dup {
        return ExecFailed(BadCommandReport(BadCommand).code), loaded, schedulerRuns;
      }
      var scriptIdx := 0;
      while scriptIdx < |scripts|
        invariant 0 <= scriptIdx <= |scripts|
        invariant loaded == scripts[..scriptIdx]
        invariant forall i :: 0 <= i < scriptIdx ==> opens[i] && loads[i]
        invariant execOnlyLoading == old(execOnlyLoading)
      {
        if !opens[scriptIdx] {
          return ExecFailed(BadCommandReport(FileInexistent).code), loaded, schedulerRuns;
        }
        if !loads[scriptIdx] {
          return ExecFailed(BadCommandReport(MemLoadScript).code), loaded, schedulerRuns;
        }
        loaded := loaded + [scripts[scriptIdx]];
        scriptIdx := scriptIdx + 1;
      }
      if isRunningInBackground {
        if !shellLoads {
          return ExecFailed(BadCommandReport(MemLoadScript).code), loaded, schedulerRuns;
        }
        schedulerRuns := true;
        execOnlyLoading := true;
        return NoValue, loaded, schedulerRuns;
      }
      schedulerRuns := !execOnlyLoading;
      return NoValue, loaded, schedulerRuns;
    }
  }
}
