/**
 * The command loop of the pmanager user program
 * (project2/xv6-public/pmanager.c): a line of at most 100 characters is
 * classified by fixed keyword prefixes, tried in the order list, kill,
 * exit, memlim, execute, and its numeric fields are scanned into
 * zero-filled 100-character buffers that are then handed to atoi, the
 * syscalls and exec2.  What the program does with a command (printing,
 * the syscalls, fork and exec2) is not modelled: a line is turned into the
 * `Command` that says which of those would run, with the buffers built.
 */
module Pmanager {
  import opened Wrappers

  /** `static char buf[100]` and every field buffer. */
  const BUF_SIZE: nat := 100
  const NUL: char := 0 as char

  /** The characters that end a field. */
  predicate IsTerm(c: char) { c == ' ' || c == '\n' }

  predicate IsDigit(c: char) { '0' <= c <= '9' }

  predicate AllDigits(s: seq<char>) { forall k :: 0 <= k < |s| ==> IsDigit(s[k]) }

  function Zeros(n: nat): (z: seq<char>)
    ensures |z| == n && forall k :: 0 <= k < n ==> z[k] == NUL
  {
    seq(n, _ => NUL)
  }

  /**
   * Where a field scan starting at `start` stops: the first field
   * terminator at or after `start`, or the end of the buffer.  A scan that
   * starts past the end (the second field after a first field that ran to
   * the end) stops at once.
   */
  function FieldEnd(buf: seq<char>, start: nat): (e: nat)
    requires |buf| == BUF_SIZE
    ensures start <= e
    ensures start <= BUF_SIZE ==> e <= BUF_SIZE
    ensures start >= BUF_SIZE ==> e == start
    ensures forall k :: start <= k < e ==> !IsTerm(buf[k])
    ensures e < BUF_SIZE ==> IsTerm(buf[e])
    decreases BUF_SIZE - start
  {
    if start >= BUF_SIZE || IsTerm(buf[start]) then start
    else FieldEnd(buf, start + 1)
  }

  /** The characters a field scan from `start` passes over. */
  function Segment(buf: seq<char>, start: nat): (s: seq<char>)
    requires |buf| == BUF_SIZE
    ensures start < BUF_SIZE ==> s == buf[start..FieldEnd(buf, start)]
    ensures start >= BUF_SIZE ==> s == []
    ensures |s| <= BUF_SIZE
  {
    if start >= BUF_SIZE then [] else buf[start..FieldEnd(buf, start)]
  }

  /** A zero-filled buffer with `s` copied to its front. */
  function FieldBuffer(s: seq<char>): (f: seq<char>)
    requires |s| <= BUF_SIZE
    ensures |f| == BUF_SIZE && f[..|s|] == s
    ensures forall k :: |s| <= k < BUF_SIZE ==> f[k] == NUL
  {
    s + Zeros(BUF_SIZE - |s|)
  }

  /** The string a `char *` to `f` denotes: the characters before the first NUL. */
  function CString(f: seq<char>): (s: seq<char>)
    ensures |s| <= |f| && s == f[..|s|]
    ensures NUL !in s
    ensures |s| < |f| ==> f[|s|] == NUL
  {
    if |f| == 0 || f[0] == NUL then [] else [f[0]] + CString(f[1..])
  }

  /** What one line makes pmanager do. */
  datatype Command =
    | ListCmd                                         // showProcessList
    | KillCmd(pidField: seq<char>)                    // kill(atoi(strPid))
    | KillRejected                                    // "invalid pid input"
    | ExitCmd                                         // exit
    | MemlimCmd(pidField: seq<char>, limitField: seq<char>)  // setmemorylimit(atoi, atoi)
    | MemlimRejected                                  // "invalid arguments input"
    | ExecuteCmd(path: seq<char>, stackField: seq<char>)     // fork1 then exec2(strPath, ...)
    | ExecuteRejected                                 // "invalid stacksize input"
    | NotFound                                        // "command not found"

  predicate HasPrefix(buf: seq<char>, p: string)
  {
    |p| <= |buf| && buf[..|p|] == p
  }

  predicate IsList(buf: seq<char>) { HasPrefix(buf, "list") && |buf| > 4 && IsTerm(buf[4]) }
  predicate IsKill(buf: seq<char>) { HasPrefix(buf, "kill ") }
  predicate IsExit(buf: seq<char>) { HasPrefix(buf, "exit") && |buf| > 4 && IsTerm(buf[4]) }
  predicate IsMemlim(buf: seq<char>) { HasPrefix(buf, "memlim ") }
  predicate IsExecute(buf: seq<char>) { HasPrefix(buf, "execute ") }

  /**
   * The digit field scanned from `start`: accepted exactly when every
   * character before the field's terminator is a digit, giving a
   * 100-character buffer whose C string is exactly those characters.
   */
  function DigitField(buf: seq<char>, start: nat): (r: Option<seq<char>>)
    requires |buf| == BUF_SIZE
    ensures r.Some? <==> forall k :: start <= k < FieldEnd(buf, start) ==> IsDigit(buf[k])
    ensures r.Some? ==> |r.value| == BUF_SIZE && CString(r.value) == Segment(buf, start)
  {
    var s := Segment(buf, start);
    assert AllDigits(s) <==> forall k :: start <= k < FieldEnd(buf, start) ==> IsDigit(buf[k]) by {
      if start < BUF_SIZE {
        assert forall k :: start <= k < FieldEnd(buf, start) ==> buf[k] == s[k - start];
      }
    }
    if AllDigits(s) then
      CStringOfDigits(s, BUF_SIZE - |s|);
      Some(FieldBuffer(s))
    else None
  }

  /** kill: the pid field from index 5. */
  function KillOf(buf: seq<char>): Command
    requires |buf| == BUF_SIZE
  {
    match DigitField(buf, 5)
    case None => KillRejected
    case Some(f) => KillCmd(f)
  }

  /** memlim: the pid field from index 7, the limit field from one past its end. */
  function MemlimOf(buf: seq<char>): Command
    requires |buf| == BUF_SIZE
  {
    var pid := DigitField(buf, 7);
    var limit := DigitField(buf, FieldEnd(buf, 7) + 1);
    if pid.Some? && limit.Some? then MemlimCmd(pid.value, limit.value) else MemlimRejected
  }

  /** execute: the path from index 8, the stack size field from one past its end. */
  function ExecuteOf(buf: seq<char>): Command
    requires |buf| == BUF_SIZE
  {
    match DigitField(buf, FieldEnd(buf, 8) + 1)
    case None => ExecuteRejected
    case Some(s) => ExecuteCmd(FieldBuffer(Segment(buf, 8)), s)
  }

  /** The command a line read into `buf` is, as the if-else chain of main classifies it. */
  function Parse(buf: seq<char>): Command
    requires |buf| == BUF_SIZE
  {
    if IsList(buf) then ListCmd
    else if IsKill(buf) then KillOf(buf)
    else if IsExit(buf) then ExitCmd
    else if IsMemlim(buf) then MemlimOf(buf)
    else if IsExecute(buf) then ExecuteOf(buf)
    else NotFound
  }

  /** The scan stops at `e` when `e` is the first terminator from `start`, or the end. */
  lemma {:induction false} FieldEndIs(buf: seq<char>, start: nat, e: nat)
    requires |buf| == BUF_SIZE && start <= e <= BUF_SIZE
    requires forall k :: start <= k < e ==> !IsTerm(buf[k])
    requires e == BUF_SIZE || IsTerm(buf[e])
    ensures FieldEnd(buf, start) == e
    decreases e - start
  {
    if start < e {
      FieldEndIs(buf, start + 1, e);
    }
  }

  // ---------------------------------------------------------------------
  // The loops of main

  /** The zero-fill loops `for (i = 0; i < 100; i++) strX[i] = 0;`. */
  method ClearField(a: array<char>)
    requires a.Length == BUF_SIZE
    modifies a
    ensures a[..] == Zeros(BUF_SIZE)
  {
    for i := 0 to BUF_SIZE
      invariant forall k :: 0 <= k < i ==> a[k] == NUL
    {
      a[i] := NUL;
    }
  }

  /**
   * A digit-field loop of main: copy `buf[start..]` into the zero-filled
   * `dst` up to a terminator or the end of the line, stopping early with
   * `ok` false (the C sets its flag to -1) at a non-digit.  The C tests
   * `buf[idx]` before `idx < 100`; here the bound is tested first.
   */
  method ScanDigits(buf: array<char>, start: nat, dst: array<char>) returns (idx: nat, ok: bool)
    requires buf.Length == BUF_SIZE && dst.Length == BUF_SIZE && dst != buf
    requires start <= BUF_SIZE + 1
    requires dst[..] == Zeros(BUF_SIZE)
    modifies dst
    ensures start <= idx <= BUF_SIZE + 1
    ensures start <= BUF_SIZE ==> idx <= BUF_SIZE
    ensures ok <==> AllDigits(Segment(buf[..], start))
    ensures ok ==> idx == FieldEnd(buf[..], start) && dst[..] == FieldBuffer(Segment(buf[..], start))
  {
    idx := start;
    ok := true;
    while idx < BUF_SIZE && !IsTerm(buf[idx])
      invariant start <= idx && idx - start <= BUF_SIZE
      invariant idx > BUF_SIZE ==> idx == start
      invariant forall k :: start <= k < idx ==> !IsTerm(buf[k]) && IsDigit(buf[k])
      invariant forall k :: 0 <= k < idx - start ==> dst[k] == buf[start + k]
      invariant forall k :: idx - start <= k < BUF_SIZE ==> dst[k] == NUL
    {
      if !IsDigit(buf[idx]) {
        ok := false;
        break;
      }
      dst[idx - start] := buf[idx];
      idx := idx + 1;
    }
    if ok {
      if start < BUF_SIZE {
        FieldEndIs(buf[..], start, idx);
      }
      assert dst[..] == FieldBuffer(Segment(buf[..], start));
    } else {
      var e := FieldEnd(buf[..], start);
      assert idx < e;
      assert Segment(buf[..], start)[idx - start] == buf[idx];
    }
  }

  /**
   * The path loop of execute: copy `buf[8..]` verbatim into the
   * zero-filled `dst` up to a terminator or the end of the line, then
   * terminate the copy.  The C writes the terminator at `strPath[idx]`,
   * one past the array when the path runs to the end of the line; this
   * writes it at `strPath[idx - 8]`, right after the copied characters.
   */
  method CopyPath(buf: array<char>, dst: array<char>) returns (idx: nat)
    requires buf.Length == BUF_SIZE && dst.Length == BUF_SIZE && dst != buf
    requires dst[..] == Zeros(BUF_SIZE)
    modifies dst
    ensures idx == FieldEnd(buf[..], 8)
    ensures dst[..] == FieldBuffer(Segment(buf[..], 8))
  {
    idx := 8;
    while idx < BUF_SIZE && !IsTerm(buf[idx])
      invariant 8 <= idx <= BUF_SIZE
      invariant forall k :: 8 <= k < idx ==> !IsTerm(buf[k])
      invariant forall k :: 0 <= k < idx - 8 ==> dst[k] == buf[8 + k]
      invariant forall k :: idx - 8 <= k < BUF_SIZE ==> dst[k] == NUL
    {
      dst[idx - 8] := buf[idx];
      idx := idx + 1;
    }
    dst[idx - 8] := NUL;
    FieldEndIs(buf[..], 8, idx);
    assert dst[..] == FieldBuffer(Segment(buf[..], 8));
  }

  /** The where-the-C-writes index of execute's terminating NUL: `strPath[idx]`. */
  function PathNulIndexAsWritten(buf: seq<char>): (i: nat)
    requires |buf| == BUF_SIZE
    ensures 8 <= i <= BUF_SIZE
  {
    FieldEnd(buf, 8)
  }

  /**
   * An execute line read at the end of input with no newline, "execute ls",
   * leaves NULs after the path, which are not terminators: the path loop
   * runs to index 100 and the C writes `strPath[100]`, outside the array.
   */
  lemma PathNulWriteOverflows()
    ensures var buf := "execute ls" + Zeros(BUF_SIZE - 10);
      && |buf| == BUF_SIZE && IsExecute(buf)
      && PathNulIndexAsWritten(buf) == BUF_SIZE
  {
    var buf := "execute ls" + Zeros(BUF_SIZE - 10);
    assert buf[..8] == "execute ";
    forall k | 8 <= k < BUF_SIZE
      ensures !IsTerm(buf[k])
    {
      if k >= 10 {
        assert buf[k] == NUL;
      }
    }
    FieldEndIs(buf, 8, BUF_SIZE);
  }

  /** The prefix tests of main, character by character, as the C writes them. */
  predicate StartsWith(buf: array<char>, p: string)
    reads buf
    requires |p| <= buf.Length
  {
    forall k :: 0 <= k < |p| ==> buf[k] == p[k]
  }

  lemma StartsWithIsPrefix(buf: array<char>, p: string)
    requires |p| <= buf.Length
    ensures StartsWith(buf, p) <==> HasPrefix(buf[..], p)
  {
    if StartsWith(buf, p) {
      assert buf[..][..|p|] == p;
    }
  }

  /** The kill branch: `strPid` zero-filled, then the pid loop. */
  method ParseKill(buf: array<char>) returns (cmd: Command)
    requires buf.Length == BUF_SIZE
    ensures cmd == KillOf(buf[..])
  {
    var strPid := new char[BUF_SIZE];
    ClearField(strPid);
    var idx, ok := ScanDigits(buf, 5, strPid);
    if !ok {
      return KillRejected;
    }
    return KillCmd(strPid[..]);
  }

  /** The memlim branch: two zero-filled buffers, the pid loop, then the limit loop. */
  method ParseMemlim(buf: array<char>) returns (cmd: Command)
    requires buf.Length == BUF_SIZE
    ensures cmd == MemlimOf(buf[..])
  {
    var strPid := new char[BUF_SIZE];
    var strLimit := new char[BUF_SIZE];
    ClearField(strPid);
    ClearField(strLimit);
    ghost var line := buf[..];
    var idx, pidOk := ScanDigits(buf, 7, strPid);
    ghost var pid := strPid[..];
    idx := idx + 1;
    var _, limitOk := ScanDigits(buf, idx, strLimit);
    assert buf[..] == line && strPid[..] == pid;
    if !pidOk || !limitOk {
      return MemlimRejected;
    }
    return MemlimCmd(strPid[..], strLimit[..]);
  }

  /** The execute branch: two zero-filled buffers, the path loop, then the stack size loop. */
  method ParseExecute(buf: array<char>) returns (cmd: Command)
    requires buf.Length == BUF_SIZE
    ensures cmd == ExecuteOf(buf[..])
  {
    var strPath := new char[BUF_SIZE];
    var strStackSize := new char[BUF_SIZE];
    ClearField(strPath);
    ClearField(strStackSize);
    ghost var line := buf[..];
    var idx := CopyPath(buf, strPath);
    ghost var path := strPath[..];
    idx := idx + 1;
    var _, ok := ScanDigits(buf, idx, strStackSize);
    assert buf[..] == line && strPath[..] == path;
    if !ok {
      return ExecuteRejected;
    }
    return ExecuteCmd(strPath[..], strStackSize[..]);
  }

  /** One line of main's loop: the if-else chain over the prefixes. */
  method ParseLine(buf: array<char>) returns (cmd: Command)
    requires buf.Length == BUF_SIZE
    ensures cmd == Parse(buf[..])
  {
    StartsWithIsPrefix(buf, "list");
    StartsWithIsPrefix(buf, "kill ");
    StartsWithIsPrefix(buf, "exit");
    StartsWithIsPrefix(buf, "memlim ");
    StartsWithIsPrefix(buf, "execute ");
    ghost var line := buf[..];
    if StartsWith(buf, "list") && (buf[4] == ' ' || buf[4] == '\n') {
      cmd := ListCmd;
    } else if StartsWith(buf, "kill ") {
      cmd := ParseKill(buf);
    } else if StartsWith(buf, "exit") && (buf[4] == ' ' || buf[4] == '\n') {
      cmd := ExitCmd;
    } else if StartsWith(buf, "memlim ") {
      cmd := ParseMemlim(buf);
    } else if StartsWith(buf, "execute ") {
      cmd := ParseExecute(buf);
    } else {
      cmd := NotFound;
    }
    assert buf[..] == line;
  }

  // ---------------------------------------------------------------------
  // getcmd and the command loop

  /** A read that leaves `buf[0] == 0`: end of input. */
  predicate EmptyRead(line: seq<char>) { |line| == 0 || line[0] == NUL }

  /**
   * getcmd: clear the buffer, then read a line into it.  gets is input, so
   * `line` stands for the characters it stores (at most 99).  Returns -1
   * exactly when nothing was read.
   */
  method GetCmd(buf: array<char>, line: seq<char>) returns (r: int)
    requires buf.Length == BUF_SIZE && |line| < BUF_SIZE
    modifies buf
    ensures buf[..] == FieldBuffer(line)
    ensures r == -1 <==> EmptyRead(line)
    ensures r == 0 || r == -1
  {
    ClearField(buf);
    for i := 0 to |line|
      invariant forall k :: 0 <= k < i ==> buf[k] == line[k]
      invariant forall k :: i <= k < BUF_SIZE ==> buf[k] == NUL
    {
      buf[i] := line[i];
    }
    assert buf[..] == FieldBuffer(line);
    if buf[0] == NUL {
      return -1;
    }
    return 0;
  }

  /** What one getcmd gives the loop: nothing at end of input, or the command the line is. */
  function LineRead(line: seq<char>): Option<Command>
    requires |line| < BUF_SIZE
  {
    if EmptyRead(line) then None else Some(Parse(FieldBuffer(line)))
  }

  function Reads(lines: seq<seq<char>>): (rs: seq<Option<Command>>)
    requires forall i :: 0 <= i < |lines| ==> |lines[i]| < BUF_SIZE
    ensures |rs| == |lines|
    ensures forall i :: 0 <= i < |lines| ==> rs[i] == LineRead(lines[i])
  {
    seq(|lines|, i requires 0 <= i < |lines| => LineRead(lines[i]))
  }

  /**
   * The commands main's loop carries out on a series of reads: one per read
   * until a read comes back empty or an exit command has been carried out.
   */
  function Until(rs: seq<Option<Command>>): (cmds: seq<Command>)
    ensures |cmds| <= |rs|
  {
    if |rs| == 0 || rs[0].None? then []
    else if rs[0].value == ExitCmd then [rs[0].value]
    else [rs[0].value] + Until(rs[1..])
  }

  /** The commands a run of pmanager carries out on the lines it reads. */
  function Session(lines: seq<seq<char>>): seq<Command>
    requires forall i :: 0 <= i < |lines| ==> |lines[i]| < BUF_SIZE
  {
    Until(Reads(lines))
  }

  /** The loop carries out the commands read, in order, each read a non-empty one. */
  lemma {:induction false} UntilTakesReadsInOrder(rs: seq<Option<Command>>)
    ensures var cmds := Until(rs);
      forall i :: 0 <= i < |cmds| ==> rs[i] == Some(cmds[i])
  {
    if |rs| > 0 && rs[0].Some? && rs[0].value != ExitCmd {
      UntilTakesReadsInOrder(rs[1..]);
      var cmds := Until(rs);
      var rest := Until(rs[1..]);
      assert cmds == [rs[0].value] + rest;
      forall i | 1 <= i < |cmds|
        ensures rs[i] == Some(cmds[i])
      {
        assert cmds[i] == rest[i - 1] && rs[i] == rs[1..][i - 1];
      }
    }
  }

  /** Only the last command carried out can be exit. */
  lemma {:induction false} UntilExitsOnlyLast(rs: seq<Option<Command>>)
    ensures forall i :: 0 <= i < |Until(rs)| - 1 ==> !Until(rs)[i].ExitCmd?
  {
    if |rs| > 0 && rs[0].Some? && rs[0].value != ExitCmd {
      UntilExitsOnlyLast(rs[1..]);
      var cmds := Until(rs);
      var rest := Until(rs[1..]);
      assert cmds == [rs[0].value] + rest;
      forall i | 1 <= i < |cmds| - 1
        ensures !cmds[i].ExitCmd?
      {
        assert cmds[i] == rest[i - 1];
      }
    }
  }

  /** The loop stops before the reads run out only at an empty read or right after exit. */
  lemma {:induction false} UntilStopsOnlyAtEmptyReadOrExit(rs: seq<Option<Command>>)
    ensures var cmds := Until(rs);
      |cmds| < |rs| ==> rs[|cmds|].None? || (|cmds| > 0 && cmds[|cmds| - 1] == ExitCmd)
  {
    if |rs| > 0 && rs[0].Some? && rs[0].value != ExitCmd {
      UntilStopsOnlyAtEmptyReadOrExit(rs[1..]);
      var cmds := Until(rs);
      var rest := Until(rs[1..]);
      assert cmds == [rs[0].value] + rest;
      if |cmds| < |rs| {
        assert rs[|cmds|] == rs[1..][|rest|];
        if |rest| > 0 {
          assert cmds[|cmds| - 1] == rest[|rest| - 1];
        }
      }
    }
  }

  /**
   * A session runs the lines in order, one command per line, each line
   * parsed on its own; it stops at the first empty read or right after the
   * first exit command, and nothing else stops it.
   */
  lemma SessionRunsUntilEmptyReadOrExit(lines: seq<seq<char>>)
    requires forall i :: 0 <= i < |lines| ==> |lines[i]| < BUF_SIZE
    ensures var cmds := Session(lines);
      && (forall i :: 0 <= i < |cmds| ==> !EmptyRead(lines[i]) && cmds[i] == Parse(FieldBuffer(lines[i])))
      && (forall i :: 0 <= i < |cmds| - 1 ==> cmds[i] != ExitCmd)
      && (|cmds| < |lines| ==> EmptyRead(lines[|cmds|]) || (|cmds| > 0 && cmds[|cmds| - 1] == ExitCmd))
  {
    var rs := Reads(lines);
    UntilTakesReadsInOrder(rs);
    UntilExitsOnlyLast(rs);
    UntilStopsOnlyAtEmptyReadOrExit(rs);
  }

  /** The loop from read `k` on, one read at a time. */
  lemma UntilStep(rs: seq<Option<Command>>, k: nat)
    requires k < |rs|
    ensures rs[k].None? ==> Until(rs[k..]) == []
    ensures rs[k].Some? ==>
      Until(rs[k..]) == if rs[k].value == ExitCmd then [rs[k].value] else [rs[k].value] + Until(rs[k + 1..])
  {
    assert rs[k..][0] == rs[k] && rs[k..][1..] == rs[k + 1..];
  }

  /** main's loop `while (getcmd(buf, sizeof(buf)) >= 0)`, ending also at exit. */
  method Run(lines: seq<seq<char>>) returns (cmds: seq<Command>)
    requires forall i :: 0 <= i < |lines| ==> |lines[i]| < BUF_SIZE
    ensures cmds == Session(lines)
  {
    ghost var rs := Reads(lines);
    var buf := new char[BUF_SIZE];
    cmds := [];
    var k := 0;
    while k < |lines|
      invariant 0 <= k <= |lines|
      invariant cmds + Until(rs[k..]) == Until(rs)
      decreases |lines| - k
    {
      UntilStep(rs, k);
      var r := GetCmd(buf, lines[k]);
      if r < 0 {
        assert cmds + [] == cmds;
        return;
      }
      ghost var read := buf[..];
      var cmd := ParseLine(buf);
      assert buf[..] == read == FieldBuffer(lines[k]);
      assert rs[k] == Some(cmd);
      ghost var rest := Until(rs[k + 1..]);
      if cmd == ExitCmd {
        return cmds + [cmd];
      }
      assert (cmds + [cmd]) + rest == cmds + ([cmd] + rest);
      cmds := cmds + [cmd];
      k := k + 1;
    }
    assert rs[k..] == [];
    assert cmds + [] == cmds;
  }

  // ---------------------------------------------------------------------
  // What the classification promises

  /** A zero-filled buffer holding a digit field denotes exactly those digits. */
  lemma {:induction false} CStringOfDigits(s: seq<char>, pad: nat)
    requires AllDigits(s)
    ensures CString(s + Zeros(pad)) == s
    decreases |s|
  {
    if |s| == 0 {
      if pad > 0 {
        assert (s + Zeros(pad))[0] == NUL;
      }
    } else {
      assert (s + Zeros(pad))[1..] == s[1..] + Zeros(pad);
      CStringOfDigits(s[1..], pad);
    }
  }

  /** "list" and "exit" are recognised exactly when the fifth character is ' ' or '\n'. */
  lemma ListAndExitRecognised(buf: seq<char>)
    requires |buf| == BUF_SIZE
    ensures Parse(buf) == ListCmd <==> IsList(buf)
    ensures Parse(buf) == ExitCmd <==> IsExit(buf)
  {
    if IsExit(buf) {
      assert buf[0] == buf[..4][0] == 'e';
    }
  }

  /**
   * kill: the line is rejected exactly when a character before the first
   * ' ' or '\n' (or the end of the line) from index 5 is not a digit;
   * otherwise the buffer passed to atoi is 100 characters long and holds
   * exactly the scanned digits.
   */
  lemma KillField(buf: seq<char>)
    requires |buf| == BUF_SIZE && IsKill(buf)
    ensures var e := FieldEnd(buf, 5);
      && (Parse(buf) == KillRejected <==> exists k :: 5 <= k < e && !IsDigit(buf[k]))
      && (Parse(buf).KillCmd? ==> |Parse(buf).pidField| == BUF_SIZE && CString(Parse(buf).pidField) == buf[5..e])
  {
    KillDispatch(buf);
    var e := FieldEnd(buf, 5);
    if (exists k :: 5 <= k < e && !IsDigit(buf[k])) {
      var k :| 5 <= k < e && !IsDigit(buf[k]);
      assert Segment(buf, 5)[k - 5] == buf[k];
    } else {
      CStringOfDigits(buf[5..e], BUF_SIZE - (e - 5));
    }
  }

  /** The keyword prefixes exclude each other, so each keyword line reaches its own branch. */
  lemma KillDispatch(buf: seq<char>)
    requires |buf| == BUF_SIZE && IsKill(buf)
    ensures Parse(buf) == KillOf(buf)
  {
    assert buf[0] == buf[..5][0] == 'k';
    assert !IsList(buf);
  }

  lemma MemlimDispatch(buf: seq<char>)
    requires |buf| == BUF_SIZE && IsMemlim(buf)
    ensures Parse(buf) == MemlimOf(buf)
  {
    assert buf[0] == buf[..7][0] == 'm';
    assert !IsList(buf) && !IsKill(buf) && !IsExit(buf);
  }

  lemma ExecuteDispatch(buf: seq<char>)
    requires |buf| == BUF_SIZE && IsExecute(buf)
    ensures Parse(buf) == ExecuteOf(buf)
  {
    assert buf[0] == buf[..8][0] == 'e' && buf[2] == buf[..8][2] == 'e';
    assert !IsList(buf) && !IsKill(buf) && !IsExit(buf) && !IsMemlim(buf);
  }

  /**
   * memlim: both fields must be all digits, the limit field starting one
   * past the pid field's terminator; when both are, each buffer holds
   * exactly its digits.
   */
  lemma MemlimFields(buf: seq<char>)
    requires |buf| == BUF_SIZE && IsMemlim(buf)
    ensures Parse(buf) == MemlimRejected <==>
      !AllDigits(Segment(buf, 7)) || !AllDigits(Segment(buf, FieldEnd(buf, 7) + 1))
    ensures Parse(buf).MemlimCmd? ==>
      && CString(Parse(buf).pidField) == Segment(buf, 7)
      && CString(Parse(buf).limitField) == Segment(buf, FieldEnd(buf, 7) + 1)
  {
    MemlimDispatch(buf);
  }

  /**
   * execute: the path is copied verbatim up to the first ' ' or '\n' from
   * index 8 (no character of it is checked), and the line is rejected
   * exactly when the stack size field after it holds a non-digit.
   */
  lemma ExecuteFields(buf: seq<char>)
    requires |buf| == BUF_SIZE && IsExecute(buf)
    ensures Parse(buf) == ExecuteRejected <==> !AllDigits(Segment(buf, FieldEnd(buf, 8) + 1))
    ensures Parse(buf).ExecuteCmd? ==>
      && |Parse(buf).path| == BUF_SIZE
      && (forall k :: 0 <= k < FieldEnd(buf, 8) - 8 ==> Parse(buf).path[k] == buf[8 + k] && !IsTerm(buf[8 + k]))
      && (forall k :: FieldEnd(buf, 8) - 8 <= k < BUF_SIZE ==> Parse(buf).path[k] == NUL)
      && CString(Parse(buf).stackField) == Segment(buf, FieldEnd(buf, 8) + 1)
  {
    ExecuteDispatch(buf);
    PathCopied(buf);
  }

  /** The path buffer holds the characters up to the first terminator from index 8, then NULs. */
  lemma PathCopied(buf: seq<char>)
    requires |buf| == BUF_SIZE
    ensures var e := FieldEnd(buf, 8);
      var path := FieldBuffer(Segment(buf, 8));
      && (forall k :: 0 <= k < e - 8 ==> path[k] == buf[8 + k] && !IsTerm(buf[8 + k]))
      && (forall k :: e - 8 <= k < BUF_SIZE ==> path[k] == NUL)
  {
    var e := FieldEnd(buf, 8);
    var seg := Segment(buf, 8);
    assert |seg| == e - 8;
    forall k | 0 <= k < e - 8
      ensures FieldBuffer(seg)[k] == buf[8 + k]
    {
      assert FieldBuffer(seg)[k] == seg[k];
    }
  }

  /** Any line that starts with none of the keywords is "command not found", and only such lines. */
  lemma NotFoundExactly(buf: seq<char>)
    requires |buf| == BUF_SIZE
    ensures Parse(buf) == NotFound <==> !IsList(buf) && !IsKill(buf) && !IsExit(buf) && !IsMemlim(buf) && !IsExecute(buf)
  {
  }

  /**
   * A kill line read at the end of input with no newline, such as "kill 5",
   * is rejected: the NUL after the digits is neither a terminator nor a
   * digit.
   */
  lemma KillWithoutNewlineRejected()
    ensures var buf := "kill 5" + Zeros(BUF_SIZE - 6);
      |buf| == BUF_SIZE && Parse(buf) == KillRejected
  {
    var buf := "kill 5" + Zeros(BUF_SIZE - 6);
    assert buf[..5] == "kill ";
    assert !IsList(buf) by { assert buf[0] == 'k'; }
    assert !IsTerm(buf[5]) && !IsTerm(buf[6]);
    var e := FieldEnd(buf, 5);
    assert e > 6;
    assert Segment(buf, 5)[1] == NUL;
  }
}
