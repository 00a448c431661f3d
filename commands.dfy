/** The command front end of pr4.c's `main`: each input line is tokenized by
    `parse`, its first three tokens become `cmd`, `fnm` and `fsz`, and `cmd` is
    looked up in `table`. Every handler other than `do_exit` is a stub that
    reports failure; `do_exit` ends the process. */
module Commands {
  import opened CStrings
  import opened Tokenizer

  /** The handlers `table` refers to (pr4.c:37-47). */
  datatype Handler = Root | Print | Chdir | Mkdir | Rmdir | Mvdir | Mkfil | Rmfil | Mvfil | Szfil | Exit

  /** What calling a handler does: return a status to `main`, or end the process. */
  datatype Effect = Returned(status: int) | Exited

  /** The bodies of the `do_*` functions (pr4.c:119-184): each stub returns -1
      (failure); `do_exit` calls exit(0) and so never returns. */
  function Invoke(h: Handler, name: string, size: string): (r: Effect)
    ensures r.Exited? <==> h == Exit
    ensures r.Returned? ==> r.status == -1
  {
    match h
    case Root => Returned(-1)
    case Print => Returned(-1)
    case Chdir => Returned(-1)
    case Mkdir => Returned(-1)
    case Rmdir => Returned(-1)
    case Mvdir => Returned(-1)
    case Mkfil => Returned(-1)
    case Rmfil => Returned(-1)
    case Mvfil => Returned(-1)
    case Szfil => Returned(-1)
    case Exit => Exited
  }

  /** One row of `table`: a command name and its handler. */
  datatype Action = Action(cmd: string, handler: Handler)

  /** `table` without its NULL end marker (pr4.c:52-65). */
  const Table: seq<Action> := [
    Action("root", Root), Action("print", Print), Action("chdir", Chdir),
    Action("mkdir", Mkdir), Action("rmdir", Rmdir), Action("mvdir", Mvdir),
    Action("mkfil", Mkfil), Action("rmfil", Rmfil), Action("mvfil", Mvfil),
    Action("szfil", Szfil), Action("exit", Exit)
  ]

  /** The names `table` recognises. */
  const KnownNames: set<string> := set a | a in Table :: a.cmd

  /** What `main` does with one input line. */
  datatype Outcome =
    | Blank                                          // no tokens: the line is skipped
    | NotFound(cmd: string)                          // no table entry matches
    | Failed(cmd: string, fnm: string, fsz: string)  // the handler returned -1
    | Quiet                                          // the handler returned another status
    | Stop                                           // the handler ended the process

  /** The text `main` prints for an outcome (pr4.c:106, 111). */
  function Message(o: Outcome): (r: string)
    ensures r == "" <==> !(o.NotFound? || o.Failed?)
    ensures r != "" ==> r[|r| - 1] == '\n'
  {
    match o
    case NotFound(cmd) => "command not found: " + cmd + "\n"
    case Failed(cmd, fnm, fsz) => "  " + cmd + " " + fnm + " " + fsz + ": failed\n"
    case _ => ""
  }

  /** `cmd`, `fnm` and `fsz` are the first three tokens, or "" when the line
      has fewer (pr4.c:91-93). */
  function Arg(toks: seq<string>, i: nat): string {
    if i < |toks| then toks[i] else ""
  }

  /** The index of the first entry of `table` whose name is exactly `cmd`. */
  function Lookup(table: seq<Action>, cmd: string): (r: Option<nat>)
    ensures r.Some? ==> r.value < |table| && table[r.value].cmd == cmd
    ensures r.Some? ==> forall j :: 0 <= j < r.value ==> table[j].cmd != cmd
    ensures r.None? ==> forall j :: 0 <= j < |table| ==> table[j].cmd != cmd
  {
    if table == [] then None
    else if table[0].cmd == cmd then Some(0)
    else match Lookup(table[1..], cmd)
      case None => None
      case Some(i) => Some(i + 1)
  }

  /** What `main` does with a line whose tokens are `toks` (pr4.c:91-111). */
  function Dispatch(toks: seq<string>): (r: Outcome)
    ensures r == Blank <==> |toks| == 0
    ensures r.NotFound? ==> |toks| > 0 && r.cmd == toks[0]
    ensures r.NotFound? ==> forall j :: 0 <= j < |Table| ==> Table[j].cmd != r.cmd
    ensures r != Quiet
  {
    if |toks| == 0 then Blank
    else
      var cmd, fnm, fsz := Arg(toks, 0), Arg(toks, 1), Arg(toks, 2);
      match Lookup(Table, cmd)
      case None => NotFound(cmd)
      case Some(i) =>
        match Invoke(Table[i].handler, fnm, fsz)
        case Exited => Stop
        case Returned(status) => if status == -1 then Failed(cmd, fnm, fsz) else Quiet
  }

  /** The body of `main`'s loop for one line: pick the arguments, skip a blank
      line, and scan `table` for the command (pr4.c:91-111). */
  method DispatchLine(toks: seq<string>) returns (o: Outcome)
    ensures o == Dispatch(toks)
  {
    var n := |toks|;
    var cmd := if n > 0 then toks[0] else "";
    var fnm := if n > 1 then toks[1] else "";
    var fsz := if n > 2 then toks[2] else "";
    if n == 0 {
      return Blank;
    }
    var found := false;
    var k := 0;
    o := Quiet;
    while k < |Table|
      invariant 0 <= k <= |Table|
      invariant !found
      invariant forall j :: 0 <= j < k ==> Table[j].cmd != cmd
    {
      if Table[k].cmd == cmd {
        found := true;
        var ret := Invoke(Table[k].handler, fnm, fsz);
        if ret.Exited? {
          o := Stop;
        } else if ret.status == -1 {
          o := Failed(cmd, fnm, fsz);
        } else {
          o := Quiet;
        }
        break;
      }
      k := k + 1;
    }
    if !found {
      o := NotFound(cmd);
    }
  }

  /** The outcome each line would have on its own. */
  function PerLine(lines: seq<string>): (os: seq<Outcome>)
    ensures |os| == |lines|
  {
    seq(|lines|, i requires 0 <= i < |lines| => Dispatch(Tokens(lines[i])))
  }

  /** The outcomes up to and including the first Stop: `do_exit` ends the process. */
  function UpToStop(os: seq<Outcome>): seq<Outcome> {
    if os == [] then []
    else if os[0] == Stop then [Stop]
    else [os[0]] + UpToStop(os[1..])
  }

  /** The outcomes of the lines `main` reads, in order, up to and including the
      line whose command ends the process. */
  function Session(lines: seq<string>): (r: seq<Outcome>)
    ensures |r| <= |lines|
    ensures Stop in r <==> exists i :: 0 <= i < |lines| && PerLine(lines)[i] == Stop
  {
    UpToStopShape(PerLine(lines));
    UpToStop(PerLine(lines))
  }

  // ----- Properties of dispatch -----

  /** Of the names in `table`, only "exit" is bound to `do_exit`. */
  lemma OnlyExitStops(j: nat)
    requires j < |Table|
    ensures Table[j].handler == Exit <==> Table[j].cmd == "exit"
  {
    if j < 10 {
      assert Table[j].cmd[0] != 'e';
    }
  }

  /** `Lookup` finds a row exactly when the name is in `KnownNames`; the row it
      finds runs `do_exit` exactly when the name is "exit". */
  lemma TableNames(cmd: string)
    ensures Lookup(Table, cmd).Some? <==> cmd in KnownNames
    ensures Lookup(Table, cmd).Some? ==> (Table[Lookup(Table, cmd).value].handler == Exit <==> cmd == "exit")
  {
    var r := Lookup(Table, cmd);
    if cmd in KnownNames {
      var a :| a in Table && a.cmd == cmd;
    }
    if r.Some? {
      assert Table[r.value] in Table;
      OnlyExitStops(r.value);
    }
  }

  /** The three things a non-blank line can do: an unknown name is reported;
      `exit` stops; every other recognised name runs a stub that fails, so the
      failure line is printed. A blank line does nothing (pr4.c:96-111, 119-184). */
  lemma DispatchOutcomes(toks: seq<string>)
    ensures Dispatch(toks) == Blank <==> |toks| == 0
    ensures |toks| > 0 && toks[0] !in KnownNames ==> Dispatch(toks) == NotFound(toks[0])
    ensures |toks| > 0 && toks[0] == "exit" ==> Dispatch(toks) == Stop
    ensures |toks| > 0 && toks[0] in KnownNames && toks[0] != "exit" ==>
      Dispatch(toks) == Failed(toks[0], Arg(toks, 1), Arg(toks, 2))
    ensures Dispatch(toks) != Quiet
  {
    if |toks| > 0 {
      TableNames(toks[0]);
      assert Table[10].cmd == "exit" && Table[10] in Table;
    }
  }

  /** Only the first three tokens matter (pr4.c:91-93). */
  lemma ExtraTokensIgnored(toks: seq<string>)
    requires |toks| > 3
    ensures Dispatch(toks) == Dispatch(toks[..3])
    ensures Dispatch(toks) == Dispatch(toks[..3] + ["x"])
  {
  }

  /** A missing argument reads as "", and a present one never does, because
      every token is non-empty (pr4.c:91-93). */
  lemma MissingArgsEmpty(s: string, i: nat)
    ensures Arg(Tokens(s), i) == "" <==> |Tokens(s)| <= i
  {
    if i < |Tokens(s)| {
      TokenShape(s, i);
    }
  }

  /** A blank or all-whitespace line is skipped and prints nothing (pr4.c:96). */
  lemma BlankLineSilent(s: string)
    requires forall k :: 0 <= k < Strlen(s, 0) ==> IsSpace(s[k])
    ensures Dispatch(Tokens(s)) == Blank && Message(Dispatch(Tokens(s))) == ""
  {
    BlankLineNoTokens(s);
  }

  // ----- Properties of the read loop -----

  /** Cutting at the first Stop keeps a prefix, in order, with Stop only at its end. */
  lemma {:induction false} UpToStopShape(os: seq<Outcome>)
    ensures |UpToStop(os)| <= |os|
    ensures UpToStop(os) == os[..|UpToStop(os)|]
    ensures forall i :: 0 <= i < |UpToStop(os)| - 1 ==> UpToStop(os)[i] != Stop
    ensures Stop in os <==> Stop in UpToStop(os)
    ensures Stop !in os ==> UpToStop(os) == os
    ensures |UpToStop(os)| < |os| ==> UpToStop(os) != [] && UpToStop(os)[|UpToStop(os)| - 1] == Stop
  {
    if os != [] && os[0] != Stop {
      UpToStopShape(os[1..]);
      assert os == [os[0]] + os[1..];
    }
  }

  /** Whatever follows a Stop is cut off. */
  lemma {:induction false} UpToStopAppend(os: seq<Outcome>, more: seq<Outcome>)
    requires Stop in os
    ensures UpToStop(os + more) == UpToStop(os)
  {
    assert (os + more)[0] == os[0];
    if os[0] != Stop {
      assert (os + more)[1..] == os[1..] + more;
      UpToStopAppend(os[1..], more);
    }
  }

  /** Each processed line contributes the outcome of its own tokens, in input
      order; a Stop can only be the last outcome, and without one every line
      is processed. */
  lemma SessionShape(lines: seq<string>)
    ensures |Session(lines)| <= |lines|
    ensures forall i :: 0 <= i < |Session(lines)| ==> Session(lines)[i] == Dispatch(Tokens(lines[i]))
    ensures forall i :: 0 <= i < |Session(lines)| - 1 ==> Session(lines)[i] != Stop
    ensures (forall i :: 0 <= i < |lines| ==> Dispatch(Tokens(lines[i])) != Stop) ==> |Session(lines)| == |lines|
  {
    var os := PerLine(lines);
    UpToStopShape(os);
    assert forall i :: 0 <= i < |os| ==> os[i] == Dispatch(Tokens(lines[i]));
    if Stop in os {
      var i :| 0 <= i < |os| && os[i] == Stop;
    }
  }

  /** A session that does not reach the end of its input ends at an exit. */
  lemma SessionEndsAtExit(lines: seq<string>)
    ensures |Session(lines)| < |lines| ==> Session(lines)[|Session(lines)| - 1] == Stop
  {
    UpToStopShape(PerLine(lines));
  }

  lemma PerLineAppend(lines: seq<string>, more: seq<string>)
    ensures PerLine(lines + more) == PerLine(lines) + PerLine(more)
  {
    var a, b, c := PerLine(lines + more), PerLine(lines), PerLine(more);
    forall i | 0 <= i < |a|
      ensures a[i] == (b + c)[i]
    {
      if i < |lines| {
        assert (lines + more)[i] == lines[i];
      } else {
        assert (lines + more)[i] == more[i - |lines|];
      }
    }
  }

  /** `exit` ends processing: once a line has stopped the session, later input
      changes nothing (pr4.c:179-184). */
  lemma SessionStopsAtExit(lines: seq<string>, more: seq<string>)
    requires Stop in Session(lines)
    ensures Session(lines + more) == Session(lines)
  {
    UpToStopShape(PerLine(lines));
    PerLineAppend(lines, more);
    UpToStopAppend(PerLine(lines), PerLine(more));
  }

  /** One line as `main` sees it: copied into a NUL-terminated buffer, as `fgets`
      leaves it, and split by `parse`; the result is the strings argv points at. */
  method ParseLine(line: string) returns (toks: seq<string>)
    ensures toks == Tokens(line)
  {
    var buf := new char[|line| + 1](k requires 0 <= k <= |line| => if k < |line| then line[k] else NUL);
    ghost var s := line + [NUL];
    assert buf[..] == s;
    var argv := Parse(buf);
    var parsed := buf[..];
    StartsFromSpec(s, 0);
    toks := seq(|argv|, t requires 0 <= t < |argv| => CString(parsed, argv[t]));
    forall t | 0 <= t < |argv| ensures toks[t] == Tokens(s)[t] {
      ArgvStrings(s, t);
    }
    UndelimitedTailDropped(line, [NUL]);
  }

  /** `main`'s read loop; each element of `lines` is what one `fgets` call returns,
      trailing newline included (pr4.c:84-112). */
  method Run(lines: seq<string>) returns (out: seq<Outcome>)
    ensures out == Session(lines)
  {
    out := [];
    var n := 0;
    ghost var os := PerLine(lines);
    while n < |lines|
      invariant n <= |lines|
      invariant out + UpToStop(os[n..]) == Session(lines)
    {
      var toks := ParseLine(lines[n]);
      var o := DispatchLine(toks);
      assert o == os[n];
      assert os[n..][1..] == os[n + 1..];
      if o == Stop {
        out := out + [o];
        return;
      }
      out := out + [o];
      n := n + 1;
    }
  }
}
