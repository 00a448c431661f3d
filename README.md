# pr4 command front end in Dafny

`pr4.c` is the starter kit of a small file-system shell. Its `main` reads
commands of the form `cmd filename filesize` from standard input, one per
line. It splits each line into tokens with `parse` and looks the first token
up in `table`, which names eleven commands (`root`, `print`, `chdir`,
`mkdir`, `rmdir`, `mvdir`, `mkfil`, `rmfil`, `mvfil`, `szfil`, `exit`).
Then it calls the matching `do_*` handler. It prints
`command not found: <cmd>` for an unknown name, and
`  <cmd> <fnm> <fsz>: failed` when a handler returns -1.

`fs.h` declares the records of a storage engine: file and directory
descriptors, directory entries, a superblock and raw blocks (fs.h:5-33).
The comment at pr4.c:15-32 lists the commands that engine would serve. No
code in `pr4.c` implements it. Every `do_*` handler except `do_exit` is a
stub that returns -1, and `do_exit` ends the process. The model follows the
code, so it covers the tokenizer, the dispatch and the stubs' results.

The project has three modules.

- `CStrings` (`cstrings.dfy`) models C strings and the library calls
  `parse` relies on.
  - A C string is a `seq<char>` that ends at its first NUL, or at the end of
    the sequence if it has no NUL.
  - `IsSpace` is the whitespace set `" \t\n\v\f\r"`.
  - `Strspn` and `Strpbrk` are the C functions of the same names, with
    pointers written as (sequence, offset). `Strlen` gives the position of
    the terminator where both stop; `parse` itself never calls `strlen`.
- `Tokenizer` (`tokenizer.dfy`) specifies `parse` declaratively.
  - A token starts at a non-whitespace, non-NUL character inside the
    string.
  - That character is at position 0 or right after whitespace.
  - Its run of such characters must end at a whitespace character, the
    delimiter.
  - `Parse` is the imperative loop over an `array<char>`. It is proved to
    return exactly the token starts and to leave NUL at exactly the
    delimiters.
- `Commands` (`commands.dfy`) models `table`, the stubs and the per-line
  dispatch.
  - `Dispatch` is a pure function; `DispatchLine` is the `for` loop with its
    `found` flag.
  - `Session` gives the outcomes of a sequence of lines, cut off at `exit`.
    `Run` is `main`'s read loop, proved against it.

## Model

| member | source | states |
|---|---|---|
| CStrings.Strlen | pr4.c:201-202 | the terminator where the two scans stop: the distance stays inside the buffer, covers no NUL, and ends at a NUL or at the end of the buffer |
| CStrings.Strspn | pr4.c:201 | the skipped prefix is all whitespace, stays inside the string, and is maximal |
| CStrings.Strpbrk | pr4.c:202 | on success: the first whitespace character before the terminator, with only token characters before it; on NULL: the rest of the string has no whitespace |
| Tokenizer.StartsFromSpec | pr4.c:199-208 | the argv offsets lie in the buffer, are exactly the token starts, and strictly increase |
| Tokenizer.Tokens | pr4.c:205-211 | there is one token string per argv entry, so argc is the number of token starts |
| Tokenizer.Terminated | pr4.c:206 | overwriting delimiters keeps the buffer's length |
| Tokenizer.Parse | pr4.c:192-214 | returns exactly the token starts of the original buffer, in order, and leaves the buffer with NUL at every delimiter and every other character unchanged |
| Tokenizer.TokenShape | pr4.c:197-206 | every token is non-empty and free of whitespace and NUL, lies inside the buffer, starts the line or follows whitespace, and is followed by a delimiter |
| Tokenizer.TokensOrdered | pr4.c:199-208 | tokens come out left to right without overlap: a token's delimiter lies before the next token's start |
| Tokenizer.StartsFromBound | pr4.c:205-207 | from any position, each token start takes at least two characters of what remains |
| Tokenizer.TokenCountBound | pr4.c:205-211 | 2 * argc never exceeds the buffer's length |
| Tokenizer.BlankLineNoTokens | pr4.c:201-204 | a line holding only whitespace before its terminator yields argc = 0 |
| Tokenizer.DelimiterIff | pr4.c:206 | a position is overwritten with NUL if and only if it is the end of some token's run |
| Tokenizer.ArgvStrings | pr4.c:205-207 | after the overwrite, argv[t] points at a NUL-terminated string equal to the t-th token |
| Tokenizer.UndelimitedTailDropped | pr4.c:190-204 | appending text without whitespace to a line leaves its tokens unchanged, so a last run with no delimiter is dropped |
| Tokenizer.ExampleCommandLine | pr4.c:188-214 | the line "mkdir d\n" yields the tokens "mkdir" and "d" |
| Commands.Invoke | pr4.c:119-184 | the stubs' results: a handler ends the process exactly when it is `do_exit`, and every other handler returns -1 |
| Commands.Message | pr4.c:105-111 | only an unknown name or a failed handler prints anything, and every printed message ends with a newline |
| Commands.MissingArgsEmpty | pr4.c:91-93 | `Arg`'s default: an argument reads as "" exactly when the line has too few tokens, since no token is empty |
| Commands.Dispatch | pr4.c:91-111 | a line is Blank exactly when it has no tokens; NotFound carries the first token, and no row of `table` has that name; no line ends Quiet (the full case split is `DispatchOutcomes`) |
| Commands.Lookup | pr4.c:99-101 | the scan finds the first row whose name equals the command exactly; when it finds none, no row has that name |
| Commands.DispatchLine | pr4.c:91-111 | the `for` loop with its `found` flag gives the same outcome as the specification `Dispatch` |
| Commands.OnlyExitStops | pr4.c:52-65 | a row of `table` runs `do_exit` if and only if its name is "exit" |
| Commands.TableNames | pr4.c:52-65 | lookup succeeds if and only if the name is one of the eleven commands; the row found runs `do_exit` if and only if the name is "exit" |
| Commands.DispatchOutcomes | pr4.c:96-111 | a line is skipped if and only if it has no tokens; an unknown name gives "command not found"; "exit" stops; every other command fails and reports cmd, fnm and fsz; no line is ever silently successful |
| Commands.ExtraTokensIgnored | pr4.c:91-93 | only the first three tokens affect the outcome |
| Commands.BlankLineSilent | pr4.c:96 | an all-whitespace line is skipped and prints nothing |
| Commands.PerLine | pr4.c:84-112 | every input line has exactly one outcome of its own |
| Commands.UpToStopShape | pr4.c:179-184 | processing stops at the first exit: the outcomes are a prefix of the per-line outcomes, with Stop only at the end, all of them when no line stops, and ending in Stop when any line is cut off |
| Commands.UpToStopAppend | pr4.c:179-184 | what follows an exit is never processed |
| Commands.SessionShape | pr4.c:84-112 | the i-th outcome is the dispatch of the i-th line's tokens; only the last outcome can be Stop; with no exit every line is processed |
| Commands.Session | pr4.c:84-112 | never more outcomes than lines, and a Stop is among them exactly when some line exits |
| Commands.SessionEndsAtExit | pr4.c:179-184 | a session that does not process every line ends with Stop |
| Commands.SessionStopsAtExit | pr4.c:179-184 | once a line has exited, appending more input changes nothing |
| Commands.ParseLine | pr4.c:84-89 | copying a line into a NUL-terminated buffer and running `Parse` gives exactly `Tokens` of the line |
| Commands.Run | pr4.c:84-112 | the read loop produces exactly `Session` of its input lines |

## Left out

- Reading standard input with `fgets` and the chunking of long lines at `LINESIZE` (pr4.c:71, 84) are I/O. The model takes the input as a sequence of lines. Each element is exactly what one `fgets` call returns, trailing `'\n'` included. That newline matters: it is the delimiter of the line's last token, so `Tokens("mkdir d")` is `["mkdir"]` while `Tokens("mkdir d\n")` is `["mkdir", "d"]`, as in C.
- `printf` is left out. An outcome stands for what would be printed, and `Message` gives that text. The `debug` tracing is off (`debug` is 0) and is not modelled.
- `exit(0)` is process termination. It is modelled as the `Stop` outcome, after which no line is processed.
- The storage engine (block store, bitmap allocator, directory tree) is left out because it is not implemented in `pr4.c`: the `do_*` handlers are stubs. Their constant results are modelled by `Invoke`.
- The record layouts in `fs.h` are declarations that no code uses, so they are not modelled.
- Function-pointer calls are replaced by the `Handler` datatype and `Invoke`.
- argv is modelled as a sequence of offsets into the buffer.
  - The NULL entry stored at argv[argc] is implicit in the sequence's length.
  - The fixed capacity of the argv array `a[LINESIZE]` is not modelled. `TokenCountBound` shows that a line of n characters has at most n/2 tokens.
- A buffer with no NUL is treated as ending at the end of the array. C would read past the end; `fgets` always writes a NUL.
