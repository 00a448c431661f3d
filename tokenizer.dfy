/** `parse` from pr4.c: splits a NUL-terminated command line into tokens in place.
    The specification here is declarative: a token starts at a word character that
    is inside the string and sits at position 0 or right after whitespace, and its
    run of word characters must end at a whitespace character. A final run that
    reaches the terminator instead is not a token (pr4.c:190). */
module Tokenizer {
  import opened CStrings

  /** The end of the run of word characters that starts at `p`. */
  function RunEnd(s: seq<char>, p: nat): (r: nat)
    requires p <= |s|
    ensures p <= r <= |s|
    ensures forall k :: p <= k < r ==> IsWordChar(s[k])
    ensures r == |s| || !IsWordChar(s[r])
    decreases |s| - p
  {
    if p == |s| || !IsWordChar(s[p]) then p else RunEnd(s, p + 1)
  }

  /** `p` is where `parse` stores a pointer in argv. */
  predicate IsTokenStart(s: seq<char>, p: nat) {
    p < Strlen(s, 0) && IsWordChar(s[p]) && (p == 0 || IsSpace(s[p - 1])) &&
    RunEnd(s, p) < |s| && IsSpace(s[RunEnd(s, p)])
  }

  /** `k` is a delimiter: a whitespace character inside the string that directly
      follows a word character. These are the positions `parse` overwrites. */
  predicate IsDelimiter(s: seq<char>, k: nat) {
    0 < k < Strlen(s, 0) && IsSpace(s[k]) && IsWordChar(s[k - 1])
  }

  /** The token starts at or after `p`, in ascending order. */
  function StartsFrom(s: seq<char>, p: nat): seq<nat>
    requires p <= |s|
    decreases |s| - p
  {
    if p == |s| then []
    else
      var rest := StartsFrom(s, p + 1);
      if IsTokenStart(s, p) then [p] + rest else rest
  }

  /** StartsFrom lists exactly the token starts at or after `p`, in ascending order. */
  lemma {:induction false} StartsFromSpec(s: seq<char>, p: nat)
    requires p <= |s|
    ensures var r := StartsFrom(s, p);
      (forall a :: 0 <= a < |r| ==> p <= r[a] < |s|) &&
      (forall q :: q in r <==> p <= q < |s| && IsTokenStart(s, q)) &&
      (forall a, b :: 0 <= a < b < |r| ==> r[a] < r[b])
    decreases |s| - p
  {
    if p < |s| {
      StartsFromSpec(s, p + 1);
    }
  }

  /** The argv offsets `parse` returns for the line `s`. */
  function TokenStarts(s: seq<char>): seq<nat> {
    StartsFrom(s, 0)
  }

  /** The token strings of the line `s`, in order. */
  function Tokens(s: seq<char>): (toks: seq<seq<char>>)
    ensures |toks| == |TokenStarts(s)|
  {
    var st := TokenStarts(s);
    StartsFromSpec(s, 0);
    seq(|st|, t requires 0 <= t < |st| => s[st[t]..RunEnd(s, st[t])])
  }

  /** The buffer after `parse`: NUL at every delimiter, everything else as it was. */
  function Terminated(s: seq<char>): (r: seq<char>)
    ensures |r| == |s|
  {
    seq(|s|, k requires 0 <= k < |s| => if IsDelimiter(s, k) then NUL else s[k])
  }

  // ----- Properties of the token specification -----

  /** Every token is a non-empty run of characters that are neither whitespace
      nor NUL, preceded by whitespace (or the start of the line) and followed
      by a delimiter (pr4.c:197-206). */
  lemma TokenShape(s: seq<char>, t: nat)
    requires t < |TokenStarts(s)|
    ensures var p := TokenStarts(s)[t]; var tok := Tokens(s)[t];
      p + |tok| < |s| && tok == s[p..p + |tok|] && tok != [] &&
      (forall c :: c in tok ==> IsWordChar(c)) &&
      (p == 0 || IsSpace(s[p - 1])) &&
      IsDelimiter(s, p + |tok|)
  {
    StartsFromSpec(s, 0);
    var p := TokenStarts(s)[t];
    assert p in TokenStarts(s);
    DelimiterAfterStart(s, p);
  }

  /** Tokens come out left to right and do not overlap: each one's delimiter
      lies before the next one's start. */
  lemma TokensOrdered(s: seq<char>, a: nat, b: nat)
    requires a < b < |TokenStarts(s)|
    ensures TokenStarts(s)[a] < TokenStarts(s)[b] < |s|
    ensures RunEnd(s, TokenStarts(s)[a]) < TokenStarts(s)[b]
  {
    StartsFromSpec(s, 0);
    var st := TokenStarts(s);
    assert st[b] in st;
    if st[b] <= RunEnd(s, st[a]) {
      NoStartInRun(s, st[a], st[b]);
    }
  }

  /** Each token takes at least one character plus its delimiter. */
  lemma {:induction false} StartsFromBound(s: seq<char>, p: nat)
    requires p <= |s|
    ensures 2 * |StartsFrom(s, p)| <= |s| - p
    decreases |s| - p
  {
    if p < |s| {
      if IsTokenStart(s, p) {
        var r := RunEnd(s, p);
        forall q | p + 1 <= q < r + 1 ensures !IsTokenStart(s, q) { NoStartInRun(s, p, q); }
        SkipNonStarts(s, p + 1, r + 1);
        StartsFromBound(s, r + 1);
      } else {
        StartsFromBound(s, p + 1);
      }
    }
  }

  /** argc never exceeds half the buffer (pr4.c:205-211). */
  lemma TokenCountBound(s: seq<char>)
    ensures 2 * |Tokens(s)| <= |s|
  {
    StartsFromBound(s, 0);
  }

  /** A line with nothing but whitespace before its terminator has no tokens
      (pr4.c:201-204). */
  lemma BlankLineNoTokens(s: seq<char>)
    requires forall k :: 0 <= k < Strlen(s, 0) ==> IsSpace(s[k])
    ensures Tokens(s) == []
  {
    SkipNonStarts(s, 0, |s|);
  }

  /** The delimiters are exactly the ends of the tokens' runs: `parse` writes
      NUL right after each token and nowhere else (pr4.c:206). */
  lemma DelimiterIff(s: seq<char>, k: nat)
    ensures IsDelimiter(s, k) <==>
      exists p :: p in TokenStarts(s) && p <= |s| && RunEnd(s, p) == k
  {
    StartsFromSpec(s, 0);
    if IsDelimiter(s, k) {
      var p := RunStart(s, k - 1);
      assert p == 0 || IsSpace(s[p - 1]) by {
        if p > 0 { assert s[0 + (p - 1)] != NUL; }
      }
      RunEndOfRun(s, p, k);
      assert IsTokenStart(s, p);
      assert p in TokenStarts(s);
    }
    forall p | p in TokenStarts(s) && p <= |s| && RunEnd(s, p) == k ensures IsDelimiter(s, k) {
      DelimiterAfterStart(s, p);
    }
  }

  /** After `parse`, argv[t] points at a NUL-terminated copy of the t-th token. */
  lemma ArgvStrings(s: seq<char>, t: nat)
    requires t < |TokenStarts(s)|
    ensures TokenStarts(s)[t] <= |s|
    ensures CString(Terminated(s), TokenStarts(s)[t]) == Tokens(s)[t]
  {
    StartsFromSpec(s, 0);
    var p := TokenStarts(s)[t];
    assert p in TokenStarts(s);
    var r := RunEnd(s, p);
    var u := Terminated(s);
    DelimiterAfterStart(s, p);
    forall k | p <= k < r ensures u[k] == s[k] && u[k] != NUL {
      assert !IsDelimiter(s, k);
    }
    StrlenOfRun(u, p, r);
    assert u[p..r] == s[p..r];
  }

  /** A final run with no whitespace after it is dropped: appending whitespace-free
      text to a line does not change its tokens (pr4.c:190, 202-204). */
  lemma UndelimitedTailDropped(s: seq<char>, w: seq<char>)
    requires forall k :: 0 <= k < |w| ==> !IsSpace(w[k])
    ensures Tokens(s + w) == Tokens(s)
  {
    forall p: nat | p < |s + w| ensures IsTokenStart(s + w, p) <==> IsTokenStart(s, p) {
      SameStart(s, w, p);
    }
    forall q: nat | |s| <= q < |s + w| ensures !IsTokenStart(s + w, q) {
      SameStart(s, w, q);
    }
    SkipNonStarts(s + w, |s|, |s + w|);
    StartsFromAppend(s, w, 0);
    var st := TokenStarts(s);
    StartsFromSpec(s, 0);
    forall t | 0 <= t < |st| ensures Tokens(s + w)[t] == Tokens(s)[t] {
      var p := st[t];
      assert p in st;
      RunEndAppend(s, w, p);
      assert (s + w)[p..RunEnd(s, p)] == s[p..RunEnd(s, p)];
    }
  }

  /** Example: a command line with its trailing newline. */
  lemma ExampleCommandLine()
    ensures Tokens("mkdir d\n") == ["mkdir", "d"]
  {
    var s := "mkdir d\n";
    StrlenOfRun(s, 0, |s|);
    RunEndOfRun(s, 0, 5);
    RunEndOfRun(s, 6, 7);
    assert IsTokenStart(s, 0) && IsTokenStart(s, 6);
    forall q: nat | 0 < q < 6 ensures !IsTokenStart(s, q) { NoStartInRun(s, 0, q); }
    SkipNonStarts(s, 1, 6);
    assert !IsTokenStart(s, 7);
    assert TokenStarts(s) == [0, 6];
    assert RunEnd(s, 0) == 5 && RunEnd(s, 6) == 7;
    assert |Tokens(s)| == 2;
    assert Tokens(s)[0] == s[0..5] == "mkdir";
    assert Tokens(s)[1] == s[6..7] == "d";
  }

  // ----- Proof helpers -----

  /** The start of the run of word characters that ends at `q`. */
  ghost function RunStart(s: seq<char>, q: nat): (p: nat)
    requires q < |s| && IsWordChar(s[q])
    ensures p <= q
    ensures forall k :: p <= k <= q ==> IsWordChar(s[k])
    ensures p == 0 || !IsWordChar(s[p - 1])
  {
    if q == 0 || !IsWordChar(s[q - 1]) then q else RunStart(s, q - 1)
  }

  /** The end of a token's run is a delimiter. */
  lemma DelimiterAfterStart(s: seq<char>, p: nat)
    requires IsTokenStart(s, p)
    ensures p < RunEnd(s, p) && IsDelimiter(s, RunEnd(s, p))
  {
    var e := RunEnd(s, p);
    assert forall k :: 0 <= k <= e ==> s[k] != NUL by {
      forall k | 0 <= k <= e ensures s[k] != NUL {
        if k < p { assert s[0 + k] != NUL; }
      }
    }
  }

  /** strlen of a stretch of non-NUL characters ended by NUL. */
  lemma {:induction false} StrlenOfRun(t: seq<char>, i: nat, e: nat)
    requires i <= e <= |t|
    requires forall k :: i <= k < e ==> t[k] != NUL
    requires e == |t| || t[e] == NUL
    ensures Strlen(t, i) == e - i
    decreases e - i
  {
    if i < e {
      StrlenOfRun(t, i + 1, e);
    }
  }

  /** Appending text to a line does not move an earlier terminator. */
  lemma {:induction false} StrlenAppend(s: seq<char>, w: seq<char>, i: nat)
    requires i <= |s|
    ensures i + Strlen(s, i) < |s| ==> Strlen(s + w, i) == Strlen(s, i)
    ensures i + Strlen(s, i) == |s| ==> i + Strlen(s + w, i) >= |s|
    decreases |s| - i
  {
    if i < |s| && s[i] != NUL {
      StrlenAppend(s, w, i + 1);
    }
  }

  /** Appending text to a line does not move an earlier run end. */
  lemma {:induction false} RunEndAppend(s: seq<char>, w: seq<char>, p: nat)
    requires p <= |s|
    ensures RunEnd(s, p) < |s| ==> RunEnd(s + w, p) == RunEnd(s, p)
    ensures RunEnd(s, p) == |s| ==> RunEnd(s + w, p) >= |s|
    decreases |s| - p
  {
    if p < |s| && IsWordChar(s[p]) {
      RunEndAppend(s, w, p + 1);
    }
  }

  /** Appending whitespace-free text changes no token start. */
  lemma SameStart(s: seq<char>, w: seq<char>, p: nat)
    requires forall k :: 0 <= k < |w| ==> !IsSpace(w[k])
    ensures p < |s| ==> (IsTokenStart(s + w, p) <==> IsTokenStart(s, p))
    ensures p >= |s| ==> !IsTokenStart(s + w, p)
  {
    var sw := s + w;
    StrlenAppend(s, w, 0);
    if p < |s| {
      RunEndAppend(s, w, p);
      var r := RunEnd(sw, p);
      if RunEnd(s, p) == |s| && r < |sw| {
        assert sw[r] == w[r - |s|];
      }
    } else if p <= |sw| {
      var r := RunEnd(sw, p);
      if r < |sw| {
        assert sw[r] == w[r - |s|];
      }
    }
  }

  /** The start lists of `s` and `s + w` agree when no start lies in `w`. */
  lemma {:induction false} StartsFromAppend(s: seq<char>, w: seq<char>, p: nat)
    requires p <= |s|
    requires forall q: nat :: q < |s| ==> (IsTokenStart(s + w, q) <==> IsTokenStart(s, q))
    requires StartsFrom(s + w, |s|) == []
    ensures StartsFrom(s + w, p) == StartsFrom(s, p)
    decreases |s| - p
  {
    if p < |s| {
      StartsFromAppend(s, w, p + 1);
    }
  }

  /** Inside a run, and at its end, no token starts. */
  lemma NoStartInRun(s: seq<char>, p: nat, q: nat)
    requires p <= |s| && p < q <= RunEnd(s, p)
    ensures !IsTokenStart(s, q)
  {
  }

  /** Positions that are not token starts can be skipped. */
  lemma {:induction false} SkipNonStarts(s: seq<char>, a: nat, b: nat)
    requires a <= b <= |s|
    requires forall q :: a <= q < b ==> !IsTokenStart(s, q)
    ensures StartsFrom(s, a) == StartsFrom(s, b)
    decreases b - a
  {
    if a < b {
      SkipNonStarts(s, a + 1, b);
    }
  }

  /** A run of word characters ended by a non-word character ends where RunEnd says. */
  lemma {:induction false} RunEndOfRun(s: seq<char>, p: nat, e: nat)
    requires p <= e <= |s|
    requires forall k :: p <= k < e ==> IsWordChar(s[k])
    requires e == |s| || !IsWordChar(s[e])
    ensures RunEnd(s, p) == e
    decreases e - p
  {
    if p < e {
      RunEndOfRun(s, p + 1, e);
    }
  }

  /** strpbrk over whitespace finds the end of the current run if that end is whitespace. */
  lemma {:induction false} StrpbrkFindsRunEnd(s: seq<char>, j: nat)
    requires j <= |s|
    ensures Strpbrk(s, j) ==
      if RunEnd(s, j) < |s| && IsSpace(s[RunEnd(s, j)]) then Some(RunEnd(s, j)) else None
    decreases |s| - j
  {
    if j < |s| && IsWordChar(s[j]) {
      StrpbrkFindsRunEnd(s, j + 1);
    }
  }

  /** Everything before the end of the next run is inside the string. */
  lemma RunInsideString(s: seq<char>, i: nat, j: nat, e: nat)
    requires i <= Strlen(s, 0) && (i == 0 || IsSpace(s[i - 1]))
    requires j == i + Strspn(s, i) && e == RunEnd(s, j)
    requires e < |s| && IsSpace(s[e])
    ensures e < Strlen(s, 0)
  {
    assert forall k :: 0 <= k <= e ==> s[k] != NUL by {
      forall k | 0 <= k <= e ensures s[k] != NUL {
        if k < i { assert s[0 + k] != NUL; }
      }
    }
  }

  /** A round of the scan that finds a delimiter: the whitespace from `i` is
      skipped, the token starts at `j` and its delimiter `e` ends its run. */
  lemma ScanFound(s: seq<char>, i: nat, j: nat, e: nat)
    requires i <= Strlen(s, 0) && (i == 0 || IsSpace(s[i - 1]))
    requires j == i + Strspn(s, i) && e == RunEnd(s, j)
    requires e < |s| && IsSpace(s[e])
    ensures j < e < Strlen(s, 0)
    ensures StartsFrom(s, i) == [j] + StartsFrom(s, e + 1)
    ensures IsDelimiter(s, e)
    ensures forall k :: i <= k < e ==> !IsDelimiter(s, k)
  {
    RunInsideString(s, i, j, e);
    assert j < e;
    assert IsTokenStart(s, j);
    SkipNonStarts(s, i, j);
    forall q | j < q <= e ensures !IsTokenStart(s, q) { NoStartInRun(s, j, q); }
    SkipNonStarts(s, j + 1, e + 1);
    assert StartsFrom(s, j) == [j] + StartsFrom(s, j + 1);
  }

  /** A round of the scan that finds no delimiter: nothing from `i` on is a
      token start or a delimiter. */
  lemma ScanDone(s: seq<char>, i: nat, j: nat, e: nat)
    requires i <= Strlen(s, 0) && (i == 0 || IsSpace(s[i - 1]))
    requires j == i + Strspn(s, i) && e == RunEnd(s, j)
    requires !(e < |s| && IsSpace(s[e]))
    ensures StartsFrom(s, i) == []
    ensures forall k :: i <= k < |s| ==> !IsDelimiter(s, k)
  {
    assert e < |s| ==> Strlen(s, 0) <= e;
    forall q | i <= q < |s| ensures !IsTokenStart(s, q) {
      if j < q <= e { NoStartInRun(s, j, q); }
    }
    SkipNonStarts(s, i, |s|);
  }

  /** The buffer `t` during parse: the delimiters before `i` are overwritten and
      the line is untouched from `i` on. */
  ghost predicate DoneUpTo(s: seq<char>, t: seq<char>, i: nat) {
    |t| == |s| && i <= |s| &&
    (forall k :: 0 <= k < i ==> t[k] == if IsDelimiter(s, k) then NUL else s[k]) &&
    (forall k :: i <= k < |s| ==> t[k] == s[k])
  }

  /** With no delimiter from `i` on, the buffer is the terminated line. */
  lemma DoneAll(s: seq<char>, t: seq<char>, i: nat)
    requires DoneUpTo(s, t, i)
    requires forall k :: i <= k < |s| ==> !IsDelimiter(s, k)
    ensures t == Terminated(s)
  {
  }

  /** parse's loop reads the buffer `t`, which agrees with the line `s` from `i` on:
      strspn and strpbrk there see what they would see in `s`. */
  lemma ScanBuffer(s: seq<char>, t: seq<char>, i: nat, j: nat)
    requires i <= |s|
    requires |t| == |s| && forall k :: i <= k < |s| ==> t[k] == s[k]
    requires j == i + Strspn(t, i)
    ensures j == i + Strspn(s, i) <= |s|
    ensures Strpbrk(t, j) ==
      if RunEnd(s, j) < |s| && IsSpace(s[RunEnd(s, j)]) then Some(RunEnd(s, j)) else None
  {
    ScansReadSuffix(t, s, i);
    ScansReadSuffix(t, s, j);
    StrpbrkFindsRunEnd(s, j);
  }

  /** One round of parse's loop over the buffer `t`, which agrees with the line
      `s` from `i` on (the delimiters before `i` are already overwritten). */
  lemma Round(s: seq<char>, t: seq<char>, i: nat, j: nat)
    requires i <= Strlen(s, 0) && (i == 0 || IsSpace(s[i - 1]))
    requires DoneUpTo(s, t, i)
    requires j == i + Strspn(t, i)
    ensures j <= |t|
    ensures Strpbrk(t, j).None? ==>
      StartsFrom(s, i) == [] && forall k :: i <= k < |s| ==> !IsDelimiter(s, k)
    ensures Strpbrk(t, j).Some? ==>
      var e := Strpbrk(t, j).value;
      j < e < Strlen(s, 0) && IsDelimiter(s, e) &&
      StartsFrom(s, i) == [j] + StartsFrom(s, e + 1) &&
      forall k :: i <= k < e ==> !IsDelimiter(s, k)
  {
    ScanBuffer(s, t, i, j);
    var e := RunEnd(s, j);
    if e < |s| && IsSpace(s[e]) {
      ScanFound(s, i, j, e);
    } else {
      ScanDone(s, i, j, e);
    }
  }

  /** Moving the next start from the pending list to argv keeps their concatenation. */
  lemma MoveStart(argv: seq<nat>, j: nat, rest: seq<nat>, all: seq<nat>)
    requires argv + ([j] + rest) == all
    ensures (argv + [j]) + rest == all
  {
    assert argv + ([j] + rest) == (argv + [j]) + rest;
  }

  /** Writing NUL over the delimiter `e` extends the finished part of the buffer past `e`. */
  lemma Overwrite(s: seq<char>, before: seq<char>, after: seq<char>, i: nat, e: nat)
    requires DoneUpTo(s, before, i) && i <= e < |s|
    requires forall k :: i <= k < e ==> !IsDelimiter(s, k)
    requires IsDelimiter(s, e) && after == before[e := NUL]
    ensures DoneUpTo(s, after, e + 1)
  {
  }

  /** With nothing pending, argv holds every start. */
  lemma NoMoreStarts(argv: seq<nat>, rest: seq<nat>, all: seq<nat>)
    requires argv + rest == all && rest == []
    ensures argv == all
  {
    assert argv + [] == argv;
  }

  // ----- The in-place tokenizer -----

  /** `parse(buf, &argc, argv)`: returns the argv offsets (argc is their number;
      the NULL after them is implicit) and overwrites each token's delimiter with NUL. */
  method Parse(buf: array<char>) returns (argv: seq<nat>)
    modifies buf
    ensures argv == TokenStarts(old(buf[..]))
    ensures buf[..] == Terminated(old(buf[..]))
  {
    ghost var s := buf[..];
    var i: nat := 0;
    argv := [];
    while true
      invariant i <= Strlen(s, 0) && (i == 0 || IsSpace(s[i - 1]))
      invariant DoneUpTo(s, buf[..], i)
      invariant argv + StartsFrom(s, i) == TokenStarts(s)
      decreases buf.Length - i
    {
      var j: nat := i + Strspn(buf[..], i);
      Round(s, buf[..], i, j);
      var delim := Strpbrk(buf[..], j);
      if delim.None? {
        DoneAll(s, buf[..], i);
        NoMoreStarts(argv, StartsFrom(s, i), TokenStarts(s));
        break;
      }
      var e: nat := delim.value;
      MoveStart(argv, j, StartsFrom(s, e + 1), TokenStarts(s));
      argv := argv + [j];
      ghost var before := buf[..];
      buf[e] := NUL;
      assert buf[..] == before[e := NUL];
      Overwrite(s, before, buf[..], i, e);
      i := e + 1;
    }
  }
}
