/** The small piece of the C library that `parse` in pr4.c leans on: NUL-terminated
    strings, the whitespace set `whsp`, and `strspn` / `strpbrk` over that set.
    A C string is modelled as a `seq<char>` whose logical end is its first NUL
    character or, if it has none, its end. */
module CStrings {

  datatype Option<+T> = None | Some(value: T)

  const NUL: char := '\0'

  /** Membership in the six-character set " \t\n\v\f\r" that `parse` uses. */
  predicate IsSpace(c: char) {
    c == ' ' || c == '\t' || c == '\n' || c == '\U{B}' || c == '\U{C}' || c == '\r'
  }

  /** A character that can belong to a token: neither whitespace nor the terminator. */
  predicate IsWordChar(c: char) {
    c != NUL && !IsSpace(c)
  }

  /** The number of characters from `i` before the terminator: the first NUL at
      or after `i`, or the end of the buffer. This is where `strspn` and
      `strpbrk` stop scanning; `parse` itself never calls `strlen`. */
  function Strlen(s: seq<char>, i: nat): (n: nat)
    requires i <= |s|
    ensures i + n <= |s|
    ensures forall k :: i <= k < i + n ==> s[k] != NUL
    ensures i + n == |s| || s[i + n] == NUL
    decreases |s| - i
  {
    if i == |s| || s[i] == NUL then 0 else 1 + Strlen(s, i + 1)
  }

  /** The string that the pointer `s + i` denotes. */
  function CString(s: seq<char>, i: nat): seq<char>
    requires i <= |s|
  {
    s[i..i + Strlen(s, i)]
  }

  /** strspn(s + i, whsp): the length of the run of whitespace at `i`. It never
      passes the terminator, because NUL is not whitespace. */
  function Strspn(s: seq<char>, i: nat): (n: nat)
    requires i <= |s|
    ensures n <= Strlen(s, i)
    ensures forall k :: i <= k < i + n ==> IsSpace(s[k])
    ensures i + n == |s| || !IsSpace(s[i + n])
    decreases |s| - i
  {
    if i == |s| || !IsSpace(s[i]) then 0 else 1 + Strspn(s, i + 1)
  }

  /** strpbrk(s + i, whsp): the position of the first whitespace character at or
      after `i` and before the terminator, or `None` (the C function's NULL). */
  function Strpbrk(s: seq<char>, i: nat): (r: Option<nat>)
    requires i <= |s|
    ensures r.Some? ==> i <= r.value < i + Strlen(s, i) && IsSpace(s[r.value])
    ensures r.Some? ==> forall k :: i <= k < r.value ==> IsWordChar(s[k])
    ensures r.None? ==> forall k :: i <= k < i + Strlen(s, i) ==> !IsSpace(s[k])
    decreases |s| - i
  {
    if i == |s| || s[i] == NUL then None
    else if IsSpace(s[i]) then Some(i)
    else Strpbrk(s, i + 1)
  }

  /** The scans from `i` look only at the characters from `i` on. */
  lemma {:induction false} ScansReadSuffix(s: seq<char>, t: seq<char>, i: nat)
    requires i <= |s| == |t|
    requires forall k :: i <= k < |s| ==> s[k] == t[k]
    ensures Strspn(s, i) == Strspn(t, i) && Strpbrk(s, i) == Strpbrk(t, i)
    decreases |s| - i
  {
    if i < |s| {
      ScansReadSuffix(s, t, i + 1);
    }
  }
}
