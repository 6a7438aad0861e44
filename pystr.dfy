/** The parts of Python's `str` and `list` behaviour that the scripts rely on:
    whitespace, `strip`, `split`, `find`, `count`, `replace`, `lower`, `int`,
    negative indexing and `list.index`. A Python `str` is a `string` here, and a
    one-character string stands for a Python "character". */
module PyStr {
  import opened Wrappers

  /** `str.isspace()` for one character: the characters Python's `split()` and
      `strip()` treat as whitespace. */
  predicate IsSpace(c: char) {
    || c == ' '
    || ('\t' <= c <= '\r')
    || ('\U{1C}' <= c <= '\U{1F}')
    || c == '\U{85}' || c == '\U{A0}' || c == '\U{1680}'
    || ('\U{2000}' <= c <= '\U{200A}')
    || c == '\U{2028}' || c == '\U{2029}' || c == '\U{202F}' || c == '\U{205F}'
    || c == '\U{3000}'
  }

  /** `string.punctuation`: the 32 ASCII punctuation characters. */
  const Punctuation: string := "!\"#$%&'()*+,-./:;<=>?@[\\]^_`{|}~"

  predicate IsAsciiPunct(c: char) {
    c in Punctuation
  }

  /** A word produced by `str.split()`: non-empty and free of whitespace. */
  predicate IsToken(w: string) {
    |w| > 0 && forall i :: 0 <= i < |w| ==> !IsSpace(w[i])
  }

  predicate OccursAt(s: string, sub: string, q: int) {
    0 <= q && q + |sub| <= |s| && s[q..q + |sub|] == sub
  }

  // ---------------------------------------------------------------- strip

  function StripLeft(s: string): (r: string)
    ensures r == [] || !IsSpace(r[0])
    ensures |r| <= |s| && r == s[|s| - |r|..]
  {
    if s != [] && IsSpace(s[0]) then StripLeft(s[1..]) else s
  }

  function StripRight(s: string): (r: string)
    ensures r == [] || !IsSpace(r[|r| - 1])
    ensures |r| <= |s| && r == s[..|r|]
    ensures r != [] && s != [] ==> r[0] == s[0]
  {
    if s != [] && IsSpace(s[|s| - 1]) then StripRight(s[..|s| - 1]) else s
  }

  /** `str.strip()`: drop leading and trailing whitespace. */
  function Strip(s: string): (r: string)
    ensures r == [] || (!IsSpace(r[0]) && !IsSpace(r[|r| - 1]))
  {
    StripRight(StripLeft(s))
  }

  // ---------------------------------------------------------------- split()

  /** Length of the run of non-whitespace characters that starts `s`. */
  function TokenLength(s: string): (n: nat)
    ensures n <= |s|
    ensures forall i :: 0 <= i < n ==> !IsSpace(s[i])
    ensures n < |s| ==> IsSpace(s[n])
  {
    if s == [] || IsSpace(s[0]) then 0 else 1 + TokenLength(s[1..])
  }

  /** `str.split()` with no argument: the maximal runs of non-whitespace. */
  function SplitWhitespace(s: string): (r: seq<string>)
    ensures forall i :: 0 <= i < |r| ==> IsToken(r[i])
    ensures s != [] && !IsSpace(s[0]) ==> r != [] && r[0] == s[..TokenLength(s)]
    decreases |s|
  {
    if s == [] then []
    else if IsSpace(s[0]) then SplitWhitespace(s[1..])
    else
      var n := TokenLength(s);
      [s[..n]] + SplitWhitespace(s[n..])
  }

  // ---------------------------------------------------------------- find, count

  /** `s.find(sub, start)`: the first index at or after `start` where `sub`
      occurs, or -1. */
  function Find(s: string, sub: string, start: nat): (p: int)
    ensures p == -1 || (start <= p && OccursAt(s, sub, p))
    decreases |s| - start
  {
    if start + |sub| > |s| then -1
    else if s[start..start + |sub|] == sub then start
    else Find(s, sub, start + 1)
  }

  /** `find` misses no occurrence: none before the index it returns, and
      none at all when it returns -1. */
  lemma {:induction false} FindFirst(s: string, sub: string, start: nat)
    ensures var p := Find(s, sub, start);
      (p == -1 ==> forall q :: start <= q ==> !OccursAt(s, sub, q))
      && (p >= 0 ==> forall q :: start <= q < p ==> !OccursAt(s, sub, q))
    decreases |s| - start
  {
    if start + |sub| <= |s| && s[start..start + |sub|] != sub {
      FindFirst(s, sub, start + 1);
    }
  }

  /** The first occurrence at or after `start` is unique: `Find` returns it. */
  lemma {:induction false} FindIs(s: string, sub: string, start: nat, q: int)
    requires start <= q && OccursAt(s, sub, q)
    requires forall r :: start <= r < q ==> !OccursAt(s, sub, r)
    ensures Find(s, sub, start) == q
    decreases q - start
  {
    if start < q {
      assert !OccursAt(s, sub, start);
      FindIs(s, sub, start + 1, q);
    }
  }

  /** Number of non-overlapping occurrences of a non-empty `sub` at or after `start`. */
  function CountFrom(s: string, sub: string, start: nat): nat
    requires |sub| > 0
    decreases |s| - start
  {
    var p := Find(s, sub, start);
    if p < 0 then 0 else 1 + CountFrom(s, sub, p + |sub|)
  }

  /** `s.count(sub)`. */
  function Count(s: string, sub: string): (n: nat)
    ensures n > 0 <==> Find(s, sub, 0) >= 0
  {
    if sub == [] then |s| + 1 else CountFrom(s, sub, 0)
  }

  // ---------------------------------------------------------------- split(sep)

  /** `s.split(sep)` for a non-empty separator. */
  function Split(s: string, sep: string): (r: seq<string>)
    requires |sep| > 0
    ensures |r| >= 1
    decreases |s|
  {
    var p := Find(s, sep, 0);
    if p < 0 then [s] else [s[..p]] + Split(s[p + |sep|..], sep)
  }

  /** A string without whitespace never contains `sep` if `sep` starts with a space. */
  lemma {:induction false} NoSpacedOccurrence(w: string, sep: string)
    requires forall i :: 0 <= i < |w| ==> !IsSpace(w[i])
    requires |sep| > 0 && sep[0] == ' '
    ensures Find(w, sep, 0) == -1
  {
    forall q | 0 <= q
      ensures !OccursAt(w, sep, q)
    {
      if q + |sep| <= |w| {
        assert w[q..q + |sep|][0] == w[q];
        assert !IsSpace(w[q]);
      }
    }
  }

  /** A word followed by `" + "` splits off as the first part: the word
      cannot hold the separator, because the separator contains spaces. */
  lemma {:induction false} SplitJoinedHead(c: string, rest: string)
    requires IsToken(c)
    ensures Split(c + " + " + rest, " + ") == [c] + Split(rest, " + ")
  {
    var s := c + " + " + rest;
    assert OccursAt(s, " + ", |c|) by {
      assert s[|c|..|c| + 3] == " + ";
    }
    forall q | 0 <= q < |c|
      ensures !OccursAt(s, " + ", q)
    {
      assert s[q] == c[q];
    }
    FindIs(s, " + ", 0, |c|);
    assert s[..|c|] == c;
    assert s[|c| + 3..] == rest;
  }

  /** The `"<char> + <word>"` keys of the analyzer split back into their two
      words. */
  lemma {:induction false} SplitJoinedPair(c: string, w: string)
    requires IsToken(c) && IsToken(w)
    ensures Split(c + " + " + w, " + ") == [c, w]
  {
    SplitJoinedHead(c, w);
    NoSpacedOccurrence(w, " + ");
  }

  /** The `"<word> + <char> + <word>"` keys split back into their three words. */
  lemma {:induction false} SplitJoinedTriple(a: string, c: string, w: string)
    requires IsToken(a) && IsToken(c) && IsToken(w)
    ensures Split(a + " + " + c + " + " + w, " + ") == [a, c, w]
  {
    assert a + " + " + c + " + " + w == a + " + " + (c + " + " + w);
    SplitJoinedHead(a, c + " + " + w);
    SplitJoinedPair(c, w);
  }

  // ---------------------------------------------------------------- replace

  /** `s.replace(pat, repl, 1)`. */
  function ReplaceFirst(s: string, pat: string, repl: string): (r: string)
  {
    var p := Find(s, pat, 0);
    if p < 0 then s else s[..p] + repl + s[p + |pat|..]
  }

  /** What `s.replace("", repl)` does: `repl` before, between and after every character. */
  function InsertAround(s: string, repl: string): string {
    if s == [] then repl else repl + [s[0]] + InsertAround(s[1..], repl)
  }

  /** `s.replace(pat, repl)`: every non-overlapping occurrence, left to right. */
  function ReplaceAll(s: string, pat: string, repl: string): string
    decreases |s|
  {
    if pat == [] then InsertAround(s, repl)
    else
      var p := Find(s, pat, 0);
      if p < 0 then s else s[..p] + repl + ReplaceAll(s[p + |pat|..], pat, repl)
  }

  /** Character-wise substitution: each `c` becomes `repl`, every other
      character stays. */
  function ReplaceChar(s: string, c: char, repl: string): string {
    if s == [] then [] else (if s[0] == c then repl else [s[0]]) + ReplaceChar(s[1..], c, repl)
  }

  /** Occurrences in the tail of `s` are the occurrences in `s` shifted by one. */
  lemma {:induction false} OccursInTail(s: string, sub: string, q: int)
    requires s != []
    ensures OccursAt(s[1..], sub, q) <==> 0 <= q && OccursAt(s, sub, q + 1)
  {
    if 0 <= q && q + 1 + |sub| <= |s| {
      assert s[1..][q..q + |sub|] == s[q + 1..q + 1 + |sub|];
    }
  }

  /** When `sub` does not start `s`, searching `s` is searching its tail. */
  lemma {:induction false} FindInTail(s: string, sub: string)
    requires s != [] && !OccursAt(s, sub, 0)
    ensures var p := Find(s[1..], sub, 0);
      Find(s, sub, 0) == if p < 0 then -1 else p + 1
  {
    var p := Find(s[1..], sub, 0);
    FindFirst(s[1..], sub, 0);
    if p < 0 {
      forall q | 0 <= q
        ensures !OccursAt(s, sub, q)
      {
        if q > 0 { OccursInTail(s, sub, q - 1); }
      }
    } else {
      OccursInTail(s, sub, p);
      forall q | 0 <= q < p + 1
        ensures !OccursAt(s, sub, q)
      {
        if q > 0 { OccursInTail(s, sub, q - 1); }
      }
      FindIs(s, sub, 0, p + 1);
    }
  }

  /** When no occurrence starts at the first character, `str.replace`
      keeps that character and carries on with the rest. */
  lemma {:induction false} ReplaceAllSkip(s: string, pat: string, repl: string)
    requires s != [] && pat != [] && !OccursAt(s, pat, 0)
    ensures ReplaceAll(s, pat, repl) == [s[0]] + ReplaceAll(s[1..], pat, repl)
  {
    var t := s[1..];
    FindInTail(s, pat);
    var p := Find(t, pat, 0);
    if p < 0 {
      assert Find(s, pat, 0) == -1;
      assert ReplaceAll(s, pat, repl) == s;
      assert ReplaceAll(t, pat, repl) == t;
      assert s == [s[0]] + t;
    } else {
      ReplaceAllUnfold(s, pat, repl);
      ReplaceAllUnfold(t, pat, repl);
      ShiftedSlices(s, p, |pat|, repl, ReplaceAll(t[p + |pat|..], pat, repl));
    }
  }

  /** The slices of `s` around an occurrence at `p + 1` are the slices of
      its tail around `p`, behind the first character. */
  lemma {:induction false} ShiftedSlices(s: string, p: nat, n: nat, repl: string, rest: string)
    requires p + 1 + n <= |s|
    ensures s[p + 1 + n..] == s[1..][p + n..]
    ensures s[..p + 1] + repl + rest == [s[0]] + (s[1..][..p] + repl + rest)
  {
    assert s[..p + 1] == [s[0]] + s[1..][..p];
  }

  /** One step of `str.replace` when `pat` occurs. */
  lemma {:induction false} ReplaceAllUnfold(s: string, pat: string, repl: string)
    requires pat != [] && Find(s, pat, 0) >= 0
    ensures ReplaceAll(s, pat, repl)
         == s[..Find(s, pat, 0)] + repl + ReplaceAll(s[Find(s, pat, 0) + |pat|..], pat, repl)
  {
  }

  /** For a one-character `pat`, `str.replace` substitutes every occurrence
      of that character and leaves every other character in place. */
  lemma {:induction false} ReplaceAllOneChar(s: string, c: char, repl: string)
    ensures ReplaceAll(s, [c], repl) == ReplaceChar(s, c, repl)
    decreases |s|
  {
    if s != [] {
      ReplaceAllOneChar(s[1..], c, repl);
      if s[0] == c {
        assert OccursAt(s, [c], 0);
      } else {
        assert !OccursAt(s, [c], 0);
        ReplaceAllSkip(s, [c], repl);
      }
    }
  }

  // ---------------------------------------------------------------- lower

  /** `str.lower()` on one character, for the letters of ASCII and Latin-1 and
      the Estonian letters Š and Ž; every other character is kept. */
  function LowerChar(c: char): char {
    if 'A' <= c <= 'Z' || ('\U{C0}' <= c <= '\U{DE}' && c != '\U{D7}') then
      (c as int + 32) as char
    else if c == '\U{160}' || c == '\U{17D}' then
      (c as int + 1) as char
    else
      c
  }

  // ---------------------------------------------------------------- int()

  predicate IsDigit(c: char) {
    '0' <= c <= '9'
  }

  predicate AllDigits(s: string) {
    forall i :: 0 <= i < |s| ==> IsDigit(s[i])
  }

  function DigitsValue(s: string): nat
    requires AllDigits(s)
  {
    if s == [] then 0 else DigitsValue(s[..|s| - 1]) * 10 + (s[|s| - 1] as int - '0' as int)
  }

  /** `int(s)` on a token: an optional sign and one or more ASCII digits;
      anything else raises ValueError. */
  function ParseInt(s: string): (r: Result<int>)
    ensures r.Ok? ==> s != []
  {
    var signed := s != [] && (s[0] == '-' || s[0] == '+');
    var digits := if signed then s[1..] else s;
    if digits == [] || !AllDigits(digits) then Err(ValueError)
    else
      var magnitude: int := DigitsValue(digits);
      Ok(if signed && s[0] == '-' then -magnitude else magnitude)
  }

  // ---------------------------------------------------------------- lists

  /** `xs[k]`, with Python's negative indices counted from the end. */
  function PyIndex<T>(xs: seq<T>, k: int): (r: Result<T>)
    ensures r.Ok? <==> -|xs| <= k < |xs|
    ensures 0 <= k < |xs| ==> r == Ok(xs[k])
    ensures -|xs| <= k < 0 ==> r == Ok(xs[|xs| + k])
  {
    if 0 <= k < |xs| then Ok(xs[k])
    else if -|xs| <= k < 0 then Ok(xs[|xs| + k])
    else Err(IndexError)
  }

  /** `xs.index(x)`: the first position of `x`, or None where Python raises ValueError. */
  function IndexOf<T(==)>(xs: seq<T>, x: T): (r: Option<nat>)
    ensures r.None? <==> x !in xs
    ensures r.Some? ==>
      && r.value < |xs| && xs[r.value] == x
      && forall j :: 0 <= j < r.value ==> xs[j] != x
  {
    if xs == [] then None
    else if xs[0] == x then Some(0)
    else match IndexOf(xs[1..], x)
      case None => None
      case Some(i) => Some(i + 1)
  }
}
