/**
 * The java.lang.String and java.lang.Character operations the core relies on,
 * stated over `string`, a sequence of Unicode scalar values (one `char` per
 * code point, where Java counts UTF-16 code units). Case mapping is
 * restricted to ASCII letters.
 */
module Strings {

  import opened Wrappers

  // ---------------------------------------------------------------------------
  // Character classes and case mapping (Character.isUpperCase, toUpperCase, ...)
  // ---------------------------------------------------------------------------

  predicate IsUpper(c: char) { 'A' <= c <= 'Z' }

  predicate IsLower(c: char) { 'a' <= c <= 'z' }

  function ToUpper(c: char): (u: char)
    ensures !IsLower(u)
    ensures IsLower(c) ==> IsUpper(u)
    ensures !IsLower(c) ==> u == c
  {
    if IsLower(c) then (c as int - 32) as char else c
  }

  function ToLower(c: char): (l: char)
    ensures !IsUpper(l)
    ensures IsUpper(c) ==> IsLower(l)
    ensures !IsUpper(c) ==> l == c
  {
    if IsUpper(c) then (c as int + 32) as char else c
  }

  /** Lower-casing undoes upper-casing of anything that was not upper case. */
  lemma LowerOfUpper(c: char)
    requires !IsUpper(c)
    ensures ToLower(ToUpper(c)) == c
  {
  }

  /** Upper-casing undoes lower-casing of anything that was not lower case. */
  lemma UpperOfLower(c: char)
    requires !IsLower(c)
    ensures ToUpper(ToLower(c)) == c
  {
  }

  /** String.toUpperCase, character by character. */
  function UpperAll(s: string): (r: string)
    ensures |r| == |s|
    ensures forall i :: 0 <= i < |s| ==> r[i] == ToUpper(s[i])
  {
    seq(|s|, i requires 0 <= i < |s| => ToUpper(s[i]))
  }

  /** String.toLowerCase, character by character. */
  function LowerAll(s: string): (r: string)
    ensures |r| == |s|
    ensures forall i :: 0 <= i < |s| ==> r[i] == ToLower(s[i])
  {
    seq(|s|, i requires 0 <= i < |s| => ToLower(s[i]))
  }

  /** String.equalsIgnoreCase on ASCII text: same length, and each pair of characters agrees ignoring case. */
  predicate EqualsIgnoreCase(a: string, b: string)
    ensures EqualsIgnoreCase(a, b) <==>
              |a| == |b| && forall i :: 0 <= i < |a| ==> ToLower(a[i]) == ToLower(b[i])
  {
    LowerAll(a) == LowerAll(b)
  }

  // ---------------------------------------------------------------------------
  // Blank text and trimming
  // ---------------------------------------------------------------------------

  /** Character.isWhitespace: the Unicode space separators other than the
      non-breaking ones, and the ASCII controls TAB, LF, VT, FF, CR, FS, GS, RS, US. */
  predicate IsWhitespace(c: char)
    ensures c == ' ' || c == '\t' || c == '\n' || c == '\r' ==> IsWhitespace(c)
    ensures c == '\U{A0}' || c == '\U{2007}' || c == '\U{202F}' ==> !IsWhitespace(c)
    ensures IsWhitespace(c) && c < '\U{80}' ==> c <= ' '
    ensures IsWhitespace(c) ==> !IsUpper(c) && !IsLower(c) && !('0' <= c <= '9')
  {
    || ('\t' <= c <= '\r')
    || ('\U{1C}' <= c <= ' ')
    || c == '\U{1680}'
    || ('\U{2000}' <= c <= '\U{2006}')
    || ('\U{2008}' <= c <= '\U{200A}')
    || c == '\U{2028}' || c == '\U{2029}' || c == '\U{205F}' || c == '\U{3000}'
  }

  /**
   * StringUtils.isBlank: null, empty, or whitespace only. Blank text holds no
   * letter or digit.
   */
  predicate IsBlank(s: Option<string>)
    ensures s.None? || s.value == [] ==> IsBlank(s)
    ensures IsBlank(s) && s.Some? ==>
              forall i :: 0 <= i < |s.value| ==> !IsUpper(s.value[i]) && !IsLower(s.value[i]) && !('0' <= s.value[i] <= '9')
  {
    s.None? || forall i :: 0 <= i < |s.value| ==> IsWhitespace(s.value[i])
  }

  /** What String.trim removes from either end: every code unit up to U+0020. */
  predicate Trimmable(c: char) { c <= ' ' }

  predicate IsTrimmed(s: string) {
    s == [] || (!Trimmable(s[0]) && !Trimmable(s[|s| - 1]))
  }

  function TrimStart(s: string): (r: string)
    ensures |r| <= |s| && r == s[|s| - |r|..]
    ensures r == [] || !Trimmable(r[0])
    ensures forall i :: 0 <= i < |s| - |r| ==> Trimmable(s[i])
  {
    if s != [] && Trimmable(s[0]) then TrimStart(s[1..]) else s
  }

  function TrimEnd(s: string): (r: string)
    ensures |r| <= |s| && r == s[..|r|]
    ensures r == [] || !Trimmable(r[|r| - 1])
    ensures forall i :: |r| <= i < |s| ==> Trimmable(s[i])
  {
    if s != [] && Trimmable(s[|s| - 1]) then TrimEnd(s[..|s| - 1]) else s
  }

  /** `r` is `s[i..j]`, and only trimmable characters lie outside that slice. */
  predicate TrimmedSlice(s: string, r: string, i: int, j: int) {
    && 0 <= i <= j <= |s| && r == s[i..j]
    && (forall k :: 0 <= k < i ==> Trimmable(s[k]))
    && (forall k :: j <= k < |s| ==> Trimmable(s[k]))
  }

  /** String.trim: drops the trimmable code units at both ends, keeps the middle. */
  function Trim(s: string): (r: string)
    ensures exists i, j :: TrimmedSlice(s, r, i, j)
    ensures IsTrimmed(r)
    ensures |r| <= |s|
    ensures IsTrimmed(s) ==> r == s
  {
    var t := TrimStart(s);
    var r := TrimEnd(t);
    TrimIsSlice(s, t, r);
    TrimEnds(s, t, r);
    r
  }

  lemma TrimEnds(s: string, t: string, r: string)
    requires t == TrimStart(s) && r == TrimEnd(t)
    ensures IsTrimmed(r)
    ensures IsTrimmed(s) ==> r == s
  {
    assert r != [] ==> r[0] == t[0];
  }

  /** Dropping trimmable characters from the front of `s`, then from the back, leaves a trimmed slice. */
  lemma TrimIsSlice(s: string, t: string, r: string)
    requires |t| <= |s| && t == s[|s| - |t|..] && forall k :: 0 <= k < |s| - |t| ==> Trimmable(s[k])
    requires |r| <= |t| && r == t[..|r|] && forall k :: |r| <= k < |t| ==> Trimmable(t[k])
    ensures TrimmedSlice(s, r, |s| - |t|, |s| - |t| + |r|)
  {
    var i := |s| - |t|;
    forall k | 0 <= k < |r| ensures r[k] == s[i + k] {
      assert r[k] == t[k] && t[k] == s[i + k];
    }
    forall k | i + |r| <= k < |s| ensures Trimmable(s[k]) {
      assert s[k] == t[k - i];
    }
  }

  /** Blank text made only of ASCII characters has nothing left once trimmed. */
  lemma BlankAsciiTrimsAway(s: string)
    requires IsBlank(Some(s)) && forall i :: 0 <= i < |s| ==> s[i] < '\U{80}'
    ensures Trim(s) == []
  {
    assert forall k :: 0 <= k < |s| ==> Trimmable(s[k]);
    var t := TrimStart(s);
  }

  // ---------------------------------------------------------------------------
  // Counting, prefixes and suffixes
  // ---------------------------------------------------------------------------

  function Count(s: string, c: char): nat {
    if s == [] then 0 else (if s[0] == c then 1 else 0) + Count(s[1..], c)
  }

  /** The characters of `s` without any `c`, in order. */
  function RemoveAll(s: string, c: char): string {
    if s == [] then [] else (if s[0] == c then [] else [s[0]]) + RemoveAll(s[1..], c)
  }

  lemma {:induction false} RemoveAllAppend(a: string, b: string, c: char)
    ensures RemoveAll(a + b, c) == RemoveAll(a, c) + RemoveAll(b, c)
  {
    if a != [] {
      assert (a + b)[1..] == a[1..] + b;
      RemoveAllAppend(a[1..], b, c);
    } else {
      assert a + b == b;
    }
  }

  predicate StartsWith(s: string, p: string) {
    |p| <= |s| && s[..|p|] == p
  }

  predicate EndsWith(s: string, p: string) {
    |p| <= |s| && s[|s| - |p|..] == p
  }

  // ---------------------------------------------------------------------------
  // String.replace with a literal target
  // ---------------------------------------------------------------------------

  /** s.replace(c, rep) for a one-character target `c`. */
  function ReplaceChar(s: string, c: char, rep: string): string {
    if s == [] then [] else (if s[0] == c then rep else [s[0]]) + ReplaceChar(s[1..], c, rep)
  }

  lemma {:induction false} ReplaceCharAppend(a: string, x: char, c: char, rep: string)
    ensures ReplaceChar(a + [x], c, rep) == ReplaceChar(a, c, rep) + (if x == c then rep else [x])
  {
    if a != [] {
      assert (a + [x])[1..] == a[1..] + [x];
      ReplaceCharAppend(a[1..], x, c, rep);
    }
  }

  /** Every `q` written twice: the escaping that a doubled-quote syntax uses. */
  function Doubled(s: string, q: char): string {
    ReplaceChar(s, q, [q, q])
  }

  /**
   * s.replace(qq, q): scanning left to right, each non-overlapping pair of
   * `q`s becomes a single `q`.
   */
  function Undoubled(s: string, q: char): (r: string)
    ensures |r| <= |s|
    ensures s != [] ==> r != []
  {
    if |s| >= 2 && s[0] == q && s[1] == q then [q] + Undoubled(s[2..], q)
    else if s == [] then []
    else [s[0]] + Undoubled(s[1..], q)
  }

  /** Un-doubling inverts doubling. */
  lemma {:induction false} UndoubledDoubled(s: string, q: char)
    ensures Undoubled(Doubled(s, q), q) == s
  {
    if s != [] {
      UndoubledDoubled(s[1..], q);
      if s[0] == q {
        assert Doubled(s, q) == [q, q] + Doubled(s[1..], q);
      } else {
        assert Doubled(s, q) == [s[0]] + Doubled(s[1..], q);
      }
    }
  }

  /** Doubling adds exactly one character per `q`. */
  lemma {:induction false} DoubledLength(s: string, q: char)
    ensures |Doubled(s, q)| == |s| + Count(s, q)
  {
    if s != [] {
      DoubledLength(s[1..], q);
    }
  }

  /** Text containing no pair `qq` is left alone by un-doubling. */
  lemma {:induction false} UndoubledNoPair(s: string, q: char)
    requires forall i :: 0 <= i < |s| - 1 ==> !(s[i] == q && s[i + 1] == q)
    ensures Undoubled(s, q) == s
  {
    if s != [] {
      UndoubledNoPair(s[1..], q);
    }
  }

  // ---------------------------------------------------------------------------
  // String.lastIndexOf
  // ---------------------------------------------------------------------------

  /** lastIndexOf(char): the last position holding `c`, or -1. */
  function LastIndexOf(s: string, c: char): (r: int)
    ensures -1 <= r < |s|
    ensures r >= 0 ==> s[r] == c
    ensures forall j :: r < j < |s| ==> s[j] != c
  {
    if s == [] then -1
    else if s[|s| - 1] == c then |s| - 1
    else LastIndexOf(s[..|s| - 1], c)
  }

  /** `d` occurs in `s` starting at `k`. */
  predicate OccursAt(s: string, d: string, k: int) {
    0 <= k && k + |d| <= |s| && s[k..k + |d|] == d
  }

  function LastOccurrenceUpTo(s: string, d: string, k: int): (r: int)
    requires k <= |s| - |d|
    ensures r == -1 || 0 <= r <= k
    ensures r >= 0 ==> OccursAt(s, d, r)
    ensures forall j :: r < j <= k ==> !OccursAt(s, d, j)
    decreases k + 1
  {
    if k < 0 then -1
    else if s[k..k + |d|] == d then k
    else LastOccurrenceUpTo(s, d, k - 1)
  }

  /**
   * lastIndexOf(String): the last start of `d` in `s`, or -1. Like Java, the
   * empty string occurs last at |s|.
   */
  function LastIndexOfString(s: string, d: string): (r: int)
    ensures r == -1 || OccursAt(s, d, r)
    ensures forall j :: r < j ==> !OccursAt(s, d, j)
  {
    LastOccurrenceUpTo(s, d, |s| - |d|)
  }

  // ---------------------------------------------------------------------------
  // Splitting and joining
  // ---------------------------------------------------------------------------

  /** No character of `s` is in `cs`. */
  predicate Avoids(s: string, cs: set<char>) {
    forall i :: 0 <= i < |s| ==> s[i] !in cs
  }

  /** The first position holding a character of `cs`, or -1. */
  function FirstIndexIn(s: string, cs: set<char>): (r: int)
    ensures -1 <= r < |s|
    ensures r >= 0 ==> s[r] in cs
    ensures r == -1 ==> Avoids(s, cs)
    ensures r >= 0 ==> Avoids(s[..r], cs)
  {
    if s == [] then -1
    else if s[0] in cs then 0
    else
      var k := FirstIndexIn(s[1..], cs);
      assert k >= 0 ==> s[..k + 1] == [s[0]] + s[1..][..k];
      if k < 0 then -1 else k + 1
  }

  /** The pieces of `s` between single delimiters from `cs`, empty pieces kept. */
  function SplitOn(s: string, cs: set<char>): (parts: seq<string>)
    ensures |parts| >= 1
    ensures forall p :: p in parts ==> Avoids(p, cs)
    decreases |s|
  {
    var k := FirstIndexIn(s, cs);
    if k < 0 then [s] else [s[..k]] + SplitOn(s[k + 1..], cs)
  }

  /** The parts written one after the other with `sep` between neighbours. */
  function Join(parts: seq<string>, sep: char): string {
    if parts == [] then []
    else if |parts| == 1 then parts[0]
    else parts[0] + [sep] + Join(parts[1..], sep)
  }

  /** Splitting undoes joining when no part contains a delimiter and the separator is one. */
  lemma {:induction false} SplitJoin(parts: seq<string>, sep: char, cs: set<char>)
    requires parts != [] && sep in cs
    requires forall p :: p in parts ==> Avoids(p, cs)
    ensures SplitOn(Join(parts, sep), cs) == parts
  {
    var p := parts[0];
    assert Avoids(p, cs);
    if |parts| == 1 {
      assert FirstIndexIn(p, cs) == -1;
    } else {
      var s := Join(parts, sep);
      var rest := Join(parts[1..], sep);
      assert s == p + [sep] + rest;
      FirstIndexOfJoin(p, sep, rest, cs);
      assert s[..|p|] == p && s[|p| + 1..] == rest;
      assert forall q :: q in parts[1..] ==> q in parts;
      SplitJoin(parts[1..], sep, cs);
    }
  }

  lemma FirstIndexOfJoin(p: string, sep: char, rest: string, cs: set<char>)
    requires Avoids(p, cs) && sep in cs
    ensures FirstIndexIn(p + [sep] + rest, cs) == |p|
  {
    var s := p + [sep] + rest;
    var k := FirstIndexIn(s, cs);
    assert s[|p|] == sep;
    assert forall i :: 0 <= i < |p| ==> s[i] == p[i];
  }

  /** Splitting at a delimiter between two texts gives the parts of each. */
  lemma {:induction false} SplitOnAppend(u: string, d: char, v: string, cs: set<char>)
    requires d in cs
    ensures SplitOn(u + [d] + v, cs) == SplitOn(u, cs) + SplitOn(v, cs)
    decreases |u|
  {
    var w := [d] + v;
    AppendAssoc(u, [d], v);
    var k := FirstIndexIn(u, cs);
    if k < 0 {
      assert SplitOn(u + w, cs) == [u] + SplitOn(v, cs) by {
        FirstIndexOfJoin(u, d, v, cs);
        SlicesOfAppend(u, w, |u|);
      }
    } else {
      var tail := u[k + 1..];
      FirstIndexOfPrefix(u, w, cs);
      SlicesOfAppend(u, w, k);
      assert SplitOn(u + w, cs) == [u[..k]] + SplitOn(tail + w, cs);
      AppendAssoc(tail, [d], v);
      SplitOnAppend(tail, d, v, cs);
      assert SplitOn(u, cs) == [u[..k]] + SplitOn(tail, cs);
      AppendAssoc([u[..k]], SplitOn(tail, cs), SplitOn(v, cs));
    }
  }

  lemma SlicesOfAppend(u: string, w: string, k: nat)
    requires k <= |u| && (k == |u| ==> w != [])
    ensures (u + w)[..k] == u[..k]
    ensures k < |u| ==> (u + w)[k + 1..] == u[k + 1..] + w
    ensures k == |u| ==> (u + w)[k + 1..] == w[1..]
  {
  }

  /** A delimiter found in `u` is found at the same place in any extension of `u`. */
  lemma FirstIndexOfPrefix(u: string, w: string, cs: set<char>)
    requires FirstIndexIn(u, cs) >= 0
    ensures FirstIndexIn(u + w, cs) == FirstIndexIn(u, cs)
  {
    var k := FirstIndexIn(u, cs);
    var s := u + w;
    assert s[k] == u[k];
    assert forall i :: 0 <= i < k ==> s[i] == u[i];
  }

  /** Concatenation is associative; stated once so that proofs can cite it. */
  lemma AppendAssoc<T>(a: seq<T>, b: seq<T>, c: seq<T>)
    ensures (a + b) + c == a + (b + c)
  {
  }
}
