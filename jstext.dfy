/**
 * The JavaScript string operations the TypeScript cores rely on, over `string`
 * (Dafny's `seq<char>`): `trim`, `includes` and `split` on one character. `toLowerCase` depends on Unicode case tables and is a
 * parameter of the functions that use it.
 */
module JsText {
  import opened Common

  /** `String.prototype.toLowerCase`, supplied by the caller. */
  type Lower = string -> string

  /** ECMAScript WhiteSpace and LineTerminator code points: what `trim` removes. */
  predicate IsJsSpace(c: char) {
    c == '\t' || c == '\n' || c == '\U{000B}' || c == '\U{000C}' || c == '\r' || c == ' '
    || c == '\U{00A0}' || c == '\U{1680}' || ('\U{2000}' <= c <= '\U{200A}')
    || c == '\U{2028}' || c == '\U{2029}' || c == '\U{202F}' || c == '\U{205F}'
    || c == '\U{3000}' || c == '\U{FEFF}'
  }

  /** Index of the first character of `s` that `trim` keeps, or `|s|`. */
  function TrimStart(s: string): (i: nat)
    ensures i <= |s|
    ensures forall k :: 0 <= k < i ==> IsJsSpace(s[k])
    ensures i < |s| ==> !IsJsSpace(s[i])
  {
    if s == [] || !IsJsSpace(s[0]) then 0 else 1 + TrimStart(s[1..])
  }

  /** One past the last character of `s` that `trim` keeps, or 0. */
  function TrimEnd(s: string): (j: nat)
    ensures j <= |s|
    ensures forall k :: j <= k < |s| ==> IsJsSpace(s[k])
    ensures 0 < j ==> !IsJsSpace(s[j - 1])
  {
    if s == [] || !IsJsSpace(s[|s| - 1]) then |s| else TrimEnd(s[..|s| - 1])
  }

  /** `s.trim()`: `s` without its leading and trailing white space. */
  function Trim(s: string): (r: string)
    ensures |r| <= |s|
    ensures r != [] ==> !IsJsSpace(r[0]) && !IsJsSpace(r[|r| - 1])
  {
    var i := TrimStart(s);
    if i == |s| then [] else
      TrimAfterStart(s, i);
      s[i..TrimEnd(s)]
  }

  /** Once a kept character exists, the kept span ends after it. */
  lemma TrimAfterStart(s: string, i: nat)
    requires i == TrimStart(s) < |s|
    ensures i < TrimEnd(s)
  {
  }

  /** What `trim` drops is white space on both sides of what it keeps. */
  lemma {:induction false} TrimSplits(s: string)
    ensures exists i, j ::
      && 0 <= i <= j <= |s| && Trim(s) == s[i..j]
      && (forall k :: 0 <= k < i ==> IsJsSpace(s[k]))
      && (forall k :: j <= k < |s| ==> IsJsSpace(s[k]))
  {
    var i := TrimStart(s);
    if i == |s| {
      assert Trim(s) == s[i..i];
    } else {
      TrimAfterStart(s, i);
      var j := TrimEnd(s);
      assert Trim(s) == s[i..j];
    }
  }

  /** Trimming twice trims nothing more. */
  lemma {:induction false} TrimIdempotent(s: string)
    ensures Trim(Trim(s)) == Trim(s)
  {
    var t := Trim(s);
    if t != [] {
      assert TrimStart(t) == 0;
      assert TrimEnd(t) == |t|;
      assert t[0..|t|] == t;
    }
  }

  /** A string that starts and ends with non-space characters is its own trim. */
  lemma TrimmedAlready(s: string)
    requires s != [] && !IsJsSpace(s[0]) && !IsJsSpace(s[|s| - 1])
    ensures Trim(s) == s
  {
    assert TrimStart(s) == 0;
    assert TrimEnd(s) == |s|;
    assert s[0..|s|] == s;
  }

  /** `s.includes(t)`: `t` occurs in `s` at some offset. */
  predicate Contains(s: string, t: string) {
    exists i :: 0 <= i <= |s| - |t| && IsPrefix(t, s[i..])
  }

  /** `s.split(c)`: the pieces between occurrences of `c`; always at least one. */
  function Split(s: string, c: char): (parts: seq<string>)
    ensures |parts| >= 1
  {
    if s == [] then [[]]
    else
      var rest := Split(s[1..], c);
      if s[0] == c then [[]] + rest else [[s[0]] + rest[0]] + rest[1..]
  }

  /** `parts.join(c)`. */
  function Join(parts: seq<string>, c: char): string
    requires |parts| >= 1
  {
    if |parts| == 1 then parts[0] else parts[0] + [c] + Join(parts[1..], c)
  }

  /** Joining the pieces back with the separator gives the original string. */
  lemma {:induction false} SplitJoin(s: string, c: char)
    ensures Join(Split(s, c), c) == s
  {
    if s != [] {
      var rest := Split(s[1..], c);
      SplitJoin(s[1..], c);
      if s[0] == c {
        assert Split(s, c)[1..] == rest;
      } else if |rest| == 1 {
        assert s == [s[0]] + s[1..];
      } else {
        assert Split(s, c)[1..] == rest[1..];
        assert Join(rest, c) == rest[0] + [c] + Join(rest[1..], c);
        assert s == [s[0]] + s[1..];
      }
    }
  }

  /** Splitting a separator-free head followed by `t` glues the head onto `t`'s first piece. */
  lemma {:induction false} SplitAfterFree(a: string, t: string, c: char)
    requires c !in a
    ensures Split(a + t, c) == [a + Split(t, c)[0]] + Split(t, c)[1..]
  {
    if a != [] {
      SplitAfterFree(a[1..], t, c);
      var rest := Split(a[1..] + t, c);
      assert (a + t)[1..] == a[1..] + t && (a + t)[0] == a[0] != c;
      assert rest[0] == a[1..] + Split(t, c)[0] && rest[1..] == Split(t, c)[1..];
      assert [a[0]] + rest[0] == a + Split(t, c)[0];
    } else {
      var st := Split(t, c);
      assert a + t == t && a + st[0] == st[0];
      assert st == [st[0]] + st[1..];
    }
  }

  /** Splitting a join of separator-free pieces gives the pieces back. */
  lemma {:induction false} JoinSplit(parts: seq<string>, c: char)
    requires |parts| >= 1
    requires forall k :: 0 <= k < |parts| ==> c !in parts[k]
    ensures Split(Join(parts, c), c) == parts
  {
    if |parts| == 1 {
      SplitAfterFree(parts[0], [], c);
      assert parts[0] + [] == parts[0];
    } else {
      var rest := parts[1..];
      JoinSplit(rest, c);
      var tail := [c] + Join(rest, c);
      assert Split(tail, c) == [[]] + rest by {
        assert tail[1..] == Join(rest, c);
      }
      SplitAfterFree(parts[0], tail, c);
      assert parts[0] + [c] + Join(rest, c) == parts[0] + tail;
      assert parts[0] + [] == parts[0];
      assert parts == [parts[0]] + rest;
    }
  }

  /** No piece contains the separator. */
  lemma {:induction false} SplitSeparatorFree(s: string, c: char)
    ensures forall k :: 0 <= k < |Split(s, c)| ==> c !in Split(s, c)[k]
  {
    if s != [] {
      SplitSeparatorFree(s[1..], c);
    }
  }
}
