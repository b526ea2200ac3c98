/**
 * The Python string operations the aligner front end relies on: substring
 * test (`sub in s`), `s.find(sep)`, `s.split(sep)`, `s.split()` and
 * `s.strip()`.  Strings are Python 2 byte strings, so "whitespace" is the six
 * ASCII characters that `str.isspace` accepts.
 */
module PyStr {
  import opened Wrappers

  /** `c.isspace()` for a byte string character. */
  predicate IsSpace(c: char) {
    c == ' ' || c == '\t' || c == '\n' || c == '\r' || c == '\U{0B}' || c == '\U{0C}'
  }

  predicate NoSpace(s: string) {
    forall i :: 0 <= i < |s| ==> !IsSpace(s[i])
  }

  predicate AllSpace(s: string) {
    forall i :: 0 <= i < |s| ==> IsSpace(s[i])
  }

  /** `sub in s`: `sub` occurs somewhere in `s` (the empty string occurs everywhere). */
  predicate Contains(s: string, sub: string) {
    exists j :: 0 <= j <= |s| && sub <= s[j..]
  }

  /** A string that contains a non-blank string is not blank itself. */
  lemma ContainsNonSpace(s: string, sub: string)
    requires Contains(s, sub) && !AllSpace(sub)
    ensures !AllSpace(s)
  {
    var j :| 0 <= j <= |s| && sub <= s[j..];
    var k :| 0 <= k < |sub| && !IsSpace(sub[k]);
    assert s[j + k] == sub[k];
  }

  /** A string shorter than `sub` cannot contain it. */
  lemma ShorterNotContains(s: string, sub: string)
    requires |s| < |sub|
    ensures !Contains(s, sub)
  {
  }

  // ---------------------------------------------------------------------------
  // s.find(sep) and s.split(sep)
  // ---------------------------------------------------------------------------

  /** `s.find(sep)`: the first position where `sep` occurs, or None for -1. */
  function Find(s: string, sep: string): (r: Option<nat>)
    ensures r.Some? ==> r.value <= |s| && sep <= s[r.value..]
    ensures r.Some? ==> forall j :: 0 <= j < r.value ==> !(sep <= s[j..])
    ensures r.None? <==> !Contains(s, sep)
    decreases |s|
  {
    if sep <= s then Some(0)
    else if s == [] then None
    else
      var rest := Find(s[1..], sep);
      assert forall j :: 1 <= j <= |s| ==> s[1..][j - 1..] == s[j..];
      match rest
      case None => None
      case Some(i) => Some(i + 1)
  }

  /** The first occurrence is fixed by the positions up to and including it. */
  lemma FindIs(s: string, sep: string, i: nat)
    requires i <= |s| && sep <= s[i..]
    requires forall j :: 0 <= j < i ==> !(sep <= s[j..])
    ensures Find(s, sep) == Some(i)
  {
    assert Contains(s, sep);
  }

  /** An occurrence in a prefix is an occurrence in the whole. */
  lemma OccurrenceFromPrefix(t: string, s: string, sep: string, j: nat)
    requires t <= s && j <= |t|
    ensures sep <= t[j..] ==> sep <= s[j..]
  {
    if sep <= t[j..] {
      forall k | 0 <= k < |sep|
        ensures sep[k] == s[j..][k]
      {
        assert t[j..][k] == t[j + k] == s[j + k];
      }
    }
  }

  /** An occurrence that ends inside a prefix is an occurrence in the prefix. */
  lemma OccurrenceInPrefix(t: string, s: string, sep: string, j: nat)
    requires t <= s && j + |sep| <= |t|
    ensures sep <= s[j..] ==> sep <= t[j..]
  {
    if sep <= s[j..] {
      forall k | 0 <= k < |sep|
        ensures sep[k] == t[j..][k]
      {
        assert s[j..][k] == s[j + k] == t[j + k];
      }
    }
  }

  /** Appending text after a found occurrence does not move it. */
  lemma FindExtend(t: string, u: string, sep: string)
    requires Find(t, sep).Some?
    ensures Find(t + u, sep) == Find(t, sep)
  {
    var i := Find(t, sep).value;
    var s := t + u;
    assert t <= s;
    OccurrenceFromPrefix(t, s, sep, i);
    forall j | 0 <= j < i
      ensures !(sep <= s[j..])
    {
      OccurrenceInPrefix(t, s, sep, j);
    }
    FindIs(s, sep, i);
  }

  /** Text before the first occurrence of `sep` does not contain `sep`. */
  lemma BeforeFirstNotContains(s: string, sep: string, i: nat)
    requires sep != [] && i <= |s|
    requires forall j :: 0 <= j < i ==> !(sep <= s[j..])
    ensures !Contains(s[..i], sep)
  {
    forall j | 0 <= j <= i
      ensures !(sep <= s[..i][j..])
    {
      if j < i {
        assert s[..i][j..] <= s[j..];
      }
    }
  }

  /** `s.split(sep)` for a non-empty separator: the pieces between the
   *  non-overlapping occurrences of `sep`, found left to right. */
  function Split(s: string, sep: string): (r: seq<string>)
    requires sep != []
    ensures |r| >= 1
    ensures forall k :: 0 <= k < |r| ==> !Contains(r[k], sep)
    decreases |s|
  {
    match Find(s, sep)
    case None => [s]
    case Some(i) =>
      BeforeFirstNotContains(s, sep, i);
      [s[..i]] + Split(s[i + |sep|..], sep)
  }

  /** `sep.join(parts)`. */
  function Join(parts: seq<string>, sep: string): string
    decreases |parts|
  {
    if parts == [] then []
    else if |parts| == 1 then parts[0]
    else parts[0] + sep + Join(parts[1..], sep)
  }

  lemma JoinCons(x: string, ys: seq<string>, sep: string)
    requires |ys| >= 1
    ensures Join([x] + ys, sep) == x + sep + Join(ys, sep)
  {
    assert ([x] + ys)[1..] == ys;
  }

  /** A string is its text before an occurrence, the occurrence and the rest. */
  lemma Recompose(s: string, sep: string, i: nat)
    requires i <= |s| && sep <= s[i..]
    ensures s == s[..i] + sep + s[i + |sep|..]
  {
    assert s[i..] == sep + s[i + |sep|..];
    assert s == s[..i] + s[i..];
  }

  /** Splitting loses nothing: joining the pieces gives the string back. */
  lemma {:induction false} JoinSplit(s: string, sep: string)
    requires sep != []
    ensures Join(Split(s, sep), sep) == s
    decreases |s|
  {
    var f := Find(s, sep);
    if f.Some? {
      var i := f.value;
      var rest := s[i + |sep|..];
      var pieces := Split(rest, sep);
      assert Split(s, sep) == [s[..i]] + pieces;
      JoinSplit(rest, sep);
      JoinCons(s[..i], pieces, sep);
      Recompose(s, sep, i);
    }
  }

  /** Joining pieces that hold no separator, none of which runs into the
   *  separator that follows it, and splitting again gives the pieces back. */
  lemma {:induction false} SplitJoin(parts: seq<string>, sep: string)
    requires sep != [] && |parts| >= 1
    requires forall k :: 0 <= k < |parts| ==> !Contains(parts[k], sep)
    requires forall k :: 0 <= k < |parts| - 1 ==> Find(parts[k] + sep, sep) == Some(|parts[k]|)
    ensures Split(Join(parts, sep), sep) == parts
    decreases |parts|
  {
    if |parts| == 1 {
      assert Find(parts[0], sep) == None;
    } else {
      var p, more := parts[0], parts[1..];
      var tail := Join(more, sep);
      var s := (p + sep) + tail;
      assert parts == [p] + more;
      JoinCons(p, more, sep);
      FindExtend(p + sep, tail, sep);
      assert s[..|p|] == p;
      assert s[|p| + |sep|..] == tail;
      forall k | 0 <= k < |more|
        ensures !Contains(more[k], sep)
      {
        assert more[k] == parts[k + 1];
      }
      forall k | 0 <= k < |more| - 1
        ensures Find(more[k] + sep, sep) == Some(|more[k]|)
      {
        assert more[k] == parts[k + 1];
      }
      SplitJoin(more, sep);
    }
  }

  // ---------------------------------------------------------------------------
  // s.split() and s.strip()
  // ---------------------------------------------------------------------------

  /** Length of the run of non-whitespace characters that starts `s`. */
  function WordLength(s: string): (n: nat)
    ensures n <= |s| && NoSpace(s[..n])
    ensures n < |s| ==> IsSpace(s[n])
    decreases |s|
  {
    if s == [] || IsSpace(s[0]) then 0
    else
      var n := WordLength(s[1..]);
      assert s[..n + 1] == [s[0]] + s[1..][..n];
      n + 1
  }

  /** `s.split()`: the maximal runs of non-whitespace characters, left to right. */
  function Tokens(s: string): (r: seq<string>)
    ensures forall k :: 0 <= k < |r| ==> r[k] != [] && NoSpace(r[k])
    ensures r == [] <==> AllSpace(s)
    decreases |s|
  {
    if s == [] then []
    else if IsSpace(s[0]) then
      var r := Tokens(s[1..]);
      assert AllSpace(s[1..]) ==> AllSpace(s) by {
        if AllSpace(s[1..]) {
          assert s == [s[0]] + s[1..];
        }
      }
      r
    else
      var n := WordLength(s);
      [s[..n]] + Tokens(s[n..])
  }

  /** `s.split()[-1]`, defined when `s` holds a non-whitespace character. */
  function LastToken(s: string): (w: string)
    requires !AllSpace(s)
    ensures w != [] && NoSpace(w)
  {
    var t := Tokens(s);
    t[|t| - 1]
  }

  lemma NoSpaceTake(s: string, n: nat)
    requires n <= |s| && NoSpace(s[..n])
    ensures forall k :: 0 <= k < n ==> !IsSpace(s[k])
  {
    forall k | 0 <= k < n
      ensures !IsSpace(s[k])
    {
      assert s[..n][k] == s[k];
    }
  }

  /** A word followed only by whitespace splits into that word alone. */
  lemma TokensOfWord(w: string, b: string)
    requires w != [] && NoSpace(w) && AllSpace(b)
    ensures Tokens(w + b) == [w]
  {
    var s := w + b;
    var n := WordLength(s);
    NoSpaceTake(s, n);
    assert forall k :: 0 <= k < |w| ==> s[k] == w[k];
    assert |w| < |s| ==> s[|w|] == b[0];
    assert n == |w|;
    assert s[..n] == w;
    assert s[n..] == b;
  }

  /** The last token is the run of non-whitespace characters that is preceded
   *  by whitespace or the start of the line and followed only by whitespace. */
  lemma {:induction false} LastTokenCharacterized(a: string, w: string, b: string)
    requires w != [] && NoSpace(w) && AllSpace(b)
    requires a == [] || IsSpace(a[|a| - 1])
    ensures !AllSpace(a + w + b) && LastToken(a + w + b) == w
    decreases |a|
  {
    var s := a + w + b;
    assert s[|a|] == w[0];
    if a == [] {
      assert s == w + b;
      TokensOfWord(w, b);
    } else if IsSpace(a[0]) {
      assert s[1..] == a[1..] + w + b;
      LastTokenCharacterized(a[1..], w, b);
    } else {
      var n := WordLength(s);
      NoSpaceTake(s, n);
      assert s[|a| - 1] == a[|a| - 1];
      assert n < |a|;
      assert s[n..] == a[n..] + w + b;
      LastTokenCharacterized(a[n..], w, b);
    }
  }

  /** `s.lstrip()`. */
  function StripStart(s: string): (r: string)
    ensures |r| <= |s| && r == s[|s| - |r|..]
    ensures AllSpace(s[..|s| - |r|])
    ensures r == [] || !IsSpace(r[0])
    decreases |s|
  {
    if s != [] && IsSpace(s[0]) then
      var r := StripStart(s[1..]);
      assert s[..|s| - |r|] == [s[0]] + s[1..][..|s| - 1 - |r|];
      r
    else s
  }

  /** `s.rstrip()`. */
  function StripEnd(s: string): (r: string)
    ensures |r| <= |s| && r == s[..|r|]
    ensures AllSpace(s[|r|..])
    ensures r == [] || !IsSpace(r[|r| - 1])
    decreases |s|
  {
    if s != [] && IsSpace(s[|s| - 1]) then
      var r := StripEnd(s[..|s| - 1]);
      assert s[|r|..] == s[..|s| - 1][|r|..] + [s[|s| - 1]];
      r
    else s
  }

  /** `s.strip()`: no whitespace is left at either end, and what is left is a
   *  piece of `s`. */
  function Strip(s: string): (r: string)
    ensures r == [] || (!IsSpace(r[0]) && !IsSpace(r[|r| - 1]))
    ensures Contains(s, r)
  {
    var t := StripStart(s);
    var r := StripEnd(t);
    assert r <= s[|s| - |t|..];
    r
  }

  /** Leading whitespace is all that `lstrip` removes. */
  lemma {:induction false} StripStartPrefix(a: string, t: string)
    requires AllSpace(a)
    requires t == [] || !IsSpace(t[0])
    ensures StripStart(a + t) == t
    decreases |a|
  {
    if a != [] {
      assert (a + t)[1..] == a[1..] + t;
      StripStartPrefix(a[1..], t);
    } else {
      assert a + t == t;
    }
  }

  /** Trailing whitespace is all that `rstrip` removes. */
  lemma {:induction false} StripEndSuffix(t: string, b: string)
    requires AllSpace(b)
    requires t == [] || !IsSpace(t[|t| - 1])
    ensures StripEnd(t + b) == t
    decreases |b|
  {
    if b != [] {
      assert (t + b)[..|t + b| - 1] == t + b[..|b| - 1];
      StripEndSuffix(t, b[..|b| - 1]);
    } else {
      assert t + b == t;
    }
  }

  /** Removing whitespace from both ends of `a + r + b` gives exactly `r`,
   *  whenever `a` and `b` are whitespace and `r` is not bounded by it. */
  lemma {:induction false} StripUnique(a: string, r: string, b: string)
    requires AllSpace(a) && AllSpace(b)
    requires r == [] || (!IsSpace(r[0]) && !IsSpace(r[|r| - 1]))
    ensures Strip(a + r + b) == r
  {
    if r == [] {
      assert AllSpace(a + r + b);
      StripStartPrefix(a + r + b, []);
      assert a + r + b + [] == a + r + b;
      assert StripEnd([]) == [];
    } else {
      assert a + r + b == a + (r + b);
      StripStartPrefix(a, r + b);
      StripEndSuffix(r, b);
    }
  }
}
