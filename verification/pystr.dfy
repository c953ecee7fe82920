/**
  The Python string methods the 3AC generators and the semantic analysers rely
  on: str.strip(), str.split(sep) with an explicit separator, str.upper() and
  str.startswith().
*/
module PyStr {
  import opened Wrappers
  import opened Chars

  /** sep occurs in s at index k. */
  predicate OccursAt(s: string, sep: string, k: int) {
    0 <= k && k + |sep| <= |s| && s[k..k + |sep|] == sep
  }

  predicate Contains(s: string, sep: string) {
    exists k | 0 <= k <= |s| - |sep| :: OccursAt(s, sep, k)
  }

  /** The index of the first occurrence of sep in s at or after i (str.find). */
  function FindFrom(s: string, sep: string, i: nat): (r: Option<nat>)
    requires |sep| > 0 && i <= |s|
    ensures r.Some? ==> i <= r.value && OccursAt(s, sep, r.value)
    ensures r.Some? ==> forall k | i <= k < r.value :: !OccursAt(s, sep, k)
    ensures r.None? ==> forall k | i <= k :: !OccursAt(s, sep, k)
    decreases |s| - i
  {
    if i + |sep| > |s| then None
    else if s[i..i + |sep|] == sep then Some(i)
    else FindFrom(s, sep, i + 1)
  }

  function Find(s: string, sep: string): (r: Option<nat>)
    requires |sep| > 0
  {
    FindFrom(s, sep, 0)
  }

  /** An occurrence with no earlier occurrence is the one Find reports. */
  lemma FindFirst(s: string, sep: string, k: nat)
    requires |sep| > 0 && OccursAt(s, sep, k)
    requires forall j | 0 <= j < k :: !OccursAt(s, sep, j)
    ensures Find(s, sep) == Some(k)
  {
  }

  /** str.split(sep) for a non-empty separator: the pieces between the occurrences, left to right. */
  function Split(s: string, sep: string): (parts: seq<string>)
    requires |sep| > 0
    ensures |parts| >= 1
    ensures Find(s, sep).None? <==> parts == [s]
    decreases |s|
  {
    match Find(s, sep)
    case None => [s]
    case Some(k) => [s[..k]] + Split(s[k + |sep|..], sep)
  }

  /** "sep".join(parts). */
  function Join(parts: seq<string>, sep: string): string
    requires |parts| >= 1
    decreases |parts|
  {
    if |parts| == 1 then parts[0] else parts[0] + sep + Join(parts[1..], sep)
  }

  /** The text before the first occurrence holds no occurrence. */
  lemma FindPrefix(s: string, sep: string, k: nat)
    requires |sep| > 0 && Find(s, sep) == Some(k)
    ensures !Contains(s[..k], sep)
    ensures s == s[..k] + sep + s[k + |sep|..]
  {
    var first := s[..k];
    forall j | 0 <= j <= |first| - |sep|
      ensures !OccursAt(first, sep, j)
    {
      assert !OccursAt(s, sep, j);
      assert first[j..j + |sep|] == s[j..j + |sep|];
    }
    assert s[k..k + |sep|] == sep;
  }

  /** split is undone by join, and no part it yields contains the separator. */
  lemma {:induction false} SplitJoin(s: string, sep: string)
    requires |sep| > 0
    ensures Join(Split(s, sep), sep) == s
    ensures forall k | 0 <= k < |Split(s, sep)| :: !Contains(Split(s, sep)[k], sep)
    decreases |s|
  {
    match Find(s, sep)
    case None =>
      assert Split(s, sep) == [s];
    case Some(k) =>
      var rest := s[k + |sep|..];
      SplitJoin(rest, sep);
      FindPrefix(s, sep, k);
      var parts := Split(s, sep);
      var tail := Split(rest, sep);
      assert parts == [s[..k]] + tail;
      assert parts[1..] == tail;
      assert forall i | 1 <= i < |parts| :: parts[i] == tail[i - 1];
  }

  /**
    join is undone by split for a two-character separator whose characters
    differ, when no part contains it.
  */
  lemma {:induction false} JoinSplit(parts: seq<string>, sep: string)
    requires |parts| >= 1 && |sep| == 2 && sep[0] != sep[1]
    requires forall k | 0 <= k < |parts| :: !Contains(parts[k], sep)
    ensures Split(Join(parts, sep), sep) == parts
    decreases |parts|
  {
    if |parts| == 1 {
      SplitAbsent(parts[0], sep);
    } else {
      JoinSplit(parts[1..], sep);
      SplitCons(parts[0], sep, Join(parts[1..], sep));
      assert parts == [parts[0]] + parts[1..];
    }
  }

  /**
    A piece free of a two-character separator whose characters differ splits off
    as the first part: no occurrence can straddle the piece and the separator.
  */
  lemma SplitCons(a: string, sep: string, b: string)
    requires |sep| == 2 && sep[0] != sep[1]
    requires !Contains(a, sep)
    ensures Split(a + sep + b, sep) == [a] + Split(b, sep)
  {
    var s := a + sep + b;
    assert OccursAt(s, sep, |a|) by {
      assert s[|a|..|a| + 2] == sep;
    }
    forall j | 0 <= j < |a|
      ensures !OccursAt(s, sep, j)
    {
      if j + 2 <= |a| {
        assert a[j..j + 2] == s[j..j + 2];
        assert !OccursAt(a, sep, j);
      } else {
        assert s[j..j + 2][1] == sep[0];
      }
    }
    FindFirst(s, sep, |a|);
    assert s[..|a|] == a;
    assert s[|a| + 2..] == b;
  }

  /** A string that does not contain the separator is split into itself alone. */
  lemma SplitAbsent(s: string, sep: string)
    requires |sep| > 0 && !Contains(s, sep)
    ensures Split(s, sep) == [s]
  {
  }

  /** With a one-character separator absent from a, a + [c] + b splits off a first. */
  lemma SplitCharCons(a: string, c: char, b: string)
    requires forall k | 0 <= k < |a| :: a[k] != c
    ensures Split(a + [c] + b, [c]) == [a] + Split(b, [c])
  {
    var s := a + [c] + b;
    assert OccursAt(s, [c], |a|) by {
      assert s[|a|..|a| + 1] == [c];
    }
    forall j | 0 <= j < |a|
      ensures !OccursAt(s, [c], j)
    {
      assert s[j..j + 1] == [a[j]];
    }
    FindFirst(s, [c], |a|);
    assert s[..|a|] == a;
    assert s[|a| + 1..] == b;
  }

  /** Number of occurrences of the character c in s. */
  function CountChar(s: string, c: char): (n: nat)
    ensures n <= |s|
  {
    if s == [] then 0 else (if s[0] == c then 1 else 0) + CountChar(s[1..], c)
  }

  /** A one-character separator splits s into one more part than it has occurrences. */
  lemma {:induction false} SplitCharCount(s: string, c: char)
    ensures |Split(s, [c])| == CountChar(s, c) + 1
    decreases |s|
  {
    match Find(s, [c])
    case None =>
      forall k | 0 <= k < |s|
        ensures s[k] != c
      {
        assert !OccursAt(s, [c], k);
        assert s[k..k + 1] == [s[k]];
      }
      CountCharAbsent(s, c);
    case Some(k) =>
      var rest := s[k + 1..];
      SplitCharCount(rest, c);
      forall j | 0 <= j < k
        ensures s[..k][j] != c
      {
        assert !OccursAt(s, [c], j);
        assert s[j..j + 1] == [s[j]];
      }
      CountCharAbsent(s[..k], c);
      assert s[k..k + 1] == [c];
      assert s == s[..k] + ([c] + rest);
      CountCharAppend(s[..k], [c] + rest, c);
  }

  lemma {:induction false} CountCharAbsent(s: string, c: char)
    requires forall k | 0 <= k < |s| :: s[k] != c
    ensures CountChar(s, c) == 0
    decreases |s|
  {
    if s != [] {
      CountCharAbsent(s[1..], c);
    }
  }

  lemma {:induction false} CountCharAppend(a: string, b: string, c: char)
    ensures CountChar(a + b, c) == CountChar(a, c) + CountChar(b, c)
    decreases |a|
  {
    if a != [] {
      var ab := a + b;
      assert ab[0] == a[0];
      assert ab[1..] == a[1..] + b;
      CountCharAppend(a[1..], b, c);
      assert CountChar(ab, c) == (if ab[0] == c then 1 else 0) + CountChar(ab[1..], c);
    } else {
      assert a + b == b;
    }
  }

  /** The string without its leading characters satisfying p. */
  function TrimLeft(s: string, p: char -> bool): (r: string)
    ensures |r| <= |s| && r == s[|s| - |r|..]
    ensures r != [] ==> !p(r[0])
    ensures forall k | 0 <= k < |s| - |r| :: p(s[k])
    decreases |s|
  {
    if s != [] && p(s[0]) then TrimLeft(s[1..], p) else s
  }

  /** The string without its trailing characters satisfying p. */
  function TrimRight(s: string, p: char -> bool): (r: string)
    ensures |r| <= |s| && r == s[..|r|]
    ensures r != [] ==> !p(r[|r| - 1])
    ensures forall k | |r| <= k < |s| :: p(s[k])
    decreases |s|
  {
    if s != [] && p(s[|s| - 1]) then TrimRight(s[..|s| - 1], p) else s
  }

  /**
    str.strip(): the middle of s, cut where it starts and ends with Python
    white space only, and neither end of the result is white space.
  */
  function Strip(s: string): (r: string)
    ensures r != [] ==> !IsPySpace(r[0]) && !IsPySpace(r[|r| - 1])
    ensures exists i, j | 0 <= i <= j <= |s| :: StrippedAt(s, r, i, j)
  {
    var left := TrimLeft(s, IsPySpace);
    var r := TrimRight(left, IsPySpace);
    TrimBoth(s, left, r);
    r
  }

  /** r is s[i..j], and everything of s outside that slice is Python white space. */
  predicate StrippedAt(s: string, r: string, i: int, j: int)
    requires 0 <= i <= j <= |s|
  {
    && r == s[i..j]
    && (forall k | 0 <= k < i :: IsPySpace(s[k]))
    && (forall k | j <= k < |s| :: IsPySpace(s[k]))
  }

  lemma TrimBoth(s: string, left: string, r: string)
    requires |left| <= |s| && left == s[|s| - |left|..]
    requires forall k | 0 <= k < |s| - |left| :: IsPySpace(s[k])
    requires |r| <= |left| && r == left[..|r|]
    requires forall k | |r| <= k < |left| :: IsPySpace(left[k])
    ensures StrippedAt(s, r, |s| - |left|, |s| - |left| + |r|)
  {
    var i := |s| - |left|;
    var j := i + |r|;
    assert r == s[i..j];
    forall k | j <= k < |s|
      ensures IsPySpace(s[k])
    {
      assert s[k] == left[k - i];
    }
  }

  /** A string with no whitespace at either end is its own strip. */
  lemma StripClean(s: string)
    requires s != [] ==> !IsPySpace(s[0]) && !IsPySpace(s[|s| - 1])
    ensures Strip(s) == s
  {
  }

  /** str.upper() on ASCII letters; every other character is kept. */
  function Upper(s: string): (r: string)
    ensures |r| == |s|
    ensures forall k | 0 <= k < |s| :: r[k] == (if 'a' <= s[k] <= 'z' then (s[k] as int - 32) as char else s[k])
  {
    seq(|s|, k requires 0 <= k < |s| => if 'a' <= s[k] <= 'z' then (s[k] as int - 32) as char else s[k])
  }

  function StartsWith(s: string, prefix: string): bool {
    |prefix| <= |s| && s[..|prefix|] == prefix
  }
}
