/**
  The pieces both semantic_analyzer.py readers share: a token line is split at
  ", " into fields, and a field "Name: text" yields text through
  field.split(": ")[1].strip(), which raises IndexError when the field holds
  no ": ".
*/
module TokenLines {
  import opened Wrappers
  import opened Chars
  import opened PyStr

  /** The character c does not occur in s. */
  predicate Free(s: string, c: char) {
    forall k | 0 <= k < |s| :: s[k] != c
  }

  /** s has no Python white space at either end, so strip() keeps it whole. */
  predicate Trimmed(s: string) {
    s != [] ==> !IsPySpace(s[0]) && !IsPySpace(s[|s| - 1])
  }

  /**
    A value that the reader gives back unchanged: it holds neither ", " nor
    ": ", so neither split cuts it, and strip() keeps it whole.
  */
  predicate Plain(v: string) {
    !Contains(v, ", ") && !Contains(v, ": ") && Trimmed(v)
  }

  /**
    A value with no line break. main writes the line of such a token as one
    physical line, so readlines() hands it back whole; text mode reads '\r' as
    a line break as well as '\n'.
  */
  predicate OneLine(v: string) {
    Free(v, '\n') && Free(v, '\r')
  }

  /** No ASCII lower-case letter: upper() keeps the string. */
  predicate UpperCase(s: string) {
    forall k | 0 <= k < |s| :: !('a' <= s[k] <= 'z')
  }

  /** A type name as the lexers write it: upper-case ASCII letters and '_'. */
  predicate UpperWord(s: string) {
    s != [] && forall k | 0 <= k < |s| :: 'A' <= s[k] <= 'Z' || s[k] == '_'
  }

  /** A type name survives split(", "), split(": "), strip() and upper(). */
  lemma UpperWordPlain(s: string)
    requires UpperWord(s)
    ensures Free(s, ',') && Free(s, ':') && Plain(s) && UpperCase(s)
  {
    FreeNotContains(s, ", ");
    FreeNotContains(s, ": ");
  }

  /** field.split(": ")[1].strip(): None where Python raises IndexError. */
  function Field(field: string): (r: Option<string>)
    ensures r.None? <==> !Contains(field, ": ")
    ensures r.Some? ==> Trimmed(r.value)
  {
    var fs := Split(field, ": ");
    if |fs| < 2 then None else Some(Strip(fs[1]))
  }

  /** A string free of the separator's first character does not contain the separator. */
  lemma FreeNotContains(s: string, sep: string)
    requires |sep| > 0 && Free(s, sep[0])
    ensures !Contains(s, sep)
  {
    forall k | 0 <= k <= |s| - |sep|
      ensures !OccursAt(s, sep, k)
    {
      assert s[k..k + |sep|][0] == s[k];
    }
  }

  /** Free survives concatenation. */
  lemma FreeAppend(a: string, b: string, c: char)
    requires Free(a, c) && Free(b, c)
    ensures Free(a + b, c)
  {
    forall k | 0 <= k < |a + b|
      ensures (a + b)[k] != c
    {
      if k >= |a| {
        assert (a + b)[k] == b[k - |a|];
      }
    }
  }

  /** A string that starts with no character of sep[0] and goes on without sep does not contain sep. */
  lemma NotContainsAppend(a: string, b: string, sep: string)
    requires |sep| > 0 && Free(a, sep[0]) && !Contains(b, sep)
    ensures !Contains(a + b, sep)
  {
    var s := a + b;
    forall k | 0 <= k <= |s| - |sep|
      ensures !OccursAt(s, sep, k)
    {
      if k < |a| {
        assert s[k..k + |sep|][0] == a[k];
      } else {
        assert s[k..k + |sep|] == b[k - |a|..k - |a| + |sep|];
        assert !OccursAt(b, sep, k - |a|);
      }
    }
  }

  /** A string that contains the separator splits into at least two parts. */
  lemma SplitContains(s: string, sep: string)
    requires |sep| > 0 && Contains(s, sep)
    ensures |Split(s, sep)| >= 2
  {
    var k :| 0 <= k <= |s| - |sep| && OccursAt(s, sep, k);
    assert Find(s, sep).Some?;
  }

  /** "name: text" splits at ": " into name and text when the name holds no ':' and text holds no ": ". */
  lemma FieldSplit(name: string, text: string)
    requires Free(name, ':') && !Contains(text, ": ")
    ensures Split(name + ": " + text, ": ") == [name, text]
  {
    FreeNotContains(name, ": ");
    SplitCons(name, ": ", text);
    SplitAbsent(text, ": ");
  }

  /** The field "name: text" gives back text when the name holds no ':' and text holds no ": " and is trimmed. */
  lemma FieldOf(name: string, text: string)
    requires Free(name, ':') && !Contains(text, ": ") && Trimmed(text)
    ensures Field(name + ": " + text) == Some(text)
  {
    FieldSplit(name, text);
    StripClean(text);
  }

  /** A line written with its newline and read back by readlines() and strip() is the line itself. */
  lemma StripLine(s: string)
    requires s != [] && !IsPySpace(s[0]) && !IsPySpace(s[|s| - 1])
    ensures Strip(s + "\n") == s
  {
    var t := s + "\n";
    assert TrimLeft(t, IsPySpace) == t;
    assert t[..|t| - 1] == s;
    assert TrimRight(t, IsPySpace) == TrimRight(s, IsPySpace);
  }

  /** upper() keeps a string without lower-case ASCII letters. */
  lemma UpperKeeps(s: string)
    requires UpperCase(s)
    ensures Upper(s) == s
  {
  }

  /**
    A line "a, b" + rest whose first two fields hold no ", ": the first two
    parts of split(", ") are a and b.
  */
  lemma SplitFields(a: string, b: string, rest: string)
    requires !Contains(a, ", ") && !Contains(b, ", ")
    requires rest == [] || (|rest| >= 2 && rest[..2] == ", ")
    ensures var parts := Split(a + ", " + b + rest, ", ");
      |parts| >= 2 && parts[0] == a && parts[1] == b
    ensures rest == [] ==> Split(a + ", " + b + rest, ", ") == [a, b]
  {
    assert a + ", " + b + rest == a + ", " + (b + rest);
    SplitCons(a, ", ", b + rest);
    if rest == [] {
      assert b + rest == b;
      SplitAbsent(b, ", ");
    } else {
      assert b + rest == b + ", " + rest[2..];
      SplitCons(b, ", ", rest[2..]);
    }
  }

  /** With further fields after b, the split has at least three parts. */
  lemma SplitMore(a: string, b: string, rest: string)
    requires !Contains(a, ", ") && !Contains(b, ", ")
    requires |rest| >= 2 && rest[..2] == ", "
    ensures |Split(a + ", " + b + rest, ", ")| >= 3
  {
    assert a + ", " + b + rest == a + ", " + (b + ", " + rest[2..]);
    SplitCons(a, ", ", b + ", " + rest[2..]);
    SplitCons(b, ", ", rest[2..]);
  }

  /**
    A line "a, " + b + rest with a first field free of ", " and further
    fields after b has at least three parts, whatever b holds.
  */
  lemma SplitAtLeastThree(a: string, b: string, rest: string)
    requires !Contains(a, ", ")
    requires |rest| >= 2 && rest[..2] == ", "
    ensures |Split(a + ", " + (b + rest), ", ")| >= 3
  {
    var r := b + rest;
    SplitCons(a, ", ", r);
    assert OccursAt(r, ", ", |b|) by {
      assert r[|b|..|b| + 2] == rest[..2];
    }
    SplitContains(r, ", ");
  }

  /** A field "name: text" whose name holds no ',' and whose text holds no ", " holds no ", ". */
  lemma FieldNoSeparator(name: string, text: string)
    requires Free(name, ',') && !Contains(text, ", ")
    ensures !Contains(name + ": " + text, ", ")
  {
    FreeAppend(name, ": ", ',');
    NotContainsAppend(name + ": ", text, ", ");
  }

  /**
    A line "n1: v1, n2: v2" followed by nothing or by further fields: its
    first two fields give back v1 and v2, when the names hold no ',' or ':'
    and the values are plain.
  */
  lemma TwoFields(n1: string, v1: string, n2: string, v2: string, rest: string)
    requires Free(n1, ',') && Free(n1, ':') && Plain(v1)
    requires Free(n2, ',') && Free(n2, ':') && Plain(v2)
    requires rest == [] || (|rest| >= 2 && rest[..2] == ", ")
    ensures var parts := Split((n1 + ": " + v1) + ", " + (n2 + ": " + v2) + rest, ", ");
      && |parts| >= 2 && Field(parts[0]) == Some(v1) && Field(parts[1]) == Some(v2)
      && (rest == [] ==> |parts| == 2)
      && (rest != [] ==> |parts| >= 3)
  {
    var a, b := n1 + ": " + v1, n2 + ": " + v2;
    FieldNoSeparator(n1, v1);
    FieldNoSeparator(n2, v2);
    SplitFields(a, b, rest);
    if rest != [] {
      SplitMore(a, b, rest);
    }
    FieldOf(n1, v1);
    FieldOf(n2, v2);
  }
}
