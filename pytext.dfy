/** The Python `str` operations the backend relies on (`strip`, `lower`, `in`,
    `replace`, `split`, `join`), stated over ASCII text.  Characters outside
    ASCII are never whitespace, never line breaks and are left alone by `Lower`. */
module PyText {

  /** The ASCII characters for which Python's `str.isspace()` holds:
      tab to carriage return, the four separators 0x1c to 0x1f, and space. */
  const Whitespace: set<char> :=
    set c: char | '\t' <= c <= ' ' && (c <= '\r' || '\U{1c}' <= c)

  /** The ASCII characters at which Python's `str.splitlines()` breaks a line:
      line feed to carriage return and the separators 0x1c to 0x1e. */
  const LineBreaks: set<char> :=
    set c: char | '\n' <= c <= '\U{1e}' && (c <= '\r' || '\U{1c}' <= c)

  /** The whitespace class written out: tab, line feed, vertical tab, form
      feed, carriage return, the separators 0x1c to 0x1f, and space. */
  lemma WhitespaceChars()
    ensures Whitespace == {'\t', '\n', '\U{0b}', '\U{0c}', '\r', '\U{1c}', '\U{1d}', '\U{1e}', '\U{1f}', ' '}
  {
  }

  /** The line-break class written out: line feed, vertical tab, form feed,
      carriage return and the separators 0x1c to 0x1e; 0x1f and space are
      whitespace but do not break lines. */
  lemma LineBreakChars()
    ensures LineBreaks == {'\n', '\U{0b}', '\U{0c}', '\r', '\U{1c}', '\U{1d}', '\U{1e}'}
    ensures LineBreaks <= Whitespace && '\U{1f}' !in LineBreaks && ' ' !in LineBreaks
  {
  }

  /** Python's built-in `min` and `max` on two integers. */
  function Min(a: int, b: int): int { if a <= b then a else b }
  function Max(a: int, b: int): int { if a >= b then a else b }

  predicate IsBlank(s: string)
  {
    forall i :: 0 <= i < |s| ==> s[i] in Whitespace
  }

  /** No character of `s` is in `cs`. */
  predicate Avoids(s: string, cs: set<char>)
  {
    forall i :: 0 <= i < |s| ==> s[i] !in cs
  }

  /** Drops the longest prefix made of characters in `cs`. */
  function TrimStart(s: string, cs: set<char>): (r: string)
    ensures |r| <= |s| && r == s[|s| - |r|..]
    ensures r != [] ==> r[0] !in cs
    ensures forall i :: 0 <= i < |s| - |r| ==> s[i] in cs
  {
    if s != [] && s[0] in cs then TrimStart(s[1..], cs) else s
  }

  /** Drops the longest suffix made of characters in `cs`. */
  function TrimEnd(s: string, cs: set<char>): (r: string)
    ensures |r| <= |s| && r == s[..|r|]
    ensures r != [] ==> r[|r| - 1] !in cs
    ensures forall i :: |r| <= i < |s| ==> s[i] in cs
  {
    if s != [] && s[|s| - 1] in cs then TrimEnd(s[..|s| - 1], cs) else s
  }

  /** Every character of a slice is a character of the whole. */
  lemma SliceChars(s: string, i: int, j: int)
    requires 0 <= i <= j <= |s|
    ensures forall c :: c in s[i..j] ==> c in s
  {
    forall c | c in s[i..j]
      ensures c in s
    {
      var k :| 0 <= k < j - i && s[i..j][k] == c;
      assert s[i + k] == c;
    }
  }

  /** Python's `s.strip(chars)`: a contiguous piece of `s` that neither starts
      nor ends with a character of `cs`, everything cut off being in `cs`. */
  function StripChars(s: string, cs: set<char>): (r: string)
    ensures CutFrom(r, s, cs)
    ensures r != [] ==> r[0] !in cs && r[|r| - 1] !in cs
    ensures r == [] <==> forall i :: 0 <= i < |s| ==> s[i] in cs
    ensures forall c :: c in r ==> c in s
  {
    var t := TrimStart(s, cs);
    var r := TrimEnd(t, cs);
    SliceChars(s, |s| - |t|, |s| - |t| + |r|);
    assert r == s[|s| - |t|..|s| - |t| + |r|];
    assert SliceAt(r, s, cs, |s| - |t|);
    r
  }

  /** `r` is a contiguous piece of `s`, and every character of `s` before or
      after that piece is in `cs`. */
  predicate CutFrom(r: string, s: string, cs: set<char>)
  {
    exists i | 0 <= i <= |s| - |r| :: SliceAt(r, s, cs, i)
  }

  /** `r` is the piece of `s` starting at index `i`, everything around it in `cs`. */
  predicate SliceAt(r: string, s: string, cs: set<char>, i: int)
  {
    0 <= i <= |s| - |r| && r == s[i..i + |r|] &&
    (forall k :: 0 <= k < i ==> s[k] in cs) &&
    (forall k :: i + |r| <= k < |s| ==> s[k] in cs)
  }

  /** Python's `s.strip()` over ASCII whitespace. */
  function Strip(s: string): (r: string)
    ensures CutFrom(r, s, Whitespace)
    ensures r == [] <==> IsBlank(s)
    ensures r != [] ==> r[0] !in Whitespace && r[|r| - 1] !in Whitespace
    ensures forall c :: c in r ==> c in s
  {
    StripChars(s, Whitespace)
  }

  /** Stripping adds no character. */
  lemma StripAvoids(s: string, cs: set<char>)
    requires Avoids(s, cs)
    ensures Avoids(Strip(s), cs)
  {
    var r := Strip(s);
    forall i | 0 <= i < |r|
      ensures r[i] !in cs
    {
      assert r[i] in r;
    }
  }

  /** Stripping twice strips nothing more. */
  lemma StripIdempotent(s: string)
    ensures Strip(Strip(s)) == Strip(s)
  {
    var r := Strip(s);
    if r != [] {
      assert TrimStart(r, Whitespace) == r;
      assert TrimEnd(r, Whitespace) == r;
    }
  }

  /** A string whose two ends are not whitespace is its own strip. */
  lemma StripOfTrimmed(s: string)
    requires s != [] && s[0] !in Whitespace && s[|s| - 1] !in Whitespace
    ensures Strip(s) == s
  {
    assert TrimStart(s, Whitespace) == s;
    assert TrimEnd(s, Whitespace) == s;
  }

  /** Stripping `cs` from a text padded in front with characters of `cs`
      gives back the unpadded text when its own ends are not in `cs`. */
  lemma StripCharsOfPadded(pad: string, s: string, cs: set<char>)
    requires forall i :: 0 <= i < |pad| ==> pad[i] in cs
    requires s != [] && s[0] !in cs && s[|s| - 1] !in cs
    ensures StripChars(pad + s, cs) == s
  {
    TrimStartOfPadded(pad, s, cs);
    assert TrimEnd(s, cs) == s;
  }

  lemma {:induction false} TrimStartOfPadded(pad: string, s: string, cs: set<char>)
    requires forall i :: 0 <= i < |pad| ==> pad[i] in cs
    requires s != [] && s[0] !in cs
    ensures TrimStart(pad + s, cs) == s
  {
    if pad != [] {
      assert (pad + s)[1..] == pad[1..] + s;
      TrimStartOfPadded(pad[1..], s, cs);
    } else {
      assert pad + s == s;
    }
  }

  function LowerChar(c: char): (d: char)
  {
    if 'A' <= c <= 'Z' then (c as int + 32) as char else c
  }

  /** Python's `s.lower()` on ASCII letters. */
  function Lower(s: string): (r: string)
    ensures |r| == |s|
    ensures forall i :: 0 <= i < |s| ==> r[i] == LowerChar(s[i])
    ensures forall i :: 0 <= i < |r| ==> !('A' <= r[i] <= 'Z')
  {
    seq(|s|, i requires 0 <= i < |s| => LowerChar(s[i]))
  }

  /** `sub` occurs in `s` starting at index `i`. */
  predicate OccursAt(s: string, sub: string, i: int)
  {
    0 <= i && i + |sub| <= |s| && s[i..i + |sub|] == sub
  }

  /** Python's `sub in s`. */
  predicate Contains(s: string, sub: string)
  {
    exists i | 0 <= i <= |s| - |sub| :: OccursAt(s, sub, i)
  }

  /** Some key occurs in `s`, as a substring. */
  predicate ContainsAny(s: string, keys: seq<string>)
  {
    exists k :: k in keys && Contains(s, k)
  }

  /** Python's `s.replace(old, new)` for one-character `old` and `new`. */
  function ReplaceChar(s: string, from: char, to: char): (r: string)
    requires from != to
    ensures |r| == |s|
    ensures from !in r
    ensures forall i :: 0 <= i < |s| && s[i] == from ==> r[i] == to
    ensures forall i :: 0 <= i < |s| && s[i] != from ==> r[i] == s[i]
    ensures forall c :: c in r ==> c in s || c == to
  {
    seq(|s|, i requires 0 <= i < |s| => if s[i] == from then to else s[i])
  }

  /** A text made of characters of a text that avoids `cs` avoids `cs` too. */
  lemma CharsAvoid(p: string, s: string, cs: set<char>)
    requires forall c :: c in p ==> c in s
    requires Avoids(s, cs)
    ensures Avoids(p, cs)
  {
    forall i | 0 <= i < |p|
      ensures p[i] !in cs
    {
      assert p[i] in p;
      var j :| 0 <= j < |s| && s[j] == p[i];
    }
  }

  /** Replacing a character that does not occur changes nothing. */
  lemma ReplaceAbsent(s: string, from: char, to: char)
    requires from != to && from !in s
    ensures ReplaceChar(s, from, to) == s
  {
    forall i | 0 <= i < |s|
      ensures s[i] != from
    {
      assert s[i] in s;
    }
  }

  /** Python's `s.split(sep)` for a one-character separator, generalised to a
      set of separator characters (each occurrence of one of them cuts). */
  function Split(s: string, seps: set<char>): (r: seq<string>)
    ensures |r| >= 1
    ensures forall p, c :: p in r && c in p ==> c in s && c !in seps
  {
    if s == [] then [[]]
    else
      var rest := Split(s[1..], seps);
      if s[0] in seps then [[]] + rest
      else [[s[0]] + rest[0]] + rest[1..]
  }

  /** No piece of a split holds a separator. */
  lemma SplitPiecesAvoid(s: string, seps: set<char>)
    ensures forall j :: 0 <= j < |Split(s, seps)| ==> Avoids(Split(s, seps)[j], seps)
  {
    var r := Split(s, seps);
    forall j, i | 0 <= j < |r| && 0 <= i < |r[j]|
      ensures r[j][i] !in seps
    {
      assert r[j] in r && r[j][i] in r[j];
    }
  }

  /** Python's `sep.join(parts)`. */
  function Join(parts: seq<string>, sep: string): string
  {
    if |parts| == 0 then []
    else if |parts| == 1 then parts[0]
    else parts[0] + sep + Join(parts[1..], sep)
  }

  /** Joining the pieces of a split puts back exactly the text that was split. */
  lemma {:induction false} JoinSplit(s: string, c: char)
    ensures Join(Split(s, {c}), [c]) == s
  {
    if s != [] {
      var rest := Split(s[1..], {c});
      JoinSplit(s[1..], c);
      if s[0] != c && |rest| > 1 {
        assert Join(rest, [c]) == rest[0] + [c] + Join(rest[1..], [c]);
      }
    }
  }

  /** A text without a separator splits into itself alone. */
  lemma {:induction false} SplitWithoutSeparator(s: string, seps: set<char>)
    requires forall i :: 0 <= i < |s| ==> s[i] !in seps
    ensures Split(s, seps) == [s]
  {
    if s != [] {
      SplitWithoutSeparator(s[1..], seps);
      assert [s[0]] + s[1..] == s;
    }
  }

  /** Splitting at the first separator: what precedes it is the first piece. */
  lemma {:induction false} SplitAtFirst(p: string, c: char, t: string, seps: set<char>)
    requires c in seps
    requires forall i :: 0 <= i < |p| ==> p[i] !in seps
    ensures Split(p + [c] + t, seps) == [p] + Split(t, seps)
  {
    if p == [] {
      assert p + [c] + t == [c] + t;
      assert ([c] + t)[1..] == t;
    } else {
      assert (p + [c] + t)[1..] == p[1..] + [c] + t;
      SplitAtFirst(p[1..], c, t, seps);
      assert [p[0]] + p[1..] == p;
    }
  }

  /** Splitting a join of separator-free pieces gives the pieces back. */
  lemma {:induction false} SplitJoin(parts: seq<string>, c: char, seps: set<char>)
    requires |parts| >= 1 && c in seps
    requires forall k, i :: 0 <= k < |parts| && 0 <= i < |parts[k]| ==> parts[k][i] !in seps
    ensures Split(Join(parts, [c]), seps) == parts
  {
    if |parts| == 1 {
      SplitWithoutSeparator(parts[0], seps);
    } else {
      SplitJoin(parts[1..], c, seps);
      SplitAtFirst(parts[0], c, Join(parts[1..], [c]), seps);
      assert [parts[0]] + parts[1..] == parts;
    }
  }
}
