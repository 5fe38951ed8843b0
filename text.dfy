/** Python string behaviour the tool layer relies on: the `in` substring
    test, `str.strip()` without arguments, and the way iterating over a text
    file cuts its contents into lines. */
module Text {

  /** The characters for which Python's `str.isspace()` holds, and which
      `str.strip()` removes from both ends: the ASCII controls U+0009 to
      U+000D and U+001C to U+001F, the space, U+0085, U+00A0, U+1680,
      U+2000 to U+200A, U+2028, U+2029, U+202F, U+205F and U+3000. */
  predicate IsSpace(c: char) {
    ('\t' <= c <= '\r') || ('\U{001C}' <= c <= ' ')
    || c == '\U{0085}' || c == '\U{00A0}' || c == '\U{1680}'
    || ('\U{2000}' <= c <= '\U{200A}')
    || c == '\U{2028}' || c == '\U{2029}' || c == '\U{202F}' || c == '\U{205F}' || c == '\U{3000}'
  }

  ghost predicate AllSpace(s: string) {
    forall i :: 0 <= i < |s| ==> IsSpace(s[i])
  }

  predicate StartsWith(s: string, p: string) {
    |p| <= |s| && s[..|p|] == p
  }

  /** `p` occurs in `s` starting at index `i`. */
  predicate OccursAt(s: string, p: string, i: int) {
    0 <= i <= |s| - |p| && s[i..i + |p|] == p
  }

  /** Python's `p in s`: `p` occurs in `s` as a contiguous substring. */
  function Contains(s: string, p: string): bool
    decreases |s|
  {
    if StartsWith(s, p) then true
    else if s == [] then false
    else Contains(s[1..], p)
  }

  /** `Contains` is the substring test: it holds exactly when the pattern
      occurs at some position. */
  lemma {:induction false} ContainsSpec(s: string, p: string)
    ensures Contains(s, p) <==> exists i :: OccursAt(s, p, i)
    decreases |s|
  {
    if StartsWith(s, p) {
      assert OccursAt(s, p, 0);
    } else if s != [] {
      ContainsSpec(s[1..], p);
      if Contains(s[1..], p) {
        var i :| OccursAt(s[1..], p, i);
        assert s[i + 1..i + 1 + |p|] == s[1..][i..i + |p|];
        assert OccursAt(s, p, i + 1);
      }
      if exists i :: OccursAt(s, p, i) {
        var i :| OccursAt(s, p, i);
        assert i != 0;
        assert s[1..][i - 1..i - 1 + |p|] == s[i..i + |p|];
        assert OccursAt(s[1..], p, i - 1);
      }
    }
  }

  /** Every string contains the empty string, so an empty pattern matches
      every line. */
  lemma EmptyPatternEverywhere(s: string)
    ensures Contains(s, [])
  {
    assert OccursAt(s, [], 0);
  }

  /** `s` with its leading whitespace removed. */
  function StripStart(s: string): string
    decreases |s|
  {
    if s != [] && IsSpace(s[0]) then StripStart(s[1..]) else s
  }

  /** `s` with its trailing whitespace removed. */
  function StripEnd(s: string): string
    decreases |s|
  {
    if s != [] && IsSpace(s[|s| - 1]) then StripEnd(s[..|s| - 1]) else s
  }

  /** Removing leading whitespace leaves a suffix of `s`, removes only
      whitespace, and stops at the first character that is not. */
  lemma {:induction false} StripStartSpec(s: string)
    ensures |StripStart(s)| <= |s| && StripStart(s) == s[|s| - |StripStart(s)|..]
    ensures AllSpace(s[..|s| - |StripStart(s)|])
    ensures StripStart(s) == [] || !IsSpace(StripStart(s)[0])
    decreases |s|
  {
    if s != [] && IsSpace(s[0]) {
      StripStartSpec(s[1..]);
      var r := StripStart(s[1..]);
      assert s[..|s| - |r|] == [s[0]] + s[1..][..|s[1..]| - |r|];
    }
  }

  /** Removing trailing whitespace leaves a prefix of `s`, removes only
      whitespace, and stops at the last character that is not. */
  lemma {:induction false} StripEndSpec(s: string)
    ensures |StripEnd(s)| <= |s| && StripEnd(s) == s[..|StripEnd(s)|]
    ensures AllSpace(s[|StripEnd(s)|..])
    ensures StripEnd(s) == [] || !IsSpace(StripEnd(s)[|StripEnd(s)| - 1])
    decreases |s|
  {
    if s != [] && IsSpace(s[|s| - 1]) {
      StripEndSpec(s[..|s| - 1]);
      var r := StripEnd(s[..|s| - 1]);
      assert s[|r|..] == s[..|s| - 1][|r|..] + [s[|s| - 1]];
    }
  }

  /** Python's `s.strip()`: the part of `s` between its leading and its
      trailing whitespace. */
  function Strip(s: string): string {
    StripEnd(StripStart(s))
  }

  /** Stripping removes only whitespace, and only from the two ends, and
      leaves no whitespace at either end. */
  lemma StripSpec(s: string)
    ensures |Strip(s)| <= |s|
    ensures exists a :: 0 <= a <= |s| - |Strip(s)| && Strip(s) == s[a..a + |Strip(s)|]
                        && AllSpace(s[..a]) && AllSpace(s[a + |Strip(s)|..])
    ensures Strip(s) == [] || (!IsSpace(Strip(s)[0]) && !IsSpace(Strip(s)[|Strip(s)| - 1]))
  {
    var t := StripStart(s);
    StripStartSpec(s);
    StripEndSpec(t);
    var r := StripEnd(t);
    var a := |s| - |t|;
    assert t == s[a..];
    assert r == s[a..a + |r|] by {
      assert r == t[..|r|];
    }
    assert AllSpace(s[a + |r|..]) by {
      assert s[a + |r|..] == t[|r|..];
    }
    assert AllSpace(s[..a]);
  }

  /** Stripping leaves a string alone when it neither starts nor ends with
      whitespace. */
  lemma StripTrimmed(s: string)
    requires s == [] || (!IsSpace(s[0]) && !IsSpace(s[|s| - 1]))
    ensures Strip(s) == s
  {
  }

  /** Stripping twice removes nothing more. */
  lemma StripIdempotent(s: string)
    ensures Strip(Strip(s)) == Strip(s)
  {
    StripSpec(s);
    StripTrimmed(Strip(s));
  }

  // ---------------------------------------------------------------------
  // Lines of a text file

  function Concat(ls: seq<string>): string {
    if ls == [] then [] else ls[0] + Concat(ls[1..])
  }

  /** A single line as a text-mode file iterator yields it: non-empty, and a
      line feed can only be its last character. */
  ghost predicate IsLine(l: string) {
    l != [] && forall j :: 0 <= j < |l| - 1 ==> l[j] != '\n'
  }

  /** Lines as they come out of a file: each one well-formed, and every
      line but the last ends with a line feed. */
  ghost predicate WellFormedLines(ls: seq<string>) {
    forall i :: 0 <= i < |ls| ==>
      IsLine(ls[i]) && (i < |ls| - 1 ==> ls[i][|ls[i]| - 1] == '\n')
  }

  /** The length of the first line of `t`, line feed included. */
  function LineEnd(t: string): (k: nat)
    requires t != []
    ensures 0 < k <= |t|
  {
    if t[0] == '\n' || |t| == 1 then 1 else 1 + LineEnd(t[1..])
  }

  /** The first line stops at the first line feed, or at the end. */
  lemma {:induction false} LineEndSpec(t: string)
    requires t != []
    ensures forall j :: 0 <= j < LineEnd(t) - 1 ==> t[j] != '\n'
    ensures LineEnd(t) == |t| || t[LineEnd(t) - 1] == '\n'
  {
    if !(t[0] == '\n' || |t| == 1) {
      LineEndSpec(t[1..]);
      forall j | 0 <= j < LineEnd(t) - 1 ensures t[j] != '\n' {
        if j > 0 {
          assert t[j] == t[1..][j - 1];
        }
      }
    }
  }

  /** The first line of `l + rest` is `l` when `l` is one line and is
      closed by a line feed or followed by nothing. */
  lemma {:induction false} LineEndOf(l: string, rest: string)
    requires IsLine(l)
    requires rest == [] || l[|l| - 1] == '\n'
    ensures LineEnd(l + rest) == |l|
  {
    if |l| > 1 {
      assert (l + rest)[0] == l[0] != '\n';
      assert (l + rest)[1..] == l[1..] + rest;
      LineEndOf(l[1..], rest);
    }
  }

  /** The lines that `for line in f` yields for a file holding `t`: each
      ends just after a line feed, except a last line without one. */
  function Lines(t: string): seq<string>
    decreases |t|
  {
    if t == [] then []
    else
      var k := LineEnd(t);
      [t[..k]] + Lines(t[k..])
  }

  /** Splitting loses nothing. */
  lemma {:induction false} LinesConcat(t: string)
    ensures Concat(Lines(t)) == t
    decreases |t|
  {
    if t != [] {
      var k := LineEnd(t);
      LinesConcat(t[k..]);
      var ls := Lines(t);
      assert ls[0] == t[..k] && ls[1..] == Lines(t[k..]);
      assert t == t[..k] + t[k..];
    }
  }

  /** Splitting yields well-formed lines. */
  lemma {:induction false} LinesWellFormed(t: string)
    ensures WellFormedLines(Lines(t))
    decreases |t|
  {
    if t != [] {
      var k := LineEnd(t);
      LineEndSpec(t);
      LinesWellFormed(t[k..]);
      var ls := Lines(t);
      assert ls[0] == t[..k] && ls[1..] == Lines(t[k..]);
      forall i | 0 <= i < |ls|
        ensures IsLine(ls[i]) && (i < |ls| - 1 ==> ls[i][|ls[i]| - 1] == '\n')
      {
        if i > 0 {
          assert ls[i] == Lines(t[k..])[i - 1];
        } else if i < |ls| - 1 {
          assert t[k..] != [];
        }
      }
    }
  }

  /** Splitting loses nothing and yields well-formed lines. */
  lemma LinesSpec(t: string)
    ensures Concat(Lines(t)) == t
    ensures WellFormedLines(Lines(t))
  {
    LinesConcat(t);
    LinesWellFormed(t);
  }

  /** Splitting is the inverse of joining: well-formed lines come back out
      of their concatenation unchanged. */
  lemma {:induction false} LinesOfConcat(ls: seq<string>)
    requires WellFormedLines(ls)
    ensures Lines(Concat(ls)) == ls
  {
    if ls != [] {
      var l := ls[0];
      var rest := ls[1..];
      var tail := Concat(rest);
      assert IsLine(l) && (rest != [] ==> l[|l| - 1] == '\n');
      assert WellFormedLines(rest) by {
        forall i | 0 <= i < |rest|
          ensures IsLine(rest[i]) && (i < |rest| - 1 ==> rest[i][|rest[i]| - 1] == '\n')
        {
          assert rest[i] == ls[i + 1];
        }
      }
      LinesOfConcat(rest);
      assert rest == [] ==> tail == [];
      LineEndOf(l, tail);
      var t := l + tail;
      assert Concat(ls) == t;
      assert t[..|l|] == l && t[|l|..] == tail;
      assert Lines(t) == [l] + Lines(tail);
      assert ls == [l] + rest;
    }
  }
}
