/** The JavaScript string operations the pages rely on, over `seq<char>`:
    `trim` (and the truthiness test `!s.trim()`), `includes`, `split` with a
    non-empty separator, indexing into the resulting array (which yields
    `undefined` past its end), and `pop`. */
module JsStrings {
  import opened Wrappers

  /** WhiteSpace and LineTerminator code points of ECMA-262, the set `trim` strips. */
  predicate IsWhiteSpace(c: char) {
    || c == ' ' || c == '\t' || c == '\n' || c == '\r'
    || c == '\U{B}' || c == '\U{C}' || c == '\U{A0}' || c == '\U{1680}'
    || ('\U{2000}' <= c <= '\U{200A}')
    || c == '\U{2028}' || c == '\U{2029}' || c == '\U{202F}' || c == '\U{205F}'
    || c == '\U{3000}' || c == '\U{FEFF}'
  }

  /** `s.trimStart()`: drops the leading white space and nothing else. */
  function TrimStart(s: string): (r: string)
    ensures |r| <= |s| && r == s[|s| - |r|..]
    ensures forall i :: 0 <= i < |s| - |r| ==> IsWhiteSpace(s[i])
    ensures |r| > 0 ==> !IsWhiteSpace(r[0])
    decreases |s|
  {
    if |s| > 0 && IsWhiteSpace(s[0]) then TrimStart(s[1..]) else s
  }

  /** `s.trimEnd()`: drops the trailing white space and nothing else. */
  function TrimEnd(s: string): (r: string)
    ensures |r| <= |s| && r == s[..|r|]
    ensures forall i :: |r| <= i < |s| ==> IsWhiteSpace(s[i])
    ensures |r| > 0 ==> !IsWhiteSpace(r[|r| - 1])
    decreases |s|
  {
    if |s| > 0 && IsWhiteSpace(s[|s| - 1]) then TrimEnd(s[..|s| - 1]) else s
  }

  /** `s.trim()`. */
  function Trim(s: string): string {
    TrimEnd(TrimStart(s))
  }

  /** JavaScript's `!s.trim()`, the trimmed string being the falsy empty
      string: every character is white space (`TrimIsEmptyIffBlank`). */
  predicate IsBlank(s: string) {
    forall i :: 0 <= i < |s| ==> IsWhiteSpace(s[i])
  }

  /** `s.trim()` is empty exactly when every character of `s` is white space. */
  lemma TrimIsEmptyIffBlank(s: string)
    ensures Trim(s) == "" <==> IsBlank(s)
  {
    var t := TrimStart(s);
    if Trim(s) == "" {
      assert |t| == 0;
    } else {
      var u := TrimEnd(t);
      assert |u| > 0 && u[0] == t[0] == s[|s| - |t|];
    }
  }

  /** `t` occurs in `s` starting at index `i`. */
  predicate OccursAt(s: string, t: string, i: nat) {
    i + |t| <= |s| && s[i..i + |t|] == t
  }

  function IndexFrom(s: string, t: string, k: nat): (r: Option<nat>)
    requires k <= |s|
    ensures r.Some? ==> k <= r.value && OccursAt(s, t, r.value)
    ensures r.Some? ==> forall j :: k <= j < r.value ==> !OccursAt(s, t, j)
    ensures r.None? ==> forall j :: k <= j <= |s| ==> !OccursAt(s, t, j)
    decreases |s| - k
  {
    if OccursAt(s, t, k) then Some(k)
    else if k == |s| then None
    else IndexFrom(s, t, k + 1)
  }

  /** `s.indexOf(t)`: the first index at which `t` occurs, if any. */
  function IndexOf(s: string, t: string): (r: Option<nat>)
    ensures r.Some? ==> OccursAt(s, t, r.value)
    ensures r.Some? ==> forall j :: 0 <= j < r.value ==> !OccursAt(s, t, j)
    ensures r.None? ==> forall j :: 0 <= j <= |s| ==> !OccursAt(s, t, j)
  {
    IndexFrom(s, t, 0)
  }

  /** `s.includes(t)`. */
  predicate Includes(s: string, t: string) {
    IndexOf(s, t).Some?
  }

  lemma IncludesIffOccurs(s: string, t: string)
    ensures Includes(s, t) <==> exists i: nat :: OccursAt(s, t, i)
  {
    if Includes(s, t) {
      assert OccursAt(s, t, IndexOf(s, t).value);
    }
  }

  /** No occurrence of `t` in `s` starts before index `n`. */
  predicate NoneStartsBefore(s: string, t: string, n: nat) {
    forall j :: 0 <= j < n ==> !OccursAt(s, t, j)
  }

  /** An occurrence with no earlier occurrence is the first one. */
  lemma FirstOccurrence(s: string, t: string, i: nat)
    requires OccursAt(s, t, i) && NoneStartsBefore(s, t, i)
    ensures IndexOf(s, t) == Some(i)
  {
  }

  /** No occurrence of `t` starts inside a prefix free of `t`'s first character. */
  lemma CharFreePrefix(y: string, rest: string, t: string)
    requires |t| > 0 && t[0] !in y
    ensures NoneStartsBefore(y + rest, t, |y|)
  {
    forall j | 0 <= j < |y|
      ensures !OccursAt(y + rest, t, j)
    {
      if j + |t| <= |y + rest| {
        assert (y + rest)[j..j + |t|][0] == y[j];
      }
    }
  }

  /** No occurrence of a two-character `t` starts inside a prefix that does
      not include `t`, unless one straddles the seam. */
  lemma PairFreePrefix(y: string, rest: string, t: string)
    requires |t| == 2 && !Includes(y, t)
    requires |y| > 0 && |rest| > 0 ==> !(y[|y| - 1] == t[0] && rest[0] == t[1])
    ensures NoneStartsBefore(y + rest, t, |y|)
  {
    var s := y + rest;
    forall j | 0 <= j < |y|
      ensures !OccursAt(s, t, j)
    {
      if j + 2 > |s| {
      } else if j + 2 <= |y| {
        assert s[j..j + 2] == y[j..j + 2];
        if s[j..j + 2] == t {
          assert OccursAt(y, t, j);
          IncludesIffOccurs(y, t);
        }
      } else {
        assert s[j..j + 2][0] == y[|y| - 1] && s[j..j + 2][1] == rest[0];
      }
    }
  }

  /** A two-character `t` found in neither half, nor across the seam, is not
      in the concatenation. */
  lemma PairAbsentFromJoin(a: string, b: string, t: string)
    requires |t| == 2 && !Includes(a, t) && !Includes(b, t)
    requires |a| > 0 && |b| > 0 ==> !(a[|a| - 1] == t[0] && b[0] == t[1])
    ensures !Includes(a + b, t)
  {
    PairFreePrefix(a, b, t);
    var s := a + b;
    forall j | |a| <= j
      ensures !OccursAt(s, t, j)
    {
      if j + 2 <= |s| && s[j..j + 2] == t {
        assert s[j..j + 2] == b[j - |a|..j - |a| + 2];
        assert OccursAt(b, t, j - |a|);
        IncludesIffOccurs(b, t);
      }
    }
    IncludesIffOccurs(s, t);
  }

  /** A string without the first character of `t` does not include `t`. */
  lemma FirstCharAbsent(s: string, t: string)
    requires |t| > 0
    requires t[0] !in s
    ensures !Includes(s, t)
  {
  }

  /** `t` occurs in `a + t + b` right after `a`. */
  lemma OccursAfterPrefix(a: string, t: string, b: string)
    ensures OccursAt(a + t + b, t, |a|)
  {
    assert (a + t + b)[|a|..|a| + |t|] == t;
  }

  /** Appending text keeps what a string includes. */
  lemma IncludesPrefix(a: string, b: string, t: string)
    requires Includes(a, t)
    ensures Includes(a + b, t)
  {
    var i := IndexOf(a, t).value;
    assert (a + b)[i..i + |t|] == a[i..i + |t|];
    assert OccursAt(a + b, t, i);
    IncludesIffOccurs(a + b, t);
  }

  /** Splitting `y + sep + z` at its first `sep`, when no occurrence of
      `sep` starts inside `y`, gives back `y` and `z`. */
  lemma FirstSeparator(y: string, sep: string, z: string)
    requires NoneStartsBefore(y + sep + z, sep, |y|)
    ensures Includes(y + sep + z, sep)
    ensures Before(y + sep + z, sep) == y
    ensures After(y + sep + z, sep) == z
  {
    var s := y + sep + z;
    OccursAfterPrefix(y, sep, z);
    FirstOccurrence(s, sep, |y|);
    assert s[|y| + |sep|..] == z;
  }

  /** A prefix inside which no occurrence of `sep` starts survives `Before`. */
  lemma BeforeKeepsPrefix(w: string, z: string, sep: string)
    requires NoneStartsBefore(w + z, sep, |w|)
    ensures |w| <= |Before(w + z, sep)| && Before(w + z, sep)[..|w|] == w
  {
    var s := w + z;
    match IndexOf(s, sep)
    case None =>
      assert s[..|w|] == w;
    case Some(i) =>
      assert s[..i][..|w|] == w;
  }

  /** The text before the first occurrence of `sep`, or all of `s` if there is none. */
  function Before(s: string, sep: string): string {
    match IndexOf(s, sep)
    case Some(i) => s[..i]
    case None => s
  }

  /** The text after the first occurrence of `sep`. */
  function After(s: string, sep: string): string
    requires Includes(s, sep)
  {
    var i := IndexOf(s, sep).value;
    s[i + |sep|..]
  }

  /** `pieces.join(sep)`. */
  function Join(pieces: seq<string>, sep: string): string
    requires |pieces| > 0
  {
    if |pieces| == 1 then pieces[0] else pieces[0] + sep + Join(pieces[1..], sep)
  }

  /** No occurrence of `sep` starts before `i` in `s` implies `sep` is not in `s[..i]`. */
  lemma PrefixFree(s: string, sep: string, i: nat)
    requires |sep| > 0 && i <= |s|
    requires forall j :: 0 <= j < i ==> !OccursAt(s, sep, j)
    ensures !Includes(s[..i], sep)
  {
    var p := s[..i];
    if Includes(p, sep) {
      var j := IndexOf(p, sep).value;
      assert p[j..j + |sep|] == s[j..j + |sep|];
      assert OccursAt(s, sep, j);
      assert false;
    }
  }

  /** `s.split(sep)` for a non-empty separator: the pieces between successive
      non-overlapping occurrences of `sep`, scanning from the left. */
  function Split(s: string, sep: string): (r: seq<string>)
    requires |sep| > 0
    ensures |r| > 0
    ensures Join(r, sep) == s
    ensures forall k :: 0 <= k < |r| ==> !Includes(r[k], sep)
    decreases |s|
  {
    match IndexOf(s, sep)
    case None =>
      PrefixFree(s, sep, |s|);
      assert s[..|s|] == s;
      [s]
    case Some(i) =>
      var rest := Split(s[i + |sep|..], sep);
      PrefixFree(s, sep, i);
      var r := [s[..i]] + rest;
      assert r[1..] == rest;
      assert s == s[..i] + sep + s[i + |sep|..];
      r
  }

  /** Splitting at a separator that does not occur gives the whole string back. */
  lemma SplitAbsent(s: string, sep: string)
    requires |sep| > 0 && !Includes(s, sep)
    ensures Split(s, sep) == [s]
  {
  }

  /** When `sep` occurs, `split(sep)` has a second element, and the first two
      elements are the text before the first `sep` and the text between the
      first and the second `sep` (or the end). */
  lemma SplitFirstTwo(s: string, sep: string)
    requires |sep| > 0 && Includes(s, sep)
    ensures |Split(s, sep)| >= 2
    ensures Split(s, sep)[0] == Before(s, sep)
    ensures Split(s, sep)[1] == Before(After(s, sep), sep)
  {
    var rest := After(s, sep);
    assert Split(s, sep)[1..] == Split(rest, sep);
    if Includes(rest, sep) {
      assert Split(rest, sep)[0] == Before(rest, sep);
    }
  }

  /** `split(sep)` yields more than one piece exactly when `sep` occurs, and
      otherwise the string itself. */
  lemma SplitPieces(s: string, sep: string)
    requires |sep| > 0
    ensures |Split(s, sep)| > 1 <==> Includes(s, sep)
    ensures !Includes(s, sep) ==> Split(s, sep) == [s]
  {
    if Includes(s, sep) {
      SplitFirstTwo(s, sep);
    }
  }

  /** The first element of `split(sep)` is always the text before the first `sep`. */
  lemma SplitFirst(s: string, sep: string)
    requires |sep| > 0
    ensures Split(s, sep)[0] == Before(s, sep)
  {
    if Includes(s, sep) {
      SplitFirstTwo(s, sep);
    }
  }

  /** `arr[k]` on a JavaScript array: `undefined` past its end. */
  function At(pieces: seq<string>, k: nat): Option<string> {
    if k < |pieces| then Some(pieces[k]) else None
  }

  /** `arr.pop()` on a non-empty array: its last element. */
  function Last(pieces: seq<string>): string
    requires |pieces| > 0
  {
    pieces[|pieces| - 1]
  }

  /** `s.endsWith(x)`. */
  predicate EndsWith(s: string, x: string) {
    |x| <= |s| && s[|s| - |x|..] == x
  }

  lemma EndsWithPrepend(a: string, t: string, x: string)
    requires EndsWith(t, x)
    ensures EndsWith(a + t, x)
  {
    assert (a + t)[|a + t| - |x|..] == t[|t| - |x|..];
  }

  /** A joined list ends with its last piece, preceded by `sep` when there are
      at least two pieces. */
  lemma JoinEndsWithLast(pieces: seq<string>, sep: string)
    requires |pieces| > 0
    ensures EndsWith(Join(pieces, sep), Last(pieces))
    ensures |pieces| > 1 ==> EndsWith(Join(pieces, sep), sep + Last(pieces))
  {
    if |pieces| > 1 {
      var l := Last(pieces);
      var tail := Join(pieces[1..], sep);
      assert Last(pieces[1..]) == l;
      assert Join(pieces, sep) == pieces[0] + sep + tail;
      if |pieces| == 2 {
        assert tail == l;
        assert pieces[0] + sep + tail == pieces[0] + (sep + l);
        EndsWithPrepend(pieces[0], sep + l, sep + l);
        EndsWithPrepend(pieces[0] + sep, l, l);
      } else {
        JoinEndsWithLast(pieces[1..], sep);
        EndsWithPrepend(pieces[0] + sep, tail, sep + l);
        EndsWithPrepend(pieces[0] + sep, tail, l);
      }
    }
  }

  /** A JavaScript string value that may be `undefined`, as a template literal
      `${v}` prints it. */
  function TemplateText(v: Option<string>): (r: string)
    ensures v.Some? ==> r == v.value
    ensures v.None? ==> r == "undefined"
  {
    v.GetOr("undefined")
  }
}
