/** The Go `strings` operations the request authenticator uses: `TrimSpace`,
    `ToLower`, `Split` on a one-element separator and `SplitN(s, sep, 2)`.
    They are generic over the element type where the authenticator applies
    them both to header text (chars) and to a decoded payload (bytes). */
module GoStrings {

  /** `unicode.IsSpace`: the characters with Unicode's White_Space property. */
  predicate IsSpace(c: char) {
    || c == '\t' || c == '\n' || c == '\U{000B}' || c == '\U{000C}' || c == '\r' || c == ' '
    || c == '\U{0085}' || c == '\U{00A0}' || c == '\U{1680}'
    || ('\U{2000}' <= c <= '\U{200A}')
    || c == '\U{2028}' || c == '\U{2029}' || c == '\U{202F}' || c == '\U{205F}' || c == '\U{3000}'
  }

  /** Every element of `t` is white space. */
  predicate AllSpace(t: string) {
    forall k :: 0 <= k < |t| ==> IsSpace(t[k])
  }

  /** The suffix of `s` left after dropping its leading white space. */
  function TrimLeft(s: string): (r: string)
    ensures |r| <= |s| && r == s[|s| - |r|..]
    ensures AllSpace(s[..|s| - |r|])
    ensures r == [] || !IsSpace(r[0])
    decreases |s|
  {
    if s == [] || !IsSpace(s[0]) then s
    else
      var r := TrimLeft(s[1..]);
      SpaceCons(s, |s| - |r|);
      r
  }

  /** The prefix of `s` left after dropping its trailing white space. */
  function TrimRight(s: string): (r: string)
    ensures |r| <= |s| && r == s[..|r|]
    ensures AllSpace(s[|r|..])
    ensures r == [] || !IsSpace(r[|r| - 1])
    decreases |s|
  {
    if s == [] || !IsSpace(s[|s| - 1]) then s
    else
      var r := TrimRight(s[..|s| - 1]);
      SpaceSnoc(s, |r|);
      r
  }

  /** A white space head in front of an all-space run. */
  lemma SpaceCons(s: string, n: nat)
    requires 1 <= n <= |s| && IsSpace(s[0]) && AllSpace(s[1..][..n - 1])
    ensures AllSpace(s[..n])
  {
    forall k | 1 <= k < n
      ensures IsSpace(s[..n][k])
    {
      assert s[..n][k] == s[1..][..n - 1][k - 1];
    }
  }

  /** An all-space run followed by a white space last element. */
  lemma SpaceSnoc(s: string, n: nat)
    requires n < |s| && IsSpace(s[|s| - 1]) && AllSpace(s[..|s| - 1][n..])
    ensures AllSpace(s[n..])
  {
    forall k | 0 <= k < |s| - 1 - n
      ensures IsSpace(s[n..][k])
    {
      assert s[n..][k] == s[..|s| - 1][n..][k];
    }
  }

  /** `strings.TrimSpace`: `s` is the result with only white space before
      and after it (the leading part being what `TrimLeft` removes); the
      result is empty exactly when `s` is all white space, otherwise it
      starts and ends with a non-space character, and a string that already
      does so is returned unchanged. */
  function TrimSpace(s: string): (r: string)
    ensures var i := |s| - |TrimLeft(s)|;
            && i + |r| <= |s| && s == s[..i] + r + s[i + |r|..]
            && AllSpace(s[..i]) && AllSpace(s[i + |r|..])
    ensures r == [] <==> AllSpace(s)
    ensures r != [] ==> !IsSpace(r[0]) && !IsSpace(r[|r| - 1])
    ensures s != [] && !IsSpace(s[0]) && !IsSpace(s[|s| - 1]) ==> r == s
  {
    TrimBothEnds(s);
    TrimAllSpace(s);
    TrimTrimmed(s);
    TrimRight(TrimLeft(s))
  }

  /** Trimming gives nothing exactly when everything is white space. */
  lemma TrimAllSpace(s: string)
    ensures TrimRight(TrimLeft(s)) == [] <==> AllSpace(s)
  {
    var left := TrimLeft(s);
    var i := |s| - |left|;
    if TrimRight(left) == [] {
      assert left == [];
      assert s[..i] == s;
    }
  }

  /** A trimmed result has no white space at either end, and a string with
      none is its own trimmed result. */
  lemma TrimTrimmed(s: string)
    ensures var r := TrimRight(TrimLeft(s));
            r != [] ==> !IsSpace(r[0]) && !IsSpace(r[|r| - 1])
    ensures s != [] && !IsSpace(s[0]) && !IsSpace(s[|s| - 1]) ==> TrimRight(TrimLeft(s)) == s
  {
    var left := TrimLeft(s);
    var r := TrimRight(left);
    if r != [] {
      assert r[0] == left[0];
    }
  }

  /** Trimming the right of the left-trimmed string leaves a slice of `s`
      with white space only before and after it. */
  lemma TrimBothEnds(s: string)
    ensures var i, r := |s| - |TrimLeft(s)|, TrimRight(TrimLeft(s));
            && i + |r| <= |s| && s == s[..i] + r + s[i + |r|..]
            && AllSpace(s[..i]) && AllSpace(s[i + |r|..])
  {
    var left := TrimLeft(s);
    SliceParts(s, |s| - |left|, left, TrimRight(left));
  }

  /** A prefix `r` of the suffix `s[i..]` cuts `s` into three parts. */
  lemma SliceParts<T>(s: seq<T>, i: nat, suffix: seq<T>, r: seq<T>)
    requires i <= |s| && suffix == s[i..] && |r| <= |suffix| && r == suffix[..|r|]
    ensures i + |r| <= |s| && s == s[..i] + r + s[i + |r|..]
    ensures s[i + |r|..] == suffix[|r|..]
  {
    assert s == s[..i] + s[i..i + |r|] + s[i + |r|..];
  }

  /** `unicode.ToLower` on the characters whose lower case is an ASCII
      letter: the ASCII capitals, LATIN CAPITAL LETTER I WITH DOT ABOVE
      (lowered to `i`) and KELVIN SIGN (lowered to `k`). Every other
      character is kept; see the README for what that leaves out. */
  function LowerChar(c: char): (d: char)
    ensures 'A' <= c <= 'Z' ==> 'a' <= d <= 'z' && d as int == c as int + 32
    ensures c == '\U{0130}' ==> d == 'i'
    ensures c == '\U{212A}' ==> d == 'k'
    ensures !('A' <= c <= 'Z') && c != '\U{0130}' && c != '\U{212A}' ==> d == c
  {
    if 'A' <= c <= 'Z' then (c as int + 32) as char
    else if c == '\U{0130}' then 'i'
    else if c == '\U{212A}' then 'k'
    else c
  }

  /** `strings.ToLower`, character by character. */
  function ToLower(s: string): (r: string)
    ensures |r| == |s|
    ensures forall i :: 0 <= i < |s| ==> r[i] == LowerChar(s[i])
  {
    seq(|s|, i requires 0 <= i < |s| => LowerChar(s[i]))
  }

  /** The position of the first `x` in `s`, or `|s|` when there is none. */
  function IndexOf<T(==)>(s: seq<T>, x: T): (i: nat)
    ensures i <= |s|
    ensures i < |s| ==> s[i] == x
    ensures forall j :: 0 <= j < i ==> s[j] != x
    decreases |s|
  {
    if s == [] then 0
    else if s[0] == x then 0
    else 1 + IndexOf(s[1..], x)
  }

  /** `strings.Split(s, sep)` for a one-element separator: the pieces of `s`
      between the occurrences of `sep`. */
  function Split<T(==)>(s: seq<T>, sep: T): (parts: seq<seq<T>>)
    ensures |parts| >= 1
    decreases |s|
  {
    var i := IndexOf(s, sep);
    if i == |s| then [s] else [s[..i]] + Split(s[i + 1..], sep)
  }

  /** No piece of a split holds the separator, and there is more than one
      piece exactly when the separator occurs. */
  lemma {:induction false} SplitPieces<T>(s: seq<T>, sep: T)
    ensures forall k :: 0 <= k < |Split(s, sep)| ==> sep !in Split(s, sep)[k]
    ensures |Split(s, sep)| == 1 <==> sep !in s
    decreases |s|
  {
    var i := IndexOf(s, sep);
    if i < |s| {
      SplitPieces(s[i + 1..], sep);
      assert sep !in s[..i];
      var rest := Split(s[i + 1..], sep);
      assert Split(s, sep) == [s[..i]] + rest;
    }
  }

  /** `strings.Join(parts, sep)`, the inverse of `Split`. */
  function Join<T>(parts: seq<seq<T>>, sep: T): seq<T>
    requires |parts| >= 1
    decreases |parts|
  {
    if |parts| == 1 then parts[0] else parts[0] + [sep] + Join(parts[1..], sep)
  }

  /** Joining the pieces of a split gives back the original string. */
  lemma {:induction false} SplitThenJoin<T>(s: seq<T>, sep: T)
    ensures Join(Split(s, sep), sep) == s
    decreases |s|
  {
    if sep in s {
      var i := IndexOf(s, sep);
      var rest := Split(s[i + 1..], sep);
      assert Split(s, sep) == [s[..i]] + rest;
      JoinCons(s[..i], rest, sep);
      SplitThenJoin(s[i + 1..], sep);
      assert s == s[..i] + [sep] + s[i + 1..];
    }
  }

  lemma JoinCons<T>(p: seq<T>, rest: seq<seq<T>>, sep: T)
    requires |rest| >= 1
    ensures Join([p] + rest, sep) == p + [sep] + Join(rest, sep)
  {
    assert ([p] + rest)[1..] == rest;
  }

  /** Splitting a join of separator-free pieces gives back the pieces. */
  lemma {:induction false} JoinThenSplit<T>(parts: seq<seq<T>>, sep: T)
    requires |parts| >= 1
    requires forall k :: 0 <= k < |parts| ==> sep !in parts[k]
    ensures Split(Join(parts, sep), sep) == parts
    decreases |parts|
  {
    var s := Join(parts, sep);
    if |parts| == 1 {
    } else {
      var tail := Join(parts[1..], sep);
      assert s == parts[0] + [sep] + tail;
      IndexOfPrefix(parts[0], sep, tail);
      assert s[|parts[0]| + 1..] == tail;
      assert s[..|parts[0]|] == parts[0];
      JoinThenSplit(parts[1..], sep);
    }
  }

  /** A separator right after a separator-free prefix is the first one. */
  lemma {:induction false} IndexOfPrefix<T>(p: seq<T>, sep: T, rest: seq<T>)
    requires sep !in p
    ensures IndexOf(p + [sep] + rest, sep) == |p|
  {
    var s := p + [sep] + rest;
    assert s[|p|] == sep;
  }

  /** `strings.SplitN(s, sep, 2)`: `[s]` when `sep` does not occur, otherwise
      the part before the first `sep` and everything after it. */
  function SplitFirst<T(==)>(s: seq<T>, sep: T): (parts: seq<seq<T>>)
    ensures |parts| == 1 || |parts| == 2
    ensures |parts| == 2 <==> sep in s
    ensures |parts| == 1 ==> parts[0] == s
    ensures |parts| == 2 ==> sep !in parts[0] && parts[0] + [sep] + parts[1] == s
  {
    var i := IndexOf(s, sep);
    if i == |s| then [s]
    else
      assert s == s[..i] + [sep] + s[i + 1..];
      [s[..i], s[i + 1..]]
  }

  /** Splitting at the first separator after a separator-free prefix gives
      that prefix and the whole rest, separators included. */
  lemma SplitFirstAt<T>(p: seq<T>, sep: T, rest: seq<T>)
    requires sep !in p
    ensures SplitFirst(p + [sep] + rest, sep) == [p, rest]
  {
    var s := p + [sep] + rest;
    IndexOfPrefix(p, sep, rest);
    assert s[..|p|] == p;
    assert s[|p| + 1..] == rest;
  }
}
