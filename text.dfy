/** The JavaScript string operations the route relies on: `trim`, `toLowerCase`,
    `includes`, `Array.prototype.some` over a keyword list, `split(sep)[0]` and `slice(0, n)`. */
module Text {
  import opened Wrappers
  import opened Sequences

  /** The code points `String.prototype.trim` removes: ECMAScript WhiteSpace
      (tab, vertical tab, form feed, space, no-break space, byte order mark and
      the space separators U+1680, U+2000 to U+200A, U+202F, U+205F, U+3000) and
      LineTerminator (LF, CR, LS, PS). */
  const Spaces: set<char> := {
    '\t', '\n', '\U{B}', '\U{C}', '\r', ' ', '\U{A0}', '\U{1680}',
    '\U{2000}', '\U{2001}', '\U{2002}', '\U{2003}', '\U{2004}', '\U{2005}',
    '\U{2006}', '\U{2007}', '\U{2008}', '\U{2009}', '\U{200A}',
    '\U{2028}', '\U{2029}', '\U{202F}', '\U{205F}', '\U{3000}', '\U{FEFF}'
  }

  predicate IsSpace(c: char) {
    c in Spaces
  }

  /** `s` with its leading white space removed. */
  function TrimStart(s: string): (r: string)
    ensures |r| <= |s|
    ensures r == [] || !IsSpace(r[0])
  {
    if s != [] && IsSpace(s[0]) then TrimStart(s[1..]) else s
  }

  /** `TrimStart` keeps a suffix. */
  lemma {:induction false} TrimStartSuffix(s: string)
    ensures TrimStart(s) == s[|s| - |TrimStart(s)|..]
  {
    if s != [] && IsSpace(s[0]) {
      TrimStartSuffix(s[1..]);
      assert s[1..][|s| - 1 - |TrimStart(s)|..] == s[|s| - |TrimStart(s)|..];
    }
  }

  /** Everything `TrimStart` removes is white space. */
  lemma {:induction false} TrimStartSpaces(s: string)
    ensures forall k :: 0 <= k < |s| - |TrimStart(s)| ==> IsSpace(s[k])
  {
    if s != [] && IsSpace(s[0]) {
      var rest := s[1..];
      TrimStartSpaces(rest);
      forall k | 1 <= k < |s| - |TrimStart(s)|
        ensures IsSpace(s[k])
      {
        assert s[k] == rest[k - 1];
      }
    }
  }

  /** `s` with its trailing white space removed. */
  function TrimEnd(s: string): (r: string)
    ensures |r| <= |s|
    ensures r == [] || !IsSpace(r[|r| - 1])
  {
    if s != [] && IsSpace(s[|s| - 1]) then TrimEnd(s[..|s| - 1]) else s
  }

  /** `TrimEnd` keeps a prefix. */
  lemma {:induction false} TrimEndPrefix(s: string)
    ensures TrimEnd(s) == s[..|TrimEnd(s)|]
  {
    if s != [] && IsSpace(s[|s| - 1]) {
      TrimEndPrefix(s[..|s| - 1]);
      assert s[..|s| - 1][..|TrimEnd(s)|] == s[..|TrimEnd(s)|];
    }
  }

  /** Everything `TrimEnd` removes is white space. */
  lemma {:induction false} TrimEndSpaces(s: string)
    ensures forall k :: |TrimEnd(s)| <= k < |s| ==> IsSpace(s[k])
  {
    if s != [] && IsSpace(s[|s| - 1]) {
      var front := s[..|s| - 1];
      TrimEndSpaces(front);
      forall k | |TrimEnd(s)| <= k < |s| - 1
        ensures IsSpace(s[k])
      {
        assert s[k] == front[k];
      }
    }
  }

  /** `s.trim()`. */
  function Trim(s: string): string {
    TrimEnd(TrimStart(s))
  }

  /** Trim keeps exactly the middle of `s`: it is the slice `s[i..i + |r|]`,
      everything cut off on either side is white space, and the slice neither
      starts nor ends with white space. */
  lemma TrimIsCore(s: string) returns (i: nat, r: string)
    ensures r == Trim(s)
    ensures i + |r| <= |s| && r == s[i..i + |r|]
    ensures forall k :: i + |r| <= k < |s| ==> IsSpace(s[k])
    ensures forall k :: 0 <= k < i ==> IsSpace(s[k])
    ensures r == [] || (!IsSpace(r[0]) && !IsSpace(r[|r| - 1]))
  {
    var t := TrimStart(s);
    r := TrimEnd(t);
    i := |s| - |t|;
    TrimStartSuffix(s);
    TrimEndPrefix(t);
    MiddleSlice(s, i, t, r);
    TrimEndSpaces(t);
    TrimStartSpaces(s);
    SpacesAfter(s, i, t, |r|);
  }

  /** A prefix `r` of the suffix `t == s[i..]` is the slice of `s` at `i`, and it
      keeps the first element of `t`. */
  lemma MiddleSlice(s: string, i: nat, t: string, r: string)
    requires i + |t| == |s| && t == s[i..] && |r| <= |t| && r == t[..|r|]
    requires t == [] || !IsSpace(t[0])
    requires r == [] || !IsSpace(r[|r| - 1])
    ensures i + |r| <= |s| && r == s[i..i + |r|]
    ensures r == [] || (!IsSpace(r[0]) && !IsSpace(r[|r| - 1]))
  {
    PrefixOfSuffix(s, i, |r|);
    if r != [] {
      assert r[0] == t[0];
    }
  }

  /** What follows position `n` of the suffix `t == s[i..]` is what follows
      position `i + n` of `s`. */
  lemma SpacesAfter(s: string, i: nat, t: string, n: nat)
    requires i + |t| == |s| && t == s[i..] && n <= |t|
    requires forall j :: n <= j < |t| ==> IsSpace(t[j])
    ensures forall k :: i + n <= k < |s| ==> IsSpace(s[k])
  {
    forall k | i + n <= k < |s|
      ensures IsSpace(s[k])
    {
      assert s[k] == t[k - i];
    }
  }

  /** Trimming twice is trimming once. */
  lemma TrimIdempotent(s: string)
    ensures Trim(Trim(s)) == Trim(s)
  {
    var i, t := TrimIsCore(s);
    if t != [] {
      TrimUnchanged(t);
    }
  }

  /** Text already without surrounding white space is its own trim. */
  lemma TrimUnchanged(text: string)
    requires text != [] && !IsSpace(text[0]) && !IsSpace(text[|text| - 1])
    ensures Trim(text) == text
  {
    assert TrimStart(text) == text;
  }

  /** The ASCII part of `toLowerCase`. The route only asks whether the lowered text
      contains one of a fixed list of ASCII keywords, and no non-ASCII code point
      lowers to a sequence that completes one of them, so ASCII folding decides
      the same questions. */
  function LowerChar(c: char): char {
    if 'A' <= c <= 'Z' then (c as int + 32) as char else c
  }

  function ToLower(s: string): (r: string)
    ensures |r| == |s| && forall i :: 0 <= i < |s| ==> r[i] == LowerChar(s[i])
  {
    if s == [] then [] else [LowerChar(s[0])] + ToLower(s[1..])
  }

  /** A lower-case letter missing from `s` in both cases is missing from its
      lowered form. */
  lemma LowerLacks(s: string, c: char, upper: char)
    requires 'a' <= c <= 'z' && upper as int == c as int - 32
    requires c !in s && upper !in s
    ensures c !in ToLower(s)
  {
  }

  /** `sub` occurs in `s` starting at index `i`. */
  predicate OccursAt(s: string, sub: string, i: int) {
    0 <= i && i + |sub| <= |s| && s[i..i + |sub|] == sub
  }

  /** Dropping the first element shifts every later occurrence one place left. */
  lemma OccursShift(s: string, sub: string)
    requires s != []
    ensures forall i :: 0 < i ==> (OccursAt(s, sub, i) <==> OccursAt(s[1..], sub, i - 1))
  {
    forall i | 0 < i
      ensures OccursAt(s, sub, i) <==> OccursAt(s[1..], sub, i - 1)
    {
      if i + |sub| <= |s| {
        assert s[i..i + |sub|] == s[1..][i - 1..i - 1 + |sub|];
      }
    }
  }

  /** `s.includes(sub)`. */
  predicate Contains(s: string, sub: string) {
    |sub| <= |s| && (s[..|sub|] == sub || Contains(s[1..], sub))
  }

  /** An occurrence anywhere makes `Contains` true. */
  lemma {:induction false} ContainsAt(s: string, sub: string, i: int)
    requires OccursAt(s, sub, i)
    ensures Contains(s, sub)
  {
    if i > 0 && s[..|sub|] != sub {
      OccursShift(s, sub);
      ContainsAt(s[1..], sub, i - 1);
    }
  }

  /** `Contains` is true only where there is an occurrence; this returns the first. */
  lemma {:induction false} ContainsIndex(s: string, sub: string) returns (i: nat)
    requires Contains(s, sub)
    ensures OccursAt(s, sub, i)
    ensures forall j :: 0 <= j < i ==> !OccursAt(s, sub, j)
  {
    if s[..|sub|] == sub {
      i := 0;
    } else {
      var k := ContainsIndex(s[1..], sub);
      i := k + 1;
      OccursShift(s, sub);
    }
  }

  /** Every character of a word that occurs in `s` is a character of `s`. */
  lemma ContainedCharOccurs(s: string, sub: string, c: char)
    requires Contains(s, sub) && c in sub
    ensures c in s
  {
    var i := ContainsIndex(s, sub);
    var k :| 0 <= k < |sub| && sub[k] == c;
    assert s[i + k] == s[i..i + |sub|][k];
  }

  /** `words.some(w => s.includes(w))`. */
  predicate ContainsAny(s: string, words: seq<string>) {
    |words| > 0 && (Contains(s, words[0]) || ContainsAny(s, words[1..]))
  }

  /** `ContainsAny` holds exactly when one of the words occurs. */
  lemma {:induction false} ContainsAnyIff(s: string, words: seq<string>)
    ensures ContainsAny(s, words) <==> exists k :: 0 <= k < |words| && Contains(s, words[k])
  {
    if |words| > 0 {
      ContainsAnyIff(s, words[1..]);
      assert forall k :: 1 <= k < |words| ==> words[k] == words[1..][k - 1];
    }
  }

  /** `s.split(sep)[0]`: the text before the first occurrence of `sep`, or all of
      `s` when `sep` does not occur. The route only splits on non-empty literals. */
  function BeforeFirst(s: string, sep: string): (r: string)
    requires sep != []
    ensures |r| <= |s| && r == s[..|r|]
    ensures forall i :: 0 <= i < |r| ==> !OccursAt(s, sep, i)
    ensures |r| == |s| || OccursAt(s, sep, |r|)
  {
    if |s| < |sep| then s
    else if s[..|sep|] == sep then []
    else
      var rest := BeforeFirst(s[1..], sep);
      OccursShift(s, sep);
      [s[0]] + rest
  }

  /** The text before the first separator never contains the separator. */
  lemma BeforeFirstExcludes(s: string, sep: string)
    requires sep != []
    ensures !Contains(BeforeFirst(s, sep), sep)
  {
    var r := BeforeFirst(s, sep);
    if Contains(r, sep) {
      var i := ContainsIndex(r, sep);
      assert s[i..i + |sep|] == r[i..i + |sep|];
      assert OccursAt(s, sep, i);
      assert false;
    }
  }

  /** Splitting text that has no separator gives the text back unchanged. */
  lemma BeforeFirstWithout(s: string, sep: string)
    requires sep != []
    ensures !Contains(s, sep) ==> BeforeFirst(s, sep) == s
  {
    var r := BeforeFirst(s, sep);
    if |r| < |s| {
      ContainsAt(s, sep, |r|);
    }
  }

  /** No separator starts inside a separator-free prefix `a` of `a + b` unless it
      reaches past `a`. */
  lemma NoOccurrenceInPrefix(a: string, sep: string, b: string, i: int)
    requires !Contains(a, sep) && 0 <= i && i + |sep| <= |a|
    ensures !OccursAt(a + b, sep, i)
  {
    assert (a + b)[i..i + |sep|] == a[i..i + |sep|];
    if OccursAt(a + b, sep, i) {
      ContainsAt(a, sep, i);
    }
  }

  /** Splitting at the first separator, found at `k`, keeps what comes before `k`. */
  lemma BeforeFirstAt(s: string, sep: string, k: int)
    requires sep != [] && OccursAt(s, sep, k)
    requires forall i :: 0 <= i < k ==> !OccursAt(s, sep, i)
    ensures BeforeFirst(s, sep) == s[..k]
  {
  }

  /** `s.slice(0, n)`: at most the first `n` elements. */
  function Take<T>(s: seq<T>, n: nat): (r: seq<T>)
    ensures |r| == Min(n, |s|) && r == s[..|r|]
  {
    s[..Min(n, |s|)]
  }

  /** An element before the cut survives `Take`. */
  lemma TakeIndex<T>(s: seq<T>, n: nat, k: nat)
    requires k < n && k < |s|
    ensures k < |Take(s, n)| && Take(s, n)[k] == s[k]
  {
  }

  /** Cutting after the first `k` elements keeps those `k` elements. */
  lemma TakePrefix<T>(s: seq<T>, n: nat, k: nat)
    requires k <= n && k <= |s|
    ensures k <= |Take(s, n)| && Take(s, n)[..k] == s[..k]
  {
  }

  /** `el.attr(name) || ''`: an attribute's text, empty when it is absent. */
  function AttrText(a: Option<string>): string {
    if a.Some? then a.value else ""
  }
}
