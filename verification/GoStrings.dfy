/** The fragment of Go's `strings` package that the migrator relies on.
    A string is a sequence of Unicode code points; separators are single characters,
    which is the only way the migrator uses them. */
module GoStrings {

  // ---- Split and Join -------------------------------------------------------------

  /** strings.Split: one part more than there are separators. */
  function Split(s: string, sep: char): (parts: seq<string>)
    ensures |parts| >= 1
    ensures forall k :: 0 <= k < |parts| ==> sep !in parts[k]
  {
    if s == "" then [""]
    else
      var rest := Split(s[1..], sep);
      if s[0] == sep then [""] + rest else [[s[0]] + rest[0]] + rest[1..]
  }

  /** strings.Join. */
  function Join(parts: seq<string>, sep: char): string {
    if parts == [] then ""
    else if |parts| == 1 then parts[0]
    else parts[0] + [sep] + Join(parts[1..], sep)
  }

  lemma {:induction false} JoinSplit(s: string, sep: char)
    ensures Join(Split(s, sep), sep) == s
  {
    if s != "" {
      JoinSplit(s[1..], sep);
      var rest := Split(s[1..], sep);
      assert s == [s[0]] + s[1..];
      if s[0] == sep {
        assert ([""] + rest)[1..] == rest;
      } else {
        var parts := [[s[0]] + rest[0]] + rest[1..];
        assert parts[1..] == rest[1..];
      }
    }
  }

  lemma {:induction false} SplitAtom(s: string, sep: char)
    requires sep !in s
    ensures Split(s, sep) == [s]
  {
    if s != "" {
      SplitAtom(s[1..], sep);
      assert s == [s[0]] + s[1..];
    }
  }

  /** What a character in front does to the parts. */
  function Put(c: char, parts: seq<string>, sep: char): seq<string>
    requires parts != []
  {
    if c == sep then [""] + parts else [[c] + parts[0]] + parts[1..]
  }

  lemma PutConcat(c: char, x: seq<string>, y: seq<string>, sep: char)
    requires x != []
    ensures Put(c, x + y, sep) == Put(c, x, sep) + y
  {
  }

  lemma SplitPut(c: char, rest: string, s: string, sep: char)
    requires s == [c] + rest
    ensures Split(s, sep) == Put(c, Split(rest, sep), sep)
  {
    assert s[1..] == rest;
  }

  /** Splitting is a homomorphism from texts glued by the separator to lists. */
  lemma {:induction false} SplitConcat(a: string, b: string, sep: char)
    ensures Split(a + [sep] + b, sep) == Split(a, sep) + Split(b, sep)
  {
    var s := a + [sep] + b;
    if a == "" {
      SplitPut(sep, b, s, sep);
    } else {
      var rest := a[1..] + [sep] + b;
      SplitConcat(a[1..], b, sep);
      SplitPut(a[0], rest, s, sep);
      SplitPut(a[0], a[1..], a, sep);
      PutConcat(a[0], Split(a[1..], sep), Split(b, sep), sep);
    }
  }

  lemma {:induction false} SplitJoin(parts: seq<string>, sep: char)
    requires parts != []
    requires forall k :: 0 <= k < |parts| ==> sep !in parts[k]
    ensures Split(Join(parts, sep), sep) == parts
  {
    SplitAtom(parts[0], sep);
    if |parts| > 1 {
      SplitJoin(parts[1..], sep);
      SplitConcat(parts[0], Join(parts[1..], sep), sep);
      assert parts == [parts[0]] + parts[1..];
    }
  }

  lemma JoinFew(p: string, sep: char)
    ensures Join([], sep) == "" && Join([p], sep) == p
  {
  }

  /** Appending one part to a non-empty list appends the separator and the part. */
  lemma {:induction false} JoinAppend(parts: seq<string>, p: string, sep: char)
    requires parts != []
    ensures Join(parts + [p], sep) == Join(parts, sep) + [sep] + p
  {
    if |parts| > 1 {
      assert (parts + [p])[1..] == parts[1..] + [p];
      JoinAppend(parts[1..], p, sep);
    }
  }

  // ---- Searching ------------------------------------------------------------------

  /** `sub` stands at offset `i` of `s`. */
  predicate OccursAt(s: string, sub: string, i: int) {
    0 <= i && i + |sub| <= |s| && s[i..i + |sub|] == sub
  }

  /** strings.Contains. */
  predicate Contains(s: string, sub: string) {
    exists i | 0 <= i <= |s| :: OccursAt(s, sub, i)
  }

  /** A text occurs in another exactly when something can be put in front of it and behind it
      to make the other. */
  lemma ContainsParts(s: string, sub: string)
    ensures Contains(s, sub) <==> exists pre: string, post: string :: s == pre + sub + post
  {
    if i :| 0 <= i <= |s| && OccursAt(s, sub, i) {
      assert s == s[..i] + sub + s[i + |sub|..];
    }
    if pre: string, post: string :| s == pre + sub + post {
      assert OccursAt(s, sub, |pre|);
    }
  }

  lemma ContainsRefl(s: string)
    ensures Contains(s, s)
  {
    assert OccursAt(s, s, 0);
  }

  lemma ContainsTransitive(s: string, mid: string, sub: string)
    requires Contains(s, mid) && Contains(mid, sub)
    ensures Contains(s, sub)
  {
    var i :| 0 <= i <= |s| && OccursAt(s, mid, i);
    var j :| 0 <= j <= |mid| && OccursAt(mid, sub, j);
    forall k | 0 <= k < |sub|
      ensures s[i + j + k] == sub[k]
    {
      assert s[i + j + k] == s[i..i + |mid|][j + k];
      assert mid[j..j + |sub|][k] == mid[j + k];
    }
    assert OccursAt(s, sub, i + j);
  }

  lemma ContainsSameLength(s: string, sub: string)
    requires |s| == |sub|
    ensures Contains(s, sub) <==> s == sub
  {
    if Contains(s, sub) {
      var i :| 0 <= i <= |s| && OccursAt(s, sub, i);
      assert i == 0;
    } else {
      assert !OccursAt(s, sub, 0);
    }
  }

  lemma OccurrenceCovers(s: string, sub: string, i: int)
    requires OccursAt(s, sub, i)
    ensures forall j :: i <= j < i + |sub| ==> s[j] in sub
  {
    forall j | i <= j < i + |sub|
      ensures s[j] in sub
    {
      assert s[i..i + |sub|][j - i] == s[j];
    }
  }

  lemma OccursInFront(a: string, b: string, sub: string, i: int)
    requires 0 <= i && i + |sub| <= |a|
    ensures OccursAt(a + b, sub, i) <==> OccursAt(a, sub, i)
  {
    assert (a + b)[i..i + |sub|] == a[i..i + |sub|];
  }

  lemma OccursBehind(a: string, b: string, sub: string, i: int)
    requires 0 <= i && i + |sub| <= |b|
    ensures OccursAt(a + b, sub, |a| + i) <==> OccursAt(b, sub, i)
  {
    assert (a + b)[|a| + i..|a| + i + |sub|] == b[i..i + |sub|];
  }

  /** A text without the separator cannot straddle one. */
  lemma ContainsAcross(a: string, b: string, sep: char, sub: string)
    requires sep !in sub
    ensures Contains(a + [sep] + b, sub) <==> Contains(a, sub) || Contains(b, sub)
  {
    var s := a + [sep] + b;
    assert s == a + ([sep] + b);
    if Contains(s, sub) {
      var i :| 0 <= i <= |s| && OccursAt(s, sub, i);
      assert s[|a|] == sep;
      OccurrenceCovers(s, sub, i);
      if i + |sub| <= |a| {
        OccursInFront(a, [sep] + b, sub, i);
      } else {
        OccursBehind(a + [sep], b, sub, i - |a| - 1);
      }
    }
    if i :| 0 <= i <= |a| && OccursAt(a, sub, i) {
      OccursInFront(a, [sep] + b, sub, i);
    }
    if i :| 0 <= i <= |b| && OccursAt(b, sub, i) {
      OccursBehind(a + [sep], b, sub, i);
    }
  }

  /** Hence substring search in a joined list is substring search in its parts. */
  lemma {:induction false} ContainsJoin(parts: seq<string>, sep: char, sub: string)
    requires parts != [] && sep !in sub
    ensures Contains(Join(parts, sep), sub) <==> exists k :: 0 <= k < |parts| && Contains(parts[k], sub)
  {
    if |parts| > 1 {
      var rest := parts[1..];
      ContainsJoin(rest, sep, sub);
      ContainsAcross(parts[0], Join(rest, sep), sep, sub);
      if k :| 0 <= k < |rest| && Contains(rest[k], sub) {
        assert Contains(parts[k + 1], sub);
      }
      if k :| 0 <= k < |parts| && Contains(parts[k], sub) {
        assert k > 0 ==> Contains(rest[k - 1], sub);
      }
    }
  }

  /** strings.IndexByte / IndexRune: first position of `c`, or -1. */
  function Index(s: string, c: char): (i: int)
    ensures -1 <= i < |s|
    ensures i == -1 <==> c !in s
    ensures i >= 0 ==> s[i] == c && forall k :: 0 <= k < i ==> s[k] != c
  {
    if s == "" then -1
    else if s[0] == c then 0
    else
      var r := Index(s[1..], c);
      if r == -1 then -1 else r + 1
  }

  /** strings.LastIndex for a one-character needle: last position of `c`, or -1. */
  function LastIndex(s: string, c: char): (i: int)
    ensures -1 <= i < |s|
    ensures i == -1 <==> c !in s
    ensures i >= 0 ==> s[i] == c && forall k :: i < k < |s| ==> s[k] != c
  {
    if s == "" then -1
    else if s[|s| - 1] == c then |s| - 1
    else LastIndex(s[..|s| - 1], c)
  }

  predicate HasPrefix(s: string, p: string) { |p| <= |s| && s[..|p|] == p }

  predicate HasSuffix(s: string, p: string) { |p| <= |s| && s[|s| - |p|..] == p }

  /** strings.TrimPrefix: removes one occurrence. */
  function TrimPrefix(s: string, p: string): string {
    if HasPrefix(s, p) then s[|p|..] else s
  }

  lemma PrefixParts(s: string, p: string)
    ensures HasPrefix(s, p) <==> exists rest: string :: s == p + rest
    ensures forall rest: string :: s == p + rest ==> TrimPrefix(s, p) == rest
    ensures !HasPrefix(s, p) ==> TrimPrefix(s, p) == s
  {
    if HasPrefix(s, p) {
      assert s == p + s[|p|..];
    }
  }

  lemma SuffixParts(s: string, p: string)
    ensures HasSuffix(s, p) <==> exists rest: string :: s == rest + p
  {
    if HasSuffix(s, p) {
      assert s == s[..|s| - |p|] + p;
    }
  }

  // ---- Trimming and case ----------------------------------------------------------

  /** unicode.IsSpace. */
  predicate IsSpace(c: char) {
    '\t' <= c <= '\r' || c == ' ' || c == '\U{85}' || c == '\U{A0}' || c == '\U{1680}'
    || '\U{2000}' <= c <= '\U{200A}' || c == '\U{2028}' || c == '\U{2029}'
    || c == '\U{202F}' || c == '\U{205F}' || c == '\U{3000}'
  }

  /** The white space of Unicode, one character after the other. */
  lemma WhiteSpace(c: char)
    ensures IsSpace(c) <==>
              c in {' ', '\t', '\n', '\U{B}', '\U{C}', '\r', '\U{85}', '\U{A0}', '\U{1680}', '\U{2000}', '\U{2001}',
                    '\U{2002}', '\U{2003}', '\U{2004}', '\U{2005}', '\U{2006}', '\U{2007}', '\U{2008}', '\U{2009}',
                    '\U{200A}', '\U{2028}', '\U{2029}', '\U{202F}', '\U{205F}', '\U{3000}'}
  {
  }

  /** No white space at either end. */
  predicate Trimmed(s: string) {
    s == "" || (!IsSpace(s[0]) && !IsSpace(s[|s| - 1]))
  }

  predicate AllSpace(s: string) { forall k :: 0 <= k < |s| ==> IsSpace(s[k]) }

  /** strings.TrimSpace. */
  function TrimSpace(s: string): (t: string)
    ensures Trimmed(t)
    ensures Trimmed(s) ==> t == s
    decreases |s|
  {
    if s == "" then s
    else if IsSpace(s[0]) then TrimSpace(s[1..])
    else if IsSpace(s[|s| - 1]) then TrimSpace(s[..|s| - 1])
    else s
  }

  /** TrimSpace removes exactly the white space around a trimmed text. */
  lemma {:induction false} TrimSpacePadded(pre: string, t: string, post: string)
    requires AllSpace(pre) && AllSpace(post) && Trimmed(t)
    ensures TrimSpace(pre + t + post) == t
    decreases |pre| + |post|
  {
    var s := pre + t + post;
    if pre != "" {
      assert s[1..] == pre[1..] + t + post;
      TrimSpacePadded(pre[1..], t, post);
    } else if t == "" && post != "" {
      assert s[1..] == pre + t + post[1..];
      TrimSpacePadded(pre, t, post[1..]);
    } else if post != "" {
      assert s[..|s| - 1] == pre + t + post[..|post| - 1];
      TrimSpacePadded(pre, t, post[..|post| - 1]);
    } else {
      assert s == t;
    }
  }

  /** strings.ToLower on ASCII letters; other characters are kept. */
  function ToLower(s: string): (t: string)
    ensures |t| == |s|
  {
    seq(|s|, i requires 0 <= i < |s| => if 'A' <= s[i] <= 'Z' then s[i] + 32 as char else s[i])
  }

  lemma ToLowerAt(s: string, i: nat)
    requires i < |s|
    ensures 'A' <= s[i] <= 'Z' ==> ToLower(s)[i] as int == s[i] as int + 32
    ensures !('A' <= s[i] <= 'Z') ==> ToLower(s)[i] == s[i]
  {
  }
}
