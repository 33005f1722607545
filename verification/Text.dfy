/** String operations the Rust standard library supplies to the repository, each with the
    facts about it that the other modules need. */
module Text {
  import opened Prelude

  predicate OccursAt(s: string, p: string, i: int) {
    0 <= i && i + |p| <= |s| && s[i..i + |p|] == p
  }

  predicate StartsWith(s: string, p: string) {
    |p| <= |s| && s[..|p|] == p
  }

  predicate EndsWith(s: string, p: string) {
    |p| <= |s| && s[|s| - |p|..] == p
  }

  predicate IsAscii(s: string) {
    forall i :: 0 <= i < |s| ==> s[i] < 128 as char
  }

  // ---- UTF-8 ----

  function Utf8Width(c: char): nat {
    var n := c as int;
    if n < 0x80 then 1 else if n < 0x800 then 2 else if n < 0x1_0000 then 3 else 4
  }

  function ByteLen(s: string): (n: nat)
    ensures n >= |s|
    ensures IsAscii(s) ==> n == |s|
  {
    if s == "" then 0 else Utf8Width(s[0]) + ByteLen(s[1..])
  }

  lemma {:induction false} WideCharacterCostsMore(s: string)
    requires !IsAscii(s)
    ensures ByteLen(s) > |s|
  {
    var i :| 0 <= i < |s| && !(s[i] < 128 as char);
    if i > 0 {
      assert s[1..][i - 1] == s[i];
      WideCharacterCostsMore(s[1..]);
    }
  }

  // ---- Searching and splitting ----

  predicate Contains(s: string, p: string) {
    exists i :: 0 <= i <= |s| && OccursAt(s, p, i)
  }

  /** `str::find`, looking no earlier than position `from`. */
  function FindFrom(s: string, p: string, from: nat): (r: Option<nat>)
    requires from <= |s|
    ensures r.Some? ==> from <= r.value && OccursAt(s, p, r.value)
    ensures r.Some? ==> forall k :: from <= k < r.value ==> !OccursAt(s, p, k)
    ensures r.None? ==> forall k :: from <= k ==> !OccursAt(s, p, k)
    decreases |s| - from
  {
    if OccursAt(s, p, from) then Some(from)
    else if from == |s| then None
    else FindFrom(s, p, from + 1)
  }

  function Find(s: string, p: string): (r: Option<nat>)
    ensures r.Some? ==> OccursAt(s, p, r.value) && forall k :: 0 <= k < r.value ==> !OccursAt(s, p, k)
    ensures r.None? ==> forall k :: 0 <= k ==> !OccursAt(s, p, k)
  {
    FindFrom(s, p, 0)
  }

  /** `str::find` returns the position at which the pattern occurs and before which it does not. */
  lemma FindIs(s: string, p: string, i: nat)
    requires OccursAt(s, p, i)
    requires forall k :: 0 <= k < i ==> !OccursAt(s, p, k)
    ensures Find(s, p) == Some(i)
  {
  }

  /** Strings that agree on their first `n` characters have the same occurrences there. */
  lemma SameOccurrences(x: string, y: string, n: nat, p: string)
    requires n <= |x| && n <= |y| && x[..n] == y[..n]
    ensures forall k :: 0 <= k && k + |p| <= n ==> OccursAt(x, p, k) == OccursAt(y, p, k)
  {
    forall k | 0 <= k && k + |p| <= n ensures OccursAt(x, p, k) == OccursAt(y, p, k) {
      assert x[k..k + |p|] == x[..n][k..k + |p|] == y[k..k + |p|];
    }
  }

  /** The last character of an occurrence. */
  lemma OccurrenceEnd(s: string, p: string, k: nat)
    requires p != "" && OccursAt(s, p, k)
    ensures s[k + |p| - 1] == p[|p| - 1]
  {
    assert s[k..k + |p|][|p| - 1] == s[k + |p| - 1];
  }

  lemma NoOccurrenceEnd(s: string, p: string, k: nat)
    requires p != "" && k + |p| <= |s| && s[k + |p| - 1] != p[|p| - 1]
    ensures !OccursAt(s, p, k)
  {
    assert s[k..k + |p|][|p| - 1] == s[k + |p| - 1];
  }

  lemma FindInLonger(p: string, s: string, pat: string)
    requires Find(p, pat).Some?
    ensures Find(p + s, pat) == Find(p, pat)
  {
    assert (p + s)[..|p|] == p == p[..|p|];
    SameOccurrences(p + s, p, |p|, pat);
    FindIs(p + s, pat, Find(p, pat).value);
  }

  /** `str::split(char)`: at least one piece, none of which contains the separator. */
  function Split(s: string, c: char): (r: seq<string>)
    ensures |r| > 0
    ensures forall i :: 0 <= i < |r| ==> c !in r[i]
  {
    if s == "" then [""]
    else
      var rest := Split(s[1..], c);
      if s[0] == c then [""] + rest else [[s[0]] + rest[0]] + rest[1..]
  }

  function Join(parts: seq<string>, sep: string): string {
    if |parts| == 0 then ""
    else if |parts| == 1 then parts[0]
    else parts[0] + sep + Join(parts[1..], sep)
  }

  /** A separator-free first piece is cut off whole. */
  lemma {:induction false} SplitHead(a: string, b: string, c: char)
    requires c !in a
    ensures Split(a + [c] + b, c) == [a] + Split(b, c)
  {
    var s := a + [c] + b;
    if a == "" {
      assert s[1..] == b;
    } else {
      assert s[1..] == a[1..] + [c] + b;
      SplitHead(a[1..], b, c);
      assert [a[0]] + a[1..] == a;
    }
  }

  lemma {:induction false} SplitNothing(a: string, c: char)
    requires c !in a
    ensures Split(a, c) == [a]
  {
    if a != "" {
      SplitNothing(a[1..], c);
      assert [a[0]] + a[1..] == a;
    }
  }

  lemma SplitCons(x: char, t: string, c: char)
    ensures Split([x] + t, c)
            == (if x == c then [""] + Split(t, c) else [[x] + Split(t, c)[0]] + Split(t, c)[1..])
  {
    assert ([x] + t)[1..] == t;
  }

  lemma {:induction false} SplitConcat(a: string, b: string, c: char)
    ensures Split(a + [c] + b, c) == Split(a, c) + Split(b, c)
  {
    if a == "" {
      SplitHead("", b, c);
    } else {
      var x, t := a[0], a[1..];
      assert a + [c] + b == [x] + (t + [c] + b) && a == [x] + t;
      SplitConcat(t, b, c);
      SplitCons(x, t + [c] + b, c);
      SplitCons(x, t, c);
    }
  }

  lemma {:induction false} SplitOfJoin(parts: seq<string>, c: char)
    requires |parts| > 0
    requires forall i :: 0 <= i < |parts| ==> c !in parts[i]
    ensures Split(Join(parts, [c]), c) == parts
  {
    if |parts| == 1 {
      SplitNothing(parts[0], c);
    } else {
      SplitOfJoin(parts[1..], c);
      SplitHead(parts[0], Join(parts[1..], [c]), c);
    }
  }

  lemma {:induction false} JoinOfSplit(s: string, c: char)
    ensures Join(Split(s, c), [c]) == s
  {
    if s != "" {
      var rest := Split(s[1..], c);
      JoinOfSplit(s[1..], c);
      if s[0] == c {
        assert ([""] + rest)[1..] == rest;
      } else {
        var r := [[s[0]] + rest[0]] + rest[1..];
        assert r[1..] == rest[1..];
        if |rest| > 1 {
          assert Join(r, [c]) == [s[0]] + rest[0] + [c] + Join(rest[1..], [c]);
        }
        assert Join(r, [c]) == [s[0]] + Join(rest, [c]);
      }
      assert [s[0]] + s[1..] == s;
    }
  }

  /** `str::rsplit_once(char)`: the text before and after the last separator. */
  function RSplitOnce(s: string, c: char): (r: Option<(string, string)>)
    ensures r.Some? ==> s == r.value.0 + [c] + r.value.1 && c !in r.value.1
    ensures r.None? <==> c !in s
  {
    if s == "" then None
    else if s[|s| - 1] == c then Some((s[..|s| - 1], ""))
    else
      match RSplitOnce(s[..|s| - 1], c)
      case None => None
      case Some((a, b)) => Some((a, b + [s[|s| - 1]]))
  }

  lemma {:induction false} RSplitOnceIs(a: string, b: string, c: char)
    requires c !in b
    ensures RSplitOnce(a + [c] + b, c) == Some((a, b))
  {
    var s := a + [c] + b;
    if b == "" {
      assert s[..|s| - 1] == a;
    } else {
      assert s[..|s| - 1] == a + [c] + b[..|b| - 1];
      RSplitOnceIs(a, b[..|b| - 1], c);
      assert b[..|b| - 1] + [b[|b| - 1]] == b;
    }
  }

  /** `str::replace`: leftmost, non-overlapping occurrences, scanning left to right. */
  function Replace(s: string, p: string, to: string): string
    requires p != ""
    decreases |s|
  {
    if |s| < |p| then s
    else if StartsWith(s, p) then to + Replace(s[|p|..], p, to)
    else [s[0]] + Replace(s[1..], p, to)
  }

  lemma ReplaceAtHit(p: string, u: string, to: string)
    requires p != ""
    ensures Replace(p + u, p, to) == to + Replace(u, p, to)
  {
    assert (p + u)[|p|..] == u;
  }

  lemma ReplaceAtMiss(t: string, p: string, to: string)
    requires p != "" && t != "" && !StartsWith(t, p)
    ensures Replace(t, p, to) == [t[0]] + Replace(t[1..], p, to)
  {
    if |t| < |p| {
      assert Replace(t[1..], p, to) == t[1..];
    }
  }

  // ---- Comparing ----

  /** `str::cmp`: comparing UTF-8 bytes is comparing code points. */
  predicate LexLe(a: string, b: string) {
    a == "" || (b != "" && (a[0] < b[0] || (a[0] == b[0] && LexLe(a[1..], b[1..]))))
  }

  lemma {:induction false} LexLeTotal(a: string, b: string)
    ensures LexLe(a, b) || LexLe(b, a)
  {
    if a != "" && b != "" { LexLeTotal(a[1..], b[1..]); }
  }

  lemma {:induction false} LexLeTransitive(a: string, b: string, c: string)
    requires LexLe(a, b) && LexLe(b, c)
    ensures LexLe(a, c)
  {
    if a != "" && a[0] == b[0] && b[0] == c[0] { LexLeTransitive(a[1..], b[1..], c[1..]); }
  }

  lemma {:induction false} LexLeAntisymmetric(a: string, b: string)
    requires LexLe(a, b) && LexLe(b, a)
    ensures a == b
  {
    if a != "" {
      LexLeAntisymmetric(a[1..], b[1..]);
      assert [a[0]] + a[1..] == a && [b[0]] + b[1..] == b;
    }
  }

  // ---- Trimming and character classes ----

  /** `char::is_whitespace`: the Unicode White_Space property. */
  predicate IsWhitespace(c: char) {
    var n := c as int;
    9 <= n <= 13 || n == 32 || n == 0x85 || n == 0xA0 || n == 0x1680 || 0x2000 <= n <= 0x200A
    || n == 0x2028 || n == 0x2029 || n == 0x202F || n == 0x205F || n == 0x3000
  }

  function TrimStart(s: string): (r: string)
    ensures r == "" || !IsWhitespace(r[0])
    ensures |r| <= |s| && s[|s| - |r|..] == r
    ensures forall i :: 0 <= i < |s| - |r| ==> IsWhitespace(s[i])
  {
    if s != "" && IsWhitespace(s[0]) then TrimStart(s[1..]) else s
  }

  function TrimEnd(s: string): (r: string)
    ensures r == "" || !IsWhitespace(r[|r| - 1])
    ensures r <= s
    ensures forall i :: |r| <= i < |s| ==> IsWhitespace(s[i])
  {
    if s != "" && IsWhitespace(s[|s| - 1]) then TrimEnd(s[..|s| - 1]) else s
  }

  function Trim(s: string): string {
    TrimEnd(TrimStart(s))
  }

  function ToAsciiLower(c: char): char {
    if 'A' <= c <= 'Z' then (c as int + 32) as char else c
  }

  function ToAsciiLowercase(s: string): (r: string)
    ensures |r| == |s| && forall i :: 0 <= i < |s| ==> r[i] == ToAsciiLower(s[i])
  {
    if s == "" then "" else [ToAsciiLower(s[0])] + ToAsciiLowercase(s[1..])
  }

  predicate IsAsciiDigit(c: char) { '0' <= c <= '9' }

  predicate IsAsciiAlphabetic(c: char) { 'a' <= c <= 'z' || 'A' <= c <= 'Z' }

  predicate IsAsciiAlphanumeric(c: char) { IsAsciiAlphabetic(c) || IsAsciiDigit(c) }

  predicate IsAsciiHexDigit(c: char) { IsAsciiDigit(c) || 'a' <= c <= 'f' || 'A' <= c <= 'F' }
}
