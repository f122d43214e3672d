/** String operations of Python that the bot relies on: `str.strip`,
    `str.split("\n")`, `str.lower`, `in` on strings and slicing. */
module Text {

  /** The code point ranges, both ends included, of the characters
      Python's `str.isspace` accepts. */
  const SpaceRanges: seq<(int, int)> := [
    (9, 13), (28, 32), (0x85, 0x85), (0xA0, 0xA0), (0x1680, 0x1680),
    (0x2000, 0x200A), (0x2028, 0x2029), (0x202F, 0x202F), (0x205F, 0x205F),
    (0x3000, 0x3000)]

  predicate InRanges(n: int, ranges: seq<(int, int)>) {
    ranges != [] && (ranges[0].0 <= n <= ranges[0].1 || InRanges(n, ranges[1..]))
  }

  /** Python's `str.isspace`: the characters `str.strip()` removes. */
  predicate IsSpace(c: char) {
    InRanges(c as int, SpaceRanges)
  }

  ghost predicate AllSpace(s: string) {
    forall k :: 0 <= k < |s| ==> IsSpace(s[k])
  }

  /** Neither end of `s` is whitespace. */
  ghost predicate NoOuterSpace(s: string) {
    s == [] || (!IsSpace(s[0]) && !IsSpace(s[|s| - 1]))
  }

  /** Length of the whitespace prefix of `s`. */
  function LeadingSpace(s: string): (n: nat)
    ensures n <= |s|
    ensures forall k :: 0 <= k < n ==> IsSpace(s[k])
    ensures n < |s| ==> !IsSpace(s[n])
  {
    if |s| > 0 && IsSpace(s[0]) then 1 + LeadingSpace(s[1..]) else 0
  }

  /** End of `s` without its whitespace suffix. */
  function TrimEnd(s: string): (j: nat)
    ensures j <= |s|
    ensures forall k :: j <= k < |s| ==> IsSpace(s[k])
    ensures 0 < j ==> !IsSpace(s[j - 1])
  {
    if |s| > 0 && IsSpace(s[|s| - 1]) then TrimEnd(s[..|s| - 1]) else |s|
  }

  /** `r` is `s` with a whitespace prefix and a whitespace suffix cut off:
      every character in between is kept, in order. */
  ghost predicate StrippedFrom(r: string, s: string) {
    exists i, j :: 0 <= i <= j <= |s| && r == s[i..j] && AllSpace(s[..i]) && AllSpace(s[j..])
  }

  /** Python's `s.strip()`. */
  function Strip(s: string): (r: string)
    ensures StrippedFrom(r, s)
    ensures NoOuterSpace(r)
    ensures r == [] <==> AllSpace(s)
    ensures NoOuterSpace(s) ==> r == s
    ensures multiset(r) <= multiset(s)
  {
    var i := LeadingSpace(s);
    if i == |s| then
      CutSpace(s, |s|, |s|);
      assert s[|s|..|s|] == [];
      []
    else
      var j := TrimEnd(s);
      StripSlice(s, i, j);
      CutSpace(s, i, j);
      s[i..j]
  }

  /** The contract of Strip determines it: the only slice of `s` between
      a whitespace prefix and a whitespace suffix that has no outer
      whitespace, and is empty only for an all-whitespace string, is the
      stripped string. */
  lemma StripUnique(s: string, i: nat, j: nat)
    requires i <= j <= |s| && AllSpace(s[..i]) && AllSpace(s[j..])
    requires NoOuterSpace(s[i..j]) && (i == j <==> AllSpace(s))
    ensures Strip(s) == s[i..j]
  {
    if i < j {
      assert s[i..j][0] == s[i] && s[i..j][j - i - 1] == s[j - 1];
      assert forall k :: 0 <= k < i ==> s[..i][k] == s[k];
      assert forall k :: j <= k < |s| ==> s[j..][k - j] == s[k];
      StripIsSlice(s, i, j);
    }
  }

  lemma StripIsSlice(s: string, i: nat, j: nat)
    requires i < j <= |s| && !IsSpace(s[i]) && !IsSpace(s[j - 1])
    requires forall k :: 0 <= k < i ==> IsSpace(s[k])
    requires forall k :: j <= k < |s| ==> IsSpace(s[k])
    ensures Strip(s) == s[i..j]
  {
    LeadingBound(s, i);
    TrailingBound(s, j);
  }

  /** The whitespace prefix ends at the first non-space character. */
  lemma {:induction false} LeadingBound(s: string, i: nat)
    requires i < |s| && !IsSpace(s[i])
    requires forall k :: 0 <= k < i ==> IsSpace(s[k])
    ensures LeadingSpace(s) == i
  {
    if i > 0 {
      assert forall k :: 0 <= k < i - 1 ==> s[1..][k] == s[k + 1];
      LeadingBound(s[1..], i - 1);
    }
  }

  /** The whitespace suffix begins after the last non-space character. */
  lemma {:induction false} TrailingBound(s: string, j: nat)
    requires 0 < j <= |s| && !IsSpace(s[j - 1])
    requires forall k :: j <= k < |s| ==> IsSpace(s[k])
    ensures TrimEnd(s) == j
  {
    if j < |s| {
      var t := s[..|s| - 1];
      assert forall k :: j <= k < |t| ==> t[k] == s[k];
      TrailingBound(t, j);
    }
  }

  /** Cutting off a whitespace prefix and a whitespace suffix. */
  lemma CutSpace(s: string, i: nat, j: nat)
    requires i <= j <= |s|
    requires forall k :: 0 <= k < i ==> IsSpace(s[k])
    requires forall k :: j <= k < |s| ==> IsSpace(s[k])
    ensures StrippedFrom(s[i..j], s)
  {
    assert AllSpace(s[..i]) && AllSpace(s[j..]);
  }

  /** The slice Strip keeps, given how far the whitespace runs from each
      end: non-empty, bounded by non-space characters. */
  lemma StripSlice(s: string, i: nat, j: nat)
    requires i < |s| && j <= |s|
    requires forall k :: 0 <= k < i ==> IsSpace(s[k])
    requires !IsSpace(s[i])
    requires forall k :: j <= k < |s| ==> IsSpace(s[k])
    requires 0 < j ==> !IsSpace(s[j - 1])
    ensures i < j
    ensures NoOuterSpace(s[i..j]) && s[i..j] != []
    ensures !AllSpace(s)
    ensures NoOuterSpace(s) ==> s[i..j] == s
    ensures multiset(s[i..j]) <= multiset(s)
  {
    assert i < j;
    SliceNoOuterSpace(s, i, j);
    if NoOuterSpace(s) {
      assert i == 0 && j == |s|;
    }
    MultisetSlice(s, i, j);
  }

  lemma SliceNoOuterSpace(s: string, i: nat, j: nat)
    requires i < j <= |s|
    requires !IsSpace(s[i]) && !IsSpace(s[j - 1])
    ensures NoOuterSpace(s[i..j])
  {
    assert s[i..j][0] == s[i] && s[i..j][j - i - 1] == s[j - 1];
  }

  lemma MultisetSlice(s: string, i: nat, j: nat)
    requires i <= j <= |s|
    ensures multiset(s[i..j]) <= multiset(s)
  {
    assert s == s[..i] + s[i..j] + s[j..];
  }

  /** Stripping twice is stripping once. */
  lemma StripIdempotent(s: string)
    ensures Strip(Strip(s)) == Strip(s)
  {
  }

  /** Number of occurrences of `c` in `s` (Python's `s.count(c)`). */
  function Count(s: string, c: char): (n: nat)
    ensures n <= |s|
    ensures n == 0 <==> c !in s
  {
    if s == [] then 0 else (if s[0] == c then 1 else 0) + Count(s[1..], c)
  }

  lemma {:induction false} CountConcat(a: string, b: string, c: char)
    ensures Count(a + b, c) == Count(a, c) + Count(b, c)
  {
    if a != [] {
      assert (a + b)[0] == a[0];
      assert (a + b)[1..] == a[1..] + b;
      CountConcat(a[1..], b, c);
      assert Count(a + b, c) == (if a[0] == c then 1 else 0) + Count(a[1..] + b, c);
    } else {
      assert a + b == b;
    }
  }

  /** Python's `s.split("\n")`: the pieces between newlines, at least one. */
  function Split(s: string): (lines: seq<string>)
    ensures |lines| >= 1
    ensures forall k :: 0 <= k < |lines| ==> '\n' !in lines[k]
  {
    if s == [] then [[]]
    else if s[0] == '\n' then [[]] + Split(s[1..])
    else
      var rest := Split(s[1..]);
      [[s[0]] + rest[0]] + rest[1..]
  }

  /** Python's `"\n".join(lines)`. */
  function Join(lines: seq<string>): string
    requires |lines| >= 1
  {
    if |lines| == 1 then lines[0] else lines[0] + "\n" + Join(lines[1..])
  }

  /** Joining the pieces of a split gives back the text. */
  lemma {:induction false} JoinSplit(s: string)
    ensures Join(Split(s)) == s
  {
    if s != [] {
      JoinSplit(s[1..]);
      var rest := Split(s[1..]);
      if s[0] == '\n' {
        assert Split(s)[1..] == rest;
      } else {
        if |rest| == 1 {
        } else {
          assert Split(s)[1..] == rest[1..];
          assert Join(rest) == rest[0] + "\n" + Join(rest[1..]);
        }
      }
    }
  }

  /** There is one more piece than there are newlines. */
  lemma {:induction false} SplitCount(s: string)
    ensures |Split(s)| == Count(s, '\n') + 1
  {
    if s != [] {
      SplitCount(s[1..]);
    }
  }

  /** The first line of `s`: `s.split("\n")[0]`. */
  function FirstLine(s: string): (r: string)
    ensures '\n' !in r
    ensures |r| <= |s| && r == s[..|r|]
    ensures |r| < |s| ==> s[|r|] == '\n'
  {
    if s == [] || s[0] == '\n' then [] else [s[0]] + FirstLine(s[1..])
  }

  lemma {:induction false} FirstLineIsFirstPiece(s: string)
    ensures Split(s)[0] == FirstLine(s)
  {
    if s != [] && s[0] != '\n' {
      FirstLineIsFirstPiece(s[1..]);
    }
  }

  /** Python's `s[:n]`. */
  function Take(s: string, n: nat): (r: string)
    ensures |r| == if |s| <= n then |s| else n
    ensures r == s[..|r|]
    ensures |s| <= n ==> r == s
  {
    if |s| <= n then s else s[..n]
  }

  /** The log preview `text[:n] + ("..." if len(text) > n else "")`. */
  function Preview(text: string, n: nat): (r: string)
    ensures |text| <= n ==> r == text
    ensures |text| > n ==> r == text[..n] + "..."
    ensures |r| <= n + 3
  {
    Take(text, n) + (if |text| > n then "..." else "")
  }

  /** Python's `str.lower` on ASCII letters; every other character is kept. */
  function LowerChar(c: char): (d: char)
  {
    if 'A' <= c <= 'Z' then (c as int + 32) as char else c
  }

  function Lower(s: string): (r: string)
    ensures |r| == |s|
    ensures forall k :: 0 <= k < |s| ==> r[k] == LowerChar(s[k])
  {
    seq(|s|, k requires 0 <= k < |s| => LowerChar(s[k]))
  }

  /** Lower-casing twice is lower-casing once. */
  lemma LowerIdempotent(s: string)
    ensures Lower(Lower(s)) == Lower(s)
  {
  }

  /** `w` occurs in `s` at index `i`. */
  ghost predicate OccursAt(s: string, w: string, i: int) {
    0 <= i && i + |w| <= |s| && s[i..i + |w|] == w
  }

  /** Python's `w in s` for strings. */
  function Contains(s: string, w: string): (b: bool)
    ensures b <==> exists i :: OccursAt(s, w, i)
  {
    if |w| > |s| then false
    else if s[..|w|] == w then (assert OccursAt(s, w, 0); true)
    else
      var b := Contains(s[1..], w);
      assert b <==> exists i :: OccursAt(s, w, i) by {
        if b {
          var i :| OccursAt(s[1..], w, i);
          assert s[i + 1..i + 1 + |w|] == s[1..][i..i + |w|];
          assert OccursAt(s, w, i + 1);
        }
        if i :| OccursAt(s, w, i) {
          assert i != 0;
          assert s[1..][i - 1..i - 1 + |w|] == s[i..i + |w|];
          assert OccursAt(s[1..], w, i - 1);
        }
      }
      b
  }
}
