/** Text primitives the ticket viewer relies on: the character classes its
    regular expressions use, splitting a record on its delimiter, and the
    few Python string operations it calls (`in`, `startswith`, `replace`,
    `lower`). */
module Strings {

  /** `\d` of the record patterns, restricted to ASCII digits. */
  predicate IsDigit(c: char) {
    '0' <= c <= '9'
  }

  /** The class `[一-龥]` (CJK unified ideographs). */
  predicate IsCjk(c: char) {
    '\U{4E00}' <= c <= '\U{9FA5}'
  }

  /** `\w`: ASCII letters and digits, underscore, and CJK ideographs. */
  predicate IsWordChar(c: char) {
    'a' <= c <= 'z' || 'A' <= c <= 'Z' || IsDigit(c) || c == '_' || IsCjk(c)
  }

  predicate AllWord(s: string) {
    forall k | 0 <= k < |s| :: IsWordChar(s[k])
  }

  predicate AllDigits(s: string) {
    forall k | 0 <= k < |s| :: IsDigit(s[k])
  }

  /** The longest prefix of `s` made of word characters (what a greedy `\w*` takes). */
  function WordPrefix(s: string): (r: string)
    ensures |r| <= |s| && r == s[..|r|]
    ensures AllWord(r)
    ensures |r| == |s| || !IsWordChar(s[|r|])
  {
    if |s| == 0 || !IsWordChar(s[0]) then "" else [s[0]] + WordPrefix(s[1..])
  }

  /** The longest suffix of `s` made of word characters (where a leftmost `\w+\|` starts). */
  function WordSuffix(s: string): (r: string)
    ensures |r| <= |s| && r == s[|s| - |r|..]
    ensures AllWord(r)
    ensures |r| == |s| || !IsWordChar(s[|s| - |r| - 1])
  {
    if |s| == 0 || !IsWordChar(s[|s| - 1]) then "" else WordSuffix(s[..|s| - 1]) + [s[|s| - 1]]
  }

  /** The length of the longest run of digits at the start of `s` (a greedy `\d+`). */
  function DigitRun(s: string): (n: nat)
    ensures n <= |s| && AllDigits(s[..n])
    ensures n == |s| || !IsDigit(s[n])
  {
    if |s| == 0 || !IsDigit(s[0]) then 0 else 1 + DigitRun(s[1..])
  }

  /** Python's `c.lower()` for one character, on ASCII letters. */
  function ToLower(c: char): (r: char)
    ensures 'A' <= c <= 'Z' ==> 'a' <= r <= 'z' && r as int - c as int == 32
    ensures !('A' <= c <= 'Z') ==> r == c
  {
    if 'A' <= c <= 'Z' then (c as int + 32) as char else c
  }

  /** Python's `s.startswith(p)`. */
  predicate StartsWith(s: string, p: string): (b: bool)
    ensures b ==> |p| <= |s|
    ensures b && |p| > 0 ==> |s| > 0 && s[0] == p[0]
  {
    |p| <= |s| && s[..|p|] == p
  }

  /** `s` starts with `p` exactly when it agrees with `p` on each of `p`'s positions. */
  lemma StartsWithAgrees(s: string, p: string)
    ensures StartsWith(s, p) <==> |p| <= |s| && forall k | 0 <= k < |p| :: s[k] == p[k]
  {
    if |p| <= |s| && forall k | 0 <= k < |p| :: s[k] == p[k] {
      assert s[..|p|] == p;
    }
  }

  /** Python's `p in s` for strings: `p` occurs as a contiguous piece of `s`. */
  predicate Contains(s: string, p: string): (b: bool)
    ensures |p| == 0 ==> b
    ensures b ==> |p| <= |s|
    decreases |s|
  {
    StartsWith(s, p) || (|s| > 0 && Contains(s[1..], p))
  }

  /** A text containing a non-empty `p` holds `p`'s first character. */
  lemma {:induction false} ContainsHead(s: string, p: string)
    requires |p| > 0
    ensures Contains(s, p) ==> p[0] in s
    decreases |s|
  {
    if |s| > 0 && !StartsWith(s, p) {
      ContainsHead(s[1..], p);
      if Contains(s[1..], p) {
        assert s[1..][0] == s[1];
      }
    } else if StartsWith(s, p) {
      assert s[0] == p[0];
    }
  }

  /** `p` sits in `s` starting at position `i`. */
  predicate OccursAt(s: string, p: string, i: int) {
    0 <= i <= |s| - |p| && s[i..i + |p|] == p
  }

  /** `Contains` holds exactly when `p` occurs at some position of `s`. */
  lemma {:induction false} ContainsAt(s: string, p: string)
    ensures Contains(s, p) <==> exists i :: OccursAt(s, p, i)
    decreases |s|
  {
    if |s| > 0 {
      ContainsAt(s[1..], p);
      if Contains(s[1..], p) {
        var i :| OccursAt(s[1..], p, i);
        assert s[i + 1..i + 1 + |p|] == s[1..][i..i + |p|];
        assert OccursAt(s, p, i + 1);
      }
      if StartsWith(s, p) {
        assert OccursAt(s, p, 0);
      }
      if i :| OccursAt(s, p, i) {
        if i > 0 {
          assert s[1..][i - 1..i - 1 + |p|] == s[i..i + |p|];
          assert OccursAt(s[1..], p, i - 1);
        }
      }
    } else if StartsWith(s, p) {
      assert OccursAt(s, p, 0);
    }
  }

  /** A piece free of `sep` cannot straddle a `sep`: it occurs in
      `x + [sep] + y` exactly when it occurs in `x` or in `y`. */
  lemma ContainsAround(x: string, y: string, sep: char, p: string)
    requires sep !in p
    ensures Contains(x + [sep] + y, p) <==> Contains(x, p) || Contains(y, p)
  {
    var s := x + [sep] + y;
    ContainsAt(s, p);
    if Contains(s, p) {
      var i :| OccursAt(s, p, i);
      OccurrenceSide(x, y, sep, p, i);
    }
    if Contains(x, p) {
      ContainsAt(x, p);
      var i :| OccursAt(x, p, i);
      assert s[i..i + |p|] == x[i..i + |p|];
      assert OccursAt(s, p, i);
    }
    if Contains(y, p) {
      ContainsAt(y, p);
      var i :| OccursAt(y, p, i);
      var k := i + |x| + 1;
      assert s[k..k + |p|] == y[i..i + |p|];
      assert OccursAt(s, p, k);
    }
  }

  /** An occurrence in `x + [sep] + y` of a `sep`-free piece lies in `x` or in `y`. */
  lemma OccurrenceSide(x: string, y: string, sep: char, p: string, i: int)
    requires sep !in p && OccursAt(x + [sep] + y, p, i)
    ensures Contains(x, p) || Contains(y, p)
  {
    var s := x + [sep] + y;
    if i + |p| <= |x| {
      assert x[i..i + |p|] == s[i..i + |p|];
      ContainsAt(x, p);
      assert OccursAt(x, p, i);
    } else if i > |x| {
      assert y[i - |x| - 1..i - |x| - 1 + |p|] == s[i..i + |p|];
      ContainsAt(y, p);
      assert OccursAt(y, p, i - |x| - 1);
    } else {
      CharOfOccurrence(s, p, i, |x|);
      assert false;
    }
  }

  /** A character inside an occurrence of `p` is a character of `p`. */
  lemma CharOfOccurrence(s: string, p: string, i: int, k: int)
    requires OccursAt(s, p, i) && i <= k < i + |p|
    ensures s[k] in p
  {
    assert s[k] == s[i..i + |p|][k - i];
  }

  /** The same for a whole join: a `sep`-free piece occurs in the joined
      text exactly when it occurs in one of the parts. */
  lemma {:induction false} ContainsJoin(parts: seq<string>, sep: char, p: string)
    requires |parts| >= 1 && sep !in p
    ensures Contains(Join(parts, sep), p) <==> exists k | 0 <= k < |parts| :: Contains(parts[k], p)
  {
    if |parts| > 1 {
      ContainsJoin(parts[1..], sep, p);
      ContainsAround(parts[0], Join(parts[1..], sep), sep, p);
      if k :| 1 <= k < |parts| && Contains(parts[k], p) {
        assert Contains(parts[1..][k - 1], p);
      }
      if k :| 0 <= k < |parts[1..]| && Contains(parts[1..][k], p) {
        assert Contains(parts[k + 1], p);
      }
    }
  }

  /** Python's `s.replace(c, t)` for a one-character pattern `c`. */
  function Replace(s: string, c: char, t: string): (r: string)
    ensures c !in t ==> c !in r
    ensures c !in s ==> r == s
  {
    if |s| == 0 then ""
    else (if s[0] == c then t else [s[0]]) + Replace(s[1..], c, t)
  }

  /** Replacing distributes over concatenation. */
  lemma {:induction false} ReplaceAppend(a: string, b: string, c: char, t: string)
    ensures Replace(a + b, c, t) == Replace(a, c, t) + Replace(b, c, t)
    decreases |a|
  {
    if |a| > 0 {
      assert (a + b)[1..] == a[1..] + b;
      ReplaceAppend(a[1..], b, c, t);
    } else {
      assert a + b == b;
    }
  }

  /** Replacing with a non-empty text never shortens, and replacing an
      occurring character with a longer text lengthens. */
  lemma {:induction false} ReplaceGrows(s: string, c: char, t: string)
    requires |t| >= 1
    ensures |Replace(s, c, t)| >= |s|
    ensures c in s && |t| >= 2 ==> |Replace(s, c, t)| > |s|
    decreases |s|
  {
    if |s| > 0 {
      ReplaceGrows(s[1..], c, t);
      if s[0] != c && c in s {
        assert c in s[1..];
      }
    }
  }

  /** Glues fields back together with `sep` between consecutive ones. */
  function Join(parts: seq<string>, sep: char): string
  {
    if |parts| == 0 then ""
    else if |parts| == 1 then parts[0]
    else parts[0] + [sep] + Join(parts[1..], sep)
  }

  /** Cuts `s` at every `sep`; Python's `s.split(sep)`. There is always at
      least one field, and no field holds the separator. */
  function Split(s: string, sep: char): (r: seq<string>)
    ensures |r| >= 1
    ensures forall k | 0 <= k < |r| :: sep !in r[k]
    decreases |s|
  {
    if |s| == 0 then [""]
    else
      var rest := Split(s[1..], sep);
      if s[0] == sep then [""] + rest
      else [[s[0]] + rest[0]] + rest[1..]
  }

  /** Splitting loses nothing: joining the fields gives back the text. */
  lemma {:induction false} JoinSplit(s: string, sep: char)
    ensures Join(Split(s, sep), sep) == s
    decreases |s|
  {
    if |s| > 0 {
      var rest := Split(s[1..], sep);
      JoinSplit(s[1..], sep);
      if s[0] == sep {
        assert ([""] + rest)[1..] == rest;
      } else {
        var r := [[s[0]] + rest[0]] + rest[1..];
        assert r[1..] == rest[1..];
        if |rest| > 1 {
          assert Join(rest, sep) == rest[0] + [sep] + Join(rest[1..], sep);
          assert Join(r, sep) == [s[0]] + rest[0] + [sep] + Join(rest[1..], sep);
        }
        assert s == [s[0]] + s[1..];
      }
    }
  }

  /** The other direction: fields free of `sep` come back from their join. */
  lemma {:induction false} SplitJoin(parts: seq<string>, sep: char)
    requires |parts| >= 1
    requires forall k | 0 <= k < |parts| :: sep !in parts[k]
    ensures Split(Join(parts, sep), sep) == parts
    decreases |parts|, |parts[0]|
  {
    var p := parts[0];
    if |p| > 0 {
      var tail := [p[1..]] + parts[1..];
      SplitJoin(tail, sep);
      var j := Join(parts, sep);
      if |parts| == 1 {
        assert j == p;
        assert Join(tail, sep) == p[1..];
      } else {
        assert tail[1..] == parts[1..];
        assert j == p + [sep] + Join(parts[1..], sep);
        assert Join(tail, sep) == p[1..] + [sep] + Join(parts[1..], sep);
      }
      assert j[0] == p[0] && j[1..] == Join(tail, sep);
      assert p[0] != sep && [p[0]] + p[1..] == p;
      assert [[p[0]] + p[1..]] + parts[1..] == parts;
    } else if |parts| > 1 {
      SplitJoin(parts[1..], sep);
      var j := Join(parts, sep);
      assert j == [sep] + Join(parts[1..], sep);
      assert j[1..] == Join(parts[1..], sep);
      assert [""] + parts[1..] == parts;
    } else {
      assert parts == [""];
    }
  }
}
