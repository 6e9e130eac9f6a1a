/**
 * The few Python string operations the script relies on: `str.join`,
 * `str.split` with a one-character separator, `str.lower` (ASCII letters
 * only) and `re.sub` with a literal pattern and an empty replacement.
 */
module Strings {

  /** `sep.join(parts)`: the parts in order with `sep` between neighbours. */
  function Join(sep: string, parts: seq<string>): string
    decreases |parts|
  {
    if |parts| == 0 then ""
    else if |parts| == 1 then parts[0]
    else parts[0] + sep + Join(sep, parts[1..])
  }

  /**
   * `s.split(c)`: the maximal runs of `s` between occurrences of `c`, empty
   * runs included, so there is always at least one field.
   */
  function Split(s: string, c: char): (fields: seq<string>)
    ensures |fields| >= 1
    decreases |s|
  {
    if s == [] then [""]
    else
      var rest := Split(s[1..], c);
      if s[0] == c then [""] + rest
      else [[s[0]] + rest[0]] + rest[1..]
  }

  /** Joining the fields of a split with the separator gives back the string. */
  lemma {:induction false} JoinSplit(s: string, c: char)
    ensures Join([c], Split(s, c)) == s
    decreases |s|
  {
    if s != [] {
      var rest := Split(s[1..], c);
      JoinSplit(s[1..], c);
      if s[0] == c {
        assert Split(s, c) == [""] + rest;
        assert ([""] + rest)[1..] == rest;
      } else {
        var fields := Split(s, c);
        assert fields == [[s[0]] + rest[0]] + rest[1..];
        if |rest| > 1 {
          assert fields[1..] == rest[1..];
          assert Join([c], rest) == rest[0] + [c] + Join([c], rest[1..]);
        }
      }
    }
  }

  /** No field of a split contains the separator. */
  lemma {:induction false} SplitFieldsAreFree(s: string, c: char)
    ensures forall i :: 0 <= i < |Split(s, c)| ==> c !in Split(s, c)[i]
    decreases |s|
  {
    if s != [] {
      SplitFieldsAreFree(s[1..], c);
      var rest := Split(s[1..], c);
      if s[0] != c {
        var fields := Split(s, c);
        assert fields[0] == [s[0]] + rest[0];
        forall i | 1 <= i < |fields| ensures c !in fields[i] {
          assert fields[i] == rest[i];
        }
      }
    }
  }

  /** A string without the separator splits into itself alone. */
  lemma {:induction false} SplitWithoutSeparator(s: string, c: char)
    requires c !in s
    ensures Split(s, c) == [s]
    decreases |s|
  {
    if s != [] {
      assert s[0] != c && c !in s[1..];
      SplitWithoutSeparator(s[1..], c);
      assert [s[0]] + s[1..] == s;
    }
  }

  /** A separator-free first field comes off the front of a split unchanged. */
  lemma {:induction false} SplitAfterField(f: string, c: char, t: string)
    requires c !in f
    ensures Split(f + [c] + t, c) == [f] + Split(t, c)
    decreases |f|
  {
    if f == [] {
      assert f + [c] + t == [c] + t;
      assert ([c] + t)[1..] == t;
    } else {
      var s := f + [c] + t;
      assert s[0] == f[0] && f[0] != c;
      assert s[1..] == f[1..] + [c] + t;
      assert c !in f[1..];
      SplitAfterField(f[1..], c, t);
      var rest := Split(s[1..], c);
      assert rest[0] == f[1..] && rest[1..] == Split(t, c);
      assert [f[0]] + f[1..] == f;
    }
  }

  /** Splitting a join of separator-free fields gives back the fields. */
  lemma {:induction false} SplitJoin(fields: seq<string>, c: char)
    requires |fields| >= 1
    requires forall i :: 0 <= i < |fields| ==> c !in fields[i]
    ensures Split(Join([c], fields), c) == fields
    decreases |fields|
  {
    if |fields| == 1 {
      SplitWithoutSeparator(fields[0], c);
    } else {
      SplitJoin(fields[1..], c);
      SplitAfterField(fields[0], c, Join([c], fields[1..]));
      assert [fields[0]] + fields[1..] == fields;
    }
  }

  /** Python's `str.lower` on one character, restricted to ASCII letters. */
  function LowerChar(ch: char): char
  {
    if IsUpper(ch) then (ch as int - 'A' as int + 'a' as int) as char else ch
  }

  /** `s.lower()`, ASCII letters only. */
  function Lower(s: string): (r: string)
    ensures |r| == |s|
    decreases |s|
  {
    if s == [] then [] else [LowerChar(s[0])] + Lower(s[1..])
  }

  predicate IsUpper(ch: char)
  {
    'A' <= ch <= 'Z'
  }

  /** Lower-casing leaves no upper-case ASCII letter and keeps every other character. */
  lemma {:induction false} LowerAt(s: string, i: nat)
    requires i < |s|
    ensures Lower(s)[i] == LowerChar(s[i])
    ensures !IsUpper(Lower(s)[i])
    ensures !IsUpper(s[i]) ==> Lower(s)[i] == s[i]
    decreases |s|
  {
    if i > 0 {
      LowerAt(s[1..], i - 1);
    }
  }

  /** Lower-casing twice is lower-casing once. */
  lemma {:induction false} LowerIdempotent(s: string)
    ensures Lower(Lower(s)) == Lower(s)
    decreases |s|
  {
    if s != [] {
      LowerIdempotent(s[1..]);
    }
  }

  /** Lower-casing is applied character by character, so it distributes over concatenation. */
  lemma {:induction false} LowerAppend(a: string, b: string)
    ensures Lower(a + b) == Lower(a) + Lower(b)
    decreases |a|
  {
    if a != [] {
      assert (a + b)[0] == a[0];
      assert (a + b)[1..] == a[1..] + b;
      LowerAppend(a[1..], b);
      assert Lower(a + b) == [LowerChar(a[0])] + Lower(a[1..] + b);
      assert Lower(a) == [LowerChar(a[0])] + Lower(a[1..]);
    } else {
      assert a + b == b;
    }
  }

  /** `p` stands in `s` at position `i`. */
  predicate MatchAt(p: string, s: string, i: nat)
  {
    i + |p| <= |s| && s[i..i + |p|] == p
  }

  /** `p` occurs in `s` as a contiguous substring. */
  predicate Occurs(p: string, s: string)
  {
    exists i: nat :: i <= |s| && MatchAt(p, s, i)
  }

  /**
   * `re.sub(p, '', s)` for a literal pattern `p`: one left-to-right scan that
   * deletes each match it meets and resumes after it, without rescanning the
   * text the deletions bring together.
   */
  function RemoveAll(s: string, p: string): (r: string)
    requires |p| > 0
    ensures |r| <= |s|
    decreases |s|
  {
    if |s| < |p| then s
    else if s[..|p|] == p then RemoveAll(s[|p|..], p)
    else [s[0]] + RemoveAll(s[1..], p)
  }

  /** Text in which the pattern does not occur passes through unchanged. */
  lemma {:induction false} RemoveAllAbsent(s: string, p: string)
    requires |p| > 0
    requires !Occurs(p, s)
    ensures RemoveAll(s, p) == s
    decreases |s|
  {
    if |s| >= |p| {
      assert !MatchAt(p, s, 0);
      assert s[0..|p|] == s[..|p|];
      if Occurs(p, s[1..]) {
        var i: nat :| i <= |s[1..]| && MatchAt(p, s[1..], i);
        assert s[1..][i..i + |p|] == s[i + 1..i + 1 + |p|];
        assert MatchAt(p, s, i + 1);
        assert false;
      }
      RemoveAllAbsent(s[1..], p);
      assert [s[0]] + s[1..] == s;
    }
  }

  /** No proper prefix of `p` is also a suffix of `p`, so two matches of `p` can never overlap. */
  predicate Borderless(p: string)
  {
    forall k :: 0 < k < |p| ==> p[..k] != p[|p| - k..]
  }

  /** A match of a borderless pattern cannot start inside a shorter text in front of another match. */
  lemma NoMatchStraddles(a: string, p: string, b: string)
    requires |p| > 0 && Borderless(p)
    requires 0 < |a| < |p|
    ensures (a + p + b)[..|p|] != p
  {
    var k := |p| - |a|;
    var front := (a + p + b)[..|p|];
    assert front == a + p[..k];
    assert front[|a|..] == p[..k];
    assert p[..k] != p[|a|..];
  }

  /** A match at the front of a text longer than the pattern is a match at the front of its first part. */
  lemma RemoveAllFrontMatch(a: string, p: string, b: string)
    requires |p| > 0 && |a| >= |p|
    requires (a + p + b)[..|p|] == p
    ensures a[..|p|] == p
    ensures RemoveAll(a + p + b, p) == RemoveAll(a[|p|..] + p + b, p)
    ensures RemoveAll(a, p) == RemoveAll(a[|p|..], p)
  {
    assert (a + p + b)[..|p|] == a[..|p|];
    assert (a + p + b)[|p|..] == a[|p|..] + p + b;
  }

  /** Without a match at the front, the first character is kept, in the whole text and in its first part alike. */
  lemma RemoveAllFrontKept(a: string, p: string, b: string)
    requires |p| > 0 && |a| > 0
    requires (a + p + b)[..|p|] != p
    ensures RemoveAll(a + p + b, p) == [a[0]] + RemoveAll(a[1..] + p + b, p)
    ensures RemoveAll(a, p) == [a[0]] + RemoveAll(a[1..], p)
  {
    assert (a + p + b)[0] == a[0];
    assert (a + p + b)[1..] == a[1..] + p + b;
    if |a| >= |p| {
      assert (a + p + b)[..|p|] == a[..|p|];
    } else {
      assert [a[0]] + a[1..] == a;
    }
  }

  /**
   * With a borderless pattern, a match is deleted wherever it stands, and the
   * text on either side is cleaned independently of the other.
   */
  lemma {:induction false} RemoveAllAround(a: string, p: string, b: string)
    requires |p| > 0 && Borderless(p)
    ensures RemoveAll(a + p + b, p) == RemoveAll(a, p) + RemoveAll(b, p)
    decreases |a|
  {
    if a == [] {
      assert a + p + b == p + b;
      assert (p + b)[..|p|] == p;
      assert (p + b)[|p|..] == b;
    } else if |a| >= |p| && (a + p + b)[..|p|] == p {
      RemoveAllFrontMatch(a, p, b);
      RemoveAllAround(a[|p|..], p, b);
    } else {
      if |a| < |p| {
        NoMatchStraddles(a, p, b);
      }
      RemoveAllFrontKept(a, p, b);
      RemoveAllAround(a[1..], p, b);
    }
  }
}
