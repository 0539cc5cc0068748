/** The handful of Python `str` operations the scanner worker relies on:
    `isspace`, `strip`, `in` (substring test), `split(sep)` and
    `replace(old, "")`, each written out with the semantics CPython gives it. */
module PyStr {

  /** `c.isspace()` in CPython: the characters of bidirectional class WS, B or S
      and those of general category Zs. */
  predicate IsSpace(c: char) {
    ('\U{9}' <= c <= '\U{D}') || ('\U{1C}' <= c <= '\U{20}') || c == '\U{85}' || c == '\U{A0}'
    || c == '\U{1680}' || ('\U{2000}' <= c <= '\U{200A}') || c == '\U{2028}' || c == '\U{2029}'
    || c == '\U{202F}' || c == '\U{205F}' || c == '\U{3000}'
  }

  predicate AllSpace(s: string) {
    forall k :: 0 <= k < |s| ==> IsSpace(s[k])
  }

  /** How many whitespace characters `s.lstrip()` removes. */
  function LeadingSpaces(s: string): (n: nat)
    ensures n <= |s|
  {
    if |s| > 0 && IsSpace(s[0]) then 1 + LeadingSpaces(s[1..]) else 0
  }

  /** How many whitespace characters `s.rstrip()` removes. */
  function TrailingSpaces(s: string): (n: nat)
    ensures n <= |s|
  {
    if |s| > 0 && IsSpace(s[|s| - 1]) then 1 + TrailingSpaces(s[..|s| - 1]) else 0
  }

  /** `s.strip()`: the slice of `s` left after removing whitespace at both ends. */
  function Strip(s: string): (r: string)
    ensures |r| <= |s|
  {
    var l := s[LeadingSpaces(s)..];
    l[..|l| - TrailingSpaces(l)]
  }

  /** The leading run is all whitespace and is as long as it can be. */
  lemma {:induction false} LeadingSpacesMaximal(s: string)
    ensures AllSpace(s[..LeadingSpaces(s)])
    ensures LeadingSpaces(s) == |s| || !IsSpace(s[LeadingSpaces(s)])
  {
    if |s| > 0 && IsSpace(s[0]) {
      LeadingSpacesMaximal(s[1..]);
      var n := LeadingSpaces(s[1..]);
      assert s[..n + 1] == [s[0]] + s[1..][..n];
    }
  }

  /** The trailing run is all whitespace and is as long as it can be. */
  lemma {:induction false} TrailingSpacesMaximal(s: string)
    ensures AllSpace(s[|s| - TrailingSpaces(s)..])
    ensures TrailingSpaces(s) == |s| || !IsSpace(s[|s| - TrailingSpaces(s) - 1])
  {
    if |s| > 0 && IsSpace(s[|s| - 1]) {
      var t := s[..|s| - 1];
      TrailingSpacesMaximal(t);
      var n := TrailingSpaces(t);
      assert s[|s| - (n + 1)..] == t[|t| - n..] + [s[|s| - 1]];
    }
  }

  /** What `strip` returns starts and ends with a non-whitespace character. */
  lemma StripTrimmed(s: string)
    ensures Strip(s) == [] || (!IsSpace(Strip(s)[0]) && !IsSpace(Strip(s)[|Strip(s)| - 1]))
  {
    var l := s[LeadingSpaces(s)..];
    LeadingSpacesMaximal(s);
    TrailingSpacesMaximal(l);
  }

  /** `strip` introduces no character that was not there. */
  lemma StripKeepsOut(s: string, c: char)
    requires c !in s
    ensures c !in Strip(s)
  {
    var l := s[LeadingSpaces(s)..];
    assert forall k :: 0 <= k < |l| ==> l[k] == s[LeadingSpaces(s) + k];
  }

  lemma {:induction false} LeadingPadded(pad: string, s: string)
    requires AllSpace(pad)
    requires s == [] || !IsSpace(s[0])
    ensures LeadingSpaces(pad + s) == |pad|
    decreases |pad|
  {
    if pad == [] {
      assert pad + s == s;
    } else {
      assert (pad + s)[1..] == pad[1..] + s;
      LeadingPadded(pad[1..], s);
    }
  }

  lemma {:induction false} TrailingPadded(s: string, pad: string)
    requires AllSpace(pad)
    requires s == [] || !IsSpace(s[|s| - 1])
    ensures TrailingSpaces(s + pad) == |pad|
    decreases |pad|
  {
    if pad == [] {
      assert s + pad == s;
    } else {
      assert (s + pad)[..|s + pad| - 1] == s + pad[..|pad| - 1];
      TrailingPadded(s, pad[..|pad| - 1]);
    }
  }

  /** Stripping recovers any text that has no whitespace at its ends from
      whitespace padding on both sides. */
  lemma StripPadded(front: string, s: string, back: string)
    requires AllSpace(front) && AllSpace(back)
    requires s == [] || (!IsSpace(s[0]) && !IsSpace(s[|s| - 1]))
    ensures Strip(front + s + back) == s
  {
    var all := front + s + back;
    if s == [] {
      assert all == front + back;
      assert AllSpace(all);
      LeadingSpacesMaximal(all);
      LeadingPadded(all, []);
      assert all + [] == all;
      assert all[LeadingSpaces(all)..] == [];
    } else {
      assert all == front + (s + back);
      LeadingPadded(front, s + back);
      assert all[|front|..] == s + back;
      TrailingPadded(s, back);
    }
  }

  /** `p in s` for strings: `p` occurs as a contiguous piece of `s`. */
  predicate Contains(s: string, p: string)
    decreases |s|
  {
    |p| <= |s| && (s[..|p|] == p || (|s| > 0 && Contains(s[1..], p)))
  }

  /** `p` occurs in `s` starting at index `i`. */
  predicate OccursAt(s: string, p: string, i: int) {
    0 <= i && i + |p| <= |s| && s[i..i + |p|] == p
  }

  /** `Contains` agrees with "`p` occurs at some index of `s`". */
  lemma {:induction false} ContainsAt(s: string, p: string)
    ensures Contains(s, p) <==> exists i :: OccursAt(s, p, i)
    decreases |s|
  {
    if |p| <= |s| && s[..|p|] != p && |s| > 0 {
      ContainsAt(s[1..], p);
      if exists i :: OccursAt(s, p, i) {
        var i :| OccursAt(s, p, i);
        assert i > 0;
        assert s[1..][i - 1..i - 1 + |p|] == s[i..i + |p|];
        assert OccursAt(s[1..], p, i - 1);
      }
      if Contains(s[1..], p) {
        var j :| OccursAt(s[1..], p, j);
        assert s[j + 1..j + 1 + |p|] == s[1..][j..j + |p|];
        assert OccursAt(s, p, j + 1);
      }
    } else if |p| <= |s| && s[..|p|] == p {
      assert OccursAt(s, p, 0);
    }
  }

  /** Framing a string with characters foreign to `p` creates no occurrence. */
  lemma FramedLacks(name: string, p: string, c: char, d: char)
    requires |p| > 0 && c !in p && d !in p
    requires !Contains(name, p)
    ensures !Contains([c] + name + [d], p)
  {
    var s := [c] + name + [d];
    assert s[0] == c && s[|s| - 1] == d;
    assert forall j :: 1 <= j <= |name| ==> s[j] == name[j - 1];
    ContainsAt(s, p);
    forall i | OccursAt(s, p, i) ensures false {
      OccurrenceEnds(s, p, i);
      if 0 < i && i + |p| < |s| {
        assert s[i..i + |p|] == name[i - 1..i - 1 + |p|];
        assert OccursAt(name, p, i - 1);
        ContainsAt(name, p);
      }
    }
  }

  /** An occurrence starts with the first character of `p` and ends with its
      last one. */
  lemma OccurrenceEnds(s: string, p: string, i: int)
    requires |p| > 0 && OccursAt(s, p, i)
    ensures s[i] == p[0] && s[i + |p| - 1] == p[|p| - 1]
    ensures s[i] in p && s[i + |p| - 1] in p
  {
    assert s[i..i + |p|][0] == s[i];
    assert s[i..i + |p|][|p| - 1] == s[i + |p| - 1];
  }

  /** A string in which the first character of `p` never appears lacks `p`. */
  lemma LacksFirstChar(s: string, p: string)
    requires |p| > 0
    requires forall k :: 0 <= k < |s| ==> s[k] != p[0]
    ensures !Contains(s, p)
  {
    ContainsAt(s, p);
    forall i | OccursAt(s, p, i) ensures false {
      OccurrenceEnds(s, p, i);
    }
  }

  /** `sep.join(parts)` for a one-character separator. */
  function Join(parts: seq<string>, sep: char): string
    requires |parts| >= 1
  {
    if |parts| == 1 then parts[0] else parts[0] + [sep] + Join(parts[1..], sep)
  }

  /** `s.split(sep)` with an explicit one-character separator: always at
      least one piece, no piece contains the separator, and there is more
      than one piece exactly when the separator occurs. */
  function Split(s: string, sep: char): (parts: seq<string>)
    ensures |parts| >= 1
    ensures |parts| > 1 <==> sep in s
    ensures forall k :: 0 <= k < |parts| ==> sep !in parts[k]
  {
    if s == [] then [[]]
    else if s[0] == sep then [[]] + Split(s[1..], sep)
    else
      var rest := Split(s[1..], sep);
      [[s[0]] + rest[0]] + rest[1..]
  }

  /** Joining the pieces with the separator gives back the string. */
  lemma {:induction false} SplitJoin(s: string, sep: char)
    ensures Join(Split(s, sep), sep) == s
  {
    if s == [] {
    } else if s[0] == sep {
      SplitJoin(s[1..], sep);
      assert Split(s, sep)[1..] == Split(s[1..], sep);
    } else {
      var rest := Split(s[1..], sep);
      SplitJoin(s[1..], sep);
      var parts := Split(s, sep);
      assert parts[1..] == rest[1..];
      if |rest| == 1 {
        assert Join(parts, sep) == [s[0]] + rest[0];
      } else {
        assert Join(rest, sep) == rest[0] + [sep] + Join(rest[1..], sep);
        assert Join(parts, sep) == [s[0]] + rest[0] + [sep] + Join(rest[1..], sep);
      }
      assert s == [s[0]] + s[1..];
    }
  }

  /** The second piece of a split, the text between the first separator and the
      next one (or the end). */
  lemma {:induction false} SplitSecond(a: string, sep: char, b: string)
    requires sep !in a
    ensures |Split(a + [sep] + b, sep)| > 1
    ensures Split(a + [sep] + b, sep)[0] == a
    ensures Split(a + [sep] + b, sep)[1] == Split(b, sep)[0]
  {
    if a == [] {
      assert a + [sep] + b == [sep] + b;
      assert ([sep] + b)[1..] == b;
    } else {
      assert (a + [sep] + b)[0] == a[0];
      assert (a + [sep] + b)[1..] == a[1..] + [sep] + b;
      SplitSecond(a[1..], sep, b);
      assert [a[0]] + a[1..] == a;
    }
  }

  /** `s.replace(p, "")` for a non-empty `p`: CPython scans left to right and
      deletes every non-overlapping occurrence. */
  function RemoveAll(s: string, p: string): (r: string)
    requires |p| > 0
    ensures |r| <= |s|
    decreases |s|
  {
    if |s| < |p| then s
    else if s[..|p|] == p then RemoveAll(s[|p|..], p)
    else [s[0]] + RemoveAll(s[1..], p)
  }

  /** Deleting occurrences introduces no character that was not there. */
  lemma {:induction false} RemoveAllKeepsOut(s: string, p: string, c: char)
    requires |p| > 0
    requires c !in s
    ensures c !in RemoveAll(s, p)
    decreases |s|
  {
    if |s| < |p| {
    } else if s[..|p|] == p {
      assert forall k :: 0 <= k < |s| - |p| ==> s[|p|..][k] == s[|p| + k];
      RemoveAllKeepsOut(s[|p|..], p, c);
    } else {
      assert forall k :: 0 <= k < |s| - 1 ==> s[1..][k] == s[1 + k];
      RemoveAllKeepsOut(s[1..], p, c);
    }
  }

  /** Without an occurrence of `p`, `replace(p, "")` leaves the string alone. */
  lemma {:induction false} RemoveAbsent(s: string, p: string)
    requires |p| > 0
    requires !Contains(s, p)
    ensures RemoveAll(s, p) == s
    decreases |s|
  {
    if |s| >= |p| {
      RemoveAbsent(s[1..], p);
      assert [s[0]] + s[1..] == s;
    }
  }

  /** An occurrence at the front is deleted and the scan resumes after it. */
  lemma RemoveAtFront(p: string, b: string)
    requires |p| > 0
    ensures RemoveAll(p + b, p) == RemoveAll(b, p)
  {
    assert (p + b)[..|p|] == p;
    assert (p + b)[|p|..] == b;
  }

  /** A first character that starts no occurrence is kept. */
  lemma RemoveKeepsFront(s: string, p: string)
    requires |p| > 0 && |s| > 0
    requires |s| < |p| || s[..|p|] != p
    ensures RemoveAll(s, p) == [s[0]] + RemoveAll(s[1..], p)
  {
    if |s| < |p| {
      assert s == [s[0]] + s[1..];
    }
  }

  /** A piece free of `p` that ends in a character foreign to `p` is kept
      whole, and removal resumes at the occurrence right after it. */
  lemma {:induction false} RemoveBeforeOccurrence(a: string, p: string, b: string)
    requires |p| > 0
    requires !Contains(a, p)
    requires a == [] || a[|a| - 1] !in p
    ensures RemoveAll(a + p + b, p) == a + RemoveAll(b, p)
    decreases |a|
  {
    if a == [] {
      assert a + p + b == p + b;
      RemoveAtFront(p, b);
    } else {
      var s := a + p + b;
      var rest := RemoveAll(b, p);
      assert RemoveAll(s, p) == [a[0]] + RemoveAll(s[1..], p) by {
        assert s[..|p|] != p by {
          if |a| >= |p| {
            assert s[..|p|] == a[..|p|];
          } else {
            assert s[..|p|][|a| - 1] == a[|a| - 1];
          }
        }
        RemoveKeepsFront(s, p);
      }
      assert RemoveAll(s[1..], p) == a[1..] + rest by {
        assert s[1..] == a[1..] + p + b;
        RemoveBeforeOccurrence(a[1..], p, b);
      }
      assert [a[0]] + (a[1..] + rest) == a + rest;
    }
  }
}
