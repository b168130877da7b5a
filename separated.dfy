/**
 * Joining strings with a separator and splitting them again, with the
 * leftmost-match semantics of JavaScript's `Array.prototype.join` and
 * `String.prototype.split`.
 */
module Separated {

  /** `sep` occurs somewhere in `s`. */
  predicate Occurs(sep: string, s: string)
    decreases |s|
  {
    |s| >= |sep| && (s[..|sep|] == sep || Occurs(sep, s[1..]))
  }

  /** `parts.join(sep)`. */
  function Join(parts: seq<string>, sep: string): string
    decreases |parts|
  {
    if |parts| == 0 then ""
    else if |parts| == 1 then parts[0]
    else parts[0] + sep + Join(parts[1..], sep)
  }

  /** `s.split(sep)`: cut at each leftmost, non-overlapping occurrence of `sep`. */
  function Split(s: string, sep: string): (parts: seq<string>)
    requires |sep| > 0
    ensures |parts| >= 1
    decreases |s|
  {
    if |s| < |sep| then [s]
    else if s[..|sep|] == sep then [""] + Split(s[|sep|..], sep)
    else
      var rest := Split(s[1..], sep);
      [[s[0]] + rest[0]] + rest[1..]
  }

  /** A separator of two different characters: no proper suffix of it is a prefix of it. */
  predicate Unbordered(sep: string)
  {
    |sep| == 2 && sep[0] != sep[1]
  }

  lemma {:induction false} SplitWithout(s: string, sep: string)
    requires |sep| > 0 && !Occurs(sep, s)
    ensures Split(s, sep) == [s]
    decreases |s|
  {
    if |s| >= |sep| {
      SplitWithout(s[1..], sep);
      assert [s[0]] + s[1..] == s;
    }
  }

  /** Splitting stops exactly at the first separator when the part before it has none. */
  lemma {:induction false} SplitAtFirst(p: string, sep: string, rest: string)
    requires Unbordered(sep) && !Occurs(sep, p)
    ensures Split(p + sep + rest, sep) == [p] + Split(rest, sep)
    decreases |p|
  {
    var s := p + sep + rest;
    if p == [] {
      assert s[..|sep|] == sep && s[|sep|..] == rest;
    } else {
      assert s[..|sep|] != sep by {
        if |p| >= 2 {
          assert s[..|sep|] == p[..|sep|];
        } else {
          assert s[1] == sep[0];
        }
      }
      assert s[1..] == p[1..] + sep + rest;
      SplitAtFirst(p[1..], sep, rest);
      assert [p[0]] + p[1..] == p;
    }
  }

  /** Round trip: splitting a join recovers the parts when no part contains the separator. */
  lemma {:induction false} SplitJoin(parts: seq<string>, sep: string)
    requires Unbordered(sep) && |parts| >= 1
    requires forall i :: 0 <= i < |parts| ==> !Occurs(sep, parts[i])
    ensures Split(Join(parts, sep), sep) == parts
    decreases |parts|
  {
    if |parts| == 1 {
      SplitWithout(parts[0], sep);
    } else {
      SplitAtFirst(parts[0], sep, Join(parts[1..], sep));
      SplitJoin(parts[1..], sep);
    }
  }

  /** An occurrence in a concatenation lies in one side or straddles the seam. */
  lemma {:induction false} OccursInConcat(sep: string, a: string, b: string)
    requires |sep| == 2 && Occurs(sep, a + b)
    ensures Occurs(sep, a) || Occurs(sep, b) || (|a| > 0 && |b| > 0 && a[|a| - 1] == sep[0] && b[0] == sep[1])
    decreases |a|
  {
    if a == [] {
      assert a + b == b;
    } else {
      var s := a + b;
      if s[..2] == sep {
        if |a| >= 2 {
          assert a[..2] == sep;
        }
      } else {
        assert s[1..] == a[1..] + b;
        OccursInConcat(sep, a[1..], b);
      }
    }
  }

  /** A string without the character `ch` holds no separator that contains it. */
  lemma {:induction false} OccursNeedsChar(sep: string, s: string, ch: char)
    requires ch in sep && ch !in s
    ensures !Occurs(sep, s)
    decreases |s|
  {
    if |s| >= |sep| {
      assert s[..|sep|] != sep by {
        var k :| 0 <= k < |sep| && sep[k] == ch;
        assert s[..|sep|][k] == s[k];
      }
      OccursNeedsChar(sep, s[1..], ch);
    }
  }
}
