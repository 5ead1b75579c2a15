/** The Python string operations the scraper relies on: `str.strip()`,
    `str.startswith`, the `in` substring test, `str.replace(p, '')`,
    `str.split(sep)` and `sep.join(parts)`. */
module Text {

  /** Python's `str.isspace()` for one character: the characters that
      `str.strip()` with no argument removes. */
  predicate IsSpace(c: char) {
    var k := c as int;
    k == 0x20 || 0x09 <= k <= 0x0D || 0x1C <= k <= 0x1F || k == 0x85 || k == 0xA0 ||
    k == 0x1680 || 0x2000 <= k <= 0x200A || k == 0x2028 || k == 0x2029 ||
    k == 0x202F || k == 0x205F || k == 0x3000
  }

  predicate AllSpace(s: string) {
    forall i :: 0 <= i < |s| ==> IsSpace(s[i])
  }

  /** Leading whitespace removed: a suffix of `s`, everything dropped is whitespace. */
  function TrimStart(s: string): (r: string)
    ensures |r| <= |s| && r == s[|s| - |r|..]
    ensures r == [] || !IsSpace(r[0])
    ensures AllSpace(s[..|s| - |r|])
  {
    if s != [] && IsSpace(s[0]) then
      var r := TrimStart(s[1..]);
      assert s[..|s| - |r|] == [s[0]] + s[1..][..|s| - 1 - |r|];
      r
    else s
  }

  /** Trailing whitespace removed: a prefix of `s`, everything dropped is whitespace. */
  function TrimEnd(s: string): (r: string)
    ensures |r| <= |s| && r == s[..|r|]
    ensures r == [] || !IsSpace(r[|r| - 1])
    ensures AllSpace(s[|r|..])
  {
    if s != [] && IsSpace(s[|s| - 1]) then
      var r := TrimEnd(s[..|s| - 1]);
      assert s[|r|..] == s[..|s| - 1][|r|..] + [s[|s| - 1]];
      r
    else s
  }

  /** Python's `s.strip()`. */
  function Strip(s: string): (r: string)
    ensures |r| <= |s|
    ensures IsStripped(r)
  {
    TrimEnd(TrimStart(s))
  }

  /** Stripping undoes whitespace padding: a string whose ends are not
      whitespace is what `strip()` returns for any padding around it. */
  lemma StripPadded(a: string, x: string, b: string)
    requires AllSpace(a) && AllSpace(b)
    requires IsStripped(x)
    ensures Strip(a + x + b) == x
  {
    if x == [] {
      var t := TrimStart(a + x + b);
      assert AllSpace(a + x + b);
      assert t == [];
    } else {
      TrimStartPadded(a, x + b);
      assert a + x + b == a + (x + b);
      TrimEndPadded(x, b);
    }
  }

  /** No whitespace at either end: what `strip()` returns. */
  predicate IsStripped(s: string) {
    s == [] || (!IsSpace(s[0]) && !IsSpace(s[|s| - 1]))
  }

  /** A string with no whitespace at either end is left alone by `strip()`. */
  lemma StripFixed(s: string)
    requires IsStripped(s)
    ensures Strip(s) == s
  {
    StripPadded([], s, []);
    assert [] + s + [] == s;
  }

  /** `strip()` is idempotent. */
  lemma StripStrip(s: string)
    ensures Strip(Strip(s)) == Strip(s)
  {
    StripFixed(Strip(s));
  }

  lemma {:induction false} TrimStartPadded(a: string, y: string)
    requires AllSpace(a)
    requires y == [] || !IsSpace(y[0])
    ensures TrimStart(a + y) == y
  {
    if a != [] {
      assert (a + y)[0] == a[0] && (a + y)[1..] == a[1..] + y;
      TrimStartPadded(a[1..], y);
    } else {
      assert a + y == y;
    }
  }

  lemma {:induction false} TrimEndPadded(y: string, b: string)
    requires AllSpace(b)
    requires y == [] || !IsSpace(y[|y| - 1])
    ensures TrimEnd(y + b) == y
    decreases |b|
  {
    if b != [] {
      var s := y + b;
      assert s[|s| - 1] == b[|b| - 1] && s[..|s| - 1] == y + b[..|b| - 1];
      TrimEndPadded(y, b[..|b| - 1]);
    } else {
      assert y + b == y;
    }
  }

  /** Python's `s.startswith(p)`. */
  predicate StartsWith(s: string, p: string) {
    |p| <= |s| && s[..|p|] == p
  }

  /** Python's `p in s` for strings: `p` occurs at some position of `s`. */
  predicate Contains(s: string, p: string)
    decreases |s|
  {
    StartsWith(s, p) || (s != [] && Contains(s[1..], p))
  }

  /** An occurrence at position `i` makes `p in s` true. */
  lemma {:induction false} ContainsAt(s: string, p: string, i: nat)
    requires i <= |s| && StartsWith(s[i..], p)
    ensures Contains(s, p)
    decreases i
  {
    if i == 0 {
      assert s[0..] == s;
    } else {
      assert s[1..][i - 1..] == s[i..];
      ContainsAt(s[1..], p, i - 1);
    }
  }

  /** An occurrence in `a + b` lies in `b` unless it starts inside `a`. */
  lemma {:induction false} ContainsAfterPrefix(a: string, b: string, p: string)
    requires p != []
    ensures Contains(a + b, p) ==> Contains(b, p) || p[0] in a
    decreases |a|
  {
    if a != [] {
      var s := a + b;
      assert s[0] == a[0] && s[1..] == a[1..] + b;
      assert StartsWith(s, p) ==> s[0] == p[0];
      assert forall c :: c in a[1..] ==> c in a;
      ContainsAfterPrefix(a[1..], b, p);
    } else {
      assert a + b == b;
    }
  }

  /** An occurrence in `a + b` lies in `a` unless it ends inside `b`. */
  lemma {:induction false} ContainsBeforeSuffix(a: string, b: string, p: string)
    requires p != []
    ensures Contains(a + b, p) ==> Contains(a, p) || p[|p| - 1] in b
    decreases |a|
  {
    var s := a + b;
    if |p| <= |a| {
      assert StartsWith(s, p) ==> StartsWith(a, p) by {
        assert |p| <= |s| && s[..|p|] == a[..|p|];
      }
    } else {
      assert StartsWith(s, p) ==> p[|p| - 1] in b by {
        if StartsWith(s, p) {
          assert s[|p| - 1] == p[|p| - 1] && s[|p| - 1] == b[|p| - 1 - |a|];
        }
      }
    }
    if a != [] {
      assert s[1..] == a[1..] + b;
      ContainsBeforeSuffix(a[1..], b, p);
    } else {
      assert s == b;
      ContainsHasLast(b, p);
    }
  }

  /** An occurrence of `p` puts its last character in `s`. */
  lemma {:induction false} ContainsHasLast(s: string, p: string)
    requires p != []
    ensures Contains(s, p) ==> p[|p| - 1] in s
    decreases |s|
  {
    if StartsWith(s, p) {
      assert s[|p| - 1] == p[|p| - 1];
    }
    if s != [] {
      ContainsHasLast(s[1..], p);
      assert forall c :: c in s[1..] ==> c in s;
    }
  }

  /** A pattern that starts and ends with non-whitespace occurs in a
      whitespace-padded string only if it occurs in what is padded. */
  lemma PaddedNotContains(pre: string, d: string, post: string, p: string)
    requires p != [] && !IsSpace(p[0]) && !IsSpace(p[|p| - 1])
    requires AllSpace(pre) && AllSpace(post) && !Contains(d, p)
    ensures !Contains(pre + d + post, p)
  {
    assert pre + d + post == pre + (d + post);
    ContainsAfterPrefix(pre, d + post, p);
    ContainsBeforeSuffix(d, post, p);
  }

  /** Python's `s.replace(p, '')`: every occurrence of `p` found by a
      left-to-right scan is removed, occurrences never overlap. */
  function RemoveAll(s: string, p: string): (r: string)
    requires p != []
    ensures |r| <= |s|
    ensures !Contains(s, p) ==> r == s
    decreases |s|
  {
    if StartsWith(s, p) then RemoveAll(s[|p|..], p)
    else if s == [] then []
    else [s[0]] + RemoveAll(s[1..], p)
  }

  /** Removing a pattern that occurs once, after a prefix that cannot start
      it, cuts exactly that occurrence out. */
  lemma {:induction false} RemoveSingleOccurrence(pre: string, p: string, post: string)
    requires p != [] && p[0] !in pre
    requires !Contains(post, p)
    ensures RemoveAll(pre + p + post, p) == pre + post
    decreases |pre|
  {
    if pre == [] {
      assert pre + p + post == p + post;
      assert (p + post)[..|p|] == p && (p + post)[|p|..] == post;
    } else {
      var s := pre + p + post;
      assert s[0] == pre[0] && s[..|p|][0] == pre[0];
      assert s[1..] == pre[1..] + p + post;
      RemoveSingleOccurrence(pre[1..], p, post);
      assert pre == [pre[0]] + pre[1..];
    }
  }

  /** Removing a pattern does not introduce a character that was not there. */
  lemma {:induction false} RemoveAllKeepsOut(s: string, p: string, c: char)
    requires p != [] && c !in s
    ensures c !in RemoveAll(s, p)
    decreases |s|
  {
    if StartsWith(s, p) {
      SliceKeepsOut(s, |p|, c);
      RemoveAllKeepsOut(s[|p|..], p, c);
    } else if s != [] {
      SliceKeepsOut(s, 1, c);
      RemoveAllKeepsOut(s[1..], p, c);
    }
  }

  /** Stripping does not introduce a character that was not there. */
  lemma StripKeepsOut(s: string, c: char)
    requires c !in s
    ensures c !in Strip(s)
  {
    var t := TrimStart(s);
    SliceKeepsOut(s, |s| - |t|, c);
    assert c !in t;
    var u := TrimEnd(t);
    assert u == t[..|u|];
    SliceKeepsOut(t, 0, c);
  }

  lemma SliceKeepsOut(s: string, k: nat, c: char)
    requires k <= |s| && c !in s
    ensures c !in s[k..]
  {
  }

  /** Python's `sep.join(parts)` for a one-character separator. */
  function Join(parts: seq<string>, sep: char): (r: string)
  {
    if parts == [] then []
    else if |parts| == 1 then parts[0]
    else parts[0] + [sep] + Join(parts[1..], sep)
  }

  /** Python's `s.split(sep)` for a one-character separator: at least one
      part, a second one exactly when the separator occurs, and no part
      holds a separator. */
  function Split(s: string, sep: char): (parts: seq<string>)
    ensures |parts| >= 1
    ensures |parts| >= 2 <==> sep in s
    ensures forall i :: 0 <= i < |parts| ==> sep !in parts[i]
  {
    if s == [] then [[]]
    else
      var rest := Split(s[1..], sep);
      assert s == [s[0]] + s[1..];
      if s[0] == sep then [[]] + rest
      else [[s[0]] + rest[0]] + rest[1..]
  }

  /** Joining the parts back with the separator gives the string that was split. */
  lemma {:induction false} JoinSplit(s: string, sep: char)
    ensures Join(Split(s, sep), sep) == s
  {
    if s != [] {
      JoinSplit(s[1..], sep);
      var rest := Split(s[1..], sep);
      if s[0] == sep {
        assert Split(s, sep) == [[]] + rest;
      } else {
        JoinConsChar(s[0], rest, sep);
      }
    }
  }

  /** Prepending a character to the first part prepends it to the join. */
  lemma JoinConsChar(c: char, parts: seq<string>, sep: char)
    requires |parts| >= 1
    ensures Join([[c] + parts[0]] + parts[1..], sep) == [c] + Join(parts, sep)
  {
    var glued := [[c] + parts[0]] + parts[1..];
    assert glued[1..] == parts[1..];
  }

  /** Splitting is the inverse of joining, for parts free of the separator. */
  lemma {:induction false} SplitJoin(parts: seq<string>, sep: char)
    requires |parts| >= 1
    requires forall i :: 0 <= i < |parts| ==> sep !in parts[i]
    ensures Split(Join(parts, sep), sep) == parts
  {
    if |parts| == 1 {
      SplitNoSeparator(parts[0], sep);
    } else {
      var rest := parts[1..];
      SplitJoin(rest, sep);
      SplitAtSeparator(parts[0], Join(rest, sep), sep);
      assert parts == [parts[0]] + rest;
    }
  }

  /** The text before the first separator is the first part; the parts of
      what follows the separator come after it. */
  lemma SplitAtSeparator(a: string, t: string, sep: char)
    requires sep !in a
    ensures Split(a + [sep] + t, sep) == [a] + Split(t, sep)
  {
    var u := [sep] + t;
    assert u[0] == sep && u[1..] == t;
    assert Split(u, sep) == [[]] + Split(t, sep);
    SplitPrefix(a, u, sep);
    assert a + [sep] + t == a + u;
    assert a + [] == a;
  }

  /** The first two parts are the texts before the first and between the
      first and second separator, whatever follows the second one. */
  lemma SplitFirstTwo(a: string, b: string, rest: string, sep: char)
    requires sep !in a && sep !in b && (rest == [] || rest[0] == sep)
    ensures var parts := Split(a + [sep] + b + rest, sep);
      |parts| >= 2 && parts[0] == a && parts[1] == b
  {
    assert a + [sep] + b + rest == a + [sep] + (b + rest);
    SplitAtSeparator(a, b + rest, sep);
    if rest == [] {
      assert b + rest == b;
      SplitNoSeparator(b, sep);
    } else {
      assert b + rest == b + [sep] + rest[1..];
      SplitAtSeparator(b, rest[1..], sep);
    }
  }

  /** A string without the separator splits into itself alone. */
  lemma {:induction false} SplitNoSeparator(s: string, sep: char)
    requires sep !in s
    ensures Split(s, sep) == [s]
  {
    if s != [] {
      SplitNoSeparator(s[1..], sep);
      assert Split(s, sep) == [[s[0]] + s[1..]];
      assert [s[0]] + s[1..] == s;
    }
  }

  /** A separator-free prefix `a` is glued to the front of the first part of
      what follows it; the other parts are those of the rest. */
  lemma {:induction false} SplitPrefix(a: string, t: string, sep: char)
    requires sep !in a
    ensures Split(a + t, sep) == [a + Split(t, sep)[0]] + Split(t, sep)[1..]
    decreases |a|
  {
    if a != [] {
      var s := a + t;
      assert s[0] == a[0] && s[1..] == a[1..] + t;
      SplitPrefix(a[1..], t, sep);
      var rest := Split(s[1..], sep);
      assert rest == [a[1..] + Split(t, sep)[0]] + Split(t, sep)[1..];
      assert Split(s, sep) == [[s[0]] + rest[0]] + rest[1..];
      assert [a[0]] + (a[1..] + Split(t, sep)[0]) == a + Split(t, sep)[0];
    } else {
      var parts := Split(t, sep);
      assert a + t == t && a + parts[0] == parts[0];
      assert parts == [parts[0]] + parts[1..];
    }
  }
}
