/** Language-neutral operations on strings that both the Python and the Java
    sides use: splitting on a separator, joining with one, removing and
    replacing characters. */
module Text {

  predicate StartsWith(s: string, prefix: string) {
    |prefix| <= |s| && s[..|prefix|] == prefix
  }

  /** `parts` glued together with `sep` between neighbours (Python's
      `sep.join(parts)`, Java's `String.join`). */
  function Join(parts: seq<string>, sep: string): string
  {
    if |parts| == 0 then ""
    else if |parts| == 1 then parts[0]
    else parts[0] + sep + Join(parts[1..], sep)
  }

  /** Appending a part appends the separator and the part. */
  lemma {:induction false} JoinSnoc(parts: seq<string>, x: string, sep: string)
    requires |parts| >= 1
    ensures Join(parts + [x], sep) == Join(parts, sep) + sep + x
    decreases |parts|
  {
    var q := parts + [x];
    if |parts| > 1 {
      assert q[1..] == parts[1..] + [x];
      JoinSnoc(parts[1..], x, sep);
    }
  }

  /** Left-to-right, non-overlapping split on every occurrence of `sep`: the
      pieces Python's `s.split(sep)` returns, and the pieces Java's
      `String.split` finds before it drops trailing empty ones. */
  function SplitOn(s: string, sep: string): (parts: seq<string>)
    requires |sep| > 0
    ensures |parts| >= 1
    decreases |s|
  {
    if StartsWith(s, sep) then [""] + SplitOn(s[|sep|..], sep)
    else if s == [] then [""]
    else
      var rest := SplitOn(s[1..], sep);
      [[s[0]] + rest[0]] + rest[1..]
  }

  /** `sep` occurs in `s` at index `k`. */
  predicate OccursAt(s: string, sep: string, k: nat) {
    k + |sep| <= |s| && s[k..k + |sep|] == sep
  }

  /** `s` holds no occurrence of `sep`. */
  ghost predicate Free(s: string, sep: string) {
    forall k :: !OccursAt(s, sep, k)
  }

  /** The first piece of a split is the part of `s` before the first cut. */
  lemma {:induction false} SplitOnFirst(s: string, sep: string)
    requires |sep| > 0
    ensures StartsWith(s, SplitOn(s, sep)[0])
    decreases |s|
  {
    if !StartsWith(s, sep) && s != [] {
      var rest := SplitOn(s[1..], sep);
      SplitOnFirst(s[1..], sep);
      var p := [s[0]] + rest[0];
      assert SplitOn(s, sep)[0] == p;
      assert s[1..][..|rest[0]|] == rest[0];
      assert s[..|p|] == [s[0]] + s[1..][..|rest[0]|];
    }
  }

  /** A character put before a piece free of `sep` leaves it free, unless
      `sep` then starts the piece. */
  lemma FreeCons(c: char, r: string, sep: string)
    requires |sep| > 0 && Free(r, sep) && !StartsWith([c] + r, sep)
    ensures Free([c] + r, sep)
  {
    var p := [c] + r;
    forall k: nat | OccursAt(p, sep, k)
      ensures false
    {
      if k > 0 {
        assert p[k..k + |sep|] == r[k - 1..k - 1 + |sep|];
        assert OccursAt(r, sep, k - 1);
      }
    }
  }

  /** The split cuts at every occurrence: no piece contains `sep`. */
  lemma {:induction false} SplitOnPieces(s: string, sep: string)
    requires |sep| > 0
    ensures forall i :: 0 <= i < |SplitOn(s, sep)| ==> Free(SplitOn(s, sep)[i], sep)
    decreases |s|
  {
    var parts := SplitOn(s, sep);
    if StartsWith(s, sep) {
      var rest := SplitOn(s[|sep|..], sep);
      SplitOnPieces(s[|sep|..], sep);
      assert parts == [""] + rest;
      assert Free("", sep);
      assert forall i :: 1 <= i < |parts| ==> parts[i] == rest[i - 1];
    } else if s != [] {
      var rest := SplitOn(s[1..], sep);
      SplitOnPieces(s[1..], sep);
      SplitOnFirst(s, sep);
      var p := [s[0]] + rest[0];
      assert parts == [p] + rest[1..];
      assert StartsWith([s[0]] + rest[0], sep) ==> StartsWith(s, sep) by {
        assert s[..|p|] == p;
        if |sep| <= |p| {
          assert s[..|sep|] == p[..|sep|];
        }
      }
      FreeCons(s[0], rest[0], sep);
      assert forall i :: 1 <= i < |parts| ==> parts[i] == rest[i];
    } else {
      assert parts == [""] && Free("", sep);
    }
  }

  /** Joining the pieces of a split with the same separator gives back the
      original string: no character is lost or invented by the split. */
  lemma {:induction false} JoinSplit(s: string, sep: string)
    requires |sep| > 0
    ensures Join(SplitOn(s, sep), sep) == s
    decreases |s|
  {
    if StartsWith(s, sep) {
      JoinSplitAtSeparator(s, sep);
    } else if s != [] {
      JoinSplitAtChar(s, sep);
    }
  }

  lemma {:induction false} JoinSplitAtSeparator(s: string, sep: string)
    requires |sep| > 0 && StartsWith(s, sep)
    ensures Join(SplitOn(s, sep), sep) == s
    decreases |s|, 0
  {
    var tail := s[|sep|..];
    var rest := SplitOn(tail, sep);
    JoinSplit(tail, sep);
    assert SplitOn(s, sep) == [""] + rest;
    JoinPrependEmpty(rest, sep);
    assert s == sep + tail;
  }

  /** An empty first part contributes only its separator. */
  lemma JoinPrependEmpty(rest: seq<string>, sep: string)
    requires |rest| >= 1
    ensures Join([""] + rest, sep) == sep + Join(rest, sep)
  {
    var q := [""] + rest;
    assert q[1..] == rest;
    assert Join(q, sep) == "" + sep + Join(rest, sep);
    assert "" + sep == sep;
  }

  lemma {:induction false} JoinSplitAtChar(s: string, sep: string)
    requires |sep| > 0 && !StartsWith(s, sep) && s != []
    ensures Join(SplitOn(s, sep), sep) == s
    decreases |s|, 0
  {
    var rest := SplitOn(s[1..], sep);
    JoinSplit(s[1..], sep);
    assert SplitOn(s, sep) == [[s[0]] + rest[0]] + rest[1..];
    JoinPrependToFirst([s[0]], rest, sep);
    assert [s[0]] + s[1..] == s;
  }

  /** Prepending `x` to the first part prepends it to the join. */
  lemma JoinPrependToFirst(x: string, parts: seq<string>, sep: string)
    requires |parts| >= 1
    ensures Join([x + parts[0]] + parts[1..], sep) == x + Join(parts, sep)
  {
    var q := [x + parts[0]] + parts[1..];
    if |parts| > 1 {
      assert q[1..] == parts[1..];
      assert Join(q, sep) == x + parts[0] + sep + Join(parts[1..], sep);
    }
  }

  /** Splitting `a + [c] + rest` on the one-character separator `[c]`, when `a`
      holds no `c`, cuts exactly after `a`. */
  lemma {:induction false} SplitAfterFirst(a: string, c: char, rest: string)
    requires c !in a
    ensures SplitOn(a + [c] + rest, [c]) == [a] + SplitOn(rest, [c])
    decreases |a|
  {
    var s := a + [c] + rest;
    if a == [] {
      assert s == [c] + rest;
      assert StartsWith(s, [c]);
      assert s[1..] == rest;
    } else {
      assert s[0] == a[0];
      assert !StartsWith(s, [c]);
      assert s[1..] == a[1..] + [c] + rest;
      SplitAfterFirst(a[1..], c, rest);
      assert [a[0]] + a[1..] == a;
    }
  }

  /** A string in which the separator's first character never occurs splits
      into itself alone. */
  lemma {:induction false} SplitWithoutSeparator(a: string, sep: string)
    requires |sep| > 0 && sep[0] !in a
    ensures SplitOn(a, sep) == [a]
    decreases |a|
  {
    if a != [] {
      assert a[0] in a;
      assert !StartsWith(a, sep);
      SplitWithoutSeparator(a[1..], sep);
      assert [a[0]] + a[1..] == a;
    }
  }

  /** Splitting a join on a one-character separator that occurs in no part
      gives back the parts. */
  lemma {:induction false} SplitJoin(parts: seq<string>, c: char)
    requires |parts| >= 1
    requires forall i :: 0 <= i < |parts| ==> c !in parts[i]
    ensures SplitOn(Join(parts, [c]), [c]) == parts
    decreases |parts|
  {
    if |parts| == 1 {
      SplitWithoutSeparator(parts[0], [c]);
    } else {
      SplitJoin(parts[1..], c);
      SplitAfterFirst(parts[0], c, Join(parts[1..], [c]));
      assert [parts[0]] + parts[1..] == parts;
    }
  }

  /** Number of occurrences of `c` in `s`. */
  function Count(s: string, c: char): nat
  {
    if s == [] then 0 else (if s[0] == c then 1 else 0) + Count(s[1..], c)
  }

  lemma {:induction false} CountAppend(a: string, b: string, c: char)
    ensures Count(a + b, c) == Count(a, c) + Count(b, c)
    decreases |a|
  {
    if a == [] {
      assert a + b == b;
    } else {
      assert (a + b)[0] == a[0];
      assert (a + b)[1..] == a[1..] + b;
      CountAppend(a[1..], b, c);
    }
  }

  lemma {:induction false} CountAbsent(a: string, c: char)
    requires c !in a
    ensures Count(a, c) == 0
    decreases |a|
  {
    if a != [] {
      CountAbsent(a[1..], c);
    }
  }

  /** `s` with every character in `bad` deleted (Java's
      `replaceAll("[...]", "")` and chained `replace(x, "")`). */
  function RemoveAll(s: string, bad: set<char>): (r: string)
    ensures |r| <= |s|
    ensures forall i :: 0 <= i < |r| ==> r[i] !in bad
  {
    if s == [] then []
    else (if s[0] in bad then [] else [s[0]]) + RemoveAll(s[1..], bad)
  }

  lemma {:induction false} RemoveAllAppend(a: string, b: string, bad: set<char>)
    ensures RemoveAll(a + b, bad) == RemoveAll(a, bad) + RemoveAll(b, bad)
    decreases |a|
  {
    if a == [] {
      assert a + b == b;
    } else {
      assert (a + b)[0] == a[0];
      assert (a + b)[1..] == a[1..] + b;
      RemoveAllAppend(a[1..], b, bad);
    }
  }

  lemma {:induction false} RemoveAllNone(a: string, bad: set<char>)
    requires forall i :: 0 <= i < |a| ==> a[i] !in bad
    ensures RemoveAll(a, bad) == a
    decreases |a|
  {
    if a != [] {
      RemoveAllNone(a[1..], bad);
      assert [a[0]] + a[1..] == a;
    }
  }

  /** `s` with every `from` replaced by `to` (Python's `s.replace('\n', ' ')`). */
  function ReplaceChar(s: string, from: char, to: char): (r: string)
    ensures |r| == |s|
    ensures forall i :: 0 <= i < |s| ==> r[i] == (if s[i] == from then to else s[i])
  {
    seq(|s|, i requires 0 <= i < |s| => if s[i] == from then to else s[i])
  }

  predicate IsDigit(c: char) {
    '0' <= c <= '9'
  }

  /** The decimal text of a natural number, without leading zeros. */
  function NatString(n: nat): (s: string)
    ensures s != [] && forall i :: 0 <= i < |s| ==> IsDigit(s[i])
    ensures |s| > 1 ==> s[0] != '0'
  {
    if n < 10 then ["0123456789"[n]]
    else NatString(n / 10) + ["0123456789"[n % 10]]
  }

  /** The decimal text of an integer, as Python's `str` and Java's `%d` write
      it: a minus sign for negative numbers. */
  function DecimalString(n: int): (s: string)
    ensures s != []
    ensures n < 0 <==> s[0] == '-'
  {
    if n < 0 then "-" + NatString(-n) else NatString(n)
  }

  /** The number a string of digits denotes. */
  function DigitsValue(s: string): nat
    requires forall i :: 0 <= i < |s| ==> IsDigit(s[i])
  {
    if s == [] then 0
    else
      assert IsDigit(s[|s| - 1]);
      DigitsValue(s[..|s| - 1]) * 10 + (s[|s| - 1] as int - '0' as int)
  }

  /** Reading the decimal text of `n` gives `n` back. */
  lemma {:induction false} NatStringValue(n: nat)
    ensures DigitsValue(NatString(n)) == n
  {
    if n >= 10 {
      NatStringValue(n / 10);
      var s := NatString(n);
      assert s[..|s| - 1] == NatString(n / 10);
    }
  }

  /** The strings one after another, as successive `StringBuilder.append`
      calls leave them. */
  function Concat(ss: seq<string>): string
  {
    if ss == [] then "" else Concat(ss[..|ss| - 1]) + ss[|ss| - 1]
  }

  /** Concatenating two runs of strings concatenates their results. */
  lemma {:induction false} ConcatAppend(a: seq<string>, b: seq<string>)
    ensures Concat(a + b) == Concat(a) + Concat(b)
    decreases |b|
  {
    if b == [] {
      assert a + b == a;
    } else {
      ConcatAppend(a, b[..|b| - 1]);
      assert (a + b)[..|a + b| - 1] == a + b[..|b| - 1];
    }
  }

  /** The `k`-th string sits between the ones before it and the ones after
      it. */
  lemma ConcatAround(ss: seq<string>, k: nat)
    requires k < |ss|
    ensures Concat(ss) == Concat(ss[..k]) + ss[k] + Concat(ss[k + 1..])
  {
    var pre := ss[..k + 1];
    assert pre + ss[k + 1..] == ss;
    ConcatAppend(pre, ss[k + 1..]);
    assert pre[..k] == ss[..k];
  }

  /** Three appends to a builder append their concatenation. */
  lemma AppendThree(s: string, a: string, b: string, c: string)
    ensures s + a + b + c == s + (a + b + c)
  {
  }
}
