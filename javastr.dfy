/** The parts of `java.lang.String` that the vector-literal parsers use:
    `split` with a one-character pattern and `trim`. */
module JavaStr {
  import opened Text

  /** `String.trim` removes every leading and trailing character whose code
      is at most U+0020. */
  predicate IsTrimmed(c: char) {
    c <= ' '
  }

  /** `r` is `s[i..j]`, and every character of `s` outside it is removed by
      `trim`. */
  predicate TrimmedSlice(s: string, r: string, i: int, j: int) {
    && 0 <= i <= j <= |s| && r == s[i..j]
    && (forall k :: 0 <= k < i ==> IsTrimmed(s[k]))
    && (forall k :: j <= k < |s| ==> IsTrimmed(s[k]))
  }

  /** `s.trim()`. */
  function Trim(s: string): (r: string)
    ensures |r| <= |s|
    ensures r == [] || (!IsTrimmed(r[0]) && !IsTrimmed(r[|r| - 1]))
    decreases |s|
  {
    if s == [] then []
    else if IsTrimmed(s[0]) then Trim(s[1..])
    else if IsTrimmed(s[|s| - 1]) then Trim(s[..|s| - 1])
    else s
  }

  /** `trim` removes characters at or below a space from both ends of `s`,
      and nothing else: its result is a slice of `s` with only such
      characters around it. */
  lemma {:induction false} TrimIsSlice(s: string)
    ensures exists i, j :: TrimmedSlice(s, Trim(s), i, j)
    decreases |s|
  {
    if s == [] {
      assert Trim(s) == [] && TrimmedSlice(s, [], 0, 0);
    } else if IsTrimmed(s[0]) {
      assert Trim(s) == Trim(s[1..]);
      TrimIsSlice(s[1..]);
      TrimFront(s, s[1..], Trim(s[1..]));
    } else if IsTrimmed(s[|s| - 1]) {
      assert Trim(s) == Trim(s[..|s| - 1]);
      TrimIsSlice(s[..|s| - 1]);
      TrimBack(s, s[..|s| - 1], Trim(s[..|s| - 1]));
    } else {
      assert Trim(s) == s && s[0..|s|] == s;
      assert TrimmedSlice(s, s, 0, |s|);
    }
  }

  /** A slice of `s[1..]` is one of `s` when `s[0]` is removed by `trim`. */
  lemma TrimFront(s: string, rest: string, r: string)
    requires s != [] && IsTrimmed(s[0]) && rest == s[1..]
    requires exists i, j :: TrimmedSlice(rest, r, i, j)
    ensures exists i, j :: TrimmedSlice(s, r, i, j)
  {
    var i, j :| TrimmedSlice(rest, r, i, j);
    assert rest[i..j] == s[i + 1..j + 1];
    assert TrimmedSlice(s, r, i + 1, j + 1);
  }

  /** A slice of `s` without its last character is one of `s` when that
      character is removed by `trim`. */
  lemma TrimBack(s: string, init: string, r: string)
    requires s != [] && IsTrimmed(s[|s| - 1]) && init == s[..|s| - 1]
    requires exists i, j :: TrimmedSlice(init, r, i, j)
    ensures exists i, j :: TrimmedSlice(s, r, i, j)
  {
    var i, j :| TrimmedSlice(init, r, i, j);
    assert forall k :: i <= k < j ==> init[k] == s[k];
    assert init[i..j] == s[i..j];
    assert TrimmedSlice(s, r, i, j);
  }

  /** `trim` leaves alone a string with no character at or below a space. */
  lemma {:induction false} TrimNothing(s: string)
    requires forall i :: 0 <= i < |s| ==> !IsTrimmed(s[i])
    ensures Trim(s) == s
  {
  }

  /** `parts` without its trailing empty strings. */
  function DropTrailingEmpty(parts: seq<string>): (r: seq<string>)
    ensures |r| <= |parts| && r == parts[..|r|]
    ensures r == [] || r[|r| - 1] != ""
    ensures forall i :: |r| <= i < |parts| ==> parts[i] == ""
  {
    if parts == [] || parts[|parts| - 1] != "" then parts
    else DropTrailingEmpty(parts[..|parts| - 1])
  }

  /** `s.split(String.valueOf(c))` for a character `c` that is not special in
      a regular expression: a string without `c` comes back as the one-element
      array `{s}` (even when `s` is empty); otherwise the pieces between
      occurrences of `c`, with trailing empty pieces removed. */
  function Split(s: string, c: char): (parts: seq<string>)
    ensures c !in s ==> parts == [s]
    ensures c in s ==> parts == [] || parts[|parts| - 1] != ""
  {
    if c !in s then [s] else DropTrailingEmpty(SplitOn(s, [c]))
  }

  /** Joining pieces that do not contain `c` with `c`, then splitting on `c`,
      gives the pieces back, provided the last one is non-empty or there is
      only one. */
  lemma SplitJoinJava(parts: seq<string>, c: char)
    requires |parts| >= 1
    requires forall i :: 0 <= i < |parts| ==> c !in parts[i]
    requires |parts| == 1 || parts[|parts| - 1] != ""
    ensures Split(Join(parts, [c]), c) == parts
  {
    if |parts| == 1 {
      assert Join(parts, [c]) == parts[0];
    } else {
      assert Join(parts, [c]) == parts[0] + [c] + Join(parts[1..], [c]);
      assert c in Join(parts, [c]) by {
        assert (parts[0] + [c] + Join(parts[1..], [c]))[|parts[0]|] == c;
      }
      SplitJoin(parts, c);
    }
  }

  /** `"".split(",")` is `{""}`: one empty piece, not an empty array. */
  lemma SplitEmpty(c: char)
    ensures Split("", c) == [""]
  {
  }

  /** A string made only of separators splits into no pieces at all. */
  lemma {:induction false} SplitOnlySeparators(n: nat, c: char)
    requires n >= 1
    ensures Split(seq(n, _ => c), c) == []
  {
    var s := seq(n, _ => c);
    assert s[0] == c;
    SplitOnlySeparatorsPieces(n, c);
  }

  lemma {:induction false} SplitOnlySeparatorsPieces(n: nat, c: char)
    ensures SplitOn(seq(n, _ => c), [c]) == seq(n + 1, _ => "")
    decreases n
  {
    var s := seq(n, _ => c);
    if n == 0 {
      assert s == [];
      assert !StartsWith(s, [c]);
    } else {
      assert StartsWith(s, [c]);
      assert s[1..] == seq(n - 1, _ => c);
      SplitOnlySeparatorsPieces(n - 1, c);
      assert [""] + seq(n, _ => "") == seq(n + 1, _ => "");
    }
  }
}
