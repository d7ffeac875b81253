/** The parts of Python's `str` behaviour that the chunkers depend on:
    `isspace`, `strip` and slicing with possibly negative bounds. */
module PyStr {
  import opened Wrappers

  /** Python's `str.isspace` for one character: the characters that `strip()`
      with no argument removes. */
  predicate IsSpace(c: char) {
    c == ' ' || c == '\t' || c == '\n' || c == '\r' || c == '\U{B}' || c == '\U{C}'
    || ('\U{1C}' <= c <= '\U{1F}') || c == '\U{85}' || c == '\U{A0}' || c == '\U{1680}'
    || ('\U{2000}' <= c <= '\U{200A}') || c == '\U{2028}' || c == '\U{2029}'
    || c == '\U{202F}' || c == '\U{205F}' || c == '\U{3000}'
  }

  /** `not s.strip()` in Python: every character is whitespace (vacuously so
      for the empty string). */
  predicate IsBlank(s: string) {
    forall i :: 0 <= i < |s| ==> IsSpace(s[i])
  }

  /** Neither end of `s` is whitespace: what `strip()` leaves behind. */
  predicate IsStripped(s: string) {
    s == [] || (!IsSpace(s[0]) && !IsSpace(s[|s| - 1]))
  }

  /** `s.lstrip()`: `s` without its leading whitespace. */
  function LStrip(s: string): (r: string)
    ensures |r| <= |s|
    ensures r == [] || !IsSpace(r[0])
  {
    if s != [] && IsSpace(s[0]) then LStrip(s[1..]) else s
  }

  /** `s.rstrip()`: `s` without its trailing whitespace. */
  function RStrip(s: string): (r: string)
    ensures |r| <= |s|
    ensures r == [] || !IsSpace(r[|r| - 1])
  {
    if s != [] && IsSpace(s[|s| - 1]) then RStrip(s[..|s| - 1]) else s
  }

  /** `lstrip()` keeps a suffix of `s` and removes only whitespace. */
  lemma {:induction false} LStripSuffix(s: string)
    ensures LStrip(s) == s[|s| - |LStrip(s)|..]
    ensures forall i :: 0 <= i < |s| - |LStrip(s)| ==> IsSpace(s[i])
    decreases |s|
  {
    if s != [] && IsSpace(s[0]) {
      LStripSuffix(s[1..]);
      assert s[1..][|s| - 1 - |LStrip(s)|..] == s[|s| - |LStrip(s)|..];
      forall i | 0 <= i < |s| - |LStrip(s)|
        ensures IsSpace(s[i])
      {
        if i > 0 {
          assert s[i] == s[1..][i - 1];
        }
      }
    }
  }

  /** `rstrip()` keeps a prefix of `s` and removes only whitespace. */
  lemma {:induction false} RStripPrefix(s: string)
    ensures RStrip(s) == s[..|RStrip(s)|]
    ensures forall i :: |RStrip(s)| <= i < |s| ==> IsSpace(s[i])
    decreases |s|
  {
    if s != [] && IsSpace(s[|s| - 1]) {
      RStripPrefix(s[..|s| - 1]);
      assert s[..|s| - 1][..|RStrip(s)|] == s[..|RStrip(s)|];
      forall i | |RStrip(s)| <= i < |s|
        ensures IsSpace(s[i])
      {
        if i < |s| - 1 {
          assert s[i] == s[..|s| - 1][i];
        }
      }
    }
  }

  /** How many characters `strip()` removes from the front of `s`. */
  function LeadingSpace(s: string): (n: nat)
    ensures n <= |s|
  {
    |s| - |LStrip(s)|
  }

  /** Python's `s.strip()`: whitespace removed from both ends. */
  function Strip(s: string): (r: string)
    ensures IsStripped(r)
    ensures |r| <= |s|
  {
    var l := LStrip(s);
    RStripPrefix(l);
    RStrip(l)
  }

  /** `strip()` keeps a slice of `s`, cutting off only whitespace around it. */
  lemma StripSlice(s: string)
    ensures LeadingSpace(s) + |Strip(s)| <= |s|
    ensures Strip(s) == s[LeadingSpace(s)..LeadingSpace(s) + |Strip(s)|]
    ensures forall i :: 0 <= i < LeadingSpace(s) ==> IsSpace(s[i])
    ensures forall i :: LeadingSpace(s) + |Strip(s)| <= i < |s| ==> IsSpace(s[i])
  {
    var l := LStrip(s);
    var r := RStrip(l);
    LStripSuffix(s);
    RStripPrefix(l);
    assert r == l[..|r|] == s[|s| - |l|..][..|r|] == s[|s| - |l|..|s| - |l| + |r|];
    forall i | LeadingSpace(s) + |r| <= i < |s|
      ensures IsSpace(s[i])
    {
      assert s[i] == l[i - (|s| - |l|)];
    }
  }

  /** `strip()` returns the empty string exactly for blank input. */
  lemma StripEmpty(s: string)
    ensures Strip(s) == [] <==> IsBlank(s)
  {
    StripSlice(s);
    if Strip(s) != [] {
      var k := LeadingSpace(s);
      assert s[k] == Strip(s)[0];
      assert !IsSpace(s[k]);
    }
  }

  /** Stripping is idempotent. */
  lemma StripStripped(s: string)
    requires IsStripped(s)
    ensures Strip(s) == s
  {
    if s != [] {
      assert LStrip(s) == s;
      assert RStrip(s) == s;
    }
  }

  /** `lstrip()` removes a whitespace prefix and stops at the first
      non-whitespace character. */
  lemma {:induction false} LStripBlankPrefix(l: string, t: string)
    requires IsBlank(l) && (t == [] || !IsSpace(t[0]))
    ensures LStrip(l + t) == t
    decreases |l|
  {
    if l == [] {
      assert l + t == t;
    } else {
      assert (l + t)[0] == l[0];
      assert (l + t)[1..] == l[1..] + t;
      assert IsBlank(l[1..]) by {
        forall i | 0 <= i < |l| - 1
          ensures IsSpace(l[1..][i])
        {
          assert l[1..][i] == l[i + 1];
        }
      }
      LStripBlankPrefix(l[1..], t);
    }
  }

  /** `rstrip()` removes a whitespace suffix and stops at the last
      non-whitespace character. */
  lemma {:induction false} RStripBlankSuffix(t: string, r: string)
    requires IsBlank(r) && (t == [] || !IsSpace(t[|t| - 1]))
    ensures RStrip(t + r) == t
    decreases |r|
  {
    if r == [] {
      assert t + r == t;
    } else {
      var s := t + r;
      assert s[|s| - 1] == r[|r| - 1];
      assert s[..|s| - 1] == t + r[..|r| - 1];
      var front := r[..|r| - 1];
      assert IsBlank(front) by {
        forall i | 0 <= i < |front|
          ensures IsSpace(front[i])
        {
          assert front[i] == r[i];
        }
      }
      RStripBlankSuffix(t, front);
    }
  }

  /** `strip()` gives back a stripped string from between any whitespace
      padding. */
  lemma StripPadded(l: string, s: string, r: string)
    requires IsBlank(l) && IsBlank(r) && IsStripped(s)
    ensures Strip(l + s + r) == s
  {
    if s == [] {
      assert l + s + r == l + r;
      assert IsBlank(l + r) by {
        forall i | 0 <= i < |l + r|
          ensures IsSpace((l + r)[i])
        {
          if i < |l| {
            assert (l + r)[i] == l[i];
          } else {
            assert (l + r)[i] == r[i - |l|];
          }
        }
      }
      LStripBlankPrefix(l + r, []);
      assert l + r + [] == l + r;
    } else {
      assert l + s + r == l + (s + r);
      assert (s + r)[0] == s[0];
      LStripBlankPrefix(l, s + r);
      RStripBlankSuffix(s, r);
    }
  }

  /** Python's `s[i:]` for any integer `i`: a negative `i` counts from the
      end and is clamped at the start; in particular `s[-0:]` is all of `s`. */
  function SliceFrom(s: string, i: int): (r: string)
    ensures i >= 0 ==> r == s[Min(i, |s|)..]
    ensures i < 0 ==> r == s[Max(0, |s| + i)..]
  {
    var k := if i < 0 then Max(0, |s| + i) else Min(i, |s|);
    s[k..]
  }

  /** Where a slice bound `i` of `s` lands: a negative `i` counts from the
      end, and either kind is clamped to `[0, len(s)]`. */
  function SliceIndex(s: string, i: int): (k: nat)
    ensures k <= |s|
    ensures 0 <= i <= |s| ==> k == i
    ensures i < 0 && |s| + i >= 0 ==> k == |s| + i
  {
    if i < 0 then Max(0, |s| + i) else Min(i, |s|)
  }

  /** Python's `s[i:j]` for any integers `i` and `j`: the characters between
      the two resolved bounds, or nothing when they cross. */
  function Slice(s: string, i: int, j: int): (r: string)
    ensures 0 <= i <= j <= |s| ==> r == s[i..j]
    ensures r == [] <==> SliceIndex(s, j) <= SliceIndex(s, i)
    ensures SliceIndex(s, i) + |r| <= |s| && r == s[SliceIndex(s, i)..SliceIndex(s, i) + |r|]
  {
    var a, b := SliceIndex(s, i), SliceIndex(s, j);
    if a < b then s[a..b] else []
  }

  /** `s[i:]` is the slice up to the end. */
  lemma SliceFromIsSlice(s: string, i: int)
    ensures SliceFrom(s, i) == Slice(s, i, |s|)
  {
  }

  function EndsWith(s: string, c: char): bool {
    s != [] && s[|s| - 1] == c
  }
}
