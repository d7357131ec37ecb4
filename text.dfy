/** String helpers the communicator relies on: ASCII case folding, prefix and
    suffix tests, literal removal (String.replaceAll with a pattern that has
    no regex metacharacters), character filtering, String.join and its
    inverse, and duplicate removal (what a HashSet does to a list). */
module Text {

  /** Character.toLowerCase restricted to ASCII letters. */
  function LowerChar(c: char): char
  {
    if 'A' <= c <= 'Z' then (c as int + 32) as char else c
  }

  /** String.toLowerCase on ASCII text. */
  function Lower(s: string): (r: string)
    ensures |r| == |s|
  {
    seq(|s|, i requires 0 <= i < |s| => LowerChar(s[i]))
  }

  /** Lower-casing turns exactly the ASCII capitals into their small letters
      and leaves every other character as it is. */
  lemma LowerSpec(s: string)
    ensures forall i :: 0 <= i < |s| ==>
              if 'A' <= s[i] <= 'Z' then Lower(s)[i] == (s[i] as int + 32) as char && 'a' <= Lower(s)[i] <= 'z'
              else Lower(s)[i] == s[i]
  {
  }

  predicate StartsWith(s: string, prefix: string)
  {
    |prefix| <= |s| && s[..|prefix|] == prefix
  }

  predicate EndsWith(s: string, suffix: string)
  {
    |suffix| <= |s| && s[|s| - |suffix|..] == suffix
  }

  /** True when `pat` occurs in `s` starting at index `i`. */
  predicate OccursAt(s: string, pat: string, i: nat)
  {
    i + |pat| <= |s| && s[i..i + |pat|] == pat
  }

  /** True when `pat` occurs in `s` at some index below `bound`. */
  predicate OccursBefore(s: string, pat: string, bound: int)
  {
    exists i: nat :: i < bound && OccursAt(s, pat, i)
  }

  /** s.replaceAll(pat, ""): one left-to-right pass removing every
      non-overlapping occurrence of `pat`. */
  function RemoveAll(s: string, pat: string): (r: string)
    requires pat != []
    ensures |r| <= |s|
    ensures |s| < |pat| ==> r == s
    decreases |s|
  {
    if |s| < |pat| then s
    else if s[..|pat|] == pat then RemoveAll(s[|pat|..], pat)
    else [s[0]] + RemoveAll(s[1..], pat)
  }

  /** Removing a trailing occurrence of `pat` gives back what precedes it,
      provided no earlier occurrence of `pat` starts inside that prefix. */
  lemma {:induction false} RemoveAllTrailing(m: string, pat: string)
    requires pat != []
    requires !OccursBefore(m + pat, pat, |m|)
    ensures RemoveAll(m + pat, pat) == m
  {
    var s := m + pat;
    if m == [] {
      assert s == pat;
      assert s[|pat|..] == [];
    } else {
      assert s[0..|pat|] == s[..|pat|];
      assert s[..|pat|] != pat by {
        if s[..|pat|] == pat {
          assert OccursAt(s, pat, 0);
          assert OccursBefore(s, pat, |m|);
        }
      }
      var t := m[1..] + pat;
      assert s[1..] == t;
      assert !OccursBefore(t, pat, |m[1..]|) by {
        if OccursBefore(t, pat, |m[1..]|) {
          var i: nat :| i < |m[1..]| && OccursAt(t, pat, i);
          assert s[i + 1..i + 1 + |pat|] == t[i..i + |pat|];
          assert OccursAt(s, pat, i + 1);
          assert OccursBefore(s, pat, |m|);
        }
      }
      RemoveAllTrailing(m[1..], pat);
      assert [s[0]] + m[1..] == m;
    }
  }

  /** When the first character of `pat` does not occur in `m`, no occurrence
      of `pat` can start inside `m`, so a trailing `pat` is all that goes. */
  lemma RemoveAllTrailingHeadAbsent(m: string, pat: string)
    requires pat != [] && pat[0] !in m
    ensures RemoveAll(m + pat, pat) == m
  {
    HeadAbsentNoEarlyOccurrence(m, pat);
    RemoveAllTrailing(m, pat);
  }

  /** No occurrence of `pat` can start inside `m` when `m` lacks its first
      character. */
  lemma HeadAbsentNoEarlyOccurrence(m: string, pat: string)
    requires pat != [] && pat[0] !in m
    ensures !OccursBefore(m + pat, pat, |m|)
  {
    forall i: nat | i < |m| ensures !OccursAt(m + pat, pat, i) {
      assert (m + pat)[i] == m[i];
    }
  }

  predicate IsDigitOrDot(c: char)
  {
    '0' <= c <= '9' || c == '.'
  }

  /** s.replaceAll("[^\\d.]", ""): keeps only the ASCII digits and dots of `s`,
      in order. */
  function KeepDigitsAndDots(s: string): (r: string)
    ensures forall i :: 0 <= i < |r| ==> IsDigitOrDot(r[i])
    ensures |r| <= |s|
  {
    if s == [] then []
    else (if IsDigitOrDot(s[0]) then [s[0]] else []) + KeepDigitsAndDots(s[1..])
  }

  lemma {:induction false} KeepDigitsAndDotsAppend(a: string, b: string)
    ensures KeepDigitsAndDots(a + b) == KeepDigitsAndDots(a) + KeepDigitsAndDots(b)
  {
    if a != [] {
      assert (a + b)[0] == a[0];
      assert (a + b)[1..] == a[1..] + b;
      KeepDigitsAndDotsAppend(a[1..], b);
    } else {
      assert a + b == b;
    }
  }

  lemma {:induction false} KeepDigitsAndDotsIdentity(s: string)
    requires forall i :: 0 <= i < |s| ==> IsDigitOrDot(s[i])
    ensures KeepDigitsAndDots(s) == s
  {
    if s != [] {
      KeepDigitsAndDotsIdentity(s[1..]);
      assert [s[0]] + s[1..] == s;
    }
  }

  /** String.join(sep, xs). */
  function Join(sep: string, xs: seq<string>): string
    decreases |xs|
  {
    if xs == [] then ""
    else if |xs| == 1 then xs[0]
    else xs[0] + sep + Join(sep, xs[1..])
  }

  /** Splitting at every occurrence of `c`, keeping empty pieces; the inverse
      of joining with the one-character separator `[c]`. */
  function Split(s: string, c: char): (r: seq<string>)
    ensures |r| >= 1
    decreases |s|
  {
    if s == [] then [""]
    else
      var rest := Split(s[1..], c);
      if s[0] == c then [""] + rest
      else [[s[0]] + rest[0]] + rest[1..]
  }

  lemma {:induction false} SplitNoSeparator(a: string, t: string, c: char)
    requires c !in a
    ensures Split(a + t, c) == [a + Split(t, c)[0]] + Split(t, c)[1..]
  {
    if a != [] {
      assert (a + t)[0] == a[0];
      assert (a + t)[1..] == a[1..] + t;
      SplitNoSeparator(a[1..], t, c);
      assert [a[0]] + (a[1..] + Split(t, c)[0]) == a + Split(t, c)[0];
    } else {
      assert a + t == t;
      assert a + Split(t, c)[0] == Split(t, c)[0];
      assert [Split(t, c)[0]] + Split(t, c)[1..] == Split(t, c);
    }
  }

  /** Joining with `c` and splitting at `c` gives back the pieces, as long as
      no piece contains `c` itself. */
  lemma {:induction false} SplitJoin(xs: seq<string>, c: char)
    requires |xs| >= 1
    requires forall i :: 0 <= i < |xs| ==> c !in xs[i]
    ensures Split(Join([c], xs), c) == xs
  {
    if |xs| == 1 {
      SplitNoSeparator(xs[0], "", c);
      assert xs[0] + "" == xs[0];
    } else {
      var tail := Join([c], xs[1..]);
      SplitJoin(xs[1..], c);
      assert xs[0] + [c] + tail == xs[0] + ([c] + tail);
      SplitNoSeparator(xs[0], [c] + tail, c);
      assert ([c] + tail)[1..] == tail;
      assert Split([c] + tail, c) == [""] + xs[1..];
      assert xs[0] + "" == xs[0];
      assert [xs[0]] + xs[1..] == xs;
    }
  }

  predicate NoDuplicates<T(==)>(s: seq<T>)
  {
    forall i, j :: 0 <= i < j < |s| ==> s[i] != s[j]
  }

  /** The elements of `s` in first-occurrence order, each once. */
  function Distinct<T(==)>(s: seq<T>): seq<T>
    decreases |s|
  {
    if s == [] then []
    else
      var p := Distinct(s[..|s| - 1]);
      if s[|s| - 1] in p then p else p + [s[|s| - 1]]
  }

  lemma {:induction false} DistinctSpec<T>(s: seq<T>)
    ensures NoDuplicates(Distinct(s))
    ensures forall x :: x in Distinct(s) <==> x in s
  {
    if s != [] {
      var init := s[..|s| - 1];
      DistinctSpec(init);
      assert s == init + [s[|s| - 1]];
    }
  }
}
