/** Python `str` operations the core relies on, over `string` (a sequence of
    Unicode code points, as Python's `str` is). */
module Text {

  /** The code points for which Python's `str.isspace()` holds, as inclusive
      ranges: the ASCII separators and the Unicode characters of categories
      Zs, Zl and Zp and bidirectional classes WS, B and S. */
  const SpaceRanges: seq<(char, char)> := [
    (' ', ' '), ('\t', '\r'), ('\U{1C}', '\U{1F}'), ('\U{85}', '\U{85}'),
    ('\U{A0}', '\U{A0}'), ('\U{1680}', '\U{1680}'), ('\U{2000}', '\U{200A}'),
    ('\U{2028}', '\U{2029}'), ('\U{202F}', '\U{202F}'), ('\U{205F}', '\U{205F}'),
    ('\U{3000}', '\U{3000}')]

  predicate InRanges(c: char, ranges: seq<(char, char)>)
  {
    ranges != [] && (ranges[0].0 <= c <= ranges[0].1 || InRanges(c, ranges[1..]))
  }

  /** `c.isspace()`; `str.strip()` without an argument removes these
      characters from both ends. */
  predicate IsSpace(c: char)
  {
    InRanges(c, SpaceRanges)
  }

  // ---------------------------------------------------------------------------
  // Stripping

  /** `s.lstrip(chars)`, with `drop` telling which characters are in
      `chars`: drops the longest prefix made of them. Its properties are
      stated by `LTrimSpec`. */
  function LTrim(s: string, drop: char -> bool): string
  {
    if s != [] && drop(s[0]) then LTrim(s[1..], drop) else s
  }

  /** `s.rstrip(chars)`: drops the longest suffix made of `chars`. */
  function RTrim(s: string, drop: char -> bool): string
  {
    if s != [] && drop(s[|s| - 1]) then RTrim(s[..|s| - 1], drop) else s
  }

  /** `s.strip(chars)`: the infix left once both ends lose their `chars`. */
  function Trim(s: string, drop: char -> bool): string
  {
    RTrim(LTrim(s, drop), drop)
  }

  /** `lstrip` keeps a suffix that does not start with a dropped character,
      and everything it removes is dropped. */
  lemma {:induction false} LTrimSpec(s: string, drop: char -> bool)
    ensures var r := LTrim(s, drop);
      && |r| <= |s| && r == s[|s| - |r|..]
      && (r == [] || !drop(r[0]))
      && forall i :: 0 <= i < |s| - |r| ==> drop(s[i])
  {
    if s != [] && drop(s[0]) {
      LTrimSpec(s[1..], drop);
      assert forall i :: 1 <= i < |s| ==> s[i] == s[1..][i - 1];
    }
  }

  /** `rstrip` keeps a prefix that does not end with a dropped character,
      and everything it removes is dropped. */
  lemma {:induction false} RTrimSpec(s: string, drop: char -> bool)
    ensures var r := RTrim(s, drop);
      && |r| <= |s| && r == s[..|r|]
      && (r == [] || !drop(r[|r| - 1]))
      && forall i :: |r| <= i < |s| ==> drop(s[i])
  {
    if s != [] && drop(s[|s| - 1]) {
      RTrimSpec(s[..|s| - 1], drop);
    }
  }

  /** `strip` keeps the infix starting after the dropped prefix; neither end
      of it is dropped, and it is empty exactly when every character is. */
  lemma TrimSpec(s: string, drop: char -> bool)
    ensures var r := Trim(s, drop);
      var k := |s| - |LTrim(s, drop)|;
      && 0 <= k <= k + |r| <= |s| && r == s[k..k + |r|]
      && (r != [] ==> !drop(r[0]) && !drop(r[|r| - 1]))
      && (r == [] <==> forall i :: 0 <= i < |s| ==> drop(s[i]))
  {
    var l := LTrim(s, drop);
    LTrimSpec(s, drop);
    RTrimSpec(l, drop);
    var r := Trim(s, drop);
    var k := |s| - |l|;
    assert r == l[..|r|];
    assert r == s[k..k + |r|];
  }

  /** `s.strip()` */
  function Strip(s: string): string
  {
    Trim(s, IsSpace)
  }

  /** `not s.strip()`: the string is empty or whitespace only. */
  predicate IsBlank(s: string)
  {
    Strip(s) == []
  }

  // ---------------------------------------------------------------------------
  // Sequences

  /** The first `n` elements are the first `n - 1` and then element `n - 1`. */
  lemma TakeSnoc<T>(xs: seq<T>, n: int)
    requires 0 < n <= |xs|
    ensures xs[..n] == xs[..n - 1] + [xs[n - 1]]
  {
  }

  lemma AppendAssoc<T>(a: seq<T>, b: seq<T>, c: seq<T>)
    ensures a + (b + c) == (a + b) + c
  {
  }

  lemma AppendNil<T>(a: seq<T>)
    ensures a + [] == a
  {
  }

  /** Counting from the end, a concatenation ends as its second part does. */
  lemma FromEnd<T>(a: seq<T>, b: seq<T>, k: int)
    requires 1 <= k <= |b|
    ensures (a + b)[|a + b| - k] == b[|b| - k]
  {
  }

  lemma AppendAssoc3<T>(a: seq<T>, b: seq<T>, c: seq<T>, d: seq<T>)
    ensures ((a + b) + c) + d == a + (b + (c + d))
  {
  }

  lemma TakeTake<T>(xs: seq<T>, i: int, j: int)
    requires 0 <= i <= j <= |xs|
    ensures xs[..j][..i] == xs[..i]
  {
  }

  lemma TakeAll<T>(xs: seq<T>)
    ensures xs[..|xs|] == xs
  {
  }

  /** A sequence is its first `i` elements followed by the rest. */
  lemma SplitAt<T>(xs: seq<T>, i: int)
    requires 0 <= i <= |xs|
    ensures xs == xs[..i] + xs[i..]
  {
  }

  lemma DropCons<T>(xs: seq<T>, i: int)
    requires 0 <= i < |xs|
    ensures xs[i..] == [xs[i]] + xs[i + 1..]
  {
  }

  /** Dropping the last element of `a + b`, for a non-empty `b`, drops the
      last element of `b`. */
  lemma InitOfAppend<T>(a: seq<T>, b: seq<T>)
    requires b != []
    ensures (a + b)[..|a + b| - 1] == a + b[..|b| - 1]
    ensures (a + b)[|a + b| - 1] == b[|b| - 1]
  {
  }

  /** How many times `x` occurs in `xs`. */
  function Count<T(==)>(xs: seq<T>, x: T): nat
  {
    if xs == [] then 0 else (if xs[0] == x then 1 else 0) + Count(xs[1..], x)
  }

  // ---------------------------------------------------------------------------
  // Prefix, suffix, substring

  predicate StartsWith(s: string, p: string)
  {
    |p| <= |s| && s[..|p|] == p
  }

  predicate EndsWith(s: string, p: string)
  {
    |p| <= |s| && s[|s| - |p|..] == p
  }

  /** Python's `p in s` on two strings. */
  predicate Contains(s: string, p: string)
    decreases |s|
  {
    StartsWith(s, p) || (s != [] && Contains(s[1..], p))
  }

  /** Python's slice `s[:n]`; a negative `n` counts from the end, so
      `s[:-k]` drops the last `k` characters. */
  function Prefix(s: string, n: int): (r: string)
    ensures |r| <= |s| && r == s[..|r|]
    ensures 0 <= n ==> |r| == if n < |s| then n else |s|
    ensures n < 0 ==> |r| == if |s| + n > 0 then |s| + n else 0
  {
    if n >= 0 then (if n < |s| then s[..n] else s)
    else if |s| + n > 0 then s[..|s| + n]
    else ""
  }

  // ---------------------------------------------------------------------------
  // Splitting and joining on one character

  /** Index of the first `c` in `s`. */
  function IndexOf(s: string, c: char): (k: nat)
    requires c in s
    ensures k < |s| && s[k] == c && c !in s[..k]
  {
    if s[0] == c then 0 else 1 + IndexOf(s[1..], c)
  }

  /** `s.split(sep)` for a one-character separator: never empty, and no part
      contains the separator. */
  function Split(s: string, sep: char): (parts: seq<string>)
    ensures |parts| >= 1
    ensures forall p :: p in parts ==> sep !in p
    decreases |s|
  {
    if sep !in s then [s]
    else
      var k := IndexOf(s, sep);
      [s[..k]] + Split(s[k + 1..], sep)
  }

  /** `sep.join(parts)` for a one-character separator. */
  function Join(parts: seq<string>, sep: char): string
  {
    if parts == [] then ""
    else if |parts| == 1 then parts[0]
    else parts[0] + [sep] + Join(parts[1..], sep)
  }

  /** The first occurrence of `c` is at any index before which `c` does not
      occur. */
  lemma {:induction false} IndexOfAt(s: string, c: char, k: nat)
    requires k < |s| && s[k] == c && c !in s[..k]
    ensures IndexOf(s, c) == k
  {
    if k > 0 {
      assert s[0] in s[..k];
      assert s[1..][..k - 1] == s[..k][1..];
      IndexOfAt(s[1..], c, k - 1);
    }
  }

  /** The pieces of `a + [x] + b` around index `|a|`. */
  lemma Around<T>(a: seq<T>, x: T, b: seq<T>, j: seq<T>)
    requires j == a + [x] + b
    ensures |a| < |j| && j[|a|] == x && j[..|a|] == a && j[|a| + 1..] == b
  {
  }

  /** Joining the parts of a split gives back the string. */
  lemma {:induction false} JoinSplit(s: string, sep: char)
    ensures Join(Split(s, sep), sep) == s
    decreases |s|
  {
    if sep in s {
      var k := IndexOf(s, sep);
      var rest := s[k + 1..];
      JoinSplit(rest, sep);
      var parts := Split(s, sep);
      assert parts == [s[..k]] + Split(rest, sep);
      assert parts[1..] == Split(rest, sep);
      assert Join(parts, sep) == s[..k] + [sep] + rest;
      assert s == s[..k] + [sep] + rest by {
        SplitAt(s, k);
        DropCons(s, k);
        AppendAssoc(s[..k], [sep], rest);
      }
    }
  }

  /** Splitting a join of separator-free parts gives back the parts. */
  lemma {:induction false} SplitJoin(parts: seq<string>, sep: char)
    requires |parts| >= 1
    requires forall p :: p in parts ==> sep !in p
    ensures Split(Join(parts, sep), sep) == parts
  {
    if |parts| > 1 {
      var j := Join(parts, sep);
      var p0 := parts[0];
      var rest := Join(parts[1..], sep);
      Around(p0, sep, rest, j);
      assert sep !in p0 by { assert p0 in parts; }
      IndexOfAt(j, sep, |p0|);
      assert Split(j, sep) == [p0] + Split(rest, sep);
      assert forall p :: p in parts[1..] ==> p in parts;
      SplitJoin(parts[1..], sep);
      assert parts == [p0] + parts[1..];
    }
  }

  // ---------------------------------------------------------------------------
  // Mapping characters

  /** `c.lower()` for ASCII letters. */
  function LowerChar(c: char): char
  {
    if 'A' <= c <= 'Z' then (c as int + 32) as char else c
  }

  /** `s.lower()`, ASCII letters only. */
  function Lower(s: string): (r: string)
    ensures |r| == |s|
    ensures forall i :: 0 <= i < |s| ==> r[i] == LowerChar(s[i])
  {
    seq(|s|, i requires 0 <= i < |s| => LowerChar(s[i]))
  }

  /** Lower-casing twice is lower-casing once. */
  lemma LowerIdempotent(s: string)
    ensures Lower(Lower(s)) == Lower(s)
  {
    assert forall i :: 0 <= i < |s| ==> LowerChar(LowerChar(s[i])) == LowerChar(s[i]);
  }

  /** `s.replace(pat, rep)`: every non-overlapping occurrence, left to right. */
  function Replace(s: string, pat: string, rep: string): string
    requires pat != []
    decreases |s|
  {
    if s == [] then []
    else if StartsWith(s, pat) then rep + Replace(s[|pat|..], pat, rep)
    else [s[0]] + Replace(s[1..], pat, rep)
  }

  /** Replacing one character by another keeps the length and changes exactly
      the occurrences of that character. */
  lemma {:induction false} ReplaceChar(s: string, a: char, b: char)
    ensures |Replace(s, [a], [b])| == |s|
    ensures forall i :: 0 <= i < |s| ==>
      Replace(s, [a], [b])[i] == if s[i] == a then b else s[i]
    decreases |s|
  {
    if s != [] {
      ReplaceChar(s[1..], a, b);
      assert StartsWith(s, [a]) <==> s[0] == a;
      var r := Replace(s, [a], [b]);
      var t := Replace(s[1..], [a], [b]);
      assert r == [if s[0] == a then b else s[0]] + t;
      forall i | 0 <= i < |s|
        ensures r[i] == if s[i] == a then b else s[i]
      {
        if i > 0 {
          assert r[i] == t[i - 1];
          assert s[i] == s[1..][i - 1];
        }
      }
    }
  }

  // ---------------------------------------------------------------------------
  // Decimal numerals

  function Digit(d: nat): char
    requires d < 10
  {
    ('0' as int + d) as char
  }

  /** `str(n)` for a non-negative integer. */
  function DecimalString(n: nat): (r: string)
    ensures r != []
    ensures forall i :: 0 <= i < |r| ==> '0' <= r[i] <= '9'
  {
    if n < 10 then [Digit(n)] else DecimalString(n / 10) + [Digit(n % 10)]
  }

  /** `int(s)` for a string of decimal digits. */
  function DecimalValue(s: string): nat
    requires forall i :: 0 <= i < |s| ==> '0' <= s[i] <= '9'
  {
    if s == [] then 0 else 10 * DecimalValue(s[..|s| - 1]) + (s[|s| - 1] as int - '0' as int)
  }

  /** Reading back a printed number gives the number. */
  lemma {:induction false} DecimalRoundTrip(n: nat)
    ensures DecimalValue(DecimalString(n)) == n
  {
    if n >= 10 {
      DecimalRoundTrip(n / 10);
      var s := DecimalString(n);
      assert s[..|s| - 1] == DecimalString(n / 10);
    }
  }

  // ---------------------------------------------------------------------------
  // Python's ordering of strings, and `sorted(set(...))`

  /** Python's `a < b` on `str`: lexicographic on code points, a proper prefix
      before the longer string. */
  predicate LexLess(a: string, b: string)
    decreases |a|
  {
    |b| > 0 && (|a| == 0 || a[0] < b[0] || (a[0] == b[0] && LexLess(a[1..], b[1..])))
  }

  lemma {:induction false} LexIrreflexive(a: string)
    ensures !LexLess(a, a)
    decreases |a|
  {
    if |a| > 0 {
      LexIrreflexive(a[1..]);
    }
  }

  lemma {:induction false} LexTransitive(a: string, b: string, c: string)
    requires LexLess(a, b) && LexLess(b, c)
    ensures LexLess(a, c)
    decreases |a|
  {
    if |a| > 0 && a[0] == b[0] && b[0] == c[0] {
      LexTransitive(a[1..], b[1..], c[1..]);
    }
  }

  lemma {:induction false} LexTotal(a: string, b: string)
    requires a != b
    ensures LexLess(a, b) || LexLess(b, a)
    decreases |a|
  {
    if |a| > 0 && |b| > 0 && a[0] == b[0] {
      assert a == [a[0]] + a[1..] && b == [b[0]] + b[1..];
      LexTotal(a[1..], b[1..]);
    }
  }

  /** The elements of a sequence, as a set. */
  function Elems(xs: seq<string>): set<string>
  {
    set x | x in xs
  }

  /** Strictly increasing in Python's order: each element is below the next
      one, so the sequence is sorted and duplicate-free. */
  predicate StrictlySorted(xs: seq<string>)
  {
    forall i :: 0 < i < |xs| ==> BelowAt(xs, i)
  }

  /** The element before index `i` is below the one at `i`. */
  predicate BelowAt(xs: seq<string>, i: int)
  {
    0 < i < |xs| && LexLess(xs[i - 1], xs[i])
  }

  /** In a strictly sorted sequence every element is below every later one. */
  lemma {:induction false} SortedPairwise(xs: seq<string>)
    requires StrictlySorted(xs)
    ensures forall i, j :: 0 <= i < j < |xs| ==> LexLess(xs[i], xs[j])
    decreases |xs|
  {
    if |xs| > 1 {
      var init := xs[..|xs| - 1];
      assert StrictlySorted(init) by {
        forall i | 0 < i < |init| ensures BelowAt(init, i) {
          assert BelowAt(xs, i);
        }
      }
      SortedPairwise(init);
      forall i, j | 0 <= i < j < |xs| ensures LexLess(xs[i], xs[j]) {
        assert BelowAt(xs, j);
        if j < |xs| - 1 {
          assert xs[i] == init[i] && xs[j] == init[j];
        } else if i < j - 1 {
          assert xs[i] == init[i] && xs[j - 1] == init[j - 1];
          LexTransitive(xs[i], xs[j - 1], xs[j]);
        }
      }
    }
  }

  /** A strictly sorted sequence has no repeated element. */
  lemma StrictlySortedDistinct(xs: seq<string>)
    requires StrictlySorted(xs)
    ensures forall i, j :: 0 <= i < j < |xs| ==> xs[i] != xs[j]
  {
    SortedPairwise(xs);
    forall i, j | 0 <= i < j < |xs| ensures xs[i] != xs[j] {
      LexIrreflexive(xs[i]);
    }
  }

  /** Adds `x` to a strictly sorted sequence, keeping it strictly sorted;
      the new head is `x` or the old head. */
  function InsertSorted(xs: seq<string>, x: string): (r: seq<string>)
    requires StrictlySorted(xs)
    ensures StrictlySorted(r)
    ensures Elems(r) == Elems(xs) + {x}
    ensures r != [] && (r[0] == x || (xs != [] && r[0] == xs[0]))
  {
    if xs == [] then [x]
    else if x == xs[0] then xs
    else if LexLess(x, xs[0]) then
      assert Elems([x] + xs) == Elems(xs) + {x};
      var r := [x] + xs;
      assert forall i :: 1 < i < |r| ==> BelowAt(r, i) by {
        forall i | 1 < i < |r| ensures BelowAt(r, i) {
          assert BelowAt(xs, i - 1);
        }
      }
      assert BelowAt(r, 1);
      r
    else
      LexTotal(x, xs[0]);
      SortedTail(xs);
      var rest := InsertSorted(xs[1..], x);
      assert xs == [xs[0]] + xs[1..];
      assert Elems(xs) == {xs[0]} + Elems(xs[1..]);
      var r := [xs[0]] + rest;
      assert Elems(r) == {xs[0]} + Elems(rest);
      assert BelowAt(xs, 1) ==> LexLess(xs[0], xs[1]);
      assert BelowAt(r, 1);
      assert forall i :: 1 < i < |r| ==> BelowAt(r, i) by {
        forall i | 1 < i < |r| ensures BelowAt(r, i) {
          assert BelowAt(rest, i - 1);
        }
      }
      r
  }

  /** The head of a strictly sorted sequence is below every other element. */
  lemma HeadIsLeast(xs: seq<string>)
    requires StrictlySorted(xs) && xs != []
    ensures forall y :: y in xs[1..] ==> LexLess(xs[0], y)
    ensures xs[0] !in xs[1..]
  {
    SortedPairwise(xs);
    LexIrreflexive(xs[0]);
    forall y | y in xs[1..] ensures LexLess(xs[0], y) {
      var j :| 0 <= j < |xs[1..]| && xs[1..][j] == y;
      assert xs[j + 1] == y;
    }
  }

  /** The tail of a strictly sorted sequence is strictly sorted. */
  lemma SortedTail(xs: seq<string>)
    requires StrictlySorted(xs) && xs != []
    ensures StrictlySorted(xs[1..])
  {
    forall i | 0 < i < |xs[1..]| ensures BelowAt(xs[1..], i) {
      assert BelowAt(xs, i + 1);
    }
  }

  /** A strictly sorted sequence is determined by its elements: this is why
      `sorted(set(...))` has exactly one possible result. */
  lemma {:induction false} SortedUnique(a: seq<string>, b: seq<string>)
    requires StrictlySorted(a) && StrictlySorted(b)
    requires Elems(a) == Elems(b)
    ensures a == b
    decreases |a|
  {
    assert a != [] ==> a[0] in Elems(a);
    assert b != [] ==> b[0] in Elems(b);
    if a != [] && b != [] {
      HeadIsLeast(a);
      HeadIsLeast(b);
      if a[0] != b[0] {
        assert a[0] in Elems(b) && b[0] in Elems(a);
        assert a == [a[0]] + a[1..] && b == [b[0]] + b[1..];
        assert a[0] in b[1..] && b[0] in a[1..];
        LexIrreflexive(a[0]);
        LexTransitive(a[0], b[0], a[0]);
        assert false;
      }
      assert Elems(a[1..]) == Elems(a) - {a[0]};
      assert Elems(b[1..]) == Elems(b) - {b[0]};
      SortedTail(a);
      SortedTail(b);
      SortedUnique(a[1..], b[1..]);
      assert a == [a[0]] + a[1..] && b == [b[0]] + b[1..];
    }
  }

  /** `sorted(set(xs))` as a function: the strictly sorted list of the
      distinct elements of `xs`. */
  function SortedDistinct(xs: seq<string>): (r: seq<string>)
    ensures StrictlySorted(r)
    ensures Elems(r) == Elems(xs)
  {
    if xs == [] then []
    else
      assert Elems(xs) == Elems(xs[..|xs| - 1]) + {xs[|xs| - 1]} by {
        assert xs == xs[..|xs| - 1] + [xs[|xs| - 1]];
      }
      InsertSorted(SortedDistinct(xs[..|xs| - 1]), xs[|xs| - 1])
  }

  /** Python's `sorted(list(s))` for a set of strings. */
  method SortStrings(s: set<string>) returns (r: seq<string>)
    ensures StrictlySorted(r)
    ensures Elems(r) == s
  {
    r := [];
    var remaining := s;
    while remaining != {}
      invariant StrictlySorted(r)
      invariant Elems(r) + remaining == s
      decreases |remaining|
    {
      var x :| x in remaining;
      r := InsertSorted(r, x);
      remaining := remaining - {x};
    }
  }
}
