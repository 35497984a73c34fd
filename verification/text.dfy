/** String helpers for the parts of Python's `str` API that the query builders use:
    `str.lower`, `str.join`, list repetition and the `%s` placeholders that the
    MySQL driver substitutes parameters into. */
module Text {

  /** The placeholder the MySQL driver replaces by one escaped parameter. */
  const Placeholder: string := "%s"

  /** Lower-cases one ASCII capital letter; every other character is kept. */
  function LowerChar(c: char): (r: char)
    ensures 'A' <= c <= 'Z' ==> 'a' <= r <= 'z' && r as int - c as int == 'a' as int - 'A' as int
    ensures !('A' <= c <= 'Z') ==> r == c
  {
    if 'A' <= c <= 'Z' then (c as int - 'A' as int + 'a' as int) as char else c
  }

  /** `s.lower()`, folding the ASCII letters only. */
  function Lower(s: string): string {
    seq(|s|, i requires 0 <= i < |s| => LowerChar(s[i]))
  }

  /** Lower-casing keeps the length, folds every ASCII capital and leaves no
      capital behind. */
  lemma LowerSpec(s: string)
    ensures |Lower(s)| == |s|
    ensures forall i :: 0 <= i < |s| ==> Lower(s)[i] == LowerChar(s[i])
    ensures forall i :: 0 <= i < |s| ==> !('A' <= Lower(s)[i] <= 'Z')
  {
  }

  /** Lower-casing twice is lower-casing once. */
  lemma LowerIdempotent(s: string)
    ensures Lower(Lower(s)) == Lower(s)
  {
  }

  /** `[x] * n` in Python. */
  function Repeat(x: string, n: nat): (r: seq<string>)
    ensures |r| == n
    ensures forall i :: 0 <= i < n ==> r[i] == x
  {
    seq(n, i requires 0 <= i < n => x)
  }

  /** `sep.join(parts)` in Python. */
  function Join(sep: string, parts: seq<string>): string
    decreases |parts|
  {
    if |parts| == 0 then ""
    else if |parts| == 1 then parts[0]
    else parts[0] + sep + Join(sep, parts[1..])
  }

  /** Joining text without a `%` yields text without a `%`. */
  lemma {:induction false} NoPercentJoin(sep: string, parts: seq<string>)
    requires '%' !in sep
    requires forall i :: 0 <= i < |parts| ==> '%' !in parts[i]
    ensures '%' !in Join(sep, parts)
    decreases |parts|
  {
    if |parts| > 1 {
      NoPercentJoin(sep, parts[1..]);
    }
  }

  /** `"".join(parts)`: the concatenation of a sequence of fragments. */
  function Flatten(parts: seq<string>): string
    decreases |parts|
  {
    if |parts| == 0 then "" else parts[0] + Flatten(parts[1..])
  }

  lemma {:induction false} FlattenAppend(a: seq<string>, b: seq<string>)
    ensures Flatten(a + b) == Flatten(a) + Flatten(b)
    decreases |a|
  {
    if |a| == 0 {
      assert a + b == b;
    } else {
      assert (a + b)[1..] == a[1..] + b;
      FlattenAppend(a[1..], b);
    }
  }

  /** Flattening a head piece, a middle and a tail piece. */
  lemma FlattenAround(head: string, middle: seq<string>, tail: string)
    ensures Flatten([head] + middle + [tail]) == head + Flatten(middle) + tail
  {
    FlattenAppend([head] + middle, [tail]);
    FlattenAppend([head], middle);
    assert Flatten([head]) == head + Flatten([]);
    assert Flatten([tail]) == tail + Flatten([]);
  }

  /** The number of `%s` placeholders in `s`, read left to right. */
  function PlaceholderCount(s: string): nat
    decreases |s|
  {
    if |s| < 2 then 0
    else if s[0] == '%' && s[1] == 's' then 1 + PlaceholderCount(s[2..])
    else PlaceholderCount(s[1..])
  }

  /** Counting placeholders is additive over a concatenation, provided no
      placeholder is split across the seam, which is guaranteed when the right
      part does not start with `s`. */
  lemma {:induction false} PlaceholderCountAppend(a: string, b: string)
    requires |b| == 0 || b[0] != 's'
    ensures PlaceholderCount(a + b) == PlaceholderCount(a) + PlaceholderCount(b)
    decreases |a|
  {
    if |a| == 0 {
      assert a + b == b;
    } else if |a| == 1 {
      if |b| >= 1 {
        assert (a + b)[1..] == b;
      }
    } else if a[0] == '%' && a[1] == 's' {
      assert (a + b)[2..] == a[2..] + b;
      PlaceholderCountAppend(a[2..], b);
    } else {
      assert (a + b)[1..] == a[1..] + b;
      PlaceholderCountAppend(a[1..], b);
    }
  }

  /** Text without a `%` holds no placeholder. */
  lemma {:induction false} NoPercentNoPlaceholders(s: string)
    requires '%' !in s
    ensures PlaceholderCount(s) == 0
    decreases |s|
  {
    if |s| >= 2 {
      assert s[0] == s[..1][0] && s == s[..1] + s[1..];
      NoPercentNoPlaceholders(s[1..]);
    }
  }

  /** Fixed text followed by one placeholder holds exactly one placeholder. */
  lemma OnePlaceholderAfter(prefix: string)
    requires '%' !in prefix
    ensures PlaceholderCount(prefix + Placeholder) == 1
  {
    NoPercentNoPlaceholders(prefix);
    PlaceholderCountAppend(prefix, Placeholder);
    assert PlaceholderCount(Placeholder) == 1 by {
      assert Placeholder[2..] == [];
    }
  }

  /** `', '.join(['%s'] * n)` holds exactly `n` placeholders. */
  lemma {:induction false} JoinedPlaceholders(n: nat)
    ensures PlaceholderCount(Join(", ", Repeat(Placeholder, n))) == n
    ensures n > 0 ==> |Join(", ", Repeat(Placeholder, n))| > 0
                      && Join(", ", Repeat(Placeholder, n))[0] == '%'
    decreases n
  {
    var parts := Repeat(Placeholder, n);
    if n == 0 {
    } else if n == 1 {
      assert Join(", ", parts) == Placeholder;
    } else {
      assert parts[1..] == Repeat(Placeholder, n - 1);
      JoinedPlaceholders(n - 1);
      var rest := Join(", ", Repeat(Placeholder, n - 1));
      assert Join(", ", parts) == Placeholder + (", " + rest);
      PlaceholderCountAppend(Placeholder, ", " + rest);
      PlaceholderCountAppend(", ", rest);
    }
  }
}
