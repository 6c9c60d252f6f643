/**
 * String helpers with the semantics of the .NET calls the clinic code uses:
 * `ToLower` (ASCII letters only), `Contains` (ordinal substring), `string.IsNullOrEmpty`,
 * `string.IsNullOrWhiteSpace` and the element count of `Split`.
 */
module Text {
  import opened Wrappers

  function LowerChar(c: char): (r: char)
    ensures 'A' <= c <= 'Z' ==> r as int == c as int + 32
    ensures !('A' <= c <= 'Z') ==> r == c
  {
    if 'A' <= c <= 'Z' then (c as int + 32) as char else c
  }

  /** `ToLower` restricted to ASCII: only 'A'..'Z' change. */
  function Lower(s: string): (r: string)
    ensures |r| == |s|
    ensures forall i :: 0 <= i < |s| ==> r[i] == LowerChar(s[i])
    ensures forall i :: 0 <= i < |s| ==> !('A' <= r[i] <= 'Z')
  {
    if s == [] then [] else [LowerChar(s[0])] + Lower(s[1..])
  }

  lemma LowerIdempotent(s: string)
    ensures Lower(Lower(s)) == Lower(s)
  {
  }

  /** Lowercasing leaves a string without capital letters as it is. */
  lemma LowerWithoutCapitals(s: string)
    requires forall i :: 0 <= i < |s| ==> !('A' <= s[i] <= 'Z')
    ensures Lower(s) == s
  {
  }

  /** True when `sub` occurs in `s` at position `i` or later. */
  predicate ContainsFrom(s: string, sub: string, i: nat)
    decreases |s| - i
  {
    i + |sub| <= |s| && (s[i..i + |sub|] == sub || ContainsFrom(s, sub, i + 1))
  }

  /** Ordinal `s.Contains(sub)`. */
  predicate Contains(s: string, sub: string)
  {
    ContainsFrom(s, sub, 0)
  }

  /** `sub` occurs in `s` starting at position `j`. */
  predicate OccursAt(s: string, sub: string, j: int)
  {
    0 <= j && j + |sub| <= |s| && s[j..j + |sub|] == sub
  }

  /** `ContainsFrom` finds exactly the occurrences at or after `i`. */
  lemma {:induction false} ContainsFromIff(s: string, sub: string, i: nat)
    ensures ContainsFrom(s, sub, i) <==> exists j :: i <= j && OccursAt(s, sub, j)
    decreases |s| - i
  {
    if i + |sub| <= |s| {
      ContainsFromIff(s, sub, i + 1);
      if s[i..i + |sub|] == sub {
        assert OccursAt(s, sub, i);
      } else if ContainsFrom(s, sub, i + 1) {
        var j :| i + 1 <= j && OccursAt(s, sub, j);
        assert i <= j;
      } else {
        forall j | i <= j && OccursAt(s, sub, j)
          ensures false
        {
        }
      }
    } else {
      forall j | i <= j && OccursAt(s, sub, j)
        ensures false
      {
      }
    }
  }

  /** `Contains` is the usual substring relation. */
  lemma ContainsIff(s: string, sub: string)
    ensures Contains(s, sub) <==> exists j :: OccursAt(s, sub, j)
  {
    ContainsFromIff(s, sub, 0);
  }

  /**
   * A refutation helper: if character `k` of `sub` never occurs in `s` at a position where an
   * occurrence starting at `i` or later would have to put it, `sub` does not occur from `i` on.
   */
  lemma {:induction false} NotContainsFromByChar(s: string, sub: string, k: nat, i: nat)
    requires k < |sub|
    requires forall j :: i + k <= j < |s| ==> s[j] != sub[k]
    ensures !ContainsFrom(s, sub, i)
    decreases |s| - i
  {
    if i + |sub| <= |s| {
      assert s[i..i + |sub|][k] == s[i + k];
      NotContainsFromByChar(s, sub, k, i + 1);
    }
  }

  /** `$"{first} {last}"`, the `GetFullName` of patients, doctors and users. */
  function FullName(first: string, last: string): (r: string)
    ensures |r| == |first| + 1 + |last|
    ensures r[..|first|] == first && r[|first|] == ' ' && r[|first| + 1..] == last
  {
    first + " " + last
  }

  /** A full name whose first name has no space determines both parts. */
  lemma FullNameInjective(f1: string, l1: string, f2: string, l2: string)
    requires ' ' !in f1 && ' ' !in f2
    requires FullName(f1, l1) == FullName(f2, l2)
    ensures f1 == f2 && l1 == l2
  {
  }

  /** `string.IsNullOrEmpty`. */
  predicate IsNullOrEmpty(s: Option<string>)
  {
    s.None? || s.value == ""
  }

  /**
   * `char.IsWhiteSpace`: the Unicode space, line and paragraph separators together with
   * U+0009..U+000D, U+0085 and U+00A0. The same set is what `\s` matches in a .NET regex.
   */
  predicate IsWhiteSpaceChar(c: char)
  {
    || c == ' ' || ('\t' <= c <= '\r') || c == '\U{0085}' || c == '\U{00A0}'
    || c == '\U{1680}' || ('\U{2000}' <= c <= '\U{200A}') || c == '\U{2028}' || c == '\U{2029}'
    || c == '\U{202F}' || c == '\U{205F}' || c == '\U{3000}'
  }

  /** A string made only of white space (the empty string included). */
  predicate IsBlank(s: string)
  {
    forall i :: 0 <= i < |s| ==> IsWhiteSpaceChar(s[i])
  }

  /** `string.IsNullOrWhiteSpace`. */
  predicate IsNullOrWhiteSpace(s: Option<string>)
  {
    s.None? || IsBlank(s.value)
  }

  lemma NullOrEmptyIsNullOrWhiteSpace(s: Option<string>)
    ensures IsNullOrEmpty(s) ==> IsNullOrWhiteSpace(s)
  {
  }

  /** A character outside the Basic Multilingual Plane, stored in .NET as a surrogate pair. */
  predicate IsAstral(c: char)
  {
    c as int >= 0x1_0000
  }

  /**
   * `string.Length`: the number of UTF-16 code units, two for each character outside the Basic
   * Multilingual Plane. This is what `MaximumLength` and `MinimumLength` count.
   */
  function Utf16Length(s: string): (n: nat)
    ensures |s| <= n <= 2 * |s|
    ensures (forall i :: 0 <= i < |s| ==> !IsAstral(s[i])) ==> n == |s|
    ensures (forall i :: 0 <= i < |s| ==> IsAstral(s[i])) ==> n == 2 * |s|
  {
    if s == [] then 0
    else (if IsAstral(s[0]) then 2 else 1) + Utf16Length(s[1..])
  }

  /** `s.Split(sep)`: the pieces between separators, empty pieces kept. */
  function Split(s: string, sep: char): (r: seq<string>)
    ensures |r| == multiset(s)[sep] + 1
    ensures forall k :: 0 <= k < |r| ==> sep !in r[k]
  {
    if s == [] then [""]
    else
      var rest := Split(s[1..], sep);
      assert s == [s[0]] + s[1..];
      if s[0] == sep then [""] + rest else [[s[0]] + rest[0]] + rest[1..]
  }

  /** Puts the pieces back together with `sep` between them (`string.Join`). */
  function Join(pieces: seq<string>, sep: char): string
    requires |pieces| >= 1
  {
    if |pieces| == 1 then pieces[0] else pieces[0] + [sep] + Join(pieces[1..], sep)
  }

  /** Splitting loses nothing: joining the pieces gives the original string. */
  lemma {:induction false} SplitJoin(s: string, sep: char)
    ensures Join(Split(s, sep), sep) == s
  {
    if s != [] {
      SplitJoin(s[1..], sep);
      JoinCons(s, sep, Split(s[1..], sep));
    }
  }

  /** One step of `SplitJoin`: the first character either starts a new piece or extends the first. */
  lemma JoinCons(s: string, sep: char, rest: seq<string>)
    requires s != [] && rest == Split(s[1..], sep) && Join(rest, sep) == s[1..]
    ensures Join(Split(s, sep), sep) == s
  {
    if s[0] == sep {
      JoinAfterSeparator(s, sep, rest);
    } else {
      JoinExtendsFirst(s, sep, rest);
    }
  }

  lemma JoinAfterSeparator(s: string, sep: char, rest: seq<string>)
    requires s != [] && s[0] == sep && rest == Split(s[1..], sep) && Join(rest, sep) == s[1..]
    ensures Join(Split(s, sep), sep) == s
  {
    var r := [""] + rest;
    assert Split(s, sep) == r && r[1..] == rest;
    assert Join(r, sep) == [sep] + s[1..];
    assert s == [s[0]] + s[1..];
  }

  lemma JoinExtendsFirst(s: string, sep: char, rest: seq<string>)
    requires s != [] && s[0] != sep && rest == Split(s[1..], sep) && Join(rest, sep) == s[1..]
    ensures Join(Split(s, sep), sep) == s
  {
    assert Split(s, sep) == [[s[0]] + rest[0]] + rest[1..];
    JoinPrependToFirst(s[0], rest, sep);
    assert s == [s[0]] + s[1..];
  }

  /** Prefixing the first piece prefixes the joined string. */
  lemma JoinPrependToFirst(c: char, pieces: seq<string>, sep: char)
    requires |pieces| >= 1
    ensures Join([[c] + pieces[0]] + pieces[1..], sep) == [c] + Join(pieces, sep)
  {
    var r := [[c] + pieces[0]] + pieces[1..];
    if |pieces| > 1 {
      assert r[1..] == pieces[1..];
      var tail := Join(pieces[1..], sep);
      assert ([c] + pieces[0]) + [sep] + tail == [c] + (pieces[0] + [sep] + tail);
    }
  }

  /** The decimal digits of `n`, without sign or leading zeros (`int.ToString()`). */
  function NatToString(n: nat): (r: string)
    ensures |r| >= 1
    ensures forall i :: 0 <= i < |r| ==> '0' <= r[i] <= '9'
    ensures n < 10 <==> |r| == 1
    decreases n
  {
    if n < 10 then [DigitChar(n)] else NatToString(n / 10) + [DigitChar(n % 10)]
  }

  function DigitChar(d: nat): (c: char)
    requires d < 10
    ensures '0' <= c <= '9'
  {
    ('0' as int + d) as char
  }

  /** Reads a string of decimal digits back as a number. */
  function DigitsValue(s: string): nat
    requires forall i :: 0 <= i < |s| ==> '0' <= s[i] <= '9'
  {
    if s == [] then 0 else DigitsValue(s[..|s| - 1]) * 10 + (s[|s| - 1] as int - '0' as int)
  }

  /** Printing a number and reading it back gives the number. */
  lemma {:induction false} NatToStringRoundTrip(n: nat)
    ensures DigitsValue(NatToString(n)) == n
    decreases n
  {
    var r := NatToString(n);
    if n >= 10 {
      NatToStringRoundTrip(n / 10);
      assert r[..|r| - 1] == NatToString(n / 10);
    }
  }
}
