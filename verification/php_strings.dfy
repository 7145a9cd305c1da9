/**
 * The PHP string built-ins the glue code relies on, over `seq<char>`:
 * strtolower, substr with a negative start, str_replace of one character,
 * explode/implode on a one-character separator, and the truthiness of a
 * nullable string.
 */
module PhpStrings {
  import opened Wrappers

  /** strtolower: ASCII upper-case letters are lowered, every other character is kept. */
  function LowerChar(c: char): char {
    if 'A' <= c <= 'Z' then (c as int + 32) as char else c
  }

  function ToLower(s: string): (r: string)
    ensures |r| == |s|
    ensures forall i :: 0 <= i < |s| ==> r[i] == LowerChar(s[i])
  {
    if |s| == 0 then "" else [LowerChar(s[0])] + ToLower(s[1..])
  }

  /** substr(s, -n): the last n characters, or all of s when it is shorter. */
  function LastChars(s: string, n: nat): (r: string)
    ensures |r| == (if |s| <= n then |s| else n)
    ensures r == s[|s| - |r|..]
  {
    if |s| <= n then s else s[|s| - n..]
  }

  /** str_replace(from, to, s) for single characters. */
  function ReplaceChar(s: string, from: char, to: char): (r: string)
    ensures |r| == |s|
    ensures forall i :: 0 <= i < |s| ==> r[i] == (if s[i] == from then to else s[i])
    ensures from != to ==> from !in r
  {
    if |s| == 0 then "" else [if s[0] == from then to else s[0]] + ReplaceChar(s[1..], from, to)
  }

  /** explode(sep, s): the pieces of s between occurrences of sep; never empty. */
  function Explode(s: string, sep: char): (parts: seq<string>)
    ensures |parts| >= 1
    ensures forall k :: 0 <= k < |parts| ==> sep !in parts[k]
  {
    if |s| == 0 then [""]
    else
      var rest := Explode(s[1..], sep);
      if s[0] == sep then [""] + rest else [[s[0]] + rest[0]] + rest[1..]
  }

  /** implode(sep, parts): the parts with sep between neighbours. */
  function Implode(sep: char, parts: seq<string>): string {
    if |parts| == 0 then ""
    else if |parts| == 1 then parts[0]
    else parts[0] + [sep] + Implode(sep, parts[1..])
  }

  /** Gluing the pieces of explode back together gives the original string. */
  lemma {:induction false} ImplodeExplode(s: string, sep: char)
    ensures Implode(sep, Explode(s, sep)) == s
  {
    if |s| > 0 {
      var rest := Explode(s[1..], sep);
      ImplodeExplode(s[1..], sep);
      if s[0] == sep {
        assert Explode(s, sep)[1..] == rest;
      } else {
        var parts := Explode(s, sep);
        assert parts[1..] == rest[1..];
        if |rest| == 1 {
          assert parts == [[s[0]] + rest[0]];
        } else {
          assert Implode(sep, rest) == rest[0] + [sep] + Implode(sep, rest[1..]);
        }
      }
      assert s == [s[0]] + s[1..];
    }
  }

  /** Implode over a non-empty prefix and one more part. */
  lemma {:induction false} ImplodeSnoc(sep: char, parts: seq<string>, last: string)
    requires |parts| >= 1
    ensures Implode(sep, parts + [last]) == Implode(sep, parts) + [sep] + last
    decreases |parts|
  {
    if |parts| > 1 {
      assert (parts + [last])[1..] == parts[1..] + [last];
      ImplodeSnoc(sep, parts[1..], last);
    } else {
      assert (parts + [last])[1..] == [last];
    }
  }

  /** Implode of separator-free parts contains the separator only when it has two parts or more. */
  lemma {:induction false} ImplodeSeparatorFree(sep: char, parts: seq<string>)
    requires forall k :: 0 <= k < |parts| ==> sep !in parts[k]
    ensures |parts| <= 1 ==> sep !in Implode(sep, parts)
    ensures |parts| >= 2 ==> sep in Implode(sep, parts)
  {
    if |parts| >= 2 {
      assert Implode(sep, parts)[|parts[0]|] == sep;
    }
  }

  /** PHP's (bool) cast of a nullable string: null, "" and "0" are false. */
  predicate Truthy(s: Option<string>) {
    s.Some? && s.value != "" && s.value != "0"
  }

  predicate EndsWith(s: string, suffix: string) {
    |suffix| <= |s| && s[|s| - |suffix|..] == suffix
  }

  /** A string that ends in a suffix of two characters or more is never falsy. */
  lemma EndsWithLongSuffixIsTruthy(s: string, suffix: string)
    requires |suffix| >= 2 && EndsWith(s, suffix)
    ensures Truthy(Some(s))
  {
  }
}
