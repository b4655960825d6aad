/** ASCII models of the Python string operations the transformers rely on:
    `str.isdigit`, `str.capitalize`, `in` on strings, `str.split` and `str.join`. */
module Text {

  predicate IsAsciiDigit(c: char) { '0' <= c <= '9' }
  predicate IsLowerCase(c: char) { 'a' <= c <= 'z' }
  predicate IsUpperCase(c: char) { 'A' <= c <= 'Z' }

  /** `str.isdigit()`: non-empty and every character a digit. */
  predicate IsDigits(s: string) {
    |s| > 0 && forall i :: 0 <= i < |s| ==> IsAsciiDigit(s[i])
  }

  function ToUpper(c: char): (r: char)
    ensures !IsLowerCase(r)
    ensures IsLowerCase(c) || r == c
  {
    if IsLowerCase(c) then (c as int - 32) as char else c
  }

  function ToLower(c: char): (r: char)
    ensures !IsUpperCase(r)
    ensures IsUpperCase(c) || r == c
  {
    if IsUpperCase(c) then (c as int + 32) as char else c
  }

  /** Two strings that differ at most in the case of their letters. */
  predicate SameUpToCase(a: string, b: string) {
    |a| == |b| && forall i :: 0 <= i < |a| ==> ToLower(a[i]) == ToLower(b[i])
  }

  /** The shape `str.capitalize()` produces: no lower-case first letter, no upper-case letter after it. */
  predicate IsCapitalized(s: string) {
    (|s| > 0 ==> !IsLowerCase(s[0])) && forall i :: 1 <= i < |s| ==> !IsUpperCase(s[i])
  }

  function LowerAll(s: string): (r: string)
    ensures |r| == |s|
    ensures forall i :: 0 <= i < |s| ==> r[i] == ToLower(s[i])
  {
    if s == [] then [] else [ToLower(s[0])] + LowerAll(s[1..])
  }

  /** `str.capitalize()`: first character upper-cased, the rest lower-cased. */
  function Capitalize(s: string): (r: string)
    ensures IsCapitalized(r)
    ensures SameUpToCase(r, s)
  {
    if s == [] then [] else [ToUpper(s[0])] + LowerAll(s[1..])
  }

  /** A capitalized string is its own capitalization. */
  lemma CapitalizeFixesCapitalized(s: string)
    requires IsCapitalized(s)
    ensures Capitalize(s) == s
  {
    if s != [] {
      var r := Capitalize(s);
      assert r[0] == s[0];
      forall i | 1 <= i < |s|
        ensures r[i] == s[i]
      {
        assert r[i] == LowerAll(s[1..])[i - 1];
      }
    }
  }

  /** `capitalize` is idempotent. */
  lemma CapitalizeIdempotent(s: string)
    ensures Capitalize(Capitalize(s)) == Capitalize(s)
  {
    CapitalizeFixesCapitalized(Capitalize(s));
  }

  /** Python's `sub in s` on strings. */
  predicate ContainsSubstring(s: string, sub: string)
    decreases |s|
  {
    (|sub| <= |s| && s[..|sub|] == sub) || (|s| > 0 && ContainsSubstring(s[1..], sub))
  }

  /** `sub` occurs in `s` starting at position `i`. */
  predicate OccursAt(s: string, sub: string, i: int) {
    0 <= i && i + |sub| <= |s| && s[i..i + |sub|] == sub
  }

  /** `sub in s` holds exactly when `sub` occurs in `s` at some position. */
  lemma {:induction false} ContainsSubstringIffOccurs(s: string, sub: string)
    ensures ContainsSubstring(s, sub) <==> exists i :: OccursAt(s, sub, i)
    decreases |s|
  {
    if |s| > 0 {
      ContainsSubstringIffOccurs(s[1..], sub);
      if |sub| <= |s| && s[..|sub|] == sub {
        assert s[0..|sub|] == s[..|sub|];
        assert OccursAt(s, sub, 0);
      }
      if ContainsSubstring(s[1..], sub) {
        var i :| OccursAt(s[1..], sub, i);
        assert s[1..][i..i + |sub|] == s[i + 1..i + 1 + |sub|];
        assert OccursAt(s, sub, i + 1);
      }
      if exists i :: OccursAt(s, sub, i) {
        var i :| OccursAt(s, sub, i);
        if i > 0 {
          assert s[1..][i - 1..i - 1 + |sub|] == s[i..i + |sub|];
          assert OccursAt(s[1..], sub, i - 1);
        } else {
          assert s[..|sub|] == s[0..|sub|];
        }
      }
    } else if sub == [] {
      assert s[0..0] == sub;
      assert OccursAt(s, sub, 0);
    }
  }

  predicate IsSuffix(suffix: string, s: string) {
    |suffix| <= |s| && s[|s| - |suffix|..] == suffix
  }

  /** `c` occurs at most once in `s`. */
  predicate AtMostOnce(s: string, c: char) {
    forall i, j :: 0 <= i < j < |s| && s[i] == c ==> s[j] != c
  }

  function IndexOf(s: string, c: char): (i: nat)
    requires c in s
    ensures i < |s| && s[i] == c
    ensures c !in s[..i]
  {
    if s[0] == c then 0 else 1 + IndexOf(s[1..], c)
  }

  /** `sep.join(parts)`. */
  function Join(parts: seq<string>, sep: char): string {
    if |parts| == 0 then ""
    else if |parts| == 1 then parts[0]
    else parts[0] + [sep] + Join(parts[1..], sep)
  }

  /** `s.split(sep)`: the pieces between separators; joining them back gives `s`. */
  function Split(s: string, sep: char): (parts: seq<string>)
    ensures |parts| >= 1
    ensures forall i :: 0 <= i < |parts| ==> sep !in parts[i]
    ensures Join(parts, sep) == s
    decreases |s|
  {
    if sep !in s then [s]
    else
      var i := IndexOf(s, sep);
      var rest := Split(s[i + 1..], sep);
      assert s == s[..i] + [sep] + s[i + 1..];
      [s[..i]] + rest
  }

  lemma {:induction false} JoinAppend(a: seq<string>, b: seq<string>, sep: char)
    requires |a| >= 1 && |b| >= 1
    ensures Join(a + b, sep) == Join(a, sep) + [sep] + Join(b, sep)
    decreases |a|
  {
    if |a| == 1 {
      assert (a + b)[1..] == b;
    } else {
      assert (a + b)[1..] == a[1..] + b;
      JoinAppend(a[1..], b, sep);
    }
  }

  /** Splitting a join of separator-free pieces gives the pieces back. */
  lemma {:induction false} SplitJoin(parts: seq<string>, sep: char)
    requires |parts| >= 1
    requires forall i :: 0 <= i < |parts| ==> sep !in parts[i]
    ensures Split(Join(parts, sep), sep) == parts
    decreases |parts|
  {
    if |parts| > 1 {
      var s := Join(parts, sep);
      var tail := Join(parts[1..], sep);
      assert s == parts[0] + [sep] + tail;
      assert sep in s by { assert s[|parts[0]|] == sep; }
      var i := IndexOf(s, sep);
      assert i == |parts[0]|;
      assert s[..i] == parts[0];
      assert s[i + 1..] == tail;
      SplitJoin(parts[1..], sep);
      assert Split(s, sep) == [parts[0]] + parts[1..];
    }
  }

  /** `sep` occurs exactly once, between two pieces that do not contain it. */
  lemma OnceBetween(x: string, y: string, sep: char)
    requires sep !in x && sep !in y
    ensures AtMostOnce(x + [sep] + y, sep)
    ensures sep in x + [sep] + y
  {
    var s := x + [sep] + y;
    assert s[|x|] == sep;
    assert forall i :: 0 <= i < |s| && s[i] == sep ==> i == |x|;
  }
}
