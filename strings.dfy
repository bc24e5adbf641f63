/** Python string operations the source relies on: `str.join`, `str.strip()` emptiness, `str.endswith`. */
module Strings {

  /** `sep.join(parts)`. */
  function Join(sep: string, parts: seq<string>): string
  {
    if |parts| == 0 then ""
    else if |parts| == 1 then parts[0]
    else parts[0] + sep + Join(sep, parts[1..])
  }

  function SumLengths(parts: seq<string>): nat
  {
    if parts == [] then 0 else |parts[0]| + SumLengths(parts[1..])
  }

  /** Where part k starts inside Join(sep, parts): the earlier parts and one separator after each. */
  function PartOffset(sep: string, parts: seq<string>, k: nat): nat
    requires k <= |parts|
  {
    if k == 0 then 0 else |parts[0]| + |sep| + PartOffset(sep, parts[1..], k - 1)
  }

  /** The joined string holds every part and a separator between each two, and nothing else. */
  lemma {:induction false} JoinLength(sep: string, parts: seq<string>)
    ensures |parts| > 0 ==> |Join(sep, parts)| == SumLengths(parts) + (|parts| - 1) * |sep|
    ensures |parts| == 0 ==> Join(sep, parts) == ""
  {
    if |parts| > 1 {
      JoinLength(sep, parts[1..]);
      assert (|parts| - 1) * |sep| == (|parts| - 2) * |sep| + |sep|;
    }
  }

  /** Part k of the joined string sits at PartOffset(k). */
  lemma {:induction false} JoinPartAt(sep: string, parts: seq<string>, k: nat)
    requires k < |parts|
    ensures PartOffset(sep, parts, k) + |parts[k]| <= |Join(sep, parts)|
    ensures Join(sep, parts)[PartOffset(sep, parts, k) .. PartOffset(sep, parts, k) + |parts[k]|] == parts[k]
  {
    var j := Join(sep, parts);
    if |parts| > 1 {
      var rest := Join(sep, parts[1..]);
      assert j == parts[0] + sep + rest;
      if k == 0 {
        assert j[..|parts[0]|] == parts[0];
      } else {
        var shift := |parts[0]| + |sep|;
        JoinPartAt(sep, parts[1..], k - 1);
        assert parts[1..][k - 1] == parts[k];
        var o := PartOffset(sep, parts[1..], k - 1);
        assert PartOffset(sep, parts, k) == shift + o;
        assert j[shift + o .. shift + o + |parts[k]|] == rest[o .. o + |parts[k]|];
      }
    }
  }

  /** Between part k and part k + 1 of the joined string stands exactly one separator. */
  lemma {:induction false} JoinSeparatorAt(sep: string, parts: seq<string>, k: nat)
    requires k + 1 < |parts|
    ensures var end := PartOffset(sep, parts, k) + |parts[k]|;
      end + |sep| <= |Join(sep, parts)| && Join(sep, parts)[end .. end + |sep|] == sep
  {
    var j := Join(sep, parts);
    var rest := Join(sep, parts[1..]);
    assert j == parts[0] + sep + rest;
    if k == 0 {
      assert j[|parts[0]| .. |parts[0]| + |sep|] == sep;
    } else {
      var shift := |parts[0]| + |sep|;
      JoinSeparatorAt(sep, parts[1..], k - 1);
      assert parts[1..][k - 1] == parts[k];
      var e := PartOffset(sep, parts[1..], k - 1) + |parts[k]|;
      assert PartOffset(sep, parts, k) + |parts[k]| == shift + e;
      assert j[shift + e .. shift + e + |sep|] == rest[e .. e + |sep|];
    }
  }

  lemma PartOffsetNext(sep: string, parts: seq<string>, k: nat)
    requires k < |parts|
    ensures PartOffset(sep, parts, k + 1) == PartOffset(sep, parts, k) + |parts[k]| + |sep|
  {
    if k > 0 {
      PartOffsetNext(sep, parts[1..], k - 1);
    }
  }

  /** The characters Python's `str.isspace()` accepts, so that `s.strip()` removes them. */
  predicate IsSpace(c: char)
  {
    c == ' ' || c == '\t' || c == '\n' || c == '\r' || c == '\U{0B}' || c == '\U{0C}'
    || ('\U{1C}' <= c <= '\U{1F}') || c == '\U{85}' || c == '\U{A0}' || c == '\U{1680}'
    || ('\U{2000}' <= c <= '\U{200A}') || c == '\U{2028}' || c == '\U{2029}' || c == '\U{202F}'
    || c == '\U{205F}' || c == '\U{3000}'
  }

  /** `not s.strip()`: the string is empty once leading and trailing whitespace are removed. */
  predicate IsBlank(s: string)
  {
    forall i :: 0 <= i < |s| ==> IsSpace(s[i])
  }

  /** `s.endswith(suffix)`. */
  predicate EndsWith(s: string, suffix: string)
  {
    |suffix| <= |s| && s[|s| - |suffix|..] == suffix
  }

  /** `a in b` for strings: a occurs in b as a contiguous substring. */
  predicate IsInfix(a: string, b: string)
  {
    exists i, j :: 0 <= i <= j <= |b| && b[i..j] == a
  }
}
