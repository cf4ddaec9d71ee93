/**
 * The JavaScript string operations the modelled code relies on:
 * `split` on a one-character separator, `join`, `trim`, and `replace`
 * with a string pattern (which replaces only the first occurrence).
 */
module Strings {

  /** `s.split(sep)` for a one-character separator: never empty, "" gives [""]. */
  function Split(s: string, sep: char): (parts: seq<string>)
    ensures |parts| >= 1
    decreases |s|
  {
    if |s| == 0 then [""]
    else
      var rest := Split(s[1..], sep);
      if s[0] == sep then [""] + rest
      else [[s[0]] + rest[0]] + rest[1..]
  }

  /** `parts.join(sep)` for a one-character separator. */
  function Join(parts: seq<string>, sep: char): string
  {
    if |parts| == 0 then ""
    else if |parts| == 1 then parts[0]
    else parts[0] + [sep] + Join(parts[1..], sep)
  }

  /** Joining the pieces of a split gives back the string, and no piece holds the separator. */
  lemma {:induction false} SplitJoin(s: string, sep: char)
    ensures Join(Split(s, sep), sep) == s
    ensures forall i :: 0 <= i < |Split(s, sep)| ==> sep !in Split(s, sep)[i]
    decreases |s|
  {
    if |s| > 0 {
      var rest := Split(s[1..], sep);
      SplitJoin(s[1..], sep);
      if s[0] == sep {
        assert Split(s, sep) == [""] + rest;
        assert Join([""] + rest, sep) == "" + [sep] + Join(rest, sep);
        assert [sep] + s[1..] == s;
      } else {
        var parts := Split(s, sep);
        assert parts == [[s[0]] + rest[0]] + rest[1..];
        if |rest| == 1 {
          assert Join(rest, sep) == rest[0];
        } else {
          assert Join(rest, sep) == rest[0] + [sep] + Join(rest[1..], sep);
          assert parts[1..] == rest[1..];
        }
        assert [s[0]] + s[1..] == s;
        forall i | 0 <= i < |parts| ensures sep !in parts[i] {
          if i == 0 {
            assert parts[0] == [s[0]] + rest[0];
          } else {
            assert parts[i] == rest[i];
          }
        }
      }
    }
  }

  /** A string without the separator splits into itself. */
  lemma {:induction false} SplitNoSep(s: string, sep: char)
    requires sep !in s
    ensures Split(s, sep) == [s]
    decreases |s|
  {
    if |s| > 0 {
      assert sep !in s[1..];
      SplitNoSep(s[1..], sep);
      assert [s[0]] + s[1..] == s;
    }
  }

  /** The first piece of `head + [sep] + tail` is `head` when `head` holds no separator. */
  lemma {:induction false} SplitAtFirst(head: string, sep: char, tail: string)
    requires sep !in head
    ensures Split(head + [sep] + tail, sep) == [head] + Split(tail, sep)
    decreases |head|
  {
    var s := head + [sep] + tail;
    if |head| == 0 {
      assert s[0] == sep && s[1..] == tail;
    } else {
      assert s[0] == head[0];
      assert s[1..] == head[1..] + [sep] + tail;
      assert sep !in head[1..];
      SplitAtFirst(head[1..], sep, tail);
      assert [head[0]] + head[1..] == head;
    }
  }

  /**
   * The characters `String.prototype.trim` removes: ECMAScript WhiteSpace
   * (including the Unicode space separators) and LineTerminator.
   */
  predicate IsWhitespace(c: char)
  {
    c == '\t' || c == '\n' || c == '\U{B}' || c == '\U{C}' || c == '\r' || c == ' '
    || c == '\U{A0}' || c == '\U{1680}' || ('\U{2000}' <= c <= '\U{200A}')
    || c == '\U{2028}' || c == '\U{2029}' || c == '\U{202F}' || c == '\U{205F}'
    || c == '\U{3000}' || c == '\U{FEFF}'
  }

  function TrimStart(s: string): string
  {
    if |s| > 0 && IsWhitespace(s[0]) then TrimStart(s[1..]) else s
  }

  function TrimEnd(s: string): string
  {
    if |s| > 0 && IsWhitespace(s[|s| - 1]) then TrimEnd(s[..|s| - 1]) else s
  }

  /** `s.trim()`. */
  function Trim(s: string): string
  {
    TrimEnd(TrimStart(s))
  }

  /** Trimming a string that neither starts nor ends with white space leaves it as it is. */
  lemma TrimNoEdges(s: string)
    requires |s| > 0 ==> !IsWhitespace(s[0]) && !IsWhitespace(s[|s| - 1])
    ensures Trim(s) == s
  {
  }

  /** The trimmed string is a slice of the original, with no white space at either end. */
  lemma {:induction false} TrimIsSlice(s: string)
    ensures exists i, j :: 0 <= i <= j <= |s| && Trim(s) == s[i..j]
    ensures |Trim(s)| > 0 ==> !IsWhitespace(Trim(s)[0]) && !IsWhitespace(Trim(s)[|Trim(s)| - 1])
    ensures forall c :: c in Trim(s) ==> c in s
  {
    var i := TrimStartOffset(s);
    var j := TrimEndLength(s[i..]);
    assert Trim(s) == s[i..][..j] == s[i..i + j];
  }

  lemma {:induction false} TrimStartOffset(s: string) returns (i: nat)
    ensures i <= |s| && TrimStart(s) == s[i..]
    ensures |TrimStart(s)| > 0 ==> !IsWhitespace(TrimStart(s)[0])
  {
    if |s| > 0 && IsWhitespace(s[0]) {
      var k := TrimStartOffset(s[1..]);
      i := k + 1;
      assert s[1..][k..] == s[i..];
    } else {
      i := 0;
    }
  }

  lemma {:induction false} TrimEndLength(s: string) returns (j: nat)
    ensures j <= |s| && TrimEnd(s) == s[..j]
    ensures |TrimEnd(s)| > 0 ==> !IsWhitespace(TrimEnd(s)[0]) || IsWhitespace(s[0])
    ensures |TrimEnd(s)| > 0 ==> !IsWhitespace(TrimEnd(s)[|TrimEnd(s)| - 1])
  {
    if |s| > 0 && IsWhitespace(s[|s| - 1]) {
      j := TrimEndLength(s[..|s| - 1]);
      assert s[..|s| - 1][..j] == s[..j];
    } else {
      j := |s|;
      assert s[..|s|] == s;
    }
  }

  predicate StartsWith(s: string, prefix: string)
  {
    |prefix| <= |s| && s[..|prefix|] == prefix
  }

  /** `pattern` occurs in `s` starting at index `k`. */
  predicate OccursAt(s: string, pattern: string, k: nat)
  {
    k <= |s| && StartsWith(s[k..], pattern)
  }

  /** `s.replace(pattern, "")` with a string pattern: only the first occurrence is removed. */
  /** `k` is the first index at which `pattern` occurs in `s`. */
  predicate FirstAt(s: string, pattern: string, k: nat)
  {
    OccursAt(s, pattern, k) && forall j: nat :: j < k ==> !OccursAt(s, pattern, j)
  }

  /** `pattern` occurs nowhere in `s`. */
  predicate NowhereIn(s: string, pattern: string)
  {
    forall k: nat :: k <= |s| ==> !OccursAt(s, pattern, k)
  }

  function RemoveFirst(s: string, pattern: string): (r: string)
    requires |pattern| > 0
    ensures NowhereIn(s, pattern) ==> r == s
    ensures forall k: nat :: FirstAt(s, pattern, k) ==> r == s[..k] + s[k + |pattern|..]
    decreases |s|
  {
    if StartsWith(s, pattern) then
      assert OccursAt(s, pattern, 0) && s[..0] == [];
      s[|pattern|..]
    else if |s| == 0 then s
    else
      var rest := RemoveFirst(s[1..], pattern);
      assert !OccursAt(s, pattern, 0);
      forall k: nat | FirstAt(s, pattern, k) ensures [s[0]] + rest == s[..k] + s[k + |pattern|..] {
        FirstAtShift(s, pattern, k);
        RemoveShift(s, k, |pattern|);
      }
      assert NowhereIn(s, pattern) ==> rest == s[1..] by {
        if NowhereIn(s, pattern) { NowhereShift(s, pattern); }
      }
      [s[0]] + rest
  }

  lemma FirstAtShift(s: string, pattern: string, k: nat)
    requires |s| > 0 && !OccursAt(s, pattern, 0) && FirstAt(s, pattern, k)
    ensures 1 <= k && FirstAt(s[1..], pattern, k - 1)
  {
    OccursShift(s, pattern, k);
    forall j: nat | j < k - 1 ensures !OccursAt(s[1..], pattern, j) {
      OccursShift(s, pattern, j + 1);
    }
  }

  lemma NowhereShift(s: string, pattern: string)
    requires |s| > 0 && NowhereIn(s, pattern)
    ensures NowhereIn(s[1..], pattern)
  {
    forall j: nat ensures !OccursAt(s[1..], pattern, j) {
      OccursShift(s, pattern, j + 1);
    }
  }

  lemma OccursShift(s: string, pattern: string, k: nat)
    requires 1 <= k && |s| > 0
    ensures OccursAt(s, pattern, k) <==> OccursAt(s[1..], pattern, k - 1)
  {
    if k <= |s| { assert s[k..] == s[1..][k - 1..]; }
  }

  /** Cutting `s[k..k + n]` out of `s` keeps the first character in front. */
  lemma RemoveShift(s: string, k: nat, n: nat)
    requires 1 <= k && k + n <= |s|
    ensures [s[0]] + s[1..][..k - 1] + s[1..][k - 1 + n..] == s[..k] + s[k + n..]
  {
    assert [s[0]] + s[1..][..k - 1] == s[..k];
    assert s[1..][k - 1 + n..] == s[k + n..];
  }
}
