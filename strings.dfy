/**
 * The JavaScript string operations the application relies on: `trim()`, the
 * `\s` character class used by `replace(/\s/g, '')`, and `toLowerCase()`
 * (restricted here to ASCII letters).
 */
module Strings {
  import opened Common

  /**
   * JavaScript's WhiteSpace and LineTerminator code points: the set that both
   * `String.prototype.trim` and the regular-expression class `\s` use.
   */
  predicate IsWhitespace(c: char)
  {
    || c == ' ' || c == '\t' || c == '\n' || c == '\r'
    || c == '\U{000B}' || c == '\U{000C}' || c == '\U{00A0}' || c == '\U{1680}'
    || ('\U{2000}' <= c <= '\U{200A}')
    || c == '\U{2028}' || c == '\U{2029}' || c == '\U{202F}' || c == '\U{205F}'
    || c == '\U{3000}' || c == '\U{FEFF}'
  }

  function TrimStart(s: string): string
  {
    if |s| > 0 && IsWhitespace(s[0]) then TrimStart(s[1..]) else s
  }

  function TrimEnd(s: string): string
  {
    if |s| > 0 && IsWhitespace(s[|s| - 1]) then TrimEnd(s[..|s| - 1]) else s
  }

  /** The string without its leading and trailing whitespace. */
  function Trim(s: string): string
  {
    TrimEnd(TrimStart(s))
  }

  /** A string is blank when nothing but whitespace is left once it is trimmed. */
  predicate IsBlank(s: string)
  {
    Trim(s) == ""
  }

  /** Where `TrimStart` cuts: everything before `k` is whitespace and the rest does not start with it. */
  lemma {:induction false} TrimStartCut(s: string) returns (k: nat)
    ensures k <= |s| && TrimStart(s) == s[k..]
    ensures forall i :: 0 <= i < k ==> IsWhitespace(s[i])
    ensures k < |s| ==> !IsWhitespace(s[k])
  {
    if |s| > 0 && IsWhitespace(s[0]) {
      var j := TrimStartCut(s[1..]);
      k := j + 1;
      assert s[1..][j..] == s[k..];
      forall i | 0 <= i < k ensures IsWhitespace(s[i]) {
        if i > 0 { assert s[i] == s[1..][i - 1]; }
      }
    } else {
      k := 0;
    }
  }

  /** Where `TrimEnd` cuts: everything from `k` on is whitespace and the rest does not end with it. */
  lemma {:induction false} TrimEndCut(s: string) returns (k: nat)
    ensures k <= |s| && TrimEnd(s) == s[..k]
    ensures forall i :: k <= i < |s| ==> IsWhitespace(s[i])
    ensures k > 0 ==> !IsWhitespace(s[k - 1])
  {
    if |s| > 0 && IsWhitespace(s[|s| - 1]) {
      var t := s[..|s| - 1];
      k := TrimEndCut(t);
      assert t[..k] == s[..k];
      forall i | k <= i < |s| ensures IsWhitespace(s[i]) {
        if i < |t| { assert s[i] == t[i]; }
      }
      if k > 0 { assert s[k - 1] == t[k - 1]; }
    } else {
      k := |s|;
      assert s[..|s|] == s;
    }
  }

  /** Where `Trim` cuts: the result is `s[a..b]`, and what is cut off on either side is whitespace. */
  lemma TrimCut(s: string) returns (a: nat, b: nat)
    ensures a <= b <= |s| && Trim(s) == s[a..b]
    ensures forall i :: 0 <= i < a ==> IsWhitespace(s[i])
    ensures forall i :: b <= i < |s| ==> IsWhitespace(s[i])
    ensures a < b ==> !IsWhitespace(s[a]) && !IsWhitespace(s[b - 1])
  {
    a := TrimStartCut(s);
    var t := s[a..];
    var k := TrimEndCut(t);
    b := a + k;
    assert t[..k] == s[a..b];
    forall i | b <= i < |s| ensures IsWhitespace(s[i]) {
      assert s[i] == t[i - a];
    }
    if a < b {
      assert s[b - 1] == t[k - 1];
    }
  }

  /**
   * The trimmed string is a contiguous slice of the input, everything cut off is
   * whitespace, and the result neither starts nor ends with whitespace.
   */
  lemma TrimShape(s: string)
    ensures exists a, b :: 0 <= a <= b <= |s| && Trim(s) == s[a..b]
                           && (forall i :: 0 <= i < a ==> IsWhitespace(s[i]))
                           && (forall i :: b <= i < |s| ==> IsWhitespace(s[i]))
    ensures Trim(s) == [] || (!IsWhitespace(Trim(s)[0]) && !IsWhitespace(Trim(s)[|Trim(s)| - 1]))
  {
    var a, b := TrimCut(s);
    if a < b {
      assert Trim(s)[0] == s[a];
      assert Trim(s)[|Trim(s)| - 1] == s[b - 1];
    }
  }

  /** A string is blank exactly when every character of it is whitespace. */
  lemma BlankIffAllWhitespace(s: string)
    ensures IsBlank(s) <==> forall i :: 0 <= i < |s| ==> IsWhitespace(s[i])
  {
    var a, b := TrimCut(s);
    if IsBlank(s) {
      assert a == b;
    } else {
      assert !IsWhitespace(s[a]);
    }
  }

  /** Trimming an already trimmed string changes nothing. */
  lemma TrimIdempotent(s: string)
    ensures Trim(Trim(s)) == Trim(s)
  {
    TrimShape(s);
    var t := Trim(s);
    if t != [] {
      assert TrimStart(t) == t;
      assert TrimEnd(t) == t;
    }
  }

  /** The small letter for an ASCII capital letter; any other character unchanged. */
  function LowerChar(c: char): char
  {
    if 'A' <= c <= 'Z' then (c as int + 32) as char else c
  }

  /** The string with every ASCII capital letter replaced by its small letter. */
  function Lower(s: string): (r: string)
    ensures |r| == |s|
    ensures forall i :: 0 <= i < |s| ==> r[i] == LowerChar(s[i])
  {
    if |s| == 0 then "" else [LowerChar(s[0])] + Lower(s[1..])
  }

  /** The characters of `s` that are not whitespace, in their order: what a global replace of `\s` by nothing leaves. */
  function RemoveWhitespace(s: string): (r: string)
    ensures |r| <= |s|
    ensures forall i :: 0 <= i < |r| ==> !IsWhitespace(r[i])
  {
    if |s| == 0 then ""
    else (if IsWhitespace(s[0]) then "" else [s[0]]) + RemoveWhitespace(s[1..])
  }

  /** Removing whitespace keeps exactly the other characters, each in its place in the order. */
  lemma {:induction false} RemoveWhitespaceFilters(s: string)
    ensures RemoveWhitespace(s) == Filter(s, (c: char) => !IsWhitespace(c))
  {
    if |s| > 0 {
      RemoveWhitespaceFilters(s[1..]);
    }
  }

  /** Lowercasing twice is lowercasing once. */
  lemma LowerIdempotent(s: string)
    ensures Lower(Lower(s)) == Lower(s)
  {
  }

  /** Lowercasing commutes with removing whitespace (lowercase ASCII letters are not whitespace). */
  lemma {:induction false} LowerRemoveWhitespace(s: string)
    ensures Lower(RemoveWhitespace(s)) == RemoveWhitespace(Lower(s))
  {
    if |s| > 0 {
      var t := s[1..];
      var l := Lower(s);
      LowerRemoveWhitespace(t);
      assert l[0] == LowerChar(s[0]) && l[1..] == Lower(t);
      assert IsWhitespace(LowerChar(s[0])) == IsWhitespace(s[0]);
      var rest := RemoveWhitespace(t);
      var head: string := if IsWhitespace(s[0]) then "" else [s[0]];
      assert RemoveWhitespace(s) == head + rest;
      assert RemoveWhitespace(l) == Lower(head) + RemoveWhitespace(Lower(t));
      assert Lower(head + rest) == Lower(head) + Lower(rest);
    }
  }
}
