/**
 * The two JavaScript string built-ins the catalog parsers rely on:
 * String.prototype.trim and String.prototype.split with a one-character
 * separator. Strings are sequences of Unicode scalar values.
 */
module JsString {

  /** The characters trim removes: ECMAScript WhiteSpace and LineTerminator. */
  const WhitespaceChars: set<char> := {
    '\t', '\n', '\U{000B}', '\U{000C}', '\r', ' ', '\U{00A0}', '\U{1680}',
    '\U{2000}', '\U{2001}', '\U{2002}', '\U{2003}', '\U{2004}', '\U{2005}',
    '\U{2006}', '\U{2007}', '\U{2008}', '\U{2009}', '\U{200A}',
    '\U{2028}', '\U{2029}', '\U{202F}', '\U{205F}', '\U{3000}', '\U{FEFF}'
  }

  predicate IsWhitespace(c: char) {
    c in WhitespaceChars
  }

  predicate AllWhitespace(s: string) {
    forall k :: 0 <= k < |s| ==> IsWhitespace(s[k])
  }

  /** No whitespace at either end (the empty string qualifies). */
  predicate IsTrimmed(s: string) {
    s == [] || (!IsWhitespace(s[0]) && !IsWhitespace(s[|s| - 1]))
  }

  /** Removes leading whitespace: the longest whitespace prefix is dropped. */
  function TrimStart(s: string): (r: string)
    ensures |r| <= |s| && r == s[|s| - |r|..]
    ensures forall k :: 0 <= k < |s| - |r| ==> IsWhitespace(s[k])
    ensures r == [] || !IsWhitespace(r[0])
  {
    if |s| > 0 && IsWhitespace(s[0]) then
      var r := TrimStart(s[1..]);
      assert forall k :: 1 <= k < |s| - |r| ==> s[k] == s[1..][k - 1];
      r
    else s
  }

  /** Removes trailing whitespace: the longest whitespace suffix is dropped. */
  function TrimEnd(s: string): (r: string)
    ensures |r| <= |s| && r == s[..|r|]
    ensures forall k :: |r| <= k < |s| ==> IsWhitespace(s[k])
    ensures r == [] || !IsWhitespace(r[|r| - 1])
  {
    if |s| > 0 && IsWhitespace(s[|s| - 1]) then
      var r := TrimEnd(s[..|s| - 1]);
      assert forall k :: |r| <= k < |s| - 1 ==> s[k] == s[..|s| - 1][k];
      r
    else s
  }

  /** String.prototype.trim. */
  function Trim(s: string): (r: string)
    ensures |r| <= |s|
    ensures IsTrimmed(r)
  {
    var t := TrimStart(s);
    var r := TrimEnd(t);
    if r == [] then r
    else
      assert r[0] == t[0];
      assert !IsWhitespace(r[0]) && !IsWhitespace(r[|r| - 1]);
      r
  }

  /** The trim of s is the middle of s between a whitespace prefix and a whitespace suffix. */
  lemma TrimSlice(s: string) returns (i: nat, j: nat)
    ensures i <= j <= |s| && Trim(s) == s[i..j]
    ensures forall k :: 0 <= k < i ==> IsWhitespace(s[k])
    ensures forall k :: j <= k < |s| ==> IsWhitespace(s[k])
  {
    var t := TrimStart(s);
    var r := TrimEnd(t);
    assert Trim(s) == r;
    i, j := |s| - |t|, |s| - |t| + |r|;
    assert t == s[i..];
    assert r == t[..|r|];
    assert r == s[i..j];
    forall k | j <= k < |s| ensures IsWhitespace(s[k]) {
      assert s[k] == t[k - i];
    }
  }

  /** Trimming never introduces a character: one absent from s is absent from its trim. */
  lemma TrimKeepsAbsent(s: string, x: char)
    requires x !in s
    ensures x !in Trim(s)
  {
    var i, j := TrimSlice(s);
    assert forall y :: y in s[i..j] ==> y in s;
  }

  lemma {:induction false} TrimStartAppend(s: string, t: string)
    ensures TrimStart(s + t) == if TrimStart(s) == [] then TrimStart(t) else TrimStart(s) + t
  {
    if |s| > 0 {
      assert (s + t)[1..] == s[1..] + t;
      if IsWhitespace(s[0]) {
        TrimStartAppend(s[1..], t);
      }
    } else {
      assert s + t == t;
    }
  }

  lemma {:induction false} TrimEndAppendWhitespace(s: string, w: string)
    requires AllWhitespace(w)
    ensures TrimEnd(s + w) == TrimEnd(s)
    decreases |w|
  {
    if |w| == 0 {
      assert s + w == s;
    } else {
      var w' := w[..|w| - 1];
      assert (s + w)[..|s + w| - 1] == s + w';
      TrimEndAppendWhitespace(s, w');
    }
  }

  lemma {:induction false} TrimStartAllWhitespace(w: string)
    requires AllWhitespace(w)
    ensures TrimStart(w) == []
    decreases |w|
  {
    if |w| > 0 {
      TrimStartAllWhitespace(w[1..]);
    }
  }

  /** Trailing whitespace never survives trim. */
  lemma TrimAppendWhitespace(s: string, w: string)
    requires AllWhitespace(w)
    ensures Trim(s + w) == Trim(s)
  {
    TrimStartAppend(s, w);
    TrimStartAllWhitespace(w);
    if TrimStart(s) != [] {
      TrimEndAppendWhitespace(TrimStart(s), w);
    }
  }

  /** Leading whitespace never survives trim. */
  lemma TrimPrependWhitespace(w: string, s: string)
    requires AllWhitespace(w)
    ensures Trim(w + s) == Trim(s)
  {
    TrimStartAppend(w, s);
    TrimStartAllWhitespace(w);
  }

  /** A string that is only whitespace trims to the empty string. */
  lemma TrimAllWhitespace(w: string)
    requires AllWhitespace(w)
    ensures Trim(w) == []
  {
    TrimStartAllWhitespace(w);
  }

  /** Trimming twice is trimming once, and a trimmed string is its own trim. */
  lemma TrimOfTrimmed(s: string)
    requires IsTrimmed(s)
    ensures Trim(s) == s
  {
  }

  lemma TrimIdempotent(s: string)
    ensures Trim(Trim(s)) == Trim(s)
  {
    TrimOfTrimmed(Trim(s));
  }

  /** Array.prototype.join with a one-character separator. */
  function Join(parts: seq<string>, sep: char): (s: string)
  {
    if |parts| == 0 then ""
    else if |parts| == 1 then parts[0]
    else parts[0] + [sep] + Join(parts[1..], sep)
  }

  /**
   * String.prototype.split with a one-character separator: the pieces between
   * separators, so there is always at least one piece and a trailing
   * separator yields a trailing empty piece.
   */
  function Split(s: string, sep: char): (parts: seq<string>)
    ensures |parts| >= 1
    ensures forall k :: 0 <= k < |parts| ==> sep !in parts[k]
  {
    if |s| == 0 then [""]
    else
      var rest := Split(s[1..], sep);
      if s[0] == sep then [""] + rest
      else [[s[0]] + rest[0]] + rest[1..]
  }

  /** Joining the pieces of a split with the separator gives back the string. */
  lemma {:induction false} JoinSplit(s: string, sep: char)
    ensures Join(Split(s, sep), sep) == s
  {
    if |s| > 0 {
      var rest := Split(s[1..], sep);
      JoinSplit(s[1..], sep);
      if s[0] == sep {
        assert ([""] + rest)[1..] == rest;
      } else {
        var parts := [[s[0]] + rest[0]] + rest[1..];
        if |rest| > 1 {
          assert parts[1..] == rest[1..];
        }
      }
    }
  }

  lemma {:induction false} SplitWithoutSeparator(x: string, sep: char)
    requires sep !in x
    ensures Split(x, sep) == [x]
  {
    if |x| > 0 {
      SplitWithoutSeparator(x[1..], sep);
      assert [x[0]] + x[1..] == x;
    }
  }

  lemma {:induction false} SplitAtFirstSeparator(x: string, sep: char, y: string)
    requires sep !in x
    ensures Split(x + [sep] + y, sep) == [x] + Split(y, sep)
  {
    if |x| == 0 {
      assert x + [sep] + y == [sep] + y;
      assert ([sep] + y)[1..] == y;
    } else {
      assert (x + [sep] + y)[1..] == x[1..] + [sep] + y;
      SplitAtFirstSeparator(x[1..], sep, y);
      assert [x[0]] + x[1..] == x;
    }
  }

  /** Splitting undoes joining: the pieces come back, in order. */
  lemma {:induction false} SplitJoin(parts: seq<string>, sep: char)
    requires |parts| >= 1
    requires forall k :: 0 <= k < |parts| ==> sep !in parts[k]
    ensures Split(Join(parts, sep), sep) == parts
  {
    if |parts| == 1 {
      SplitWithoutSeparator(parts[0], sep);
    } else {
      SplitJoin(parts[1..], sep);
      SplitAtFirstSeparator(parts[0], sep, Join(parts[1..], sep));
      assert [parts[0]] + parts[1..] == parts;
    }
  }

  lemma {:induction false} JoinAppend(parts: seq<string>, x: string, sep: char)
    requires |parts| >= 1
    ensures Join(parts + [x], sep) == Join(parts, sep) + [sep] + x
  {
    if |parts| > 1 {
      assert (parts + [x])[1..] == parts[1..] + [x];
      JoinAppend(parts[1..], x, sep);
    }
  }

  /** A trailing separator adds exactly one empty piece at the end. */
  lemma SplitTrailingSeparator(s: string, sep: char)
    ensures Split(s + [sep], sep) == Split(s, sep) + [""]
  {
    var parts := Split(s, sep);
    JoinSplit(s, sep);
    JoinAppend(parts, "", sep);
    assert s + [sep] == Join(parts + [""], sep);
    SplitJoin(parts + [""], sep);
  }
}
