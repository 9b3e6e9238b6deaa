/**
 * The few JavaScript string operations the core relies on:
 * `String.prototype.trim`, `split(/\s+/)`, `toLowerCase` (as far as
 * matching ASCII words needs it) and `startsWith`.
 */
module JsString {

  /** ECMAScript's WhiteSpace code points, listed one by one: TAB, VT, FF,
      ZWNBSP and the Unicode space separators (category Zs). */
  const WhiteSpace: set<char> :=
    {'\t', '\U{B}', '\U{C}', '\U{FEFF}',
     ' ', '\U{A0}', '\U{1680}',
     '\U{2000}', '\U{2001}', '\U{2002}', '\U{2003}', '\U{2004}', '\U{2005}',
     '\U{2006}', '\U{2007}', '\U{2008}', '\U{2009}', '\U{200A}',
     '\U{202F}', '\U{205F}', '\U{3000}'}

  /** ECMAScript's LineTerminator code points: LF, CR, LS and PS. */
  const LineTerminator: set<char> := {'\n', '\r', '\U{2028}', '\U{2029}'}

  /** The characters that both `trim` and the regex class `\s` treat as
      white space: exactly the WhiteSpace and LineTerminator code points. */
  predicate IsSpace(c: char): (b: bool)
    ensures b <==> c in WhiteSpace || c in LineTerminator
  {
    || c == ' ' || c == '\t' || c == '\n' || c == '\U{B}' || c == '\U{C}' || c == '\r'
    || c == '\U{A0}' || c == '\U{1680}' || ('\U{2000}' <= c <= '\U{200A}')
    || c == '\U{2028}' || c == '\U{2029}' || c == '\U{202F}' || c == '\U{205F}'
    || c == '\U{3000}' || c == '\U{FEFF}'
  }

  predicate NoSpace(s: string)
  {
    forall k :: 0 <= k < |s| ==> !IsSpace(s[k])
  }

  predicate AllSpace(s: string)
  {
    forall k :: 0 <= k < |s| ==> IsSpace(s[k])
  }

  /** No white space at either end. */
  predicate Trimmed(s: string)
  {
    s == [] || (!IsSpace(s[0]) && !IsSpace(s[|s| - 1]))
  }

  /** Length of the longest prefix of `s` made of white space. */
  function SpanSpace(s: string): (n: nat)
    ensures n <= |s|
    ensures n < |s| ==> !IsSpace(s[n])
  {
    if s == [] || !IsSpace(s[0]) then 0 else 1 + SpanSpace(s[1..])
  }

  lemma {:induction false} SpanSpacePrefix(s: string)
    ensures AllSpace(s[..SpanSpace(s)])
  {
    if s != [] && IsSpace(s[0]) {
      SpanSpacePrefix(s[1..]);
      assert s[..SpanSpace(s)] == [s[0]] + s[1..][..SpanSpace(s[1..])];
    }
  }

  /** Length of the longest suffix of `s` made of white space. */
  function SpanSpaceEnd(s: string): (n: nat)
    ensures n <= |s|
    ensures n < |s| ==> !IsSpace(s[|s| - 1 - n])
  {
    if s == [] || !IsSpace(s[|s| - 1]) then 0 else 1 + SpanSpaceEnd(s[..|s| - 1])
  }

  lemma {:induction false} SpanSpaceEndSuffix(s: string)
    ensures forall k :: |s| - SpanSpaceEnd(s) <= k < |s| ==> IsSpace(s[k])
  {
    if s != [] && IsSpace(s[|s| - 1]) {
      var u := s[..|s| - 1];
      SpanSpaceEndSuffix(u);
      forall k | |s| - SpanSpaceEnd(s) <= k < |s| ensures IsSpace(s[k]) {
        if k < |s| - 1 { assert s[k] == u[k]; }
      }
    }
  }

  /** `s.trim()`: the slice of `s` after its leading and before its trailing
      white space; it has white space at neither end, and what was cut off
      on either side is white space only. */
  function Trim(s: string): (r: string)
    ensures Trimmed(r)
    ensures SpanSpace(s) + |r| <= |s| && r == s[SpanSpace(s)..SpanSpace(s) + |r|]
    ensures AllSpace(s[..SpanSpace(s)]) && AllSpace(s[SpanSpace(s) + |r|..])
  {
    var i := SpanSpace(s);
    var t := s[i..];
    var r := t[..|t| - SpanSpaceEnd(t)];
    SpanSpacePrefix(s);
    SpanSpaceEndSuffix(t);
    assert AllSpace(s[i + |r|..]) by {
      var tail := s[i + |r|..];
      forall k | 0 <= k < |tail| ensures IsSpace(tail[k]) {
        assert tail[k] == t[|r| + k];
      }
    }
    assert Trimmed(r) by {
      if r != [] { assert r[0] == t[0] == s[i]; }
    }
    r
  }

  lemma {:induction false} SpanSpaceOfPadded(p: string, t: string)
    requires AllSpace(p) && (t == [] || !IsSpace(t[0]))
    ensures SpanSpace(p + t) == |p|
  {
    if p != [] {
      assert (p + t)[1..] == p[1..] + t;
      SpanSpaceOfPadded(p[1..], t);
    }
  }

  lemma {:induction false} SpanSpaceEndOfPadded(t: string, q: string)
    requires AllSpace(q) && (t == [] || !IsSpace(t[|t| - 1]))
    ensures SpanSpaceEnd(t + q) == |q|
  {
    if q != [] {
      var u := t + q;
      assert u[..|u| - 1] == t + q[..|q| - 1];
      SpanSpaceEndOfPadded(t, q[..|q| - 1]);
    }
  }

  /** A blank string (empty or white space only) trims to "", and only those do. */
  lemma TrimEmptyIff(s: string)
    ensures Trim(s) == [] <==> AllSpace(s)
  {
    var i := SpanSpace(s);
    if Trim(s) == [] {
      forall k | 0 <= k < |s| ensures IsSpace(s[k]) {
        if k < i { assert s[k] == s[..i][k]; }
      }
    } else {
      assert Trim(s)[0] == s[i];
    }
  }

  /** Trimming a string padded with white space gives back the trimmed core. */
  lemma TrimPadded(p: string, s: string, q: string)
    requires AllSpace(p) && AllSpace(q) && Trimmed(s)
    ensures Trim(p + s + q) == s
  {
    var u := p + s + q;
    if s == [] {
      assert AllSpace(u) by {
        forall k | 0 <= k < |u| ensures IsSpace(u[k]) {
          if k < |p| { assert u[k] == p[k]; } else { assert u[k] == q[k - |p|]; }
        }
      }
      TrimEmptyIff(u);
    } else {
      assert u == p + (s + q);
      SpanSpaceOfPadded(p, s + q);
      var t := u[|p|..];
      assert t == s + q;
      SpanSpaceEndOfPadded(s, q);
      assert t[..|t| - |q|] == s;
    }
  }

  /** Length of the longest prefix of `s` without white space. */
  function SpanNonSpace(s: string): (n: nat)
    ensures n <= |s|
    ensures n < |s| ==> IsSpace(s[n])
  {
    if s == [] || IsSpace(s[0]) then 0 else 1 + SpanNonSpace(s[1..])
  }

  lemma {:induction false} SpanNonSpacePrefix(s: string)
    ensures NoSpace(s[..SpanNonSpace(s)])
  {
    if s != [] && !IsSpace(s[0]) {
      SpanNonSpacePrefix(s[1..]);
      assert s[..SpanNonSpace(s)] == [s[0]] + s[1..][..SpanNonSpace(s[1..])];
    }
  }

  /** `s.split(/\s+/)`: the pieces between maximal runs of white space,
      including an empty first (last) piece when `s` starts (ends) with
      white space, and `[""]` for the empty string. */
  function SplitWs(s: string): (r: seq<string>)
    ensures |r| >= 1
    decreases |s|
  {
    var n := SpanNonSpace(s);
    if n == |s| then [s]
    else
      var m := n + SpanSpace(s[n..]);
      [s[..n]] + SplitWs(s[m..])
  }

  /** No piece of a split contains white space. */
  lemma {:induction false} SplitWsPieces(s: string)
    ensures forall k :: 0 <= k < |SplitWs(s)| ==> NoSpace(SplitWs(s)[k])
    decreases |s|
  {
    var n := SpanNonSpace(s);
    SpanNonSpacePrefix(s);
    if n < |s| {
      var m := n + SpanSpace(s[n..]);
      SplitWsPieces(s[m..]);
      ConsNoSpace(s[..n], SplitWs(s[m..]));
      SplitWsCons(s, n, m);
    } else {
      assert s[..n] == s;
    }
  }

  lemma ConsNoSpace(head: string, tail: seq<string>)
    requires NoSpace(head) && forall k :: 0 <= k < |tail| ==> NoSpace(tail[k])
    ensures forall k :: 0 <= k < |[head] + tail| ==> NoSpace(([head] + tail)[k])
  {
    forall k | 0 <= k < |[head] + tail| ensures NoSpace(([head] + tail)[k]) {
      if k > 0 { assert ([head] + tail)[k] == tail[k - 1]; }
    }
  }

  /** One step of the split, for a string with white space after its first
      piece: that piece of `n` characters, then the split of what follows the
      white space, which ends at `m`. */
  lemma SplitWsCons(s: string, n: nat, m: nat)
    requires n == SpanNonSpace(s) < |s| && m == n + SpanSpace(s[n..])
    ensures SplitWs(s) == [s[..n]] + SplitWs(s[m..])
  {
  }

  predicate IsToken(t: string)
  {
    t != [] && NoSpace(t)
  }

  /** Runs of white space that can stand between two tokens. */
  predicate IsSeparator(sep: string)
  {
    sep != [] && AllSpace(sep)
  }

  /** The tokens `ts` with the separator `seps[k]` between `ts[k]` and
      `ts[k + 1]`. */
  function JoinWith(ts: seq<string>, seps: seq<string>): string
    requires |ts| == |seps| + 1
  {
    if seps == [] then ts[0] else ts[0] + seps[0] + JoinWith(ts[1..], seps[1..])
  }

  lemma {:induction false} SpanNonSpaceOfToken(t: string, rest: string)
    requires NoSpace(t) && (rest == [] || IsSpace(rest[0]))
    ensures SpanNonSpace(t + rest) == |t|
  {
    if t != [] {
      assert (t + rest)[1..] == t[1..] + rest;
      SpanNonSpaceOfToken(t[1..], rest);
    }
  }

  lemma {:induction false} JoinWithShape(ts: seq<string>, seps: seq<string>)
    requires |ts| == |seps| + 1
    requires forall k :: 0 <= k < |ts| ==> IsToken(ts[k])
    ensures Trimmed(JoinWith(ts, seps)) && JoinWith(ts, seps) != []
    ensures ts[0] != [] && JoinWith(ts, seps)[0] == ts[0][0]
  {
    if seps != [] {
      JoinWithShape(ts[1..], seps[1..]);
      var j := JoinWith(ts[1..], seps[1..]);
      var s := JoinWith(ts, seps);
      assert s == ts[0] + seps[0] + j;
      assert s[0] == ts[0][0];
      assert s[|s| - 1] == j[|j| - 1];
    }
  }

  /** One step of the split: a token, a run of white space, and a rest that
      starts with a non-space character. */
  lemma SplitStep(t: string, sep: string, j: string)
    requires IsToken(t) && IsSeparator(sep) && j != [] && !IsSpace(j[0])
    ensures SplitWs(t + sep + j) == [t] + SplitWs(j)
  {
    var s := t + sep + j;
    assert s == t + (sep + j);
    assert (sep + j)[0] == sep[0];
    SpanNonSpaceOfToken(t, sep + j);
    var n := |t|;
    assert s[n..] == sep + j;
    SpanSpaceOfPadded(sep, j);
    assert s[..n] == t;
    assert s[n + |sep|..] == j;
    SplitWsCons(s, n, n + |sep|);
  }

  /** Splitting tokens joined by any runs of white space gives back the
      tokens. */
  lemma {:induction false} SplitJoin(ts: seq<string>, seps: seq<string>)
    requires |ts| == |seps| + 1
    requires forall k :: 0 <= k < |ts| ==> IsToken(ts[k])
    requires forall k :: 0 <= k < |seps| ==> IsSeparator(seps[k])
    ensures SplitWs(JoinWith(ts, seps)) == ts
  {
    if seps == [] {
      SpanNonSpaceOfToken(ts[0], "");
      assert ts[0] + "" == ts[0];
    } else {
      var rest := JoinWith(ts[1..], seps[1..]);
      JoinWithShape(ts[1..], seps[1..]);
      SplitStep(ts[0], seps[0], rest);
      SplitJoin(ts[1..], seps[1..]);
      assert ts == [ts[0]] + ts[1..];
    }
  }

  /** A run of white space cannot swallow a string that ends in a
      non-space character. */
  lemma {:induction false} SpanSpaceStopsBefore(t: string)
    requires t != [] && !IsSpace(t[|t| - 1])
    ensures SpanSpace(t) < |t|
  {
    if IsSpace(t[0]) {
      assert t[1..][|t| - 2] == t[|t| - 1];
      SpanSpaceStopsBefore(t[1..]);
    }
  }

  /** Dropping the leading white space of a string that ends in a non-space
      character leaves a non-empty trimmed string. */
  lemma DropSpaceTrimmed(t: string)
    requires t != [] && !IsSpace(t[|t| - 1])
    ensures SpanSpace(t) < |t| && Trimmed(t[SpanSpace(t)..])
  {
    SpanSpaceStopsBefore(t);
    var u := t[SpanSpace(t)..];
    assert u[0] == t[SpanSpace(t)];
    assert u[|u| - 1] == t[|t| - 1];
  }

  /** After the first piece of a trimmed string and the white space that
      follows it, what is left is again non-empty and trimmed. */
  lemma SplitTrimmedRest(s: string, n: nat, m: nat)
    requires s != [] && Trimmed(s)
    requires n == SpanNonSpace(s) < |s| && m == n + SpanSpace(s[n..])
    ensures 0 < n < m < |s| && Trimmed(s[m..])
  {
    var t := s[n..];
    assert t[|t| - 1] == s[|s| - 1];
    DropSpaceTrimmed(t);
    assert s[m..] == t[m - n..];
  }

  lemma ConsNonEmpty(head: string, tail: seq<string>)
    requires head != [] && forall k :: 0 <= k < |tail| ==> tail[k] != []
    ensures forall k :: 0 <= k < |[head] + tail| ==> ([head] + tail)[k] != []
  {
    forall k | 0 <= k < |[head] + tail| ensures ([head] + tail)[k] != [] {
      if k > 0 { assert ([head] + tail)[k] == tail[k - 1]; }
    }
  }

  /** Splitting a non-empty trimmed string never yields an empty piece. */
  lemma {:induction false} SplitTrimmedNonEmpty(s: string)
    requires s != [] && Trimmed(s)
    ensures forall k :: 0 <= k < |SplitWs(s)| ==> SplitWs(s)[k] != []
    decreases |s|
  {
    var n := SpanNonSpace(s);
    if n < |s| {
      var m := n + SpanSpace(s[n..]);
      SplitTrimmedRest(s, n, m);
      SplitTrimmedNonEmpty(s[m..]);
      ConsNonEmpty(s[..n], SplitWs(s[m..]));
      SplitWsCons(s, n, m);
    }
  }

  /** Splitting a non-empty trimmed string yields only tokens. */
  lemma SplitTrimmedTokens(s: string)
    requires s != [] && Trimmed(s)
    ensures forall k :: 0 <= k < |SplitWs(s)| ==> IsToken(SplitWs(s)[k])
  {
    SplitWsPieces(s);
    SplitTrimmedNonEmpty(s);
  }

  /** A lower-case ASCII letter stays; an upper-case ASCII letter and the
      KELVIN SIGN, the one non-ASCII character whose lower case is a single
      ASCII letter, become their lower-case ASCII letter. */
  function ToLowerChar(c: char): (d: char)
    ensures 'a' <= d <= 'z' <==> ('a' <= c <= 'z' || 'A' <= c <= 'Z' || c == '\U{212A}')
  {
    if 'A' <= c <= 'Z' then (c as int + 32) as char
    else if c == '\U{212A}' then 'k'
    else c
  }

  /** `s.toLowerCase()` character by character. */
  function ToLower(s: string): (r: string)
    ensures |r| == |s|
  {
    if s == [] then [] else [ToLowerChar(s[0])] + ToLower(s[1..])
  }

  /** Lower-casing twice is lower-casing once. */
  lemma {:induction false} ToLowerIdempotent(s: string)
    ensures ToLower(ToLower(s)) == ToLower(s)
  {
    if s != [] { ToLowerIdempotent(s[1..]); }
  }

  /** `s.startsWith(p)`. */
  predicate StartsWith(s: string, p: string)
  {
    |p| <= |s| && s[..|p|] == p
  }
}
