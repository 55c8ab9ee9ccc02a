/** The JavaScript string built-ins the cookie parser and the token codec
    rely on: `String.prototype.split` with a one-character separator,
    `Array.prototype.join`, `String.prototype.trim` and `indexOf`. */
module Text {
  import opened Wrappers

  /** ECMAScript's WhiteSpace and LineTerminator code points: the set that
      `trim` strips from both ends of a string. */
  const JsWhitespace: set<char> := {
    '\t', '\n', '\U{B}', '\U{C}', '\r', ' ', '\U{A0}', '\U{1680}',
    '\U{2000}', '\U{2001}', '\U{2002}', '\U{2003}', '\U{2004}', '\U{2005}',
    '\U{2006}', '\U{2007}', '\U{2008}', '\U{2009}', '\U{200A}',
    '\U{2028}', '\U{2029}', '\U{202F}', '\U{205F}', '\U{3000}', '\U{FEFF}'
  }

  predicate IsJsWhitespace(c: char) {
    c in JsWhitespace
  }

  /** Every character of `s` from index `lo` up to `hi` is whitespace. */
  predicate WhitespaceBetween(s: string, lo: nat, hi: nat)
    requires lo <= hi <= |s|
  {
    forall k :: lo <= k < hi ==> IsJsWhitespace(s[k])
  }

  /** `s.trim()`: the string without its leading and trailing whitespace. */
  function Trim(s: string): (t: string)
    ensures |t| <= |s|
    ensures t == [] || (!IsJsWhitespace(t[0]) && !IsJsWhitespace(t[|t| - 1]))
    decreases |s|
  {
    if s != [] && IsJsWhitespace(s[0]) then Trim(s[1..])
    else if s != [] && IsJsWhitespace(s[|s| - 1]) then Trim(s[..|s| - 1])
    else s
  }

  /** `t` sits at offset `i` of `s` with nothing but whitespace on either
      side of it. */
  predicate SliceAt(s: string, t: string, i: nat) {
    && i + |t| <= |s| && t == s[i..i + |t|]
    && WhitespaceBetween(s, 0, i) && WhitespaceBetween(s, i + |t|, |s|)
  }

  /** What `trim` drops is whitespace only: the result is a contiguous slice
      of `s` with nothing but whitespace on either side of it. */
  lemma {:induction false} TrimIsSlice(s: string)
    ensures exists i :: SliceAt(s, Trim(s), i)
    decreases |s|
  {
    var t := Trim(s);
    if s != [] && IsJsWhitespace(s[0]) {
      TrimIsSlice(s[1..]);
      var j :| SliceAt(s[1..], t, j);
      SliceAfterFirst(s, t, j);
    } else if s != [] && IsJsWhitespace(s[|s| - 1]) {
      TrimIsSlice(s[..|s| - 1]);
      var j :| SliceAt(s[..|s| - 1], t, j);
      SliceBeforeLast(s, t, j);
    } else {
      assert SliceAt(s, t, 0);
    }
  }

  lemma SliceAfterFirst(s: string, t: string, j: nat)
    requires s != [] && IsJsWhitespace(s[0]) && SliceAt(s[1..], t, j)
    ensures SliceAt(s, t, j + 1)
  {
    var rest := s[1..];
    assert t == s[j + 1..j + 1 + |t|];
    forall k | 0 <= k < j + 1
      ensures IsJsWhitespace(s[k])
    {
      if k > 0 {
        assert s[k] == rest[k - 1];
      }
    }
    forall k | j + 1 + |t| <= k < |s|
      ensures IsJsWhitespace(s[k])
    {
      assert s[k] == rest[k - 1];
    }
  }

  lemma SliceBeforeLast(s: string, t: string, j: nat)
    requires s != [] && IsJsWhitespace(s[|s| - 1]) && SliceAt(s[..|s| - 1], t, j)
    ensures SliceAt(s, t, j)
  {
    var rest := s[..|s| - 1];
    assert t == s[j..j + |t|];
    forall k | 0 <= k < j
      ensures IsJsWhitespace(s[k])
    {
      assert s[k] == rest[k];
    }
    forall k | j + |t| <= k < |s|
      ensures IsJsWhitespace(s[k])
    {
      if k < |s| - 1 {
        assert s[k] == rest[k];
      }
    }
  }

  /** A string that already starts and ends with non-whitespace is left as it is. */
  lemma TrimOfTrimmed(s: string)
    requires s == [] || (!IsJsWhitespace(s[0]) && !IsJsWhitespace(s[|s| - 1]))
    ensures Trim(s) == s
  {
  }

  /** `s.split(d)` for a one-character separator `d`: the maximal `d`-free
      pieces of `s`, in order; there is always at least one. */
  function Split(s: string, d: char): (r: seq<string>)
    ensures |r| >= 1
    ensures forall i :: 0 <= i < |r| ==> d !in r[i]
  {
    if s == [] then [""]
    else if s[0] == d then [""] + Split(s[1..], d)
    else
      var rest := Split(s[1..], d);
      [[s[0]] + rest[0]] + rest[1..]
  }

  /** `pieces.join(d)`. */
  function Join(pieces: seq<string>, d: char): string {
    if pieces == [] then ""
    else if |pieces| == 1 then pieces[0]
    else pieces[0] + [d] + Join(pieces[1..], d)
  }

  /** Splitting and joining on the same separator gives back the string. */
  lemma {:induction false} JoinSplit(s: string, d: char)
    ensures Join(Split(s, d), d) == s
  {
    if s == [] {
    } else if s[0] == d {
      JoinSplit(s[1..], d);
      assert Split(s, d) == [""] + Split(s[1..], d);
      assert s == [d] + s[1..];
    } else {
      JoinSplit(s[1..], d);
      var rest := Split(s[1..], d);
      if |rest| == 1 {
        assert Join(Split(s, d), d) == [s[0]] + rest[0];
      } else {
        assert Join(rest, d) == rest[0] + [d] + Join(rest[1..], d);
        assert Split(s, d)[1..] == rest[1..];
      }
      assert s == [s[0]] + s[1..];
    }
  }

  /** Joining separator-free pieces and splitting on the same separator
      gives back the pieces. */
  lemma {:induction false} SplitJoin(pieces: seq<string>, d: char)
    requires pieces != [] && forall i :: 0 <= i < |pieces| ==> d !in pieces[i]
    ensures Split(Join(pieces, d), d) == pieces
  {
    if |pieces| == 1 {
      SplitWithout(pieces[0], d);
    } else {
      SplitJoin(pieces[1..], d);
      SplitAtFirst(pieces[0], d, Join(pieces[1..], d));
      assert pieces == [pieces[0]] + pieces[1..];
    }
  }

  /** A string without the separator splits into itself alone. */
  lemma {:induction false} SplitWithout(s: string, d: char)
    requires d !in s
    ensures Split(s, d) == [s]
  {
    if s != [] {
      SplitWithout(s[1..], d);
      assert s == [s[0]] + s[1..];
    }
  }

  /** The first piece ends at the first separator. */
  lemma {:induction false} SplitAtFirst(p: string, d: char, q: string)
    requires d !in p
    ensures Split(p + [d] + q, d) == [p] + Split(q, d)
  {
    if p == [] {
      assert p + [d] + q == [d] + q;
    } else {
      SplitAtFirst(p[1..], d, q);
      assert (p + [d] + q)[1..] == p[1..] + [d] + q;
      assert [p[0]] + p[1..] == p;
    }
  }

  /** `s.indexOf(c)`, with `None` for -1. */
  function IndexOf(s: string, c: char): (r: Option<nat>)
    ensures r.Some? ==> r.value < |s| && s[r.value] == c && c !in s[..r.value]
    ensures r.None? <==> c !in s
  {
    if s == [] then None
    else if s[0] == c then Some(0)
    else match IndexOf(s[1..], c)
      case None => None
      case Some(k) =>
        assert s[..k + 1] == [s[0]] + s[1..][..k];
        Some(k + 1)
  }

  /** The first occurrence of `c` in `p + [c] + q` is right after `p` when
      `p` does not contain it. */
  lemma {:induction false} IndexOfAfter(p: string, c: char, q: string)
    requires c !in p
    ensures IndexOf(p + [c] + q, c) == Some(|p|)
  {
    if p != [] {
      IndexOfAfter(p[1..], c, q);
      assert (p + [c] + q)[1..] == p[1..] + [c] + q;
    }
  }
}
