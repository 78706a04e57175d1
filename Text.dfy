/**
 * The two string primitives the queue list is built from, with the
 * semantics JavaScript gives them: `s.split(' ')` and `s.trim()`.
 */
module Text {

  /**
   * The code points `String.prototype.trim` removes: the ECMAScript
   * WhiteSpace set (tab, vertical tab, form feed, the byte-order mark and
   * every Unicode space separator) and the LineTerminator set.
   */
  predicate IsWhitespace(c: char) {
    c == '\t' || c == '\n' || c == '\U{B}' || c == '\U{C}' || c == '\r'
    || c == ' ' || c == '\U{A0}' || c == '\U{1680}'
    || ('\U{2000}' <= c && c <= '\U{200A}')
    || c == '\U{2028}' || c == '\U{2029}' || c == '\U{202F}'
    || c == '\U{205F}' || c == '\U{3000}' || c == '\U{FEFF}'
  }

  predicate AllWhitespace(s: string) {
    forall k :: 0 <= k < |s| ==> IsWhitespace(s[k])
  }

  /** Number of occurrences of the separator ' ' in `s`. */
  function SpaceCount(s: string): nat {
    if s == [] then 0 else (if s[0] == ' ' then 1 else 0) + SpaceCount(s[1..])
  }

  /**
   * `s.split(' ')`: the pieces between consecutive single spaces. Adjacent,
   * leading or trailing spaces give empty pieces, and the empty string
   * gives one empty piece.
   */
  function SplitOnSpace(s: string): (pieces: seq<string>)
    ensures |pieces| == SpaceCount(s) + 1
    ensures forall k :: 0 <= k < |pieces| ==> ' ' !in pieces[k]
  {
    if s == [] then [""]
    else
      var rest := SplitOnSpace(s[1..]);
      if s[0] == ' ' then [""] + rest
      else [[s[0]] + rest[0]] + rest[1..]
  }

  /** The inverse of `SplitOnSpace`: `pieces.join(' ')`. */
  function JoinWithSpace(pieces: seq<string>): string
    requires |pieces| >= 1
  {
    if |pieces| == 1 then pieces[0] else pieces[0] + " " + JoinWithSpace(pieces[1..])
  }

  /** Splitting and joining again gives back the original string. */
  lemma {:induction false} JoinSplit(s: string)
    ensures JoinWithSpace(SplitOnSpace(s)) == s
  {
    if s != [] {
      var rest := SplitOnSpace(s[1..]);
      JoinSplit(s[1..]);
      if s[0] == ' ' {
        assert SplitOnSpace(s)[1..] == rest;
      } else if |rest| == 1 {
        assert SplitOnSpace(s) == [[s[0]] + rest[0]];
      } else {
        var ps := SplitOnSpace(s);
        assert ps[1..] == rest[1..];
        assert JoinWithSpace(rest) == rest[0] + " " + JoinWithSpace(rest[1..]);
      }
    }
  }

  /** A string without a space splits into itself alone. */
  lemma {:induction false} SplitNoSpace(s: string)
    requires ' ' !in s
    ensures SplitOnSpace(s) == [s]
  {
    if s != [] {
      assert s[0] != ' ';
      assert ' ' !in s[1..] by {
        forall k | 0 <= k < |s[1..]| ensures s[1..][k] != ' ' {
          assert s[1..][k] == s[k + 1];
        }
      }
      SplitNoSpace(s[1..]);
      assert [s[0]] + s[1..] == s;
    }
  }

  /** Splitting distributes over a separator: `(a + ' ' + b).split(' ')`. */
  lemma {:induction false} SplitAppend(a: string, b: string)
    ensures SplitOnSpace(a + " " + b) == SplitOnSpace(a) + SplitOnSpace(b)
  {
    var s := a + " " + b;
    if a == [] {
      assert s[1..] == b;
    } else {
      assert s[1..] == a[1..] + " " + b;
      SplitAppend(a[1..], b);
    }
  }

  /** Splitting undoes joining when no piece holds the separator. */
  lemma {:induction false} SplitJoin(pieces: seq<string>)
    requires |pieces| >= 1
    requires forall k :: 0 <= k < |pieces| ==> ' ' !in pieces[k]
    ensures SplitOnSpace(JoinWithSpace(pieces)) == pieces
  {
    SplitNoSpace(pieces[0]);
    if |pieces| > 1 {
      SplitJoin(pieces[1..]);
      SplitAppend(pieces[0], JoinWithSpace(pieces[1..]));
    }
  }

  /** A joined string is all whitespace exactly when every piece is. */
  lemma {:induction false} AllWhitespaceJoin(pieces: seq<string>)
    requires |pieces| >= 1
    ensures AllWhitespace(JoinWithSpace(pieces))
        <==> forall k :: 0 <= k < |pieces| ==> AllWhitespace(pieces[k])
  {
    if |pieces| > 1 {
      AllWhitespaceJoin(pieces[1..]);
      var tail := JoinWithSpace(pieces[1..]);
      var s := pieces[0] + " " + tail;
      assert s[..|pieces[0]|] == pieces[0];
      assert s[|pieces[0]| + 1..] == tail;
      if AllWhitespace(s) {
        forall k | 0 <= k < |pieces| ensures AllWhitespace(pieces[k]) {
          if k == 0 {
            forall m | 0 <= m < |pieces[0]| ensures IsWhitespace(pieces[0][m]) {
              assert pieces[0][m] == s[m];
            }
          } else {
            assert pieces[k] == pieces[1..][k - 1];
            forall m | 0 <= m < |tail| ensures IsWhitespace(tail[m]) {
              assert tail[m] == s[|pieces[0]| + 1 + m];
            }
          }
        }
      }
      if forall k :: 0 <= k < |pieces| ==> AllWhitespace(pieces[k]) {
        assert AllWhitespace(pieces[0]);
        assert forall k :: 0 <= k < |pieces[1..]| ==> AllWhitespace(pieces[1..][k]);
        forall m | 0 <= m < |s| ensures IsWhitespace(s[m]) {
          if m < |pieces[0]| {
            assert s[m] == pieces[0][m];
          } else if m > |pieces[0]| {
            assert s[m] == tail[m - |pieces[0]| - 1];
          }
        }
      }
    }
  }

  /** Every character of `s` at an index in `[lo, hi)` is whitespace. */
  predicate WhitespaceBetween(s: string, lo: int, hi: int) {
    forall k :: lo <= k < hi && 0 <= k < |s| ==> IsWhitespace(s[k])
  }

  /** Removes leading whitespace: what is left is a suffix that does not start with whitespace. */
  function TrimStart(s: string): (r: string)
    ensures |r| <= |s| && r == s[|s| - |r|..]
    ensures WhitespaceBetween(s, 0, |s| - |r|)
    ensures r == [] || !IsWhitespace(r[0])
  {
    if s != [] && IsWhitespace(s[0]) then TrimStart(s[1..]) else s
  }

  /** Removes trailing whitespace: what is left is a prefix that does not end with whitespace. */
  function TrimEnd(s: string): (r: string)
    ensures |r| <= |s| && r == s[..|r|]
    ensures WhitespaceBetween(s, |r|, |s|)
    ensures r == [] || !IsWhitespace(r[|r| - 1])
  {
    if s != [] && IsWhitespace(s[|s| - 1]) then TrimEnd(s[..|s| - 1]) else s
  }

  /** `s[i..j]` is what remains of `s` once whitespace is cut from both ends. */
  predicate TrimmedSlice(s: string, i: int, j: int) {
    0 <= i <= j <= |s| && WhitespaceBetween(s, 0, i) && WhitespaceBetween(s, j, |s|)
  }

  /**
   * `s.trim()`: never starts or ends with whitespace, and is empty exactly
   * when `s` is all whitespace. `TrimIsSlice` adds that it is the slice of
   * `s` left once whitespace is cut from both ends.
   */
  function Trim(s: string): (r: string)
    ensures |r| <= |s|
    ensures r == [] || (!IsWhitespace(r[0]) && !IsWhitespace(r[|r| - 1]))
    ensures r == [] <==> AllWhitespace(s)
  {
    TrimSlice(s);
    TrimEmpty(s);
    TrimEnd(TrimStart(s))
  }

  /** What is left after trimming is `s` with whitespace cut from both ends. */
  lemma TrimIsSlice(s: string)
    ensures exists i, j :: TrimmedSlice(s, i, j) && Trim(s) == s[i..j]
  {
    TrimSlice(s);
  }

  /** Trimming the start and then the end leaves the slice of `s` between the two whitespace runs. */
  lemma TrimSlice(s: string)
    ensures var t := TrimStart(s); var i := |s| - |t|; var r := TrimEnd(t);
      TrimmedSlice(s, i, i + |r|) && r == s[i..i + |r|]
  {
    var t := TrimStart(s);
    CutBothEnds(s, |s| - |t|, t, TrimEnd(t));
  }

  /** Cutting a whitespace prefix and then a whitespace suffix leaves a trimmed slice. */
  lemma CutBothEnds(s: string, i: nat, t: string, r: string)
    requires i <= |s| && t == s[i..] && WhitespaceBetween(s, 0, i)
    requires |r| <= |t| && r == t[..|r|] && WhitespaceBetween(t, |r|, |t|)
    ensures TrimmedSlice(s, i, i + |r|) && r == s[i..i + |r|]
  {
    assert WhitespaceBetween(s, i + |r|, |s|) by {
      forall k | i + |r| <= k < |s| ensures IsWhitespace(s[k]) {
        assert s[k] == t[k - i];
      }
    }
  }

  /** Trimming gives nothing exactly when `s` is all whitespace. */
  lemma TrimEmpty(s: string)
    ensures TrimEnd(TrimStart(s)) == [] <==> AllWhitespace(s)
  {
    TrimSlice(s);
    var t := TrimStart(s);
    var i := |s| - |t|;
    if TrimEnd(t) != [] {
      assert s[i] == t[0];
    }
  }

  /** Trimming leaves a string alone when its ends are not whitespace. */
  lemma TrimUnchanged(s: string)
    requires s != [] && !IsWhitespace(s[0]) && !IsWhitespace(s[|s| - 1])
    ensures Trim(s) == s
  {
    assert TrimStart(s) == s;
    assert TrimEnd(s) == s;
  }
}
