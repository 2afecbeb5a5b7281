/**
 * The string primitives the image processor relies on, as JavaScript defines them:
 * `String.prototype.trim`, `split(/\r?\n/)`, and the code-unit string order used by the
 * default `Array.prototype.sort` (which also stands for `localeCompare`, see README).
 */
module Text {

  /** WhiteSpace and LineTerminator code points, the set `String.prototype.trim` removes. */
  predicate IsWhitespace(c: char) {
    || c == '\t' || c == '\U{000B}' || c == '\U{000C}' || c == ' ' || c == '\U{00A0}' || c == '\U{FEFF}'
    || c == '\U{1680}' || ('\U{2000}' <= c <= '\U{200A}') || c == '\U{202F}' || c == '\U{205F}' || c == '\U{3000}'
    || c == '\n' || c == '\r' || c == '\U{2028}' || c == '\U{2029}'
  }

  predicate AllWhitespace(s: string) {
    forall i :: 0 <= i < |s| ==> IsWhitespace(s[i])
  }

  /** `s.trim()` is blank-free at both ends. */
  predicate IsTrimmed(s: string) {
    s == [] || (!IsWhitespace(s[0]) && !IsWhitespace(s[|s| - 1]))
  }

  /** Drops leading whitespace: the result is the suffix of `s` after its whitespace prefix. */
  function TrimStart(s: string): (r: string)
    ensures |r| <= |s| && r == s[|s| - |r|..]
    ensures r == [] || !IsWhitespace(r[0])
    ensures forall i :: 0 <= i < |s| - |r| ==> IsWhitespace(s[i])
  {
    if |s| > 0 && IsWhitespace(s[0]) then TrimStart(s[1..]) else s
  }

  /** Drops trailing whitespace: the result is the prefix of `s` before its whitespace suffix. */
  function TrimEnd(s: string): (r: string)
    ensures |r| <= |s| && r == s[..|r|]
    ensures r == [] || !IsWhitespace(r[|r| - 1])
    ensures forall i :: |r| <= i < |s| ==> IsWhitespace(s[i])
  {
    if |s| > 0 && IsWhitespace(s[|s| - 1]) then TrimEnd(s[..|s| - 1]) else s
  }

  /** `s.trim()`. */
  function Trim(s: string): (r: string)
    ensures IsTrimmed(r)
    ensures r == [] <==> AllWhitespace(s)
  {
    var t := TrimStart(s);
    var r := TrimEnd(t);
    assert r != [] ==> r[0] == t[0];
    r
  }

  /**
   * Trim removes exactly the maximal whitespace prefix and suffix: `Trim(s)` is the slice
   * `s[i..j]` with whitespace at every position outside it and none at its ends.
   */
  lemma TrimSlice(s: string) returns (i: nat, j: nat)
    ensures i <= j <= |s| && Trim(s) == s[i..j]
    ensures forall k :: 0 <= k < i ==> IsWhitespace(s[k])
    ensures forall k :: j <= k < |s| ==> IsWhitespace(s[k])
  {
    i, j := TrimEndsSlice(s);
  }

  /** `TrimSlice` for the two halves of `Trim` taken one after the other. */
  lemma TrimEndsSlice(s: string) returns (i: nat, j: nat)
    ensures i <= j <= |s| && TrimEnd(TrimStart(s)) == s[i..j]
    ensures forall k :: 0 <= k < i ==> IsWhitespace(s[k])
    ensures forall k :: j <= k < |s| ==> IsWhitespace(s[k])
  {
    var t := TrimStart(s);
    var r := TrimEnd(t);
    i := |s| - |t|;
    ComposeSlices(s, t, r, i);
    j := i + |r|;
  }

  /** A prefix `r` of the suffix `t == s[i..]` is a slice of `s`, and what follows `r` in `t` follows it in `s`. */
  lemma ComposeSlices(s: string, t: string, r: string, i: nat)
    requires i <= |s| && t == s[i..]
    requires |r| <= |t| && r == t[..|r|]
    requires forall k :: |r| <= k < |t| ==> IsWhitespace(t[k])
    ensures r == s[i..i + |r|]
    ensures forall k :: i + |r| <= k < |s| ==> IsWhitespace(s[k])
  {
    forall k | i + |r| <= k < |s| ensures IsWhitespace(s[k]) {
      assert s[k] == t[k - i];
    }
  }

  /** Any slice with whitespace at every position outside it and none at its ends is the trim. */
  lemma {:induction false} TrimUnique(s: string, i: nat, j: nat)
    requires i <= j <= |s|
    requires forall k :: 0 <= k < i ==> IsWhitespace(s[k])
    requires forall k :: j <= k < |s| ==> IsWhitespace(s[k])
    requires IsTrimmed(s[i..j])
    ensures Trim(s) == s[i..j]
  {
    var i', j' := TrimSlice(s);
    if i == j {
      assert AllWhitespace(s);
    } else {
      assert s[i..j][0] == s[i] && s[i..j][j - i - 1] == s[j - 1];
      assert !IsWhitespace(s[i]) && !IsWhitespace(s[j - 1]);
      assert Trim(s) != [];
      assert s[i'..j'][0] == s[i'] && s[i'..j'][j' - i' - 1] == s[j' - 1];
      assert !IsWhitespace(s[i']) && !IsWhitespace(s[j' - 1]);
      assert i == i' && j == j';
    }
  }

  lemma TrimIdempotent(s: string)
    ensures Trim(Trim(s)) == Trim(s)
  {
    var t := Trim(s);
    TrimUnique(t, 0, |t|);
  }

  // ---------------------------------------------------------------------------
  // Line splitting

  /** `s.split('\n')`: the pieces between line feeds; there is always at least one. */
  function SplitLF(s: string): (pieces: seq<string>)
    ensures |pieces| >= 1
    ensures forall k :: 0 <= k < |pieces| ==> '\n' !in pieces[k]
  {
    if s == [] then [""]
    else
      var rest := SplitLF(s[1..]);
      if s[0] == '\n' then [""] + rest
      else [[s[0]] + rest[0]] + rest[1..]
  }

  /** The pieces joined with `sep` between consecutive pieces (`Array.prototype.join`). */
  function Join(pieces: seq<string>, sep: string): string {
    if pieces == [] then ""
    else if |pieces| == 1 then pieces[0]
    else pieces[0] + sep + Join(pieces[1..], sep)
  }

  /** One carriage return that ends a piece belongs to a CRLF line break. */
  function DropTrailingCR(p: string): string {
    if |p| > 0 && p[|p| - 1] == '\r' then p[..|p| - 1] else p
  }

  /**
   * `s.split(/\r?\n/)`: split on every line feed, and a carriage return right before a
   * line feed is part of the break. Only pieces that a line feed ended lose a trailing '\r';
   * the last piece keeps one.
   */
  function SplitLines(s: string): (lines: seq<string>)
    ensures |lines| >= 1
  {
    var pieces := SplitLF(s);
    seq(|pieces|, k requires 0 <= k < |pieces| =>
      if k < |pieces| - 1 then DropTrailingCR(pieces[k]) else pieces[k])
  }

  lemma {:induction false} SplitLFNoBreak(a: string)
    requires '\n' !in a
    ensures SplitLF(a) == [a]
  {
    if a != [] {
      SplitLFNoBreak(a[1..]);
      assert [a[0]] + a[1..] == a;
    }
  }

  lemma {:induction false} SplitLFBreak(a: string, b: string)
    requires '\n' !in a
    ensures SplitLF(a + "\n" + b) == [a] + SplitLF(b)
  {
    if a == [] {
      assert a + "\n" + b == "\n" + b;
      assert ("\n" + b)[1..] == b;
    } else {
      var s := a + "\n" + b;
      assert s[1..] == a[1..] + "\n" + b;
      SplitLFBreak(a[1..], b);
      assert [a[0]] + a[1..] == a;
    }
  }

  /** Splitting on '\n' undoes joining with '\n' when no piece holds a line feed. */
  lemma {:induction false} SplitLFJoin(pieces: seq<string>)
    requires |pieces| >= 1
    requires forall k :: 0 <= k < |pieces| ==> '\n' !in pieces[k]
    ensures SplitLF(Join(pieces, "\n")) == pieces
  {
    if |pieces| == 1 {
      SplitLFNoBreak(pieces[0]);
    } else {
      SplitLFJoin(pieces[1..]);
      SplitLFBreak(pieces[0], Join(pieces[1..], "\n"));
      assert [pieces[0]] + pieces[1..] == pieces;
    }
  }

  /** Joining with '\n' undoes splitting on '\n': no character is lost or added. */
  lemma {:induction false} JoinSplitLF(s: string)
    ensures Join(SplitLF(s), "\n") == s
  {
    if s != [] {
      JoinSplitLF(s[1..]);
      var rest := SplitLF(s[1..]);
      if s[0] == '\n' {
        assert Join([""] + rest, "\n") == "" + "\n" + Join(rest, "\n");
        assert s == "\n" + s[1..];
      } else if |rest| == 1 {
        assert [[s[0]] + rest[0]] + rest[1..] == [[s[0]] + rest[0]];
        assert s == [s[0]] + s[1..];
      } else {
        var p := [[s[0]] + rest[0]] + rest[1..];
        assert p[1..] == rest[1..];
        assert Join(rest, "\n") == rest[0] + "\n" + Join(rest[1..], "\n");
        assert s == [s[0]] + s[1..];
      }
    }
  }

  /** The pieces a CRLF-joined text has when cut at its line feeds only. */
  function WithCRs(lines: seq<string>): (r: seq<string>)
    ensures |r| == |lines|
  {
    if |lines| <= 1 then lines else [lines[0] + "\r"] + WithCRs(lines[1..])
  }

  lemma {:induction false} WithCRsAt(lines: seq<string>, k: nat)
    requires k < |lines|
    ensures WithCRs(lines)[k] == if k < |lines| - 1 then lines[k] + "\r" else lines[k]
  {
    if k > 0 && |lines| > 1 {
      WithCRsAt(lines[1..], k - 1);
    }
  }

  lemma {:induction false} JoinCRLFAsLF(lines: seq<string>)
    ensures Join(lines, "\r\n") == Join(WithCRs(lines), "\n")
  {
    if |lines| > 1 {
      JoinCRLFAsLF(lines[1..]);
      assert WithCRs(lines)[1..] == WithCRs(lines[1..]);
      assert lines[0] + "\r\n" + Join(lines[1..], "\r\n") == (lines[0] + "\r") + "\n" + Join(lines[1..], "\r\n");
    }
  }

  /** A CRLF-terminated text splits back into its lines, whatever those lines end with. */
  lemma SplitLinesJoinCRLF(lines: seq<string>)
    requires |lines| >= 1
    requires forall k :: 0 <= k < |lines| ==> '\n' !in lines[k]
    ensures SplitLines(Join(lines, "\r\n")) == lines
  {
    var crs := WithCRs(lines);
    JoinCRLFAsLF(lines);
    forall k | 0 <= k < |crs| ensures '\n' !in crs[k] && (k < |crs| - 1 ==> DropTrailingCR(crs[k]) == lines[k]) {
      CRPiece(lines, k);
    }
    SplitLFJoin(crs);
    var out := SplitLines(Join(lines, "\r\n"));
    forall k | 0 <= k < |lines| ensures out[k] == lines[k] {
      WithCRsAt(lines, k);
    }
  }

  /** A piece of a CRLF-joined text cut at line feeds is its line, plus the '\r' of the break after it. */
  lemma CRPiece(lines: seq<string>, k: nat)
    requires k < |lines|
    requires '\n' !in lines[k]
    ensures '\n' !in WithCRs(lines)[k]
    ensures k < |lines| - 1 ==> DropTrailingCR(WithCRs(lines)[k]) == lines[k]
  {
    WithCRsAt(lines, k);
    if k < |lines| - 1 {
      var line := lines[k];
      assert forall c :: c in line + "\r" ==> c in line || c == '\r';
      assert (line + "\r")[..|line|] == line;
    }
  }

  /** An LF-terminated text splits back into its lines when no line but the last ends in '\r'. */
  lemma SplitLinesJoinLF(lines: seq<string>)
    requires |lines| >= 1
    requires forall k :: 0 <= k < |lines| ==> '\n' !in lines[k]
    requires forall k :: 0 <= k < |lines| - 1 ==> lines[k] == [] || lines[k][|lines[k]| - 1] != '\r'
    ensures SplitLines(Join(lines, "\n")) == lines
  {
    SplitLFJoin(lines);
  }

  /** No line holds a line feed, and every piece the text had survives up to one '\r'. */
  lemma SplitLinesShape(s: string)
    ensures forall k :: 0 <= k < |SplitLines(s)| ==> '\n' !in SplitLines(s)[k]
    ensures |SplitLines(s)| == |SplitLF(s)|
  {
    var pieces := SplitLF(s);
    forall k | 0 <= k < |pieces| - 1 ensures '\n' !in DropTrailingCR(pieces[k]) {
      var p := pieces[k];
      if |p| > 0 && p[|p| - 1] == '\r' {
        assert forall c :: c in p[..|p| - 1] ==> c in p;
      }
    }
  }

  // ---------------------------------------------------------------------------
  // String order

  /**
   * Three-way comparison of strings by code unit, as the default `Array.prototype.sort`
   * and relational operators compare them: the first differing character decides, and a
   * proper prefix comes first.
   */
  function Compare(s: string, t: string): (r: int)
    ensures -1 <= r <= 1
  {
    if s == [] then (if t == [] then 0 else -1)
    else if t == [] then 1
    else if s[0] < t[0] then -1
    else if t[0] < s[0] then 1
    else Compare(s[1..], t[1..])
  }

  /** `s` comes before `t`: `s` is a proper prefix of `t`, or they first differ at k with s[k] < t[k]. */
  ghost predicate LexLess(s: string, t: string) {
    exists k :: 0 <= k <= |s| && k < |t| && s[..k] == t[..k] && (k == |s| || s[k] < t[k])
  }

  lemma {:induction false} CompareZeroIffEqual(s: string, t: string)
    ensures Compare(s, t) == 0 <==> s == t
  {
    if s != [] && t != [] && s[0] == t[0] {
      CompareZeroIffEqual(s[1..], t[1..]);
      if s[1..] == t[1..] {
        assert s == [s[0]] + s[1..] && t == [t[0]] + t[1..];
      }
    }
  }

  lemma {:induction false} CompareAntisymmetric(s: string, t: string)
    ensures Compare(t, s) == -Compare(s, t)
  {
    if s != [] && t != [] && s[0] == t[0] {
      CompareAntisymmetric(s[1..], t[1..]);
    }
  }

  lemma {:induction false} CompareTransitive(s: string, t: string, u: string)
    requires Compare(s, t) <= 0 && Compare(t, u) <= 0
    ensures Compare(s, u) <= 0
  {
    if s != [] && t != [] && u != [] && s[0] == t[0] == u[0] {
      CompareTransitive(s[1..], t[1..], u[1..]);
    }
  }

  lemma CompareStrictTransitive(s: string, t: string, u: string)
    requires (Compare(s, t) < 0 && Compare(t, u) <= 0) || (Compare(s, t) <= 0 && Compare(t, u) < 0)
    ensures Compare(s, u) < 0
  {
    CompareTransitive(s, t, u);
    CompareZeroIffEqual(s, u);
    CompareZeroIffEqual(s, t);
    CompareZeroIffEqual(t, u);
    CompareAntisymmetric(s, t);
    CompareAntisymmetric(t, u);
  }

  /** A string that comes first does not start with a larger character. */
  lemma LexLessHead(s: string, t: string)
    requires s != [] && t != []
    ensures LexLess(s, t) ==> s[0] <= t[0]
  {
    if LexLess(s, t) {
      var k :| 0 <= k <= |s| && k < |t| && s[..k] == t[..k] && (k == |s| || s[k] < t[k]);
      if k > 0 {
        assert s[..k][0] == t[..k][0];
      }
    }
  }

  /** The order `Compare` decides is the lexicographic order, in both directions. */
  lemma {:induction false} CompareIsLexicographic(s: string, t: string)
    ensures Compare(s, t) < 0 <==> LexLess(s, t)
  {
    if s == [] {
      if t != [] { assert s[..0] == t[..0]; }
    } else if t == [] {
    } else if s[0] < t[0] {
      assert s[..0] == t[..0];
    } else if t[0] < s[0] {
      LexLessHead(s, t);
    } else {
      CompareIsLexicographic(s[1..], t[1..]);
      if LexLess(s[1..], t[1..]) {
        var k :| 0 <= k <= |s[1..]| && k < |t[1..]| && s[1..][..k] == t[1..][..k] && (k == |s[1..]| || s[1..][k] < t[1..][k]);
        assert s[..k + 1] == [s[0]] + s[1..][..k];
        assert t[..k + 1] == [t[0]] + t[1..][..k];
        assert k + 1 == |s| || s[k + 1] < t[k + 1];
      }
      if LexLess(s, t) {
        var k :| 0 <= k <= |s| && k < |t| && s[..k] == t[..k] && (k == |s| || s[k] < t[k]);
        assert s[1..][..k - 1] == s[..k][1..] == t[..k][1..] == t[1..][..k - 1];
        assert k - 1 == |s[1..]| || s[1..][k - 1] < t[1..][k - 1];
      }
    }
  }
}
