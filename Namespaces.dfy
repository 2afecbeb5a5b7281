/**
 * `getNamespaces`: the standard output of `nerdctl namespace list --quiet` becomes the
 * sorted list of namespace names, by `stdout.trim().split(/\r?\n/).map(line => line.trim()).sort()`.
 */
module Namespaces {
  import opened Text
  import opened Sorting

  /** `.map(line => line.trim())` */
  function TrimEach(lines: seq<string>): (trimmed: seq<string>)
    ensures |trimmed| == |lines|
  {
    seq(|lines|, k requires 0 <= k < |lines| => Trim(lines[k]))
  }

  /** The names `getNamespaces` returns for the listing's standard output. */
  function NamespaceList(stdout: string): seq<string> {
    InsertionSort(TrimEach(SplitLines(Trim(stdout))), Compare)
  }

  /** Code-unit order meets the laws the default sort relies on. */
  lemma CompareConsistent()
    ensures ConsistentComparator(Compare)
  {
    forall s, t ensures Compare(t, s) == -Compare(s, t) {
      CompareAntisymmetric(s, t);
    }
    forall s, t, u ensures NotAfterChain(Compare, s, t, u) {
      if Compare(s, t) <= 0 && Compare(t, u) <= 0 {
        CompareTransitive(s, t, u);
      }
    }
  }

  /** The names come back in ascending code-unit order. */
  lemma NamespaceListSorted(stdout: string)
    ensures SortedBy(NamespaceList(stdout), Compare)
  {
    CompareConsistent();
    InsertionSortSorted(TrimEach(SplitLines(Trim(stdout))), Compare);
  }

  /** Sorting only reorders: one name per line of the trimmed output, each line trimmed. */
  lemma NamespaceListPermutes(stdout: string)
    ensures multiset(NamespaceList(stdout)) == multiset(TrimEach(SplitLines(Trim(stdout))))
    ensures |NamespaceList(stdout)| == |SplitLines(Trim(stdout))|
  {
    InsertionSortPermutes(TrimEach(SplitLines(Trim(stdout))), Compare);
  }

  /** No name has whitespace at either end, and none spans a line break. */
  lemma NamespaceListTrimmed(stdout: string)
    ensures forall name :: name in NamespaceList(stdout) ==> IsTrimmed(name) && '\n' !in name
  {
    var lines := SplitLines(Trim(stdout));
    NamespaceListPermutes(stdout);
    SplitLinesShape(Trim(stdout));
    forall name | name in NamespaceList(stdout) ensures IsTrimmed(name) && '\n' !in name {
      assert name in multiset(TrimEach(lines));
      var k :| 0 <= k < |lines| && TrimEach(lines)[k] == name;
    }
  }

  /** Output that is empty or all whitespace yields one empty name, not an empty list. */
  lemma NamespaceListOfBlank(stdout: string)
    requires AllWhitespace(stdout)
    ensures NamespaceList(stdout) == [""]
  {
    assert Trim(stdout) == [];
    assert SplitLF([]) == [""];
    assert TrimEach(SplitLines([])) == [""];
    assert [""][..0] == [];
  }

  /** A trimmed string is its own trim. */
  lemma TrimOfTrimmed(s: string)
    requires IsTrimmed(s)
    ensures Trim(s) == s
  {
    assert s[0..|s|] == s;
    TrimUnique(s, 0, |s|);
  }

  /** Joining non-empty trimmed names keeps the first name's start and the last name's end. */
  lemma {:induction false} JoinTrimmed(names: seq<string>, sep: string)
    requires names != []
    requires forall k :: 0 <= k < |names| ==> names[k] != [] && IsTrimmed(names[k])
    ensures Join(names, sep) != [] && IsTrimmed(Join(names, sep))
  {
    if |names| > 1 {
      var rest := names[1..];
      JoinTrimmed(rest, sep);
      var joined := Join(names, sep);
      assert joined == names[0] + sep + Join(rest, sep);
      assert joined[0] == names[0][0];
      assert joined[|joined| - 1] == Join(rest, sep)[|Join(rest, sep)| - 1];
    }
  }

  /** A trimmed non-empty text followed by a line break trims back to the text. */
  lemma TrimLineBreak(text: string, lineBreak: string)
    requires text != [] && IsTrimmed(text) && AllWhitespace(lineBreak)
    ensures Trim(text + lineBreak) == text
  {
    var s := text + lineBreak;
    assert s[0..|text|] == text;
    forall k | |text| <= k < |s| ensures IsWhitespace(s[k]) {
      assert s[k] == lineBreak[k - |text|];
    }
    TrimUnique(s, 0, |text|);
  }

  /** Trimming lines that are already trimmed changes nothing. */
  lemma TrimEachOfTrimmed(names: seq<string>)
    requires forall k :: 0 <= k < |names| ==> IsTrimmed(names[k])
    ensures TrimEach(names) == names
  {
    forall k | 0 <= k < |names| ensures TrimEach(names)[k] == names[k] {
      TrimOfTrimmed(names[k]);
    }
  }

  /** The line break the listing prints after each name: CRLF or LF. */
  function LineBreak(crlf: bool): string {
    if crlf then "\r\n" else "\n"
  }

  lemma LineBreakIsWhitespace(crlf: bool)
    ensures AllWhitespace(LineBreak(crlf))
  {
    assert IsWhitespace('\r') && IsWhitespace('\n');
  }

  /** A listing of names that are non-empty and trimmed trims to the names joined. */
  lemma TrimListing(names: seq<string>, crlf: bool)
    requires names != []
    requires forall k :: 0 <= k < |names| ==> names[k] != [] && IsTrimmed(names[k])
    ensures Trim(Join(names, LineBreak(crlf)) + LineBreak(crlf)) == Join(names, LineBreak(crlf))
  {
    LineBreakIsWhitespace(crlf);
    JoinTrimmed(names, LineBreak(crlf));
    TrimLineBreak(Join(names, LineBreak(crlf)), LineBreak(crlf));
  }

  /** Names without line feeds or a trailing '\r', joined by the line break, split back into the names. */
  lemma SplitListing(names: seq<string>, crlf: bool)
    requires names != []
    requires forall k :: 0 <= k < |names| ==> names[k] != [] && IsTrimmed(names[k]) && '\n' !in names[k]
    ensures SplitLines(Join(names, LineBreak(crlf))) == names
  {
    if crlf {
      SplitLinesJoinCRLF(names);
    } else {
      SplitLinesJoinLF(names);
    }
  }

  lemma SplitTrimmed(joined: string, lineBreak: string, names: seq<string>)
    requires Trim(joined + lineBreak) == joined && SplitLines(joined) == names
    ensures SplitLines(Trim(joined + lineBreak)) == names
  {
  }

  /** A listing of non-empty trimmed names, one per line, splits back into the names. */
  lemma ListingLines(names: seq<string>, crlf: bool)
    requires names != []
    requires forall k :: 0 <= k < |names| ==> names[k] != [] && IsTrimmed(names[k]) && '\n' !in names[k]
    ensures SplitLines(Trim(Join(names, LineBreak(crlf)) + LineBreak(crlf))) == names
  {
    TrimListing(names, crlf);
    SplitListing(names, crlf);
    SplitTrimmed(Join(names, LineBreak(crlf)), LineBreak(crlf), names);
  }

  /**
   * A listing that prints each name on its own line, ended by LF or CRLF, comes back as
   * the sorted names, provided no name is empty, has whitespace at its ends or holds a line feed.
   */
  lemma NamespaceListOfListing(names: seq<string>, crlf: bool)
    requires names != []
    requires forall k :: 0 <= k < |names| ==> names[k] != [] && IsTrimmed(names[k]) && '\n' !in names[k]
    ensures NamespaceList(Join(names, LineBreak(crlf)) + LineBreak(crlf)) == InsertionSort(names, Compare)
  {
    ListingLines(names, crlf);
    TrimEachOfTrimmed(names);
  }

  /** Names already listed in order come back unchanged. */
  lemma NamespaceListOfSortedListing(names: seq<string>, crlf: bool)
    requires names != [] && SortedBy(names, Compare)
    requires forall k :: 0 <= k < |names| ==> names[k] != [] && IsTrimmed(names[k]) && '\n' !in names[k]
    ensures NamespaceList(Join(names, LineBreak(crlf)) + LineBreak(crlf)) == names
  {
    NamespaceListOfListing(names, crlf);
    CompareConsistent();
    InsertionSortOfSorted(names, Compare);
  }
}
