/**
 * `NerdctlImageProcessor.parse` and `imageComparator`: the output of
 * `nerdctl images --format '{{json .}}'` (one JSON object per line) becomes the sorted list of
 * images the rest of the application shows.
 */
module ImageParse {
  import opened Wrappers
  import opened Text
  import opened Sorting

  /** A decoded output line: its `Repository`, `Tag`, `ID` and `Size` members. */
  datatype ListedImage = ListedImage(repository: string, tag: string, id: string, size: string)

  /** The image record the processor publishes (`imageProcessor.imageType`). */
  datatype ImageRecord = ImageRecord(imageName: string, tag: string, imageID: string, size: string)

  /**
   * `JSON.parse` followed by the truthiness filter: `None` when decoding throws or yields a
   * falsy value, otherwise the members of the decoded object.
   */
  type Decoder = string -> Option<ListedImage>

  /** A line made of whitespace only, which is exactly a line whose `trim()` is empty (`BlankIffTrimEmpty`). */
  predicate IsBlank(line: string) {
    AllWhitespace(line)
  }

  lemma BlankIffTrimEmpty(line: string)
    ensures IsBlank(line) <==> |Trim(line)| == 0
  {
  }

  /** `.filter(line => line.trim().length > 0)` */
  function NonBlankLines(lines: seq<string>): (r: seq<string>)
    ensures |r| <= |lines|
  {
    if lines == [] then []
    else NonBlankLines(lines[..|lines| - 1]) + (if IsBlank(lines[|lines| - 1]) then [] else [lines[|lines| - 1]])
  }

  /** `.map(JSON.parse, null on failure).filter(record => record)` */
  function DecodeLines(lines: seq<string>, decode: Decoder): (records: seq<ListedImage>)
    ensures |records| <= |lines|
  {
    if lines == [] then []
    else
      DecodeLines(lines[..|lines| - 1], decode) +
      match decode(lines[|lines| - 1]) case Some(record) => [record] case None => []
  }

  /** The records the non-blank, decodable lines among `lines` yield, in line order. */
  function LineRecords(lines: seq<string>, decode: Decoder): seq<ListedImage> {
    DecodeLines(NonBlankLines(lines), decode)
  }

  /** The records `parse` iterates over: `data.split(/\r?\n/)`, then the two filters. */
  function Records(data: string, decode: Decoder): seq<ListedImage> {
    LineRecords(SplitLines(data), decode)
  }

  /** `['', 'sha256'].includes(record.Repository)`: an untagged or intermediate image. */
  predicate IsUntagged(record: ListedImage) {
    record.repository == "" || record.repository == "sha256"
  }

  /** The record pushed for a listed image: Repository, Tag, ID, Size copied field for field. */
  function ToImage(record: ListedImage): ImageRecord {
    ImageRecord(record.repository, record.tag, record.id, record.size)
  }

  /** What the loop of `parse` pushes, in line order. */
  function Collected(records: seq<ListedImage>): (images: seq<ImageRecord>)
    ensures |images| <= |records|
  {
    if records == [] then []
    else
      var last := records[|records| - 1];
      Collected(records[..|records| - 1]) + (if IsUntagged(last) then [] else [ToImage(last)])
  }

  /** `imageComparator`: by image name, then tag, then image ID, the first difference deciding. */
  function ImageComparator(a: ImageRecord, b: ImageRecord): int {
    var byName := Compare(a.imageName, b.imageName);
    if byName != 0 then byName
    else
      var byTag := Compare(a.tag, b.tag);
      if byTag != 0 then byTag else Compare(a.imageID, b.imageID)
  }

  /** The loop of `parse`: pushes the record of every listed image that is not untagged. */
  method CollectImages(records: seq<ListedImage>) returns (images: seq<ImageRecord>)
    ensures images == Collected(records)
  {
    images := [];
    for i := 0 to |records|
      invariant images == Collected(records[..i])
    {
      assert records[..i + 1][..i] == records[..i];
      var record := records[i];
      if IsUntagged(record) {
        continue;
      }
      images := images + [ImageRecord(record.repository, record.tag, record.id, record.size)];
    }
    assert records[..|records|] == records;
  }

  /** `images.sort(imageComparator)` on the array the loop filled. */
  method SortImages(images: seq<ImageRecord>) returns (sorted: seq<ImageRecord>)
    ensures sorted == InsertionSort(images, ImageComparator)
  {
    var a := new ImageRecord[|images|](k requires 0 <= k < |images| => images[k]);
    assert a[..] == images;
    SortInPlace(a, ImageComparator);
    sorted := a[..];
  }

  /** The images `parse` returns for `data`, as a function of its lines. */
  function ParsedImages(data: string, decode: Decoder): seq<ImageRecord> {
    InsertionSort(Collected(Records(data, decode)), ImageComparator)
  }

  /**
   * `parse(data)`: decodes the non-blank lines, collects the tagged images and sorts them;
   * it has no failure path.
   */
  method Parse(data: string, decode: Decoder) returns (images: seq<ImageRecord>)
    ensures images == ParsedImages(data, decode)
    ensures SortedBy(images, ImageComparator)
    ensures multiset(images) == multiset(Collected(Records(data, decode)))
  {
    var records := Records(data, decode);
    var collected := CollectImages(records);
    images := SortImages(collected);
    ParsedImagesSorted(data, decode);
    InsertionSortPermutes(collected, ImageComparator);
  }

  /** What `parse` returns is ordered by `imageComparator`. */
  lemma ParsedImagesSorted(data: string, decode: Decoder)
    ensures SortedBy(ParsedImages(data, decode), ImageComparator)
  {
    ImageComparatorConsistent();
    InsertionSortSorted(Collected(Records(data, decode)), ImageComparator);
  }

  /**
   * Images that share name, tag and ID with `x` (and may differ in size) come back in the
   * order their lines appeared: the sort is stable.
   */
  lemma ParsedImagesKeepTiedOrder(data: string, decode: Decoder, x: ImageRecord)
    ensures TiesWith(ParsedImages(data, decode), x, ImageComparator) ==
            TiesWith(Collected(Records(data, decode)), x, ImageComparator)
  {
    ImageComparatorConsistent();
    InsertionSortStable(Collected(Records(data, decode)), x, ImageComparator);
  }

  // ---------------------------------------------------------------------------
  // The comparator

  /** Two records compare equal exactly when they agree on name, tag and ID (size is ignored). */
  lemma ImageComparatorZeroIffSameKey(a: ImageRecord, b: ImageRecord)
    ensures ImageComparator(a, b) == 0 <==> a.imageName == b.imageName && a.tag == b.tag && a.imageID == b.imageID
  {
    CompareZeroIffEqual(a.imageName, b.imageName);
    CompareZeroIffEqual(a.tag, b.tag);
    CompareZeroIffEqual(a.imageID, b.imageID);
  }

  /** `a` sorts before `b` when its name is smaller, or names tie and its tag is smaller, or both tie and its ID is smaller. */
  lemma ImageComparatorOrder(a: ImageRecord, b: ImageRecord)
    ensures ImageComparator(a, b) < 0 <==>
      || LexLess(a.imageName, b.imageName)
      || (a.imageName == b.imageName && LexLess(a.tag, b.tag))
      || (a.imageName == b.imageName && a.tag == b.tag && LexLess(a.imageID, b.imageID))
  {
    CompareZeroIffEqual(a.imageName, b.imageName);
    CompareZeroIffEqual(a.tag, b.tag);
    CompareIsLexicographic(a.imageName, b.imageName);
    CompareIsLexicographic(a.tag, b.tag);
    CompareIsLexicographic(a.imageID, b.imageID);
  }

  lemma ImageComparatorTransitive(a: ImageRecord, b: ImageRecord, c: ImageRecord)
    ensures NotAfterChain(ImageComparator, a, b, c)
  {
    if ImageComparator(a, b) <= 0 && ImageComparator(b, c) <= 0 {
      CompareZeroIffEqual(a.imageName, b.imageName);
      CompareZeroIffEqual(b.imageName, c.imageName);
      CompareZeroIffEqual(a.tag, b.tag);
      CompareZeroIffEqual(b.tag, c.tag);
      if Compare(a.imageName, b.imageName) < 0 || Compare(b.imageName, c.imageName) < 0 {
        CompareStrictTransitive(a.imageName, b.imageName, c.imageName);
      } else if Compare(a.tag, b.tag) < 0 || Compare(b.tag, c.tag) < 0 {
        CompareStrictTransitive(a.tag, b.tag, c.tag);
      } else {
        CompareTransitive(a.imageID, b.imageID, c.imageID);
      }
    }
  }

  /** `imageComparator` meets the laws `Array.prototype.sort` asks of a comparator. */
  lemma ImageComparatorConsistent()
    ensures ConsistentComparator(ImageComparator)
  {
    forall a, b ensures ImageComparator(b, a) == -ImageComparator(a, b) {
      CompareAntisymmetric(a.imageName, b.imageName);
      CompareAntisymmetric(a.tag, b.tag);
      CompareAntisymmetric(a.imageID, b.imageID);
    }
    forall a, b, c ensures NotAfterChain(ImageComparator, a, b, c) {
      ImageComparatorTransitive(a, b, c);
    }
  }

  // ---------------------------------------------------------------------------
  // Line handling: blank and undecodable lines are skipped, one at a time

  lemma {:induction false} NonBlankLinesConcat(a: seq<string>, b: seq<string>)
    ensures NonBlankLines(a + b) == NonBlankLines(a) + NonBlankLines(b)
  {
    if b == [] {
      assert a + b == a;
    } else {
      NonBlankLinesConcat(a, b[..|b| - 1]);
      assert (a + b)[..|a + b| - 1] == a + b[..|b| - 1];
    }
  }

  lemma {:induction false} DecodeLinesConcat(a: seq<string>, b: seq<string>, decode: Decoder)
    ensures DecodeLines(a + b, decode) == DecodeLines(a, decode) + DecodeLines(b, decode)
  {
    if b == [] {
      assert a + b == a;
    } else {
      DecodeLinesConcat(a, b[..|b| - 1], decode);
      assert (a + b)[..|a + b| - 1] == a + b[..|b| - 1];
    }
  }

  lemma {:induction false} CollectedConcat(a: seq<ListedImage>, b: seq<ListedImage>)
    ensures Collected(a + b) == Collected(a) + Collected(b)
  {
    if b == [] {
      assert a + b == a;
    } else {
      CollectedConcat(a, b[..|b| - 1]);
      assert (a + b)[..|a + b| - 1] == a + b[..|b| - 1];
    }
  }

  /** The lines are handled independently: the records of a concatenation are the concatenated records. */
  lemma LineRecordsConcat(a: seq<string>, b: seq<string>, decode: Decoder)
    ensures LineRecords(a + b, decode) == LineRecords(a, decode) + LineRecords(b, decode)
  {
    NonBlankLinesConcat(a, b);
    DecodeLinesConcat(NonBlankLines(a), NonBlankLines(b), decode);
  }

  /** A blank line, or one that does not decode, contributes no record and disturbs no other line. */
  lemma SkippedLine(pre: seq<string>, line: string, post: seq<string>, decode: Decoder)
    requires IsBlank(line) || decode(line) == None
    ensures LineRecords(pre + [line] + post, decode) == LineRecords(pre + post, decode)
  {
    LineRecordsConcat(pre + [line], post, decode);
    LineRecordsConcat(pre, [line], decode);
    LineRecordsConcat(pre, post, decode);
    assert [line][..0] == [];
  }

  /** A non-blank line that decodes contributes exactly its record, in its place. */
  lemma DecodedLine(pre: seq<string>, line: string, post: seq<string>, decode: Decoder, record: ListedImage)
    requires !IsBlank(line) && decode(line) == Some(record)
    ensures LineRecords(pre + [line] + post, decode) == LineRecords(pre, decode) + [record] + LineRecords(post, decode)
  {
    LineRecordsConcat(pre + [line], post, decode);
    LineRecordsConcat(pre, [line], decode);
    assert [line][..0] == [];
  }

  /** The records of a single line: its record when it is non-blank and decodes, else none. */
  lemma OneLineRecords(line: string, decode: Decoder)
    ensures LineRecords([line], decode) == if !IsBlank(line) && decode(line).Some? then [decode(line).value] else []
  {
    assert [line][..0] == [];
  }

  /** A record comes from some non-blank line that decodes to it, and every such line yields one. */
  lemma {:induction false} LineRecordsMembers(lines: seq<string>, decode: Decoder, record: ListedImage)
    ensures record in LineRecords(lines, decode) <==>
      exists line :: line in lines && !IsBlank(line) && decode(line) == Some(record)
  {
    if lines != [] {
      var init, last := lines[..|lines| - 1], lines[|lines| - 1];
      assert lines == init + [last];
      LineRecordsConcat(init, [last], decode);
      OneLineRecords(last, decode);
      LineRecordsMembers(init, decode, record);
      if record in LineRecords(lines, decode) {
        if record in LineRecords(init, decode) {
          var line :| line in init && !IsBlank(line) && decode(line) == Some(record);
          assert line in lines;
        } else {
          assert last in lines;
        }
      }
      if exists line :: line in lines && !IsBlank(line) && decode(line) == Some(record) {
        var line :| line in lines && !IsBlank(line) && decode(line) == Some(record);
        if line != last {
          assert line in init;
        }
      }
    }
  }

  // ---------------------------------------------------------------------------
  // Filtering and mapping

  /** The collected images are exactly the images of the records that are not untagged, fields copied. */
  lemma {:induction false} CollectedMembers(records: seq<ListedImage>, image: ImageRecord)
    ensures image in Collected(records) <==>
      exists record :: record in records && !IsUntagged(record) && ToImage(record) == image
  {
    if records != [] {
      var init, last := records[..|records| - 1], records[|records| - 1];
      assert records == init + [last];
      CollectedMembers(init, image);
      assert forall record :: record in records <==> record in init || record == last;
    }
  }

  /** Every record `parse` returns names a repository that is neither '' nor 'sha256'. */
  lemma ParsedImagesTagged(data: string, decode: Decoder)
    ensures forall image :: image in ParsedImages(data, decode) ==> image.imageName != "" && image.imageName != "sha256"
  {
    var collected := Collected(Records(data, decode));
    InsertionSortPermutes(collected, ImageComparator);
    forall image | image in ParsedImages(data, decode)
      ensures image.imageName != "" && image.imageName != "sha256"
    {
      assert image in multiset(collected);
      CollectedMembers(Records(data, decode), image);
    }
  }

  /**
   * End to end: an image is in the result of `parse` exactly when some non-blank line decodes
   * to a record that is not untagged and whose fields are the image's.
   */
  lemma ParsedImagesMembers(data: string, decode: Decoder, image: ImageRecord)
    ensures image in ParsedImages(data, decode) <==>
      exists line, record :: line in SplitLines(data) && !IsBlank(line) && decode(line) == Some(record)
        && !IsUntagged(record) && ToImage(record) == image
  {
    var records := Records(data, decode);
    InsertionSortPermutes(Collected(records), ImageComparator);
    assert image in ParsedImages(data, decode) <==> image in multiset(Collected(records));
    CollectedMembers(records, image);
    forall record ensures record in records <==>
      exists line :: line in SplitLines(data) && !IsBlank(line) && decode(line) == Some(record)
    {
      LineRecordsMembers(SplitLines(data), decode, record);
    }
  }

  /** `parse` returns at most one image per non-blank line. */
  lemma ParsedImagesBound(data: string, decode: Decoder)
    ensures |ParsedImages(data, decode)| <= |NonBlankLines(SplitLines(data))|
  {
  }

  // ---------------------------------------------------------------------------
  // Determinism: the order of the lines does not matter

  /** The images the loop collects from `lines`, before sorting. */
  function ListedImages(lines: seq<string>, decode: Decoder): seq<ImageRecord> {
    Collected(LineRecords(lines, decode))
  }

  lemma ListedImagesConcat(a: seq<string>, b: seq<string>, decode: Decoder)
    ensures ListedImages(a + b, decode) == ListedImages(a, decode) + ListedImages(b, decode)
  {
    LineRecordsConcat(a, b, decode);
    CollectedConcat(LineRecords(a, decode), LineRecords(b, decode));
  }

  lemma MultisetCancel<T>(x: T, rest: seq<T>, a: seq<T>, b: seq<T>)
    requires multiset([x] + rest) == multiset(a + [x] + b)
    ensures multiset(rest) == multiset(a + b)
  {
    calc {
      multiset(rest);
      multiset([x] + rest) - multiset{x};
      multiset(a + [x] + b) - multiset{x};
      multiset(a + b);
    }
  }

  /** The collected images of `[x] + rest` and of `a + [x] + b` agree as multisets when those of `rest` and `a + b` do. */
  lemma ListedImagesMoveLine(x: string, rest: seq<string>, a: seq<string>, b: seq<string>, decode: Decoder)
    requires multiset(ListedImages(rest, decode)) == multiset(ListedImages(a + b, decode))
    ensures multiset(ListedImages([x] + rest, decode)) == multiset(ListedImages(a + [x] + b, decode))
  {
    ListedImagesConcat([x], rest, decode);
    ListedImagesConcat(a + [x], b, decode);
    ListedImagesConcat(a, [x], decode);
    ListedImagesConcat(a, b, decode);
  }

  /** Reordering the lines reorders the collected images and nothing else. */
  lemma {:induction false} ListedImagesPermutation(lines1: seq<string>, lines2: seq<string>, decode: Decoder)
    requires multiset(lines1) == multiset(lines2)
    ensures multiset(ListedImages(lines1, decode)) == multiset(ListedImages(lines2, decode))
  {
    if lines1 == [] {
      assert |lines2| == |multiset(lines2)| == 0;
    } else {
      var x, rest := lines1[0], lines1[1..];
      assert lines1 == [x] + rest;
      assert x in multiset(lines2);
      var k :| 0 <= k < |lines2| && lines2[k] == x;
      var a, b := lines2[..k], lines2[k + 1..];
      assert lines2 == a + [x] + b;
      MultisetCancel(x, rest, a, b);
      ListedImagesPermutation(rest, a + b, decode);
      ListedImagesMoveLine(x, rest, a, b, decode);
    }
  }

  /**
   * When no two different images share name, tag and ID, `parse` returns the same list
   * whatever order the lines came in.
   */
  lemma ParsedImagesIgnoreLineOrder(data1: string, data2: string, decode: Decoder)
    requires multiset(SplitLines(data1)) == multiset(SplitLines(data2))
    requires forall x, y :: x in Collected(Records(data1, decode)) && y in Collected(Records(data1, decode)) && x != y ==>
               ImageComparator(x, y) != 0
    ensures ParsedImages(data1, decode) == ParsedImages(data2, decode)
  {
    ListedImagesPermutation(SplitLines(data1), SplitLines(data2), decode);
    ImageComparatorConsistent();
    InsertionSortUnique(Collected(Records(data1, decode)), Collected(Records(data2, decode)), ImageComparator);
  }

  // ---------------------------------------------------------------------------
  // The sample output documented above `parse`

  /**
   * Two output lines, the first an untagged image, the second `rancher/k3d:v0.1.0-beta.7`,
   * each ended by a line feed: only the second is listed.
   */
  lemma SampleOutput(untagged: string, tagged: string, decode: Decoder)
    requires '\n' !in untagged && '\n' !in tagged
    requires untagged != [] && untagged[|untagged| - 1] == '}'
    requires tagged != [] && tagged[|tagged| - 1] == '}'
    requires decode(untagged) == Some(ListedImage("", "", "171689e43026", "119.2 MiB"))
    requires decode(tagged) == Some(ListedImage("rancher/k3d", "v0.1.0-beta.7", "55fe4b211a51", "46.2 MiB"))
    ensures ParsedImages(untagged + "\n" + tagged + "\n", decode)
      == [ImageRecord("rancher/k3d", "v0.1.0-beta.7", "55fe4b211a51", "46.2 MiB")]
  {
    var data := untagged + "\n" + tagged + "\n";
    SampleRecords(untagged, tagged, decode);
    var records := Records(data, decode);
    assert records[..1][..0] == [] && records[..1] == [records[0]];
    assert Collected(records) == [ToImage(decode(tagged).value)];
  }

  lemma SampleRecords(untagged: string, tagged: string, decode: Decoder)
    requires '\n' !in untagged && '\n' !in tagged
    requires untagged != [] && untagged[|untagged| - 1] == '}'
    requires tagged != [] && tagged[|tagged| - 1] == '}'
    requires decode(untagged).Some? && decode(tagged).Some?
    ensures Records(untagged + "\n" + tagged + "\n", decode) == [decode(untagged).value, decode(tagged).value]
  {
    SampleLines(untagged, tagged);
    assert !IsWhitespace(untagged[|untagged| - 1]);
    OneLineRecords(untagged, decode);
    TaggedLineRecords(tagged, decode);
    LineRecordsConcat([untagged], [tagged, ""], decode);
    assert [untagged] + [tagged, ""] == [untagged, tagged, ""];
  }

  lemma TaggedLineRecords(tagged: string, decode: Decoder)
    requires tagged != [] && tagged[|tagged| - 1] == '}'
    requires decode(tagged).Some?
    ensures LineRecords([tagged, ""], decode) == [decode(tagged).value]
  {
    assert !IsWhitespace(tagged[|tagged| - 1]);
    OneLineRecords(tagged, decode);
    OneLineRecords("", decode);
    LineRecordsConcat([tagged], [""], decode);
    assert [tagged] + [""] == [tagged, ""];
  }

  lemma SampleLines(untagged: string, tagged: string)
    requires '\n' !in untagged && '\n' !in tagged
    requires untagged == [] || untagged[|untagged| - 1] != '\r'
    requires tagged != [] && tagged[|tagged| - 1] == '}'
    ensures SplitLines(untagged + "\n" + tagged + "\n") == [untagged, tagged, ""]
  {
    var lines := [untagged, tagged, ""];
    assert lines[1..] == [tagged, ""] && lines[1..][1..] == [""];
    assert Join([""], "\n") == "";
    assert Join([tagged, ""], "\n") == tagged + "\n" + "";
    assert Join(lines, "\n") == untagged + "\n" + (tagged + "\n" + "");
    assert untagged + "\n" + (tagged + "\n" + "") == untagged + "\n" + tagged + "\n";
    SplitLinesJoinLF(lines);
  }
}
