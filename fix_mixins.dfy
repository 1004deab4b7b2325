/** `FixLogMixin`: picking the FIX log files out of a directory listing. */
module FixMixins {
  import opened PyStr
  import opened Seqs
  import opened FixSettings

  /** The test `get_filenames` applies to each directory entry:
      `filename[:len(prefix)] == prefix and filename[-len(file_type):] == file_type`. */
  predicate IsLogFileName(filename: string)
  {
    Slice(filename, 0, |FilenamePrefix|) == FilenamePrefix &&
    Slice(filename, -|FileType|, |filename|) == FileType
  }

  /** The names `get_filenames` returns for a directory listing. */
  function SelectLogFiles(listing: seq<string>): seq<string>
  {
    Filter(listing, IsLogFileName)
  }

  /** `FixLogMixin.get_filenames`, with the result of `os.listdir` passed in. */
  method GetFilenames(listing: seq<string>) returns (filenames: seq<string>)
    ensures filenames == SelectLogFiles(listing)
  {
    filenames := [];
    for i := 0 to |listing|
      invariant filenames == SelectLogFiles(listing[..i])
    {
      var filename := listing[i];
      var prefix2 := Slice(filename, 0, |FilenamePrefix|);
      var fileType2 := Slice(filename, -|FileType|, |filename|);
      if FilenamePrefix == prefix2 && FileType == fileType2 {
        filenames := filenames + [filename];
      }
      assert listing[..i + 1][..i] == listing[..i];
    }
    assert listing[..|listing|] == listing;
  }

  /** The slice test is the prefix-and-suffix test, and a name that passes
      is at least 16 characters long: the prefix and the extension cannot
      overlap, so the name is the prefix, a middle part and ".log". */
  lemma LogFileNameTest(filename: string)
    ensures IsLogFileName(filename) <==>
      StartsWith(filename, FilenamePrefix) && EndsWith(filename, FileType)
    ensures IsLogFileName(filename) ==>
      |filename| >= |FilenamePrefix| + |FileType| &&
      filename == FilenamePrefix + filename[|FilenamePrefix|..|filename| - |FileType|] + FileType
  {
    PrefixSliceTest(filename, FilenamePrefix);
    SuffixSliceTest(filename, FileType);
    if IsLogFileName(filename) {
      var n := |filename|;
      assert filename[..|FilenamePrefix|] == FilenamePrefix;
      assert filename[n - |FileType|] == '.';
      assert forall k :: 8 <= k < |FilenamePrefix| ==> FilenamePrefix[k] != '.';
      assert n >= |FilenamePrefix| + |FileType|;
      var mid := filename[|FilenamePrefix|..n - |FileType|];
      assert filename == filename[..|FilenamePrefix|] + mid + filename[n - |FileType|..];
    }
  }

  /** A name is returned exactly when it is listed, starts with the prefix
      and ends with ".log"; a name shorter than the prefix never is. */
  lemma SelectedNames(listing: seq<string>)
    ensures forall n :: n in SelectLogFiles(listing) <==>
      n in listing && StartsWith(n, FilenamePrefix) && EndsWith(n, FileType)
    ensures forall n :: |n| < |FilenamePrefix| ==> n !in SelectLogFiles(listing)
  {
    FilterMembers(listing, IsLogFileName);
    forall n ensures IsLogFileName(n) <==> StartsWith(n, FilenamePrefix) && EndsWith(n, FileType) {
      LogFileNameTest(n);
    }
  }

  /** The returned names appear in the listing's order: they sit at strictly
      increasing positions of the listing, and every listed name that passes
      the test is one of them. */
  lemma SelectionKeepsOrder(listing: seq<string>)
    ensures var idx, r := KeptIndices(listing, IsLogFileName), SelectLogFiles(listing);
      && |idx| == |r|
      && (forall i, j :: 0 <= i < j < |idx| ==> idx[i] < idx[j])
      && (forall i :: 0 <= i < |idx| ==> idx[i] < |listing| && listing[idx[i]] == r[i])
      && (forall k :: 0 <= k < |listing| && IsLogFileName(listing[k]) ==> k in idx)
  {
    FilterKeepsOrder(listing, IsLogFileName);
  }

  /** Selecting from a selection changes nothing. */
  lemma SelectionIdempotent(listing: seq<string>)
    ensures SelectLogFiles(SelectLogFiles(listing)) == SelectLogFiles(listing)
  {
    FilterIdempotent(listing, IsLogFileName);
  }
}
