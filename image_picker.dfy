/** The `UploadImage` component's state: the selection it shares with its
    parent form, the bucket listing, the spinner flag and the gallery's
    page and search text, with the handlers that change them. The bucket,
    the signing server and the random source are outside: their answers
    come in as arguments. */
module ImagePicker {
  import opened Web
  import opened ImageKeys
  import opened Seqs
  import opened Gallery

  /** A file whose random draws are enough for a ten-character prefix. */
  predicate WellDrawn(f: LocalFile)
  {
    ValidDraws(f.draws) && 10 <= |f.draws|
  }

  predicate AllWellDrawn(files: seq<LocalFile>)
  {
    forall i | 0 <= i < |files| :: WellDrawn(files[i])
  }

  lemma AcceptedWellDrawn(dropped: seq<LocalFile>)
    requires AllWellDrawn(dropped)
    ensures AllWellDrawn(Accepted(dropped))
  {
    var accepted := Accepted(dropped);
    forall i | 0 <= i < |accepted| ensures WellDrawn(accepted[i]) {
      assert accepted[i] in dropped;
    }
  }

  /** What one upload promise resolves to: the key, or null when the
      server refused a pre-signed URL. */
  function UploadResult(f: LocalFile): (r: Option<string>)
    requires WellDrawn(f)
    ensures r.Some? <==> f.signed
    ensures r.Some? ==> r.value == KeyFor(f) && NoWhitespace(r.value)
  {
    if f.signed then Some(KeyFor(f)) else None
  }

  /** `await Promise.all(uploadPromises)` once every promise resolved: one
      result per file, in order. */
  function UploadResults(files: seq<LocalFile>): (r: seq<Option<string>>)
    requires AllWellDrawn(files)
    ensures |r| == |files|
    ensures forall i | 0 <= i < |files| :: r[i].Some? <==> files[i].signed
    ensures forall i | 0 <= i < |files| :: r[i].Some? ==> r[i].value == KeyFor(files[i])
  {
    seq(|files|, i requires 0 <= i < |files| => UploadResult(files[i]))
  }

  /** Every PUT that was started resolved; otherwise `Promise.all` rejects. */
  predicate PutsResolve(files: seq<LocalFile>)
  {
    forall i | 0 <= i < |files| :: files[i].signed ==> files[i].uploaded
  }

  /** The `files.map(async (file) => ...)` of `fileChange`, run in order:
      each file gets a fresh key, a signed file is PUT, and the key is its
      result. `None` when a PUT rejects, which rejects `Promise.all`. */
  method UploadAll(uploads: seq<LocalFile>) returns (results: Option<seq<Option<string>>>)
    requires AllWellDrawn(uploads)
    ensures results.Some? <==> PutsResolve(uploads)
    ensures results.Some? ==> results.value == UploadResults(uploads)
    ensures results.Some? ==>
              forall i | 0 <= i < |uploads| :: results.value[i].Some? ==> NoWhitespace(results.value[i].value)
  {
    var done: seq<Option<string>> := [];
    for i := 0 to |uploads|
      invariant |done| == i
      invariant forall j | 0 <= j < i :: done[j] == UploadResult(uploads[j])
      invariant PutsResolve(uploads[..i])
    {
      var file := uploads[i];
      var randomString := GenerateRandomString(10, file.draws);
      assert randomString == Drawn(file.draws, 10);
      var uniqueFileName := UniqueKey(randomString, file.name);
      if !file.signed {
        done := done + [None];
      } else if !file.uploaded {
        assert !PutsResolve(uploads) by {
          assert uploads[i].signed && !uploads[i].uploaded;
        }
        return None;
      } else {
        done := done + [Some(uniqueFileName)];
      }
      assert uploads[..i + 1] == uploads[..i] + [file];
    }
    assert uploads[..|uploads|] == uploads;
    return Some(done);
  }

  /** `results.filter((item): item is string => item !== null)`. */
  function NonNull(results: seq<Option<string>>): (r: seq<string>)
    ensures forall k :: k in r <==> Some(k) in results
    ensures |r| <= |results|
  {
    if results == [] then []
    else
      assert results == [results[0]] + results[1..];
      (if results[0].Some? then [results[0].value] else []) + NonNull(results[1..])
  }

  /** Filtering out the nulls works part by part, so the kept keys stay
      in the order of their results. */
  lemma {:induction false} NonNullAppend(a: seq<Option<string>>, b: seq<Option<string>>)
    ensures NonNull(a + b) == NonNull(a) + NonNull(b)
  {
    if a == [] {
      assert a + b == b;
    } else {
      assert (a + b)[1..] == a[1..] + b;
      NonNullAppend(a[1..], b);
    }
  }

  /** A list with no nulls loses nothing. */
  lemma {:induction false} NonNullOfAllSome(results: seq<Option<string>>)
    requires forall i | 0 <= i < |results| :: results[i].Some?
    ensures |NonNull(results)| == |results|
    ensures forall i | 0 <= i < |results| :: NonNull(results)[i] == results[i].value
  {
    if results != [] {
      NonNullOfAllSome(results[1..]);
    }
  }

  /** The selection once the listing has been refreshed after an upload:
      multiple mode appends the uploaded keys, single mode keeps only the
      first result (or "" when it is null or there is none). */
  function SelectionAfterUpload(prev: seq<string>, results: seq<Option<string>>, multiple: bool): (r: seq<string>)
    ensures multiple ==>
              |prev| <= |r| <= |prev| + |results| && r[..|prev|] == prev &&
              forall k :: k in r[|prev|..] <==> Some(k) in results
    ensures multiple ==> r == prev + NonNull(results)
    ensures !multiple ==>
              |r| == 1 && (r[0] == "" || (|results| > 0 && results[0] == Some(r[0])))
    ensures !multiple && |results| > 0 && results[0].Some? ==> r == [results[0].value]
  {
    if multiple then prev + NonNull(results)
    else [if |results| > 0 && results[0].Some? then results[0].value else ""]
  }

  /** In multiple mode, when every file was signed, each file's key is
      appended after the previous selection, in file order. */
  lemma MultipleModeAppendsEveryKey(prev: seq<string>, files: seq<LocalFile>)
    requires AllWellDrawn(files) && forall i | 0 <= i < |files| :: files[i].signed
    ensures var r := SelectionAfterUpload(prev, UploadResults(files), true);
            |r| == |prev| + |files| && r[..|prev|] == prev &&
            forall i | 0 <= i < |files| :: r[|prev| + i] == KeyFor(files[i])
  {
    var results := UploadResults(files);
    NonNullOfAllSome(results);
  }

  /** In multiple mode nothing selected before is lost, and every new
      entry is the key of a signed file. */
  lemma MultipleModeOnlyAddsUploadedKeys(prev: seq<string>, files: seq<LocalFile>)
    requires AllWellDrawn(files)
    ensures var r := SelectionAfterUpload(prev, UploadResults(files), true);
            r[..|prev|] == prev &&
            forall k | k in r[|prev|..] :: exists f | f in files :: f.signed && k == KeyFor(f)
  {
    var results := UploadResults(files);
    var r := SelectionAfterUpload(prev, results, true);
    assert r[|prev|..] == NonNull(results);
    forall k | k in r[|prev|..] ensures exists f | f in files :: f.signed && k == KeyFor(f) {
      var i :| 0 <= i < |results| && results[i] == Some(k);
      assert files[i] in files;
    }
  }

  /** Single mode always holds exactly one key: the first file's when it
      was signed, otherwise the empty key (also when no file was sent). */
  lemma SingleModeSelection(prev: seq<string>, files: seq<LocalFile>)
    requires AllWellDrawn(files)
    ensures var r := SelectionAfterUpload(prev, UploadResults(files), false);
            |r| == 1 &&
            (|files| > 0 && files[0].signed ==> r == [KeyFor(files[0])]) &&
            (files == [] || !files[0].signed ==> r == [""])
  {
  }

  /** Removing a key that was picked in multiple mode and not selected
      before gives back the selection as it was. */
  lemma RemoveUndoesPick(prev: seq<string>, key: string)
    requires key !in prev
    ensures Without(prev + [key], key) == prev
  {
    KeepAppend(prev, [key], NotKey(key));
    KeepAll(prev, NotKey(key));
  }

  class Picker {
    const multipleImages: bool
    var selectedFiles: seq<string>
    var files: seq<StoredObject>
    var loading: bool
    var currentPage: int
    var search: string

    /** The gallery never goes below its first page. */
    ghost predicate Valid()
      reads this
    {
      currentPage >= 1
    }

    constructor (multipleImages: bool, selectedFiles: seq<string>)
      ensures Valid()
      ensures this.multipleImages == multipleImages && this.selectedFiles == selectedFiles
      ensures files == [] && !loading && currentPage == 1 && search == ""
    {
      this.multipleImages := multipleImages;
      this.selectedFiles := selectedFiles;
      files := [];
      loading := false;
      currentPage := 1;
      search := "";
    }

    /** The images the gallery shows now. */
    function Page(): (r: seq<StoredObject>)
      reads this
      requires Valid()
      ensures |r| <= ImagesPerPage
      ensures forall o | o in r :: o in files && o.key.Some? && o.key.value !in selectedFiles
      ensures r == PageOf(files, selectedFiles, search, currentPage)
    {
      PageContents(files, selectedFiles, search, currentPage);
      PageOf(files, selectedFiles, search, currentPage)
    }

    /** The mount effect: a successful listing replaces the gallery's. */
    method FetchFiles(listing: Option<seq<StoredObject>>)
      modifies this
      ensures files == if listing.Some? then listing.value else old(files)
      ensures selectedFiles == old(selectedFiles) && loading == old(loading)
      ensures currentPage == old(currentPage) && search == old(search)
    {
      if listing.None? {
        return;
      }
      files := listing.value;
    }

    /** `fileChange`: upload every file under a fresh key, then refresh
        the listing. A rejected PUT ends the handler at once, with the
        spinner as it was; a failed listing leaves the lists alone. */
    method FileChange(uploads: seq<LocalFile>, listing: Option<seq<StoredObject>>)
      returns (results: Option<seq<Option<string>>>)
      requires Valid() && AllWellDrawn(uploads)
      modifies this
      ensures Valid()
      ensures results.Some? <==> PutsResolve(uploads)
      ensures results.None? ==>
                files == old(files) && selectedFiles == old(selectedFiles) && loading == old(loading)
      ensures results.Some? ==> results.value == UploadResults(uploads) && !loading
      ensures results.Some? && listing.None? ==> files == old(files) && selectedFiles == old(selectedFiles)
      ensures results.Some? && listing.Some? ==>
                files == listing.value &&
                selectedFiles == SelectionAfterUpload(old(selectedFiles), results.value, multipleImages)
      ensures currentPage == old(currentPage) && search == old(search)
    {
      results := UploadAll(uploads);
      if results.None? {
        return;
      }
      if listing.None? {
        loading := false;
        return;
      }
      files := listing.value;
      selectedFiles := SelectionAfterUpload(selectedFiles, results.value, multipleImages);
      loading := false;
    }

    /** `handleFile`: an empty pick returns early with the spinner still
        on and nothing uploaded (`Some([])`). */
    method HandleFile(picked: seq<LocalFile>, listing: Option<seq<StoredObject>>)
      returns (results: Option<seq<Option<string>>>)
      requires Valid() && AllWellDrawn(picked)
      modifies this
      ensures Valid()
      ensures picked == [] ==> loading && results == Some([]) && files == old(files) && selectedFiles == old(selectedFiles)
      ensures picked != [] ==> (results.Some? <==> PutsResolve(picked))
      ensures picked != [] && results.None? ==>
                loading && files == old(files) && selectedFiles == old(selectedFiles)
      ensures picked != [] && results.Some? ==> !loading && results.value == UploadResults(picked)
      ensures picked != [] && results.Some? && listing.None? ==>
                files == old(files) && selectedFiles == old(selectedFiles)
      ensures picked != [] && results.Some? && listing.Some? ==>
                files == listing.value &&
                selectedFiles == SelectionAfterUpload(old(selectedFiles), results.value, multipleImages)
      ensures currentPage == old(currentPage) && search == old(search)
    {
      loading := true;
      if |picked| == 0 {
        return Some([]);
      }
      results := FileChange(picked, listing);
    }

    /** `handleDrop`: unsupported files are reported and skipped, the rest
        are uploaded (possibly none, which still refreshes the selection). */
    method HandleDrop(dropped: seq<LocalFile>, listing: Option<seq<StoredObject>>)
      returns (rejected: seq<string>, results: Option<seq<Option<string>>>)
      requires Valid() && AllWellDrawn(dropped)
      modifies this
      ensures Valid()
      ensures rejected == RejectedNames(dropped)
      ensures AllWellDrawn(Accepted(dropped))
      ensures results.Some? <==> PutsResolve(Accepted(dropped))
      ensures results.None? ==> loading && files == old(files) && selectedFiles == old(selectedFiles)
      ensures results.Some? ==> !loading && results.value == UploadResults(Accepted(dropped))
      ensures results.Some? && listing.None? ==> files == old(files) && selectedFiles == old(selectedFiles)
      ensures results.Some? && listing.Some? ==>
                files == listing.value &&
                selectedFiles == SelectionAfterUpload(old(selectedFiles), results.value, multipleImages)
      ensures currentPage == old(currentPage) && search == old(search)
    {
      loading := true;
      var accepted;
      accepted, rejected := FilterDropped(dropped);
      AcceptedWellDrawn(dropped);
      results := FileChange(accepted, listing);
    }

    /** The "+" button of a gallery image. */
    method Pick(key: Option<string>)
      modifies this`selectedFiles
      ensures var k := if key.Some? then key.value else "";
              selectedFiles == if multipleImages then old(selectedFiles) + [k] else [k]
    {
      if multipleImages {
        selectedFiles := selectedFiles + [if key.Some? then key.value else ""];
      } else {
        selectedFiles := [if key.Some? then key.value else ""];
      }
    }

    /** The "x" button of a selected image: every occurrence goes. */
    method RemoveSelected(key: string)
      modifies this`selectedFiles
      ensures selectedFiles == Without(old(selectedFiles), key)
      ensures key !in selectedFiles
      ensures forall k | k != key :: multiset(selectedFiles)[k] == multiset(old(selectedFiles))[k]
    {
      selectedFiles := Without(selectedFiles, key);
    }

    /** The trash button: `onDelete` between two spinner updates. A
        missing or empty key, or a refused deletion, changes no list. */
    method Delete(key: Option<string>, deleted: bool)
      modifies this
      ensures var done := key.Some? && key.value != "" && deleted;
              (done ==> files == KeepOtherKeys(old(files), key.value) &&
                        selectedFiles == Without(old(selectedFiles), key.value)) &&
              (!done ==> files == old(files) && selectedFiles == old(selectedFiles))
      ensures key.Some? && key.value != "" && deleted ==>
                key.value !in selectedFiles && forall o | o in files :: o.key != key
      ensures !loading && currentPage == old(currentPage) && search == old(search)
    {
      loading := true;
      if key.None? || key.value == "" {
        loading := false;
        return;
      }
      if deleted {
        files := KeepOtherKeys(files, key.value);
        selectedFiles := Without(selectedFiles, key.value);
      }
      loading := false;
    }

    /** The search box; the page number is kept. */
    method SetSearch(text: string)
      modifies this`search
      ensures search == text
    {
      search := text;
    }

    /** "Précedent"; a click on the disabled button does nothing. */
    method PreviousPage()
      requires Valid()
      modifies this`currentPage
      ensures Valid()
      ensures currentPage == if PrevDisabled(old(currentPage)) then old(currentPage) else old(currentPage) - 1
    {
      if !PrevDisabled(currentPage) {
        currentPage := currentPage - 1;
      }
    }

    /** "Suivant"; a click on the disabled button does nothing. */
    method NextPage()
      requires Valid()
      modifies this`currentPage
      ensures Valid()
      ensures currentPage == if NextDisabled(old(currentPage), files, selectedFiles) then old(currentPage) else old(currentPage) + 1
    {
      if !NextDisabled(currentPage, files, selectedFiles) {
        currentPage := currentPage + 1;
      }
    }
  }
}
