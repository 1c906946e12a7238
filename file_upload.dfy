/** The upload form of the web client: it checks each chosen file (PDF only, under 10 MiB),
    keeps a list of chosen files with their verdicts, lets the user remove files by name, and
    posts the acceptable ones to the upload endpoint one request at a time.

    The component's React state is the class `FileUploadState`. The network is a parameter:
    `accepts(i)` says whether the i-th request of an upload succeeds or throws. */
module FileUpload {
  import opened Wrappers
  import opened Seqs

  /** A browser `File`: its name, its size in bytes and its MIME type. */
  datatype File = File(name: string, size: int, mimeType: string)

  /** A chosen file with its verdict: whether it is refused and, if so, why. */
  datatype Entry = Entry(file: File, message: Option<string>, isError: bool)

  /** 10 MiB: files of this size or more are refused. */
  const MaxSizeFileUpload: int := 10 * 1024 * 1024

  const PdfType: string := "application/pdf"
  const SizeMessage: string := "Maximum limit (10MB)."
  const TypeMessage: string := "Only PDFs are allowed."
  const NoFileMessage: string := "Please select a file before uploading."
  const UploadFailedMessage: string := "Upload failed. Please try again."

  predicate TooLarge(f: File)
  {
    f.size >= MaxSizeFileUpload
  }

  predicate NotPdf(f: File)
  {
    f.mimeType != PdfType
  }

  /** The verdict on a file, case by case: a file that is not a PDF is refused for its type,
      whatever its size; a PDF of 10 MiB or more is refused for its size; any other file is
      accepted with no message. */
  function Verdict(f: File): Entry
  {
    match (TooLarge(f), NotPdf(f))
    case (false, false) => Entry(f, None, false)
    case (true, false) => Entry(f, Some(SizeMessage), true)
    case (_, true) => Entry(f, Some(TypeMessage), true)
  }

  /** The verdicts on several files, in their order. */
  function Verdicts(files: seq<File>): (r: seq<Entry>)
    ensures |r| == |files|
    ensures forall i :: 0 <= i < |files| ==> r[i] == Verdict(files[i])
  {
    seq(|files|, i requires 0 <= i < |files| => Verdict(files[i]))
  }

  /** The check run on each file: the size test, then the type test, whose message replaces
      the size test's when both fail. */
  method ValidateFile(file: File) returns (entry: Entry)
    ensures entry == Verdict(file)
    ensures entry.isError <==> file.size >= 10 * 1024 * 1024 || file.mimeType != "application/pdf"
    ensures entry.message.None? <==> !entry.isError
    ensures file.mimeType != "application/pdf" ==> entry.message == Some("Only PDFs are allowed.")
    ensures file.mimeType == "application/pdf" && file.size >= 10 * 1024 * 1024 ==>
      entry.message == Some("Maximum limit (10MB).")
  {
    var message: Option<string> := None;
    var isError := false;
    if file.size >= MaxSizeFileUpload {
      message := Some(SizeMessage);
      isError := true;
    }
    if file.mimeType != PdfType {
      message := Some(TypeMessage);
      isError := true;
    }
    entry := Entry(file, message, isError);
  }

  /** The loop over the chosen files, collecting one entry per file. */
  method ValidateFiles(files: seq<File>) returns (fileUpload: seq<Entry>)
    ensures fileUpload == Verdicts(files)
  {
    fileUpload := [];
    for i := 0 to |files|
      invariant fileUpload == Verdicts(files[..i])
    {
      var entry := ValidateFile(files[i]);
      fileUpload := fileUpload + [entry];
    }
    assert files[..|files|] == files;
  }

  /** A file that passes both checks is a PDF under 10 MiB and shows no message. */
  lemma AcceptedFilesArePdfsUnderLimit(files: seq<File>)
    ensures forall e :: e in Filter(Verdicts(files), NotError()) ==>
      && e.file.mimeType == PdfType
      && e.file.size < MaxSizeFileUpload
      && e.message == None
      && e.file in files
  {
    FilterMembership(Verdicts(files), NotError());
    forall e | e in Filter(Verdicts(files), NotError())
      ensures e.file.mimeType == PdfType && e.file.size < MaxSizeFileUpload && e.message == None
      ensures e.file in files
    {
      var i :| 0 <= i < |files| && Verdicts(files)[i] == e;
      assert e == Verdict(files[i]);
    }
  }

  /** Every entry carries the verdict on its own file, as the entries made by choosing files
      do. */
  predicate AllChecked(entries: seq<Entry>)
  {
    forall e :: e in entries ==> e == Verdict(e.file)
  }

  /** Freshly chosen files carry their own verdicts. */
  lemma VerdictsChecked(files: seq<File>)
    ensures AllChecked(Verdicts(files))
  {
    forall e | e in Verdicts(files)
      ensures e == Verdict(e.file)
    {
      var i :| 0 <= i < |files| && Verdicts(files)[i] == e;
      assert e == Verdict(files[i]) && e.file == files[i];
    }
  }

  /** Of a list of checked entries, the files an upload sends are PDFs under 10 MiB. */
  lemma SentFilesAccepted(entries: seq<Entry>)
    requires AllChecked(entries)
    ensures forall f :: f in FilesOf(Filter(entries, NotError())) ==>
      f.mimeType == PdfType && f.size < MaxSizeFileUpload
  {
    var valid := Filter(entries, NotError());
    forall f | f in FilesOf(valid)
      ensures f.mimeType == PdfType && f.size < MaxSizeFileUpload
    {
      var i :| 0 <= i < |valid| && FilesOf(valid)[i] == f;
      assert valid[i] in valid && NotError()(valid[i]);
      assert valid[i] == Verdict(valid[i].file);
    }
  }

  /** The filter condition of an upload: entries not marked as errors. */
  function NotError(): Entry -> bool
  {
    (e: Entry) => !e.isError
  }

  /** The filter condition of a deletion: entries whose file has a name other than `name`. */
  function NameDiffers(name: string): Entry -> bool
  {
    (e: Entry) => e.file.name != name
  }

  /** The list after removing `name`: every entry with that name goes, all others stay, in
      their order. */
  function WithoutName(fileList: seq<Entry>, name: string): (r: seq<Entry>)
    ensures forall e :: e in r <==> e in fileList && e.file.name != name
  {
    FilterMembership(fileList, NameDiffers(name));
    Filter(fileList, NameDiffers(name))
  }

  /** Removing a name from a list made of two parts removes it from each part in place. */
  lemma WithoutNameAppend(a: seq<Entry>, b: seq<Entry>, name: string)
    ensures WithoutName(a + b, name) == WithoutName(a, name) + WithoutName(b, name)
  {
    FilterAppend(a, b, NameDiffers(name));
  }

  /** The files of some entries, in order. */
  function FilesOf(entries: seq<Entry>): (r: seq<File>)
    ensures |r| == |entries|
    ensures forall i :: 0 <= i < |entries| ==> r[i] == entries[i].file
  {
    seq(|entries|, i requires 0 <= i < |entries| => entries[i].file)
  }

  /** The form contents of the first `k` requests of an upload of `files`: the first request
      carries the first file, each later one the files of the one before plus the next. */
  function Cumulative(files: seq<File>, k: nat): (r: seq<seq<File>>)
    requires k <= |files|
    ensures |r| == k
    ensures forall j :: 0 <= j < k ==> r[j] == files[..j + 1]
  {
    seq(k, j requires 0 <= j < k => files[..j + 1])
  }

  /** Requests made of acceptable files, after any earlier requests, carry only PDFs under
      10 MiB. */
  lemma CumulativeAccepted(before: seq<seq<File>>, valid: seq<File>, sent: nat)
    requires sent <= |valid|
    requires forall f :: f in valid ==> f.mimeType == PdfType && f.size < MaxSizeFileUpload
    ensures var posts := before + Cumulative(valid, sent);
      forall k, f: File :: |before| <= k < |posts| && f in posts[k] ==>
        f.mimeType == PdfType && f.size < MaxSizeFileUpload
  {
    var posts := before + Cumulative(valid, sent);
    forall k, f: File | |before| <= k < |posts| && f in posts[k]
      ensures f.mimeType == PdfType && f.size < MaxSizeFileUpload
    {
      assert posts[k] == valid[..k - |before| + 1];
    }
  }

  /** The index of the first request from `i` on, among `n`, that `accepts` rejects, or `n`
      when it accepts them all. */
  function FirstRejected(accepts: nat -> bool, n: nat, i: nat): (r: nat)
    requires i <= n
    ensures i <= r <= n
    ensures forall j :: i <= j < r ==> accepts(j)
    ensures r < n ==> !accepts(r)
    decreases n - i
  {
    if i == n then n else if !accepts(i) then i else FirstRejected(accepts, n, i + 1)
  }

  /** The request loop of an upload: one request per file, on a single form that grows by one
      file each time, stopping after the first request that fails. It reports whether one
      failed; the requests sent are the first `stop + 1` forms, or all of them when none
      failed, where `stop` is the first rejected request. */
  method SendRequests(files: seq<File>, accepts: nat -> bool)
    returns (requests: seq<seq<File>>, failed: bool)
    ensures var stop := FirstRejected(accepts, |files|, 0);
      && failed == (stop < |files|)
      && requests == Cumulative(files, if failed then stop + 1 else |files|)
  {
    requests := [];
    var formData: seq<File> := [];
    var totalFile := |files|;
    var i := 0;
    failed := false;
    while i < totalFile && !failed
      invariant 0 <= i <= totalFile
      invariant FirstRejected(accepts, totalFile, 0) == FirstRejected(accepts, totalFile, i)
      invariant failed ==> i < totalFile && !accepts(i)
      invariant formData == files[..if failed then i + 1 else i]
      invariant requests == Cumulative(files, if failed then i + 1 else i)
      decreases totalFile - i, if failed then 0 else 1
    {
      formData := formData + [files[i]];
      assert formData == files[..i + 1];
      requests := requests + [formData];
      if accepts(i) {
        i := i + 1;
      } else {
        failed := true;
      }
    }
  }

  /** The state of the upload form. */
  class FileUploadState {
    /** The chosen files with their verdicts, in the order they were chosen. */
    var fileList: seq<Entry>
    /** The error shown under the upload button, if any. */
    var errorUpload: Option<string>
    var isUploading: bool
    /** The form contents of every request sent to the upload endpoint, oldest first. */
    var posts: seq<seq<File>>
    /** How many times the form has reported a finished upload to its parent. */
    var completions: nat

    /** The form's invariant: every listed entry carries the verdict on its own file. */
    predicate Valid()
      reads this
    {
      AllChecked(fileList)
    }

    constructor ()
      ensures fileList == [] && errorUpload == None && !isUploading
      ensures posts == [] && completions == 0
      ensures Valid()
    {
      fileList := [];
      errorUpload := None;
      isUploading := false;
      posts := [];
      completions := 0;
    }

    /** Choosing files appends one entry per file, in order, after the entries already there;
        it always answers `false`. */
    method UploadHandler(files: seq<File>) returns (r: bool)
      requires Valid()
      modifies this`fileList
      ensures Valid()
      ensures !r
      ensures fileList == old(fileList) + Verdicts(files)
    {
      var fileUpload := ValidateFiles(files);
      VerdictsChecked(files);
      fileList := fileList + fileUpload;
      r := false;
    }

    /** Deleting an entry removes every entry whose file has the same name. */
    method DeleteFile(fileObjectDelete: Entry)
      requires Valid()
      modifies this`fileList
      ensures Valid()
      ensures fileList == WithoutName(old(fileList), fileObjectDelete.file.name)
    {
      fileList := Filter(fileList, NameDiffers(fileObjectDelete.file.name));
    }

    /** Uploading: with no acceptable entry, an error and no request; otherwise one request per
        acceptable entry, in list order, on a single form that grows by one file each time, so
        that the i-th request carries the first i + 1 acceptable files. The first request that
        fails stops the upload and shows an error; when all succeed the parent is told. Every
        file sent is a PDF under 10 MiB. */
    method HandleUpload(accepts: nat -> bool)
      requires Valid()
      modifies this`errorUpload, this`isUploading, this`posts, this`completions
      ensures Valid()
      ensures forall k, f :: |old(posts)| <= k < |posts| && f in posts[k] ==>
        f.mimeType == PdfType && f.size < MaxSizeFileUpload
      ensures var valid := FilesOf(Filter(old(fileList), NotError()));
        if valid == [] then
          && errorUpload == Some(NoFileMessage)
          && posts == old(posts) && completions == old(completions) && isUploading == old(isUploading)
        else
          var stop := FirstRejected(accepts, |valid|, 0);
          && posts == old(posts) + Cumulative(valid, if stop < |valid| then stop + 1 else |valid|)
          && !isUploading
          && (if stop == |valid| then
                errorUpload == None && completions == old(completions) + 1
              else
                errorUpload == Some(UploadFailedMessage) && completions == old(completions))
    {
      errorUpload := None;
      var fileFilter := Filter(fileList, NotError());
      if |fileFilter| == 0 {
        errorUpload := Some(NoFileMessage);
        return;
      }
      isUploading := true;
      var requests, failed := SendRequests(FilesOf(fileFilter), accepts);
      posts := posts + requests;
      if failed {
        errorUpload := Some(UploadFailedMessage);
      } else {
        completions := completions + 1;
      }
      isUploading := false;
      ghost var stop := FirstRejected(accepts, |fileFilter|, 0);
      ghost var sent := if stop < |fileFilter| then stop + 1 else |fileFilter|;
      SentFilesAccepted(fileList);
      CumulativeAccepted(old(posts), FilesOf(fileFilter), sent);
    }
  }
}
