/** `driveUploadFile`: how the generic uploader's completion and, when an
    index domain is configured, the index-link lookup become the arguments of
    the upload-complete callback. Strings follow JavaScript truthiness: the
    empty string stands for both `''` and `undefined`, and counts as "no error"
    or "no link". */
module Upload {

  /** What `fsWalk.uploadRecursive` hands its callback. */
  datatype UploaderResult = UploaderResult(err: string, url: string, isFolder: bool, fileId: string)

  /** How `driveDirectLink.getGDindexLink(up.fileId)` settles: the lookup is
      keyed by the uploaded file's id, and its outcome is given here. */
  datatype IndexLookup = IndexResolved(link: string) | IndexRejected(error: string)

  /** The arguments of the upload-complete callback: `(err, url, isFolder, indexLink?)`. */
  datatype UploadReport = UploadReport(err: string, url: string, isFolder: bool, indexLink: string)

  /** Lines 183-196: an uploader error passes straight through; otherwise, with
      an index domain configured, the index lookup decides, and a rejected
      lookup is handed on in the error position. */
  function DriveUploadFile(indexDomain: string, up: UploaderResult, lookup: IndexLookup): (r: UploadReport)
    ensures r.url == up.url && r.isFolder == up.isFolder
    ensures r.indexLink != "" ==> up.err == "" && indexDomain != "" && lookup == IndexResolved(r.indexLink)
    ensures r.err != "" <==>
              up.err != "" || (indexDomain != "" && lookup.IndexRejected? && lookup.error != "")
  {
    if up.err != "" then UploadReport(up.err, up.url, up.isFolder, "")
    else if indexDomain != "" then
      match lookup
      case IndexResolved(link) => UploadReport(up.err, up.url, up.isFolder, link)
      case IndexRejected(dlErr) => UploadReport(dlErr, up.url, up.isFolder, "")
    else UploadReport(up.err, up.url, up.isFolder, "")
  }

  /** The index lookup is consulted only after a clean upload with an index
      domain configured: otherwise its outcome makes no difference. */
  lemma IndexLookupOnlyAfterCleanUpload(indexDomain: string, up: UploaderResult, a: IndexLookup, b: IndexLookup)
    requires up.err != "" || indexDomain == ""
    ensures DriveUploadFile(indexDomain, up, a) == DriveUploadFile(indexDomain, up, b)
    ensures DriveUploadFile(indexDomain, up, a) == UploadReport(up.err, up.url, up.isFolder, "")
  {
  }

  /** After a clean upload with an index domain, a resolved link is passed on
      with no error, and a rejected lookup becomes the callback's error. */
  lemma IndexLookupDecides(indexDomain: string, up: UploaderResult, lookup: IndexLookup)
    requires up.err == "" && indexDomain != ""
    ensures lookup.IndexResolved? ==>
              DriveUploadFile(indexDomain, up, lookup) == UploadReport("", up.url, up.isFolder, lookup.link)
    ensures lookup.IndexRejected? ==>
              DriveUploadFile(indexDomain, up, lookup) == UploadReport(lookup.error, up.url, up.isFolder, "")
  {
  }
}
