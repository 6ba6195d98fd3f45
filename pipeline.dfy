/** The decisions of `driveDownloadAndTar`: check that the root is a folder,
    mirror it, refuse an empty root, archive, upload, and assemble the final
    message or the rejection. Every stage's effect is a given outcome; the
    result is how the job's promise settles together with the calls the job
    made on the way (fetches, the archive, the upload, the cleanup). */
module Pipeline {
  import opened Text
  import opened Mirror
  import opened Upload

  /** The configuration the job reads. Strings follow JavaScript truthiness:
      an empty `indexDomain` means no index domain is configured. */
  datatype Config = Config(downloadLocation: string, indexDomain: string, isTeamDrive: bool)

  /** The metadata request for the root: it fails with a message, or gives the
      root, a file or a folder with its tree. */
  datatype MetaLookup = MetaFailed(message: string) | Found(root: Node)

  /** What the archiver hands its callback: an error ("" for none) and the archive size. */
  datatype TarResult = TarResult(err: string, size: nat)

  /** The outcomes of every collaborator the job calls. */
  datatype Outcomes = Outcomes(meta: MetaLookup, tar: TarResult, upload: UploaderResult, index: IndexLookup)

  datatype Settlement = Reject(reason: string) | Resolve(message: string)

  /** A call `tar.archive(source, destName)`. */
  datatype ArchiveCall = ArchiveCall(source: string, destName: string)

  /** How one job ends: its settlement, the files it fetched, the archive call
      it made, the path it handed to the uploader (the status ticker runs from
      then on), and the download directory it deleted (the ticker is cleared
      at the same moment). */
  datatype Job = Job(
    settled: Settlement,
    fetched: seq<Fetch>,
    archived: Option<ArchiveCall>,
    uploaded: Option<string>,
    cleanedUp: Option<string>)

  const NotAFolderMessage := "Provide folder url"
  const MetadataHint := "\n\nEither it is not a Shareable Link or something went wrong while fetching files metadata"
  const ArchiveErrorPrefix := "Error while creating archive: "
  const TeamDriveNote := "\n\n<i>Folders in Shared Drives can only be shared with members of the drive. Mirror as an archive if you need public links.</i>"
  const DegradedNote := "\n\nNote: There might be somefiles which is not inside tar, because downloading failed."

  function UploadFailedMessage(destName: string, err: string): string {
    "Failed to upload <code>" + destName + "</code> to Drive. " + err
  }

  function SizedLink(url: string, destName: string, sizeText: string): string {
    "<b>GDrive Link</b>: <a href=\"" + url + "\">" + destName + "</a> (" + sizeText + ")"
  }

  function IndexLine(indexLink: string, destName: string): string {
    "\n\n<b>Do not share the GDrive Link. \n\nYou can share this link</b>: <a href=\"" + indexLink + "\">" + destName + "</a>"
  }

  function BareLink(url: string, destName: string): string {
    "<a href='" + url + "'>" + destName + "</a>"
  }

  /** Lines 112-120: the link part of a success message. */
  function LinkPart(cfg: Config, destName: string, size: nat, sizeText: string, report: UploadReport): string {
    if size != 0 then
      SizedLink(report.url, destName, sizeText)
        + (if report.indexLink != "" && cfg.indexDomain != "" then IndexLine(report.indexLink, destName) else "")
    else BareLink(report.url, destName)
  }

  /** Lines 112-126: the message of a successful job. */
  function SuccessMessage(cfg: Config, destName: string, size: nat, sizeText: string,
                          report: UploadReport, degraded: bool): string
  {
    var link := LinkPart(cfg, destName, size, sizeText, report);
    var noted := if cfg.isTeamDrive && report.isFolder then link + TeamDriveNote else link;
    if degraded then noted + DegradedNote else noted
  }

  /** Lines 44-143. `dlDir` is the fresh directory name the job draws, and
      `formatSize` the size formatter, both supplied from outside. */
  function DriveDownloadAndTar(cfg: Config, dlDir: string, o: Outcomes, formatSize: nat -> string): (job: Job)
    ensures job.cleanedUp.Some? <==> job.uploaded.Some?
    ensures job.cleanedUp.Some? ==> job.cleanedUp == Some(dlDir)
    ensures job.settled.Resolve? ==> job.cleanedUp == Some(dlDir)
    ensures job.uploaded.Some? ==> job.archived.Some? && job.uploaded == Some(job.archived.value.source + ".tar")
    ensures job.archived.Some? ==>
              o.meta.Found? && o.meta.root.Folder? && job.archived.value.destName == o.meta.root.name + ".tar"
  {
    match o.meta
    case MetaFailed(m) => Job(Reject(m + MetadataHint), [], None, None, None)
    case Found(File(_, _)) => Job(Reject(NotAFolderMessage), [], None, None, None)
    case Found(Folder(name, listing)) =>
      var folderPath := cfg.downloadLocation + "/" + dlDir + "/" + name + "/";
      var res := Walk(listing, folderPath);
      if res.Threw? then
        // the walk's rejection reaches the catch of lines 138-140
        Job(Reject(res.error + MetadataHint), res.fetched, None, None, None)
      else if res.result.message.Some? && Contains(res.result.message.value, "found") then
        Job(Reject(res.result.message.value), res.fetched, None, None, None)
      else
        var destName := name + ".tar";
        var realFilePath := cfg.downloadLocation + "/" + dlDir + "/" + name;
        var archive := Some(ArchiveCall(realFilePath, destName));
        if o.tar.err != "" then
          Job(Reject(ArchiveErrorPrefix + o.tar.err), res.fetched, archive, None, None)
        else
          var report := DriveUploadFile(cfg.indexDomain, o.upload, o.index);
          var settled :=
            if report.err != "" then Reject(UploadFailedMessage(destName, report.err))
            else Resolve(SuccessMessage(cfg, destName, o.tar.size, formatSize(o.tar.size), report, res.result.status));
          Job(settled, res.fetched, archive, Some(realFilePath + ".tar"), Some(dlDir))
  }

  // ---------------------------------------------------------------------
  // Reading a success message back

  /** Which optional parts a success message carries, and the link text left
      once the notes are peeled off. */
  datatype Shape = Shape(sized: bool, indexShared: bool, teamNote: bool, degradedNote: bool, link: string)

  /** Recovers the shape of a success message from its text alone, peeling
      the notes off its end and looking at how the link part begins and ends. */
  function ReadSuccess(msg: string): Shape {
    var degraded := EndsWith(msg, DegradedNote);
    var m1 := if degraded then msg[..|msg| - |DegradedNote|] else msg;
    var team := EndsWith(m1, TeamDriveNote);
    var m2 := if team then m1[..|m1| - |TeamDriveNote|] else m1;
    var sized := StartsWith(m2, "<b>");
    Shape(sized, sized && EndsWith(m2, "</a>"), team, degraded, m2)
  }

  lemma SizedLinkEnds(url: string, destName: string, sizeText: string)
    ensures StartsWith(SizedLink(url, destName, sizeText), "<b>")
    ensures SizedLink(url, destName, sizeText)[|SizedLink(url, destName, sizeText)| - 1] == ')'
  {
  }

  lemma IndexLineEnds(indexLink: string, destName: string)
    ensures EndsWith(IndexLine(indexLink, destName), "</a>")
  {
  }

  lemma BareLinkEnds(url: string, destName: string)
    ensures !StartsWith(BareLink(url, destName), "<b>")
    ensures EndsWith(BareLink(url, destName), "</a>")
  {
    var s := BareLink(url, destName);
    assert s[1] == 'a';
    AppendedSuffix(s[..|s| - 4], "</a>");
    assert s == s[..|s| - 4] + "</a>";
  }

  /** Text ending in "</a>" or ")" ends in neither note. */
  lemma NoNoteAfterLink(s: string)
    requires EndsWith(s, "</a>") || (|s| > 0 && s[|s| - 1] == ')')
    ensures !EndsWith(s, TeamDriveNote) && !EndsWith(s, DegradedNote)
  {
    if EndsWith(s, "</a>") {
      assert s[|s| - 4..][2] == s[|s| - 2];
      LastCharsRuleOutSuffix(s, TeamDriveNote, 1);
      assert s[|s| - 4..][3] == s[|s| - 1];
    } else {
      LastCharsRuleOutSuffix(s, TeamDriveNote, 0);
    }
    LastCharsRuleOutSuffix(s, DegradedNote, 0);
  }

  /** The link part of a success message: how it begins and how it ends. */
  lemma LinkPartEnds(cfg: Config, destName: string, size: nat, sizeText: string, report: UploadReport, link: string)
    requires link == LinkPart(cfg, destName, size, sizeText, report)
    ensures StartsWith(link, "<b>") <==> size != 0
    ensures StartsWith(link, "<b>") ==>
              (EndsWith(link, "</a>") <==> report.indexLink != "" && cfg.indexDomain != "")
    ensures !EndsWith(link, TeamDriveNote) && !EndsWith(link, DegradedNote)
  {
    if size != 0 {
      var sized := SizedLink(report.url, destName, sizeText);
      SizedLinkEnds(report.url, destName, sizeText);
      if report.indexLink != "" && cfg.indexDomain != "" {
        var line := IndexLine(report.indexLink, destName);
        assert link == sized + line;
        PrefixSurvivesAppend(sized, "<b>", line);
        IndexLineEnds(report.indexLink, destName);
        SuffixSurvivesPrepend(sized, line, "</a>");
      } else {
        assert link == sized;
        LastCharsRuleOutSuffix(link, "</a>", 0);
      }
    } else {
      BareLinkEnds(report.url, destName);
    }
    NoNoteAfterLink(link);
  }

  /** A success message says, in its own text, whether the archive has a
      size, whether the index link is shared, whether the shared-drive note
      applies and whether some files failed to download; peeling the notes
      off gives back its link part. */
  lemma SuccessMessageShape(cfg: Config, destName: string, size: nat, sizeText: string,
                            report: UploadReport, degraded: bool)
    ensures ReadSuccess(SuccessMessage(cfg, destName, size, sizeText, report, degraded))
         == Shape(size != 0,
                  size != 0 && report.indexLink != "" && cfg.indexDomain != "",
                  cfg.isTeamDrive && report.isFolder,
                  degraded,
                  LinkPart(cfg, destName, size, sizeText, report))
  {
    var link := LinkPart(cfg, destName, size, sizeText, report);
    LinkPartEnds(cfg, destName, size, sizeText, report, link);
    var team := cfg.isTeamDrive && report.isFolder;
    var noted := if team then link + TeamDriveNote else link;
    if team {
      AppendedSuffix(link, TeamDriveNote);
      assert noted[|noted| - 1] == '>';
      LastCharsRuleOutSuffix(noted, DegradedNote, 0);
    }
    var msg := if degraded then noted + DegradedNote else noted;
    assert msg == SuccessMessage(cfg, destName, size, sizeText, report, degraded);
    if degraded {
      AppendedSuffix(noted, DegradedNote);
    }
  }

  lemma SizedLinkMentions(url: string, destName: string, sizeText: string)
    ensures var s := SizedLink(url, destName, sizeText);
      Contains(s, url) && Contains(s, destName) && Contains(s, sizeText)
  {
    var p0 := "<b>GDrive Link</b>: <a href=\"";
    ContainsAppended(p0, url);
    ContainsExtended(p0 + url, "\">", url);
    ContainsExtended(p0 + url + "\">", destName, url);
    ContainsAppended(p0 + url + "\">", destName);
    var p3 := p0 + url + "\">" + destName;
    ContainsExtended(p3, "</a> (", url);
    ContainsExtended(p3, "</a> (", destName);
    ContainsExtended(p3 + "</a> (", sizeText, url);
    ContainsExtended(p3 + "</a> (", sizeText, destName);
    ContainsAppended(p3 + "</a> (", sizeText);
    var p5 := p3 + "</a> (" + sizeText;
    ContainsExtended(p5, ")", url);
    ContainsExtended(p5, ")", destName);
    ContainsExtended(p5, ")", sizeText);
  }

  lemma IndexLineMentions(indexLink: string, destName: string)
    ensures Contains(IndexLine(indexLink, destName), indexLink)
  {
    var p0 := "\n\n<b>Do not share the GDrive Link. \n\nYou can share this link</b>: <a href=\"";
    ContainsAppended(p0, indexLink);
    ContainsExtended(p0 + indexLink, "\">", indexLink);
    ContainsExtended(p0 + indexLink + "\">", destName, indexLink);
    ContainsExtended(p0 + indexLink + "\">" + destName, "</a>", indexLink);
  }

  lemma BareLinkMentions(url: string, destName: string)
    ensures Contains(BareLink(url, destName), url) && Contains(BareLink(url, destName), destName)
  {
    var p0 := "<a href='";
    ContainsAppended(p0, url);
    ContainsExtended(p0 + url, "'>", url);
    ContainsExtended(p0 + url + "'>", destName, url);
    ContainsAppended(p0 + url + "'>", destName);
    ContainsExtended(p0 + url + "'>" + destName, "</a>", url);
    ContainsExtended(p0 + url + "'>" + destName, "</a>", destName);
  }

  /** The link part names the uploaded archive and its Drive url, gives the
      formatted size when there is one, and the index link when it is shared. */
  lemma LinkPartMentions(cfg: Config, destName: string, size: nat, sizeText: string, report: UploadReport)
    ensures var link := LinkPart(cfg, destName, size, sizeText, report);
      && Contains(link, report.url) && Contains(link, destName)
      && (size != 0 ==> Contains(link, sizeText))
      && (size != 0 && report.indexLink != "" && cfg.indexDomain != "" ==> Contains(link, report.indexLink))
  {
    if size != 0 {
      var sized := SizedLink(report.url, destName, sizeText);
      var line := if report.indexLink != "" && cfg.indexDomain != "" then IndexLine(report.indexLink, destName) else "";
      SizedLinkMentions(report.url, destName, sizeText);
      ContainsExtended(sized, line, report.url);
      ContainsExtended(sized, line, destName);
      ContainsExtended(sized, line, sizeText);
      if report.indexLink != "" && cfg.indexDomain != "" {
        IndexLineMentions(report.indexLink, destName);
        ContainsPrepended(sized, line, report.indexLink);
      }
    } else {
      BareLinkMentions(report.url, destName);
    }
  }

  /** The notes only ever follow the link part, so a success message names
      the archive and its Drive url, and gives the formatted size when there
      is one. */
  lemma SuccessMessageMentions(cfg: Config, destName: string, size: nat, sizeText: string,
                               report: UploadReport, degraded: bool)
    ensures var msg := SuccessMessage(cfg, destName, size, sizeText, report, degraded);
      && Contains(msg, report.url) && Contains(msg, destName)
      && (size != 0 ==> Contains(msg, sizeText))
  {
    var link := LinkPart(cfg, destName, size, sizeText, report);
    LinkPartMentions(cfg, destName, size, sizeText, report);
    var team := cfg.isTeamDrive && report.isFolder;
    var noted := if team then link + TeamDriveNote else link;
    if team {
      ContainsExtended(link, TeamDriveNote, report.url);
      ContainsExtended(link, TeamDriveNote, destName);
      if size != 0 { ContainsExtended(link, TeamDriveNote, sizeText); }
    }
    if degraded {
      ContainsExtended(noted, DegradedNote, report.url);
      ContainsExtended(noted, DegradedNote, destName);
      if size != 0 { ContainsExtended(noted, DegradedNote, sizeText); }
    }
  }

  // ---------------------------------------------------------------------
  // How a job ends

  /** A root that is not a folder is refused before anything is listed. */
  lemma NotAFolderRejected(cfg: Config, dlDir: string, o: Outcomes, formatSize: nat -> string)
    requires o.meta.Found? && o.meta.root.File?
    ensures DriveDownloadAndTar(cfg, dlDir, o, formatSize) == Job(Reject(NotAFolderMessage), [], None, None, None)
  {
  }

  /** A failed root-metadata lookup rejects with the lookup's message and the
      metadata hint; nothing is fetched, archived, uploaded or cleaned up. */
  lemma MetadataFailureRejects(cfg: Config, dlDir: string, o: Outcomes, formatSize: nat -> string)
    requires o.meta.MetaFailed?
    ensures var job := DriveDownloadAndTar(cfg, dlDir, o, formatSize);
      && job == Job(Reject(o.meta.message + MetadataHint), [], None, None, None)
      && EndsWith(job.settled.reason, MetadataHint)
      && job.settled.reason[..|o.meta.message|] == o.meta.message
  {
    AppendedSuffix(o.meta.message, MetadataHint);
  }

  /** The walk's no-files message passes the `includes('found')` test. */
  lemma NoFilesMessageSaysFound()
    ensures Contains(NoFilesMessage, "found")
  {
    assert OccursAt(NoFilesMessage, "found", 9);
  }

  /** A root folder with nothing in it is refused with the walk's message;
      nothing is archived, uploaded or cleaned up. */
  lemma EmptyRootRejected(cfg: Config, dlDir: string, o: Outcomes, formatSize: nat -> string, name: string)
    requires o.meta == Found(Folder(name, Listed([])))
    ensures DriveDownloadAndTar(cfg, dlDir, o, formatSize) == Job(Reject(NoFilesMessage), [], None, None, None)
  {
    NoFilesMessageSaysFound();
  }

  /** A fully listed, non-empty root always reaches the archive stage, having
      fetched every file of the tree, failed or not, each into the archived
      directory. */
  lemma NonEmptyRootIsArchived(cfg: Config, dlDir: string, o: Outcomes, formatSize: nat -> string,
                               name: string, files: seq<Node>)
    requires o.meta == Found(Folder(name, Listed(files)))
    requires |files| > 0 && AllListed(Listed(files))
    ensures var job := DriveDownloadAndTar(cfg, dlDir, o, formatSize);
      && job.archived == Some(ArchiveCall(cfg.downloadLocation + "/" + dlDir + "/" + name, name + ".tar"))
      && job.fetched == Files(Listed(files), job.archived.value.source + "/")
      && forall f :: f in job.fetched ==> StartsWith(f.path, job.archived.value.source + "/")
  {
    var folderPath := cfg.downloadLocation + "/" + dlDir + "/" + name + "/";
    WalkFetchesFiles(Listed(files), folderPath);
    WalkReport(files, folderPath);
    FilesUnderFolder(Listed(files), folderPath);
  }

  /** A listing that fails anywhere in the tree fails the whole job through
      the metadata catch, after the fetches made before it; nothing is
      archived. */
  lemma ListingFailureRejects(cfg: Config, dlDir: string, o: Outcomes, formatSize: nat -> string,
                              name: string, listing: Listing)
    requires o.meta == Found(Folder(name, listing))
    requires !AllListed(listing)
    ensures var job := DriveDownloadAndTar(cfg, dlDir, o, formatSize);
      && job.settled.Reject? && EndsWith(job.settled.reason, MetadataHint)
      && job.fetched <= Files(listing, cfg.downloadLocation + "/" + dlDir + "/" + name + "/")
      && job.archived == None && job.uploaded == None && job.cleanedUp == None
  {
    var folderPath := cfg.downloadLocation + "/" + dlDir + "/" + name + "/";
    WalkFetchesFiles(listing, folderPath);
    AppendedSuffix(Walk(listing, folderPath).error, MetadataHint);
  }

  /** A failed archive rejects with the archiver's error; the upload never
      starts, and the downloaded files are not cleaned up. */
  lemma TarFailureRejects(cfg: Config, dlDir: string, o: Outcomes, formatSize: nat -> string,
                          name: string, files: seq<Node>)
    requires o.meta == Found(Folder(name, Listed(files)))
    requires |files| > 0 && AllListed(Listed(files))
    requires o.tar.err != ""
    ensures var job := DriveDownloadAndTar(cfg, dlDir, o, formatSize);
      && job.settled == Reject(ArchiveErrorPrefix + o.tar.err)
      && job.archived.Some? && job.uploaded == None && job.cleanedUp == None
  {
    NonEmptyRootIsArchived(cfg, dlDir, o, formatSize, name, files);
  }

  /** A failed upload, or a rejected index lookup after a clean upload with an
      index domain configured, rejects naming the archive; the ticker is
      cleared and the download directory deleted all the same. */
  lemma UploadFailureRejects(cfg: Config, dlDir: string, o: Outcomes, formatSize: nat -> string,
                             name: string, files: seq<Node>, err: string)
    requires o.meta == Found(Folder(name, Listed(files)))
    requires |files| > 0 && AllListed(Listed(files))
    requires o.tar.err == ""
    requires err != ""
    requires o.upload.err == err ||
             (o.upload.err == "" && cfg.indexDomain != "" && o.index == IndexRejected(err))
    ensures var job := DriveDownloadAndTar(cfg, dlDir, o, formatSize);
      && job.settled == Reject(UploadFailedMessage(name + ".tar", err))
      && job.uploaded == Some(cfg.downloadLocation + "/" + dlDir + "/" + name + ".tar")
      && job.cleanedUp == Some(dlDir)
  {
    NonEmptyRootIsArchived(cfg, dlDir, o, formatSize, name, files);
  }

  /** File fetch failures never fail the job: once archive and upload go
      through, it resolves, and its message carries the degraded-archive note
      exactly when one of the root's own files failed to download (failures
      deeper down go unreported), the shared-drive note exactly when the
      drive is a team drive and the upload is a folder, and the index link
      exactly when the archive has a size and a link came back with an index
      domain configured. */
  lemma CompletedJobMessage(cfg: Config, dlDir: string, o: Outcomes, formatSize: nat -> string,
                            name: string, files: seq<Node>)
    requires o.meta == Found(Folder(name, Listed(files)))
    requires |files| > 0 && AllListed(Listed(files))
    requires o.tar.err == ""
    requires DriveUploadFile(cfg.indexDomain, o.upload, o.index).err == ""
    ensures var job := DriveDownloadAndTar(cfg, dlDir, o, formatSize);
      var report := DriveUploadFile(cfg.indexDomain, o.upload, o.index);
      && job.settled.Resolve?
      && job.cleanedUp == Some(dlDir)
      && ReadSuccess(job.settled.message)
         == Shape(o.tar.size != 0,
                  o.tar.size != 0 && report.indexLink != "" && cfg.indexDomain != "",
                  cfg.isTeamDrive && o.upload.isFolder,
                  exists i :: 0 <= i < |files| && FailedFile(files[i]),
                  LinkPart(cfg, name + ".tar", o.tar.size, formatSize(o.tar.size), report))
      && Contains(job.settled.message, o.upload.url)
      && Contains(job.settled.message, name + ".tar")
      && (o.tar.size != 0 ==> Contains(job.settled.message, formatSize(o.tar.size)))
  {
    var folderPath := cfg.downloadLocation + "/" + dlDir + "/" + name + "/";
    WalkFetchesFiles(Listed(files), folderPath);
    WalkReport(files, folderPath);
    var report := DriveUploadFile(cfg.indexDomain, o.upload, o.index);
    var degraded := Walk(Listed(files), folderPath).result.status;
    SuccessMessageShape(cfg, name + ".tar", o.tar.size, formatSize(o.tar.size), report, degraded);
    SuccessMessageMentions(cfg, name + ".tar", o.tar.size, formatSize(o.tar.size), report, degraded);
  }
}
