/** The recursive mirror walk of `downloadAllFiles`: list a Drive folder, fetch
    each file child into `folderPath + name`, recurse into each folder child
    under `folderPath + name + '/'`, and report `{message, status}`.

    Every remote effect is an outcome carried by the tree itself: a folder's
    listing either yields its children (in the provider's order) or throws,
    and a file's fetch either completes or fails. */
module Mirror {
  import opened Text

  /** The message the walk returns for a folder whose own listing is empty. */
  const NoFilesMessage := "No files found inside folder"

  datatype Node =
    | File(name: string, fetchOk: bool)
    | Folder(name: string, listing: Listing)

  /** What `driveListFiles` gives for one folder: its children, or the error it threw. */
  datatype Listing = Listed(children: seq<Node>) | ListFailed(error: string)

  /** One call of `downloadFile`: the local path written and whether it succeeded. */
  datatype Fetch = Fetch(path: string, ok: bool)

  /** The `{message, status}` object; `None` and `false` stand for `undefined`. */
  datatype WalkResult = WalkResult(message: Option<string>, status: bool)

  /** How one walk ends, with the fetches it made on the way, in order. */
  datatype Walked =
    | Returned(result: WalkResult, fetched: seq<Fetch>)
    | Threw(error: string, fetched: seq<Fetch>)

  predicate FailedFile(n: Node) {
    n.File? && !n.fetchOk
  }

  // Sizes used as termination measures.

  function NodeSize(n: Node): (size: nat)
    ensures size >= 1
  {
    match n
    case File(_, _) => 1
    case Folder(_, l) => 1 + ListingSize(l)
  }

  function ListingSize(l: Listing): (size: nat)
    ensures size >= 1
  {
    match l
    case ListFailed(_) => 1
    case Listed(cs) => 1 + ChildrenSize(cs)
  }

  function ChildrenSize(cs: seq<Node>): nat {
    if cs == [] then 0 else ChildrenSize(cs[..|cs| - 1]) + NodeSize(cs[|cs| - 1])
  }

  lemma {:induction false} ChildSmaller(cs: seq<Node>, i: nat)
    requires i < |cs|
    ensures NodeSize(cs[i]) <= ChildrenSize(cs)
  {
    if i < |cs| - 1 {
      ChildSmaller(cs[..|cs| - 1], i);
    }
  }

  /** The walk of one folder (lines 146-173). */
  function Walk(listing: Listing, folderPath: string): Walked
    decreases ListingSize(listing)
  {
    match listing
    case ListFailed(e) => Threw(e, [])
    case Listed(files) =>
      if |files| > 0 then WalkFiles(files, folderPath)
      else Returned(WalkResult(Some(NoFilesMessage), false), [])
  }

  /** The state of the loop of lines 153-168 once it has handled all of `files`. */
  function WalkFiles(files: seq<Node>, folderPath: string): Walked
    decreases ChildrenSize(files)
  {
    if files == [] then Returned(WalkResult(None, false), [])
    else
      var before := WalkFiles(files[..|files| - 1], folderPath);
      if before.Threw? then before
      else
        match files[|files| - 1]
        case File(name, ok) =>
          Returned(WalkResult(None, before.result.status || !ok),
                   before.fetched + [Fetch(folderPath + name, ok)])
        case Folder(name, sub) =>
          // the sub-folder's own {message, status} is dropped (line 156)
          assert ListingSize(sub) < ChildrenSize(files);
          var inner := Walk(sub, folderPath + name + "/");
          if inner.Threw? then Threw(inner.error, before.fetched + inner.fetched)
          else Returned(before.result, before.fetched + inner.fetched)
  }

  /** The walk as the source runs it: a loop over the listing that updates
      `errMsg` and `rmessage`, and awaits each recursive call in turn. */
  method DownloadAllFiles(listing: Listing, folderPath: string) returns (w: Walked)
    ensures w == Walk(listing, folderPath)
    decreases ListingSize(listing)
  {
    if listing.ListFailed? {
      return Threw(listing.error, []);
    }
    var files := listing.children;
    var errMsg := false;
    var rmessage: Option<string> := None;
    var fetched: seq<Fetch> := [];
    if |files| > 0 {
      for index := 0 to |files|
        invariant WalkFiles(files[..index], folderPath) == Returned(WalkResult(None, errMsg), fetched)
      {
        var file := files[index];
        assert files[..index + 1][..index] == files[..index];
        if file.Folder? {
          ChildSmaller(files, index);
          var inner := DownloadAllFiles(file.listing, folderPath + file.name + "/");
          if inner.Threw? {
            w := Threw(inner.error, fetched + inner.fetched);
            ThrowSticks(files, index + 1, folderPath);
            return;
          }
          fetched := fetched + inner.fetched;
        } else {
          var filePath := folderPath + file.name;
          if !file.fetchOk {
            errMsg := true;
          }
          fetched := fetched + [Fetch(filePath, file.fetchOk)];
        }
      }
      assert files[..|files|] == files;
    } else {
      rmessage := Some(NoFilesMessage);
    }
    w := Returned(WalkResult(rmessage, errMsg), fetched);
  }

  /** Once the loop has thrown, nothing after it runs: the walk of the whole
      listing ends exactly as the walk of that prefix did. */
  lemma {:induction false} ThrowSticks(files: seq<Node>, k: nat, folderPath: string)
    requires k <= |files|
    requires WalkFiles(files[..k], folderPath).Threw?
    ensures WalkFiles(files, folderPath) == WalkFiles(files[..k], folderPath)
  {
    if k == |files| {
      assert files[..k] == files;
    } else {
      var init := files[..|files| - 1];
      assert init[..k] == files[..k];
      ThrowSticks(init, k, folderPath);
    }
  }

  // ---------------------------------------------------------------------
  // What the walk reports

  /** The loop never sets a message, and its status says whether one of the
      files it handled directly failed; nothing from a sub-folder counts. */
  lemma {:induction false} WalkFilesReport(files: seq<Node>, folderPath: string)
    requires WalkFiles(files, folderPath).Returned?
    ensures WalkFiles(files, folderPath).result.message == None
    ensures WalkFiles(files, folderPath).result.status <==>
              exists i :: 0 <= i < |files| && FailedFile(files[i])
  {
    if files != [] {
      var init := files[..|files| - 1];
      WalkFilesReport(init, folderPath);
      if exists i :: 0 <= i < |init| && FailedFile(init[i]) {
        var i :| 0 <= i < |init| && FailedFile(init[i]);
        assert files[i] == init[i];
      }
      if exists i :: 0 <= i < |files| && FailedFile(files[i]) {
        var i :| 0 <= i < |files| && FailedFile(files[i]);
        if i < |init| {
          assert init[i] == files[i];
        }
      }
    }
  }

  /** A walk that returns reports "No files found inside folder" exactly when
      its own listing is empty, and a true status exactly when one of its
      direct file children failed to download. */
  lemma WalkReport(files: seq<Node>, folderPath: string)
    requires Walk(Listed(files), folderPath).Returned?
    ensures Walk(Listed(files), folderPath).result.message ==
              (if |files| == 0 then Some(NoFilesMessage) else None)
    ensures Walk(Listed(files), folderPath).result.status <==>
              exists i :: 0 <= i < |files| && FailedFile(files[i])
  {
    if |files| > 0 {
      WalkFilesReport(files, folderPath);
    }
  }

  /** An empty folder is reported, not failed, and nothing is fetched. */
  lemma EmptyFolderWalk(folderPath: string)
    ensures Walk(Listed([]), folderPath) == Returned(WalkResult(Some(NoFilesMessage), false), [])
  {
  }

  /** Results of nested walks are discarded: a failure one level down leaves
      the status false, and an empty sub-folder leaves the message unset. */
  lemma NestedOutcomesDiscarded(folderPath: string)
    ensures Walk(Listed([Folder("sub", Listed([File("a.txt", false)]))]), folderPath)
         == Returned(WalkResult(None, false), [Fetch(folderPath + "sub/a.txt", false)])
    ensures Walk(Listed([Folder("sub", Listed([]))]), folderPath).result
         == WalkResult(None, false)
  {
    var sub: seq<Node> := [File("a.txt", false)];
    var files := [Folder("sub", Listed(sub))];
    assert files[..0] == [] && sub[..0] == [];
    assert folderPath + "sub" + "/" + "a.txt" == folderPath + "sub/a.txt";
    var empty := [Folder("sub", Listed([]))];
    assert empty[..0] == [];
  }

  // ---------------------------------------------------------------------
  // What the walk fetches

  /** Every listing in the tree succeeds. */
  predicate AllListed(l: Listing) {
    match l
    case ListFailed(_) => false
    case Listed(cs) => forall i :: 0 <= i < |cs| ==> NodeListed(cs[i])
  }

  predicate NodeListed(n: Node) {
    match n
    case File(_, _) => true
    case Folder(_, l) => AllListed(l)
  }

  /** Every file reachable through successful listings, depth-first in listing
      order, with the local path it belongs at and its fetch outcome. */
  function Files(l: Listing, folderPath: string): seq<Fetch> {
    match l
    case ListFailed(_) => []
    case Listed(cs) => FilesIn(cs, folderPath)
  }

  function FilesIn(cs: seq<Node>, folderPath: string): seq<Fetch> {
    if cs == [] then [] else FilesOf(cs[0], folderPath) + FilesIn(cs[1..], folderPath)
  }

  function FilesOf(n: Node, folderPath: string): seq<Fetch> {
    match n
    case File(name, ok) => [Fetch(folderPath + name, ok)]
    case Folder(name, l) => Files(l, folderPath + name + "/")
  }

  /** The number of files in the tree, wherever they sit. */
  function FileCount(l: Listing): nat {
    match l
    case ListFailed(_) => 0
    case Listed(cs) => FileCountIn(cs)
  }

  function FileCountIn(cs: seq<Node>): nat {
    if cs == [] then 0
    else (match cs[0] case File(_, _) => 1 case Folder(_, l) => FileCount(l)) + FileCountIn(cs[1..])
  }

  lemma {:induction false} FilesInSnoc(cs: seq<Node>, folderPath: string)
    requires cs != []
    ensures FilesIn(cs, folderPath) == FilesIn(cs[..|cs| - 1], folderPath) + FilesOf(cs[|cs| - 1], folderPath)
  {
    if |cs| > 1 {
      var tail := cs[1..];
      FilesInSnoc(tail, folderPath);
      assert tail[..|tail| - 1] == cs[..|cs| - 1][1..];
    }
  }

  lemma AllListedSnoc(cs: seq<Node>)
    requires cs != []
    ensures AllListed(Listed(cs)) <==> AllListed(Listed(cs[..|cs| - 1])) && NodeListed(cs[|cs| - 1])
  {
  }

  /** The walk throws exactly when some listing in the tree fails; whatever
      happens it has fetched, in order, a prefix of the tree's files, and when
      it returns it has fetched every one of them exactly once. Failed file
      fetches never stop it. */
  lemma {:induction false} WalkFetchesFiles(l: Listing, folderPath: string)
    ensures Walk(l, folderPath).Returned? <==> AllListed(l)
    ensures Walk(l, folderPath).fetched <= Files(l, folderPath)
    ensures Walk(l, folderPath).Returned? ==> Walk(l, folderPath).fetched == Files(l, folderPath)
    decreases ListingSize(l), 1
  {
    match l
    case ListFailed(_) =>
    case Listed(files) =>
      if |files| > 0 {
        WalkFilesFetchesFiles(files, folderPath);
      }
  }

  lemma {:induction false} WalkFilesFetchesFiles(files: seq<Node>, folderPath: string)
    ensures WalkFiles(files, folderPath).Returned? <==> AllListed(Listed(files))
    ensures WalkFiles(files, folderPath).fetched <= FilesIn(files, folderPath)
    ensures WalkFiles(files, folderPath).Returned? ==> WalkFiles(files, folderPath).fetched == FilesIn(files, folderPath)
    decreases ChildrenSize(files), 0
  {
    if files != [] {
      var init := files[..|files| - 1];
      var last := files[|files| - 1];
      WalkFilesFetchesFiles(init, folderPath);
      FilesInSnoc(files, folderPath);
      AllListedSnoc(files);
      match last
      case File(_, _) =>
      case Folder(name, sub) =>
        assert ListingSize(sub) < ChildrenSize(files);
        WalkFetchesFiles(sub, folderPath + name + "/");
    }
  }

  /** Each file in the tree is fetched once: the walk of a fully listed tree
      makes exactly as many fetches as the tree has files. */
  lemma {:induction false} FilesCounted(l: Listing, folderPath: string)
    ensures |Files(l, folderPath)| == FileCount(l)
  {
    match l
    case ListFailed(_) =>
    case Listed(cs) => FilesInCounted(cs, folderPath);
  }

  lemma {:induction false} FilesInCounted(cs: seq<Node>, folderPath: string)
    ensures |FilesIn(cs, folderPath)| == FileCountIn(cs)
  {
    if cs != [] {
      match cs[0] {
        case File(_, _) =>
        case Folder(name, l) => FilesCounted(l, folderPath + name + "/");
      }
      FilesInCounted(cs[1..], folderPath);
    }
  }

  /** Every file lands under the folder path the walk started from. */
  lemma {:induction false} FilesUnderFolder(l: Listing, folderPath: string)
    ensures forall f :: f in Files(l, folderPath) ==> StartsWith(f.path, folderPath)
  {
    match l
    case ListFailed(_) =>
    case Listed(cs) => FilesInUnderFolder(cs, folderPath);
  }

  lemma {:induction false} FilesInUnderFolder(cs: seq<Node>, folderPath: string)
    ensures forall f :: f in FilesIn(cs, folderPath) ==> StartsWith(f.path, folderPath)
  {
    if cs != [] {
      match cs[0] {
        case File(name, _) =>
          assert (folderPath + name)[..|folderPath|] == folderPath;
        case Folder(name, sub) =>
          var subPath := folderPath + name + "/";
          FilesUnderFolder(sub, subPath);
          forall f | f in Files(sub, subPath) ensures StartsWith(f.path, folderPath) {
            assert f.path[..|subPath|] == subPath;
            assert subPath[..|folderPath|] == folderPath;
            assert f.path[..|folderPath|] == subPath[..|folderPath|];
          }
      }
      FilesInUnderFolder(cs[1..], folderPath);
    }
  }

  /** The walk's fetches all land under its folder path, and when it returns
      they are the tree's files in depth-first order, as many as the tree has:
      each file is fetched exactly once. */
  lemma WalkStaysUnderFolder(l: Listing, folderPath: string)
    ensures forall f :: f in Walk(l, folderPath).fetched ==> StartsWith(f.path, folderPath)
    ensures Walk(l, folderPath).Returned? ==> Walk(l, folderPath).fetched == Files(l, folderPath)
    ensures Walk(l, folderPath).Returned? ==> |Walk(l, folderPath).fetched| == FileCount(l)
  {
    WalkFetchesFiles(l, folderPath);
    FilesUnderFolder(l, folderPath);
    FilesCounted(l, folderPath);
    var w := Walk(l, folderPath).fetched;
    forall f | f in w ensures f in Files(l, folderPath) {
      var i :| 0 <= i < |w| && w[i] == f;
      assert Files(l, folderPath)[i] == f;
    }
  }
}
