/**
 * pkg/state/workspace.go and pkg/state/workspacemgr.go: a workspace records the digest of each
 * Terraform file of a directory; validating it recomputes the digests and reports every file
 * whose stored digest differs, plus a count mismatch. The manager holds the workspaces, adds one
 * per directory and validates them all.
 *
 * The listing extension and the digest key rule are the Layout parameter: AsWritten is the
 * source's pair, Intended the pair its tests and its lookups expect.
 */
module Workspaces {
  import opened Wrappers
  import opened FileSystem
  import TerraformFiles
  import opened Integrity

  datatype Layout = Layout(ext: string, rule: KeyRule)

  const AsWritten: Layout := Layout(TerraformFiles.ExtTerraform, ByBaseName)
  const Intended: Layout := Layout(TerraformFiles.IntendedExt, ByPath)

  datatype WorkspaceFile = WorkspaceFile(name: string, md5: string)

  datatype Workspace = Workspace(uuid: string, abspath: string, files: seq<WorkspaceFile>)

  /** Why the live digests of a directory could not be computed. */
  datatype DigestError =
    | ListingFailed(dir: string, listError: TerraformFiles.ListError)
    | HashingFailed(hashError: HashError)

  /** What md5ForTerraformFiles(dir) returns: the digests of the directory's Terraform files. */
  function LiveDigests(fs: Fs, cwd: string, dir: string, digest: seq<byte> -> Digest, layout: Layout)
    : (r: Result<map<string, Digest>, DigestError>)
    requires IsAbs(cwd)
    ensures r.Err? && r.error.ListingFailed? <==> Abs(cwd, dir) !in fs.dirs
  {
    var abs := Abs(cwd, dir);
    match TerraformFiles.TerraformFilesIn(fs, abs, layout.ext)
    case Err(e) => Err(ListingFailed(abs, e))
    case Ok(paths) =>
      match Md5s(fs, paths, digest, layout.rule)
      case Err(e) => Err(HashingFailed(e))
      case Ok(m) => Ok(m)
  }

  /** md5ForTerraformFiles: the absolute path, the listing, the digests; each error propagated. */
  method Md5ForTerraformFiles(fs: Fs, cwd: string, dir: string, digest: seq<byte> -> Digest, layout: Layout)
    returns (r: Result<map<string, Digest>, DigestError>)
    requires IsAbs(cwd)
    ensures r == LiveDigests(fs, cwd, dir, digest, layout)
  {
    var abs := Abs(cwd, dir);
    var paths := TerraformFiles.GetAllTerraformFilesInDirectory(fs, abs, layout.ext);
    if paths.Err? {
      return Err(ListingFailed(abs, paths.error));
    }
    var m := GenerateMd5ForFiles(fs, paths.value, digest, layout.rule);
    if m.Err? {
      return Err(HashingFailed(m.error));
    }
    return Ok(m.value);
  }

  /** One reported discrepancy. */
  datatype Mismatch =
    | Changed(name: string, stored: string, actual: string)
    | CountDiffers(expected: nat, found: nat)

  datatype ValidateError =
    | LiveDigestsFailed(abspath: string, cause: DigestError)
    | Mismatches(errs: seq<Mismatch>)

  /** A Go map read: the zero value "" for a missing key. */
  function Lookup(live: map<string, Digest>, key: string): string
  {
    if key in live then live[key] else ""
  }

  /** A stored file is flagged when the live digest under its joined path differs. */
  predicate Flagged(abspath: string, f: WorkspaceFile, live: map<string, Digest>)
  {
    Lookup(live, Join(abspath, f.name)) != f.md5
  }

  /** The per-file errors, in stored-file order. */
  function FileMismatches(abspath: string, files: seq<WorkspaceFile>, live: map<string, Digest>): seq<Mismatch>
  {
    if files == [] then []
    else
      var f := files[|files| - 1];
      FileMismatches(abspath, files[..|files| - 1], live)
        + (if Flagged(abspath, f, live) then [Changed(f.name, f.md5, Lookup(live, Join(abspath, f.name)))] else [])
  }

  /** All errors of one comparison: the per-file errors, then the count error. */
  function Comparison(ws: Workspace, live: map<string, Digest>): seq<Mismatch>
  {
    FileMismatches(ws.abspath, ws.files, live)
      + (if |ws.files| != |live| then [CountDiffers(|ws.files|, |live|)] else [])
  }

  /** What Workspace.Validate returns; None is Go's nil. */
  function Validation(fs: Fs, cwd: string, ws: Workspace, digest: seq<byte> -> Digest, layout: Layout)
    : Option<ValidateError>
    requires IsAbs(cwd)
  {
    match LiveDigests(fs, cwd, ws.abspath, digest, layout)
    case Err(e) => Some(LiveDigestsFailed(ws.abspath, e))
    case Ok(live) =>
      var errs := Comparison(ws, live);
      if errs == [] then None else Some(Mismatches(errs))
  }

  /** Workspace.Validate: recompute, then collect the errors file by file. */
  method ValidateWorkspace(fs: Fs, cwd: string, ws: Workspace, digest: seq<byte> -> Digest, layout: Layout)
    returns (err: Option<ValidateError>)
    requires IsAbs(cwd)
    ensures err == Validation(fs, cwd, ws, digest, layout)
  {
    var live := Md5ForTerraformFiles(fs, cwd, ws.abspath, digest, layout);
    if live.Err? {
      return Some(LiveDigestsFailed(ws.abspath, live.error));
    }
    var actual := live.value;
    var errs := CompareFiles(ws.abspath, ws.files, actual);
    if |ws.files| != |actual| {
      errs := errs + [CountDiffers(|ws.files|, |actual|)];
    }
    assert errs == Comparison(ws, actual);
    if errs == [] {
      return None;
    }
    return Some(Mismatches(errs));
  }

  /** The loop of Workspace.Validate over the stored files: look each one up under its joined
      path and record an error when the digests differ. */
  method CompareFiles(abspath: string, files: seq<WorkspaceFile>, actual: map<string, Digest>)
    returns (errs: seq<Mismatch>)
    ensures errs == FileMismatches(abspath, files, actual)
  {
    errs := [];
    for i := 0 to |files|
      invariant errs == FileMismatches(abspath, files[..i], actual)
    {
      assert files[..i + 1][..i] == files[..i];
      var key := Join(abspath, files[i].name);
      var found := if key in actual then actual[key] else "";
      if found != files[i].md5 {
        errs := errs + [Changed(files[i].name, files[i].md5, found)];
      }
    }
    assert files[..|files|] == files;
  }

  /** m is the error reported for the stored file f. */
  predicate Reported(abspath: string, f: WorkspaceFile, live: map<string, Digest>, m: Mismatch)
  {
    Flagged(abspath, f, live) && m == Changed(f.name, f.md5, Lookup(live, Join(abspath, f.name)))
  }

  /** A file's error is reported exactly when the file is flagged, with the digest it found. */
  lemma {:induction false} FileMismatchesMembers(abspath: string, files: seq<WorkspaceFile>, live: map<string, Digest>, m: Mismatch)
    ensures m in FileMismatches(abspath, files, live) <==>
            exists i :: 0 <= i < |files| && Reported(abspath, files[i], live, m)
    decreases |files|
  {
    if files != [] {
      FileMismatchesMembers(abspath, files[..|files| - 1], live, m);
      MembersStep(abspath, files, live, m);
      ReportedStep(abspath, files, live, m);
    }
  }

  /** The errors of a list are those of all but its last file, then the last one's. */
  lemma MembersStep(abspath: string, files: seq<WorkspaceFile>, live: map<string, Digest>, m: Mismatch)
    requires files != []
    ensures m in FileMismatches(abspath, files, live) <==>
            m in FileMismatches(abspath, files[..|files| - 1], live) || Reported(abspath, files[|files| - 1], live, m)
  {
  }

  /** Some file of a list reports m exactly when one before the last does or the last does. */
  lemma ReportedStep(abspath: string, files: seq<WorkspaceFile>, live: map<string, Digest>, m: Mismatch)
    requires files != []
    ensures var init := files[..|files| - 1];
            (exists i :: 0 <= i < |files| && Reported(abspath, files[i], live, m)) <==>
            (exists i :: 0 <= i < |init| && Reported(abspath, init[i], live, m)) || Reported(abspath, files[|files| - 1], live, m)
  {
    var init := files[..|files| - 1];
    assert forall i :: 0 <= i < |init| ==> init[i] == files[i];
  }

  /** No per-file error exactly when no file is flagged. */
  lemma {:induction false} FileMismatchesEmpty(abspath: string, files: seq<WorkspaceFile>, live: map<string, Digest>)
    ensures FileMismatches(abspath, files, live) == [] <==> forall i :: 0 <= i < |files| ==> !Flagged(abspath, files[i], live)
    decreases |files|
  {
    if files != [] {
      var init := files[..|files| - 1];
      var last := files[|files| - 1];
      FileMismatchesEmpty(abspath, init, live);
      LastFileStep(abspath, files, live);
      UnflaggedStep(abspath, files, live);
    }
  }

  /** The per-file errors of a list are those of all but its last file, then the last one's. */
  lemma LastFileStep(abspath: string, files: seq<WorkspaceFile>, live: map<string, Digest>)
    requires files != []
    ensures FileMismatches(abspath, files, live) == [] <==>
            FileMismatches(abspath, files[..|files| - 1], live) == [] && !Flagged(abspath, files[|files| - 1], live)
  {
  }

  /** No file of a list is flagged exactly when none but the last is and the last is not. */
  lemma UnflaggedStep(abspath: string, files: seq<WorkspaceFile>, live: map<string, Digest>)
    requires files != []
    ensures var init := files[..|files| - 1];
            (forall i :: 0 <= i < |files| ==> !Flagged(abspath, files[i], live)) <==>
            (forall i :: 0 <= i < |init| ==> !Flagged(abspath, init[i], live)) && !Flagged(abspath, files[|files| - 1], live)
  {
    var init := files[..|files| - 1];
    assert forall i :: 0 <= i < |init| ==> init[i] == files[i];
  }

  /** The count error is reported exactly when the counts differ, and it comes last. */
  lemma ComparisonCountLast(ws: Workspace, live: map<string, Digest>)
    ensures CountDiffers(|ws.files|, |live|) in Comparison(ws, live) <==> |ws.files| != |live|
    ensures |ws.files| != |live| ==> Comparison(ws, live)[|Comparison(ws, live)| - 1] == CountDiffers(|ws.files|, |live|)
  {
    var m := CountDiffers(|ws.files|, |live|);
    FileMismatchesMembers(ws.abspath, ws.files, live, m);
  }

  /** Validation passes exactly when the digests are computed, no stored file is flagged and
      the counts agree; a failure to compute them is reported before any comparison. */
  lemma ValidationPasses(fs: Fs, cwd: string, ws: Workspace, digest: seq<byte> -> Digest, layout: Layout)
    requires IsAbs(cwd)
    ensures var live := LiveDigests(fs, cwd, ws.abspath, digest, layout);
            Validation(fs, cwd, ws, digest, layout) == None <==>
              live.Ok? && |ws.files| == |live.value|
              && forall i :: 0 <= i < |ws.files| ==> !Flagged(ws.abspath, ws.files[i], live.value)
    ensures LiveDigests(fs, cwd, ws.abspath, digest, layout).Err? ==>
              Validation(fs, cwd, ws, digest, layout)
                == Some(LiveDigestsFailed(ws.abspath, LiveDigests(fs, cwd, ws.abspath, digest, layout).error))
  {
    var live := LiveDigests(fs, cwd, ws.abspath, digest, layout);
    if live.Ok? {
      FileMismatchesEmpty(ws.abspath, ws.files, live.value);
    }
  }

  datatype TerraformMetadata = TerraformMetadata(statePullCommand: string, stateFileName: string)

  const DefaultStatePullCommand: string := ""
  const DefaultStateFileName: string := "terraform.tfstate"

  /** Why AddWorkspace refused a directory. */
  datatype AddError =
    | WorkspaceStatFailed(abspath: string, statError: FileError)
    | NotADirectoryWorkspace(abspath: string)
    | DigestsFailed(digestError: DigestError)

  /** The digest map AddWorkspace records for path, or the reason it stops. */
  function AddOutcome(fs: Fs, cwd: string, path: string, digest: seq<byte> -> Digest, layout: Layout)
    : (r: Result<map<string, Digest>, AddError>)
    requires IsAbs(cwd)
    ensures r.Ok? <==> Abs(cwd, path) in fs.dirs && LiveDigests(fs, cwd, Abs(cwd, path), digest, layout).Ok?
    ensures r.Ok? ==> r.value == LiveDigests(fs, cwd, Abs(cwd, path), digest, layout).value
    ensures r.Err? && r.error.WorkspaceStatFailed? <==> Abs(cwd, path) !in fs.files && Abs(cwd, path) !in fs.dirs
    ensures r.Err? && r.error.NotADirectoryWorkspace? <==> Abs(cwd, path) in fs.files && Abs(cwd, path) !in fs.dirs
  {
    var abspath := Abs(cwd, path);
    match StatIsDir(fs, abspath)
    case Err(e) => Err(WorkspaceStatFailed(abspath, e))
    case Ok(isDir) =>
      if !isDir then Err(NotADirectoryWorkspace(abspath))
      else
        match LiveDigests(fs, cwd, abspath, digest, layout)
        case Err(e) => Err(DigestsFailed(e))
        case Ok(m) => Ok(m)
  }

  /** keys lists every key of m once. */
  ghost predicate Enumerates(keys: seq<string>, m: map<string, Digest>)
  {
    && |keys| == |m|
    && (forall k :: k in m <==> k in keys)
    && (forall i, j :: 0 <= i < j < |keys| ==> keys[i] != keys[j])
  }

  /** The recorded files, one per key in the order given. */
  function FilesFor(keys: seq<string>, m: map<string, Digest>): (files: seq<WorkspaceFile>)
    requires forall k :: k in keys ==> k in m
    ensures |files| == |keys|
  {
    seq(|keys|, i requires 0 <= i < |keys| => WorkspaceFile(Base(keys[i]), m[keys[i]]))
  }

  class WorkspaceMgr {
    var workspaces: seq<Workspace>
    var terraformMetadata: TerraformMetadata

    /** NewWorkspaceMgr: no workspaces and the default Terraform metadata. */
    constructor ()
      ensures workspaces == []
      ensures terraformMetadata == TerraformMetadata(DefaultStatePullCommand, DefaultStateFileName)
    {
      workspaces := [];
      terraformMetadata := TerraformMetadata(DefaultStatePullCommand, DefaultStateFileName);
    }

    /**
     * AddWorkspace(path), with the working directory, the digest and the fresh uuid as
     * parameters. On failure nothing changes. On success exactly one workspace is appended:
     * its absolute path, the uuid, and one file per digest-map entry in the map's iteration
     * order, which Go leaves unspecified.
     */
    method AddWorkspace(fs: Fs, cwd: string, path: string, digest: seq<byte> -> Digest, layout: Layout, uuid: string)
      returns (err: Option<AddError>)
      requires IsAbs(cwd) && uuid != ""
      modifies this
      ensures terraformMetadata == old(terraformMetadata)
      ensures var r := AddOutcome(fs, cwd, path, digest, layout);
              && (err.Some? <==> r.Err?)
              && (err.Some? ==> err.value == r.error && workspaces == old(workspaces))
              && (err.None? ==> exists keys :: Enumerates(keys, r.value)
                                   && workspaces == old(workspaces) + [Workspace(uuid, Abs(cwd, path), FilesFor(keys, r.value))])
    {
      var abspath := Abs(cwd, path);
      var stat := StatIsDir(fs, abspath);
      if stat.Err? {
        return Some(WorkspaceStatFailed(abspath, stat.error));
      }
      if !stat.value {
        return Some(NotADirectoryWorkspace(abspath));
      }
      var md5s := Md5ForTerraformFiles(fs, cwd, abspath, digest, layout);
      if md5s.Err? {
        return Some(DigestsFailed(md5s.error));
      }
      var m := md5s.value;
      var files := [];
      var remaining := m.Keys;
      ghost var keys: seq<string> := [];
      while remaining != {}
        invariant forall k :: k in keys ==> k in m && k !in remaining
        invariant forall k :: k in m ==> k in keys || k in remaining
        invariant remaining <= m.Keys
        invariant |keys| + |remaining| == |m|
        invariant forall i, j :: 0 <= i < j < |keys| ==> keys[i] != keys[j]
        invariant files == FilesFor(keys, m)
        decreases |remaining|
      {
        var k :| k in remaining;
        files := files + [WorkspaceFile(Base(k), m[k])];
        keys := keys + [k];
        remaining := remaining - {k};
      }
      workspaces := workspaces + [Workspace(uuid, abspath, files)];
      return None;
    }

    /** WorkspaceMgr.Validate: every workspace is validated, none is skipped, and each
        failure is reported under its workspace's uuid, in order. */
    method Validate(fs: Fs, cwd: string, digest: seq<byte> -> Digest, layout: Layout)
      returns (errs: seq<WorkspaceFailure>)
      requires IsAbs(cwd)
      ensures errs == Failures(fs, cwd, workspaces, digest, layout)
    {
      var wss := workspaces;
      errs := [];
      for i := 0 to |wss|
        invariant errs == Failures(fs, cwd, wss[..i], digest, layout)
      {
        FailuresStep(fs, cwd, wss, i, digest, layout);
        var err := ValidateWorkspace(fs, cwd, wss[i], digest, layout);
        if err.Some? {
          errs := errs + [WorkspaceFailed(wss[i].uuid, err.value)];
        }
      }
      assert wss[..|wss|] == wss;
    }
  }

  datatype WorkspaceFailure = WorkspaceFailed(uuid: string, cause: ValidateError)

  /** The failures of a list of workspaces, in order. */
  function Failures(fs: Fs, cwd: string, wss: seq<Workspace>, digest: seq<byte> -> Digest, layout: Layout)
    : seq<WorkspaceFailure>
    requires IsAbs(cwd)
  {
    if wss == [] then []
    else
      var ws := wss[|wss| - 1];
      Failures(fs, cwd, wss[..|wss| - 1], digest, layout)
        + match Validation(fs, cwd, ws, digest, layout)
          case None => []
          case Some(e) => [WorkspaceFailed(ws.uuid, e)]
  }

  /** One more workspace adds its own failure, if any, after the earlier ones. */
  lemma FailuresStep(fs: Fs, cwd: string, wss: seq<Workspace>, i: nat, digest: seq<byte> -> Digest, layout: Layout)
    requires IsAbs(cwd) && i < |wss|
    ensures var v := Validation(fs, cwd, wss[i], digest, layout);
            Failures(fs, cwd, wss[..i + 1], digest, layout)
              == Failures(fs, cwd, wss[..i], digest, layout) + (if v.Some? then [WorkspaceFailed(wss[i].uuid, v.value)] else [])
  {
    assert wss[..i + 1][..i] == wss[..i];
  }

  /** The manager reports nothing exactly when every workspace validates. */
  lemma {:induction false} FailuresEmpty(fs: Fs, cwd: string, wss: seq<Workspace>, digest: seq<byte> -> Digest, layout: Layout)
    requires IsAbs(cwd)
    ensures Failures(fs, cwd, wss, digest, layout) == [] <==>
            forall i :: 0 <= i < |wss| ==> Validation(fs, cwd, wss[i], digest, layout) == None
    decreases |wss|
  {
    if wss != [] {
      var init := wss[..|wss| - 1];
      FailuresEmpty(fs, cwd, init, digest, layout);
      LastWorkspaceStep(fs, cwd, wss, digest, layout);
      ValidatesStep(fs, cwd, wss, digest, layout);
    }
  }

  /** The failures of a list are those of all but its last workspace, then the last one's. */
  lemma LastWorkspaceStep(fs: Fs, cwd: string, wss: seq<Workspace>, digest: seq<byte> -> Digest, layout: Layout)
    requires IsAbs(cwd) && wss != []
    ensures Failures(fs, cwd, wss, digest, layout) == [] <==>
            Failures(fs, cwd, wss[..|wss| - 1], digest, layout) == []
            && Validation(fs, cwd, wss[|wss| - 1], digest, layout) == None
  {
  }

  /** Every workspace of a list validates exactly when all but the last do and the last does. */
  lemma ValidatesStep(fs: Fs, cwd: string, wss: seq<Workspace>, digest: seq<byte> -> Digest, layout: Layout)
    requires IsAbs(cwd) && wss != []
    ensures var init := wss[..|wss| - 1];
            (forall i :: 0 <= i < |wss| ==> Validation(fs, cwd, wss[i], digest, layout) == None) <==>
            (forall i :: 0 <= i < |init| ==> Validation(fs, cwd, init[i], digest, layout) == None)
            && Validation(fs, cwd, wss[|wss| - 1], digest, layout) == None
  {
    var init := wss[..|wss| - 1];
    assert forall i :: 0 <= i < |init| ==> init[i] == wss[i];
  }

  /** Each failing workspace is reported, under its uuid and with its own error. */
  lemma {:induction false} FailuresReportEach(fs: Fs, cwd: string, wss: seq<Workspace>, digest: seq<byte> -> Digest, layout: Layout, i: nat)
    requires IsAbs(cwd)
    requires i < |wss| && Validation(fs, cwd, wss[i], digest, layout).Some?
    ensures WorkspaceFailed(wss[i].uuid, Validation(fs, cwd, wss[i], digest, layout).value) in Failures(fs, cwd, wss, digest, layout)
    decreases |wss|
  {
    var init := wss[..|wss| - 1];
    if i < |init| {
      assert init[i] == wss[i];
      FailuresReportEach(fs, cwd, init, digest, layout, i);
    }
  }

  /** As written, the listing keeps nothing, so AddWorkspace records a workspace without files
      whatever the directory holds. */
  lemma AsWrittenRecordsNothing(fs: Fs, cwd: string, path: string, digest: seq<byte> -> Digest)
    requires IsAbs(cwd)
    requires AddOutcome(fs, cwd, path, digest, AsWritten).Ok?
    ensures AddOutcome(fs, cwd, path, digest, AsWritten).value == map[]
  {
    var abs := Abs(cwd, path);
    assert Abs(cwd, abs) == abs;
    TerraformFiles.NothingQualifiesAsWritten(fs, abs);
  }

  /** A joined path under an absolute directory is never a base-name key. */
  lemma JoinedIsNoBaseKey(abspath: string, name: string, paths: seq<string>)
    requires IsAbs(abspath) && name != ""
    ensures Join(abspath, name) !in KeysOf(paths, ByBaseName)
  {
    var j := Join(abspath, name);
    assert j[0] == '/' && |j| > 1;
    if j in KeysOf(paths, ByBaseName) {
      BaseKeysHaveNoSeparator(paths, j);
    }
  }

  /** With keys by base name, Validate looks every stored file up under its full path and
      misses: a stored file is flagged exactly when its stored digest is not empty. */
  lemma BaseKeysFlagEveryFile(fs: Fs, cwd: string, ws: Workspace, digest: seq<byte> -> Digest, ext: string)
    requires IsAbs(cwd) && IsAbs(ws.abspath)
    requires LiveDigests(fs, cwd, ws.abspath, digest, Layout(ext, ByBaseName)).Ok?
    ensures var live := LiveDigests(fs, cwd, ws.abspath, digest, Layout(ext, ByBaseName)).value;
            forall i :: 0 <= i < |ws.files| && ws.files[i].name != "" ==>
              (Flagged(ws.abspath, ws.files[i], live) <==> ws.files[i].md5 != "")
  {
    var paths := TerraformFiles.TerraformFilesIn(fs, Abs(cwd, ws.abspath), ext).value;
    Md5sKeys(fs, paths, digest, ByBaseName);
    forall i | 0 <= i < |ws.files| && ws.files[i].name != ""
      ensures Join(ws.abspath, ws.files[i].name) !in Md5s(fs, paths, digest, ByBaseName).value
    {
      JoinedIsNoBaseKey(ws.abspath, ws.files[i].name, paths);
    }
  }

  /** The same for a workspace AddWorkspace has just recorded, with the listing fixed: validating
      it against the unchanged directory flags every one of its files. */
  lemma BaseKeysFlagFreshWorkspace(fs: Fs, cwd: string, path: string, digest: seq<byte> -> Digest, uuid: string, keys: seq<string>)
    requires IsAbs(cwd)
    requires AddOutcome(fs, cwd, path, digest, Layout(TerraformFiles.IntendedExt, ByBaseName)).Ok?
    requires Enumerates(keys, AddOutcome(fs, cwd, path, digest, Layout(TerraformFiles.IntendedExt, ByBaseName)).value)
    requires keys != []
    ensures var m := AddOutcome(fs, cwd, path, digest, Layout(TerraformFiles.IntendedExt, ByBaseName)).value;
            var ws := Workspace(uuid, Abs(cwd, path), FilesFor(keys, m));
            var v := Validation(fs, cwd, ws, digest, Layout(TerraformFiles.IntendedExt, ByBaseName));
            v.Some? && v.value.Mismatches? && |v.value.errs| >= |keys|
  {
    var layout := Layout(TerraformFiles.IntendedExt, ByBaseName);
    var m := AddOutcome(fs, cwd, path, digest, layout).value;
    var ws := Workspace(uuid, Abs(cwd, path), FilesFor(keys, m));
    BaseKeysFlagEveryFile(fs, cwd, ws, digest, layout.ext);
    AllFlaggedReported(ws.abspath, ws.files, m);
  }

  /** When every stored file is flagged, each yields its own error. */
  lemma {:induction false} AllFlaggedReported(abspath: string, files: seq<WorkspaceFile>, live: map<string, Digest>)
    requires forall i :: 0 <= i < |files| ==> Flagged(abspath, files[i], live)
    ensures |FileMismatches(abspath, files, live)| == |files|
    decreases |files|
  {
    if files != [] {
      var init := files[..|files| - 1];
      assert forall i :: 0 <= i < |init| ==> init[i] == files[i];
      AllFlaggedReported(abspath, init, live);
    }
  }

  /** With the intended layout, a workspace AddWorkspace has just recorded validates cleanly
      against the unchanged directory: each file is found under its joined path with its
      recorded digest, and the counts agree. */
  lemma AddThenValidateIsClean(fs: Fs, cwd: string, path: string, digest: seq<byte> -> Digest, uuid: string, keys: seq<string>)
    requires IsAbs(cwd) && fs.Valid()
    requires AddOutcome(fs, cwd, path, digest, Intended).Ok?
    requires Enumerates(keys, AddOutcome(fs, cwd, path, digest, Intended).value)
    ensures var ws := Workspace(uuid, Abs(cwd, path), FilesFor(keys, AddOutcome(fs, cwd, path, digest, Intended).value));
            Validation(fs, cwd, ws, digest, Intended) == None
  {
    var m := AddOutcome(fs, cwd, path, digest, Intended).value;
    var abs := Abs(cwd, path);
    var ws := Workspace(uuid, abs, FilesFor(keys, m));
    assert Abs(cwd, abs) == abs;
    var es := fs.dirs[abs];
    var paths := TerraformFiles.TerraformFilesIn(fs, abs, TerraformFiles.IntendedExt).value;
    Md5sKeys(fs, paths, digest, ByPath);
    forall i | 0 <= i < |ws.files|
      ensures !Flagged(abs, ws.files[i], m)
    {
      var k := keys[i];
      PathKeysAreListed(paths, k);
      var j := TerraformFiles.SelectedFrom(abs, es, TerraformFiles.IntendedExt, k);
      assert es[j] in fs.dirs[abs];
      BaseOfJoin(abs, es[j].name);
    }
    ValidationPasses(fs, cwd, ws, digest, Intended);
  }

  /** With the intended layout, changing the bytes of one recorded file so that its digest
      changes makes validation report exactly that file, with the stored and the new digest,
      and no count error. */
  lemma DriftIsReported(fs: Fs, cwd: string, path: string, digest: seq<byte> -> Digest, uuid: string,
                        keys: seq<string>, p: string, content: seq<byte>)
    requires IsAbs(cwd) && fs.Valid()
    requires AddOutcome(fs, cwd, path, digest, Intended).Ok?
    requires Enumerates(keys, AddOutcome(fs, cwd, path, digest, Intended).value)
    requires p in AddOutcome(fs, cwd, path, digest, Intended).value
    requires digest(content) != AddOutcome(fs, cwd, path, digest, Intended).value[p]
    ensures var m := AddOutcome(fs, cwd, path, digest, Intended).value;
            var ws := Workspace(uuid, Abs(cwd, path), FilesFor(keys, m));
            Validation(fs.(files := fs.files[p := content]), cwd, ws, digest, Intended)
              == Some(Mismatches([Changed(Base(p), m[p], digest(content))]))
  {
    var m := AddOutcome(fs, cwd, path, digest, Intended).value;
    var abs := Abs(cwd, path);
    var ws := Workspace(uuid, abs, FilesFor(keys, m));
    var live := DigestsAfterWrite(fs, cwd, path, digest, p, content);
    RecordedUnderJoinedPaths(fs, cwd, path, digest, keys);
    OneChangedKey(ws, keys, m, p, digest(content));
  }

  /** Recorded files stored under their joined paths, compared with the recorded map in which
      one key's digest was replaced by a different one: that file is reported, and nothing else. */
  lemma OneChangedKey(ws: Workspace, keys: seq<string>, m: map<string, Digest>, p: string, d: Digest)
    requires Enumerates(keys, m) && p in m && d != m[p]
    requires ws.files == FilesFor(keys, m)
    requires forall i :: 0 <= i < |keys| ==> Join(ws.abspath, Base(keys[i])) == keys[i]
    ensures Comparison(ws, m[p := d]) == [Changed(Base(p), m[p], d)]
  {
    var live := m[p := d];
    var j :| 0 <= j < |keys| && keys[j] == p;
    FlaggedOnlyAt(ws, keys, m, j, d);
    OnlyOneFlagged(ws.abspath, ws.files, live, j);
    assert ws.files[j] == WorkspaceFile(Base(p), m[p]);
    assert Lookup(live, Join(ws.abspath, Base(p))) == d;
    assert |ws.files| == |live|;
    assert Comparison(ws, live) == FileMismatches(ws.abspath, ws.files, live);
  }

  /** After one recorded file is rewritten, the directory's live digests are the recorded ones
      with that file's entry replaced by the digest of its new bytes. */
  lemma DigestsAfterWrite(fs: Fs, cwd: string, path: string, digest: seq<byte> -> Digest, p: string, content: seq<byte>)
    returns (live: map<string, Digest>)
    requires IsAbs(cwd)
    requires AddOutcome(fs, cwd, path, digest, Intended).Ok?
    requires p in AddOutcome(fs, cwd, path, digest, Intended).value
    ensures live == AddOutcome(fs, cwd, path, digest, Intended).value[p := digest(content)]
    ensures LiveDigests(fs.(files := fs.files[p := content]), cwd, Abs(cwd, path), digest, Intended) == Ok(live)
  {
    var m := AddOutcome(fs, cwd, path, digest, Intended).value;
    var abs := Abs(cwd, path);
    var fs' := fs.(files := fs.files[p := content]);
    assert Abs(cwd, abs) == abs;
    var paths := TerraformFiles.TerraformFilesIn(fs, abs, TerraformFiles.IntendedExt).value;
    Md5sKeys(fs, paths, digest, ByPath);
    PathKeysAreListed(paths, p);
    assert p in fs.files;
    assert TerraformFiles.TerraformFilesIn(fs', abs, TerraformFiles.IntendedExt) == Ok(paths);
    Md5sAfterWrite(fs, paths, digest, p, content);
    live := m[p := digest(content)];
  }

  /** With the intended layout, each key AddWorkspace records is the joined path of the base
      name it stores. */
  lemma RecordedUnderJoinedPaths(fs: Fs, cwd: string, path: string, digest: seq<byte> -> Digest, keys: seq<string>)
    requires IsAbs(cwd) && fs.Valid()
    requires AddOutcome(fs, cwd, path, digest, Intended).Ok?
    requires forall k :: k in keys ==> k in AddOutcome(fs, cwd, path, digest, Intended).value
    ensures forall i :: 0 <= i < |keys| ==> Join(Abs(cwd, path), Base(keys[i])) == keys[i]
  {
    var abs := Abs(cwd, path);
    assert Abs(cwd, abs) == abs;
    var es := fs.dirs[abs];
    var paths := TerraformFiles.TerraformFilesIn(fs, abs, TerraformFiles.IntendedExt).value;
    Md5sKeys(fs, paths, digest, ByPath);
    forall i | 0 <= i < |keys|
      ensures Join(abs, Base(keys[i])) == keys[i]
    {
      var k := keys[i];
      PathKeysAreListed(paths, k);
      var e := TerraformFiles.SelectedFrom(abs, es, TerraformFiles.IntendedExt, k);
      assert es[e] in fs.dirs[abs];
      BaseOfJoin(abs, es[e].name);
    }
  }

  /** Only the file of the changed key is flagged. */
  lemma FlaggedOnlyAt(ws: Workspace, keys: seq<string>, m: map<string, Digest>, j: nat, d: Digest)
    requires Enumerates(keys, m) && j < |keys| && d != m[keys[j]]
    requires ws.files == FilesFor(keys, m)
    requires forall i :: 0 <= i < |keys| ==> Join(ws.abspath, Base(keys[i])) == keys[i]
    ensures forall i :: 0 <= i < |ws.files| ==> (Flagged(ws.abspath, ws.files[i], m[keys[j] := d]) <==> i == j)
  {
    var live := m[keys[j] := d];
    forall i | 0 <= i < |ws.files|
      ensures Flagged(ws.abspath, ws.files[i], live) <==> i == j
    {
      var k := keys[i];
      assert ws.files[i] == WorkspaceFile(Base(k), m[k]);
      assert Lookup(live, Join(ws.abspath, Base(k))) == live[k];
      assert i != j ==> k != keys[j];
    }
  }

  /** When exactly one stored file is flagged, the per-file errors are that file's alone. */
  lemma {:induction false} OnlyOneFlagged(abspath: string, files: seq<WorkspaceFile>, live: map<string, Digest>, j: nat)
    requires j < |files|
    requires forall i :: 0 <= i < |files| ==> (Flagged(abspath, files[i], live) <==> i == j)
    ensures FileMismatches(abspath, files, live)
              == [Changed(files[j].name, files[j].md5, Lookup(live, Join(abspath, files[j].name)))]
    decreases |files|
  {
    var init := files[..|files| - 1];
    assert forall i :: 0 <= i < |init| ==> init[i] == files[i];
    if j == |files| - 1 {
      FileMismatchesEmpty(abspath, init, live);
    } else {
      OnlyOneFlagged(abspath, init, live, j);
    }
  }
}
