/**
 * pkg/file/dirinfo.go: GetAllTerraformFilesInDirectory lists the Terraform files of a
 * directory, in listing order, as paths joined to the directory. The extension it compares
 * against is a parameter: ExtTerraform is the constant the source compares with, and
 * IntendedExt is what filepath.Ext returns for a Terraform file.
 */
module TerraformFiles {
  import opened Wrappers
  import opened FileSystem

  /** EXT_TERRAFORM as declared. */
  const ExtTerraform: string := "tf"

  /** The extension filepath.Ext reports for "main.tf". */
  const IntendedExt: string := ".tf"

  /** filepath.Ext: the suffix from the last dot of the last path element, or "" when that
      element has no dot. */
  function Ext(path: string): (e: string)
    ensures e == "" || (e[0] == '.' && '/' !in e)
    ensures |e| <= |path| && e == path[|path| - |e|..]
    decreases |path|
  {
    if path == [] || path[|path| - 1] == '/' then ""
    else if path[|path| - 1] == '.' then "."
    else
      var e := Ext(path[..|path| - 1]);
      if e == "" then "" else e + [path[|path| - 1]]
  }

  /** Why the listing failed. */
  datatype ListError =
    | StatFailed(dir: string, cause: FileError)
    | NotDirectory(dir: string)

  /** The entries the function keeps: regular files with the given extension. */
  predicate Qualifies(e: DirEntry, ext: string)
  {
    e.regular && Ext(e.name) == ext
  }

  /** The kept entries of a listing, in listing order, joined to the directory. */
  function Selected(dir: string, entries: seq<DirEntry>, ext: string): seq<string>
  {
    if entries == [] then []
    else
      var last := entries[|entries| - 1];
      Selected(dir, entries[..|entries| - 1], ext) + (if Qualifies(last, ext) then [Join(dir, last.name)] else [])
  }

  /** What GetAllTerraformFilesInDirectory(dir) returns. */
  function TerraformFilesIn(fs: Fs, dir: string, ext: string): (r: Result<seq<string>, ListError>)
    ensures r.Err? <==> dir !in fs.dirs
    ensures r == Err(NotDirectory(dir)) <==> dir in fs.files && dir !in fs.dirs
  {
    match StatIsDir(fs, dir)
    case Err(e) => Err(StatFailed(dir, e))
    case Ok(isDir) =>
      if !isDir then Err(NotDirectory(dir))
      else Ok(Selected(dir, fs.dirs[dir], ext))
  }

  /** The stat, the listing and the filtering loop. */
  method GetAllTerraformFilesInDirectory(fs: Fs, dir: string, ext: string)
    returns (r: Result<seq<string>, ListError>)
    ensures r == TerraformFilesIn(fs, dir, ext)
  {
    var stat := StatIsDir(fs, dir);
    if stat.Err? {
      return Err(StatFailed(dir, stat.error));
    }
    if !stat.value {
      return Err(NotDirectory(dir));
    }
    var entries := ReadDir(fs, dir).value;
    var ret := [];
    for i := 0 to |entries|
      invariant ret == Selected(dir, entries[..i], ext)
    {
      assert entries[..i + 1][..i] == entries[..i];
      if entries[i].regular && Ext(entries[i].name) == ext {
        ret := ret + [Join(dir, entries[i].name)];
      }
    }
    assert entries[..|entries|] == entries;
    return Ok(ret);
  }

  /** Each listed path comes from a kept entry. */
  lemma {:induction false} SelectedFrom(dir: string, entries: seq<DirEntry>, ext: string, p: string)
    returns (i: nat)
    requires p in Selected(dir, entries, ext)
    ensures i < |entries| && Qualifies(entries[i], ext) && p == Join(dir, entries[i].name)
    decreases |entries|
  {
    var init := entries[..|entries| - 1];
    if p in Selected(dir, init, ext) {
      i := SelectedFrom(dir, init, ext, p);
      assert entries[i] == init[i];
    } else {
      i := |entries| - 1;
    }
  }

  /** Each kept entry is listed. */
  lemma {:induction false} SelectedKeeps(dir: string, entries: seq<DirEntry>, ext: string, i: nat)
    requires i < |entries| && Qualifies(entries[i], ext)
    ensures Join(dir, entries[i].name) in Selected(dir, entries, ext)
    decreases |entries|
  {
    var init := entries[..|entries| - 1];
    if i < |init| {
      assert init[i] == entries[i];
      SelectedKeeps(dir, init, ext, i);
    }
  }

  /** A path is listed exactly when a kept entry joins to it. */
  lemma SelectedMembers(dir: string, entries: seq<DirEntry>, ext: string, p: string)
    ensures p in Selected(dir, entries, ext) <==>
            exists i :: 0 <= i < |entries| && Qualifies(entries[i], ext) && p == Join(dir, entries[i].name)
  {
    if p in Selected(dir, entries, ext) {
      var i := SelectedFrom(dir, entries, ext, p);
    }
    if exists i :: 0 <= i < |entries| && Qualifies(entries[i], ext) && p == Join(dir, entries[i].name) {
      var i :| 0 <= i < |entries| && Qualifies(entries[i], ext) && p == Join(dir, entries[i].name);
      SelectedKeeps(dir, entries, ext, i);
    }
  }

  /** In a consistent file system every listed path is a regular file. */
  lemma ListedPathsAreFiles(fs: Fs, dir: string, ext: string)
    requires fs.Valid()
    requires TerraformFilesIn(fs, dir, ext).Ok?
    ensures forall p :: p in TerraformFilesIn(fs, dir, ext).value ==> p in fs.files
  {
    forall p | p in TerraformFilesIn(fs, dir, ext).value
      ensures p in fs.files
    {
      var i := SelectedFrom(dir, fs.dirs[dir], ext, p);
      assert fs.dirs[dir][i] in fs.dirs[dir];
    }
  }

  /** No entry has the extension "tf": filepath.Ext keeps the dot. */
  lemma {:induction false} NoneQualifyAsWritten(dir: string, entries: seq<DirEntry>)
    ensures Selected(dir, entries, ExtTerraform) == []
    decreases |entries|
  {
    if entries != [] {
      var last := entries[|entries| - 1];
      var e := Ext(last.name);
      assert e != ExtTerraform by {
        if e != "" { assert e[0] == '.' && ExtTerraform[0] == 't'; }
      }
      NoneQualifyAsWritten(dir, entries[..|entries| - 1]);
    }
  }

  /** As written, every successful listing is empty. */
  lemma NothingQualifiesAsWritten(fs: Fs, dir: string)
    requires dir in fs.dirs
    ensures TerraformFilesIn(fs, dir, ExtTerraform) == Ok([])
  {
    NoneQualifyAsWritten(dir, fs.dirs[dir]);
  }

  /** filepath.Ext of a dot-free stem followed by ".tf". */
  lemma {:induction false} ExtOfTf(stem: string)
    requires '.' !in stem && '/' !in stem
    ensures Ext(stem + IntendedExt) == IntendedExt
  {
    var n := stem + IntendedExt;
    assert n[..|n| - 1] == stem + ".t";
    assert (stem + ".t")[..|stem| + 1] == stem + ".";
    assert Ext(stem + ".") == ".";
  }

  /** With the intended extension, every regular "STEM.tf" entry is listed under its joined path,
      as the unit tests expect for main.tf, data.tf and backend.tf. */
  lemma IntendedListsTerraformFiles(fs: Fs, dir: string, stem: string)
    requires dir in fs.dirs && '.' !in stem && '/' !in stem
    requires DirEntry(stem + IntendedExt, true) in fs.dirs[dir]
    ensures Join(dir, stem + IntendedExt) in TerraformFilesIn(fs, dir, IntendedExt).value
  {
    ExtOfTf(stem);
    var es := fs.dirs[dir];
    var i :| 0 <= i < |es| && es[i] == DirEntry(stem + IntendedExt, true);
    SelectedKeeps(dir, es, IntendedExt, i);
  }
}
