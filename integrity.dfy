/**
 * pkg/file/integrity.go: GenerateMd5ForFiles maps each listed path to the hex MD5 sum of the
 * file's content, failing on the first path that is missing or a directory. The digest is a
 * parameter; the key rule is one too: ByBaseName is the source's filepath.Base key, ByPath
 * the full path its unit test and its callers expect.
 */
module Integrity {
  import opened Wrappers
  import opened FileSystem

  /** A hex-encoded MD5 sum: 32 characters, never empty. */
  type Digest = s: string | |s| == 32 witness seq(32, _ => '0')

  datatype KeyRule = ByBaseName | ByPath

  function Key(path: string, rule: KeyRule): string
  {
    match rule
    case ByBaseName => Base(path)
    case ByPath => path
  }

  datatype HashError =
    | StatFailed(path: string, cause: FileError)
    | IsDirectory(path: string)

  /** A path the loop cannot hash. */
  predicate Fails(fs: Fs, path: string)
  {
    path in fs.dirs || path !in fs.files
  }

  /** One iteration: stat, refuse a directory, hash the content. */
  function HashOne(fs: Fs, path: string, digest: seq<byte> -> Digest): (r: Result<Digest, HashError>)
    ensures r.Err? <==> Fails(fs, path)
    ensures r.Err? ==> r.error.path == path
    ensures r.Ok? ==> r.value == digest(fs.files[path])
  {
    match StatIsDir(fs, path)
    case Err(e) => Err(StatFailed(path, e))
    case Ok(isDir) => if isDir then Err(IsDirectory(path)) else Ok(digest(fs.files[path]))
  }

  /** What GenerateMd5ForFiles(paths) returns: the map built by the loop, or the first error. */
  function Md5s(fs: Fs, paths: seq<string>, digest: seq<byte> -> Digest, rule: KeyRule): Result<map<string, Digest>, HashError>
    decreases |paths|
  {
    if paths == [] then Ok(map[])
    else
      var p := paths[|paths| - 1];
      match Md5s(fs, paths[..|paths| - 1], digest, rule)
      case Err(e) => Err(e)
      case Ok(m) =>
        match HashOne(fs, p, digest)
        case Err(e) => Err(e)
        case Ok(d) => Ok(m[Key(p, rule) := d])
  }

  /** The loop over paths, inserting into ret. */
  method GenerateMd5ForFiles(fs: Fs, paths: seq<string>, digest: seq<byte> -> Digest, rule: KeyRule)
    returns (r: Result<map<string, Digest>, HashError>)
    ensures r == Md5s(fs, paths, digest, rule)
  {
    var ret := map[];
    for i := 0 to |paths|
      invariant Md5s(fs, paths[..i], digest, rule) == Ok(ret)
    {
      assert paths[..i + 1][..i] == paths[..i];
      var stat := StatIsDir(fs, paths[i]);
      if stat.Err? {
        FailureSticks(fs, paths, digest, rule, i + 1);
        return Err(StatFailed(paths[i], stat.error));
      }
      if stat.value {
        FailureSticks(fs, paths, digest, rule, i + 1);
        return Err(IsDirectory(paths[i]));
      }
      var content := ReadFile(fs, paths[i]).value;
      ret := ret[Key(paths[i], rule) := digest(content)];
    }
    assert paths[..|paths|] == paths;
    return Ok(ret);
  }

  /** Once a prefix fails, every longer prefix fails with the same error. */
  lemma {:induction false} FailureSticks(fs: Fs, paths: seq<string>, digest: seq<byte> -> Digest, rule: KeyRule, n: nat)
    requires n <= |paths| && Md5s(fs, paths[..n], digest, rule).Err?
    ensures Md5s(fs, paths, digest, rule) == Md5s(fs, paths[..n], digest, rule)
    decreases |paths| - n
  {
    if n < |paths| {
      assert paths[..n + 1][..n] == paths[..n];
      FailureSticks(fs, paths, digest, rule, n + 1);
    } else {
      assert paths[..n] == paths;
    }
  }

  /** One more path: an earlier failure stands; otherwise the last path fails or adds its key. */
  lemma Md5sStep(fs: Fs, paths: seq<string>, digest: seq<byte> -> Digest, rule: KeyRule)
    requires paths != []
    ensures var init := Md5s(fs, paths[..|paths| - 1], digest, rule);
            var p := paths[|paths| - 1];
            && (init.Err? ==> Md5s(fs, paths, digest, rule) == init)
            && (init.Ok? && Fails(fs, p) ==> Md5s(fs, paths, digest, rule) == Err(HashOne(fs, p, digest).error))
            && (init.Ok? && !Fails(fs, p) ==>
                  Md5s(fs, paths, digest, rule) == Ok(init.value[Key(p, rule) := digest(fs.files[p])]))
  {
  }

  /** On success no listed path failed. */
  lemma {:induction false} NoneFailed(fs: Fs, paths: seq<string>, digest: seq<byte> -> Digest, rule: KeyRule)
    requires Md5s(fs, paths, digest, rule).Ok?
    ensures forall i :: 0 <= i < |paths| ==> !Fails(fs, paths[i])
    decreases |paths|
  {
    if paths != [] {
      var init := paths[..|paths| - 1];
      Md5sStep(fs, paths, digest, rule);
      NoneFailed(fs, init, digest, rule);
      assert forall i :: 0 <= i < |init| ==> paths[i] == init[i];
    }
  }

  /** On failure, the first path that cannot be hashed and whose error is returned. */
  lemma {:induction false} FirstFailure(fs: Fs, paths: seq<string>, digest: seq<byte> -> Digest, rule: KeyRule)
    returns (j: nat)
    requires Md5s(fs, paths, digest, rule).Err?
    ensures j < |paths| && Fails(fs, paths[j])
    ensures Md5s(fs, paths, digest, rule).error == HashOne(fs, paths[j], digest).error
    ensures forall k :: 0 <= k < j ==> !Fails(fs, paths[k])
    decreases |paths|
  {
    var init := paths[..|paths| - 1];
    Md5sStep(fs, paths, digest, rule);
    if Md5s(fs, init, digest, rule).Err? {
      j := FirstFailure(fs, init, digest, rule);
      assert paths[j] == init[j];
      assert forall k :: 0 <= k < j ==> paths[k] == init[k];
    } else {
      j := |paths| - 1;
      NoneFailed(fs, init, digest, rule);
      assert forall k :: 0 <= k < j ==> paths[k] == init[k];
    }
  }

  /** Fail fast: the call fails exactly when some path cannot be hashed, and then with the
      error of the first such path. */
  lemma Md5sFailsOnFirst(fs: Fs, paths: seq<string>, digest: seq<byte> -> Digest, rule: KeyRule)
    ensures Md5s(fs, paths, digest, rule).Err? <==> exists i :: 0 <= i < |paths| && Fails(fs, paths[i])
    ensures Md5s(fs, paths, digest, rule).Err? ==>
              exists j :: 0 <= j < |paths| && Fails(fs, paths[j])
                       && Md5s(fs, paths, digest, rule).error == HashOne(fs, paths[j], digest).error
                       && forall k :: 0 <= k < j ==> !Fails(fs, paths[k])
  {
    if Md5s(fs, paths, digest, rule).Err? {
      var j := FirstFailure(fs, paths, digest, rule);
    } else {
      NoneFailed(fs, paths, digest, rule);
    }
  }

  /** The keys of the listed paths. */
  function KeysOf(paths: seq<string>, rule: KeyRule): (ks: set<string>)
    ensures |ks| <= |paths|
  {
    if paths == [] then {} else KeysOf(paths[..|paths| - 1], rule) + {Key(paths[|paths| - 1], rule)}
  }

  /** On success nothing listed failed, and the keys are exactly the keys of the listed
      paths, so the map has at most one entry per path. */
  lemma {:induction false} Md5sKeys(fs: Fs, paths: seq<string>, digest: seq<byte> -> Digest, rule: KeyRule)
    requires Md5s(fs, paths, digest, rule).Ok?
    ensures forall i :: 0 <= i < |paths| ==> !Fails(fs, paths[i])
    ensures Md5s(fs, paths, digest, rule).value.Keys == KeysOf(paths, rule)
    ensures |Md5s(fs, paths, digest, rule).value| <= |paths|
    decreases |paths|
  {
    NoneFailed(fs, paths, digest, rule);
    if paths != [] {
      Md5sStep(fs, paths, digest, rule);
      Md5sKeys(fs, paths[..|paths| - 1], digest, rule);
    }
  }

  /** On success each key holds the digest of the last listed path with that key: a later
      path with the same base name overwrites an earlier one. */
  lemma {:induction false} Md5sValues(fs: Fs, paths: seq<string>, digest: seq<byte> -> Digest, rule: KeyRule, i: nat)
    requires Md5s(fs, paths, digest, rule).Ok?
    requires i < |paths|
    requires forall j :: i < j < |paths| ==> Key(paths[j], rule) != Key(paths[i], rule)
    ensures paths[i] in fs.files && Key(paths[i], rule) in Md5s(fs, paths, digest, rule).value
    ensures Md5s(fs, paths, digest, rule).value[Key(paths[i], rule)] == digest(fs.files[paths[i]])
    decreases |paths|
  {
    var init := paths[..|paths| - 1];
    if i < |init| {
      assert init[i] == paths[i];
      assert forall j :: i < j < |init| ==> init[j] == paths[j];
      Md5sValues(fs, init, digest, rule, i);
    }
  }

  /** Under the full-path key every listed path maps to the digest of its own content. */
  lemma {:induction false} Md5sByPath(fs: Fs, paths: seq<string>, digest: seq<byte> -> Digest, i: nat)
    requires Md5s(fs, paths, digest, ByPath).Ok?
    requires i < |paths|
    ensures paths[i] in fs.files && paths[i] in Md5s(fs, paths, digest, ByPath).value
    ensures Md5s(fs, paths, digest, ByPath).value[paths[i]] == digest(fs.files[paths[i]])
    decreases |paths|
  {
    var init := paths[..|paths| - 1];
    if paths[|paths| - 1] != paths[i] {
      assert init[i] == paths[i];
      Md5sByPath(fs, init, digest, i);
    }
  }

  /** Under the base-name key no key holds a separator, except a bare "/". */
  lemma {:induction false} BaseKeysHaveNoSeparator(paths: seq<string>, k: string)
    requires k in KeysOf(paths, ByBaseName)
    ensures '/' !in k || k == "/"
    decreases |paths|
  {
    if k != Key(paths[|paths| - 1], ByBaseName) {
      BaseKeysHaveNoSeparator(paths[..|paths| - 1], k);
    }
  }

  /** Under the full-path key the keys are the listed paths. */
  lemma {:induction false} PathKeysAreListed(paths: seq<string>, k: string)
    requires k in KeysOf(paths, ByPath)
    ensures k in paths
    decreases |paths|
  {
    if k != paths[|paths| - 1] {
      PathKeysAreListed(paths[..|paths| - 1], k);
      assert paths[..|paths| - 1] <= paths;
    }
  }

  /** Rewriting one hashed file changes its own entry under the full-path key and no other. */
  lemma {:induction false} Md5sAfterWrite(fs: Fs, paths: seq<string>, digest: seq<byte> -> Digest, p: string, content: seq<byte>)
    requires Md5s(fs, paths, digest, ByPath).Ok? && p in fs.files
    ensures var m := Md5s(fs, paths, digest, ByPath).value;
            Md5s(fs.(files := fs.files[p := content]), paths, digest, ByPath)
              == Ok(if p in paths then m[p := digest(content)] else m)
    decreases |paths|
  {
    if paths != [] {
      var fs' := fs.(files := fs.files[p := content]);
      var init, q := paths[..|paths| - 1], paths[|paths| - 1];
      Md5sStep(fs, paths, digest, ByPath);
      Md5sStep(fs', paths, digest, ByPath);
      Md5sAfterWrite(fs, init, digest, p, content);
      assert p in paths <==> p in init || p == q;
      assert !Fails(fs, q) && !Fails(fs', q);
      var m0 := Md5s(fs, init, digest, ByPath).value;
      var dp: Digest, dq: Digest := digest(content), digest(fs.files[q]);
      var n0: map<string, Digest> := if p in init then m0[p := dp] else m0;
      var m: map<string, Digest> := m0[q := dq];
      assert Md5s(fs, paths, digest, ByPath) == Ok(m);
      if q == p {
        assert Md5s(fs', paths, digest, ByPath) == Ok(n0[p := dp]);
        assert n0[p := dp] == m[p := dp];
      } else {
        assert Md5s(fs', paths, digest, ByPath) == Ok(n0[q := dq]);
        if p in init {
          assert n0[q := dq] == m[p := dp];
        }
      }
    }
  }

  /** The result depends only on what the listed paths hold: two file systems that agree on
      them give the same map or the same error. */
  lemma {:induction false} Md5sDependsOnContent(fs1: Fs, fs2: Fs, paths: seq<string>, digest: seq<byte> -> Digest, rule: KeyRule)
    requires forall i :: 0 <= i < |paths| ==> (paths[i] in fs1.dirs <==> paths[i] in fs2.dirs)
    requires forall i :: 0 <= i < |paths| ==> (paths[i] in fs1.files <==> paths[i] in fs2.files)
    requires forall i :: 0 <= i < |paths| && paths[i] in fs1.files ==> fs1.files[paths[i]] == fs2.files[paths[i]]
    ensures Md5s(fs1, paths, digest, rule) == Md5s(fs2, paths, digest, rule)
    decreases |paths|
  {
    if paths != [] {
      var init := paths[..|paths| - 1];
      assert forall i :: 0 <= i < |init| ==> init[i] == paths[i];
      Md5sDependsOnContent(fs1, fs2, init, digest, rule);
    }
  }
}
