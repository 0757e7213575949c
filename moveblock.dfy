/**
 * pkg/parser/moveblock.go: moving one HCL block out of a Terraform file into another.
 *
 * MoveOptions.Validate checks the options and fills in the block description and the list of
 * files to search; MoveHclBlock searches those files for the first block matching the
 * description, copies its bytes (with newlines around them) into the destination file and cuts
 * them out of the source file, tidying the newlines left behind.
 *
 * The file system is a value; the HCL parser is a function parameter that yields the blocks of
 * a file with their byte ranges. The Revision parameter selects the code as written or the
 * evidently intended behaviour at four places where the two differ; the model uses the
 * intended revision for the properties the program is meant to have.
 */
module MoveBlock {
  import opened Wrappers
  import opened FileSystem
  import Contents
  import opened BlockDescriptions

  /** The separator put around a moved block and collapsed where it was cut out. */
  const BufferChar: seq<byte> := [NewLine]

  /** How many separators in a row the source file keeps where the block was cut out. */
  const BufferCharMax := 2

  /**
   * AsWritten is the code as it stands; Intended fixes four places:
   * the validation error is returned, a destination directory is used, listed file names are
   * joined with their directory, and the destination is appended to rather than overwritten.
   */
  datatype Revision = AsWritten | Intended

  /** A top-level block as the parser reports it: its header and its byte range in the file. */
  datatype ParsedBlock = ParsedBlock(header: Block, start: nat, end: nat)

  /** The HCL parser: the blocks of a file's bytes in document order, or None on a syntax error. */
  type Parser = seq<byte> -> Option<seq<ParsedBlock>>

  predicate InFile(blocks: seq<ParsedBlock>, size: nat)
  {
    forall k :: 0 <= k < |blocks| ==> blocks[k].start <= blocks[k].end <= size
  }

  /** The parser reports ranges that lie inside the parsed bytes. */
  ghost predicate SoundParser(parser: Parser)
  {
    forall c :: parser(c).Some? ==> InFile(parser(c).value, |c|)
  }

  datatype OptionsError =
    | NoSource
    | BothSources
    | NoDestination
    | BothDestinations
    | NoBlock
    | BothBlocks
    | BadAddress(addressError: DescriptionError)
    | SourceDirUnreadable(dir: string, listError: FileError)

  datatype MoveError =
    | InvalidOptions(optionsError: OptionsError)   // returned by the intended revision only
    | ParseFailed(file: string)
    | SourceUnreadable(file: string, readError: FileError)
    | DestinationUnopenable(dest: string, openError: FileError)
    | DeleteReadFailed(file: string, deleteError: FileError)
    | NotFound

  /** The fields of a MoveOptions value. */
  datatype Options = Options(
    address: string,
    blockDescription: Option<BlockDescription>,
    fromDirectory: string,
    fromFile: string,
    toDirectory: string,
    toFile: string,
    sourceWorkspaceFiles: seq<string>)

  /** Files to search are only ever listed once a description is known. */
  predicate Consistent(o: Options)
  {
    o.sourceWorkspaceFiles != [] ==> o.blockDescription.Some?
  }

  /** Exactly one of each pair is set: source directory or file, destination directory or
      file, address or description. */
  predicate OnePerPair(o: Options)
  {
    && (o.fromDirectory == "") != (o.fromFile == "")
    && (o.toDirectory == "") != (o.toFile == "")
    && (o.address == "") != o.blockDescription.None?
  }

  /** The checks of validate up to the description: each pair, then New on the address. */
  function Resolve(o: Options): (r: Result<BlockDescription, OptionsError>)
    ensures r.Ok? <==> OnePerPair(o) && (o.blockDescription.Some? || New(o.address).Ok?)
    ensures r.Ok? && o.blockDescription.Some? ==> r.value == o.blockDescription.value
    ensures r.Ok? && o.address != "" ==> Address(r.value) == o.address && WellFormed(r.value)
    ensures o.fromDirectory == "" && o.fromFile == "" ==> r == Err(NoSource)
    ensures OnePerPair(o) && o.blockDescription.None? && New(o.address).Err? ==>
              r == Err(BadAddress(New(o.address).error))
  {
    if o.fromDirectory == "" && o.fromFile == "" then Err(NoSource)
    else if o.fromDirectory != "" && o.fromFile != "" then Err(BothSources)
    else if o.toDirectory == "" && o.toFile == "" then Err(NoDestination)
    else if o.toDirectory != "" && o.toFile != "" then Err(BothDestinations)
    else if o.address == "" && o.blockDescription.None? then Err(NoBlock)
    else if o.address != "" && o.blockDescription.Some? then Err(BothBlocks)
    else if o.blockDescription.Some? then Ok(o.blockDescription.value)
    else
      match New(o.address)
      case Err(e) => Err(BadAddress(e))
      case Ok(bd) => AddressOfNew(o.address); Ok(bd)
  }

  /** The path a listed directory entry is searched under. */
  function EntryPath(dir: string, name: string, rev: Revision): string
  {
    if rev == Intended then Join(dir, name) else name
  }

  /** The files a source directory contributes: its regular entries, in listing order. */
  function SourceNames(dir: string, entries: seq<DirEntry>, rev: Revision): (names: seq<string>)
    ensures |names| <= |entries|
  {
    if entries == [] then []
    else
      var e := entries[|entries| - 1];
      SourceNames(dir, entries[..|entries| - 1], rev) + (if e.regular then [EntryPath(dir, e.name, rev)] else [])
  }

  /** What validate reports and the options it leaves behind. */
  datatype Validated = Validated(err: Option<OptionsError>, options: Options)

  function Validation(o: Options, fs: Fs, rev: Revision): (v: Validated)
    requires Consistent(o)
    ensures Consistent(v.options)
    ensures v.options == o.(blockDescription := v.options.blockDescription,
                            sourceWorkspaceFiles := v.options.sourceWorkspaceFiles)
    ensures v.err.None? <==> Resolve(o).Ok? && (o.fromFile != "" || o.fromDirectory in fs.dirs)
    ensures v.err.Some? ==> v.options == o || v.options.sourceWorkspaceFiles == []
    ensures v.err.None? ==> v.options.blockDescription == Some(Resolve(o).value)
    ensures v.err.None? && o.fromFile != "" ==> v.options.sourceWorkspaceFiles == [o.fromFile]
    ensures v.err.None? && o.fromFile == "" ==>
              v.options.sourceWorkspaceFiles == SourceNames(o.fromDirectory, fs.dirs[o.fromDirectory], rev)
  {
    match Resolve(o)
    case Err(e) => Validated(Some(e), o)
    case Ok(bd) =>
      var o1 := o.(blockDescription := Some(bd), sourceWorkspaceFiles := []);
      if o.fromFile != "" then Validated(None, o1.(sourceWorkspaceFiles := [o.fromFile]))
      else
        match ReadDir(fs, o.fromDirectory)
        case Err(e) => Validated(Some(SourceDirUnreadable(o.fromDirectory, e)), o1)
        case Ok(entries) => Validated(None, o1.(sourceWorkspaceFiles := SourceNames(o.fromDirectory, entries, rev)))
  }

  /** A file name comes from a regular entry of the source directory, in either revision. */
  lemma {:induction false} SourceNamesMembers(dir: string, entries: seq<DirEntry>, rev: Revision, x: string)
    ensures x in SourceNames(dir, entries, rev) <==>
            exists k :: 0 <= k < |entries| && entries[k].regular && x == EntryPath(dir, entries[k].name, rev)
    decreases |entries|
  {
    if entries != [] {
      var init := entries[..|entries| - 1];
      SourceNamesMembers(dir, init, rev, x);
      if exists k :: 0 <= k < |init| && init[k].regular && x == EntryPath(dir, init[k].name, rev) {
        var k :| 0 <= k < |init| && init[k].regular && x == EntryPath(dir, init[k].name, rev);
        assert entries[k] == init[k];
      }
      if exists k :: 0 <= k < |entries| && entries[k].regular && x == EntryPath(dir, entries[k].name, rev) {
        var k :| 0 <= k < |entries| && entries[k].regular && x == EntryPath(dir, entries[k].name, rev);
        if k < |init| {
          assert init[k] == entries[k];
        }
      }
    }
  }

  /** As written, the files to search are bare entry names: none holds a separator. */
  lemma AsWrittenNamesAreBare(o: Options, fs: Fs)
    requires Consistent(o) && fs.Valid()
    requires Validation(o, fs, AsWritten).err.None? && o.fromFile == ""
    ensures forall x :: x in Validation(o, fs, AsWritten).options.sourceWorkspaceFiles ==> '/' !in x
  {
    var entries := fs.dirs[o.fromDirectory];
    forall x | x in Validation(o, fs, AsWritten).options.sourceWorkspaceFiles
      ensures '/' !in x
    {
      SourceNamesMembers(o.fromDirectory, entries, AsWritten, x);
      var k :| 0 <= k < |entries| && entries[k].regular && x == entries[k].name;
      assert entries[k] in fs.dirs[o.fromDirectory];
    }
  }

  /** With the entries joined, every file to search is a regular file of the directory. */
  lemma IntendedSourcesAreFiles(o: Options, fs: Fs)
    requires Consistent(o) && fs.Valid()
    requires Validation(o, fs, Intended).err.None? && o.fromFile == ""
    ensures forall x :: x in Validation(o, fs, Intended).options.sourceWorkspaceFiles ==> x in fs.files
  {
    var entries := fs.dirs[o.fromDirectory];
    forall x | x in Validation(o, fs, Intended).options.sourceWorkspaceFiles
      ensures x in fs.files
    {
      SourceNamesMembers(o.fromDirectory, entries, Intended, x);
      var k :| 0 <= k < |entries| && entries[k].regular && x == Join(o.fromDirectory, entries[k].name);
      assert entries[k] in fs.dirs[o.fromDirectory];
    }
  }

  /** After a successful validation the options name one source, one destination and one
      description, and the description's address is the address given. */
  lemma ValidatedOptionsAreComplete(o: Options, fs: Fs, rev: Revision)
    requires Consistent(o) && Validation(o, fs, rev).err.None?
    ensures var v := Validation(o, fs, rev).options;
            && (v.fromDirectory == "") != (v.fromFile == "")
            && (v.toDirectory == "") != (v.toFile == "")
            && v.blockDescription.Some?
            && (v.address != "" ==> Address(v.blockDescription.value) == v.address)
            && |v.sourceWorkspaceFiles| <= (if o.fromFile != "" then 1 else |fs.dirs[o.fromDirectory]|)
  {
  }

  class MoveOptions {
    var address: string
    var blockDescription: Option<BlockDescription>
    var fromDirectory: string
    var fromFile: string
    var toDirectory: string
    var toFile: string
    var sourceWorkspaceFiles: seq<string>

    function Snapshot(): Options
      reads this
    {
      Options(address, blockDescription, fromDirectory, fromFile, toDirectory, toFile, sourceWorkspaceFiles)
    }

    predicate Valid()
      reads this
    {
      Consistent(Snapshot())
    }

    /** A MoveOptions literal: the list of files to search starts out empty. */
    constructor (address: string, blockDescription: Option<BlockDescription>, fromDirectory: string,
                 fromFile: string, toDirectory: string, toFile: string)
      ensures Valid()
      ensures Snapshot() == Options(address, blockDescription, fromDirectory, fromFile, toDirectory, toFile, [])
    {
      this.address := address;
      this.blockDescription := blockDescription;
      this.fromDirectory := fromDirectory;
      this.fromFile := fromFile;
      this.toDirectory := toDirectory;
      this.toFile := toFile;
      this.sourceWorkspaceFiles := [];
    }

    /** validate: checks the pairs, resolves the address, then lists the files to search. */
    method Validate(fs: Fs, rev: Revision) returns (err: Option<OptionsError>)
      requires Valid()
      modifies this
      ensures Valid()
      ensures Validated(err, Snapshot()) == Validation(old(Snapshot()), fs, rev)
    {
      if fromDirectory == "" && fromFile == "" { return Some(NoSource); }
      if fromDirectory != "" && fromFile != "" { return Some(BothSources); }
      if toDirectory == "" && toFile == "" { return Some(NoDestination); }
      if toDirectory != "" && toFile != "" { return Some(BothDestinations); }
      if address == "" && blockDescription.None? { return Some(NoBlock); }
      if address != "" && blockDescription.Some? { return Some(BothBlocks); }
      if blockDescription.None? {
        var bd := New(address);
        if bd.Err? { return Some(BadAddress(bd.error)); }
        blockDescription := Some(bd.value);
      }
      sourceWorkspaceFiles := [];
      if fromFile != "" {
        sourceWorkspaceFiles := sourceWorkspaceFiles + [fromFile];
      } else {
        var listing := ReadDir(fs, fromDirectory);
        if listing.Err? {
          return Some(SourceDirUnreadable(fromDirectory, listing.error));
        }
        var names := ListSources(fromDirectory, listing.value, rev);
        sourceWorkspaceFiles := names;
      }
      return None;
    }
  }

  /** The loop of validate over the directory's entries: the regular files, in listing order. */
  method ListSources(dir: string, entries: seq<DirEntry>, rev: Revision) returns (names: seq<string>)
    ensures names == SourceNames(dir, entries, rev)
  {
    names := [];
    for i := 0 to |entries|
      invariant names == SourceNames(dir, entries[..i], rev)
    {
      if entries[i].regular {
        names := names + [EntryPath(dir, entries[i].name, rev)];
      }
      assert entries[..i + 1][..i] == entries[..i];
    }
    assert entries[..|entries|] == entries;
  }

  /** ParseHCLFile: a file that cannot be read or does not parse is a parse failure. */
  function Parse(fs: Fs, parser: Parser, name: string): (r: Result<seq<ParsedBlock>, MoveError>)
    ensures r.Ok? <==> name in fs.files && parser(fs.files[name]).Some?
    ensures r.Ok? ==> parser(fs.files[name]) == Some(r.value)
    ensures r.Err? ==> r.error == ParseFailed(name)
  {
    match ReadFile(fs, name)
    case Err(_) => Err(ParseFailed(name))
    case Ok(content) =>
      match parser(content)
      case None => Err(ParseFailed(name))
      case Some(blocks) => Ok(blocks)
  }

  /** The index of the first block in document order whose header matches the description. */
  function FirstMatch(blocks: seq<ParsedBlock>, bd: BlockDescription): (r: Option<nat>)
    ensures r.Some? ==> r.value < |blocks| && Matches(bd, blocks[r.value].header)
    ensures forall k :: 0 <= k < |blocks| && (r.None? || k < r.value) ==> !Matches(bd, blocks[k].header)
    decreases |blocks|
  {
    if blocks == [] then None
    else if Matches(bd, blocks[0].header) then Some(0)
    else
      match FirstMatch(blocks[1..], bd)
      case None => None
      case Some(j) => Some(j + 1)
  }

  /** The block to move and the file it was found in. */
  datatype Hit = Hit(file: string, block: ParsedBlock)

  /** The search of MoveHclBlock: files in list order, blocks in document order; a file that
      fails to parse ends the search. */
  function Locate(fs: Fs, parser: Parser, names: seq<string>, bd: Option<BlockDescription>): (r: Result<Option<Hit>, MoveError>)
    requires names != [] ==> bd.Some?
    ensures r.Ok? && r.value.Some? ==> r.value.value.file in names && Matches(bd.value, r.value.value.block.header)
    ensures r.Ok? && r.value.Some? ==> r.value.value.file in fs.files
    ensures SoundParser(parser) && r.Ok? && r.value.Some? ==>
              r.value.value.block.start <= r.value.value.block.end <= |fs.files[r.value.value.file]|
    decreases |names|
  {
    if names == [] then Ok(None)
    else
      match Parse(fs, parser, names[0])
      case Err(e) => Err(e)
      case Ok(blocks) =>
        match FirstMatch(blocks, bd.value)
        case Some(j) =>
          assert InFile(parser(fs.files[names[0]]).value, |fs.files[names[0]]|) ==> blocks[j].end <= |fs.files[names[0]]|;
          Ok(Some(Hit(names[0], blocks[j])))
        case None => Locate(fs, parser, names[1..], bd)
  }

  /** A file the search passes over: it parses and holds no matching block. */
  predicate Passed(fs: Fs, parser: Parser, name: string, bd: BlockDescription)
  {
    Parse(fs, parser, name).Ok? && FirstMatch(Parse(fs, parser, name).value, bd).None?
  }

  /** First match wins: the block found is the first matching block of its file, and every
      earlier file parsed and held none. */
  lemma {:induction false} LocateFindsFirst(fs: Fs, parser: Parser, names: seq<string>, bd: Option<BlockDescription>)
    returns (i: nat, j: nat)
    requires names != [] ==> bd.Some?
    requires Locate(fs, parser, names, bd).Ok? && Locate(fs, parser, names, bd).value.Some?
    ensures i < |names| && Parse(fs, parser, names[i]).Ok?
    ensures FirstMatch(Parse(fs, parser, names[i]).value, bd.value) == Some(j)
    ensures Locate(fs, parser, names, bd).value.value == Hit(names[i], Parse(fs, parser, names[i]).value[j])
    ensures forall k :: 0 <= k < i ==> Passed(fs, parser, names[k], bd.value)
    decreases |names|
  {
    var blocks := Parse(fs, parser, names[0]).value;
    if FirstMatch(blocks, bd.value).Some? {
      i, j := 0, FirstMatch(blocks, bd.value).value;
    } else {
      var i', j' := LocateFindsFirst(fs, parser, names[1..], bd);
      i, j := i' + 1, j';
      forall k | 0 <= k < i ensures Passed(fs, parser, names[k], bd.value) {
        if k > 0 { assert names[k] == names[1..][k - 1]; }
      }
    }
  }

  /** A parse failure ends the search at the first file that fails, all earlier files having
      parsed without a match. */
  lemma {:induction false} LocateStopsAtParseFailure(fs: Fs, parser: Parser, names: seq<string>, bd: Option<BlockDescription>)
    returns (i: nat)
    requires names != [] ==> bd.Some?
    requires Locate(fs, parser, names, bd).Err?
    ensures i < |names| && Parse(fs, parser, names[i]).Err?
    ensures Locate(fs, parser, names, bd).error == ParseFailed(names[i])
    ensures forall k :: 0 <= k < i ==> Passed(fs, parser, names[k], bd.value)
    decreases |names|
  {
    if Parse(fs, parser, names[0]).Err? {
      i := 0;
    } else {
      var i' := LocateStopsAtParseFailure(fs, parser, names[1..], bd);
      i := i' + 1;
      forall k | 0 <= k < i ensures Passed(fs, parser, names[k], bd.value) {
        if k > 0 { assert names[k] == names[1..][k - 1]; }
      }
    }
  }

  /** Nothing is found exactly when every file parses and none holds a matching block. */
  lemma {:induction false} LocateFindsNothing(fs: Fs, parser: Parser, names: seq<string>, bd: Option<BlockDescription>)
    requires names != [] ==> bd.Some?
    ensures Locate(fs, parser, names, bd) == Ok(None) <==>
            forall k :: 0 <= k < |names| ==> Passed(fs, parser, names[k], bd.value)
    decreases |names|
  {
    if names != [] {
      LocateFindsNothing(fs, parser, names[1..], bd);
      if forall k :: 0 <= k < |names| - 1 ==> Passed(fs, parser, names[1..][k], bd.value) {
        forall k | 0 <= k < |names| && k > 0 ensures Passed(fs, parser, names[k], bd.value) <==> Passed(fs, parser, names[1..][k - 1], bd.value) {
        }
      }
      if forall k :: 0 <= k < |names| ==> Passed(fs, parser, names[k], bd.value) {
        forall k | 0 <= k < |names| - 1 ensures Passed(fs, parser, names[1..][k], bd.value) {
          assert names[1..][k] == names[k + 1];
        }
      }
    }
  }

  /** The search loop of MoveHclBlock, up to the block to move. */
  method FindBlock(fs: Fs, parser: Parser, names: seq<string>, bd: Option<BlockDescription>)
    returns (r: Result<Option<Hit>, MoveError>)
    requires names != [] ==> bd.Some?
    ensures r == Locate(fs, parser, names, bd)
  {
    var i := 0;
    while i < |names|
      invariant 0 <= i <= |names|
      invariant Locate(fs, parser, names, bd) == Locate(fs, parser, names[i..], bd)
    {
      assert names[i..][0] == names[i] && names[i..][1..] == names[i + 1..];
      var parsed := Parse(fs, parser, names[i]);
      if parsed.Err? {
        return Err(parsed.error);
      }
      var blocks := parsed.value;
      var found := FindInFile(blocks, bd.value);
      if found.Some? {
        return Ok(Some(Hit(names[i], blocks[found.value])));
      }
      i := i + 1;
    }
    return Ok(None);
  }

  /** The inner loop of the search: the first block of one file whose header matches. */
  method FindInFile(blocks: seq<ParsedBlock>, bd: BlockDescription) returns (r: Option<nat>)
    ensures r == FirstMatch(blocks, bd)
  {
    var j := 0;
    while j < |blocks|
      invariant 0 <= j <= |blocks|
      invariant forall k :: 0 <= k < j ==> !Matches(bd, blocks[k].header)
    {
      if Matches(bd, blocks[j].header) {
        FirstMatchIsFirst(blocks, bd, j);
        return Some(j);
      }
      j := j + 1;
    }
    FirstMatchIsFirst(blocks, bd, |blocks|);
    return None;
  }

  /** FirstMatch is pinned down by its two properties: a match at j with none before it, or
      (j at the end) no match at all. */
  lemma FirstMatchIsFirst(blocks: seq<ParsedBlock>, bd: BlockDescription, j: nat)
    requires j <= |blocks|
    requires j < |blocks| ==> Matches(bd, blocks[j].header)
    requires forall k :: 0 <= k < j ==> !Matches(bd, blocks[k].header)
    ensures FirstMatch(blocks, bd) == if j < |blocks| then Some(j) else None
  {
    var m := FirstMatch(blocks, bd);
    if m.Some? {
      assert m.value >= j;
    }
  }

  /** prettifyCopySelection: a separator before the copy when the destination is neither
      empty nor already ends with one, and a separator after it. */
  function Prettify(copy: seq<byte>, dest: seq<byte>): (r: seq<byte>)
    ensures r == copy + BufferChar || r == BufferChar + copy + BufferChar
    ensures r == BufferChar + copy + BufferChar <==> |dest| > 0 && dest[|dest| - 1] != NewLine
    ensures var w := dest + r; var at := |w| - |copy| - 1;
            && w[at..|w| - 1] == copy && w[|w| - 1] == NewLine
            && (at == 0 || w[at - 1] == NewLine)
  {
    var mt := |dest| == 0;
    var endsWithBufferChar := Contents.FileEndsWith(dest, BufferChar);
    EndsWithSeparator(dest);
    var copyBytes := if !mt && !endsWithBufferChar then BufferChar + copy else copy;
    CopyOnItsOwnLine(copy, dest, copyBytes + BufferChar);
    copyBytes + BufferChar
  }

  /** The destination ends with the separator exactly when its last byte is a newline. */
  lemma EndsWithSeparator(dest: seq<byte>)
    ensures Contents.FileEndsWith(dest, BufferChar) <==> |dest| > 0 && dest[|dest| - 1] == NewLine
  {
    if |dest| > 0 {
      assert dest[|dest| - 1..] == [dest[|dest| - 1]];
    }
  }

  /** Either prettified form, appended where it belongs, puts the copy on a line of its own. */
  lemma CopyOnItsOwnLine(copy: seq<byte>, dest: seq<byte>, r: seq<byte>)
    requires (r == copy + BufferChar && (|dest| == 0 || dest[|dest| - 1] == NewLine))
             || r == BufferChar + copy + BufferChar
    ensures var w := dest + r; var at := |w| - |copy| - 1;
            && w[at..|w| - 1] == copy && w[|w| - 1] == NewLine
            && (at == 0 || w[at - 1] == NewLine)
  {
    var w := dest + r;
    if r == copy + BufferChar && (|dest| == 0 || dest[|dest| - 1] == NewLine) {
      assert w == dest + copy + BufferChar;
      assert w[|dest|..|w| - 1] == copy;
    } else {
      assert w == dest + BufferChar + copy + BufferChar;
      assert w[|dest| + 1..|w| - 1] == copy;
    }
  }

  /** The destination's bytes after the prettified copy is written at the file offset the
      open left: offset 0 as written, the end of the file as intended. */
  function Written(dest: seq<byte>, bytes: seq<byte>, rev: Revision): (w: seq<byte>)
    ensures rev == Intended ==> w == dest + bytes
    ensures rev == AsWritten ==> |w| == (if |bytes| >= |dest| then |bytes| else |dest|)
    ensures rev == AsWritten ==> w[..|bytes|] == bytes && w[|bytes|..] == dest[Contents.Min(|bytes|, |dest|)..]
  {
    if rev == Intended then dest + bytes
    else if |bytes| >= |dest| then bytes
    else bytes + dest[|bytes|..]
  }

  /** copyRange: reads the block's bytes, opens (creating) the destination, writes the
      prettified copy into it. */
  function CopyRange(fs: Fs, src: string, start: nat, end: nat, dest: string, rev: Revision): (r: Result<Fs, MoveError>)
    requires src in fs.files ==> start <= end <= |fs.files[src]|
    ensures r.Err? <==> src !in fs.files || !Openable(fs, dest)
    ensures r.Ok? ==> r.value.dirs == fs.dirs && r.value.files.Keys == fs.files.Keys + {dest}
    ensures r.Ok? ==> forall p :: p in fs.files && p != dest ==> r.value.files[p] == fs.files[p]
    ensures r.Ok? ==> forall p :: p in fs.files ==> |r.value.files[p]| >= |fs.files[p]|
    ensures r.Ok? ==>
              var before := if dest in fs.files then fs.files[dest] else [];
              r.value.files[dest] == Written(before, Prettify(fs.files[src][start..end], before), rev)
  {
    match ReadFile(fs, src)
    case Err(e) => Err(SourceUnreadable(src, e))
    case Ok(content) =>
      var copyBytes := content[start..end];
      match OpenCreate(fs, dest)
      case Err(e) => Err(DestinationUnopenable(dest, e))
      case Ok(existing) =>
        Ok(fs.(files := fs.files[dest := Written(existing, Prettify(copyBytes, existing), rev)]))
  }

  /** The source's bytes after the block is cut out of s at `at`: the run of the one-element
      pattern p at the cut keeps at most `keep` copies, then the trailing run keeps at most one.
      deleteRange uses it with p the separator and keep BufferCharMax. */
  function Tidy<T(==)>(s: seq<T>, p: seq<T>, at: int, keep: int): seq<T>
  {
    var r := Contents.CapRun(s, p, at, keep);
    Contents.CapRun(r, p, |r| - 1, 1)
  }

  /** deleteRange: the source file with the block's range cut out and its newlines tidied. */
  function Deletion(fs: Fs, path: string, start: nat, end: nat): (r: Result<Fs, MoveError>)
    requires path in fs.files ==> start <= end <= |fs.files[path]|
    ensures r.Err? <==> path !in fs.files
    ensures r.Ok? ==> r.value.dirs == fs.dirs && r.value.files.Keys == fs.files.Keys
    ensures r.Ok? ==> forall p :: p in fs.files && p != path ==> r.value.files[p] == fs.files[p]
    ensures r.Ok? ==> var c := fs.files[path];
                      r.value.files[path] == Tidy(c[..start] + c[end..], BufferChar, start, BufferCharMax)
    ensures r.Ok? && fs.Valid() ==> r.value.Valid()
  {
    match ReadFile(fs, path)
    case Err(e) => Err(DeleteReadFailed(path, e))
    case Ok(c) => Ok(WriteFile(fs, path, Tidy(c[..start] + c[end..], BufferChar, start, BufferCharMax)))
  }

  /** One capping pass of deleteRange on the bytes it has so far. */
  method CapBytes(s: seq<byte>, start: int, keep: int) returns (r: seq<byte>)
    ensures r == Contents.CapRun(s, BufferChar, start, keep)
  {
    var buf := new byte[|s|](i requires 0 <= i < |s| => s[i]);
    assert buf[..|s|] == s;
    var n := Contents.DeleteOverNOccurrences(buf, |s|, BufferChar, start, keep);
    r := buf[..n];
  }

  /** The byte work of deleteRange: the block's range is cut out of the file's bytes in
      place, then the run of newlines at the cut and the trailing run are capped. */
  method CutAndTidy(contents: seq<byte>, start: nat, end: nat) returns (t: seq<byte>)
    requires start <= end <= |contents|
    ensures t == Tidy(contents[..start] + contents[end..], BufferChar, start, BufferCharMax)
  {
    var buf := new byte[|contents|](i requires 0 <= i < |contents| => contents[i]);
    assert buf[..|contents|] == contents;
    var cutLen := Contents.Splice(buf, |contents|, start, end);
    var cut := buf[..cutLen];
    var capped := CapBytes(cut, start, BufferCharMax);
    t := CapBytes(capped, |capped| - 1, 1);
    TidyInTwoPasses(cut, capped, t, BufferChar, start, BufferCharMax);
  }

  /** Tidy is the second capping pass applied to the first one's result. */
  lemma TidyInTwoPasses<T>(s: seq<T>, capped: seq<T>, t: seq<T>, p: seq<T>, at: int, keep: int)
    requires capped == Contents.CapRun(s, p, at, keep)
    requires t == Contents.CapRun(capped, p, |capped| - 1, 1)
    ensures t == Tidy(s, p, at, keep)
  {
  }

  /** deleteRange: read the source file, cut the block's range out, tidy, write it back. */
  method DeleteRange(fs: Fs, path: string, start: nat, end: nat) returns (r: Result<Fs, MoveError>)
    requires path in fs.files ==> start <= end <= |fs.files[path]|
    ensures r == Deletion(fs, path, start, end)
  {
    var read := ReadFile(fs, path);
    if read.Err? {
      return Err(DeleteReadFailed(path, read.error));
    }
    var t := CutAndTidy(read.value, start, end);
    return Ok(WriteFile(fs, path, t));
  }

  /** The tidied source ends with the same element as the cut source and never with two
      copies of the pattern's element. */
  lemma TidyEnding<T>(s: seq<T>, p: seq<T>, at: int, keep: int)
    requires s != [] && |p| == 1 && keep >= 1
    ensures var t := Tidy(s, p, at, keep);
            && t != [] && t[|t| - 1] == s[|s| - 1]
            && (|t| >= 2 && t[|t| - 1] == p[0] ==> t[|t| - 2] != p[0])
  {
    var r, t := TwoPasses(s, p, at, keep);
    EndingThroughPasses(s, r, t, p, at, keep);
    SingleTrailingCopy(r, t, p);
  }

  /** The first pass keeps the last element and so does the second. */
  lemma EndingThroughPasses<T>(s: seq<T>, r: seq<T>, t: seq<T>, p: seq<T>, at: int, keep: int)
    requires s != [] && |p| == 1 && keep >= 1
    requires r == Contents.CapRun(s, p, at, keep) && t == Contents.CapRun(r, p, |r| - 1, 1)
    ensures t != [] && t[|t| - 1] == s[|s| - 1]
  {
    Contents.CapRunKeepsLast(s, p, at, keep);
    Contents.TrimsTrailingRun(r, p);
  }

  /** The second pass leaves no two copies of the element at the end. */
  lemma SingleTrailingCopy<T>(r: seq<T>, t: seq<T>, p: seq<T>)
    requires |p| == 1 && t == Contents.CapRun(r, p, |r| - 1, 1)
    ensures |t| >= 2 && t[|t| - 1] == p[0] ==> t[|t| - 2] != p[0]
  {
    Contents.TrimsTrailingRun(r, p);
  }

  /** Tidying removes copies of the pattern only: every other element keeps its count. */
  lemma TidyRemovesOnlyPattern<T>(s: seq<T>, p: seq<T>, at: int, keep: int, x: T)
    requires x !in p
    ensures multiset(Tidy(s, p, at, keep))[x] == multiset(s)[x]
  {
    var r, t := TwoPasses(s, p, at, keep);
    CountsThroughPasses(s, r, t, p, at, keep, x);
  }

  /** Names the two passes of Tidy. */
  lemma TwoPasses<T>(s: seq<T>, p: seq<T>, at: int, keep: int) returns (r: seq<T>, t: seq<T>)
    ensures r == Contents.CapRun(s, p, at, keep) && t == Contents.CapRun(r, p, |r| - 1, 1)
    ensures t == Tidy(s, p, at, keep)
  {
    r := Contents.CapRun(s, p, at, keep);
    t := Contents.CapRun(r, p, |r| - 1, 1);
    TidyInTwoPasses(s, r, t, p, at, keep);
  }

  /** Neither pass changes how often an element outside the pattern occurs. */
  lemma CountsThroughPasses<T>(s: seq<T>, r: seq<T>, t: seq<T>, p: seq<T>, at: int, keep: int, x: T)
    requires x !in p
    requires r == Contents.CapRun(s, p, at, keep) && t == Contents.CapRun(r, p, |r| - 1, 1)
    ensures multiset(t)[x] == multiset(s)[x]
  {
    Contents.CapRunKeepsOthers(s, p, at, keep, x);
    Contents.CapRunKeepsOthers(r, p, |r| - 1, 1, x);
  }

  predicate HasSuffix(s: string, suffix: string)
  {
    |s| >= |suffix| && s[|s| - |suffix|..] == suffix
  }

  /** The file the block is copied to: the destination file, or (intended) the description's
      destination file name inside the destination directory. */
  function Destination(o: Options, bd: BlockDescription, rev: Revision): (d: string)
    ensures o.toFile != "" || rev == AsWritten ==> d == o.toFile
    ensures rev == Intended && o.toFile == "" && o.toDirectory != "" ==>
              && |d| > |o.toDirectory| && d[..|o.toDirectory|] == o.toDirectory
              && HasSuffix(d, DestinationFileName(bd))
  {
    if rev == Intended && o.toFile == "" then
      var name := DestinationFileName(bd);
      var d := Join(o.toDirectory, name);
      assert o.toDirectory != "" ==> d[|d| - |name|..] == name;
      d
    else o.toFile
  }

  /** The file system after a move, and the error if it failed. */
  datatype Moved = Moved(fs: Fs, err: Option<MoveError>)

  /** The search, copy and delete of MoveHclBlock on validated options. A failure writes
      nothing: once the copy succeeded, the delete cannot fail. */
  function Relocation(o: Options, fs: Fs, parser: Parser, rev: Revision): (m: Moved)
    requires Consistent(o) && SoundParser(parser)
    ensures m.err.Some? ==> m.fs == fs
    ensures fs.Valid() ==> m.fs.Valid()
    ensures m.fs.dirs == fs.dirs
  {
    match Locate(fs, parser, o.sourceWorkspaceFiles, o.blockDescription)
    case Err(e) => Moved(fs, Some(e))
    case Ok(None) => Moved(fs, Some(NotFound))
    case Ok(Some(h)) =>
      match CopyRange(fs, h.file, h.block.start, h.block.end, Destination(o, o.blockDescription.value, rev), rev)
      case Err(e) => Moved(fs, Some(e))
      case Ok(copied) =>
        WriteKeepsValid(fs, Destination(o, o.blockDescription.value, rev), copied.files[Destination(o, o.blockDescription.value, rev)]);
        assert fs.Valid() ==> copied.Valid();
        match Deletion(copied, h.file, h.block.start, h.block.end)
        case Err(e) => Moved(copied, Some(e))
        case Ok(deleted) => Moved(deleted, None)
  }

  /** MoveHclBlock: validate, then search, copy and delete; as written the validation error
      is dropped. */
  function MoveOutcome(o: Options, fs: Fs, parser: Parser, rev: Revision): (m: Moved)
    requires Consistent(o) && SoundParser(parser)
    ensures m.err.Some? ==> m.fs == fs
    ensures fs.Valid() ==> m.fs.Valid()
  {
    var v := Validation(o, fs, rev);
    if rev == Intended && v.err.Some? then Moved(fs, Some(InvalidOptions(v.err.value)))
    else Relocation(v.options, fs, parser, rev)
  }

  method MoveHclBlock(mo: MoveOptions, fs: Fs, parser: Parser, rev: Revision) returns (fs': Fs, err: Option<MoveError>)
    requires mo.Valid() && SoundParser(parser)
    modifies mo
    ensures mo.Valid()
    ensures mo.Snapshot() == Validation(old(mo.Snapshot()), fs, rev).options
    ensures Moved(fs', err) == MoveOutcome(old(mo.Snapshot()), fs, parser, rev)
  {
    var invalid := mo.Validate(fs, rev);
    if rev == Intended && invalid.Some? {
      return fs, Some(InvalidOptions(invalid.value));
    }
    var found := FindBlock(fs, parser, mo.sourceWorkspaceFiles, mo.blockDescription);
    if found.Err? {
      return fs, Some(found.error);
    }
    if found.value.None? {
      return fs, Some(NotFound);
    }
    var h := found.value.value;
    var dest := Destination(mo.Snapshot(), mo.blockDescription.value, rev);
    var copied := CopyRange(fs, h.file, h.block.start, h.block.end, dest, rev);
    if copied.Err? {
      return fs, Some(copied.error);
    }
    var deleted := DeleteRange(copied.value, h.file, h.block.start, h.block.end);
    // the source file was just read, and copying never removes a file
    assert deleted.Ok?;
    return deleted.value, None;
  }

  /** As written, a failed validation is reported as "no block found" when the options had no
      files listed yet, as a fresh MoveOptions has: the real cause is lost. */
  lemma ValidationFailureReadsAsNotFound(o: Options, fs: Fs, parser: Parser)
    requires o.sourceWorkspaceFiles == [] && SoundParser(parser)
    requires Validation(o, fs, AsWritten).err.Some?
    ensures MoveOutcome(o, fs, parser, AsWritten) == Moved(fs, Some(NotFound))
  {
  }

  /** Intended: the move fails with the validation error exactly when validation fails. */
  lemma IntendedReportsValidationFailure(o: Options, fs: Fs, parser: Parser, e: OptionsError)
    requires Consistent(o) && SoundParser(parser)
    ensures MoveOutcome(o, fs, parser, Intended) == Moved(fs, Some(InvalidOptions(e))) <==>
            Validation(o, fs, Intended).err == Some(e)
  {
    var v := Validation(o, fs, Intended);
    if v.err.None? {
      RelocationNeverInvalid(v.options, fs, parser, Intended);
    }
  }

  /** The search, copy and delete never report an options error. */
  lemma RelocationNeverInvalid(o: Options, fs: Fs, parser: Parser, rev: Revision)
    requires Consistent(o) && SoundParser(parser)
    ensures var m := Relocation(o, fs, parser, rev); m.err.Some? ==> !m.err.value.InvalidOptions?
  {
    match Locate(fs, parser, o.sourceWorkspaceFiles, o.blockDescription)
    case Err(_) =>
      if o.sourceWorkspaceFiles != [] {
        var i := LocateStopsAtParseFailure(fs, parser, o.sourceWorkspaceFiles, o.blockDescription);
      }
    case Ok(_) =>
  }

  /** As written, a destination directory is ignored: the destination file is "" and the
      move fails at the copy, writing nothing. */
  lemma DirectoryDestinationFailsAsWritten(o: Options, fs: Fs, parser: Parser)
    requires Consistent(o) && SoundParser(parser)
    requires Validation(o, fs, AsWritten).err.None? && o.toFile == ""
    requires var v := Validation(o, fs, AsWritten).options;
             var found := Locate(fs, parser, v.sourceWorkspaceFiles, v.blockDescription);
             found.Ok? && found.value.Some?
    ensures MoveOutcome(o, fs, parser, AsWritten) == Moved(fs, Some(DestinationUnopenable("", NotExist(""))))
  {
  }

  /** A found block whose destination is a new file in a directory that does not exist is not
      moved: opening the destination fails, and neither file is written. */
  lemma MissingDestinationDirectoryFails(o: Options, fs: Fs, parser: Parser, rev: Revision)
    requires Consistent(o) && SoundParser(parser)
    requires var v := Validation(o, fs, rev);
             var found := Locate(fs, parser, v.options.sourceWorkspaceFiles, v.options.blockDescription);
             && (rev == Intended ==> v.err.None?)
             && found.Ok? && found.value.Some?
             && var dest := Destination(v.options, v.options.blockDescription.value, rev);
                dest != "" && dest[|dest| - 1] != '/' && dest !in fs.files && dest !in fs.dirs && !ParentExists(fs, dest)
    ensures var v := Validation(o, fs, rev).options;
            var dest := Destination(v, v.blockDescription.value, rev);
            MoveOutcome(o, fs, parser, rev) == Moved(fs, Some(DestinationUnopenable(dest, NotExist(dest))))
  {
    var v := Validation(o, fs, rev).options;
    assert MoveOutcome(o, fs, parser, rev) == Relocation(v, fs, parser, rev);
    var h := Locate(fs, parser, v.sourceWorkspaceFiles, v.blockDescription).value.value;
    var dest := Destination(v, v.blockDescription.value, rev);
    assert OpenCreate(fs, dest) == Err(NotExist(dest));
    assert CopyRange(fs, h.file, h.block.start, h.block.end, dest, rev) == Err(DestinationUnopenable(dest, NotExist(dest)));
  }

  /** A relocation that finds block h and may write dest: the copy is appended to dest, and
      the source file is cut and tidied; nothing else changes. */
  lemma RelocatesHit(o: Options, fs: Fs, parser: Parser, h: Hit)
    requires Consistent(o) && SoundParser(parser)
    requires Locate(fs, parser, o.sourceWorkspaceFiles, o.blockDescription) == Ok(Some(h))
    requires var dest := Destination(o, o.blockDescription.value, Intended);
             Openable(fs, dest) && dest != h.file
    ensures var dest := Destination(o, o.blockDescription.value, Intended);
            var m := Relocation(o, fs, parser, Intended);
            var src := fs.files[h.file];
            var before := if dest in fs.files then fs.files[dest] else [];
            && m.err == None
            && m.fs.files.Keys == fs.files.Keys + {dest}
            && m.fs.files[dest] == before + Prettify(src[h.block.start..h.block.end], before)
            && m.fs.files[h.file] == Tidy(src[..h.block.start] + src[h.block.end..], BufferChar, h.block.start, BufferCharMax)
            && (forall p :: p in fs.files && p != dest && p != h.file ==> m.fs.files[p] == fs.files[p])
  {
    var dest := Destination(o, o.blockDescription.value, Intended);
    var copied := CopyRange(fs, h.file, h.block.start, h.block.end, dest, Intended);
    assert copied.Ok?;
    assert copied.value.files[h.file] == fs.files[h.file];
    var deleted := Deletion(copied.value, h.file, h.block.start, h.block.end);
    assert deleted.Ok?;
    assert Relocation(o, fs, parser, Intended) == Moved(deleted.value, None);
  }

  /** Intended: a move that finds its block copies it to the end of the destination, on a
      line of its own, and cuts it out of its source file; no other file changes. */
  lemma IntendedMoveRelocatesBlock(o: Options, fs: Fs, parser: Parser)
    requires Consistent(o) && SoundParser(parser)
    requires Validation(o, fs, Intended).err.None?
    requires var v := Validation(o, fs, Intended).options;
             var found := Locate(fs, parser, v.sourceWorkspaceFiles, v.blockDescription);
             && found.Ok? && found.value.Some?
             && Openable(fs, Destination(v, v.blockDescription.value, Intended))
             && Destination(v, v.blockDescription.value, Intended) != found.value.value.file
    ensures var v := Validation(o, fs, Intended).options;
            var h := Locate(fs, parser, v.sourceWorkspaceFiles, v.blockDescription).value.value;
            var dest := Destination(v, v.blockDescription.value, Intended);
            var m := MoveOutcome(o, fs, parser, Intended);
            var src := fs.files[h.file];
            var before := if dest in fs.files then fs.files[dest] else [];
            && m.err == None
            && m.fs.files.Keys == fs.files.Keys + {dest}
            && m.fs.files[dest] == before + Prettify(src[h.block.start..h.block.end], before)
            && m.fs.files[h.file] == Tidy(src[..h.block.start] + src[h.block.end..], BufferChar, h.block.start, BufferCharMax)
            && (forall p :: p in fs.files && p != dest && p != h.file ==> m.fs.files[p] == fs.files[p])
  {
    var v := Validation(o, fs, Intended).options;
    assert MoveOutcome(o, fs, parser, Intended) == Relocation(v, fs, parser, Intended);
    var h := Locate(fs, parser, v.sourceWorkspaceFiles, v.blockDescription).value.value;
    assert Destination(v, v.blockDescription.value, Intended) != "";
    RelocatesHit(v, fs, parser, h);
  }

  /** A relocation whose destination is the block's own source file: the copy is appended to
      the file, then the block's range, which still holds the original block, is cut out. */
  lemma RelocatesWithinFile(o: Options, fs: Fs, parser: Parser, h: Hit)
    requires Consistent(o) && SoundParser(parser)
    requires Locate(fs, parser, o.sourceWorkspaceFiles, o.blockDescription) == Ok(Some(h))
    requires var dest := Destination(o, o.blockDescription.value, Intended);
             Openable(fs, dest) && dest == h.file
    ensures var m := Relocation(o, fs, parser, Intended);
            var src := fs.files[h.file];
            var copy := src[h.block.start..h.block.end];
            && m.err == None
            && m.fs.files.Keys == fs.files.Keys
            && m.fs.files[h.file] == Tidy(src[..h.block.start] + src[h.block.end..] + Prettify(copy, src),
                                          BufferChar, h.block.start, BufferCharMax)
            && (forall p :: p in fs.files && p != h.file ==> m.fs.files[p] == fs.files[p])
  {
    var src := fs.files[h.file];
    var (s, e) := (h.block.start, h.block.end);
    var copied := AppendToOwnFile(fs, h.file, s, e);
    CutAfterAppend(src, Prettify(src[s..e], src), s, e);
    var deleted := Deletion(copied, h.file, s, e);
    assert Relocation(o, fs, parser, Intended) == Moved(deleted.value, None);
  }

  /** Copying a range of a file into that same file appends the prettified copy to it. */
  lemma AppendToOwnFile(fs: Fs, file: string, s: nat, e: nat) returns (copied: Fs)
    requires file in fs.files && s <= e <= |fs.files[file]| && Openable(fs, file)
    ensures var src := fs.files[file];
            && CopyRange(fs, file, s, e, file, Intended) == Ok(copied)
            && copied == fs.(files := fs.files[file := src + Prettify(src[s..e], src)])
  {
    var src := fs.files[file];
    copied := fs.(files := fs.files[file := src + Prettify(src[s..e], src)]);
  }

  /** Cutting a range of the original bytes out of the bytes with something appended. */
  lemma CutAfterAppend(src: seq<byte>, tail: seq<byte>, s: nat, e: nat)
    requires s <= e <= |src|
    ensures (src + tail)[..s] + (src + tail)[e..] == src[..s] + src[e..] + tail
  {
    assert (src + tail)[..s] == src[..s];
    assert (src + tail)[e..] == src[e..] + tail;
  }

  /** Intended: a move whose destination is the block's own source file appends the copy to
      that file and cuts the original out; the file ends up holding the rest of its content,
      then the block on a line of its own, tidied. No other file changes. */
  lemma IntendedMoveWithinFile(o: Options, fs: Fs, parser: Parser)
    requires Consistent(o) && SoundParser(parser)
    requires Validation(o, fs, Intended).err.None?
    requires var v := Validation(o, fs, Intended).options;
             var found := Locate(fs, parser, v.sourceWorkspaceFiles, v.blockDescription);
             && found.Ok? && found.value.Some?
             && Openable(fs, Destination(v, v.blockDescription.value, Intended))
             && Destination(v, v.blockDescription.value, Intended) == found.value.value.file
    ensures var v := Validation(o, fs, Intended).options;
            var h := Locate(fs, parser, v.sourceWorkspaceFiles, v.blockDescription).value.value;
            var m := MoveOutcome(o, fs, parser, Intended);
            var src := fs.files[h.file];
            var copy := src[h.block.start..h.block.end];
            && m.err == None
            && m.fs.files.Keys == fs.files.Keys
            && m.fs.files[h.file] == Tidy(src[..h.block.start] + src[h.block.end..] + Prettify(copy, src),
                                          BufferChar, h.block.start, BufferCharMax)
            && (forall p :: p in fs.files && p != h.file ==> m.fs.files[p] == fs.files[p])
  {
    var v := Validation(o, fs, Intended).options;
    assert MoveOutcome(o, fs, parser, Intended) == Relocation(v, fs, parser, Intended);
    var h := Locate(fs, parser, v.sourceWorkspaceFiles, v.blockDescription).value.value;
    RelocatesWithinFile(v, fs, parser, h);
  }

  /** A parser that finds no blocks. */
  function NoBlocks(content: seq<byte>): Option<seq<ParsedBlock>>
  {
    Some([])
  }

  /** A source directory /src holding one regular file, main.tf. */
  const SampleFs := Fs(map["/src/main.tf" := BufferChar], map["/src" := [DirEntry("main.tf", true)]])

  /** Move resource a.b out of /src into /dst.tf. */
  const SampleOptions := Options("", Some(Resource("a", "b")), "/src", "", "", "/dst.tf", [])

  lemma SampleNames(rev: Revision)
    ensures Validation(SampleOptions, SampleFs, rev).err.None?
    ensures Validation(SampleOptions, SampleFs, rev).options.sourceWorkspaceFiles ==
            [if rev == Intended then "/src/main.tf" else "main.tf"]
  {
    var entries := [DirEntry("main.tf", true)];
    assert entries[..0] == [];
    assert Join("/src", "main.tf") == "/src/main.tf" by {
      assert "/src"[3] != '/';
      assert "/src" + "/" + "main.tf" == "/src/main.tf";
    }
    assert SourceNames("/src", entries, rev) == [EntryPath("/src", "main.tf", rev)];
  }

  lemma SampleSearch()
    ensures Locate(SampleFs, NoBlocks, ["main.tf"], Some(Resource("a", "b"))) == Err(ParseFailed("main.tf"))
    ensures Locate(SampleFs, NoBlocks, ["/src/main.tf"], Some(Resource("a", "b"))) == Ok(None)
  {
    assert "main.tf" !in SampleFs.files by {
      assert "main.tf"[0] != "/src/main.tf"[0];
    }
    assert Parse(SampleFs, NoBlocks, "/src/main.tf") == Ok([]);
    assert ["/src/main.tf"][1..] == [];
  }

  /** As written, the files of a source directory are searched under their bare names: with
      /src holding main.tf, the search opens "main.tf", not "/src/main.tf", and fails. A bare
      name is a key of its own here, as it is for a program run from a working directory other
      than /src that holds no main.tf. */
  lemma BareNamesMissTheFiles()
    ensures SoundParser(NoBlocks)
    ensures Validation(SampleOptions, SampleFs, AsWritten).options.sourceWorkspaceFiles == ["main.tf"]
    ensures MoveOutcome(SampleOptions, SampleFs, NoBlocks, AsWritten) == Moved(SampleFs, Some(ParseFailed("main.tf")))
    ensures Validation(SampleOptions, SampleFs, Intended).options.sourceWorkspaceFiles == ["/src/main.tf"]
    ensures MoveOutcome(SampleOptions, SampleFs, NoBlocks, Intended) == Moved(SampleFs, Some(NotFound))
  {
    SampleNames(AsWritten);
    SampleNames(Intended);
    SampleSearch();
  }

  /** As written, the copy is written at offset 0 of the destination: "A" moved into a file
      holding "x\n" leaves "A\n", where appending gives "x\nA\n". */
  lemma CopyOverwritesDestination()
    ensures Prettify([65], [120, NewLine]) == [65, NewLine]
    ensures Written([120, NewLine], [65, NewLine], AsWritten) == [65, NewLine]
    ensures Written([120, NewLine], [65, NewLine], Intended) == [120, NewLine, 65, NewLine]
  {
    assert Contents.FileEndsWith([120, NewLine], BufferChar) by {
      assert [120, NewLine] == [120 as byte] + BufferChar;
    }
  }
}
