/**
 * pkg/parser/blockdescription.go: a block description names one Terraform block, a module
 * ("module.NAME") or a resource ("TYPE.NAME"). It is built from a dotted address, matches
 * parsed block headers, names the file a moved block goes to and gives its address back.
 */
module BlockDescriptions {
  import opened Wrappers

  /** The header of an HCL block: its type keyword and its labels. */
  datatype Block = Block(blockType: string, labels: seq<string>)

  datatype BlockDescription =
    | Module(name: string)
    | Resource(rType: string, name: string)

  /** Why newModuleBlockDescription or newResourceBlockDescription refused an address. */
  datatype PartsError =
    | WrongModuleParts(address: string)
    | InvalidModuleAddress(address: string)
    | WrongResourceParts(address: string)

  /** Why New refused an address. */
  datatype DescriptionError =
    | NotEnoughParts(address: string)
    | NoValidDescription(address: string, cause: PartsError)

  /** Number of dots in s. */
  function Dots(s: string): nat
  {
    if s == [] then 0 else (if s[0] == '.' then 1 else 0) + Dots(s[1..])
  }

  /** strings.Split(s, "."): the pieces between the dots, empty pieces included. */
  function Split(s: string): (parts: seq<string>)
    ensures |parts| == Dots(s) + 1
    ensures forall i :: 0 <= i < |parts| ==> '.' !in parts[i]
    decreases |s|
  {
    if s == [] then [[]]
    else
      var rest := Split(s[1..]);
      if s[0] == '.' then [[]] + rest
      else
        assert '.' !in rest[0];
        [[s[0]] + rest[0]] + rest[1..]
  }

  /** strings.Join(parts, "."). */
  function JoinParts(parts: seq<string>): string
    requires |parts| >= 1
  {
    if |parts| == 1 then parts[0] else parts[0] + "." + JoinParts(parts[1..])
  }

  /** Joining the pieces of a split gives the address back. */
  lemma {:induction false} JoinSplit(s: string)
    ensures JoinParts(Split(s)) == s
    decreases |s|
  {
    if s != [] {
      JoinSplit(s[1..]);
      var rest := Split(s[1..]);
      if s[0] == '.' {
        assert Split(s)[1..] == rest;
      } else {
        var parts := Split(s);
        if |rest| == 1 {
          assert parts == [[s[0]] + rest[0]];
        } else {
          assert parts[1..] == rest[1..];
          assert JoinParts(rest) == rest[0] + "." + JoinParts(rest[1..]);
        }
      }
    }
  }

  /** A dot-free string is one piece. */
  lemma {:induction false} SplitNoDot(s: string)
    requires '.' !in s
    ensures Split(s) == [s]
    decreases |s|
  {
    if s != [] {
      assert '.' !in s[1..] by {
        forall i | 0 <= i < |s| - 1 ensures s[1..][i] != '.' { assert s[1..][i] == s[i + 1]; }
      }
      SplitNoDot(s[1..]);
      assert [s[0]] + s[1..] == s;
    }
  }

  /** A dot-free head followed by a dot splits off as the first piece. */
  lemma {:induction false} SplitAfterHead(a: string, b: string)
    requires '.' !in a
    ensures Split(a + "." + b) == [a] + Split(b)
    decreases |a|
  {
    if a == [] {
      assert a + "." + b == ['.'] + b;
      assert (['.'] + b)[1..] == b;
    } else {
      var s := a + "." + b;
      assert s[1..] == a[1..] + "." + b;
      assert '.' !in a[1..] by {
        forall i | 0 <= i < |a| - 1 ensures a[1..][i] != '.' { assert a[1..][i] == a[i + 1]; }
      }
      SplitAfterHead(a[1..], b);
      assert [a[0]] + a[1..] == a;
    }
  }

  /** The two pieces of an address with exactly one dot. */
  lemma TwoParts(x: string, y: string)
    requires '.' !in x && '.' !in y
    ensures Split(x + "." + y) == [x, y]
  {
    SplitAfterHead(x, y);
    SplitNoDot(y);
  }

  /** newModuleBlockDescription: only "module.NAME" is accepted. */
  function NewModule(address: string): (r: Result<BlockDescription, PartsError>)
    ensures r.Ok? ==> r.value.Module? && '.' !in r.value.name && address == "module." + r.value.name
    ensures Dots(address) != 1 ==> r == Err(WrongModuleParts(address))
  {
    var parts := Split(address);
    if |parts| != 2 then Err(WrongModuleParts(address))
    else if parts[0] != "module" then Err(InvalidModuleAddress(address))
    else
      JoinSplit(address);
      Ok(Module(parts[1]))
  }

  /** newResourceBlockDescription: any "TYPE.NAME" is accepted, empty pieces included. */
  function NewResource(address: string): (r: Result<BlockDescription, PartsError>)
    ensures r.Ok? ==> r.value.Resource? && '.' !in r.value.rType && '.' !in r.value.name
    ensures r.Ok? ==> address == r.value.rType + "." + r.value.name
    ensures r.Ok? <==> Dots(address) == 1
    ensures r.Err? ==> r.error == WrongResourceParts(address)
  {
    var parts := Split(address);
    if |parts| != 2 then Err(WrongResourceParts(address))
    else
      JoinSplit(address);
      Ok(Resource(parts[0], parts[1]))
  }

  /** New: the first piece chooses the kind; the kind's own constructor checks the rest. */
  function New(address: string): (r: Result<BlockDescription, DescriptionError>)
    ensures r.Ok? <==> Dots(address) == 1
    ensures Dots(address) == 0 ==> r == Err(NotEnoughParts(address))
  {
    var parts := Split(address);
    if |parts| <= 1 then Err(NotEnoughParts(address))
    else if parts[0] == "module" then
      match NewModule(address)
      case Ok(m) => Ok(m)
      case Err(e) => Err(NoValidDescription(address, e))
    else
      match NewResource(address)
      case Ok(m) => Ok(m)
      case Err(e) => Err(NoValidDescription(address, e))
  }

  /** address(): the dotted address of the description. */
  function Address(bd: BlockDescription): string
  {
    match bd
    case Module(name) => "module." + name
    case Resource(rType, name) => rType + "." + name
  }

  /** A description New can give: pieces without dots, and a resource type other than the
      module keyword (which New reads as a module). */
  predicate WellFormed(bd: BlockDescription)
  {
    match bd
    case Module(name) => '.' !in name
    case Resource(rType, name) => '.' !in rType && '.' !in name && rType != "module"
  }

  /** What New accepts, stated without Split: exactly the addresses of well-formed
      descriptions, and the address is the one given. */
  lemma NewAcceptsExactly(address: string, bd: BlockDescription)
    ensures New(address) == Ok(bd) <==> WellFormed(bd) && Address(bd) == address
  {
    if New(address) == Ok(bd) {
      var parts := Split(address);
      JoinSplit(address);
      assert JoinParts(parts) == parts[0] + "." + parts[1];
    }
    if WellFormed(bd) && Address(bd) == address {
      match bd
      case Module(name) =>
        TwoParts("module", name);
        assert address == "module" + "." + name;
      case Resource(rType, name) =>
        TwoParts(rType, name);
    }
  }

  /** address() inverts New. */
  lemma AddressOfNew(address: string)
    requires New(address).Ok?
    ensures Address(New(address).value) == address
    ensures WellFormed(New(address).value)
  {
    NewAcceptsExactly(address, New(address).value);
  }

  /** New inverts address() exactly on well-formed descriptions. */
  lemma NewOfAddress(bd: BlockDescription)
    ensures New(Address(bd)) == Ok(bd) <==> WellFormed(bd)
  {
    NewAcceptsExactly(Address(bd), bd);
  }

  /** Why New refuses: too few pieces, or too many for the kind the first piece names. */
  lemma NewRefusal(address: string)
    requires Dots(address) >= 2
    ensures Split(address)[0] == "module" ==> New(address) == Err(NoValidDescription(address, WrongModuleParts(address)))
    ensures Split(address)[0] != "module" ==> New(address) == Err(NoValidDescription(address, WrongResourceParts(address)))
  {
  }

  /** The header a description stands for. */
  function Header(bd: BlockDescription): Block
  {
    match bd
    case Module(name) => Block("module", [name])
    case Resource(rType, name) => Block("resource", [rType, name])
  }

  /** Both Matches methods: the type keyword, the label count and each label must agree. */
  function Matches(bd: BlockDescription, b: Block): (r: bool)
    ensures r <==> b == Header(bd)
  {
    match bd
    case Module(name) =>
      if b.blockType != "module" then false
      else if |b.labels| != 1 then false
      else b.labels[0] == name
    case Resource(rType, name) =>
      if b.blockType != "resource" then false
      else if |b.labels| != 2 then false
      else b.labels[0] == rType && b.labels[1] == name
  }

  /** Two descriptions match a common header only when they are the same description. */
  lemma MatchesOneDescription(b: Block, bd1: BlockDescription, bd2: BlockDescription)
    requires Matches(bd1, b) && Matches(bd2, b)
    ensures bd1 == bd2
  {
  }

  /** DestinationFileName: one file per module, one shared file for all resources. */
  function DestinationFileName(bd: BlockDescription): (f: string)
    ensures |f| > 7 && f[|f| - 7..] == ".tuf.tf"
  {
    match bd
    case Module(name) => "module_" + name + ".tuf.tf"
    case Resource(_, _) => "resources.tuf.tf"
  }

  /** Moved blocks share a destination file exactly when they are the same module or both
      resources. */
  lemma DestinationsShared(bd1: BlockDescription, bd2: BlockDescription)
    ensures DestinationFileName(bd1) == DestinationFileName(bd2) <==>
            bd1 == bd2 || (bd1.Resource? && bd2.Resource?)
  {
    var f1, f2 := DestinationFileName(bd1), DestinationFileName(bd2);
    if f1 == f2 {
      assert f1[0] == f2[0];
      if bd1.Module? && bd2.Module? {
        assert bd1.name == f1[7..|f1| - 7];
        assert bd2.name == f2[7..|f2| - 7];
      }
    }
  }

  /** Three dotted pieces are refused whatever the first piece is, as for
      "data.aws_security_group.foo" and "module.toomany.parts". */
  lemma NewRefusesThreeParts(x: string, y: string, z: string)
    requires '.' !in x && '.' !in y && '.' !in z
    ensures x == "module" ==> New(x + "." + y + "." + z) == Err(NoValidDescription(x + "." + y + "." + z, WrongModuleParts(x + "." + y + "." + z)))
    ensures x != "module" ==> New(x + "." + y + "." + z) == Err(NoValidDescription(x + "." + y + "." + z, WrongResourceParts(x + "." + y + "." + z)))
  {
    var a := x + "." + y + "." + z;
    assert a == x + "." + (y + "." + z);
    TwoParts(y, z);
    SplitAfterHead(x, y + "." + z);
  }
}
