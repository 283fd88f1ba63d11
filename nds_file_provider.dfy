/**
 * The virtual filesystem over a ROM image (`NdsFileProvider`): the mount pass
 * that reconciles the allocation table with the name table into a
 * name-indexed map of files, and the by-name queries over that map.
 */
module NdsFileProviders {
  import opened Results
  import opened Readers
  import opened DataPointers
  import opened Names

  /** A C# `ushort`: the type of file ids and of the mount loop's counter. */
  type UInt16 = x: int | 0 <= x < 0x1_0000

  /**
   * The most allocation slots a mount can walk: the `ushort` counter wraps
   * from 65535 to 0, so a table of 65536 or more slots never ends the loop
   * unless a slot raises.
   */
  const MaxSlots := 0xFFFF

  /** A mounted file: its virtual path and its byte range in the ROM. */
  datatype RomFile = RomFile(name: string, pointer: DataPointer)

  /** The decoded name table: paths of the named files and the first named id. */
  datatype NameTable = NameTable(filesById: map<UInt16, string>, firstId: UInt16)

  /** What the mount pass reads: the ROM bytes, both tables and the file-type registry. */
  datatype MountInput = MountInput(
    rom: seq<Byte>,
    allocationTable: seq<DataPointer>,
    nameTable: NameTable,
    registry: set<string>)
  {
    predicate CounterFits() {
      |allocationTable| <= MaxSlots
    }
  }

  /** The exceptions the mount pass can raise. */
  datatype MountError =
    | MissingName(id: UInt16)                  // `FilesById[id]` has no such key
    | PeekFailed(id: UInt16, error: ReadError)  // the magic tag lies outside the ROM

  /** The state of `Files` after (part of) the mount pass, and the exception that stopped it, if any. */
  datatype MountState = MountState(files: map<string, RomFile>, failure: Option<MountError>)

  /** The errors of the by-name queries. */
  datatype LoadError =
    | NotFound(path: string)        // `Files[path]` has no such key
    | BadRegion(error: ReadError)   // the file's range is not inside the ROM
    | DecodeFailed(message: string) // the object rejected its bytes

  /** A slot with backing bytes; the others are skipped. */
  predicate IsLive(p: DataPointer) {
    p.length > 0
  }

  /** Every entry is stored under its own name and refers to a live region. */
  predicate WellFormedIndex(files: map<string, RomFile>) {
    forall k :: k in files ==> files[k].name == k && IsLive(files[k].pointer)
  }

  /**
   * The virtual path of one live slot: `overlays/{id}.bin` below the first
   * named id; otherwise the name-table entry, verbatim when it has a `.`
   * anywhere, else with the lower-cased magic tag at the slot's offset
   * appended when the registry knows it and `.bin` when it does not.
   */
  function ResolveName(input: MountInput, id: UInt16): (r: Result<string, MountError>)
    requires id < |input.allocationTable|
    ensures r.Ok? ==> HasExtension(r.value)
    ensures id < input.nameTable.firstId ==> r == Ok(OverlayName(id))
    ensures id >= input.nameTable.firstId && id !in input.nameTable.filesById ==> r == Err(MissingName(id))
    ensures id >= input.nameTable.firstId && id in input.nameTable.filesById ==>
      var entry := input.nameTable.filesById[id];
      && (HasExtension(entry) ==> r == Ok(entry))
      && (r.Ok? ==> |r.value| >= |entry| && r.value[..|entry|] == entry)
      && (r.Err? <==> !HasExtension(entry) && PeekString(input.rom, 4, input.allocationTable[id].offset).Err?)
      && (!HasExtension(entry) && PeekString(input.rom, 4, input.allocationTable[id].offset).Ok? ==>
            r == Ok(AppendExtension(entry, ToLower(PeekString(input.rom, 4, input.allocationTable[id].offset).value), input.registry)))
  {
    var pointer := input.allocationTable[id];
    if id >= input.nameTable.firstId then
      if id !in input.nameTable.filesById then Err(MissingName(id))
      else
        var entry := input.nameTable.filesById[id];
        if HasExtension(entry) then Ok(entry)
        else match PeekString(input.rom, 4, pointer.offset)
          case Err(e) => Err(PeekFailed(id, e))
          case Ok(tag) => Ok(AppendExtension(entry, ToLower(tag), input.registry))
    else
      Ok(OverlayName(id))
  }

  /** One iteration of the mount loop: skip a dead slot, else store the file under its resolved name. */
  function MountSlot(input: MountInput, files: map<string, RomFile>, id: UInt16): (s: MountState)
    requires id < |input.allocationTable|
    ensures !IsLive(input.allocationTable[id]) ==> s == MountState(files, None)
    ensures files.Keys <= s.files.Keys
    ensures s.failure.Some? <==> IsLive(input.allocationTable[id]) && ResolveName(input, id).Err?
    ensures s.failure.Some? ==> s.files == files
  {
    var pointer := input.allocationTable[id];
    if !IsLive(pointer) then MountState(files, None)
    else match ResolveName(input, id)
      case Err(e) => MountState(files, Some(e))
      case Ok(name) => MountState(files[name := RomFile(name, pointer)], None)
  }

  /** `Files` after the loop has run for ids `0 .. n-1`, starting from `files`; the first exception ends it. */
  function MountUpTo(input: MountInput, files: map<string, RomFile>, n: nat): MountState
    requires input.CounterFits() && n <= |input.allocationTable|
    decreases n
  {
    if n == 0 then MountState(files, None)
    else
      var s := MountUpTo(input, files, n - 1);
      if s.failure.Some? then s else MountSlot(input, s.files, n - 1)
  }

  /** A live slot that resolves to `file`'s name with `file`'s region: the slot that wrote `file`. */
  predicate WrittenBy(input: MountInput, id: int, file: RomFile) {
    && 0 <= id < |input.allocationTable| && id < 0x1_0000
    && IsLive(input.allocationTable[id])
    && ResolveName(input, id) == Ok(file.name)
    && file.pointer == input.allocationTable[id]
  }

  /** Once an exception is raised no later slot is visited. */
  lemma {:induction false} FailureIsFinal(input: MountInput, files: map<string, RomFile>, n: nat, m: nat)
    requires input.CounterFits() && n <= m <= |input.allocationTable|
    requires MountUpTo(input, files, n).failure.Some?
    ensures MountUpTo(input, files, m) == MountUpTo(input, files, n)
    decreases m
  {
    if m > n {
      FailureIsFinal(input, files, n, m - 1);
    }
  }

  /** The mount succeeds exactly when every live slot it visits can be named. */
  lemma {:induction false} MountSucceedsIff(input: MountInput, files: map<string, RomFile>, n: nat)
    requires input.CounterFits() && n <= |input.allocationTable|
    ensures MountUpTo(input, files, n).failure.None? <==>
      forall id :: 0 <= id < n && IsLive(input.allocationTable[id]) ==> ResolveName(input, id).Ok?
    decreases n
  {
    if n > 0 {
      MountSucceedsIff(input, files, n - 1);
    }
  }

  /**
   * The first live slot that cannot be named stops the mount with its error,
   * leaving in `Files` what the slots before it wrote.
   */
  lemma FirstFailureStops(input: MountInput, files: map<string, RomFile>, id: nat, n: nat)
    requires input.CounterFits() && id < n <= |input.allocationTable|
    requires IsLive(input.allocationTable[id]) && ResolveName(input, id).Err?
    requires forall j :: 0 <= j < id && IsLive(input.allocationTable[j]) ==> ResolveName(input, j).Ok?
    ensures MountUpTo(input, files, n) == MountState(MountUpTo(input, files, id).files, Some(ResolveName(input, id).error))
  {
    MountSucceedsIff(input, files, id);
    FailureIsFinal(input, files, id + 1, n);
  }

  /** A live named id without a name-table entry makes the mount fail rather than skip it. */
  lemma MissingNameFails(input: MountInput, files: map<string, RomFile>, id: nat, n: nat)
    requires input.CounterFits() && id < n <= |input.allocationTable|
    requires IsLive(input.allocationTable[id])
    requires id >= input.nameTable.firstId && id !in input.nameTable.filesById
    ensures MountUpTo(input, files, n).failure.Some?
  {
    MountSucceedsIff(input, files, n);
  }

  /** The mount never removes a key: what `Files` holds after `m` slots it still holds after `n`. */
  lemma {:induction false} MountKeepsKeys(input: MountInput, files: map<string, RomFile>, m: nat, n: nat)
    requires input.CounterFits() && m <= n <= |input.allocationTable|
    ensures MountUpTo(input, files, m).files.Keys <= MountUpTo(input, files, n).files.Keys
    decreases n
  {
    if n > m {
      MountKeepsKeys(input, files, m, n - 1);
    }
  }

  /** Mounting keeps every entry stored under its own name and pointing at a live region. */
  lemma {:induction false} MountKeepsWellFormed(input: MountInput, files: map<string, RomFile>, n: nat)
    requires input.CounterFits() && n <= |input.allocationTable|
    requires WellFormedIndex(files)
    ensures WellFormedIndex(MountUpTo(input, files, n).files)
    decreases n
  {
    if n > 0 {
      MountKeepsWellFormed(input, files, n - 1);
    }
  }

  /**
   * Every entry of the result was either there before or written by a live
   * slot, under the name that slot resolves to and with that slot's region:
   * a slot of length `<= 0` contributes nothing.
   */
  lemma {:induction false} MountProvenance(input: MountInput, files: map<string, RomFile>, n: nat)
    requires input.CounterFits() && n <= |input.allocationTable|
    ensures var r := MountUpTo(input, files, n).files;
      forall k :: k in r ==>
        || (k in files && r[k] == files[k])
        || (r[k].name == k && exists id :: 0 <= id < n && WrittenBy(input, id, r[k]))
    decreases n
  {
    if n > 0 {
      MountProvenance(input, files, n - 1);
      var s := MountUpTo(input, files, n - 1);
      var r := MountUpTo(input, files, n).files;
      forall k | k in r
        ensures || (k in files && r[k] == files[k])
                || (r[k].name == k && exists id :: 0 <= id < n && WrittenBy(input, id, r[k]))
      {
        if s.failure.None? && IsLive(input.allocationTable[n - 1]) && ResolveName(input, n - 1) == Ok(k) {
          assert WrittenBy(input, n - 1, r[k]);
        } else {
          assert k in s.files && r[k] == s.files[k];
        }
      }
    }
  }

  /**
   * Last write wins: after a successful mount, a live slot's name holds that
   * slot's file unless a later live slot resolves to the same name.
   */
  lemma {:induction false} LastWriteWins(input: MountInput, files: map<string, RomFile>, id: nat, n: nat)
    requires input.CounterFits() && id < n <= |input.allocationTable|
    requires IsLive(input.allocationTable[id]) && ResolveName(input, id).Ok?
    requires MountUpTo(input, files, n).failure.None?
    requires forall j :: id < j < n && IsLive(input.allocationTable[j]) ==> ResolveName(input, j) != ResolveName(input, id)
    ensures var name := ResolveName(input, id).value;
      var r := MountUpTo(input, files, n).files;
      name in r && r[name] == RomFile(name, input.allocationTable[id])
    decreases n
  {
    if n - 1 > id {
      LastWriteWins(input, files, id, n - 1);
    }
  }

  /** After a successful mount every live slot's name is a key of `Files`. */
  lemma LiveSlotMounted(input: MountInput, files: map<string, RomFile>, id: nat, n: nat)
    requires input.CounterFits() && id < n <= |input.allocationTable|
    requires IsLive(input.allocationTable[id])
    requires MountUpTo(input, files, n).failure.None?
    ensures ResolveName(input, id).Ok? && ResolveName(input, id).value in MountUpTo(input, files, n).files
  {
    MountSucceedsIff(input, files, n);
    MountSucceedsIff(input, files, id);
    MountKeepsKeys(input, files, id + 1, n);
  }

  /** A live overlay slot is stored as `overlays/{id}.bin` with its own region unless a later named file takes that path. */
  lemma OverlayMounted(input: MountInput, files: map<string, RomFile>, id: nat, n: nat)
    requires input.CounterFits() && id < n <= |input.allocationTable|
    requires IsLive(input.allocationTable[id]) && id < input.nameTable.firstId
    requires MountUpTo(input, files, n).failure.None?
    requires forall j :: input.nameTable.firstId <= j < n && IsLive(input.allocationTable[j]) ==> ResolveName(input, j) != Ok(OverlayName(id))
    ensures var r := MountUpTo(input, files, n).files;
      OverlayName(id) in r && r[OverlayName(id)] == RomFile(OverlayName(id), input.allocationTable[id])
  {
    forall j | id < j < n && IsLive(input.allocationTable[j])
      ensures ResolveName(input, j) != ResolveName(input, id)
    {
      if j < input.nameTable.firstId {
        OverlayNamesDistinct(id, j);
      }
    }
    LastWriteWins(input, files, id, n);
  }

  /** A dead slot's descriptor has no influence: replacing it by any other dead one mounts the same files. */
  lemma {:induction false} DeadSlotIgnored(input: MountInput, files: map<string, RomFile>, id: nat, p: DataPointer, n: nat)
    requires input.CounterFits() && id < |input.allocationTable| && n <= |input.allocationTable|
    requires !IsLive(input.allocationTable[id]) && !IsLive(p)
    ensures var other := input.(allocationTable := input.allocationTable[id := p]);
      MountUpTo(other, files, n) == MountUpTo(input, files, n)
    decreases n
  {
    var other := input.(allocationTable := input.allocationTable[id := p]);
    if n > 0 {
      DeadSlotIgnored(input, files, id, p, n - 1);
      if n - 1 != id {
        assert ResolveName(other, n - 1) == ResolveName(input, n - 1);
      }
    }
  }

  /** The allocation table, name table and ROM of `MountExample`. */
  function ExampleInput(): MountInput {
    MountInput(
      [84, 69, 88, 32],
      [DataPointer(0, 0), DataPointer(100, 20), DataPointer(0, 30)],
      NameTable(map[2 := "data/map"], 2),
      {"tex "})
  }

  lemma ExampleOverlayName()
    ensures ResolveName(ExampleInput(), 1) == Ok("overlays/1.bin")
  {
    assert DecimalString(1) == "1";
    assert OverlayName(1) == "overlays/" + "1" + ".bin" == "overlays/1.bin";
  }

  lemma ExampleTag()
    ensures PeekString(ExampleInput().rom, 4, 0) == Ok("TEX ")
    ensures ToLower("TEX ") == "tex "
  {
    var tag := PeekString(ExampleInput().rom, 4, 0);
    assert tag.Ok? && tag.value[0] == 'T' && tag.value[1] == 'E' && tag.value[2] == 'X' && tag.value[3] == ' ';
    assert tag.value == "TEX ";
  }

  lemma ExampleNamedFile()
    ensures ResolveName(ExampleInput(), 2) == Ok("data/map.tex ")
  {
    var input := ExampleInput();
    ExampleTag();
    assert !HasExtension("data/map");
    assert ResolveName(input, 2) == Ok(AppendExtension("data/map", "tex ", input.registry));
    assert AppendExtension("data/map", "tex ", input.registry) == "data/map" + "." + "tex " == "data/map.tex ";
  }

  /**
   * Three slots: id 0 empty, id 1 an overlay (first named id 2), id 2 named
   * `data/map` whose bytes start with `TEX `. With `tex ` registered the
   * mount yields `overlays/1.bin` and `data/map.tex ` (the tag keeps its space).
   */
  lemma MountExample()
    ensures MountUpTo(ExampleInput(), map[], 3) == MountState(
        map["overlays/1.bin" := RomFile("overlays/1.bin", DataPointer(100, 20)),
            "data/map.tex " := RomFile("data/map.tex ", DataPointer(0, 30))],
        None)
  {
    var input := ExampleInput();
    ExampleOverlayName();
    ExampleNamedFile();
    assert MountUpTo(input, map[], 1) == MountState(map[], None);
    var one := map["overlays/1.bin" := RomFile("overlays/1.bin", DataPointer(100, 20))];
    assert MountUpTo(input, map[], 2) == MountState(one, None);
    assert MountUpTo(input, map[], 3) == MountState(one["data/map.tex " := RomFile("data/map.tex ", DataPointer(0, 30))], None);
  }

  /**
   * Two named ids whose entries are the same path: one entry remains, the
   * one of the higher id.
   */
  lemma CollisionExample()
    ensures var input := MountInput(
        [],
        [DataPointer(0, 10), DataPointer(10, 20)],
        NameTable(map[0 := "a.bin", 1 := "a.bin"], 0),
        {});
      MountUpTo(input, map[], 2) == MountState(map["a.bin" := RomFile("a.bin", DataPointer(10, 20))], None)
  {
    var input := MountInput(
        [],
        [DataPointer(0, 10), DataPointer(10, 20)],
        NameTable(map[0 := "a.bin", 1 := "a.bin"], 0),
        {});
    assert HasExtension("a.bin") by { assert "a.bin"[1] == '.'; }
    assert ResolveName(input, 0) == Ok("a.bin");
    assert ResolveName(input, 1) == Ok("a.bin");
  }

  /** The provider: the ROM reader and the mounted files (`Files`). */
  class NdsFileProvider {
    var files: map<string, RomFile>
    const reader: BaseReader

    /** Takes the ROM image as bytes; the file is read by the caller. */
    constructor (rom: seq<Byte>)
      ensures fresh(reader) && reader.data == rom && reader.position == 0
      ensures files == map[] && WellFormedIndex(files)
    {
      reader := new BaseReader(rom);
      files := map[];
    }

    /**
     * `Mount`: walks the allocation table by id and stores each live slot
     * under its resolved name. An exception is returned as `failure`, with
     * `Files` holding what the loop had written before it.
     */
    method Mount(allocationTable: seq<DataPointer>, nameTable: NameTable, registry: set<string>)
      returns (failure: Option<MountError>)
      requires |allocationTable| <= MaxSlots
      modifies this`files
      ensures MountState(files, failure)
           == MountUpTo(MountInput(reader.data, allocationTable, nameTable, registry), old(files), |allocationTable|)
    {
      ghost var input := MountInput(reader.data, allocationTable, nameTable, registry);
      var id: UInt16 := 0;
      while id < |allocationTable|
        invariant id <= |allocationTable|
        invariant MountUpTo(input, old(files), id) == MountState(files, None)
      {
        var pointer := allocationTable[id];
        if pointer.length > 0 {
          var fileName: string;
          if id >= nameTable.firstId {
            if id !in nameTable.filesById {
              failure := Some(MissingName(id));
              assert MountUpTo(input, old(files), id + 1) == MountState(files, failure);
              FailureIsFinal(input, old(files), id + 1, |allocationTable|);
              return;
            }
            fileName := nameTable.filesById[id];
            if '.' !in fileName {
              var peeked := PeekString(reader.data, 4, pointer.offset);
              if peeked.Err? {
                failure := Some(PeekFailed(id, peeked.error));
                assert MountUpTo(input, old(files), id + 1) == MountState(files, failure);
                FailureIsFinal(input, old(files), id + 1, |allocationTable|);
                return;
              }
              var extension := ToLower(peeked.value);
              if extension in registry {
                fileName := fileName + "." + extension;
              } else {
                fileName := fileName + ".bin";
              }
            }
          } else {
            fileName := "overlays/" + DecimalString(id) + ".bin";
          }
          files := files[fileName := RomFile(fileName, pointer)];
        }
        id := id + 1;
      }
      failure := None;
    }

    /** `LoadObject<T>(RomFile)`: decode the file's bytes, read through a reader scoped to its region. */
    function LoadObject<T>(file: RomFile, decode: seq<Byte> -> Result<T, string>): (r: Result<T, LoadError>)
      ensures r.Ok? <==> Slice(reader.data, file.pointer.offset, file.pointer.length).Ok?
                         && decode(Slice(reader.data, file.pointer.offset, file.pointer.length).value).Ok?
      ensures r.Ok? ==> r.value == decode(Slice(reader.data, file.pointer.offset, file.pointer.length).value).value
      ensures r.Err? ==> !r.error.NotFound?
    {
      match Slice(reader.data, file.pointer.offset, file.pointer.length)
      case Err(e) => Err(BadRegion(e))
      case Ok(bytes) =>
        match decode(bytes)
        case Err(message) => Err(DecodeFailed(message))
        case Ok(value) => Ok(value)
    }

    /** `LoadObject<T>(path)`: a missing path is reported as not found, never as a decode failure. */
    function LoadObjectByPath<T>(path: string, decode: seq<Byte> -> Result<T, string>): (r: Result<T, LoadError>)
      reads this
      ensures r == Err(NotFound(path)) <==> path !in files
      ensures path in files ==> r == LoadObject(files[path], decode)
    {
      if path in files then LoadObject(files[path], decode) else Err(NotFound(path))
    }

    /**
     * `TryLoadObject<T>(RomFile)`: `true` with the object when loading
     * succeeds; on any failure `false`, with `data` left null.
     */
    function TryLoadObject<T>(file: RomFile, decode: seq<Byte> -> Result<T, string>): (r: (bool, Option<T>))
      ensures r.0 <==> LoadObject(file, decode).Ok?
      ensures r.0 ==> r.1 == Some(LoadObject(file, decode).value)
      ensures !r.0 ==> r.1 == None
    {
      match LoadObject(file, decode)
      case Ok(value) => (true, Some(value))
      case Err(_) => (false, None)
    }

    /**
     * `TryLoadObject<T>(path)`: the lookup of `path` happens before the
     * guarded load, so a missing path is an error, not `false`.
     */
    function TryLoadObjectByPath<T>(path: string, decode: seq<Byte> -> Result<T, string>): (r: Result<(bool, Option<T>), LoadError>)
      reads this
      ensures r == Err(NotFound(path)) <==> path !in files
      ensures path in files ==> r == Ok(TryLoadObject(files[path], decode))
    {
      if path in files then Ok(TryLoadObject(files[path], decode)) else Err(NotFound(path))
    }

    /** `CreateReader(RomFile)`: a fresh reader over exactly the file's bytes, at position 0. */
    method CreateReader(file: RomFile) returns (r: Result<BaseReader, LoadError>)
      ensures var bytes := Slice(reader.data, file.pointer.offset, file.pointer.length);
        && (r.Ok? <==> bytes.Ok?)
        && (r.Ok? ==> fresh(r.value) && r.value.data == bytes.value && r.value.position == 0)
        && (r.Err? ==> r.error == BadRegion(bytes.error))
    {
      var scoped := reader.Scope(file.pointer.offset, file.pointer.length);
      match scoped {
        case Ok(s) => r := Ok(s);
        case Err(e) => r := Err(BadRegion(e));
      }
    }

    /** `CreateReader(path)`: not found when `path` is absent, else the file's scoped reader. */
    method CreateReaderByPath(path: string) returns (r: Result<BaseReader, LoadError>)
      ensures r.Err? && r.error == NotFound(path) <==> path !in files
      ensures path in files ==> var bytes := Slice(reader.data, files[path].pointer.offset, files[path].pointer.length);
        && (r.Ok? <==> bytes.Ok?)
        && (r.Ok? ==> fresh(r.value) && r.value.data == bytes.value && r.value.position == 0)
        && (r.Err? ==> r.error == BadRegion(bytes.error))
    {
      if path !in files {
        return Err(NotFound(path));
      }
      r := CreateReader(files[path]);
    }
  }
}
