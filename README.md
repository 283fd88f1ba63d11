# ndsSharp ROM filesystem: mount pass and region descriptors

This project models, in Dafny, the core of the ndsSharp ROM virtual filesystem.

- **Region descriptors** (`DataPointer`) are decoded from two 32-bit reads. The pair is either an offset and a length (`OffsetLength`, the default) or a start and an end offset (`StartEnd`). For `StartEnd`, the length is the end minus the start, computed as unchecked C# `int` subtraction.
- **The mount pass** (`NdsFileProvider.Mount`) walks the allocation table by numeric id and skips slots whose length is not positive. Ids below the name table's first id become overlays named `overlays/{id}.bin`. Every other id takes its name-table path. A path with no `.` anywhere is repaired: the lower-cased four-byte magic tag at the slot's offset is appended when the file-type registry knows the tag, and `.bin` otherwise. Each file is stored in the `Files` dictionary under its path; a later id overwrites an earlier one with the same path.
- **The by-name queries** (`LoadObject`, `TryLoadObject`, `CreateReader`) look a path up in `Files` and give access to a reader scoped to that file's byte range.

Modules:

- `Results` (results.dfy): the `Option` and `Result` datatypes. Exceptions of the C# code become `Err` values, and null becomes `None`.
- `Readers` (reader.dfy): the byte cursor `BaseReader`. Its source is not part of this model, so the module fixes the behaviour the core relies on:
  - integers are little-endian;
  - a read, peek or scope outside the buffer fails;
  - peeking does not move the cursor;
  - a peek of `count` bytes yields exactly `count` characters, byte b as character b, with no trimming of spaces or NULs;
  - a scoped reader starts at position 0.
- `DataPointers` (data_pointer.dfy): the descriptor, its decoder as a function, and the constructor as a method that moves the cursor.
- `Names` (names.dfy): decimal text of ids, overlay paths, `ToLower`, extension repair.
- `NdsFileProviders` (nds_file_provider.dfy) holds the provider model:
  - the naming function `ResolveName`;
  - the mount specification `MountUpTo`, a fold of `MountSlot` over ids `0 .. n-1`;
  - the lemmas about that fold;
  - the class `NdsFileProvider`, whose `Mount` loop is proved equal to the fold, and the query functions and methods.

Behaviour of the code that a reader might not expect, all of it kept in the model:

- The extension check looks for a `.` anywhere in the name-table path, not only in its final segment. So `dir.v2/file` is kept verbatim.
- The sniffed tag is the whole four-character peek, lower-cased. Under the assumption that `PeekString` returns its four characters untrimmed, a tag such as `TEX ` becomes `tex `, trailing space included. When `tex ` is registered the file is then mounted as `data/map.tex `, not `data/map.tex` (see `MountExample`).
- The loop counter is a `ushort`. With 65536 or more slots it wraps from 65535 back to 0, so the loop does not end unless a slot raises. `Mount` therefore requires at most 65535 slots.
- `TryLoadObject(path)` looks the path up before its guarded block. So a missing path is an error there, not a `false` result.
- Descriptor fields are signed 32-bit. For `StartEnd` the wrapped difference can be positive even when the end lies before the start (`StartEndWrapExample`). Such a slot is then mounted as live.
- The magic tag is peeked from the ROM at the slot's offset, regardless of the slot's length. For a file shorter than four bytes, the tag includes bytes that lie beyond the file.
- An exception in the mount pass (a missing name-table entry, a tag outside the ROM) leaves in `Files` the entries written before it. `Mount` returns the exception together with that partial state.

## Model

| member | source | states |
|---|---|---|
| `Readers.Wrap32` | ndsSharp.Core/Data/DataPointer.cs:26 | unchecked 32-bit result: equal to the exact value when it fits, and congruent to it modulo 2^32 always |
| `Readers.DecodeInt32` | ndsSharp.Core/Data/DataPointer.cs:17 | a `Read<int>` is negative exactly when the top bit of its fourth byte is set, and its low byte is the first byte read |
| `Readers.DecodeEncodeInt32` | ndsSharp.Core/Data/DataPointer.cs:17-18 | an int32 read decodes the four bytes that store it, wherever they sit in the buffer |
| `Readers.PeekString` | ndsSharp.Core/Providers/NdsFileProvider.cs:52 | a peek succeeds exactly when the range is inside the ROM; it then yields `count` characters, each the byte at that position, and fails with the range otherwise |
| `Readers.Slice` | ndsSharp.Core/Providers/NdsFileProvider.cs:96 | a file's bytes are exactly the ROM bytes of its range; a range that is negative or passes the end fails |
| `Readers.BaseReader.ReadInt32` | ndsSharp.Core/Data/DataPointer.cs:17 | a read returns the little-endian int32 at the cursor and moves it 4 bytes on; past the end it fails and the cursor stays |
| `Readers.BaseReader.Scope` | ndsSharp.Core/Providers/NdsFileProvider.cs:96 | a scoped reader is fresh, holds exactly the range's bytes and starts at position 0; an out-of-range region fails |
| `DataPointers.DecodeDataPointer` | ndsSharp.Core/Data/DataPointer.cs:11-30 | decoding succeeds exactly when 8 bytes are available; the offset is always the first int32; a short buffer fails at the read that runs out |
| `DataPointers.ReadDataPointer` | ndsSharp.Core/Data/DataPointer.cs:11-30 | the constructor yields the decoded descriptor, `OffsetLength` by default; success moves the cursor exactly 8 bytes, and a failure leaves it after the last complete read |
| `DataPointers.OffsetLengthRoundTrip` | ndsSharp.Core/Data/DataPointer.cs:15-19 | in `OffsetLength` form, offset and length are read back verbatim, at any position in the buffer |
| `DataPointers.StartEndDecodes` | ndsSharp.Core/Data/DataPointer.cs:21-27 | in `StartEnd` form, at any position in the buffer, the offset is the first int and the length is the end minus the offset, wrapped to 32 bits |
| `DataPointers.StartEndMatchesOffsetLength` | ndsSharp.Core/Data/DataPointer.cs:15-27 | `[o, o+l]` as start/end and `[o, l]` as offset/length decode to the same `{o, l}` when `o+l` fits in 32 bits |
| `DataPointers.StartEndExample` | ndsSharp.Core/Data/DataPointer.cs:15-27 | `[100,150]` as start/end and `[100,50]` as offset/length both give `{100, 50}` |
| `DataPointers.StartEndBackwardsIsNegative` | ndsSharp.Core/Data/DataPointer.cs:26 | an end before the offset raises no error and gives a negative length, when the difference fits in 32 bits |
| `DataPointers.StartEndWrapExample` | ndsSharp.Core/Data/DataPointer.cs:26 | start 1 and end -2^31 give the positive length 2^31-1: the subtraction wraps |
| `Names.DecimalString` | ndsSharp.Core/Providers/NdsFileProvider.cs:67 | an id's text is non-empty, all decimal digits, with a leading `0` only for zero |
| `Names.ParseDecimalString` | ndsSharp.Core/Providers/NdsFileProvider.cs:67 | an id's decimal text parses back to the id |
| `Names.OverlayName` | ndsSharp.Core/Providers/NdsFileProvider.cs:67 | an overlay path is `overlays/`, then the canonical decimal text of the id, then `.bin`, so it has an extension |
| `Names.OverlayNameRoundTrip` | ndsSharp.Core/Providers/NdsFileProvider.cs:67 | the id can be read back from its overlay path |
| `Names.OverlayNamesDistinct` | ndsSharp.Core/Providers/NdsFileProvider.cs:67-68 | distinct overlay ids get distinct paths, so overlays never overwrite each other |
| `Names.LowerChar` | ndsSharp.Core/Providers/NdsFileProvider.cs:52 | a lowered character is never a capital letter; A to Z move to a to z, and every other character is kept |
| `Names.HasExtension` | ndsSharp.Core/Providers/NdsFileProvider.cs:50 | a name has an extension when it contains a `.` anywhere, not only in its last path segment |
| `Names.ToLower` | ndsSharp.Core/Providers/NdsFileProvider.cs:52 | lower-casing keeps the length and maps each character to its lower-case form |
| `Names.ToLowerIdempotent` | ndsSharp.Core/Providers/NdsFileProvider.cs:52 | a lower-cased tag contains no capital letter, and lower-casing it again changes nothing |
| `Names.AppendExtension` | ndsSharp.Core/Providers/NdsFileProvider.cs:53-60 | the repaired name extends the entry with `.`, then the tag if it is registered and `bin` if not, so it always has an extension |
| `NdsFileProviders.IsLive` | ndsSharp.Core/Providers/NdsFileProvider.cs:45 | a slot is mounted only when its length is positive |
| `NdsFileProviders.ResolveName` | ndsSharp.Core/Providers/NdsFileProvider.cs:47-67 | ids below `FirstId` are named `overlays/{id}.bin`; a named id missing from `FilesById` fails; an entry with a `.` is kept verbatim; an entry without one becomes the entry, `.`, and the lower-cased 4-byte tag at the slot's offset when the registry holds it, or the entry and `.bin` when it does not; the only other failure is a tag outside the ROM; every resolved name has an extension |
| `NdsFileProviders.MountSlot` | ndsSharp.Core/Providers/NdsFileProvider.cs:44-68 | one loop iteration: a dead slot changes nothing; a live slot fails exactly when it cannot be named, and then leaves `Files` unchanged; no iteration removes a key |
| `NdsFileProviders.MountUpTo` | ndsSharp.Core/Providers/NdsFileProvider.cs:42-70 | the loop over ids `0 .. n-1` as a fold of `MountSlot`, stopping at the first exception; the reference `Mount` is proved equal to |
| `NdsFileProviders.FailureIsFinal` | ndsSharp.Core/Providers/NdsFileProvider.cs:42-71 | once the loop raises, no later slot is visited and `Files` stays as it was |
| `NdsFileProviders.MountSucceedsIff` | ndsSharp.Core/Providers/NdsFileProvider.cs:42-63 | the mount succeeds if and only if every live slot can be named |
| `NdsFileProviders.FirstFailureStops` | ndsSharp.Core/Providers/NdsFileProvider.cs:49-52 | the first live slot that cannot be named ends the mount with its error, leaving the entries of the slots before it |
| `NdsFileProviders.MissingNameFails` | ndsSharp.Core/Providers/NdsFileProvider.cs:49 | a live id at or above `FirstId` that is missing from `FilesById` makes the mount fail instead of being skipped |
| `NdsFileProviders.MountKeepsKeys` | ndsSharp.Core/Providers/NdsFileProvider.cs:63-68 | the mount never removes a key: the keys after `m` slots remain after `n >= m` slots |
| `NdsFileProviders.MountKeepsWellFormed` | ndsSharp.Core/Providers/NdsFileProvider.cs:45-68 | each stored file's name equals its key, and its region has positive length |
| `NdsFileProviders.MountProvenance` | ndsSharp.Core/Providers/NdsFileProvider.cs:42-68 | every new entry was written by a live slot, under that slot's resolved name and with that slot's pointer; slots of length `<= 0` write nothing |
| `NdsFileProviders.LastWriteWins` | ndsSharp.Core/Providers/NdsFileProvider.cs:42-68 | after a successful mount, a live slot's path holds that slot's file unless a later live slot resolves to the same path |
| `NdsFileProviders.LiveSlotMounted` | ndsSharp.Core/Providers/NdsFileProvider.cs:42-68 | after a successful mount, every live slot's path is a key of `Files` |
| `NdsFileProviders.OverlayMounted` | ndsSharp.Core/Providers/NdsFileProvider.cs:65-68 | a live overlay slot is stored as `overlays/{id}.bin` with its own pointer, unless a later named file takes that path |
| `NdsFileProviders.DeadSlotIgnored` | ndsSharp.Core/Providers/NdsFileProvider.cs:44-45 | replacing a dead slot's descriptor with any other dead descriptor mounts exactly the same files |
| `NdsFileProviders.MountExample` | ndsSharp.Core/Providers/NdsFileProvider.cs:42-69 | empty id 0, overlay id 1 and `data/map` with tag `TEX ` mount as `overlays/1.bin` and `data/map.tex ` |
| `NdsFileProviders.CollisionExample` | ndsSharp.Core/Providers/NdsFileProvider.cs:63 | two ids named `a.bin` leave one entry, holding the higher id's pointer |
| `NdsFileProviders.NdsFileProvider.constructor` | ndsSharp.Core/Providers/NdsFileProvider.cs:25-28 | the provider reads the given ROM bytes from position 0 and starts with no files |
| `NdsFileProviders.NdsFileProvider.Mount` | ndsSharp.Core/Providers/NdsFileProvider.cs:40-71 | the `ushort` loop leaves `Files`, and returns the exception if one was raised, exactly as the fold `MountUpTo` does from the old `Files`; the table has at most 65535 slots |
| `NdsFileProviders.NdsFileProvider.LoadObject` | ndsSharp.Core/Providers/NdsFileProvider.cs:75 | loading succeeds exactly when the file's region is inside the ROM and the object accepts those bytes; its failures are never not-found |
| `NdsFileProviders.NdsFileProvider.LoadObjectByPath` | ndsSharp.Core/Providers/NdsFileProvider.cs:73 | a path fails with not-found if and only if it is absent from `Files`; otherwise the stored file is loaded |
| `NdsFileProviders.NdsFileProvider.TryLoadObject` | ndsSharp.Core/Providers/NdsFileProvider.cs:79-92 | returns `true` with the object exactly when loading succeeds, and `false` with null data on any failure |
| `NdsFileProviders.NdsFileProvider.TryLoadObjectByPath` | ndsSharp.Core/Providers/NdsFileProvider.cs:77 | an absent path fails with not-found instead of returning `false`; otherwise it behaves as `TryLoadObject` on the stored file |
| `NdsFileProviders.NdsFileProvider.CreateReader` | ndsSharp.Core/Providers/NdsFileProvider.cs:94-97 | the file's reader is fresh, covers exactly the file's bytes and starts at 0; an out-of-range region fails |
| `NdsFileProviders.NdsFileProvider.CreateReaderByPath` | ndsSharp.Core/Providers/NdsFileProvider.cs:99 | not-found exactly when the path is absent; otherwise the stored file's scoped reader, or the bad-region error of its out-of-range region |

## Left out

- `Initialize` builds `RomHeader`, `AllocationTable` and `NameTable` from the ROM. Their classes and the recursive name-table decode are not part of this model. The decoded tables are inputs of `Mount`, and `FNTB` (a wrapper around that decode) is left out for the same reason.
- Reading the ROM file from disk (`File.ReadAllBytes`, and the `FileInfo` constructor) is I/O. The constructor takes the ROM bytes instead.
- `FileTypeRegistry` is an external table. It is a `set<string>` parameter whose membership plays `Contains`.
- `ReadObject<T>` and the concrete decodable types are generic, reflection-based code. Decoding is a function parameter from a file's bytes to a value or an error message.
- The error log in `TryLoadObject` is a diagnostic side effect and is not modelled.
- `BaseReader`'s source is not available. The `Readers.BaseReader` class is a stand-in, and its byte order and out-of-range behaviour are assumptions, stated in `Readers`.
- Names.LowerChar, Names.ToLower: assume a culture that maps A to Z onto a to z and leaves every other character unchanged. `string.ToLower()` uses the current culture, and culture-dependent lowering is not modelled. That includes the Turkish I, which lowers to a dotless `ı` under tr-TR, and non-ASCII capitals such as `À` (from a peeked byte 0xC0), which .NET lowers to `à` and the model keeps.
- `PeekString`'s text decoding is an assumption: each byte becomes the character with that code, and nothing is trimmed.
- `Files` has a public setter in the source, so other code can replace the dictionary. `WellFormedIndex` therefore holds for the provider's own operations (`MountKeepsWellFormed`), not against such writes.
- `DataPointerType` has only its two named values. A C# enum can also hold other values, such as `(DataPointerType)2`. Such a value matches no case of the constructor's `switch`, so nothing is read and the descriptor is `{0, 0}`. The model cannot express this.
