# GPT disk-image writer, modelled in Dafny

`create_img` writes a raw disk image for a UEFI boot loader. The image has:

- a protective MBR in sector 0 (section 5.2.3 of the UEFI Specification);
- a primary GPT header in sector 1 and its 128-entry partition array from sector 2 (sections 5.3.2 and 5.3.3);
- the same array and a backup header at the end of the disk.

The array describes an EFI System Partition and a basic-data partition. Both start on 1 MiB boundaries. `add_mbr` is an earlier tool that writes only the protective MBR, with the sector size fixed at 512 bytes.

The model has these modules:

- `Bytes`: the integer widths of the C code (`uint8_t` to `uint64_t`), written out as explicit truncations. Also little-endian encoding and decoding of fields, with round-trip lemmas.
- `Lba`:
  - `bytesToLBAs` as ceiling division, done in 64 bits on a 32-bit argument;
  - `getNextAlignedLBA`, which always moves strictly up to the next boundary;
  - the layout block of `main`: image size, alignment unit, ESP and data start sectors;
  - lemmas that the default layout is 73795 sectors with the partitions at 2048 and 71680, and that non-zero ESP and data sizes at 512-byte sectors whose image fits in 32 bits give aligned, ordered partitions inside the usable range.
- `Crc32`:
  - the table-driven CRC-32: reflected polynomial 0xEDB88320, register preset to all ones, result complemented;
  - `createCRC32Table` and `calcCRC32` as methods of a class holding `crc_table` and `crc_table_init`. The table is built on first use only, and a later call leaves it unchanged;
  - the check value of `"123456789"` (0xCBF43926) and the CRC of the empty buffer (0).
- `Guids`: the packed `Guid` struct and `getGuid`. The 16 random bytes are read as fields on a little-endian host, then the version nibble is forced to 0100 and the top three bits of `clockSeqHighRes` to 110.
- `Mbr`: the packed MBR structs (512 bytes) and the protective record (type 0xEE, LBA 1 onwards), byte for byte.
- `Gpt`:
  - the header (92 meaningful bytes in a 512-byte sector) and the entry (128 bytes) as byte encodings, with a header decoder;
  - the CRC fields and how they are sealed;
  - the partition table and the primary and backup headers of `writeGpts`;
  - what a GPT reader checks on a disk (`IsGptDisk`).
- `Disk`: the output file as a byte sequence with a position. Each `fseek`/`fwrite` is a positioned overwrite that may fail or be short. A run is a list of write operations: applying all of them is a complete run, and stopping part-way into one of them is an abandoned run.
- `CreateImg`:
  - the globals of `create_img.c` as a class;
  - `padOutZeroes`, `writeMbr` and `writeGpts`, split into the header-building and copy-writing steps the function performs in order, plus `main`;
  - the image a run leaves when every call succeeds. It is proved to be the MBR, primary header, table, table copy and backup header at their sectors, and to pass a GPT reader's checks. A run abandoned part-way is proved to leave a shorter file.
- `AddMbr`: `add_mbr.c`'s `bytesToLBAs`, `writeMbr` and the size computation of its `main`. It is proved to agree with `create_img`'s functions.

Where the code departs from RFC 4122, from section 5.2.3 of the UEFI Specification or from what its function names suggest, the model follows the code:

- `getGuid` sets the top three bits of `clockSeqHighRes` to 110. That is the variant RFC 4122 (section 4.1.1) reserves for Microsoft backward compatibility, not the variant 10 that the RFC's own version-4 GUIDs carry (section 4.4).
- RFC 4122 means its identifiers to be unique, but `getGuid` reseeds from `time(NULL)` on every call, so GUIDs drawn in the same second are identical. In the model each call takes a clock reading, and equal readings give equal GUIDs.
- `padOutZeroes`, despite its name, does not pad sector 0 out to the end of a sector. It writes `lba_size` zero bytes after the 512-byte MBR, a whole sector. With 512-byte sectors those zeros land in sector 1 and are later covered by the primary header (`CreateImg.PaddingCovered`).
- The UEFI Specification sets the protective record's size to the disk size minus one, or 0xFFFFFFFF when that is too large. `writeMbr` computes it in `uint32_t` arithmetic, so a `write_size` of 0 also gives 0xFFFFFFFF.

## Model

| member | source | states |
|---|---|---|
| `Bytes.Trunc32OfTrunc64` | utils/create_img.c:92-94 | narrowing the 64-bit quotient to `uint32_t` keeps its low 32 bits, so 64-then-32 truncation is 32-bit truncation |
| `Bytes.ZerosAppend` | utils/create_img.c:96-106 | zero runs concatenate into a zero run of the summed length |
| `Bytes.Le16RoundTrip` | utils/create_img.c:15-23 | decoding the little-endian bytes of a `uint16_t` gives it back |
| `Bytes.ReadLe16RoundTrip` | utils/create_img.c:146-147 | any two bytes are the encoding of the `uint16_t` they decode to |
| `Bytes.Le32RoundTrip` | utils/create_img.c:44-61 | decoding the four little-endian bytes of a `uint32_t` field gives it back |
| `Bytes.ReadLe32RoundTrip` | utils/create_img.c:145 | any four bytes are the encoding of the `uint32_t` read from them |
| `Bytes.Le64RoundTrip` | utils/create_img.c:44-61 | decoding the eight little-endian bytes of a `uint64_t` field gives it back |
| `Bytes.ReadLe64RoundTrip` | utils/create_img.c:44-61 | any eight bytes are the encoding of the `uint64_t` they decode to |
| `Bytes.Le32Injective` | utils/create_img.c:44-61 | distinct `uint32_t` values have distinct encodings |
| `Bytes.Le64Injective` | utils/create_img.c:44-61 | distinct `uint64_t` values have distinct encodings |
| `Lba.BytesToLBAsIsCeiling` | utils/create_img.c:92-94 | `bytesToLBAs(b)` is the ceiling of b / lba_size: r·lba_size ≥ b and (r−1)·lba_size < b, with no 64-bit overflow for any 32-bit b |
| `Lba.BytesToLBAsIdempotent` | utils/create_img.c:92-94 | converting the sector count back to bytes and again to sectors gives the same count |
| `Lba.ExactCeil` | utils/create_img.c:92-94 | a whole number of sectors in bytes rounds up to exactly that number |
| `Lba.NextAlignedLBAIsLeastMultipleAbove` | utils/create_img.c:108-110 | `getNextAlignedLBA(l)` is a multiple of align_lba, strictly above l, at most l + align_lba, a full unit above an aligned l, and the least multiple above l |
| `Lba.AlignLbaBound` | utils/create_img.c:276 | align_lba = ALIGNMENT / lba_size is a positive number of sectors no larger than ALIGNMENT |
| `Lba.TableSectors` | utils/create_img.c:206-207 | the entry array takes between 0 and GPT_TABLE_SIZE sectors |
| `Lba.DefaultLayout` | utils/create_img.c:273-278 | with 512-byte sectors, a 33 MiB ESP and 1 MiB of data: 73795 sectors, alignment 2048, ESP at 2048..69631, data at 71680..73727, usable sectors 34..73761 |
| `Lba.LayoutSound` | utils/create_img.c:273-278 | for non-zero ESP and data sizes at 512-byte sectors whose image fits in 32 bits, both partitions are aligned and non-empty, the ESP ends before the data partition starts, and both lie inside the usable sectors |
| `Lba.CeilOfSum` | utils/create_img.c:274-275 | the ceilings of the two partition sizes add up to at most one more than the ceiling of the image size less the 4163 padding sectors (a = b = 1 shows the extra one is needed) |
| `Guids.DecodeGuid` | utils/create_img.c:144-154 | the Guid read field by field from 16 bytes of memory has exactly those bytes as its encoding |
| `Guids.DecodeEncodeGuid` | utils/create_img.c:15-23 | reading back the bytes of a Guid gives that Guid |
| `Guids.EncodeGuidInjective` | utils/create_img.c:15-23 | distinct Guids have distinct encodings |
| `Guids.VersionBits` | utils/create_img.c:156-159 | the four bit operations on highTimeVer keep its low 12 bits and set the top nibble to 0100 |
| `Guids.VariantBits` | utils/create_img.c:161-163 | the three bit operations on clockSeqHighRes keep its low 5 bits and set the top three to 110 |
| `Guids.MarkFields` | utils/create_img.c:144-163 | forcing the bits on the decoded fields is forcing them on bytes 7 and 8 of the memory |
| `Guids.MarkedBytes` | utils/create_img.c:156-163 | the GUID's bytes equal the random bytes except byte 7, whose top nibble becomes 0100, and byte 8, whose top three bits become 110 |
| `Guids.RandomGuid` | utils/create_img.c:136-166 | the GUID of a clock reading encodes to the marked random bytes drawn after that seed |
| `Guids.GetGuid` | utils/create_img.c:136-166 | `getGuid` fills a 16-byte array from the generator, reads it as a Guid and forces the bits; its result encodes to the marked random bytes |
| `Crc32.FeedPrefix` | utils/create_img.c:130-131 | one more byte of the buffer is one more table step of the register |
| `Crc32.FeedChain` | utils/create_img.c:130-131 | a chain of registers linked by table steps is the register after each prefix |
| `Crc32.EmptyCrc` | utils/create_img.c:124-134 | the CRC of an empty buffer is 0 |
| `Crc32.CheckValue` | utils/create_img.c:124-134 | the CRC of "123456789" is 0xCBF43926, the CRC-32 check value |
| `Crc32.Crc32Table.Create` | utils/create_img.c:112-122 | every table entry n is eight rounds of the reflected shift applied to n, and the flag is set |
| `Crc32.Crc32Table.Calc` | utils/create_img.c:124-134 | returns the CRC of the buffer, builds the table only if it was not built, and leaves an existing table unchanged |
| `Crc32.Crc32Table.Fold` | utils/create_img.c:126-133 | the loop over a built table returns the CRC of the whole buffer |
| `Mbr.EncodeRecord` | utils/create_img.c:25-33 | a partition record is 16 bytes |
| `Mbr.EncodeMbr` | utils/create_img.c:35-42 | the boot record is 512 bytes |
| `Mbr.ProtectiveMbr` | utils/create_img.c:172-187 | partition[0] is type 0xEE from LBA 1 with the given size, the other records are empty, and the signature is 0xAA55 |
| `Mbr.ProtectiveRecordBytes` | utils/create_img.c:180-187 | the protective record is 16 bytes with the type byte 0xEE at offset 4 |
| `Mbr.ProtectiveMbrBytes` | utils/create_img.c:172-187 | the sector is 446 zero bytes, the protective record, 48 zero bytes, then 0x55 0xAA |
| `Gpt.EncodeHeader` | utils/create_img.c:44-61 | a header is 512 bytes |
| `Gpt.HeaderPieces` | utils/create_img.c:44-61 | the header CRC sits at bytes 16..20 and the reserved tail from byte 92 |
| `Gpt.TailPieces` | utils/create_img.c:49-58 | the offsets of every field from reserved1 to partEntryArrCRC32 |
| `Gpt.DecodeEncodeHeader` | utils/create_img.c:44-61 | decoding the bytes of a header gives the header back |
| `Gpt.Seal` | utils/create_img.c:238-239 | sealing changes only the header CRC, which becomes the CRC of the header's first 92 bytes with the field zeroed |
| `Gpt.ZeroedCrcBytes` | utils/create_img.c:238-239 | zeroing the CRC bytes of an encoding is encoding the header with a zero CRC |
| `Gpt.SealedHeaderBytesOk` | utils/create_img.c:238-239 | a sealed header passes a reader's header-CRC check |
| `Gpt.HeaderStoredAt` | utils/create_img.c:241-261 | a header stored at its own sector whose signature, CRC and array check out is a valid header there |
| `Gpt.EncodeEntry` | utils/create_img.c:63-71 | an entry is 128 bytes |
| `Gpt.EncodeUnits` | utils/create_img.c:69 | the name takes two bytes per UTF-16 code unit |
| `Gpt.PartName` | utils/create_img.c:224 | a short name is its code units followed by zeros up to 36 |
| `Gpt.ZeroUnits` | utils/create_img.c:216 | zero code units encode as zero bytes |
| `Gpt.ZeroEntryBytes` | utils/create_img.c:216 | an entry initialised by `{ 0 }` is 128 zero bytes |
| `Gpt.FlattenAt` | utils/create_img.c:216 | entry i of the array occupies bytes 128·i to 128·i + 128 |
| `Gpt.EncodeTable` | utils/create_img.c:216 | the table is GPT_TABLE_SIZE (16384) bytes |
| `Gpt.TableEntryBytes` | utils/create_img.c:216-234 | bytes 128·i to 128·i + 128 of the table are entry i |
| `Gpt.PartitionTable` | utils/create_img.c:216-234 | entry 0 is the ESP type with its GUID from esp_lba to its last sector, named "EFI SYSTEM"; entry 1 the basic-data type likewise, named "BASIC DATA"; both have attributes 0, and the other 126 entries are zero |
| `Gpt.PrimaryHeader` | utils/create_img.c:198-214 | the primary header's signature, revision, size, own/alternate/array LBAs, usable range, entry count and size, disk GUID and zero CRCs |
| `Gpt.PrimaryArrayPlacement` | utils/create_img.c:204-209 | the primary array follows the primary header and ends just before the first usable sector |
| `Gpt.HeadersMirror` | utils/create_img.c:247-255 | the backup swaps own and alternate LBAs, moves the array before itself, and otherwise equals the primary. Both carry the table CRC and pass the header-CRC check. On a disk large enough for the table, the backup array starts just after the last usable sector and ends at the backup header |
| `Gpt.BackupArray` | utils/create_img.c:250 | the 64-bit arithmetic of the backup array LBA does not wrap on a disk large enough for the table |
| `Disk.Overwrite` | utils/create_img.c:241-242 | an empty write changes nothing; otherwise the file grows to cover the written range |
| `Disk.OverwriteBytes` | utils/create_img.c:241-242 | after a write the range holds the data and every other byte is the old byte, or zero past the old end |
| `Disk.ApplyStep` | utils/create_img.c:241-261 | applying one more write of a sequence is one more overwrite |
| `Disk.AbandonAt` | utils/create_img.c:241-261 | a partial write of operation k after the first k abandons the sequence |
| `Disk.ApplyTwo` | utils/create_img.c:189-191 | applying two writes is overwriting twice |
| `Disk.ApplyFive` | utils/create_img.c:241-261 | applying five writes is overwriting five times |
| `Disk.ApplyConcat` | utils/create_img.c:241-261 | applying two sequences in turn is applying their concatenation |
| `Disk.AbandonedPrefix` | utils/create_img.c:241-261 | stopping inside a prefix stops inside any longer sequence |
| `Disk.AbandonedAfter` | utils/create_img.c:241-261 | stopping inside a continuation after a completed prefix stops inside the whole |
| `Disk.ThenWrites` | utils/create_img.c:286-294 | a completed or abandoned continuation is a completed or abandoned whole |
| `Disk.ApplyWithin` | utils/create_img.c:241-261 | writes that all end by a byte bound leave a file that was within it within it |
| `Disk.AbandonedShort` | utils/create_img.c:241-261 | when only the last write reaches byte `end`, a sequence abandoned anywhere leaves a file shorter than `end` |
| `Disk.OverwriteAppends` | utils/create_img.c:189-191 | writing at the end of the file appends |
| `Disk.OverwriteConcat` | utils/create_img.c:99-105 | two adjacent writes are one write of both data |
| `Disk.OverwriteCovers` | utils/create_img.c:191 | a later write covering an earlier one hides it |
| `Disk.OverwriteKeeps` | utils/create_img.c:241-261 | a write leaves ranges it does not touch unchanged |
| `Disk.OverwriteHolds` | utils/create_img.c:241-261 | a written range reads back as the data |
| `Disk.Open` | utils/create_img.c:280-284 | `fopen(path, "wb+")` gives NULL or a new, empty file at position 0 |
| `Disk.File.Seek` | utils/create_img.c:241 | a successful seek sets the position, which must be below 2^63 as a `long`; a failed one leaves it; the contents never change |
| `Disk.File.Write` | utils/create_img.c:242 | a write stores some prefix of the data at the position, advances past it and reports its length |
| `CreateImg.ProtectiveSize` | utils/create_img.c:169-170 | sizeInLBA is write_size − 1 capped at 0xFFFFFFFF, except that 0 wraps to 0xFFFFFFFF |
| `CreateImg.MbrBytes` | utils/create_img.c:172-189 | writeMbr writes 512 bytes |
| `CreateImg.GptWrites` | utils/create_img.c:241-261 | writeGpts makes four writes |
| `CreateImg.GptWritesSplit` | utils/create_img.c:236-261 | the writes from the layout and GUIDs are the two copies of the sealed primary header and its table |
| `CreateImg.MbrCutShort` | utils/create_img.c:189-190 | a short MBR write abandons the writes of `main` at the first one |
| `CreateImg.MbrThenGpts` | utils/create_img.c:286-294 | the MBR and padding, followed by writeGpts completing or stopping, are the writes of `main` completing or stopping |
| `CreateImg.PaddingCovered` | utils/create_img.c:191 | with 512-byte sectors, however much padding was written, the final image equals the image without padding |
| `CreateImg.PadThenWrites` | utils/create_img.c:191 | a padding write that a later whole-sector write covers changes nothing in the result |
| `CreateImg.MoreZeros` | utils/create_img.c:99-105 | one more chunk of zeros extends the zeros written so far |
| `CreateImg.FrontSectors` | utils/create_img.c:241-245 | MBR, header and table written at offsets 0, 512 and 1024 of an empty file lie back to back |
| `CreateImg.BackSectors` | utils/create_img.c:257-261 | the table copy and backup header land in the last 33 sectors, the front is kept, and the disk is w sectors |
| `CreateImg.ImageSectors` | utils/create_img.c:241-261 | the five writes produce a w-sector disk with each part at its sector range |
| `CreateImg.CopyWritesAt` | utils/create_img.c:241-261 | with 512-byte sectors the four writes go to sectors 1, 2, w−33 and w−1 |
| `CreateImg.ImageLayout` | utils/create_img.c:196-264 | the finished image is write_size sectors: the MBR, the sealed primary header, the table, the table copy at w−33 and the sealed backup header in the last sector |
| `CreateImg.ImageMbr` | utils/create_img.c:168-194 | the image starts with the protective MBR: 0x55 0xAA, type 0xEE, size write_size − 1 capped at 32 bits |
| `CreateImg.MbrSector` | utils/create_img.c:168-194 | any bytes starting with writeMbr's sector carry the boot signature and the protective record |
| `CreateImg.ImageIsGpt` | utils/create_img.c:196-264 | for any layout of at least 67 sectors and any GUIDs, the image passes a GPT reader's checks on both headers and both arrays |
| `CreateImg.DefaultImage` | utils/create_img.c:266-296 | with the default sizes, a run in which every call succeeds leaves a 73795-sector disk that a GPT reader accepts |
| `CreateImg.MainWritesAt` | utils/create_img.c:286-294 | with 512-byte sectors, `main`'s writes are the MBR at 0, its padding at 512, the primary header at 512, the array at 1024, the array copy at sector w − 33 and the backup header at sector w − 1 |
| `CreateImg.AbandonedRunIsShort` | utils/create_img.c:286-294 | with 512-byte sectors on a disk of at least 67 sectors, a complete run leaves exactly w sectors and any abandoned run strictly fewer bytes |
| `CreateImg.LaidOutIsGpt` | utils/create_img.c:241-261 | a disk with the MBR markers and both header copies and tables at their sectors is a GPT disk |
| `CreateImg.PrimaryStored` | utils/create_img.c:241-245 | the primary header in sector 1 with its table in sectors 2..33 is valid and points at the last sector |
| `CreateImg.BackupStored` | utils/create_img.c:257-261 | the backup header in the last sector with its table just before it is valid and points at sector 1 |
| `CreateImg.ApplyCovered` | utils/create_img.c:191 | an overwrite hidden by the next write does not change the result |
| `CreateImg.SealOfZero` | utils/create_img.c:238-239 | storing the CRC of a header with a zero CRC field is sealing it |
| `CreateImg.PrimaryIsSealed` | utils/create_img.c:236-239 | the primary header with its table CRC and header CRC is the sealed primary |
| `CreateImg.BackupIsSealed` | utils/create_img.c:247-255 | the backup header built from the primary, with both CRCs, is the sealed backup |
| `CreateImg.ImageTool.constructor` | utils/create_img.c:273-278 | the layout globals are the planned layout of the configured sizes |
| `CreateImg.ImageTool.PadOutZeroes` | utils/create_img.c:96-106 | writes a run of at most lba_size zero bytes at the position, in chunks of at most 512, stopping at the first short write |
| `CreateImg.ImageTool.WriteMbr` | utils/create_img.c:168-194 | on success the MBR sector then the padding zeros follow the position; on a short MBR write, a prefix of the sector and false |
| `CreateImg.ImageTool.PutAt` | utils/create_img.c:241-242 | a seek and a write: on success the data is at the offset; on failure a proper prefix of the data is stored, or nothing changes when there was nothing to write; the position ends at the end of the data, stays put after a failed seek, or stops inside the data's range after a short write |
| `CreateImg.ImageTool.WriteGpts` | utils/create_img.c:196-264 | true and all four GPT writes applied, or false with the writes abandoned part-way |
| `CreateImg.ImageTool.BuildPrimary` | utils/create_img.c:198-239 | the three GUIDs, the table bytes and the sealed primary header |
| `CreateImg.ImageTool.WriteCopies` | utils/create_img.c:241-261 | writes the primary copy, builds the backup, writes the backup copy; all four writes or an abandoned prefix |
| `CreateImg.ImageTool.WritePrimary` | utils/create_img.c:241-245 | the primary header then the table, or an abandoned prefix |
| `CreateImg.ImageTool.BuildBackup` | utils/create_img.c:247-255 | the backup header is the sealed mirror of the primary |
| `CreateImg.ImageTool.WriteBackup` | utils/create_img.c:257-261 | the table copy then the backup header, or an abandoned prefix |
| `CreateImg.ImageTool.Run` | utils/create_img.c:266-296 | EXIT_SUCCESS only when the new file holds all writes of `main`; a wrong argument count or failed fopen gives no file; a failed write leaves an abandoned prefix, which with 512-byte sectors and at least 67 of them is shorter than the complete image, so EXIT_FAILURE never comes with a complete image |
| `CreateImg.ImageTool.WriteImage` | utils/create_img.c:286-294 | writeMbr then writeGpts on the new file: all writes of `main`, or an abandoned prefix |
| `AddMbr.BytesToLBAsIsCeiling` | utils/add_mbr.c:35-37 | the quotient-plus-remainder form is the ceiling of imgSize / 512 |
| `AddMbr.BytesToLBAsAgrees` | utils/add_mbr.c:35-37 | it equals create_img's `bytesToLBAs` at 512-byte sectors for every 32-bit size |
| `AddMbr.SizeInLBAWraps` | utils/add_mbr.c:40-41 | sizeInLBA is imgSize − 1, and 0 wraps to 0xFFFFFFFF |
| `AddMbr.MbrRecord` | utils/add_mbr.c:43-58 | zero boot code, signature and unknown field, partition[0] = {0, 00 02 00, 0xEE, FF FF FF, 1, sizeInLBA}, empty records 1..3, signature 0xAA55 |
| `AddMbr.WriteMbrSector` | utils/add_mbr.c:39-64 | true exactly when all 512 bytes are written, and the file is then exactly the protective MBR sector; otherwise a prefix of it |
| `AddMbr.SameSectorAsCreateImg` | utils/add_mbr.c:39-64 | for every 32-bit sector count the sector equals create_img's writeMbr sector |
| `AddMbr.DefaultRun` | utils/add_mbr.c:73-74 | the default image is 35 MiB = 71680 sectors, and the protective record covers 71679 sectors |

## Left out

- File I/O is modelled as nondeterministic success or a short write (`Disk.Open`, `Disk.File.Seek`, `Disk.File.Write`). Error messages on stderr and closing the file are not modelled.
- `srand`, `rand` and `time` become parameters. The generator is a function from a seed and a draw index to a number, and each `getGuid` call takes a clock reading as its seed. GUID distinctness is not claimed: the code reseeds from the clock on every call, so calls in the same second give the same GUID.
- Crc32.Crc32: equality with the bit-at-a-time CRC-32 of IEEE 802.3 clause 3.2.9 is not proved. The table entries are proved to be the eight reflected shifts, and the check value pins the result. The bit-vector reasoning for the general equivalence is beyond the solver's budget here.
- Sector sizes above 512 bytes: `writeGpts` writes `lba_size` bytes from a 512-byte struct, which reads past it. The methods require `lba_size ≤ 512`, and the image lemmas fix it at 512.
- `calcCRC32` takes an `int32_t` length, so `Crc32.Crc32Table.Calc` requires a buffer shorter than 2^31 bytes.
- The layout block of `main` runs in `CreateImg.ImageTool.constructor` rather than after the argument check. It reads only the three sizes and assigns only the four layout globals, so no outcome changes.
- Partition names are modelled as UTF-16 code units of ASCII strings. Surrogate pairs are not handled.
- `add_mbr`'s `main`: the argument-count check, `fopen` and the exit status are not modelled, including that it returns 0 after a failed write.
- `utils/img_create.c` is not part of this model: it is a stub whose `writeMbr` only returns true.
- `src/bootloader.c` is not part of this model: it only calls into firmware.
