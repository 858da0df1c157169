# libregf core, modelled in Dafny

This project models the core of libregf, a library that reads Windows NT
Registry hive files (the REGF format), and the pure algorithms of the
regftools programs layered on it. Everything here is stated over
untrusted bytes: each decoder checks sizes and signatures before it reads
a field, and answers with one of three outcomes (read, not this kind of
record, error). The Dafny model keeps those outcomes apart (`Result`,
`Outcome`, `Status` in `Common`) and proves what each decoder promises.

Modules, in the order the library builds on them:

- `Common`: fixed-width integers (`u8` … `u64` as subset types of `int`),
  little- and big-endian field readers with their encoders and round-trip
  lemmas, the sticky "corrupted" item flag, and the record start of format
  1.1 and older (records sit 4 bytes into their cell there).
- `Checksum`: the little-endian XOR-32 checksum over 4-byte groups.
- `FileHeader`, `HiveBinHeader`, `DirtyVector`: the 512-byte `regf`
  header (checksum over the first 508 bytes), the 32-byte `hbin` header
  and the `DIRT` dirty-page vector with its size arithmetic.
- `HiveBin`: the walk of a bin's payload into cells (allocated or free by
  the sign of the size field, sizes multiples of 8, cells tile the bin)
  and lookup of a cell by offset.
- `HiveBinsList`: the hive's cells as a partial map from offset to cell
  payload, with the bin ranges used to decide whether an offset belongs to
  the hive.
- `Text`: the key-name hash `h * 37 + upper(c)` and case-insensitive name
  comparison, over a character decoder that is a parameter.
- Records: `NamedKey` (`nk`), `ValueKey` (`vk`), `SubKeyList`
  (`lf`/`lh`/`li`/`ri`), `SecurityKey` (`sk`), `DataBlockKey` (`db`) and
  `MultiString` (REG_MULTI_SZ split into UTF-16 little-endian strings).
- Items: `KeyItem` (class name, values list, sub-key lists with a
  recursion-depth cap, security descriptor, corruption flagging) and
  `ValueItem` (value key, data in a cell or in a data block list of
  segments, string-size recomputation, typed DWORD/QWORD/binary getters).
- `KeyTree` (walk of a `\`-separated path, one segment per level) and
  `Key` (offset arithmetic, value and sub-key lookup).
- regftools: `MountFileSystem` (the escape codec between registry names
  and file names, and mount paths to key paths), `MountFileEntry` (the
  virtual directory of a mounted hive: entry kinds, file modes, sub-entry
  numbering, FILETIME to POSIX time, reads of class-name and value data),
  `MountHandle` (classification of a mount path into KEY, VALUES, VALUE or
  CLASS_NAME) and `ReportHandle` (the base-24 product-key decoder, the
  MRUListEx value-name check and the UTF-16 terminator scan).

Where the library changes an object step by step (a hive bin filling its
cell list, a key item filling its lists, a multi-string filling its string
table, a file entry caching its data, the product-key division) the model
is a `class` whose methods have `modifies` clauses and are proved against
a specification function; the pure decoders are functions with lemmas.
Integers are unbounded in Dafny; the 32-bit wrap-around of the checksum,
hashes and running totals is written out with `Wrap32`/`Wrap64`.

Calls into libraries that are not part of this model (libuna character
decoding and encoding, `towupper`, libbfio reads, libfdata/libfcache
lists, libcdata arrays) become parameters or plain sequences: a decoder is
a function value, `upper` is a function value, a file read is the sequence
of bytes it returned. Where a source file refers to a constant whose
defining header is not part of this model, the value used is stated under
"## Left out".

## Model

| member | source | states |
|---|---|---|
| Common.MarkCorrupted | libregf/libregf_key_item.c:369-372 | setting the corrupted flag leaves it set afterwards and is idempotent: a flags byte that already has it is returned unchanged |
| Common.RecordStart | libregf/libregf_named_key.c:250-254 | records start 0 or 4 bytes into their cell (4 for format 1.1 and older) |
| Common.Wrap32 | libregf/libregf_named_key.c:552-553 | reducing modulo 2^32 keeps values that already fit and otherwise differs from the input by a multiple of 2^32, as the unsigned 32-bit hash and offset arithmetic does |
| Checksum.Word | libregf/libregf_checksum.c:263-284 | the value contributed by a group of up to 4 bytes lies below 2^(8·length): missing high bytes stay zero |
| Checksum.WordOfGroup | libregf/libregf_checksum.c:263-284 | a group of 1, 2, 3 or 4 bytes contributes b0 + 256·b1 + … with exactly its own bytes in the low positions |
| Checksum.FullGroupIsLittleEndian | libregf/libregf_checksum.c:263-284 | a full 4-byte group contributes the little-endian 32-bit value of those bytes |
| Checksum.CalculateLittleEndianXor32 | libregf/libregf_checksum.c:44-294 | a buffer larger than SSIZE_MAX is an error; otherwise the loop yields the initial value XORed with one word per 4-byte group, which is the specification `LittleEndianXor32` (an empty buffer gives the initial value) |
| Checksum.AssembleWord | libregf/libregf_checksum.c:260-288 | one loop step consumes min(4, remaining) bytes, never reading past the buffer, and assembles exactly the word of those bytes |
| Checksum.FoldStep | libregf/libregf_checksum.c:258-291 | folding from a position equals combining the word of the next min(4, remaining) bytes and folding the rest, which is the loop's invariant |
| Checksum.FoldAppend | libregf/libregf_checksum.c:258-291 | over a prefix whose length is a multiple of 4 the checksum of a concatenation is the checksum of the suffix started from the prefix's checksum |
| Checksum.StoredChecksumCancels | libregf/libregf_file_header.c:217-249 | appending the little-endian checksum of a 4-byte-aligned block to it makes the checksum of the whole zero |
| FileHeader.ReadData | libregf/libregf_file_header.c:148-384 | the header is read iff the data holds at least 512 bytes and at most SSIZE_MAX, starts with `regf`, and the stored checksum at offset 508 equals the XOR-32 of the first 508 bytes from 0; on success each field is its little-endian value at its offset |
| FileHeader.ReadFileIoHandle | libregf/libregf_file_header.c:418-435 | a read that did not return exactly 512 bytes is an error; otherwise the result is that of decoding those bytes |
| FileHeader.ReadDataIgnoresTrailingBytes | libregf/libregf_file_header.c:179-268 | only the first 512 bytes decide the result |
| FileHeader.ReadEncode | libregf/libregf_file_header.c:203-268 | decoding an encoded header (signature, fields, checksum) gives the same header back |
| FileHeader.EncodedHeaderChecksumsToZero | libregf/libregf_file_header.c:217-249 | the XOR-32 of a whole valid 512-byte header, checksum included, is zero |
| HiveBinHeader.ReadData | libregf/libregf_hive_bin_header.c:149-300 | fewer than 32 bytes or more than SSIZE_MAX is an error; a signature other than `hbin` is "not a bin", distinct from an error; otherwise offset and size are the little-endian fields at 4 and 8 |
| HiveBinHeader.ReadFileIoHandle | libregf/libregf_hive_bin_header.c:338-357 | a short read is an error; a full 32-byte read decodes those bytes |
| HiveBinHeader.ReadEncode | libregf/libregf_hive_bin_header.c:212-225 | decoding an encoded bin header gives the header back |
| HiveBinHeader.SampleHeader | tests/regf_test_hive_bin_header.c:310-328 | the 32-byte sample bin header decodes to offset 0 and size 4096 |
| DataBlockKey.ReadData | libregf/libregf_data_block_key.c:147-250 | a `db` record is read iff there are 8 to SSIZE_MAX bytes and the signature is `db`; the segment count is the 16-bit field at 2 and the list offset the 32-bit field at 4 |
| DataBlockKey.ReadEncode | libregf/libregf_data_block_key.c:208-226 | decoding an encoded data block key, whatever follows it, gives the key back |
| DataBlockKey.SampleDataBlockKey | tests/regf_test_data_block_key.c:308-326 | the 12-byte sample gives 21 segments and list offset 0x0115c7a8 |
| DirtyVector.ReadData | libregf/libregf_dirty_vector.c:147-254 | the validator accepts only data of at most SSIZE_MAX bytes, no shorter than the dirty-page bitmap, that starts with `DIRT`; it returns a verdict and no fields |
| DirtyVector.BitmapCoversPages | libregf/libregf_dirty_vector.c:283-288 | with one bit per 512-byte page, so eight pages (4096 bytes of hive bins) per bitmap byte, the bitmap size is the least number of bytes whose bits cover every 512-byte page of the hive bins |
| DirtyVector.VectorCoversBitmap | libregf/libregf_dirty_vector.c:289-294 | the vector size is a multiple of 512 that holds the 4-byte signature and the bitmap, with less than 512 bytes to spare |
| DirtyVector.VectorWithinAllocation | libregf/libregf_dirty_vector.c:295-305 | for any 32-bit hive bins size the vector is at most 1 MiB + 512 bytes, below the allocation limit, so that rejection never fires |
| DirtyVector.ReadFileIoHandle | libregf/libregf_dirty_vector.c:265-384 | an I/O error fails; a read of the full vector size is accepted iff it starts with `DIRT`; a short read is accepted without validation |
| SecurityKey.ReadData | libregf/libregf_security_key.c:153-445 | a key that already holds a descriptor cannot be read again; otherwise the record is read iff it has 20 to SSIZE_MAX bytes, signature `sk`, and a descriptor size that fits after the header; a non-zero descriptor is exactly the declared bytes after the header, a zero size stores none |
| SecurityKey.ReadEncoded | libregf/libregf_security_key.c:301-357 | an encoded `sk` record, whatever padding follows, reads back with the encoded descriptor and its size |
| SecurityKey.SampleSecurityKey | tests/regf_test_security_key.c:342-361 | the sample header over 160 bytes of descriptor reads back those 160 bytes |
| HiveBinsList.IndexFrom | libregf/libregf_key_item.c:1124-1187 | the bin search finds the first bin from a position that contains an offset, or establishes that none does |
| HiveBin.DecodeCellSize | libregf/libregf_hive_bin.c:296-336 | an accepted size field gives a size that is a positive multiple of 8 and at most 0x80000000; the cell is free (unallocated flag) exactly when the signed field is non-negative, and allocated sizes are negated |
| HiveBin.DecodeEncodeCellSize | libregf/libregf_hive_bin.c:296-336 | every legal size, allocated or free, decodes back from its on-disk encoding with the right flag |
| HiveBin.NextCell | libregf/libregf_hive_bin.c:266-351 | a cell is accepted only when its size field lies in the data and its payload (size − 4, at least 4) fits in the remaining bytes |
| HiveBin.CellsFromRefused | libregf/libregf_hive_bin.c:266-351 | a refused cell ends the walk with no further cells and a failure |
| HiveBin.CellsFromAccepted | libregf/libregf_hive_bin.c:339-384 | an accepted cell is recorded at the current file offset with the payload slice and its flags, and the walk continues 4 + payload bytes further |
| HiveBin.CellsFromStep | libregf/libregf_hive_bin.c:339-384 | the first cell of a walk is the slice after its size field at the starting file offset, and the rest of the walk starts right after it |
| HiveBin.CellsTileData | libregf/libregf_hive_bin.c:254-384 | the cells never cover more than the data, cover it exactly when the walk succeeds, and each has a legal size (multiple of 8, at least 8) |
| HiveBin.CellsAreConsecutive | libregf/libregf_hive_bin.c:252-384 | the first cell is at the starting offset and each next cell starts where the previous one ends |
| HiveBin.CellDataIsSlice | libregf/libregf_hive_bin.c:339-380 | each cell's payload is exactly the bytes of the bin after its size field, so no cell reads outside the bin |
| HiveBin.OffsetsIncrease | libregf/libregf_hive_bin.c:252-384 | when the bin fits below 4 GiB, cell offsets start at the bin's first cell and strictly increase |
| HiveBin.FirstCellAt | libregf/libregf_hive_bin.c:704-731 | lookup never fails; it finds a cell of the list whose offset is the request, or reports not found exactly when no cell has that offset |
| HiveBin.FirstCellAtFindsEachCell | libregf/libregf_hive_bin.c:704-731 | with increasing offsets, looking up a cell's own offset finds that cell |
| HiveBin.HiveBin.constructor | libregf/libregf_hive_bin.c:49-135 | a new bin has its offset and size and no cells |
| HiveBin.HiveBin.ReadCellsData | libregf/libregf_hive_bin.c:195-419 | the loop appends exactly the cells of the specification walk `CellsData` (first cell after the 32-byte header) and succeeds exactly when that walk covers the payload |
| HiveBin.HiveBin.ReadCellSize | libregf/libregf_hive_bin.c:266-336 | the size-field checks of one step agree with `NextCell` |
| HiveBin.HiveBin.GetNumberOfCells | libregf/libregf_hive_bin.c:547-601 | the count is returned exactly when it is at most UINT16_MAX |
| HiveBin.HiveBin.GetCell | libregf/libregf_hive_bin.c:611-642 | an index below the count gives that cell; any other index is an error |
| HiveBin.HiveBin.GetCellAtOffset | libregf/libregf_hive_bin.c:652-732 | the linear scan answers as `FirstCellAt`: the cell at the requested offset, or not found |
| Text.DecodeAt | libregf/libregf_named_key.c:519-540 | a decoded character always advances the index and stays within the input, so every decoding loop terminates |
| Text.NameHash | libregf/libregf_named_key.c:517-554 | the hash loop succeeds exactly when the rest of the name decodes |
| Text.NameHashIsHashOfDecoded | libregf/libregf_named_key.c:517-554 | the hash loop succeeds exactly when the whole name decodes, and its value is then the fold h·37 + upper(c) over the decoded characters |
| Text.UpperAll | libregf/libregf_named_key.c:1120-1122 | upper-casing a character sequence keeps its length and maps each character |
| Text.CaseInsensitiveEqualHashes | libregf/libregf_named_key.c:1069-1073 | names equal up to case have equal hashes, which is why a hash mismatch may skip the comparison |
| Text.DecodeAllEmpty | libregf/libregf_named_key.c:1075-1080 | decoding from a position yields no characters exactly at the end of the input |
| Text.CompareFromMeaning | libregf/libregf_named_key.c:1075-1140 | the comparison loop matches exactly when both strings decode and agree character by character after upper-casing, with both fully consumed; a decoding error is an error |
| Text.CompareMeaning | libregf/libregf_named_key.c:1069-1140 | a full comparison matches iff both decode, the name is non-empty and both are equal up to case |
| Text.Compare | libregf/libregf_named_key.c:1069-1140 | a comparison fails only when the name or the query does not decode, and a match needs both to decode |
| Text.MatchImpliesEqualHashes | libregf/libregf_named_key.c:1069-1073 | two names that compare equal have equal hashes, so the hash shortcut never rejects a match |
| NamedKey.ParseRecord | libregf/libregf_named_key.c:208-516 | input shorter than the 76-byte record (plus 4 for format 1.1 and older) or above SSIZE_MAX is rejected; a parsed record carries the `nk` signature and a non-zero name of exactly the declared size, taken byte for byte from after the fixed header |
| NamedKey.FieldsRoundTrip | libregf/libregf_named_key.c:268-306 | every field of an encoded fixed header reads back unchanged |
| NamedKey.ParseEncodedRecord | libregf/libregf_named_key.c:208-516 | an encoded record with a non-zero name, at the record start of its format version, parses back to the same fields and name |
| NamedKey.SampleRecord | tests/regf_test_named_key.c:316-336 | the 140-byte sample parses with name size 57, 10 sub-keys, the ASCII-name flag, and the 57 name bytes after the header |
| NamedKey.NamedKey.constructor | libregf/libregf_named_key.c:50-114 | a new named key is zeroed, with no name and hash 0 |
| NamedKey.NamedKey.SetFields | libregf/libregf_named_key.c:268-306 | the fixed fields become the decoded ones and nothing else changes |
| NamedKey.NamedKey.ReadData | libregf/libregf_named_key.c:161-661 | a key that already holds a name fails unchanged; too little data fails before any field is written; a bad signature or a bad name size fails with name size reset to 0 and no name; otherwise the hash is the name-hash fold (codepage or UTF-16LE by the ASCII flag) and the read succeeds, keeping fields and name, exactly when the name decodes, failing with the name released and its size 0 when it does not |
| NamedKey.NamedKey.GetName | libregf/libregf_named_key.c:708-770 | the copy succeeds iff the destination holds name_size bytes (and is at most SSIZE_MAX), and then yields exactly the stored name |
| NamedKey.NamedKey.CompareNameWithString | libregf/libregf_named_key.c:1014-1141 | without a name or with an oversized query it is an error; when either hash is 0 or the hashes agree the answer is the full case-insensitive comparison, otherwise no match |
| ValueKey.ParseValueKey | libregf/libregf_value_key.c:207-334 | fewer than 20 bytes or more than SSIZE_MAX is rejected; a signature other than `vk` is "not a value key"; a name size that does not fit after the header is refused; a parsed name is exactly the declared bytes after the header |
| ValueKey.ParseEncodedValueKey | libregf/libregf_value_key.c:243-334 | an encoded value key with its name parses back to the same fields and name |
| ValueKey.SampleValueKey | tests/regf_test_value_key.c:310-330 | the 36-byte sample parses with name size 12, data size 0x22, data offset 0xdc30, type 1 and flags 1 |
| ValueKey.ValueKey.constructor | libregf/libregf_value_key.c:49-113 | a new value key is zeroed, with no name and hash 0 |
| ValueKey.ValueKey.ReadData | libregf/libregf_value_key.c:160-521 | a second read fails unchanged; short or oversized data fails unchanged; a non-`vk` signature returns "absent" unchanged; a bad name size fails with name size 0; name size 0 (the default value) succeeds with no name and the hash untouched; otherwise it succeeds iff the name decodes, with the hash the name-hash fold, and on failure the name is released and its size is 0 |
| SubKeyList.KindOf | libregf/libregf_sub_key_list.c:267-296 | an accepted signature selects 4- or 8-byte entries, and the list is above the leaf level exactly when the signature is `ri` |
| SubKeyList.EntriesLength | libregf/libregf_sub_key_list.c:342-408 | a block of n entries yields n descriptors, one per element |
| SubKeyList.ParseSubKeyList | libregf/libregf_sub_key_list.c:218-341 | the list is rejected exactly when it is shorter than its header (after the 4-byte prefix of format 1.1 and older) or above SSIZE_MAX; a parsed list has a known signature, its leaf level, exactly the stored element count, and its entries fit in the data |
| SubKeyList.CountFits | libregf/libregf_sub_key_list.c:331-341 | a count that passes the bound check fits in the remaining bytes |
| SubKeyList.EntryAt | libregf/libregf_sub_key_list.c:359-372 | entry k of a block is the 32-bit key offset at k entry sizes, with the 32-bit hash after it for 8-byte entries and hash 0 for 4-byte entries |
| SubKeyList.ParsedElementAt | libregf/libregf_sub_key_list.c:342-408 | element k of a parsed list is the entry k entry sizes after the header, so elements follow on-disk order |
| SubKeyList.EncodeEntries | libregf/libregf_sub_key_list.c:359-372 | encoding n descriptors takes n entry sizes |
| SubKeyList.EntriesOfEncoded | libregf/libregf_sub_key_list.c:359-372 | encoded entries decode back to the same descriptors (4-byte entries carry hash 0) |
| SubKeyList.ParseEncodedHashList | libregf/libregf_sub_key_list.c:267-408 | an encoded `lh` list parses back as a leaf list of the same descriptors |
| SubKeyList.SampleList | tests/regf_test_sub_key_list.c:335-349 | the 68-byte `lh` sample parses as a leaf list of 8 elements, the first at offset 0x178 with hash 0x8f3ba9a2 |
| SubKeyList.SubKeyList.constructor | libregf/libregf_sub_key_list.c:43-126 | a new list has no descriptors |
| SubKeyList.SubKeyList.ReadData | libregf/libregf_sub_key_list.c:182-440 | short or oversized data and an unknown signature fail with the list unchanged; too many elements fails after setting the leaf flag; otherwise the parsed descriptors are appended in order and the read succeeds |
| SubKeyList.SubKeyList.AppendEntries | libregf/libregf_sub_key_list.c:342-408 | the element loop appends exactly the entries of the block, one descriptor per element, in order |
| MultiString.ScanString | libregf/libregf_multi_string.c:302-316 | the inner scan advances in 2-byte units; when it finds a terminator the scanned span ends in a 0x0000 unit, otherwise it stopped with fewer than 2 bytes left |
| MultiString.CountStrings | libregf/libregf_multi_string.c:283-322 | the counting pass never moves backwards or past the data and never loses a counted string |
| MultiString.CollectStrings | libregf/libregf_multi_string.c:396-439 | the second pass records at most the requested number of strings |
| MultiString.ParseMultiString | libregf/libregf_multi_string.c:257-268 | a multi-string is read exactly when it holds 2 to MEMORY_MAXIMUM_ALLOCATION_SIZE bytes |
| MultiString.CountEndsAfterFirstUnit | libregf/libregf_multi_string.c:323-324 | after the first pass at least 2 bytes were consumed, so the check of the final 0x0000 reads inside the data |
| MultiString.ScanFindsFirstNul | libregf/libregf_multi_string.c:302-316 | a string ends at the first aligned 0x0000 unit: no earlier unit of it is 0x0000 |
| MultiString.ScannedIsTerminated | libregf/libregf_multi_string.c:302-316 | a non-empty scanned string is its characters without any 0x0000 unit followed by one terminator |
| MultiString.CountedStringsAreTerminated | libregf/libregf_multi_string.c:396-439 | the second pass records exactly as many strings as the first pass counted, and each is a terminated UTF-16 string |
| MultiString.CollectedStringsTile | libregf/libregf_multi_string.c:396-439 | the recorded strings are consecutive slices of the data, in order, each size including its terminator |
| MultiString.ScanJoined | libregf/libregf_multi_string.c:302-316 | a string without 0x0000 units followed by a terminator is scanned exactly to after its terminator |
| MultiString.CountJoin | libregf/libregf_multi_string.c:283-322 | over the concatenation of n non-empty terminated strings the first pass counts n and stops at their end with no terminator missing |
| MultiString.CollectJoin | libregf/libregf_multi_string.c:396-439 | over such a concatenation the second pass recovers each string with its terminator |
| MultiString.ParseJoin | libregf/libregf_multi_string.c:193-470 | reading the concatenation of non-empty NUL-free UTF-16 strings, each terminated, gives back exactly those strings, not corrupted |
| MultiString.JoinEndsInNul | libregf/libregf_multi_string.c:323-335 | such a concatenation ends in 0x0000 |
| MultiString.NoTerminatorNoStrings | libregf/libregf_multi_string.c:302-335 | data without any aligned 0x0000 unit yields no strings and marks the item corrupted rather than failing |
| MultiString.ScanWithoutNul | libregf/libregf_multi_string.c:302-316 | a scan over data without an aligned 0x0000 unit finds no terminator |
| MultiString.SampleEnUs | tests/regf_test_multi_string.c:446-465 | the 12-byte "en-US" sample reads as one string, itself, not corrupted |
| MultiString.MultiString.constructor | libregf/libregf_multi_string.c:40-120 | a new multi-string has no data, no strings and no flags |
| MultiString.MultiString.ReadData | libregf/libregf_multi_string.c:193-470 | a second read fails unchanged; data outside 2 to MEMORY_MAXIMUM_ALLOCATION_SIZE fails unchanged; otherwise the strings are exactly those of `ParseMultiString` and the corrupted flag is set when a terminator was missing |
| MultiString.MultiString.CountPass | libregf/libregf_multi_string.c:283-322 | the counting loop computes `CountStrings` from the start: the count, where it stopped and whether a terminator was missing |
| MultiString.MultiString.CollectPass | libregf/libregf_multi_string.c:396-439 | the recording loop fills the string table with exactly `CollectStrings` for the counted number |
| MultiString.MultiString.ScanStringAt | libregf/libregf_multi_string.c:302-316 | the inner loop computes `ScanString` |
| MultiString.MultiString.GetString | libregf/libregf_multi_string.c:584-595 | an index below 0 or at least the number of strings is an error; otherwise it is that string with its size |
| KeyItem.NamedKeyAt | libregf/libregf_key_item.c:510-596 | a named key is read only from a cell at an offset other than 0 and 0xffffffff that the hive holds, and is then exactly the `nk` record parsed from that cell |
| KeyItem.DescriptorMatches | libregf/libregf_key_item.c:2421-2528 | a sub-key descriptor matches a query when the named key at its offset reads and its name compares equal to the query under the hash shortcut |
| KeyItem.ClassNameData | libregf/libregf_key_item.c:607-759 | class-name data is taken iff the cell is at most SSIZE_MAX and the size is non-zero and within the cell, and then it is exactly the first class_name_size bytes |
| KeyItem.ClassNameCases | libregf/libregf_key_item.c:771-875 | offset 0xffffffff, or offset 0 with size 0, means "no class name" and succeeds; offset 0 with a non-zero size is an error; any other offset succeeds iff its cell exists and holds the size; the name read is the first `size` bytes of the cell |
| KeyItem.SecurityDescriptorAt | libregf/libregf_key_item.c:886-1003 | offset 0 or 0xffffffff is an error; a descriptor read is the one the `sk` record in the cell at that offset holds |
| KeyItem.ElementOffsets | libregf/libregf_key_item.c:1124-1131 | the values list holds one 32-bit offset per element |
| KeyItem.ElementOffsetsAt | libregf/libregf_key_item.c:1124-1131 | element k is the little-endian offset 4·k bytes after the list start |
| KeyItem.KeepInBinsMeaning | libregf/libregf_key_item.c:1124-1187 | the kept offsets are exactly those that lie in a hive bin (none invented, none lost), and the item is flagged corrupted exactly when one was skipped |
| KeyItem.ValuesListMeaning | libregf/libregf_key_item.c:1015-1210 | a non-empty values list reads iff its offset is neither 0 nor 0xffffffff, its cell exists and the count fits in (cell size − start)/4; the result keeps every element offset that lies in a hive bin, only those, and flags corruption iff one was skipped |
| KeyItem.ValuesList | libregf/libregf_key_item.c:1015-1210 | an empty values list reads as no offsets without corruption; otherwise at most the stored count of offsets is kept, all inside the hive bins, and the list is flagged corrupted exactly when fewer than the count were kept |
| KeyItem.AllInBinsAppend | libregf/libregf_key_item.c:1382-1447 | descriptor lists that lie in the hive bins stay so when concatenated |
| KeyItem.GatherFrom | libregf/libregf_key_item.c:1382-1447 | the element loop only adds descriptors whose key offsets lie inside a hive bin, and once corruption has been noted it stays noted |
| KeyItem.SubKeysList | libregf/libregf_key_item.c:1222-1485 | a recursion depth below 0 or above the maximum is an error; every descriptor a sub-keys list read yields, at any depth, has its key offset inside a hive bin |
| KeyItem.LeafGathersAll | libregf/libregf_key_item.c:1382-1416 | a leaf list whose descriptors all lie in hive bins is taken over whole, in order, without corruption |
| KeyItem.TooDeepIsError | libregf/libregf_key_item.c:1257-1268 | a recursion depth beyond the maximum is an error |
| KeyItem.ValuesListOutsideBinsIsCorrupt | libregf/libregf_key_item.c:408-428 | a values-list offset outside the hive bins leaves the key without values and flags it corrupted rather than failing |
| KeyItem.FindSubKeyIsFirstMatch | libregf/libregf_key_item.c:2421-2528 | a sub-key found by name is the first descriptor whose key name matches; every earlier one reads and does not match |
| KeyItem.FindSubKeyNotFound | libregf/libregf_key_item.c:2421-2528 | "not found" means every descriptor reads and none matches |
| KeyItem.KeyItem.constructor | libregf/libregf_key_item.c:54-132 | a new key item has no named key and no flags |
| KeyItem.ReadKeyItem | libregf/libregf_key_item.c:247-498 | a key item reads only when the named key at its offset does, and then holds that named key; its sub-key descriptors and value offsets all lie inside the hive bins |
| KeyItem.FindSubKey | libregf/libregf_key_item.c:2361-2538 | a descriptor found by name is one of the descriptors searched, at or after the search start |
| KeyItem.KeyItem.Read | libregf/libregf_key_item.c:247-498 | a second read fails unchanged; otherwise the item holds exactly the named key, class name, security descriptor, sub-key descriptors and value offsets of the specification `ReadKeyItem`, and the corrupted flag is set when either list was found corrupt |
| KeyItem.KeyItem.ReadHeader | libregf/libregf_key_item.c:306-344 | the class name and (unless the offset is 0xffffffff) the security descriptor are read as `ReadHeaderOf` says |
| KeyItem.KeyItem.ReadLists | libregf/libregf_key_item.c:346-450 | the sub-keys list (when there are sub-keys) and the values list are read as `ReadListsOf` says, with corruption of either setting the flag |
| KeyItem.KeyItem.ReadNamedKey | libregf/libregf_key_item.c:510-596 | the named key is read iff `NamedKeyAt` succeeds, and then holds its fields, name and hash |
| KeyItem.KeyItem.ReadClassName | libregf/libregf_key_item.c:771-875 | the class name read is `ClassName` of the offset and size |
| KeyItem.KeyItem.ReadSecurityKey | libregf/libregf_key_item.c:886-1003 | the security descriptor read is `SecurityDescriptorAt` of the offset |
| KeyItem.KeyItem.ReadValuesList | libregf/libregf_key_item.c:1015-1210 | the values list read is `ValuesList` of the offset and count |
| KeyItem.KeyItem.KeepElements | libregf/libregf_key_item.c:1124-1187 | the element loop keeps exactly the in-bin offsets of `KeepInBins`, in order, noting corruption |
| KeyItem.KeyItem.ReadSubKeysList | libregf/libregf_key_item.c:1222-1485 | a refused offset or depth (1245, 1257) fails before touching the output list, any later error empties it; otherwise the gathered descriptors are appended and the result is 0 (corrupt) exactly when an element lay outside the bins at any depth |
| KeyItem.KeyItem.GatherElements | libregf/libregf_key_item.c:1382-1459 | the element loop appends what `GatherFrom` gathers, recursing one level deeper for index-root lists |
| KeyItem.KeyItem.GetClassNameSize | libregf/libregf_key_item.c:1769-1802 | the size is reported (non-zero) when there is a class name, and "none" (0) otherwise, never an error |
| KeyItem.KeyItem.GetClassName | libregf/libregf_key_item.c:1812-1879 | the copy fails for a destination above SSIZE_MAX, is "none" without a class name, and succeeds with the class name exactly when the destination holds it |
| KeyItem.KeyItem.GetSecurityDescriptorSize | libregf/libregf_key_item.c:2120-2153 | the size is reported when there is a descriptor, and "none" otherwise |
| KeyItem.KeyItem.GetSecurityDescriptor | libregf/libregf_key_item.c:2163-2230 | the copy fails above SSIZE_MAX, is "none" without a descriptor, and succeeds with the descriptor exactly when the destination holds it |
| KeyItem.KeyItem.GetSubKeyDescriptorByName | libregf/libregf_key_item.c:2361-2538 | the lookup loop answers as `FindSubKey`: the first matching descriptor, "not found", or the error of a key that does not read |
| ValueItem.SegmentsSizeAppend | libregf/libregf_value_item.c:1221-1253 | the running total grows by each appended segment's size |
| ValueItem.ScanSegmentsFails | libregf/libregf_value_item.c:1192-1213 | the segment loop gives up exactly when some segment offset of the list has no cell in the hive |
| ValueItem.NextSegmentMeaning | libregf/libregf_value_item.c:1214-1275 | one segment step appends one segment at file offset hive-bins-list offset + 4 + element offset, of at most 16344 bytes, keeps the running total equal to the sum of sizes and within the value data size, and flags corruption exactly when the cell's payload exceeds 16344 |
| ValueItem.ScanSegmentsPlacement | libregf/libregf_value_item.c:1173-1276 | a completed scan yields one segment per list element, in list order, each at the file offset of its element |
| ValueItem.ScanSegmentsMeaning | libregf/libregf_value_item.c:1221-1253 | the segments of a completed scan are each at most 16344 bytes and together never exceed the value data size |
| ValueItem.ScanSegmentsCorruption | libregf/libregf_value_item.c:1224-1239 | the scan flags corruption exactly when some segment cell's payload exceeds 16344 bytes |
| ValueItem.ScanSegments | libregf/libregf_value_item.c:1173-1276 | a completed scan adds exactly one segment per remaining list element after those already gathered, keeps them, and never clears a corruption flag already set |
| ValueItem.Store | libregf/libregf_value_item.c:527-594 | storing a read result sets the corrupted flag whenever the read found corruption, and a read that produced no data leaves the data kind and stream as they were |
| ValueItem.ReadDataBlockListOf | libregf/libregf_value_item.c:979-1316 | a data block list never yields an in-memory buffer: its data, when any, is a segment stream |
| ValueItem.ReadDataBlockListMeaning | libregf/libregf_value_item.c:1123-1253 | for a list cell that holds the segment count, the item becomes a block item; there is no stream exactly when a segment cell is missing; otherwise the stream has one segment per element at its file offset, each at most 16344 bytes, totalling at most the value data size, and corruption is flagged iff a segment cell was oversized |
| ValueItem.CopyAsWrittenOverrunsCell | libregf/libregf_value_item.c:789-820 | see Findings: with the record start of format 1.1, a 16-byte cell and 16 bytes of data the copy as written ends at byte 20 of a 16-byte cell |
| ValueItem.CopyAsWrittenOverrunBound | libregf/libregf_value_item.c:917-920 | see Findings: the copy as written overruns the cell by at most the 4-byte record start |
| ValueItem.CopyEndAsWritten | libregf/libregf_value_item.c:917-920 | see Findings: the copy as written ends at the record start plus the lesser of the stored size and the whole cell size, never before the record start |
| ValueItem.ClampToCell | libregf/libregf_value_item.c:789-820 | the corrected clamp never copies more than the value data, never past the end of the cell, nothing when the start lies past the cell, and all of the data exactly when it fits after the start |
| ValueItem.NulScan | libregf/libregf_value_item.c:838-851 | the string-size scan stops within the data |
| ValueItem.NulScanMeaning | libregf/libregf_value_item.c:838-851 | the recomputed size is even; it includes the first aligned 0x0000 unit and no earlier unit is 0x0000; without one it is the data rounded down to whole units |
| ValueItem.StringDataSize | libregf/libregf_value_item.c:835-883 | a string's size is either the stored size or the size up to and including its first aligned NUL, and never exceeds the data |
| ValueItem.CellData | libregf/libregf_value_item.c:681-920 | data read from a cell is a buffer (no stream), a prefix of the cell after the record start; non-string data has exactly the size cut to what follows the record start; corruption is flagged exactly when the stored size exceeds the whole cell's size, and that case is an error for cells above INT32_MAX |
| ValueItem.CellDataWithinCellIsNotCorrupt | libregf/libregf_value_item.c:789-820 | a stored size no larger than the whole cell is not flagged corrupted, even when it is cut to what follows the record start |
| ValueItem.CellDataKeepsFittingData | libregf/libregf_value_item.c:789-920 | data that fits in its cell is read as exactly the stored bytes, without corruption |
| ValueItem.SmallDataIsBuffered | libregf/libregf_value_item.c:681-683 | data of at most 16344 bytes, or any data before format 1.5, is read as a buffer, never through a data block list |
| ValueItem.ReadValueDataOf | libregf/libregf_value_item.c:606-966 | offset 0, 0xffffffff or an offset without a cell is an error; buffered data is a prefix of the cell after the record start; data read through a data block list has no buffer |
| ValueItem.ReadValueKeyOf | libregf/libregf_value_item.c:334-594 | a read value key has a name exactly when its name size is non-zero |
| ValueItem.ReadEncodedValueKey | libregf/libregf_value_item.c:334-594 | a cell holding an encoded value key with a name that decodes reads back with those fields and that name, or fails reading its data |
| ValueItem.StreamBytes | libregf/libregf_value_item.c:1991-2040 | the bytes of a segment stream, when all segments lie in the file, total the segments' sizes |
| ValueItem.Value32 | libregf/libregf_value_item.c:2134-2189 | a 32-bit value is produced exactly for the DWORD little- or big-endian types with at least 4 bytes of data |
| ValueItem.Value32LittleEndian | libregf/libregf_value_item.c:2134-2189 | a little-endian DWORD reads back the stored value, whatever follows it |
| ValueItem.Value32BigEndian | libregf/libregf_value_item.c:2134-2189 | a big-endian DWORD reads back the stored value, whatever follows it |
| ValueItem.Value64 | libregf/libregf_value_item.c:2243-2289 | a 64-bit value is produced exactly for the QWORD little-endian type with at least 8 bytes |
| ValueItem.Value64LittleEndian | libregf/libregf_value_item.c:2243-2289 | a QWORD reads back the stored value, whatever follows it |
| ValueItem.BinaryData | libregf/libregf_value_item.c:2818-2868 | binary data is copied exactly when it is non-empty and the destination holds it, and is then the data itself |
| ValueItem.ValueItem.constructor | libregf/libregf_value_item.c:52-116 | a new value item has no value key, no data and no flags |
| ValueItem.ValueItem.ReadDataBlockList | libregf/libregf_value_item.c:979-1316 | the method fails, returns 0 or succeeds exactly as `ReadDataBlockListOf` errs, yields no stream, or yields a stream, and leaves the item in the state that result stores (nothing changes on failure) |
| ValueItem.ValueItem.ScanList | libregf/libregf_value_item.c:1173-1276 | the segment loop computes `ScanSegments` from the first element |
| ValueItem.ValueItem.SegmentOf | libregf/libregf_value_item.c:1214-1275 | one loop body computes one `NextSegment` step: the segment, the new total, and whether the cell was oversized |
| ValueItem.ValueItem.ScanStringSize | libregf/libregf_value_item.c:838-851 | the NUL scan loop computes `NulScan` |
| ValueItem.ValueItem.ReadValueData | libregf/libregf_value_item.c:606-966 | the read succeeds exactly when `ReadValueDataOf` does, and the item then holds what it read; after an error the buffer is released (kept only when the offset was refused), the stream is unchanged, the item is marked corrupted exactly when the value's own cell was smaller than its stored size, and the kind changes only to buffer |
| ValueItem.ValueItem.ReadValueKey | libregf/libregf_value_item.c:334-594 | a second read fails unchanged; a cell too small for a value key flags corruption and succeeds without a key; a cell without `vk` flags corruption and succeeds with a blank key; otherwise the item holds the key's fields, name and data as read |
| ValueItem.ValueItem.ReadElementData | libregf/libregf_value_item.c:1332-1436 | a new item is created exactly when the offset fits in 32 bits and the value key reads, holding what the read produced, and the corruption passed to the I/O handle is the item's own |
| ValueItem.ValueItem.DataSizeOf | libregf/libregf_value_item.c:1852-1928 | the data size is known for buffered data and for block data once fetched |
| ValueItem.ValueItem.DataSizeMatchesData | libregf/libregf_value_item.c:1852-2082 | the reported data size is the length of the data the item yields |
| ValueItem.ValueItem.GetData | libregf/libregf_value_item.c:1939-2082 | the data is that of the item's buffer or stream; fetching a stream caches it in the buffer, after which the answer no longer depends on the file |
| ValueItem.ValueItem.GetValue32 | libregf/libregf_value_item.c:2092-2191 | other types (or no key) fail unchanged; otherwise the value is the DWORD in the type's byte order, fewer than 4 bytes fail, and more than 4 flag corruption |
| ValueItem.ValueItem.GetValue64 | libregf/libregf_value_item.c:2201-2291 | other types fail unchanged; otherwise the value is the little-endian QWORD, fewer than 8 bytes fail, and more than 8 flag corruption |
| ValueItem.ValueItem.BinaryDataSizeOf | libregf/libregf_value_item.c:2698-2754 | the binary data size is reported only for the BINARY type, and is then the data size |
| ValueItem.ValueItem.GetValueBinaryData | libregf/libregf_value_item.c:2765-2884 | a destination above SSIZE_MAX or another type fails unchanged; otherwise the copy is the data, succeeding only when it fits the destination |
| KeyTree.ScanSegment | libregf/libregf_key_tree.c:127-161 | the inner loop stays within the path and consumes at least one unit when any is left; a segment that ends without separator or NUL runs to the end of the path |
| KeyTree.TerminatorEndsSegment | libregf/libregf_key_tree.c:151-157 | a segment the scan reports as terminated ends right after a decoded character that is `\` or NUL |
| KeyTree.Segment | libregf/libregf_key_tree.c:129-161 | the segment handed to the lookup has the scanned length: up to the path end, or up to the unit before the terminator |
| KeyTree.UnterminatedSegmentHash | libregf/libregf_key_tree.c:131-160 | the hash of a segment that runs to the end of the path is the name-hash fold h·37 + upper(c) over its characters |
| KeyTree.ScannedHashIsSliceHash | libregf/libregf_key_tree.c:129-161 | assuming each character is decoded from its own code units and a separator or NUL is one unit, the hash the segment loop computes is the name hash of the segment's own units taken as a slice of the path |
| KeyTree.ScannedHashAtEnd | libregf/libregf_key_tree.c:129-161 | a segment that ends where the scan starts, at the path end or at a terminator, is empty and keeps the hash carried in |
| KeyTree.SliceHashStep | libregf/libregf_key_tree.c:133-160 | a character read inside a slice of the path is hashed as it is in the whole path |
| KeyTree.SegmentHash | libregf/libregf_key_tree.c:129-161 | the hash the segment loop computes from hash 0 is the name hash of the segment, as a key of that name carries it |
| KeyTree.SegmentStep | libregf/libregf_key_tree.c:127-245 | a matched segment moves the walk strictly forward within the path, so the walk does at most one lookup per segment |
| KeyTree.Walk | libregf/libregf_key_tree.c:127-245 | a walk that finds a key has a path whose segments all decode |
| KeyTree.GetSubKeyByPathOf | libregf/libregf_key_tree.c:54-276 | a path longer than SSIZE_MAX is an error; a path with no segments after the leading separator gives the starting key; a key is found only for a path whose segments all decode |
| KeyTree.StepAfterScan | libregf/libregf_key_tree.c:161-245 | after scanning a segment the walk only ever advances |
| KeyTree.Advance | libregf/libregf_key_tree.c:212-244 | a lookup's error stays an error, "no such key" stops the walk, and a found sub-key continues the walk from it after the segment |
| KeyTree.EmptyPathIsStartKey | libregf/libregf_key_tree.c:110-126 | an empty path, or one made of the single leading separator, yields the starting key |
| KeyTree.EmptySegmentIsNotFound | libregf/libregf_key_tree.c:163-166 | an empty segment (two adjacent separators) means no such key |
| KeyTree.WalkEndsAtSubKey | libregf/libregf_key_tree.c:202-245 | the key a successful walk reaches is a sub-key listed by some key item of the hive |
| KeyTree.StepFindsSubKey | libregf/libregf_key_tree.c:183-215 | a step that finds a key reads the current key item, and the key found is one of its sub-keys |
| KeyTree.StepOfLookUp | libregf/libregf_key_tree.c:161-245 | a non-empty segment is looked up by its hash and characters (separator excluded) among the current key's sub-keys, and the walk advances as that lookup says |
| KeyTree.LookUpFindsSubKey | libregf/libregf_key_tree.c:183-215 | a sub-key found by name is one of the current key item's sub-key descriptors |
| KeyTree.DescriptorMatchesNames | libregf/libregf_key_item.c:2421-2528 | with the segment's own name hash, a descriptor matches exactly when its key reads and its name equals the segment ignoring case: the hash shortcut never rejects a real match |
| KeyTree.OtherNameDoesNotMatch | libregf/libregf_key_item.c:2421-2528 | once some key is named by the segment, a key that reads under another name compares as a definite mismatch, not an error |
| KeyTree.LookUpIsFirstNamed | libregf/libregf_key_tree.c:168-215 | one lookup step with the segment's own hash finds `o` exactly when `o` is the first sub key, in list order, that the segment names, every earlier one reading under another name |
| KeyTree.FoundIsFirstNamed | libregf/libregf_key_tree.c:168-215 | a sub key a lookup step finds is the first sub key the segment names |
| KeyTree.FindsFirstMatch | libregf/libregf_key_item.c:2421-2528 | a search that reaches the first sub key the segment names finds it |
| KeyTree.ResolveEndsAtNamedKey | libregf/libregf_key_tree.c:127-245 | following segments by name ends at `o` exactly when all but the last lead to some key, the last is not empty, and `o` is the first sub key of that key the last segment names |
| KeyTree.ChainResolves | libregf/libregf_key_tree.c:127-245 | a chain of keys, each the first sub key of the one before named by the next segment, is followed to its last key |
| KeyTree.WalkIsResolve | libregf/libregf_key_tree.c:127-245 | under the decoder assumption of `ScannedHashIsSliceHash`, when every segment decodes, the walk gives what following the path's segments by name gives |
| KeyTree.StepHashesSegment | libregf/libregf_key_tree.c:161-245 | one round of the walk treats an empty segment as no key and otherwise looks the segment up with its own name hash |
| KeyTree.ResolveCons | libregf/libregf_key_tree.c:168-245 | following a non-empty first segment looks it up and goes on from the key found |
| KeyTree.GetSubKeyByPathResolves | libregf/libregf_key_tree.c:54-276 | under the decoder assumption, lookup by path, for a path within SSIZE_MAX whose segments decode, gives what following its segments by name from the starting key gives |
| KeyTree.ReadSegment | libregf/libregf_key_tree.c:129-161 | the segment loop computes `ScanSegment` from the segment start with hash 0 |
| KeyTree.LookUpSegment | libregf/libregf_key_tree.c:168-215 | reading the key item and searching it by name computes `LookUp` |
| KeyTree.WalkSegment | libregf/libregf_key_tree.c:127-245 | one iteration of the outer loop computes `SegmentStep` |
| KeyTree.LookUpScanned | libregf/libregf_key_tree.c:161-245 | the part of an iteration after the scan computes `StepAfterScan` |
| KeyTree.GetSubKeyByPath | libregf/libregf_key_tree.c:54-276 | the whole path walk computes `GetSubKeyByPathOf`: a path longer than SSIZE_MAX is an error, one leading separator skipped, an empty remainder giving the start key, otherwise one descent per segment, stopping with "not found" at the first unmatched one |
| Key.StoredOffset | libregf/libregf_key.c:390-393 | a file offset maps back to a stored offset only when it lies at least hive-bins-list offset + 4 into the file |
| Key.FileOffsetRoundTrip | libregf/libregf_key.c:390-393 | file offset = stored offset + hive-bins-list offset + 4 is a bijection: converting there and back gives the stored offset, and the stored offset of a file offset is unique |
| Key.FindValue | libregf/libregf_key.c:2179-2244 | a value found by name is at a valid index from the search start |
| Key.FindValueIsFirstMatch | libregf/libregf_key.c:2179-2244 | the value found is the first in list order whose value key reads and whose name matches; every earlier one reads and does not match |
| Key.FindValueNotFound | libregf/libregf_key.c:2179-2244 | "not found" means every value reads and none matches |
| Key.NoValuesIsNotFound | libregf/libregf_key.c:2154-2157 | a key with no values answers "not found" before the query is decoded |
| Key.DefaultValueQuery | libregf/libregf_key.c:2095-2106 | a NULL name with non-zero length is an error; a NULL name with length 0 looks for the default value with hash 0 |
| Key.GetValueByNameOf | libregf/libregf_key.c:2047-2285 | a NULL name with non-zero length, or a length above SSIZE_MAX, is an error; a value found is at an index within the list, for a query that decodes |
| Key.GetSubKeyByNameOf | libregf/libregf_key.c:3038-3175 | a NULL name is an error; a key found is one of the listed descriptors' keys and its key item reads |
| Key.SubKeyByNameIsFirstMatch | libregf/libregf_key.c:3038-3175 | a sub-key found by name needs a name; it is the first descriptor, in order, whose key reads and matches the query under its hash, and its key item reads |
| Key.GetValueOf | libregf/libregf_key.c:1712-1838 | a value is opened exactly for an index within the list whose value key reads, and its file offset maps back to the stored offset |
| Key.GetSubKeyOf | libregf/libregf_key.c:2779-2897 | a sub-key is opened exactly for an index within the descriptors whose key item reads, at that descriptor's offset |
| Key.HashQuery | libregf/libregf_key.c:2158-2178 | the query hash loop computes the name-hash fold over the decoded query |
| Key.Key.constructor | libregf/libregf_key.c:54-191 | a key holds the hive, the codecs, its offset and its key item |
| Key.Key.Open | libregf/libregf_key.c:54-191 | opening a key fails exactly when its key item does not read; otherwise the key holds the item's values and sub-key descriptors |
| Key.Key.GetOffset | libregf/libregf_key.c:335-411 | the offset reported maps back to the key's stored offset |
| Key.Key.GetValue | libregf/libregf_key.c:1849-1936 | opening value `index` answers as `GetValueOf` over the key's values |
| Key.Key.GetValueByName | libregf/libregf_key.c:2047-2285 | looking a value up by name answers as `GetValueByNameOf`: the argument rules, the empty-list shortcut, the query hash, then the first match |
| Key.Key.GetSubKey | libregf/libregf_key.c:2779-2897 | opening sub-key `index` answers as `GetSubKeyOf` |
| Key.Key.GetSubKeyByName | libregf/libregf_key.c:3038-3175 | looking a sub-key up by name answers as `GetSubKeyByNameOf` |
| MountFileSystem.HexDigitValue | regftools/mount_file_system.c:610-687 | a hexadecimal digit of an escape stands for a value below 16 |
| MountFileSystem.HexDigitRoundTrip | regftools/mount_file_system.c:1549-1625 | the lower-case digit the escaping writes reads back as the same value |
| MountFileSystem.UnescapeShortens | regftools/mount_file_system.c:491-768 | unescaping never lengthens a name, so the buffer of path length + 1 always holds the result and its NUL |
| MountFileSystem.Unescape | regftools/mount_file_system.c:522-768 | an unescaped result is at least a quarter as long as its input: each character stands for at most four input characters |
| MountFileSystem.BadEscapeIsError | regftools/mount_file_system.c:576-609 | an escape followed by anything but the escape character or 'x' is an error |
| MountFileSystem.UpToNul | regftools/mount_handle.c:493-494 | the characters before the first NUL: a NUL-free prefix that is followed by a NUL or ends the string |
| MountFileSystem.EscapeChar | regftools/mount_file_system.c:1549-1625 | one name character becomes one to four file name characters |
| MountFileSystem.FilenameOf | regftools/mount_file_system.c:1473-1638 | the escaped name fits the buffer of 4 characters per name character |
| MountFileSystem.FilenameFromKeyName | regftools/mount_file_system.c:1675-1793 | a key has a file name only when it has a name, and it is the escaped name |
| MountFileSystem.KeyPathOf | regftools/mount_file_system.c:396-794 | an empty path, one above SSIZE_MAX - 1 or one not starting with '/' is an error; a key path is non-empty, no longer than the path, and starts with '\\' |
| MountFileSystem.ValueQueryOf | regftools/mount_file_system.c:1285-1392 | "(default)", and only it, is the default value; an empty file name is an error; a value name looked up holds no NUL and is no longer than the file name |
| MountFileSystem.FilenameFromName | regftools/mount_file_system.c:1404-1664 | a name too long for the buffers is an error; a file name is at most four characters per name character, and unescapes back to the name up to its first NUL |
| MountFileSystem.FilenameStopsAtNul | regftools/mount_file_system.c:1506-1638 | the escaping loop ends at the first NUL: a name and its part before the first NUL get the same file name |
| MountFileSystem.EscapeCharRoundTrip | regftools/mount_file_system.c:522-768 | unescaping an escaped character gives the character back, whatever follows it |
| MountFileSystem.FilenameUnescapes | regftools/mount_file_system.c:1019-1247 | unescaping the file name of a NUL-free name gives the name back, whatever follows it |
| MountFileSystem.ValueFilenameRoundTrip | regftools/mount_file_system.c:1285-1392 | the file name of a named value (other than "(default)") is looked up as that same value name |
| MountFileSystem.DefaultValueFilename | regftools/mount_file_system.c:1804-1934 | the default value is shown as "(default)", and "(default)" looks up the default value |
| MountFileSystem.NoEscapeFilename | regftools/mount_file_system.c:1506-1638 | a name without NUL, escape or control characters is its own file name |
| MountFileSystem.NoEscapeKeepsName | regftools/mount_file_system.c:1506-1638 | a file name without an escape character is the name itself |
| MountFileSystem.MountPathUnescapes | regftools/mount_file_system.c:522-768 | a mount path built from escaped key names, joined by '/', unescapes to the key path joined by '\' |
| MountFileSystem.MountPathRoundTrip | regftools/mount_file_system.c:396-794 | the key path of such a mount path is the registry path of the names it was built from |
| MountFileSystem.UnescapeInto | regftools/mount_file_system.c:491-794 | the unescaping loop fails exactly when the escapes are invalid, and otherwise leaves the unescaped name and a NUL in a buffer of input length + 1 |
| MountFileSystem.ReadCharacter | regftools/mount_file_system.c:522-768 | one loop step consumes one character or one escape and yields the character the unescaping gives there, or fails exactly when the unescaping fails there |
| MountFileSystem.GetKeyPathFromPath | regftools/mount_file_system.c:396-794 | a mount path turns into a key path exactly when it is non-empty, within SSIZE_MAX - 1, starts with '/' and its escapes are valid; the buffer holds that key path and a NUL |
| MountFileSystem.GetValueNameFromFilename | regftools/mount_file_system.c:904-1273 | a file name turns into a value name exactly when it is non-empty, within SSIZE_MAX - 1 and its escapes are valid; the buffer holds that name and a NUL |
| MountFileSystem.GetFilenameFromName | regftools/mount_file_system.c:1404-1664 | a name turns into a file name exactly when the size checks pass; the buffer of 4 per character + 1 holds the escaped name and a NUL |
| MountFileSystem.WriteEscaped | regftools/mount_file_system.c:1549-1630 | one loop step appends the escape of one character and leaves what was written before it |
| MountFileEntry.StringCopyReads | regftools/mount_file_entry.c:155-190 | copying a name of length n stores n characters that read, up to the first NUL, as the first n characters of the source |
| MountFileEntry.StringCopyOfTerminated | regftools/mount_file_entry.c:155-190 | copying past a NUL-terminated string stores the string followed by NULs |
| MountFileEntry.FileMode | regftools/mount_file_entry.c:553-588 | a key or the values directory is a directory (S_IFDIR) readable and searchable by all and writable by none; a class name or value is a regular file (S_IFREG) readable by all only |
| MountFileEntry.PosixTimeRoundTrip | regftools/mount_file_entry.c:494-500 | a FILETIME within range converts to nanoseconds since 1970 and back to the same FILETIME |
| MountFileEntry.PosixTime | regftools/mount_file_entry.c:494-500 | a FILETIME of 0 stays 0; any other becomes the nanoseconds since the POSIX epoch modulo 2^64 |
| MountFileEntry.PosixTimeMonotonic | regftools/mount_file_entry.c:494-500 | the conversion keeps the order of timestamps within range |
| MountFileEntry.ModificationTime | regftools/mount_file_entry.c:428-504 | an entry without key has the mounted timestamp; a zero last written time stays 0; otherwise the time is the key's last written time in POSIX nanoseconds |
| MountFileEntry.ContentHasSize | regftools/mount_file_entry.c:1174-1287 | the size an entry reports is the length of the content it reads |
| MountFileEntry.Chunk | regftools/mount_file_entry.c:1289-1306 | a read at an offset within the data returns the data from that offset, as much as the buffer or the remainder allows; a read beyond the end returns nothing |
| MountFileEntry.ChunkAsWritten | regftools/mount_file_entry.c:1289-1306 | the copy as written returns as many bytes as the intended read (see Findings) |
| MountFileEntry.ChunkAsWrittenAtStart | regftools/mount_file_entry.c:1289-1306 | at offset 0 the copy as written and the intended read agree |
| MountFileEntry.ChunkAsWrittenRereadsStart | regftools/mount_file_entry.c:1299-1302 | reading 2 bytes at offset 2 of "ABCD" gives "AB" as written instead of "CD" (see Findings) |
| MountFileEntry.ChunksConcatenate | regftools/mount_file_entry.c:1289-1306 | two reads in a row return the same bytes as one read of the combined size |
| MountFileEntry.ChunkOfAll | regftools/mount_file_entry.c:1289-1306 | a read from 0 with a buffer at least as large as the data returns all of it |
| MountFileEntry.ReadsConcatenate | regftools/mount_file_entry.c:1125-1315 | two consecutive reads of an entry return the same bytes as one read of the combined size |
| MountFileEntry.ReadAtIsChunk | regftools/mount_file_entry.c:1125-1315 | a read of a class name or value file returns the part of its content from the offset |
| MountFileEntry.ReadAt | regftools/mount_file_entry.c:1125-1315 | only class name and value files can be read, with a buffer of at most SSIZE_MAX and a non-negative offset; a read returns at most the buffer size, and the bytes it returns are the contents at that offset |
| MountFileEntry.ReadAllIsContent | regftools/mount_file_entry.c:1125-1315 | a read from 0 with a large enough buffer returns the whole content |
| MountFileEntry.KeySlotsEnumerate | regftools/mount_file_entry.c:954-1059 | the sub-entries of a key are its sub keys, then "(values)" when it has values, then "(classname)" when it has a class name, each at exactly one index |
| MountFileEntry.NumberOfSubEntries | regftools/mount_file_entry.c:721-818 | a class name or value file has no sub-entries; the values directory has one per value of its key |
| MountFileEntry.SubEntriesWithinCount | regftools/mount_file_entry.c:828-1114 | every sub-entry index is below the number of sub-entries, and the indexes past the sub keys exist and borrow the parent's key |
| MountFileEntry.SubEntryOf | regftools/mount_file_entry.c:828-1114 | a negative index, a file or an entry without key is an error; in "(values)" sub-entry i is value i of the key; in a key the first sub-entries are its sub keys with their own handles, and the ones after them are "(values)" or "(classname)" on the parent's handle |
| MountFileEntry.SubEntryNameIsFilename | regftools/mount_file_entry.c:900-1000 | a value or key sub-entry is named by the file name of its value or key name |
| MountFileEntry.FilenameHasNoNul | regftools/mount_file_system.c:1506-1638 | an escaped name holds no NUL, so its stored length is its length |
| MountFileEntry.SubKeyNamedValuesCollides | regftools/mount_file_entry.c:954-1047 | a sub key named "(values)" and the values directory of a key with values get the same file name |
| MountFileEntry.SubKeyEntryNamedValues | regftools/mount_file_entry.c:954-1000 | a sub key named "(values)" becomes a sub-entry with that file name |
| MountFileEntry.ValuesEntryName | regftools/mount_file_entry.c:1037-1042 | a key with values has the "(values)" sub-entry right after its sub keys |
| MountFileEntry.ValuesNameIsOwnFilename | regftools/mount_file_system.c:1506-1638 | "(values)" escapes to itself |
| MountFileEntry.ValuesSubEntrySharesParentHandle | regftools/mount_file_entry.c:244-263 | the values directory entry uses its parent's key handle and yet releases a key when freed |
| MountFileEntry.FileEntry.constructor | regftools/mount_file_entry.c:59-212 | a new entry holds the timestamp, name, type, key and value given, with no cached data |
| MountFileEntry.FileEntry.Initialize | regftools/mount_file_entry.c:59-212 | creation fails exactly for a name longer than SSIZE_MAX - 1 or an unknown type; otherwise the entry keeps a copy of the name of the length given, its size counting the NUL |
| MountFileEntry.FileEntry.GetModificationTime | regftools/mount_file_entry.c:428-504 | the modification time is `ModificationTime` of the entry's key or mounted timestamp |
| MountFileEntry.FileEntry.GetName | regftools/mount_file_entry.c:637-712 | the name is copied exactly when the entry has one and the buffer is within SSIZE_MAX and large enough; the copy is the name and its NUL, and nothing else is written |
| MountFileEntry.FileEntry.GetSize | regftools/mount_file_entry.c:1324-1389 | the size is the content size of the entry, and is cached |
| MountFileEntry.FileEntry.ReadBufferAtOffset | regftools/mount_file_entry.c:1125-1315 | a read succeeds exactly when `ReadAt` does; it fills the buffer's start with those bytes, leaves the rest, and returns their count |
| MountFileEntry.FileEntry.CacheSize | regftools/mount_file_entry.c:1174-1209 | the size is cached exactly when the content size can be read |
| MountFileEntry.FileEntry.CacheData | regftools/mount_file_entry.c:1215-1287 | the content is cached exactly when its size is within SSIZE_MAX and it can be read |
| MountFileEntry.FileEntry.GetSubFileEntryByIndex | regftools/mount_file_entry.c:828-1114 | a sub-entry is created exactly when `SubEntryOf` gives one, with that name, type, key and value |
| MountFileEntry.FileEntry.NewSubEntry | regftools/mount_file_entry.c:1063-1082 | a sub-entry is created with the file name of its key or value name |
| MountFileEntry.CopyString | regftools/mount_file_entry.c:155-190 | the copy loop stores the first n characters as a string copy does and leaves the rest of the buffer |
| MountHandle.ScanBack | regftools/mount_handle.c:512-521 | the backward scan stops at the last '/' at or before the start, or at 0; no '/' lies between |
| MountHandle.ScanBackOverSegment | regftools/mount_handle.c:512-521 | scanning back from inside the last segment stops at the separator before it |
| MountHandle.TrimmedLength | regftools/mount_handle.c:496-511 | dropping one trailing '/' leaves a non-empty path |
| MountHandle.ClassifyAt | regftools/mount_handle.c:524-611 | every path is classified as a key, the values directory, a value or a class name, with a key path and file name inside the path |
| MountHandle.ClassifyAsWritten | regftools/mount_handle.c:507-611 | the classification as written stays within the path; its file name length may be -1 (see Findings) |
| MountHandle.Classify | regftools/mount_handle.c:507-611 | the intended classification has a file name of non-negative length |
| MountHandle.FilenameIsLastSegment | regftools/mount_handle.c:512-533 | the file name is the last segment of the path without its trailing '/', and it follows a '/' |
| MountHandle.AsWrittenAgreesWithoutTrailingSeparator | regftools/mount_handle.c:507-533 | without a trailing '/' the classification as written is the intended one |
| MountHandle.TrailingSeparatorWrapsFilenameLength | regftools/mount_handle.c:512-533 | for "/a/" the file name length as written is -1, and intended 1 (see Findings) |
| MountHandle.ValuesPathClassifies | regftools/mount_handle.c:553-571 | a path ending in "/(values)" is the values directory of the key before it |
| MountHandle.ValueFilePathClassifies | regftools/mount_handle.c:572-606 | a path ".../(values)/f" is the value f of the key before "(values)" |
| MountHandle.ClassifyAtParentValues | regftools/mount_handle.c:572-606 | a file name under a "(values)" parent makes the path a value path |
| MountHandle.ValueNamedValuesIsValuesDirectory | regftools/mount_handle.c:553-571 | ".../(values)/(values)" is a values directory, so a value named "(values)" cannot be reached |
| MountHandle.EntryFor | regftools/mount_handle.c:612-677 | a found entry has the classified type and a non-negative file name length |
| MountHandle.Initialized | regftools/mount_handle.c:656-675 | the entry is created exactly when its file name length is between 0 and SSIZE_MAX - 1 |
| MountHandle.TrailingSeparatorIsError | regftools/mount_handle.c:507-677 | with key "/a" present, "/a/" is an error as written and opens key "a" as intended (see Findings) |
| MountHandle.FoundEntryIsNamedAfterPath | regftools/mount_handle.c:507-677 | a found entry has the classified type, is named after the last path segment, and holds the key its key path names |
| MountHandle.EntryForFields | regftools/mount_handle.c:612-677 | a found entry holds the copied file name, the type and the key of the key path |
| MountHandle.ValuesDirectoryEntry | regftools/mount_handle.c:553-677 | ".../(values)" opens exactly when its key does, as the values directory of that key |
| MountHandle.FileEntryByPathOf | regftools/mount_handle.c:458-693 | the empty path is an error; a found entry lies on the key its key path finds, has the type the path is classified as, and carries a value exactly when it is a value file |
| MountHandle.MountHandle.constructor | regftools/mount_handle.c:44-123 | a mount handle starts with the mounted timestamp given and code page Windows 1252 |
| MountHandle.MountHandle.GetFileEntryByPath | regftools/mount_handle.c:458-693 | a path opens a file entry exactly when `FileEntryByPathOf` finds one, with its name, type, key and value, and the handle's timestamp |
| MountHandle.ClassifyPath | regftools/mount_handle.c:507-611 | the classification code computes `Classify` |
| MountHandle.ClassifyFrom | regftools/mount_handle.c:524-611 | the code after the first backward scan computes `ClassifyAt` |
| MountHandle.ScanBackward | regftools/mount_handle.c:512-521 | the backward scan loop computes `ScanBack` |
| ReportHandle.DigitOf | regftools/report_handle.c:6183-6186 | the position of a character in the product key alphabet, 24 when absent |
| ReportHandle.DigitOfTable | regftools/report_handle.c:6183-6186 | the 24 characters of the product key alphabet are distinct and none is '-' |
| ReportHandle.KeyChars | regftools/report_handle.c:6296-6323 | the key characters produced from index i down to 0 number i + 1 |
| ReportHandle.ProductKeyOf | regftools/report_handle.c:6296-6324 | a product key has 29 characters |
| ReportHandle.KeyCharsLayout | regftools/report_handle.c:6296-6323 | the dashes are exactly at the indexes 5, 11, 17 and 23, and every other character is from the alphabet |
| ReportHandle.KeyCharsValue | regftools/report_handle.c:6296-6323 | read back as base-24 digits, the key characters give the 15-byte value modulo 24 to the number of digits |
| ReportHandle.ProductKeyLayout | regftools/report_handle.c:6296-6324 | a product key is five groups of five alphabet characters separated by dashes |
| ReportHandle.ProductKeyRoundTrip | regftools/report_handle.c:6279-6324 | the 25 digits of a product key read back as the 15-byte value modulo 24^25 |
| ReportHandle.ProductKey | regftools/report_handle.c:6279-6324 | a product key is decoded exactly for data of 0xa4 bytes, and is 29 characters with dashes exactly at every sixth position |
| ReportHandle.DivideBy24 | regftools/report_handle.c:6307-6320 | dividing the 15-byte little-endian value in place leaves the quotient and returns the remainder |
| ReportHandle.DecodeProductKey | regftools/report_handle.c:6279-6324 | a product key is decoded exactly for 0xa4 bytes of data, from the 15 bytes at 0x34, and is terminated by NUL |
| ReportHandle.NextKeyChar | regftools/report_handle.c:6299-6322 | one step of the outer loop adds the character at that index and leaves the rest of the value to the lower indexes |
| ReportHandle.DecimalOf | regftools/report_handle.c:2883-2898 | a decimal index is a non-empty string of digits |
| ReportHandle.MruIndexNames | regftools/report_handle.c:2855-2898 | every index below 2^32 is an MRU name for the intended check; as written only 0 to 9 are (see Findings) |
| ReportHandle.MruTenSkipped | regftools/report_handle.c:2855 | the name "10" is rejected as written and accepted as intended (see Findings) |
| ReportHandle.IsMruNameAsWritten | regftools/report_handle.c:2855-2898 | see Findings: as written a name is accepted exactly when it is a single character that is a decimal digit or NUL |
| ReportHandle.CheckDigits | regftools/report_handle.c:2883-2898 | the digit check accepts exactly a name whose characters before the first NUL are decimal digits |
| ReportHandle.IsMruValueName | regftools/report_handle.c:2855-2898 | the name check computes the intended `IsMruName` |
| ReportHandle.ScanPairs | regftools/report_handle.c:2087-2095 | the scan stops on an even offset at the first 0x0000 pair, or where 2 or fewer bytes remain |
| ReportHandle.StringEnd | regftools/report_handle.c:2087-2096 | the intended end of the string never passes the data |
| ReportHandle.StringEndAsWrittenOverrun | regftools/report_handle.c:2087-2096 | as written the end passes the data only for fewer than 2 bytes or an odd count; otherwise it is the intended end (see Findings) |
| ReportHandle.StringEndAsWritten | regftools/report_handle.c:2087-2096 | see Findings: the end as written is even and at least 2, and passes the data by at most one byte unless the data is empty |
| ReportHandle.StringEndPastOddData | regftools/report_handle.c:2087-2096 | for the 3 bytes 41 00 42 the end as written is 4 and intended 3 (see Findings) |
| ReportHandle.StringEndIsTerminator | regftools/report_handle.c:2087-2096 | the end lies right after the first 0x0000 pair at an even offset |
| ReportHandle.FindStringEnd | regftools/report_handle.c:2087-2096 | the scan loop computes the intended `StringEnd` |

## Left out

- NULL-pointer argument checks and "already set" out-pointer checks: sequences, maps and object references in the model are never NULL, so those `-1` paths do not exist here. The "already read" rejections of the record readers are kept: a second `ReadData` on a named key, value key or multi-string fails and changes nothing.
- Allocation failures and the memset/memcpy failure injection of the tests: allocation always succeeds in the model; only the size limits that come before an allocation are modelled.
- Constants whose defining headers are not part of this model are taken as: `SSIZE_MAX` = 2^63 - 1, `MEMORY_MAXIMUM_ALLOCATION_SIZE` = 128 MiB, `LIBREGF_MAXIMUM_SUB_KEY_RECURSION_DEPTH` = 256, `LIBREGF_CODEPAGE_WINDOWS_1252` = 1252.
- libuna, libclocale and `towupper`: the character decoders (codepage, UTF-8, UTF-16 little-endian) and the upper-casing are function parameters. The model proves what libregf does with the characters they produce, not the conversions themselves.
- KeyTree.WalkIsResolve, KeyTree.GetSubKeyByPathResolves, KeyTree.ScannedHashIsSliceHash: these assume, as `ReadsOwnUnits`, what the libuna decoders do and the parameter type does not guarantee. A character is decoded from its own code units only, so a slice holding those units decodes it alike, and '\\' and NUL are one code unit each. For a decoder without these properties nothing is proved about the path walk beyond `Walk` and `GetSubKeyByPathOf`'s own contracts.
- The UTF-16 query variants (`libregf_key_tree_get_sub_key_by_utf16_path`, `..._by_utf16_name`, `compare_name_with_utf16_string`): they differ from the UTF-8 ones only in the query decoder. The model is generic over the query's code unit type, so one definition stands for both.
- The hive bins list (libregf_hive_bins_list.c) and the file facade (libregf_file.c) are not part of this model. `HiveBinsList` abstracts `get_cell_at_offset` as a partial map from offset to cell payload, and `get_index_at_offset` as membership in the bin ranges.
- The libfdata list and stream of a value's data blocks, and the libfcache caches: a value's data is the byte sequence the segments concatenate to.
- libbfio reads: `ReadFileIoHandle` members take the bytes a read returned, and the short-read and I/O-error rules are stated on their length.
- The checksum's aligned fast path (`libregf_checksum.c:98-257`) depends on pointer alignment. Only the result of the portable byte loop is specified, and that loop is the model.
- `HAVE_DEBUG_OUTPUT` blocks, the `HAVE_LIBREGF_MULTI_THREAD_SUPPORT` read/write locks, and the Windows branches of the regftools files (escape '^', case-insensitive compares, raw FILETIME modification times): the POSIX configuration is modelled.
- regftools character strings are sequences of Unicode characters. The libuna conversion between them and UTF-8 system strings is taken as exact, so buffer bounds that the source counts in code units are counted in characters. Invalid UTF-8 that libuna would reject is accepted by the model.
- `mount_file_system_get_key_by_path` and `mount_file_system_get_value_by_filename` call into libregf through handles. `MountHandle` takes the key and value lookups as function parameters (`KeyLookup`, `ValueLookup`); `MountFileSystem.ValueQueryOf` states which value name the lookup is given.
- `mount_file_system_get_mounted_timestamp` and the clock behind it: the mounted timestamp is a parameter of each file entry. Access, change and inode times are not part of the regftools core.
- `mount_handle_set_ascii_codepage` and the codepage parsing of libclocale: only the default codepage is modelled.
- Key handle ownership: the model records which handle a file entry holds (`KeySource`) and whether `free` would release it (`ReleasesKeyOnFree`). It does not model the release itself. `MountFileEntry.ValuesSubEntrySharesParentHandle` states that a "(values)" sub-entry holds its parent's key handle while `free` releases the key of a VALUES entry. Whether this double release happens depends on the FUSE and Dokan drivers, which are not part of this model.
- 32-bit `int` overflow of the element, sub-key and value counts: the counts are unbounded naturals. The libregf readers bound them by 16-bit or 32-bit record fields before they are used.
- The report printing of regftools/report_handle.c: the product key, the MRUListEx name check and the string terminator scan are modelled; the `fprintf` output and the libfwsi shell-item parsing are not.
- The `value_16bit` intermediate of the product-key division is an unbounded integer: `DivideByteStep` proves that remainder * 256 + byte stays below 24 * 256, so the 16-bit variable never overflows.
- NamedKey simple getters (flags, last written time, class name offset and size, security key offset, sub-key and value counts): each returns a field of the parsed record, and the record fields are what `NamedKey.FieldsRoundTrip` and `NamedKey.ParseRecord` state.
- The value-key "data in key" branch of `libregf_value_item_read_value_key` (`libregf_value_item.c:502-526`): `libregf_value_key.c` as shown never sets `data_in_key`, so the branch cannot run, and the model has no data inside a value key. The model follows the `.c` bodies where they disagree with the `.h` prototypes and the call at `libregf_value_item.c:450-456`.
- ValueItem.ReadDataBlockList: the corrupted flag is set once, after the whole segment scan, rather than at each missing or short segment. The flag is sticky, so the final state is the same.
- ValueKey.ParseValueKey: the value name hash decodes the name with the named-key ASCII flag (`LIBREGF_NAMED_KEY_FLAG_NAME_IS_ASCII`, 0x0020) tested against the value key's flags, as `libregf_value_key.c:367` does. `libregf_debug.c:86` tests value key flags against a separate `LIBREGF_VALUE_KEY_FLAG_NAME_IS_ASCII`, whose definition is not part of this model. The model keeps the code's behaviour.
- Recursion depth: `KeyItem` stops at the depth cap; no fuel bound is used anywhere.
- Key.NameCompare: the value-name comparison of `libregf_value_key_compare_name_with_utf8_string` and `libregf_value_key_compare_name_with_utf16_string` (declared at libregf/libregf_value_key.h:134-148) is not part of this model, since their bodies are not among the modelled files. The model takes the comparison as a parameter and assumes nothing about it beyond its type: it answers match, no match or error for a value key, a name hash and a query. Key.FindValueIsFirstMatch, Key.FindValueNotFound and Key.GetValueOf therefore hold for every comparison function, and nothing is proved about which value names match which queries.

## Findings

| source | as written | input that shows it | evidently intended | confidence | as-written member | corrected member |
|---|---|---|---|---|---|---|
| libregf/libregf_value_item.c:789-820 | for format 1.1 and older the data starts 4 bytes into the cell, yet a data size larger than the cell is cut to the whole cell size, so the copy at 917-920 can read up to 4 bytes past the cell | format 1.1, a 16-byte data cell, value data size 16: bytes 4 to 20 of a 16-byte cell are copied | cut the data size to the cell size minus the data offset whenever it exceeds that, also when it does not exceed the whole cell (a size of 14 in a 16-byte cell); the corruption flag and the INT32_MAX error keep the code's test against the whole cell size | medium, not executed | ValueItem.CopyAsWrittenOverrunsCell | ValueItem.ClampToCell |
| regftools/mount_file_entry.c:1299-1302 | `read_buffer_at_offset` copies from the start of the cached data, not from `value_data + offset` | a 4-byte class name "ABCD", offset 2, buffer size 2: the read returns "AB" | copy `read_count` bytes from `value_data + offset` | high, not executed | MountFileEntry.ChunkAsWrittenRereadsStart | MountFileEntry.FileEntry.ReadBufferAtOffset |
| regftools/mount_handle.c:512-533 | after a trailing '/' is dropped, the backward scan starts at `path[path_length]`, which is that dropped '/', so `filename_length` is `path_length - (path_length + 1)`, -1 as a `size_t` | the path "/a/" with key "a" present: the file name length wraps and creating the entry fails | scan back from `path_length - 1`, giving the file name "a" | high, not executed | MountHandle.TrailingSeparatorIsError | MountHandle.MountHandle.GetFileEntryByPath |
| regftools/report_handle.c:2855 | only a value name of size 2 (one character and its NUL) is checked, although the name buffer and the digit loop at 2883-2898 allow 10 digits | the MRUListEx value name "10" is skipped | check every name of size 2 to 11 | medium, not executed | ReportHandle.MruTenSkipped | ReportHandle.IsMruValueName |
| regftools/report_handle.c:2087-2096 | the scan stops when 2 or fewer bytes remain and then adds 2, so for odd-sized or tiny data the string size handed to libuna passes the end of the data | the 3 bytes 41 00 42: the string size is 4 | do not let the end pass the data size | medium, not executed | ReportHandle.StringEndPastOddData | ReportHandle.FindStringEnd |
