# Extended savegame versions (SLXI) and road-bit lookup, in Dafny

This project models two pieces of an OpenTTD patch pack.

**Extended savegame versions** (`src/saveload/extended_ver_sl.cpp`). A
savegame records, per "extended feature", the version of that feature it
was written with. The feature table `_sl_xv_sub_chunk_infos` lists every
known feature: its index into the version array `_sl_xv_feature_versions`,
its flags, the version it saves, the highest version it loads, its name, an
optional extra-data writer and reader, and an optional list of chunk IDs
that belong to it. The SLXI chunk carries:

- a header: chunk version, chunk flags, item count;
- per saved feature: flags, version, name, optionally extra data, optionally
  a chunk-ID list.

On load, each item is accepted, ignored or rejected:

- an unknown name is ignored or rejected according to the item's "ignorable
  unknown" flag;
- a version above the feature's maximum is ignored or rejected according to
  its "ignorable version" flag;
- the chunk IDs of an ignored item are added to `_sl_xv_discardable_chunk_ids`.

The model has these modules:

- `SaveLoad`: the savegame stream as a sequence of tokens (bytes and
  strings), with readers that return the value read and the rest of the
  stream, or an error.
- `SlxiTable`: the feature table entries, the sub-chunk flags as bits, and
  the version array that `SlXvSetCurrentState` sets (`CurrentVersions`).
- `FeatureTest`: `SlXvIsFeaturePresent` and `SlXvFeatureTest::IsFeaturePresent`.
- `ChunkIdList`: `WriteChunkIdList`, as a loop and as a state machine whose
  assertions are shown to hold exactly on well-formed lists.
- `SlxiSave`: the chunk `Save_SLXI` writes (`EncodeSlxi`) and the length it
  declares (`DeclaredLength`).
- `SlxiLoad`: `Load_SLXI` as a function of the table, the stream and the
  previous globals (`LoadSlxi`), item by item (`LoadItem`).
- `SlxiRoundTrip`: loading the chunk saved for a table, under that table,
  gives the versions `SlXvSetCurrentState` gives, consumes the whole chunk,
  and leaves the discardable list as it was. This holds for tables
  (`RoundTripTable`) that meet these conditions:
  - the table is valid: indices in range and distinct, and the save
    assertions hold;
  - feature names are distinct, since the loader takes the first entry of a
    name, so a second entry with the same name would not get its own item back;
  - every saved version is within the feature's maximum;
  - every `load_proc` reads exactly the extra-data length its feature saves.
- `ExtendedVersion`: the globals as a class whose methods update them in
  place: `ResetState`, `SetCurrentState`, `IsChunkDiscardable`, `Save`,
  `Load`. Each method is proved against the function that specifies it.

**Road-bit lookup** (`src/road_map.cpp`, `GetAnyRoadBits`). This gives the
road pieces a tile offers to one road type. The tile is modelled by what its
accessors return. The direction helpers have their usual four-direction,
two-axis meaning.

## Model

| member | source | states |
|---|---|---|
| FeatureTest.FeatureTestMeaning | src/saveload/extended_ver_sl.cpp:59-78 | for XSLFI_NULL the combined test is exactly the savegame-version range test; otherwise it is that test OR / AND the feature's version lying in [min, max] |
| FeatureTest.AndImpliesOr | src/saveload/extended_ver_sl.cpp:67-73 | a test that passes under XSLFTO_AND passes under XSLFTO_OR |
| FeatureTest.FeatureTestMonotone | src/saveload/extended_ver_sl.cpp:61-65 | widening the savegame-version range or the feature-version range never makes a passing test fail |
| FeatureTest.PresentAfterReset | src/saveload/extended_ver_sl.cpp:83-87 | after a reset, a feature is present for a range exactly when the range starts at 0 |
| FeatureTest.PresentAfterSetCurrentState | src/saveload/extended_ver_sl.cpp:83-87 | after SlXvSetCurrentState, a table feature is present exactly for ranges holding its save version; an index with no entry only for ranges starting at 0 |
| SlxiTable.CurrentVersionsAt | src/saveload/extended_ver_sl.cpp:102-111 | with distinct indices, each table feature's slot holds its save version and every other slot holds 0 |
| SlxiTable.SetClearFlag | src/saveload/extended_ver_sl.cpp:216-217 | or-ing in a flag that is clear adds its value, stays below 2^32, sets that flag and leaves every other flag as it was |
| SlxiTable.SavedFlagsBits | src/saveload/extended_ver_sl.cpp:212-218 | the flags written for a feature fit in 32 bits; the extra-data bit is set iff the extra-data length is non-zero, the chunk-list bit iff the chunk count is non-zero; the two ignorable bits are the table's |
| ChunkIdList.WriteChunkIdList | src/saveload/extended_ver_sl.cpp:140-160 | returns the number of 4-character IDs in the list and, unless in a dry run, writes the bytes of every ID and none of the commas; its assertions are the precondition |
| ChunkIdList.ScanPrefixState | src/saveload/extended_ver_sl.cpp:144-157 | after any prefix, the loop has failed its comma assertion iff a comma is missing; otherwise its offset, count and bytes so far are those of the prefix |
| ChunkIdList.ScanAcceptsExactlyWellFormed | src/saveload/extended_ver_sl.cpp:144-158 | both assertions hold exactly for well-formed lists; then the loop counts ChunkIdCount IDs and emits their bytes |
| ChunkIdList.ChunkIdBytesAreIds | src/saveload/extended_ver_sl.cpp:325-327 | the bytes written for a list read back, four at a time, as the list's chunk IDs |
| SlxiSave.ItemSize | src/saveload/extended_ver_sl.cpp:181-198 | the item written for a saved feature occupies exactly the bytes the first pass adds to the length for it |
| SlxiSave.EntriesSize | src/saveload/extended_ver_sl.cpp:179-200 | the items of all saved features occupy exactly the summed item lengths |
| SlxiSave.DeclaredLengthIsWrittenSize | src/saveload/extended_ver_sl.cpp:203-234 | the length declared with SlSetLength is the size of the chunk written |
| SlxiSave.EncodeEntriesAppend | src/saveload/extended_ver_sl.cpp:209-234 | the items of two parts of the table are the items of the first part followed by those of the second, and the saved counts add up |
| SlxiSave.EntriesPrefixStep | src/saveload/extended_ver_sl.cpp:209-234 | (proof step of WriteItems) the second pass over one more entry appends that entry's item, or nothing when it is not saved |
| SlxiSave.PrefixTotalsStep | src/saveload/extended_ver_sl.cpp:180-184 | (proof step of MeasureItems) the first pass over one more entry adds one to the item count and that item's length to the total exactly when the entry is saved |
| SlxiSave.HeadSize | src/saveload/extended_ver_sl.cpp:183-184 | an item's flags, version and name occupy 4 bytes for the flags plus the object length of version and name |
| SlxiSave.FieldSize | src/saveload/extended_ver_sl.cpp:189 | a length-prefixed field occupies 4 bytes for the length plus its payload |
| SlxiLoad.FindFeature | src/saveload/extended_ver_sl.cpp:265-273 | the scan returns the first entry carrying the name; it finds nothing iff no entry carries it |
| SlxiLoad.Classify | src/saveload/extended_ver_sl.cpp:275-320 | an item is accepted only for an entry carrying its name whose maximum version is at least the item's version |
| SlxiLoad.ClassifyPolicy | src/saveload/extended_ver_sl.cpp:275-320 | for a known name: accepted if its version is within the maximum, else ignored if "ignorable version", else rejected as too large; for an unknown name: ignored if "ignorable unknown", else rejected as unknown |
| SlxiLoad.ReadExtraData | src/saveload/extended_ver_sl.cpp:281-305 | without the extra-data flag nothing is read; otherwise the rest never grows |
| SlxiLoad.ReadIdField | src/saveload/extended_ver_sl.cpp:324-333 | without the chunk-list flag nothing is read; with it, a count and that many IDs are read |
| SlxiLoad.ReadItemHeader | src/saveload/extended_ver_sl.cpp:261-263 | an item header reads flags, version and name: seven tokens |
| SlxiLoad.LoadItem | src/saveload/extended_ver_sl.cpp:261-333 | an item that loads keeps the array's size, consumes input and only appends to the discardable list |
| SlxiLoad.LoadItems | src/saveload/extended_ver_sl.cpp:260-334 | the item loop keeps the array's size, consumes at least one token per item and only appends to the discardable list |
| SlxiLoad.LoadItemsNext | src/saveload/extended_ver_sl.cpp:260 | (proof step of the item loop) the loop reads one more item from where the previous items stopped |
| SlxiLoad.LoadItemsStop | src/saveload/extended_ver_sl.cpp:260 | once an item fails, the loop ends with that error whatever the item count |
| SlxiLoad.LoadSlxi | src/saveload/extended_ver_sl.cpp:237-335 | a chunk that loads gives a full version array and only appends to the discardable list |
| SlxiLoad.LoadSlxiHeader | src/saveload/extended_ver_sl.cpp:239-260 | an unexpected chunk (faked or not extended) fails as unexpectedly present; otherwise a chunk version above 0 fails as too new; otherwise nonzero chunk flags fail as unknown header flags; a header that passes starts the item loop on the announced count |
| SlxiLoad.LoadItemEffect | src/saveload/extended_ver_sl.cpp:275-333 | a rejected item fails with its error; an item that loads either was accepted (its feature's slot takes the item's version, and the discardable list is unchanged) or was ignored (the versions are unchanged) |
| SlxiLoad.ReadChunkIdsOf | src/saveload/extended_ver_sl.cpp:325-332 | reading n chunk IDs from n written IDs gives them back and leaves the rest |
| SlxiLoad.HeaderOf | src/saveload/extended_ver_sl.cpp:261-263 | a written item header reads back as its flags, version and name |
| SlxiLoad.ExtraFieldSkipped | src/saveload/extended_ver_sl.cpp:281-283 | for an ignored item, the extra-data field is skipped whole |
| SlxiLoad.ExtraDataLoaded | src/saveload/extended_ver_sl.cpp:292-305 | extra data read by a load_proc that consumes exactly its length is taken whole |
| SlxiLoad.ExtraFieldLoaded | src/saveload/extended_ver_sl.cpp:292-305 | for an accepted item, the extra-data field (present or not) is taken whole when the load_proc consumes exactly its length |
| SlxiLoad.ExtraFieldRejected | src/saveload/extended_ver_sl.cpp:294-303 | non-empty extra data for a feature without load_proc fails as unexpected; a load_proc that reads any other number of bytes than declared fails as a length mismatch |
| SlxiLoad.IdFieldOf | src/saveload/extended_ver_sl.cpp:324-333 | a written chunk-ID field reads back as its IDs, or as none when the flag is clear |
| SlxiLoad.ItemSplit | src/saveload/extended_ver_sl.cpp:21-28 | (proof step of IgnoredItem and AcceptedItem) an item is laid out as header, extra-data field, chunk-ID field |
| SlxiLoad.IgnoredStep | src/saveload/extended_ver_sl.cpp:275-333 | (proof step of IgnoredItem) an ignored item leaves the versions and appends its chunk IDs to the discardable list |
| SlxiLoad.AcceptedStep | src/saveload/extended_ver_sl.cpp:288-306 | (proof step of AcceptedItem) an accepted item sets its feature's version and leaves the discardable list |
| SlxiLoad.RejectedItem | src/saveload/extended_ver_sl.cpp:285-287 | a rejected item fails with its error, before any field after the name is read |
| SlxiLoad.IgnoredItem | src/saveload/extended_ver_sl.cpp:276-285 | a well-formed ignored item is consumed whole; the versions stay and its listed chunk IDs are appended to the discardable list |
| SlxiLoad.AcceptedItem | src/saveload/extended_ver_sl.cpp:288-306 | a well-formed accepted item is consumed whole; its feature's slot takes its version and the discardable list stays |
| SlxiLoad.AcceptedItemExtraDataRejected | src/saveload/extended_ver_sl.cpp:294-303 | an accepted item with extra data fails when its feature has no load_proc, or when the load_proc reads fewer or more bytes than declared |
| SlxiRoundTrip.LoadedVersionsAreCurrent | src/saveload/extended_ver_sl.cpp:102-111 | with distinct indices, the versions after loading every saved feature are those SlXvSetCurrentState sets |
| SlxiRoundTrip.EncodeItemLayout | src/saveload/extended_ver_sl.cpp:211-232 | a saved feature's item is the documented item layout, with the flags Save_SLXI computes |
| SlxiRoundTrip.SavedFeatureAccepted | src/saveload/extended_ver_sl.cpp:265-291 | with distinct names, the loader accepts a saved feature of a loadable table as its own entry |
| SlxiRoundTrip.SavedItemLoads | src/saveload/extended_ver_sl.cpp:276-306 | a saved feature's item loads back: it sets that feature's version and adds no discardable chunk ID |
| SlxiRoundTrip.EntryLoadsNext | src/saveload/extended_ver_sl.cpp:260-334 | after the items before a table entry, that entry's item (if saved) loads back |
| SlxiRoundTrip.PrefixTotals | src/saveload/extended_ver_sl.cpp:276-291 | (proof step of EntriesLoad) one more table entry adds one item and sets its version exactly when that entry is saved |
| SlxiRoundTrip.PrefixValid | src/saveload/extended_ver_sl.cpp:180-181 | (proof step of EntriesLoad) a prefix of a valid table keeps its indices in range and its save assertions |
| SlxiRoundTrip.EntriesLoad | src/saveload/extended_ver_sl.cpp:259-334 | the items saved for any prefix of the table load back one after the other, leaving what follows them |
| SlxiRoundTrip.SlxiRoundTrip | src/saveload/extended_ver_sl.cpp:162-335 | loading the chunk saved for a table, under that table, succeeds, consumes it whole, gives the versions SlXvSetCurrentState gives and leaves the discardable list unchanged |
| ExtendedVersion.ExtendedVersionState.constructor | src/saveload/extended_ver_sl.cpp:40-43 | the globals start all zero, false and empty |
| ExtendedVersion.ExtendedVersionState.ResetState | src/saveload/extended_ver_sl.cpp:92-97 | every version becomes 0, neither extended nor faked; the discardable list is kept |
| ExtendedVersion.ExtendedVersionState.SetCurrentState | src/saveload/extended_ver_sl.cpp:102-111 | the versions become those of the table, extended and not faked |
| ExtendedVersion.ExtendedVersionState.IsChunkDiscardable | src/saveload/extended_ver_sl.cpp:126-134 | true iff the ID is on the discardable list |
| ExtendedVersion.ExtendedVersionState.MeasureItem | src/saveload/extended_ver_sl.cpp:181-198 | the first pass over one saved feature records its extra-data length and chunk count and adds its item length |
| ExtendedVersion.ExtendedVersionState.RecordStep | src/saveload/extended_ver_sl.cpp:186-196 | (proof step of MeasureItems) recording a saved feature's nonzero figures at its index keeps every visited entry's figures recorded and every unvisited slot zero |
| ExtendedVersion.ExtendedVersionState.MeasureItems | src/saveload/extended_ver_sl.cpp:172-200 | the first pass counts the saved features, totals the declared length and records each feature's figures by index |
| ExtendedVersion.ExtendedVersionState.WriteItem | src/saveload/extended_ver_sl.cpp:211-232 | the second pass over one saved feature writes its item |
| ExtendedVersion.ExtendedVersionState.ItemFlags | src/saveload/extended_ver_sl.cpp:212-217 | the flags written for a saved feature are its table flags plus the extra-data and chunk-list bits exactly when those fields are present |
| ExtendedVersion.ExtendedVersionState.WriteItems | src/saveload/extended_ver_sl.cpp:203-234 | the second pass writes the header and every saved feature's item in table order |
| ExtendedVersion.ExtendedVersionState.Save | src/saveload/extended_ver_sl.cpp:162-235 | sets the current state, declares DeclaredLength and writes EncodeSlxi |
| ExtendedVersion.ExtendedVersionState.ScanFeatures | src/saveload/extended_ver_sl.cpp:265-273 | finds the first entry carrying the name, or reports that none does |
| ExtendedVersion.ExtendedVersionState.AppendDiscardable | src/saveload/extended_ver_sl.cpp:326-331 | pushes the chunk IDs onto the discardable list in order |
| ExtendedVersion.ExtendedVersionState.LoadItemFrom | src/saveload/extended_ver_sl.cpp:261-333 | one item: the new globals and rest, or the error, are those of LoadItem |
| ExtendedVersion.ExtendedVersionState.LoadNextItem | src/saveload/extended_ver_sl.cpp:260-334 | one more turn of the item loop, as LoadItems counts it |
| ExtendedVersion.ExtendedVersionState.LoadItemsFrom | src/saveload/extended_ver_sl.cpp:259-334 | the item loop: the new globals and rest, or the error, are those of LoadItems |
| ExtendedVersion.ExtendedVersionState.Load | src/saveload/extended_ver_sl.cpp:237-335 | Load_SLXI: the new globals and rest, or the error, are those of LoadSlxi from the previous globals; success leaves an extended, non-faked state |
| SaveLoad.ReadU32Of | src/saveload/extended_ver_sl.cpp:246 | a written uint32 reads back, leaving the rest |
| SaveLoad.ReadU16Of | src/saveload/extended_ver_sl.cpp:262 | a written uint16 reads back, leaving the rest |
| SaveLoad.ReadStrOf | src/saveload/extended_ver_sl.cpp:263 | a written string reads back, leaving the rest |
| SaveLoad.SkipBytesOf | src/saveload/extended_ver_sl.cpp:282 | skipping n bytes passes over n written bytes |
| SaveLoad.BytesAsWords | src/saveload/extended_ver_sl.cpp:327 | bytes written four at a time read back as big-endian uint32 words |
| RoadMap.GetAnyRoadBits | src/road_map.cpp:36 | a tile without the road type gives ROAD_NONE, whatever its kind |
| RoadMap.DiagDirToRoadBits | src/road_map.cpp:46 | a direction's road bits are a single piece |
| RoadMap.ReverseDiagDir | src/road_map.cpp:58 | the reversed direction differs from the direction and lies on the same axis |
| RoadMap.AxisIsBothEnds | src/road_map.cpp:56-58 | the straight road along a direction's axis is the piece in that direction plus the disjoint piece opposite it |
| RoadMap.PiecesDisjoint | src/road_map.cpp:46 | two directions give disjoint pieces iff they differ |
| RoadMap.EntranceIsSinglePiece | src/road_map.cpp:46-58 | a road depot, a bay road stop and a road tunnel or bridge without the straight option give one piece; for the tunnel or bridge, not the piece toward the structure |
| RoadMap.DriveThroughIsStraight | src/road_map.cpp:51 | a drive-through stop facing NE or SE gives the straight road along its axis |
| RoadMap.StraightEntranceOnlyTunnelBridge | src/road_map.cpp:54-58 | the straight-entrance option changes the result iff the tile is a road tunnel or bridge carrying the road type |
| RoadMap.StraightEntranceWidens | src/road_map.cpp:54-58 | the straight option only adds the piece toward the structure to the result |

## Left out

- The byte encoding behind `SlReadUint32`, `SlWriteByte`, `SLE_STR`, `SlCalcObjLength` and `SlSkipBytes` lives in `src/saveload/saveload.cpp`, which is not part of this model. Integers are written big-endian, byte by byte. A string is one token, and its size is a gamma-coded length plus its characters.
- The stream errors "bytes expected" and "string expected" come from the typed token stream. The real byte stream cannot raise them.
- The constants of `extended_ver_sl.h` (flag bit values, `XSLFI_SIZE`) are not part of this model. The flags take their usual bits 0 to 3. The version array's length is a parameter.
- The feature table is a parameter. The table in the source holds only its end marker.
- `save_proc` is modelled by its dry-run length and the bytes it writes. Its assertion at line 225 is a precondition on the table.
- `load_proc` is modelled by how many bytes it reads for a given size. What it stores is not modelled.
- The 256-byte `name_buffer` on load is left out: a longer name's truncation is not modelled.
- Feature names and chunk-ID lists are Dafny strings, whose characters are not limited to the C strings' 1 to 255: a `'\0'` inside a name, which would end the C string, is not modelled.
- ReadExtraData: a `load_proc` that reads another number of bytes than declared is rejected as a length mismatch before the model reads anything. In the source, a `load_proc` that reads past the end of the chunk fails inside the stream reader instead, with that reader's error.
- `SlErrorCorrupt*` becomes an error result. The globals after an error are not specified: a partly read chunk-ID list of an ignored item is not modelled, since the model reads the list before pushing it.
- `SlXvCheckSpecialSavegameVersions` is an empty placeholder, and `DEBUG` logging has no effect on state. Both are left out.
- MeasureItems: `item_count` and `length` are `uint32` in the source. The model counts with unbounded integers and does not model wrap-around past 2^32. It also takes the stored extra-data length and chunk count as unbounded.
- SlXvFeatureTest.IsFeaturePresent: the `NOT_REACHED` default for an unknown operator is unreachable, because the operator datatype has only its two values.
- GetAnyRoadBits: the `NOT_REACHED` for other misc subtypes becomes a precondition. The tile accessors (`GetRoadBits`, `GetCrossingRoadBits`, `IsRoadDepot`, the direction getters and others) are fields of the tile. The direction helpers (`DiagDirToRoadBits`, `AxisToRoadBits`, `DiagDirToAxis`, `ReverseDiagDir`) take their usual definitions, since their headers are not part of this model.
