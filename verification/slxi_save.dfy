/**
 * What Save_SLXI (src/saveload/extended_ver_sl.cpp) writes: the SLXI chunk
 * layout
 *
 *   uint32 chunk version, uint32 chunk flags, uint32 item count,
 *   then per saved feature:
 *     uint32 feature flags, uint16 feature version, SLE_STR feature name,
 *     [uint32 extra data length, that many bytes]   if XSCF_EXTRA_DATA_PRESENT
 *     [uint32 chunk ID count, that many uint32 IDs] if XSCF_CHUNK_ID_LIST_PRESENT
 *
 * and the chunk length it declares beforehand.
 */
module SlxiSave {
  import opened SaveLoad
  import opened ChunkIdList
  import opened SlxiTable

  /** SlCalcObjLength of a feature under its save description: the uint16 save version and the name. */
  function ObjLength(info: SubChunkInfo): nat
  {
    2 + StrSize(info.name)
  }

  /** The bytes of one saved feature. */
  function EncodeItem(info: SubChunkInfo): seq<Token>
    requires SaveAssertionsHold(info)
  {
    var extra := ExtraDataLength(info);
    var count := ChunkCount(info);
    U32Tokens(SavedFlags(info)) + U16Tokens(info.saveVersion) + [Str(info.name)]
    + (if extra > 0 then U32Tokens(extra) + Bytes(info.saveProc.value.output) else [])
    + (if count > 0 then U32Tokens(count) + Bytes(ChunkIdBytes(info.chunkList.value)) else [])
  }

  predicate SaveAssertionsHoldAll(table: seq<SubChunkInfo>)
  {
    forall j :: 0 <= j < |table| && Saved(table[j]) ==> SaveAssertionsHold(table[j])
  }

  /** The items of the features of `table` that are saved, in table order. */
  function EncodeEntries(table: seq<SubChunkInfo>): seq<Token>
    requires SaveAssertionsHoldAll(table)
  {
    if table == [] then []
    else
      var last := table[|table| - 1];
      EncodeEntries(table[..|table| - 1]) + (if Saved(last) then EncodeItem(last) else [])
  }

  /** The item Save_SLXI writes for a table entry: nothing for a feature that is not saved. */
  function EntryTokens(info: SubChunkInfo): seq<Token>
    requires Saved(info) ==> SaveAssertionsHold(info)
  {
    if Saved(info) then EncodeItem(info) else []
  }

  /** Save_SLXI's second pass, one entry further: the items so far, then this entry's item. */
  lemma EntriesPrefixStep(table: seq<SubChunkInfo>, i: nat)
    requires SaveAssertionsHoldAll(table) && i < |table|
    ensures SaveAssertionsHoldAll(table[..i]) && SaveAssertionsHoldAll(table[..i + 1])
    ensures EncodeEntries(table[..i + 1]) == EncodeEntries(table[..i]) + EntryTokens(table[i])
  {
    assert forall j :: 0 <= j < i + 1 ==> table[..i + 1][j] == table[j];
    assert table[..i + 1][..i] == table[..i];
  }

  /** Number of features of `table` that are saved. */
  function SavedCount(table: seq<SubChunkInfo>): (n: nat)
    ensures n <= |table|
  {
    if table == [] then 0
    else SavedCount(table[..|table| - 1]) + (if Saved(table[|table| - 1]) then 1 else 0)
  }

  /** The header: chunk version, flags 0, item count. */
  function EncodeHeader(itemCount: nat): seq<Token>
  {
    U32Tokens(SLXI_CHUNK_VERSION) + U32Tokens(0) + U32Tokens(itemCount)
  }

  /** The whole SLXI chunk payload Save_SLXI writes for `table`. */
  function EncodeSlxi(table: seq<SubChunkInfo>): seq<Token>
    requires SaveAssertionsHoldAll(table)
  {
    EncodeHeader(SavedCount(table)) + EncodeEntries(table)
  }

  /** The length Save_SLXI's first pass accumulates for one saved feature. */
  function ItemLength(info: SubChunkInfo): nat
  {
    var extra := ExtraDataLength(info);
    var count := ChunkCount(info);
    4 + ObjLength(info) + (if extra > 0 then 4 + extra else 0) + (if count > 0 then 4 * (1 + count) else 0)
  }

  /** The length of the saved items of `table`, summed in table order. */
  function ItemsLength(table: seq<SubChunkInfo>): nat
  {
    if table == [] then 0
    else
      var last := table[|table| - 1];
      ItemsLength(table[..|table| - 1]) + (if Saved(last) then ItemLength(last) else 0)
  }

  /** The chunk length Save_SLXI declares with SlSetLength: the 12-byte header plus every saved item. */
  function DeclaredLength(table: seq<SubChunkInfo>): nat
  {
    12 + ItemsLength(table)
  }

  /** Save_SLXI's first pass, one entry further: the count and the length grow by that entry's, if it is saved. */
  lemma PrefixTotalsStep(table: seq<SubChunkInfo>, i: nat)
    requires i < |table|
    ensures SavedCount(table[..i + 1]) == SavedCount(table[..i]) + (if Saved(table[i]) then 1 else 0)
    ensures ItemsLength(table[..i + 1]) == ItemsLength(table[..i]) + (if Saved(table[i]) then ItemLength(table[i]) else 0)
  {
    assert table[..i + 1][..i] == table[..i];
  }

  /** An item header occupies its flags, its version and its name: SlCalcObjLength plus the 4 flag bytes. */
  lemma HeadSize(flags: nat, version: nat, name: string)
    ensures StreamSize(U32Tokens(flags) + U16Tokens(version) + [Str(name)]) == 6 + StrSize(name)
  {
    FixedWidthSizes(flags);
    FixedWidthSizes(version);
    StreamSizeAppend(U32Tokens(flags), U16Tokens(version));
    StreamSizeAppend(U32Tokens(flags) + U16Tokens(version), [Str(name)]);
    assert StreamSize([Str(name)]) == StrSize(name) by {
      assert [Str(name)][..0] == [];
    }
  }

  /** A length-prefixed field occupies its 4-byte length and its bytes. */
  lemma FieldSize(n: nat, b: seq<u8>)
    ensures StreamSize(U32Tokens(n) + Bytes(b)) == 4 + |b|
  {
    FixedWidthSizes(n);
    StreamSizeOfBytes(b);
    StreamSizeAppend(U32Tokens(n), Bytes(b));
  }

  /** One saved item occupies exactly the bytes the first pass counted for it. */
  lemma ItemSize(info: SubChunkInfo)
    requires SaveAssertionsHold(info)
    ensures StreamSize(EncodeItem(info)) == ItemLength(info)
  {
    var extra := ExtraDataLength(info);
    var count := ChunkCount(info);
    var head := U32Tokens(SavedFlags(info)) + U16Tokens(info.saveVersion) + [Str(info.name)];
    var ex := if extra > 0 then U32Tokens(extra) + Bytes(info.saveProc.value.output) else [];
    var ids := if count > 0 then U32Tokens(count) + Bytes(ChunkIdBytes(info.chunkList.value)) else [];
    assert EncodeItem(info) == head + ex + ids;
    HeadSize(SavedFlags(info), info.saveVersion, info.name);
    if extra > 0 {
      FieldSize(extra, info.saveProc.value.output);
    }
    if count > 0 {
      FieldSize(count, ChunkIdBytes(info.chunkList.value));
    }
    StreamSizeAppend(head, ex);
    StreamSizeAppend(head + ex, ids);
  }

  /** The saved items of `table` occupy exactly the bytes the first pass summed. */
  lemma {:induction false} EntriesSize(table: seq<SubChunkInfo>)
    requires SaveAssertionsHoldAll(table)
    ensures StreamSize(EncodeEntries(table)) == ItemsLength(table)
    decreases |table|
  {
    if table != [] {
      var p := table[..|table| - 1];
      var last := table[|table| - 1];
      assert SaveAssertionsHoldAll(p) by {
        forall j | 0 <= j < |p| && Saved(p[j]) ensures SaveAssertionsHold(p[j]) {
          assert p[j] == table[j];
        }
      }
      EntriesSize(p);
      var tail := if Saved(last) then EncodeItem(last) else [];
      StreamSizeAppend(EncodeEntries(p), tail);
      if Saved(last) {
        ItemSize(last);
      }
    }
  }

  /** The length Save_SLXI declares is the size of what it then writes. */
  lemma DeclaredLengthIsWrittenSize(table: seq<SubChunkInfo>)
    requires SaveAssertionsHoldAll(table)
    ensures StreamSize(EncodeSlxi(table)) == DeclaredLength(table)
  {
    FixedWidthSizes(SLXI_CHUNK_VERSION);
    FixedWidthSizes(0);
    FixedWidthSizes(SavedCount(table));
    StreamSizeAppend(U32Tokens(SLXI_CHUNK_VERSION), U32Tokens(0));
    StreamSizeAppend(U32Tokens(SLXI_CHUNK_VERSION) + U32Tokens(0), U32Tokens(SavedCount(table)));
    StreamSizeAppend(EncodeHeader(SavedCount(table)), EncodeEntries(table));
    EntriesSize(table);
  }

  /** Prefix property of the item sequence: the items of a table prefix come first. */
  lemma {:induction false} EncodeEntriesAppend(a: seq<SubChunkInfo>, b: seq<SubChunkInfo>)
    requires SaveAssertionsHoldAll(a + b)
    ensures SaveAssertionsHoldAll(a) && SaveAssertionsHoldAll(b)
    ensures EncodeEntries(a + b) == EncodeEntries(a) + EncodeEntries(b)
    ensures SavedCount(a + b) == SavedCount(a) + SavedCount(b)
    decreases |b|
  {
    assert SaveAssertionsHoldAll(a) by {
      forall j | 0 <= j < |a| && Saved(a[j]) ensures SaveAssertionsHold(a[j]) {
        assert a[j] == (a + b)[j];
      }
    }
    assert SaveAssertionsHoldAll(b) by {
      forall j | 0 <= j < |b| && Saved(b[j]) ensures SaveAssertionsHold(b[j]) {
        assert b[j] == (a + b)[|a| + j];
      }
    }
    if b == [] {
      assert a + b == a;
    } else {
      var b' := b[..|b| - 1];
      assert (a + b)[..|a + b| - 1] == a + b';
      assert (a + b)[|a + b| - 1] == b[|b| - 1];
      EncodeEntriesAppend(a, b');
    }
  }
}
