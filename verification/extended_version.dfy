/**
 * The save/load globals of src/saveload/extended_ver_sl.cpp and the
 * operations that update them in place:
 *
 *   _sl_xv_feature_versions        the feature version array (XSLFI_SIZE slots)
 *   _sl_is_ext_version             whether the savegame is an extended one
 *   _sl_is_faked_ext               whether it is a faked extended one, without SLXI
 *   _sl_xv_discardable_chunk_ids   chunk IDs that may be discarded on load
 *
 * together with the constant feature table _sl_xv_sub_chunk_infos they are
 * filled from. Each operation is proved against the function that specifies
 * it: SlXvSetCurrentState against CurrentVersions, Save_SLXI against
 * EncodeSlxi and DeclaredLength, Load_SLXI against LoadSlxi.
 */
module ExtendedVersion {
  import opened SaveLoad
  import opened ChunkIdList
  import opened SlxiTable
  import opened SlxiSave
  import opened SlxiLoad

  class ExtendedVersionState {
    /** _sl_xv_sub_chunk_infos, without its end marker. */
    const table: seq<SubChunkInfo>
    /** _sl_xv_feature_versions. */
    const versions: array<u16>
    /** _sl_is_ext_version. */
    var isExtVersion: bool
    /** _sl_is_faked_ext. */
    var isFakedExt: bool
    /** _sl_xv_discardable_chunk_ids. */
    var discardableChunkIds: seq<u32>

    /** The feature table fits the version array and satisfies Save_SLXI's assertions. */
    ghost predicate Valid()
    {
      ValidTable(table, versions.Length)
    }

    /** The globals as the program starts: everything zero, false or empty. */
    constructor (table: seq<SubChunkInfo>, size: nat)
      requires ValidTable(table, size)
      ensures Valid() && this.table == table && versions.Length == size && fresh(versions)
      ensures versions[..] == Zeros(size) && !isExtVersion && !isFakedExt && discardableChunkIds == []
    {
      this.table := table;
      versions := new u16[size](_ => 0);
      isExtVersion := false;
      isFakedExt := false;
      discardableChunkIds := [];
    }

    /** SlXvResetState: every feature version back to 0, and neither extended nor faked; the discardable list is kept. */
    method ResetState()
      modifies this, versions
      ensures versions[..] == Zeros(versions.Length)
      ensures !isExtVersion && !isFakedExt && discardableChunkIds == old(discardableChunkIds)
    {
      isExtVersion := false;
      isFakedExt := false;
      for k := 0 to versions.Length
        modifies versions
        invariant forall j :: 0 <= j < k ==> versions[j] == 0
      {
        versions[k] := 0;
      }
    }

    /** SlXvSetCurrentState: the versions this build saves, in an extended, non-faked savegame. */
    method SetCurrentState()
      requires IndicesInRange(table, versions.Length)
      modifies this, versions
      ensures versions[..] == CurrentVersions(table, versions.Length)
      ensures isExtVersion && !isFakedExt && discardableChunkIds == old(discardableChunkIds)
    {
      ResetState();
      isExtVersion := true;
      for i := 0 to |table|
        modifies versions
        invariant IndicesInRange(table[..i], versions.Length)
        invariant versions[..] == CurrentVersions(table[..i], versions.Length)
      {
        var info := table[i];
        assert table[..i + 1][..i] == table[..i];
        versions[info.index] := info.saveVersion;
      }
      assert table[..|table|] == table;
    }

    /** SlXvIsChunkDiscardable: whether the chunk ID is on the discardable list. */
    method IsChunkDiscardable(id: u32) returns (discardable: bool)
      ensures discardable <==> id in discardableChunkIds
    {
      for i := 0 to |discardableChunkIds|
        invariant forall j :: 0 <= j < i ==> discardableChunkIds[j] != id
      {
        if discardableChunkIds[i] == id {
          return true;
        }
      }
      return false;
    }

    /** Save_SLXI's first pass over one saved feature: the extra-data length and chunk count it records and the length it adds. */
    method MeasureItem(info: SubChunkInfo) returns (extra: nat, count: nat, length: nat)
      requires Saved(info) && SaveAssertionsHold(info)
      ensures extra == ExtraDataLength(info) && count == ChunkCount(info) && length == ItemLength(info)
    {
      extra, count := 0, 0;
      length := 4 + ObjLength(info);
      if info.saveProc.Some? {
        var dryRun := info.saveProc.value.dryRunLength;
        if dryRun > 0 {
          extra := dryRun;
          length := length + 4 + dryRun;
        }
      }
      if info.chunkList.Some? {
        var ids, _ := WriteChunkIdList(info.chunkList.value, true);
        if ids > 0 {
          count := ids;
          length := length + 4 * (1 + ids);
        }
      }
    }

    /** The flags Save_SLXI writes for a saved feature: its own, plus a bit for each field it writes. */
    method ItemFlags(info: SubChunkInfo, extra: nat, count: nat) returns (flags: u32)
      requires Saved(info) && SaveAssertionsHold(info)
      requires extra == ExtraDataLength(info) && count == ChunkCount(info)
      ensures flags == SavedFlags(info)
    {
      SavedFlagsBits(info);
      var f: nat := info.flags;
      if extra > 0 {
        f := SetFlag(f, XSCF_EXTRA_DATA_PRESENT);
      }
      if count > 0 {
        f := SetFlag(f, XSCF_CHUNK_ID_LIST_PRESENT);
      }
      flags := f;
    }

    /** Save_SLXI's second pass over one saved feature, given the extra-data length and chunk count of the first: its item. */
    method WriteItem(info: SubChunkInfo, extra: nat, count: nat) returns (item: seq<Token>)
      requires Saved(info) && SaveAssertionsHold(info)
      requires extra == ExtraDataLength(info) && count == ChunkCount(info)
      ensures item == EncodeItem(info)
    {
      var flags := ItemFlags(info, extra, count);
      ghost var extraField := if extra > 0 then U32Tokens(extra) + Bytes(info.saveProc.value.output) else [];
      ghost var idField := if count > 0 then U32Tokens(count) + Bytes(ChunkIdBytes(info.chunkList.value)) else [];
      item := U32Tokens(flags) + U16Tokens(info.saveVersion) + [Str(info.name)];
      ghost var head := item;
      if extra > 0 {
        item := item + (U32Tokens(extra) + Bytes(info.saveProc.value.output));
      } else {
        assert item == head + extraField;
      }
      if count > 0 {
        var _, bytes := WriteChunkIdList(info.chunkList.value, false);
        item := item + (U32Tokens(count) + Bytes(bytes));
      } else {
        assert item == head + extraField + idField;
      }
      assert EncodeItem(info) == head + extraField + idField;
    }

    /**
     * Save_SLXI: sets the current state, then returns the chunk length it
     * declares and the chunk it writes. The first pass records each saved
     * feature's extra-data length and chunk count by feature index; the
     * second writes the header and the items from them.
     */
    method Save() returns (declaredLength: nat, written: seq<Token>)
      requires Valid()
      modifies this, versions
      ensures versions[..] == CurrentVersions(table, versions.Length)
      ensures isExtVersion && !isFakedExt && discardableChunkIds == old(discardableChunkIds)
      ensures SaveAssertionsHoldAll(table)
      ensures declaredLength == DeclaredLength(table) && written == EncodeSlxi(table)
    {
      SetCurrentState();
      var itemCount, extraDataLengths, chunkCounts;
      itemCount, declaredLength, extraDataLengths, chunkCounts := MeasureItems();
      written := WriteItems(itemCount, extraDataLengths, chunkCounts);
    }

    /** The per-feature lengths and chunk-ID counts of the first pass, kept by feature index, hold for the first `n` entries. */
    ghost predicate Measured(n: nat, extraDataLengths: seq<nat>, chunkCounts: seq<nat>)
      requires n <= |table|
    {
      && IndicesInRange(table, |extraDataLengths|) && |chunkCounts| == |extraDataLengths|
      && forall j :: 0 <= j < n && Saved(table[j]) ==>
           extraDataLengths[table[j].index] == ExtraDataLength(table[j]) && chunkCounts[table[j].index] == ChunkCount(table[j])
    }

    /** Measured for the first `n` entries, with the slots of the entries not yet visited still 0. */
    ghost predicate Recorded(n: nat, extraDataLengths: seq<nat>, chunkCounts: seq<nat>)
      requires n <= |table|
    {
      && Measured(n, extraDataLengths, chunkCounts)
      && forall j :: n <= j < |table| ==> extraDataLengths[table[j].index] == 0 && chunkCounts[table[j].index] == 0
    }

    /** Recording entry `i`'s figures in its slot keeps the figures of the other entries, whose indices differ. */
    lemma RecordStep(i: nat, extraDataLengths: seq<nat>, chunkCounts: seq<nat>, extra: nat, count: nat)
      requires Valid() && i < |table| && Recorded(i, extraDataLengths, chunkCounts)
      requires Saved(table[i]) ==> extra == ExtraDataLength(table[i]) && count == ChunkCount(table[i])
      ensures Saved(table[i]) ==>
        Recorded(i + 1, if extra > 0 then extraDataLengths[table[i].index := extra] else extraDataLengths,
                        if count > 0 then chunkCounts[table[i].index := count] else chunkCounts)
      ensures !Saved(table[i]) ==> Recorded(i + 1, extraDataLengths, chunkCounts)
    {
    }

    /**
     * Save_SLXI's first pass: counts the saved features, adds up the chunk
     * length, and records each saved feature's extra-data length and
     * chunk-ID count by its index.
     */
    method MeasureItems() returns (itemCount: nat, declaredLength: nat, extraDataLengths: seq<nat>, chunkCounts: seq<nat>)
      requires Valid()
      ensures itemCount == SavedCount(table) && declaredLength == DeclaredLength(table)
      ensures Measured(|table|, extraDataLengths, chunkCounts)
    {
      var size := versions.Length;
      itemCount := 0;
      declaredLength := 12;
      extraDataLengths := seq(size, _ => 0);
      chunkCounts := seq(size, _ => 0);
      for i := 0 to |table|
        invariant itemCount == SavedCount(table[..i]) && declaredLength == 12 + ItemsLength(table[..i])
        invariant Recorded(i, extraDataLengths, chunkCounts)
      {
        var info := table[i];
        PrefixTotalsStep(table, i);
        if Saved(info) {
          var extra, count, length := MeasureItem(info);
          RecordStep(i, extraDataLengths, chunkCounts, extra, count);
          itemCount := itemCount + 1;
          declaredLength := declaredLength + length;
          if extra > 0 {
            extraDataLengths := extraDataLengths[info.index := extra];
          }
          if count > 0 {
            chunkCounts := chunkCounts[info.index := count];
          }
        } else {
          RecordStep(i, extraDataLengths, chunkCounts, 0, 0);
        }
      }
      assert table[..|table|] == table;
    }

    /** Save_SLXI's second pass: the header, then one item per saved feature, using the first pass's figures. */
    method WriteItems(itemCount: nat, extraDataLengths: seq<nat>, chunkCounts: seq<nat>) returns (written: seq<Token>)
      requires Valid() && itemCount == SavedCount(table) && Measured(|table|, extraDataLengths, chunkCounts)
      ensures SaveAssertionsHoldAll(table)
      ensures written == EncodeHeader(itemCount) + EncodeEntries(table)
    {
      assert table[..|table|] == table;
      written := U32Tokens(SLXI_CHUNK_VERSION) + U32Tokens(0) + U32Tokens(itemCount);
      for i := 0 to |table|
        invariant SaveAssertionsHoldAll(table[..i])
        invariant written == EncodeHeader(itemCount) + EncodeEntries(table[..i])
      {
        var info := table[i];
        EntriesPrefixStep(table, i);
        if Saved(info) {
          var item := WriteItem(info, extraDataLengths[info.index], chunkCounts[info.index]);
          AppendAssoc(EncodeHeader(itemCount), EncodeEntries(table[..i]), item);
          written := written + item;
        } else {
          assert EncodeEntries(table[..i + 1]) == EncodeEntries(table[..i]) + [];
        }
      }
    }

    /** The linear scan of Load_SLXI for the first table entry carrying `name`. */
    method ScanFeatures(name: string) returns (found: bool, i: nat)
      ensures FindFeature(table, name) == if found then Some(i) else None
    {
      i := 0;
      while i < |table|
        invariant i <= |table|
        invariant forall j :: 0 <= j < i ==> table[j].name != name
      {
        if table[i].name == name {
          var first := FindFeature(table, name);
          assert first.Some? && !(first.value < i) && !(i < first.value);
          return true, i;
        }
        i := i + 1;
      }
      return false, i;
    }

    /** Appends chunk IDs to the discardable list, one at a time. */
    method AppendDiscardable(ids: seq<u32>)
      modifies this
      ensures discardableChunkIds == old(discardableChunkIds) + ids
      ensures isExtVersion == old(isExtVersion) && isFakedExt == old(isFakedExt)
    {
      for j := 0 to |ids|
        invariant discardableChunkIds == old(discardableChunkIds) + ids[..j]
        invariant isExtVersion == old(isExtVersion) && isFakedExt == old(isFakedExt)
      {
        discardableChunkIds := discardableChunkIds + [ids[j]];
      }
      assert ids[..|ids|] == ids;
    }

    /**
     * One iteration of Load_SLXI's item loop, reading from `s`: the rest of
     * the chunk after the item, or the error it raises.
     */
    method LoadItemFrom(s: seq<Token>) returns (r: Result<seq<Token>>)
      requires IndicesInRange(table, versions.Length)
      modifies this, versions
      ensures isExtVersion == old(isExtVersion) && isFakedExt == old(isFakedExt)
      ensures LoadItem(table, LoadState(s, old(versions[..]), old(discardableChunkIds))) ==
        if r.Ok? then Ok(LoadState(r.value, versions[..], discardableChunkIds)) else Fail(r.error)
    {
      ghost var st := LoadState(s, versions[..], discardableChunkIds);
      var h :- ReadItemHeader(s);
      var found, i := ScanFeatures(h.name);
      ghost var decision := Classify(table, h.flags, h.version, h.name);
      var discard := false;
      var afterExtra: seq<Token>;
      if found {
        if h.version > table[i].maxVersion {
          if HasFlag(h.flags, XSCF_IGNORABLE_VERSION) {
            assert decision == Ignore;
            discard := true;
            afterExtra :- ReadExtraData(table, None, h.flags, h.version, h.name, h.rest);
          } else {
            return Fail(SlxiFeatureVersionTooLarge(h.name, h.version, table[i].maxVersion));
          }
        } else {
          assert decision == Accept(i);
          versions[table[i].index] := h.version;
          assert versions[..] == st.versions[table[i].index := h.version];
          afterExtra :- ReadExtraData(table, Some(i), h.flags, h.version, h.name, h.rest);
        }
      } else {
        if HasFlag(h.flags, XSCF_IGNORABLE_UNKNOWN) {
          assert decision == Ignore;
          discard := true;
          afterExtra :- ReadExtraData(table, None, h.flags, h.version, h.name, h.rest);
        } else {
          return Fail(SlxiUnknownFeature(h.name, h.version));
        }
      }
      var ids :- ReadIdField(afterExtra, h.flags);
      if discard {
        AppendDiscardable(ids.0);
      }
      return Ok(ids.1);
    }

    /**
     * Load_SLXI on chunk payload `s`: the unread rest of the chunk, or the
     * SlErrorCorrupt it raises. On success the globals hold what LoadSlxi
     * computes from their previous values.
     */
    method Load(s: seq<Token>) returns (r: Result<seq<Token>>)
      requires IndicesInRange(table, versions.Length)
      modifies this, versions
      ensures LoadSlxi(table, s, versions.Length, old(isFakedExt), old(isExtVersion), old(discardableChunkIds)) ==
        if r.Ok? then Ok(LoadState(r.value, versions[..], discardableChunkIds)) else Fail(r.error)
      ensures r.Ok? ==> isExtVersion && !isFakedExt
    {
      if isFakedExt || !isExtVersion {
        return Fail(SlxiUnexpectedlyPresent);
      }
      ResetState();
      isExtVersion := true;
      var version :- ReadU32(s);
      if version.0 > SLXI_CHUNK_VERSION {
        return Fail(SlxiVersionTooNew(version.0));
      }
      var flags :- ReadU32(version.1);
      if flags.0 != 0 {
        return Fail(SlxiUnknownHeaderFlags(flags.0));
      }
      var count :- ReadU32(flags.1);
      r := LoadItemsFrom(count.1, count.0);
    }

    /** Load_SLXI's item loop: `count` items read one after the other from `s`, stopping at the first error. */
    method LoadItemsFrom(s: seq<Token>, count: nat) returns (r: Result<seq<Token>>)
      requires IndicesInRange(table, versions.Length)
      modifies this, versions
      ensures isExtVersion == old(isExtVersion) && isFakedExt == old(isFakedExt)
      ensures ItemsLoaded(table, LoadState(s, old(versions[..]), old(discardableChunkIds)), count) ==
        if r.Ok? then Ok(LoadState(r.value, versions[..], discardableChunkIds)) else Fail(r.error)
    {
      ghost var start := LoadState(s, versions[..], discardableChunkIds);
      ghost var loaded := ItemsLoaded(table, start, 0);
      var rest := s;
      var i := 0;
      while i < count
        invariant i <= count
        invariant isExtVersion == old(isExtVersion) && isFakedExt == old(isFakedExt)
        invariant loaded == ItemsLoaded(table, start, i) == Ok(LoadState(rest, versions[..], discardableChunkIds))
      {
        var next := LoadNextItem(start, i, rest);
        loaded := ItemsLoaded(table, start, i + 1);
        if next.Fail? {
          LoadItemsStop(table, start, i + 1, count);
          return next;
        }
        rest := next.value;
        i := i + 1;
      }
      return Ok(rest);
    }

    /** One more turn of the item loop, after `i` items loaded from `start` left `rest` unread. */
    method LoadNextItem(ghost start: LoadState, ghost i: nat, rest: seq<Token>) returns (next: Result<seq<Token>>)
      requires IndicesInRange(table, versions.Length) && |start.versions| == versions.Length
      requires ItemsLoaded(table, start, i) == Ok(LoadState(rest, versions[..], discardableChunkIds))
      modifies this, versions
      ensures isExtVersion == old(isExtVersion) && isFakedExt == old(isFakedExt)
      ensures ItemsLoaded(table, start, i + 1) ==
        if next.Ok? then Ok(LoadState(next.value, versions[..], discardableChunkIds)) else Fail(next.error)
    {
      LoadItemsNext(table, start, i, LoadState(rest, versions[..], discardableChunkIds));
      next := LoadItemFrom(rest);
    }
  }
}
