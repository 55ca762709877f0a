/**
 * What Load_SLXI (src/saveload/extended_ver_sl.cpp) does with an SLXI
 * chunk: check the header, then read each feature item and accept it
 * (record its version), ignore it (skip its extra data, mark its chunk IDs
 * discardable) or reject the savegame as corrupt.
 *
 * The reader's effect on the globals is returned as a LoadState; an
 * SlErrorCorrupt call is a Fail result.
 */
module SlxiLoad {
  import opened SaveLoad
  import opened SlxiTable

  /** The unread rest of the chunk, the feature versions and the discardable chunk IDs. */
  datatype LoadState = LoadState(rest: seq<Token>, versions: seq<u16>, discardable: seq<u32>)

  /** The linear scan of the table for a feature name: the first entry carrying it. */
  function FindFeature(table: seq<SubChunkInfo>, name: string): (r: Option<nat>)
    ensures r.Some? ==> r.value < |table| && table[r.value].name == name
    ensures r.Some? ==> forall j :: 0 <= j < r.value ==> table[j].name != name
    ensures r.None? <==> forall j :: 0 <= j < |table| ==> table[j].name != name
  {
    if table == [] then None
    else if table[0].name == name then Some(0)
    else
      match FindFeature(table[1..], name)
      case None => None
      case Some(i) => Some(i + 1)
  }

  /** What the reader decides for an item: accept it as table entry `entry`, ignore it, or reject the savegame. */
  datatype Decision = Accept(entry: nat) | Ignore | Reject(error: SlError)

  /** The accept / ignore / reject policy for an item with the given flags, version and name. */
  function Classify(table: seq<SubChunkInfo>, flags: u32, version: u16, name: string): (d: Decision)
    ensures d.Accept? ==> d.entry < |table| && table[d.entry].name == name && version <= table[d.entry].maxVersion
  {
    match FindFeature(table, name)
    case Some(i) =>
      if version > table[i].maxVersion then
        if HasFlag(flags, XSCF_IGNORABLE_VERSION) then Ignore
        else Reject(SlxiFeatureVersionTooLarge(name, version, table[i].maxVersion))
      else Accept(i)
    case None =>
      if HasFlag(flags, XSCF_IGNORABLE_UNKNOWN) then Ignore
      else Reject(SlxiUnknownFeature(name, version))
  }

  /**
   * The extra-data field of an item, if its flags say it is present: skipped
   * when the item is ignored (`entry` is None), handed to the load_proc of
   * the accepted entry otherwise. Returns the rest of the chunk after it.
   */
  function ReadExtraData(table: seq<SubChunkInfo>, entry: Option<nat>, flags: u32, version: u16, name: string,
                         s: seq<Token>): (r: Result<seq<Token>>)
    requires entry.Some? ==> entry.value < |table|
    ensures !HasFlag(flags, XSCF_EXTRA_DATA_PRESENT) ==> r == Ok(s)
    ensures r.Ok? ==> |r.value| <= |s|
  {
    if !HasFlag(flags, XSCF_EXTRA_DATA_PRESENT) then Ok(s)
    else
      var size :- ReadU32(s);
      match entry
      case None => SkipBytes(size.1, size.0)
      case Some(i) =>
        if size.0 == 0 then Ok(size.1)
        else if table[i].loadProc.None? then Fail(SlxiUnexpectedExtraData(name, version))
        else
          var consumed := table[i].loadProc.value.consumed(size.0);
          if consumed != size.0 then Fail(SlxiExtraDataLengthMismatch(name, version))
          else SkipBytes(size.1, consumed)
  }

  /** Reads `count` uint32 chunk IDs. */
  function ReadChunkIds(s: seq<Token>, count: nat): (r: Result<(seq<u32>, seq<Token>)>)
    ensures r.Ok? ==> |r.value.0| == count && |r.value.1| + 4 * count == |s|
    decreases count
  {
    if count == 0 then Ok(([], s))
    else
      var id :- ReadU32(s);
      var ids :- ReadChunkIds(id.1, count - 1);
      Ok(([id.0] + ids.0, ids.1))
  }

  /** The fixed part of an item: feature flags, feature version and feature name, and the rest of the chunk after them. */
  datatype ItemHeader = ItemHeader(flags: u32, version: u16, name: string, rest: seq<Token>)

  function ReadItemHeader(s: seq<Token>): (r: Result<ItemHeader>)
    ensures r.Ok? ==> |r.value.rest| + 7 == |s|
  {
    var flags :- ReadU32(s);
    var version :- ReadU16(flags.1);
    var name :- ReadStr(version.1);
    Ok(ItemHeader(flags.0, version.0, name.0, name.1))
  }

  /** The chunk-ID list field, if the flags say it is present: the IDs and the rest of the chunk after them. */
  function ReadIdField(s: seq<Token>, flags: u32): (r: Result<(seq<u32>, seq<Token>)>)
    ensures !HasFlag(flags, XSCF_CHUNK_ID_LIST_PRESENT) ==> r == Ok(([], s))
    ensures r.Ok? && HasFlag(flags, XSCF_CHUNK_ID_LIST_PRESENT) ==> |r.value.1| + 4 + 4 * |r.value.0| == |s|
  {
    if !HasFlag(flags, XSCF_CHUNK_ID_LIST_PRESENT) then Ok(([], s))
    else
      var count :- ReadU32(s);
      ReadChunkIds(count.1, count.0)
  }

  /**
   * One item of the chunk, read from `st.rest`: its header, then the policy
   * decision, the extra-data field and the chunk-ID list field, whose IDs
   * join the discardable list when the item is ignored.
   */
  function LoadItem(table: seq<SubChunkInfo>, st: LoadState): (r: Result<LoadState>)
    requires IndicesInRange(table, |st.versions|)
    ensures r.Ok? ==> |r.value.versions| == |st.versions| && |r.value.rest| < |st.rest|
    ensures r.Ok? ==> st.discardable <= r.value.discardable
  {
    var h :- ReadItemHeader(st.rest);
    var d := Classify(table, h.flags, h.version, h.name);
    if d.Reject? then Fail(d.error)
    else
      var versions := if d.Accept? then st.versions[table[d.entry].index := h.version] else st.versions;
      var afterExtra :- ReadExtraData(table, if d.Accept? then Some(d.entry) else None,
                                      h.flags, h.version, h.name, h.rest);
      var ids :- ReadIdField(afterExtra, h.flags);
      Ok(LoadState(ids.1, versions, if d.Ignore? then st.discardable + ids.0 else st.discardable))
  }

  /** The item loop: `count` items read one after the other, stopping at the first error. */
  function LoadItems(table: seq<SubChunkInfo>, st: LoadState, count: nat): (r: Result<LoadState>)
    requires IndicesInRange(table, |st.versions|)
    ensures r.Ok? ==> |r.value.versions| == |st.versions| && |r.value.rest| + count <= |st.rest|
    ensures r.Ok? ==> st.discardable <= r.value.discardable
  {
    if count == 0 then Ok(st)
    else
      var before :- LoadItems(table, st, count - 1);
      LoadItem(table, before)
  }

  /** The item loop, seen from outside: proofs chain its steps without unfolding the loop. */
  function ItemsLoaded(table: seq<SubChunkInfo>, st: LoadState, count: nat): Result<LoadState>
    requires IndicesInRange(table, |st.versions|)
  {
    LoadItems(table, st, count)
  }

  /** The item loop reads one more item from where the previous ones stopped. */
  lemma LoadItemsNext(table: seq<SubChunkInfo>, st: LoadState, m: nat, mid: LoadState)
    requires IndicesInRange(table, |st.versions|) && ItemsLoaded(table, st, m) == Ok(mid)
    ensures ItemsLoaded(table, st, m + 1) == LoadItem(table, mid)
  {
  }

  /** Once an item fails to load, the item loop ends with that error, however many items the header announced. */
  lemma {:induction false} LoadItemsStop(table: seq<SubChunkInfo>, st: LoadState, i: nat, n: nat)
    requires IndicesInRange(table, |st.versions|) && i <= n && ItemsLoaded(table, st, i).Fail?
    ensures ItemsLoaded(table, st, n) == ItemsLoaded(table, st, i)
    decreases n
  {
    if n > i {
      LoadItemsStop(table, st, i, n - 1);
    }
  }


  /**
   * Load_SLXI on chunk payload `s`, with `size` feature slots and the global
   * flags and discardable list as they were: the chunk must be expected,
   * the header version must not be newer than this code's and the header
   * flags must be 0, and every item must load.
   */
  function LoadSlxi(table: seq<SubChunkInfo>, s: seq<Token>, size: nat, fakedExt: bool, extVersion: bool,
                    discardable: seq<u32>): (r: Result<LoadState>)
    requires IndicesInRange(table, size)
    ensures r.Ok? ==> |r.value.versions| == size && discardable <= r.value.discardable
  {
    if fakedExt || !extVersion then Fail(SlxiUnexpectedlyPresent)
    else
      var version :- ReadU32(s);
      if version.0 > SLXI_CHUNK_VERSION then Fail(SlxiVersionTooNew(version.0))
      else
        var flags :- ReadU32(version.1);
        if flags.0 != 0 then Fail(SlxiUnknownHeaderFlags(flags.0))
        else
          var count :- ReadU32(flags.1);
          LoadItems(table, LoadState(count.1, Zeros(size), discardable), count.0)
  }

  /** An SLXI header as laid out: chunk version, chunk flags, item count. */
  function SlxiHeaderTokens(version: u32, flags: u32, count: u32): seq<Token>
  {
    U32Tokens(version) + U32Tokens(flags) + U32Tokens(count)
  }

  /**
   * The header checks of Load_SLXI, in order: a chunk that is not expected
   * (faked or not extended) is rejected before anything is read, then a
   * chunk version above this code's, then nonzero chunk flags; a header
   * that passes them starts the item loop on the announced item count.
   */
  lemma LoadSlxiHeader(table: seq<SubChunkInfo>, size: nat, fakedExt: bool, extVersion: bool, discardable: seq<u32>,
                       version: u32, flags: u32, count: u32, rest: seq<Token>)
    requires IndicesInRange(table, size)
    ensures var r := LoadSlxi(table, SlxiHeaderTokens(version, flags, count) + rest, size, fakedExt, extVersion, discardable);
      && (fakedExt || !extVersion ==> r == Fail(SlxiUnexpectedlyPresent))
      && (!fakedExt && extVersion && version > SLXI_CHUNK_VERSION ==> r == Fail(SlxiVersionTooNew(version)))
      && (!fakedExt && extVersion && version <= SLXI_CHUNK_VERSION && flags != 0 ==>
            r == Fail(SlxiUnknownHeaderFlags(flags)))
      && (!fakedExt && extVersion && version <= SLXI_CHUNK_VERSION && flags == 0 ==>
            r == LoadItems(table, LoadState(rest, Zeros(size), discardable), count))
  {
    AppendAssoc(U32Tokens(version) + U32Tokens(flags), U32Tokens(count), rest);
    AppendAssoc(U32Tokens(version), U32Tokens(flags), U32Tokens(count) + rest);
    ReadU32Of(version, U32Tokens(flags) + (U32Tokens(count) + rest));
    ReadU32Of(flags, U32Tokens(count) + rest);
    ReadU32Of(count, rest);
  }

  /** The policy, entry by entry: the first entry carrying the name decides, by its maximum version and the item's "ignorable" flags. */
  lemma ClassifyPolicy(table: seq<SubChunkInfo>, flags: u32, version: u16, name: string)
    ensures forall i :: 0 <= i < |table| && table[i].name == name && (forall j :: 0 <= j < i ==> table[j].name != name) ==>
      Classify(table, flags, version, name) ==
        if version <= table[i].maxVersion then Accept(i)
        else if HasFlag(flags, XSCF_IGNORABLE_VERSION) then Ignore
        else Reject(SlxiFeatureVersionTooLarge(name, version, table[i].maxVersion))
    ensures (forall j :: 0 <= j < |table| ==> table[j].name != name) ==>
      Classify(table, flags, version, name) ==
        if HasFlag(flags, XSCF_IGNORABLE_UNKNOWN) then Ignore else Reject(SlxiUnknownFeature(name, version))
  {
    forall i | 0 <= i < |table| && table[i].name == name && (forall j :: 0 <= j < i ==> table[j].name != name)
      ensures FindFeature(table, name) == Some(i)
    {
      var r := FindFeature(table, name);
      assert r.Some?;
      assert !(r.value < i) && !(i < r.value);
    }
  }

  /**
   * What one item does to the state: a rejected item fails the load with
   * the policy's error; a loaded item was accepted, and then set its entry's
   * version and left the discardable list alone, or was ignored, and then
   * left every version alone.
   */
  lemma LoadItemEffect(table: seq<SubChunkInfo>, st: LoadState)
    requires IndicesInRange(table, |st.versions|)
    ensures ReadItemHeader(st.rest).Ok? ==>
      var h := ReadItemHeader(st.rest).value;
      var d := Classify(table, h.flags, h.version, h.name);
      d.Reject? ==> LoadItem(table, st) == Fail(d.error)
    ensures LoadItem(table, st).Ok? ==>
      ReadItemHeader(st.rest).Ok? &&
      var h := ReadItemHeader(st.rest).value;
      var d := Classify(table, h.flags, h.version, h.name);
      var r := LoadItem(table, st).value;
      || (d.Accept? && d.entry < |table| && r.versions == st.versions[table[d.entry].index := h.version]
          && r.discardable == st.discardable)
      || (d.Ignore? && r.versions == st.versions)
  {
  }

  /** The fixed part of an item as laid out: flags, version, name. */
  function HeaderTokens(flags: u32, version: u16, name: string): seq<Token>
  {
    U32Tokens(flags) + U16Tokens(version) + [Str(name)]
  }

  /** The extra-data field as laid out: its length, then its bytes; absent unless the flags say so. */
  function ExtraField(flags: u32, extra: seq<u8>): seq<Token>
  {
    if HasFlag(flags, XSCF_EXTRA_DATA_PRESENT) then U32Tokens(|extra|) + Bytes(extra) else []
  }

  /** The chunk-ID list field as laid out: the count, then the IDs; absent unless the flags say so. */
  function IdField(flags: u32, ids: seq<u32>): seq<Token>
  {
    if HasFlag(flags, XSCF_CHUNK_ID_LIST_PRESENT) then U32Tokens(|ids|) + U32Seq(ids) else []
  }

  /** An item laid out as the chunk format documents it. */
  function ItemTokens(flags: u32, version: u16, name: string, extra: seq<u8>, ids: seq<u32>): seq<Token>
  {
    HeaderTokens(flags, version, name) + ExtraField(flags, extra) + IdField(flags, ids)
  }

  /** The chunk IDs an item's chunk-ID list field yields: its IDs when the field is present, none otherwise. */
  function ListedIds(flags: u32, ids: seq<u32>): seq<u32>
  {
    if HasFlag(flags, XSCF_CHUNK_ID_LIST_PRESENT) then ids else []
  }

  /** Chunk IDs written one after the other read back as the same IDs. */
  lemma {:induction false} ReadChunkIdsOf(ids: seq<u32>, rest: seq<Token>)
    ensures ReadChunkIds(U32Seq(ids) + rest, |ids|) == Ok((ids, rest))
    decreases |ids|
  {
    if ids == [] {
      assert U32Seq(ids) + rest == rest;
    } else {
      AppendAssoc(U32Tokens(ids[0]), U32Seq(ids[1..]), rest);
      ReadU32Of(ids[0], U32Seq(ids[1..]) + rest);
      ReadChunkIdsOf(ids[1..], rest);
      assert [ids[0]] + ids[1..] == ids;
    }
  }

  /** A laid-out item header reads back, leaving what follows. */
  lemma HeaderOf(flags: u32, version: u16, name: string, rest: seq<Token>)
    ensures ReadItemHeader(HeaderTokens(flags, version, name) + rest) == Ok(ItemHeader(flags, version, name, rest))
  {
    AppendAssoc(U32Tokens(flags) + U16Tokens(version), [Str(name)], rest);
    AppendAssoc(U32Tokens(flags), U16Tokens(version), [Str(name)] + rest);
    ReadU32Of(flags, U16Tokens(version) + ([Str(name)] + rest));
    ReadU16Of(version, [Str(name)] + rest);
    ReadStrOf(name, rest);
  }

  /** The extra-data field of an ignored item is skipped. */
  lemma ExtraFieldSkipped(table: seq<SubChunkInfo>, flags: u32, version: u16, name: string, extra: seq<u8>,
                          rest: seq<Token>)
    requires |extra| < 0x1_0000_0000
    ensures ReadExtraData(table, None, flags, version, name, ExtraField(flags, extra) + rest) == Ok(rest)
  {
    if HasFlag(flags, XSCF_EXTRA_DATA_PRESENT) {
      AppendAssoc(U32Tokens(|extra|), Bytes(extra), rest);
      ReadU32Of(|extra|, Bytes(extra) + rest);
      SkipBytesOf(extra, rest);
    } else {
      assert ExtraField(flags, extra) + rest == rest;
    }
  }

  /** A present extra-data field of an accepted item is consumed when its load_proc reads exactly its length. */
  lemma ExtraDataLoaded(table: seq<SubChunkInfo>, i: nat, flags: u32, version: u16, name: string, extra: seq<u8>,
                        rest: seq<Token>)
    requires i < |table| && |extra| < 0x1_0000_0000 && HasFlag(flags, XSCF_EXTRA_DATA_PRESENT)
    requires |extra| > 0 ==> table[i].loadProc.Some? && table[i].loadProc.value.consumed(|extra|) == |extra|
    ensures ReadExtraData(table, Some(i), flags, version, name, U32Tokens(|extra|) + (Bytes(extra) + rest)) == Ok(rest)
  {
    ReadU32Of(|extra|, Bytes(extra) + rest);
    if |extra| == 0 {
      assert Bytes(extra) + rest == rest;
    } else {
      SkipBytesOf(extra, rest);
    }
  }

  /** The extra-data field of an accepted item is consumed when its load_proc reads exactly its length. */
  lemma ExtraFieldLoaded(table: seq<SubChunkInfo>, i: nat, flags: u32, version: u16, name: string, extra: seq<u8>,
                         rest: seq<Token>)
    requires i < |table| && |extra| < 0x1_0000_0000
    requires HasFlag(flags, XSCF_EXTRA_DATA_PRESENT) && |extra| > 0 ==>
      table[i].loadProc.Some? && table[i].loadProc.value.consumed(|extra|) == |extra|
    ensures ReadExtraData(table, Some(i), flags, version, name, ExtraField(flags, extra) + rest) == Ok(rest)
  {
    if HasFlag(flags, XSCF_EXTRA_DATA_PRESENT) {
      AppendAssoc(U32Tokens(|extra|), Bytes(extra), rest);
      ExtraDataLoaded(table, i, flags, version, name, extra, rest);
    } else {
      assert ExtraField(flags, extra) + rest == rest;
    }
  }

  /**
   * The extra-data field of an accepted item fails the load when it is
   * non-empty and the entry has no load_proc, or its load_proc consumes
   * fewer or more bytes than the field declares.
   */
  lemma ExtraFieldRejected(table: seq<SubChunkInfo>, i: nat, flags: u32, version: u16, name: string, extra: seq<u8>,
                           rest: seq<Token>)
    requires i < |table| && 0 < |extra| < 0x1_0000_0000 && HasFlag(flags, XSCF_EXTRA_DATA_PRESENT)
    ensures table[i].loadProc.None? ==>
      ReadExtraData(table, Some(i), flags, version, name, ExtraField(flags, extra) + rest)
        == Fail(SlxiUnexpectedExtraData(name, version))
    ensures table[i].loadProc.Some? && table[i].loadProc.value.consumed(|extra|) != |extra| ==>
      ReadExtraData(table, Some(i), flags, version, name, ExtraField(flags, extra) + rest)
        == Fail(SlxiExtraDataLengthMismatch(name, version))
  {
    AppendAssoc(U32Tokens(|extra|), Bytes(extra), rest);
    ReadU32Of(|extra|, Bytes(extra) + rest);
  }

  /** A laid-out chunk-ID list field reads back as its IDs, or as none when the flags say it is absent. */
  lemma IdFieldOf(flags: u32, ids: seq<u32>, rest: seq<Token>)
    requires |ids| < 0x1_0000_0000
    ensures ReadIdField(IdField(flags, ids) + rest, flags) == Ok((ListedIds(flags, ids), rest))
  {
    if HasFlag(flags, XSCF_CHUNK_ID_LIST_PRESENT) {
      AppendAssoc(U32Tokens(|ids|), U32Seq(ids), rest);
      ReadU32Of(|ids|, U32Seq(ids) + rest);
      ReadChunkIdsOf(ids, rest);
    } else {
      assert IdField(flags, ids) + rest == rest;
    }
  }

  /** An item laid out, followed by `rest`, as its three fields each followed by the rest. */
  lemma ItemSplit(flags: u32, version: u16, name: string, extra: seq<u8>, ids: seq<u32>, rest: seq<Token>)
    ensures ItemTokens(flags, version, name, extra, ids) + rest
         == HeaderTokens(flags, version, name) + (ExtraField(flags, extra) + (IdField(flags, ids) + rest))
  {
    var h, e, d := HeaderTokens(flags, version, name), ExtraField(flags, extra), IdField(flags, ids);
    AppendAssoc(h + e, d, rest);
    AppendAssoc(h, e, d + rest);
  }

  /** An ignored item whose fields all read leaves the versions alone and appends its IDs. */
  lemma IgnoredStep(table: seq<SubChunkInfo>, st: LoadState, flags: u32, version: u16, name: string,
                    afterHeader: seq<Token>, afterExtra: seq<Token>, ids: seq<u32>, rest: seq<Token>)
    requires IndicesInRange(table, |st.versions|)
    requires ReadItemHeader(st.rest) == Ok(ItemHeader(flags, version, name, afterHeader))
    requires Classify(table, flags, version, name) == Ignore
    requires ReadExtraData(table, None, flags, version, name, afterHeader) == Ok(afterExtra)
    requires ReadIdField(afterExtra, flags) == Ok((ids, rest))
    ensures LoadItem(table, st) == Ok(LoadState(rest, st.versions, st.discardable + ids))
  {
  }

  /** An accepted item whose fields all read sets its entry's version and leaves the discardable list alone. */
  lemma AcceptedStep(table: seq<SubChunkInfo>, st: LoadState, flags: u32, version: u16, name: string, i: nat,
                     afterHeader: seq<Token>, afterExtra: seq<Token>, ids: seq<u32>, rest: seq<Token>)
    requires IndicesInRange(table, |st.versions|)
    requires ReadItemHeader(st.rest) == Ok(ItemHeader(flags, version, name, afterHeader))
    requires Classify(table, flags, version, name) == Accept(i)
    requires ReadExtraData(table, Some(i), flags, version, name, afterHeader) == Ok(afterExtra)
    requires ReadIdField(afterExtra, flags) == Ok((ids, rest))
    ensures LoadItem(table, st) == Ok(LoadState(rest, st.versions[table[i].index := version], st.discardable))
  {
  }

  /** An item the policy rejects fails the load with the policy's error, whatever follows its header. */
  lemma RejectedItem(table: seq<SubChunkInfo>, st: LoadState, flags: u32, version: u16, name: string,
                     rest: seq<Token>)
    requires IndicesInRange(table, |st.versions|) && st.rest == HeaderTokens(flags, version, name) + rest
    requires Classify(table, flags, version, name).Reject?
    ensures LoadItem(table, st) == Fail(Classify(table, flags, version, name).error)
  {
    HeaderOf(flags, version, name, rest);
  }

  /**
   * An ignored item: its extra data is skipped, no version changes, and the
   * IDs of its chunk-ID list are appended to the discardable list.
   */
  lemma IgnoredItem(table: seq<SubChunkInfo>, st: LoadState, flags: u32, version: u16, name: string,
                    extra: seq<u8>, ids: seq<u32>, rest: seq<Token>)
    requires IndicesInRange(table, |st.versions|) && |extra| < 0x1_0000_0000 && |ids| < 0x1_0000_0000
    requires st.rest == ItemTokens(flags, version, name, extra, ids) + rest
    requires Classify(table, flags, version, name) == Ignore
    ensures LoadItem(table, st) == Ok(LoadState(rest, st.versions, st.discardable + ListedIds(flags, ids)))
  {
    var afterExtra := IdField(flags, ids) + rest;
    var afterHeader := ExtraField(flags, extra) + afterExtra;
    ItemSplit(flags, version, name, extra, ids, rest);
    HeaderOf(flags, version, name, afterHeader);
    ExtraFieldSkipped(table, flags, version, name, extra, afterExtra);
    IdFieldOf(flags, ids, rest);
    IgnoredStep(table, st, flags, version, name, afterHeader, afterExtra, ListedIds(flags, ids), rest);
  }

  /**
   * An accepted item whose extra data, if any, its load_proc consumes
   * exactly: its entry's version is set, and its chunk IDs are read but not
   * added to the discardable list.
   */
  lemma AcceptedItem(table: seq<SubChunkInfo>, st: LoadState, flags: u32, version: u16, name: string,
                     extra: seq<u8>, ids: seq<u32>, i: nat, rest: seq<Token>)
    requires IndicesInRange(table, |st.versions|) && |extra| < 0x1_0000_0000 && |ids| < 0x1_0000_0000
    requires st.rest == ItemTokens(flags, version, name, extra, ids) + rest
    requires Classify(table, flags, version, name) == Accept(i) && i < |table|
    requires HasFlag(flags, XSCF_EXTRA_DATA_PRESENT) && |extra| > 0 ==>
      table[i].loadProc.Some? && table[i].loadProc.value.consumed(|extra|) == |extra|
    ensures LoadItem(table, st) == Ok(LoadState(rest, st.versions[table[i].index := version], st.discardable))
  {
    var afterExtra := IdField(flags, ids) + rest;
    var afterHeader := ExtraField(flags, extra) + afterExtra;
    ItemSplit(flags, version, name, extra, ids, rest);
    HeaderOf(flags, version, name, afterHeader);
    ExtraFieldLoaded(table, i, flags, version, name, extra, afterExtra);
    IdFieldOf(flags, ids, rest);
    AcceptedStep(table, st, flags, version, name, i, afterHeader, afterExtra, ListedIds(flags, ids), rest);
  }

  /**
   * An accepted item with non-empty extra data fails the load when its entry
   * has no load_proc, or when the load_proc consumes fewer or more bytes
   * than the field declares.
   */
  lemma AcceptedItemExtraDataRejected(table: seq<SubChunkInfo>, st: LoadState, flags: u32, version: u16,
                                      name: string, extra: seq<u8>, ids: seq<u32>, i: nat, rest: seq<Token>)
    requires IndicesInRange(table, |st.versions|) && 0 < |extra| < 0x1_0000_0000
    requires st.rest == ItemTokens(flags, version, name, extra, ids) + rest
    requires Classify(table, flags, version, name) == Accept(i) && HasFlag(flags, XSCF_EXTRA_DATA_PRESENT)
    ensures table[i].loadProc.None? ==> LoadItem(table, st) == Fail(SlxiUnexpectedExtraData(name, version))
    ensures table[i].loadProc.Some? && table[i].loadProc.value.consumed(|extra|) != |extra| ==>
      LoadItem(table, st) == Fail(SlxiExtraDataLengthMismatch(name, version))
  {
    var afterHeader := ExtraField(flags, extra) + (IdField(flags, ids) + rest);
    ItemSplit(flags, version, name, extra, ids, rest);
    HeaderOf(flags, version, name, afterHeader);
    ExtraFieldRejected(table, i, flags, version, name, extra, IdField(flags, ids) + rest);
  }
}
