/**
 * Save_SLXI followed by Load_SLXI (src/saveload/extended_ver_sl.cpp): the
 * chunk written for a feature table loads back, under the same table, as
 * exactly the feature versions SlXvSetCurrentState sets, consumes the whole
 * chunk, and adds no chunk ID to the discardable list.
 */
module SlxiRoundTrip {
  import opened SaveLoad
  import opened ChunkIdList
  import opened SlxiTable
  import opened SlxiSave
  import opened SlxiLoad

  /** The extra data Save_SLXI writes for a feature: its save_proc's output, when the dry run reports a length. */
  function SavedExtra(info: SubChunkInfo): seq<u8>
  {
    if ExtraDataLength(info) > 0 then info.saveProc.value.output else []
  }

  /** The chunk IDs Save_SLXI writes for a feature, as the loader reads them. */
  function SavedIds(info: SubChunkInfo): seq<u32>
    requires SaveAssertionsHold(info)
  {
    if ChunkCount(info) > 0 then ChunkIds(info.chunkList.value) else []
  }

  /**
   * What this build's loader needs of a table to take back what its saver
   * wrote: every saved feature's save version is within the version it
   * loads, and its load_proc, where it has extra data, consumes exactly that
   * data.
   */
  predicate Loadable(table: seq<SubChunkInfo>)
  {
    forall j :: 0 <= j < |table| && Saved(table[j]) ==>
      && table[j].saveVersion <= table[j].maxVersion
      && (ExtraDataLength(table[j]) > 0 ==>
            table[j].loadProc.Some? && table[j].loadProc.value.consumed(ExtraDataLength(table[j])) == ExtraDataLength(table[j]))
  }

  /** A table whose chunk loads back: valid, with distinct names, loadable. */
  predicate RoundTripTable(table: seq<SubChunkInfo>, size: nat)
  {
    ValidTable(table, size) && DistinctNames(table) && Loadable(table)
  }

  /** The versions after loading the items of `p`: zeros, then each saved feature's version at its index, in order. */
  function LoadedVersions(p: seq<SubChunkInfo>, size: nat): (r: seq<u16>)
    requires IndicesInRange(p, size)
    ensures |r| == size
  {
    if p == [] then Zeros(size)
    else
      var last := p[|p| - 1];
      var before := LoadedVersions(p[..|p| - 1], size);
      if Saved(last) then before[last.index := last.saveVersion] else before
  }

  /** With distinct indices, loading the saved features gives the versions SlXvSetCurrentState sets for all of them. */
  lemma {:induction false} LoadedVersionsAreCurrent(table: seq<SubChunkInfo>, size: nat)
    requires IndicesInRange(table, size) && DistinctIndices(table)
    ensures LoadedVersions(table, size) == CurrentVersions(table, size)
    decreases |table|
  {
    if table != [] {
      var p, last := table[..|table| - 1], table[|table| - 1];
      LoadedVersionsAreCurrent(p, size);
      if !Saved(last) {
        CurrentVersionsAt(p, size);
        assert !HasIndex(p, last.index);
        var cv := CurrentVersions(p, size);
        assert cv[last.index := 0] == cv;
      }
    }
  }

  /** One saved feature's bytes are the item layout the loader reads, with the flags Save_SLXI computes. */
  lemma EncodeItemLayout(info: SubChunkInfo)
    requires SaveAssertionsHold(info)
    ensures SavedFlags(info) < 0x1_0000_0000
    ensures EncodeItem(info) == ItemTokens(SavedFlags(info), info.saveVersion, info.name, SavedExtra(info), SavedIds(info))
  {
    SavedFlagsBits(info);
    if ChunkCount(info) > 0 {
      ChunkIdBytesAreIds(info.chunkList.value);
    }
  }

  /** Under distinct names, the loader accepts a saved feature of a loadable table as its own entry. */
  lemma SavedFeatureAccepted(table: seq<SubChunkInfo>, j: nat, flags: u32)
    requires DistinctNames(table) && Loadable(table) && j < |table| && Saved(table[j])
    ensures Classify(table, flags, table[j].saveVersion, table[j].name) == Accept(j)
  {
    ClassifyPolicy(table, flags, table[j].saveVersion, table[j].name);
  }

  /** A saved feature's item loads back: it sets the feature's version and adds no discardable chunk ID. */
  lemma SavedItemLoads(table: seq<SubChunkInfo>, j: nat, st: LoadState, rest: seq<Token>)
    requires IndicesInRange(table, |st.versions|) && DistinctNames(table) && Loadable(table)
    requires j < |table| && Saved(table[j]) && SaveAssertionsHold(table[j])
    requires st.rest == EncodeItem(table[j]) + rest
    ensures LoadItem(table, st) == Ok(LoadState(rest, st.versions[table[j].index := table[j].saveVersion], st.discardable))
  {
    var info := table[j];
    EncodeItemLayout(info);
    var flags: u32 := SavedFlags(info);
    SavedFeatureAccepted(table, j, flags);
    AcceptedItem(table, st, flags, info.saveVersion, info.name, SavedExtra(info), SavedIds(info), j, rest);
  }

  /** After any items that stopped just before table entry `j`'s item, reading that item (if it was saved) loads it back. */
  lemma EntryLoadsNext(table: seq<SubChunkInfo>, size: nat, j: nat, st: LoadState, m: nat, versions: seq<u16>,
                       d: seq<u32>, rest: seq<Token>)
    requires RoundTripTable(table, size) && j < |table| && IndicesInRange(table, |st.versions|)
    requires ItemsLoaded(table, st, m) == Ok(LoadState(EntryTokens(table[j]) + rest, versions, d))
    ensures ItemsLoaded(table, st, m + if Saved(table[j]) then 1 else 0)
         == Ok(LoadState(rest, if Saved(table[j]) then versions[table[j].index := table[j].saveVersion] else versions, d))
  {
    var info := table[j];
    if Saved(info) {
      var mid := LoadState(EncodeItem(info) + rest, versions, d);
      SavedItemLoads(table, j, mid, rest);
      LoadItemsNext(table, st, m, mid);
    } else {
      assert EntryTokens(info) + rest == rest;
    }
  }

  /** The saved count and the loaded versions of a prefix, one entry longer. */
  lemma PrefixTotals(p: seq<SubChunkInfo>, size: nat)
    requires p != [] && IndicesInRange(p, size)
    ensures SavedCount(p) == SavedCount(p[..|p| - 1]) + if Saved(p[|p| - 1]) then 1 else 0
    ensures LoadedVersions(p, size) ==
      if Saved(p[|p| - 1]) then LoadedVersions(p[..|p| - 1], size)[p[|p| - 1].index := p[|p| - 1].saveVersion]
      else LoadedVersions(p[..|p| - 1], size)
  {
  }

  /** A prefix of a valid table keeps its entries' indices in range and their save assertions. */
  lemma PrefixValid(table: seq<SubChunkInfo>, size: nat, p: seq<SubChunkInfo>)
    requires ValidTable(table, size) && p <= table
    ensures SaveAssertionsHoldAll(p) && IndicesInRange(p, size)
  {
    assert forall j :: 0 <= j < |p| ==> p[j] == table[j];
  }

  /** The items of the features of a prefix `p` of the table load back one after the other, leaving what follows them. */
  lemma {:induction false} EntriesLoad(table: seq<SubChunkInfo>, size: nat, p: seq<SubChunkInfo>, d: seq<u32>, rest: seq<Token>)
    requires RoundTripTable(table, size) && p <= table
    ensures SaveAssertionsHoldAll(p) && IndicesInRange(p, size)
    ensures ItemsLoaded(table, LoadState(EncodeEntries(p) + rest, Zeros(size), d), SavedCount(p))
         == Ok(LoadState(rest, LoadedVersions(p, size), d))
    decreases |p|
  {
    PrefixValid(table, size, p);
    if p == [] {
      assert EncodeEntries(p) + rest == rest;
    } else {
      var q, info := p[..|p| - 1], p[|p| - 1];
      assert q <= table && info == table[|p| - 1];
      var tail := EntryTokens(info);
      EntriesLoad(table, size, q, d, tail + rest);
      assert EncodeEntries(p) + rest == EncodeEntries(q) + (tail + rest) by {
        AppendAssoc(EncodeEntries(q), tail, rest);
      }
      var st := LoadState(EncodeEntries(p) + rest, Zeros(size), d);
      EntryLoadsNext(table, size, |p| - 1, st, SavedCount(q), LoadedVersions(q, size), d, rest);
      PrefixTotals(p, size);
    }
  }

  /**
   * The round trip: loading the SLXI chunk saved for a table, under that
   * table, succeeds, consumes the whole chunk, gives every feature the
   * version SlXvSetCurrentState gives it, and leaves the discardable list
   * as it was.
   */
  lemma SlxiRoundTrip(table: seq<SubChunkInfo>, size: nat, d: seq<u32>)
    requires RoundTripTable(table, size)
    ensures LoadSlxi(table, EncodeSlxi(table), size, false, true, d) == Ok(LoadState([], CurrentVersions(table, size), d))
  {
    var count: u32 := SavedCount(table);
    var entries := EncodeEntries(table);
    AppendAssoc(U32Tokens(SLXI_CHUNK_VERSION) + U32Tokens(0), U32Tokens(count), entries);
    AppendAssoc(U32Tokens(SLXI_CHUNK_VERSION), U32Tokens(0), U32Tokens(count) + entries);
    ReadU32Of(SLXI_CHUNK_VERSION, U32Tokens(0) + (U32Tokens(count) + entries));
    ReadU32Of(0, U32Tokens(count) + entries);
    ReadU32Of(count, entries);
    EntriesLoad(table, size, table, d, []);
    assert entries + [] == entries;
    LoadedVersionsAreCurrent(table, size);
  }
}
