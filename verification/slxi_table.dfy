/**
 * The extended-feature table of src/saveload/extended_ver_sl.cpp: one
 * SlxiSubChunkInfo per known feature, the per-feature flag bits, and the
 * version array that SlXvSetCurrentState fills from the table.
 *
 * The enums SlXvFeatureIndex and SlxiSubChunkFlags are declared in
 * extended_ver_sl.h, which is not part of this model: feature indices are
 * naturals below the array size, XSLFI_NULL is 0, and the flag values are the
 * single bits below. The table itself (_sl_xv_sub_chunk_infos, which in this
 * revision holds only its end marker) is a parameter; the end marker is not
 * an element of the model's sequence.
 */
module SlxiTable {
  import opened SaveLoad
  import opened ChunkIdList

  const XSLFI_NULL: nat := 0

  /** _sl_xv_slxi_chunk_version: the SLXI layout version this code writes and reads. */
  const SLXI_CHUNK_VERSION: u32 := 0

  /** SlxiSubChunkFlags: the flag bits of a feature item. */
  datatype SubChunkFlag =
    | XSCF_IGNORABLE_UNKNOWN      // the loader may ignore the feature when it does not know its name
    | XSCF_IGNORABLE_VERSION      // the loader may ignore the feature when its version is above the maximum it loads
    | XSCF_EXTRA_DATA_PRESENT     // the extra-data field is present
    | XSCF_CHUNK_ID_LIST_PRESENT  // the chunk-ID list field is present
  {
    /** Which bit of the uint32 flags word the flag is. */
    function Position(): nat
    {
      match this
      case XSCF_IGNORABLE_UNKNOWN => 0
      case XSCF_IGNORABLE_VERSION => 1
      case XSCF_EXTRA_DATA_PRESENT => 2
      case XSCF_CHUNK_ID_LIST_PRESENT => 3
    }

    /** The flag's value: 1, 2, 4 or 8. */
    function Value(): nat
    {
      Pow2(Position())
    }
  }

  function Pow2(k: nat): (p: nat)
    ensures p > 0
  {
    if k == 0 then 1 else 2 * Pow2(k - 1)
  }

  /** Bit `k` of `n`, counting from the least significant. */
  predicate IsBitSet(n: nat, k: nat)
    decreases k
  {
    if k == 0 then n % 2 == 1 else IsBitSet(n / 2, k - 1)
  }

  /** `flags & flag`: whether the flag's bit is set in `flags`. */
  predicate HasFlag(flags: nat, flag: SubChunkFlag)
  {
    IsBitSet(flags, flag.Position())
  }

  /** `flags | flag`. */
  function SetFlag(flags: nat, flag: SubChunkFlag): nat
  {
    if HasFlag(flags, flag) then flags else flags + flag.Value()
  }

  /** Adding bit `j` to a number where it is clear sets it and leaves every other bit as it was. */
  lemma {:induction false} AddClearBit(n: nat, j: nat)
    requires !IsBitSet(n, j)
    ensures IsBitSet(n + Pow2(j), j)
    ensures forall k: nat :: k != j ==> IsBitSet(n + Pow2(j), k) == IsBitSet(n, k)
    decreases j
  {
    if j == 0 {
      forall k: nat | k != 0 ensures IsBitSet(n + 1, k) == IsBitSet(n, k) {
        assert (n + 1) / 2 == n / 2;
      }
    } else {
      var h := HalfPlus(n, Pow2(j - 1));
      AddClearBit(n / 2, j - 1);
      forall k: nat | k != j ensures IsBitSet(n + Pow2(j), k) == IsBitSet(n, k) {
        if k > 0 {
          assert IsBitSet(n + Pow2(j), k) == IsBitSet(h, k - 1);
        }
      }
    }
  }

  /** Adding twice `p` to `n` adds `p` to its half and keeps its parity. */
  lemma HalfPlus(n: nat, p: nat) returns (h: nat)
    ensures h == (n + 2 * p) / 2 == n / 2 + p && (n + 2 * p) % 2 == n % 2
  {
    h := n / 2 + p;
  }

  /** 2^32, the number of uint32 values. */
  lemma Pow2Of32()
    ensures Pow2(32) == 0x1_0000_0000
  {
    assert Pow2(8) == 0x100;
    assert Pow2(16) == 0x1_0000;
    assert Pow2(24) == 0x100_0000;
  }

  /** A number below 2^m stays below 2^m when one of its clear bits below m is set. */
  lemma {:induction false} AddClearBitBound(n: nat, j: nat, m: nat)
    requires n < Pow2(m) && j < m && !IsBitSet(n, j)
    ensures n + Pow2(j) < Pow2(m)
    decreases j
  {
    if j > 0 {
      var h := HalfPlus(n, Pow2(j - 1));
      AddClearBitBound(n / 2, j - 1, m - 1);
    }
  }

  /** Setting a clear flag in a uint32 flags word keeps it a uint32, sets the flag and keeps every other flag. */
  lemma SetClearFlag(flags: u32, flag: SubChunkFlag)
    requires !HasFlag(flags, flag)
    ensures SetFlag(flags, flag) == flags + flag.Value() < 0x1_0000_0000
    ensures HasFlag(SetFlag(flags, flag), flag)
    ensures forall other :: other != flag ==> HasFlag(SetFlag(flags, flag), other) == HasFlag(flags, other)
  {
    AddClearBit(flags, flag.Position());
    Pow2Of32();
    AddClearBitBound(flags, flag.Position(), 32);
    forall other | other != flag ensures other.Position() != flag.Position() {
    }
  }

  /**
   * A save_proc callback. Called with dry_run set it returns the length of the
   * extra data; called without, it writes `output`.
   */
  datatype SaveProc = SaveProc(dryRunLength: u32, output: seq<u8>)

  /**
   * A load_proc callback, seen only through how many bytes of the stream it
   * consumes when asked to load `size` bytes of extra data.
   */
  datatype LoadProc = LoadProc(consumed: u32 -> nat)

  /**
   * SlxiSubChunkInfo: one known feature. The name and the chunk-ID list are
   * C strings in the source; here they are strings of any characters.
   */
  datatype SubChunkInfo = SubChunkInfo(
    index: nat,
    flags: u32,
    saveVersion: u16,
    maxVersion: u16,
    name: string,
    saveProc: Option<SaveProc>,
    loadProc: Option<LoadProc>,
    chunkList: Option<string>)

  /** Features with a non-zero save version are written to the SLXI chunk. */
  predicate Saved(info: SubChunkInfo)
  {
    info.saveVersion > 0
  }

  /** What the save_proc's dry run reports (0 when there is no save_proc). */
  function ExtraDataLength(info: SubChunkInfo): u32
  {
    if info.saveProc.Some? then info.saveProc.value.dryRunLength else 0
  }

  /** How many chunk IDs the feature lists (0 when it has no list). */
  function ChunkCount(info: SubChunkInfo): nat
  {
    if info.chunkList.Some? then ChunkIdCount(info.chunkList.value) else 0
  }

  /** The flags written for a feature: its own, plus the two "field present" bits when the fields are written. */
  function SavedFlags(info: SubChunkInfo): nat
  {
    var f := if ExtraDataLength(info) > 0 then SetFlag(info.flags, XSCF_EXTRA_DATA_PRESENT) else info.flags;
    if ChunkCount(info) > 0 then SetFlag(f, XSCF_CHUNK_ID_LIST_PRESENT) else f
  }

  /**
   * What Save_SLXI asserts of a feature it writes: its own flags hold neither
   * "field present" bit, its save_proc writes as many bytes as its dry run
   * announced, and its chunk-ID list satisfies WriteChunkIdList's
   * assertions (with a count that fits the uint32 field).
   */
  predicate SaveAssertionsHold(info: SubChunkInfo)
  {
    && !HasFlag(info.flags, XSCF_EXTRA_DATA_PRESENT)
    && !HasFlag(info.flags, XSCF_CHUNK_ID_LIST_PRESENT)
    && (ExtraDataLength(info) > 0 ==> |info.saveProc.value.output| == ExtraDataLength(info))
    && (info.chunkList.Some? ==>
          WellFormedChunkList(info.chunkList.value) && ChunkIdCount(info.chunkList.value) < 0x1_0000_0000)
  }

  /** Every entry names a real feature: not XSLFI_NULL, and below XSLFI_SIZE (`size`). */
  predicate IndicesInRange(table: seq<SubChunkInfo>, size: nat)
  {
    forall j :: 0 <= j < |table| ==> XSLFI_NULL < table[j].index < size
  }

  /** Each feature index appears once (they are the values of an enum). */
  predicate DistinctIndices(table: seq<SubChunkInfo>)
  {
    forall j, k :: 0 <= j < k < |table| ==> table[j].index != table[k].index
  }

  /** Each feature name appears once. */
  predicate DistinctNames(table: seq<SubChunkInfo>)
  {
    forall j, k :: 0 <= j < k < |table| ==> table[j].name != table[k].name
  }

  /** The table as the source defines it, with every assertion Save_SLXI makes about it. */
  predicate ValidTable(table: seq<SubChunkInfo>, size: nat)
  {
    && IndicesInRange(table, size)
    && DistinctIndices(table)
    && |table| < 0x1_0000_0000
    && forall j :: 0 <= j < |table| && Saved(table[j]) ==> SaveAssertionsHold(table[j])
  }

  /** The array of feature versions after SlXvResetState: all zero. */
  function Zeros(size: nat): (r: seq<u16>)
    ensures |r| == size && forall k :: 0 <= k < size ==> r[k] == 0
  {
    seq(size, _ => 0)
  }

  /** The feature versions SlXvSetCurrentState leaves: zeros, then each entry's save version written at its index, in table order. */
  function CurrentVersions(table: seq<SubChunkInfo>, size: nat): (r: seq<u16>)
    requires IndicesInRange(table, size)
    ensures |r| == size
  {
    if table == [] then Zeros(size)
    else
      var last := table[|table| - 1];
      CurrentVersions(table[..|table| - 1], size)[last.index := last.saveVersion]
  }

  /** Whether some entry of `table` has feature index `k`. */
  predicate HasIndex(table: seq<SubChunkInfo>, k: nat)
  {
    exists j :: 0 <= j < |table| && table[j].index == k
  }

  /**
   * After SlXvSetCurrentState every known feature holds its save version and
   * every other slot holds 0.
   */
  lemma {:induction false} CurrentVersionsAt(table: seq<SubChunkInfo>, size: nat)
    requires IndicesInRange(table, size) && DistinctIndices(table)
    ensures forall j :: 0 <= j < |table| ==> CurrentVersions(table, size)[table[j].index] == table[j].saveVersion
    ensures forall k :: 0 <= k < size && !HasIndex(table, k) ==> CurrentVersions(table, size)[k] == 0
    decreases |table|
  {
    if table != [] {
      var p := table[..|table| - 1];
      assert IndicesInRange(p, size) && DistinctIndices(p);
      CurrentVersionsAt(p, size);
      forall k | 0 <= k < size && !HasIndex(table, k) ensures !HasIndex(p, k) {
        forall j | 0 <= j < |p| ensures p[j].index != k {
          assert p[j] == table[j];
        }
      }
    }
  }

  /**
   * The flags Save_SLXI writes for a feature: the extra-data bit is set iff
   * its extra data is non-empty, the chunk-list bit iff it lists chunk IDs,
   * the "ignorable" bits are the table's own, and the value still fits 32 bits.
   */
  lemma SavedFlagsBits(info: SubChunkInfo)
    requires SaveAssertionsHold(info)
    ensures SavedFlags(info) < 0x1_0000_0000
    ensures HasFlag(SavedFlags(info), XSCF_EXTRA_DATA_PRESENT) <==> ExtraDataLength(info) > 0
    ensures HasFlag(SavedFlags(info), XSCF_CHUNK_ID_LIST_PRESENT) <==> ChunkCount(info) > 0
    ensures HasFlag(SavedFlags(info), XSCF_IGNORABLE_UNKNOWN) == HasFlag(info.flags, XSCF_IGNORABLE_UNKNOWN)
    ensures HasFlag(SavedFlags(info), XSCF_IGNORABLE_VERSION) == HasFlag(info.flags, XSCF_IGNORABLE_VERSION)
  {
    var f1: u32 := info.flags;
    if ExtraDataLength(info) > 0 {
      SetClearFlag(info.flags, XSCF_EXTRA_DATA_PRESENT);
      f1 := SetFlag(info.flags, XSCF_EXTRA_DATA_PRESENT);
    }
    if ChunkCount(info) > 0 {
      SetClearFlag(f1, XSCF_CHUNK_ID_LIST_PRESENT);
    }
  }
}
