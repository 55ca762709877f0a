/**
 * WriteChunkIdList (src/saveload/extended_ver_sl.cpp): a feature's chunk-ID
 * list is a C string of 4-character chunk IDs separated by single commas,
 * e.g. "ABCD,EFGH". Writing it emits the four bytes of every ID, skips the
 * commas, and counts the IDs.
 *
 * The model's string holds the characters before the terminating NUL.
 */
module ChunkIdList {
  import opened SaveLoad

  /** The byte SlWriteByte stores for a C char: its low 8 bits. */
  function ByteOf(c: char): u8
  {
    (c as int) % 0x100
  }

  /** Number of IDs in a chunk-ID list: one per five characters, the last ID having no comma. */
  function ChunkIdCount(list: string): nat
  {
    (|list| + 1) / 5
  }

  /** Every fifth character, the one after an ID, is a comma. */
  predicate CommasInPlace(list: string)
  {
    forall k :: 0 <= k < |list| && k % 5 == 4 ==> list[k] == ','
  }

  /** A list that WriteChunkIdList accepts: 4-character IDs, single commas, no trailing comma. */
  predicate WellFormedChunkList(list: string)
  {
    |list| % 5 == 4 && CommasInPlace(list)
  }

  /** The bytes of a well-formed list's IDs, in order: byte `j` is character `j + j / 4`. */
  function ChunkIdBytes(list: string): (b: seq<u8>)
    requires WellFormedChunkList(list)
    ensures |b| == 4 * ChunkIdCount(list)
  {
    seq(4 * ChunkIdCount(list), j requires 0 <= j < 4 * ChunkIdCount(list) => ByteOf(list[j + j / 4]))
  }

  /** The chunk IDs of a well-formed list as uint32 values, each ID's first character the most significant byte. */
  function ChunkIds(list: string): (ids: seq<u32>)
    requires WellFormedChunkList(list)
    ensures |ids| == ChunkIdCount(list)
  {
    BigEndianWords(ChunkIdBytes(list))
  }

  /** The bytes WriteChunkIdList emits are the list's IDs written as uint32 values, so SlReadUint32 reads them back one ID at a time. */
  lemma ChunkIdBytesAreIds(list: string)
    requires WellFormedChunkList(list)
    ensures Bytes(ChunkIdBytes(list)) == U32Seq(ChunkIds(list))
  {
    BytesAsWords(ChunkIdBytes(list));
  }

  /**
   * The state of WriteChunkIdList's loop after some prefix of the list:
   * how far it is into the current ID, how many IDs it has completed and the
   * bytes it has emitted, or the failure of the in-loop comma assertion.
   */
  datatype Scan = Scanning(offset: nat, count: nat, bytes: seq<u8>) | CommaAssertionFailed

  /** One iteration of WriteChunkIdList's loop, on character `c`. */
  function ScanStep(st: Scan, c: char): Scan
  {
    match st
    case CommaAssertionFailed => CommaAssertionFailed
    case Scanning(offset, count, bytes) =>
      if offset == 4 then
        if c == ',' then Scanning(0, count, bytes) else CommaAssertionFailed
      else
        Scanning(offset + 1, if offset == 3 then count + 1 else count, bytes + [ByteOf(c)])
  }

  /** The loop run over a whole prefix. */
  function ScanPrefix(list: string): Scan
  {
    if list == [] then Scanning(0, 0, []) else ScanStep(ScanPrefix(list[..|list| - 1]), list[|list| - 1])
  }

  /**
   * WriteChunkIdList as the source writes it, assertions included: the ID
   * count and the bytes written, or None when one of its two assertions
   * (a comma after every ID, the list ending right after an ID) fails.
   */
  function ScanChunkIdList(list: string): Option<(nat, seq<u8>)>
  {
    match ScanPrefix(list)
    case Scanning(offset, count, bytes) => if offset == 4 then Some((count, bytes)) else None
    case CommaAssertionFailed => None
  }

  lemma CommasInPlaceExtend(list: string)
    requires |list| > 0
    ensures CommasInPlace(list) <==>
      CommasInPlace(list[..|list| - 1]) && ((|list| - 1) % 5 == 4 ==> list[|list| - 1] == ',')
  {
    var p := list[..|list| - 1];
    if CommasInPlace(p) && ((|list| - 1) % 5 == 4 ==> list[|list| - 1] == ',') {
      forall k | 0 <= k < |list| && k % 5 == 4 ensures list[k] == ',' {
        if k < |list| - 1 { assert list[k] == p[k]; }
      }
    }
    if CommasInPlace(list) {
      forall k | 0 <= k < |p| && k % 5 == 4 ensures p[k] == ',' {
        assert p[k] == list[k];
      }
    }
  }

  /** Arithmetic of one loop step: where the offset, the count and the byte index move. */
  lemma StepArithmetic(i: nat)
    ensures i % 5 == 4 ==> (i + 1) % 5 == 0 && (i + 2) / 5 == (i + 1) / 5 && (i + 1) - (i + 1) / 5 == i - i / 5
    ensures i % 5 != 4 ==>
      (i + 1) % 5 == i % 5 + 1 && (i + 2) / 5 == (i + 1) / 5 + (if i % 5 == 3 then 1 else 0)
      && (i + 1) - (i + 1) / 5 == i - i / 5 + 1
    ensures i % 5 != 4 ==> var m := i - i / 5; m + m / 4 == i
    ensures forall j :: 0 <= j < i - i / 5 ==> j + j / 4 < i
  {
    var q, r := i / 5, i % 5;
    assert i == 5 * q + r;
    if r != 4 {
      var m := i - i / 5;
      assert m == 4 * q + r;
      assert m / 4 == q;
    }
    forall j | 0 <= j < i - i / 5 ensures j + j / 4 < i {
      var a, b := j / 4, j % 4;
      assert j == 4 * a + b;
      assert j < 4 * q + r;
      if a >= q {
        assert a == q;
        assert j + a == 5 * q + b;
      }
    }
  }

  /** What the loop has done after any prefix: it fails exactly when a comma is missing, and otherwise it is at offset `i % 5` with `(i + 1) / 5` IDs and the ID bytes so far. */
  lemma {:induction false} ScanPrefixState(list: string)
    ensures ScanPrefix(list).Scanning? <==> CommasInPlace(list)
    ensures ScanPrefix(list).Scanning? ==>
      var st := ScanPrefix(list);
      st.offset == |list| % 5 && st.count == (|list| + 1) / 5
      && |st.bytes| == |list| - |list| / 5
      && forall j :: 0 <= j < |st.bytes| ==> st.bytes[j] == ByteOf(list[j + j / 4])
    decreases |list|
  {
    if list != [] {
      var i := |list| - 1;
      var p := list[..i];
      ScanPrefixState(p);
      CommasInPlaceExtend(list);
      StepArithmetic(i);
      var st := ScanPrefix(p);
      if st.Scanning? {
        assert forall j :: 0 <= j < |st.bytes| ==> p[j + j / 4] == list[j + j / 4];
      }
    }
  }

  /** WriteChunkIdList's assertions hold exactly on well-formed lists, where it counts `ChunkIdCount` IDs and writes their bytes. */
  lemma ScanAcceptsExactlyWellFormed(list: string)
    ensures ScanChunkIdList(list).Some? <==> WellFormedChunkList(list)
    ensures WellFormedChunkList(list) ==> ScanChunkIdList(list) == Some((ChunkIdCount(list), ChunkIdBytes(list)))
  {
    ScanPrefixState(list);
    if WellFormedChunkList(list) {
      var st := ScanPrefix(list);
      assert st.bytes == ChunkIdBytes(list);
    }
  }

  /**
   * WriteChunkIdList: returns the number of IDs; unless `dryRun`, also
   * emits the bytes of every ID (the commas are not written).
   * Its assertions are its precondition.
   */
  method WriteChunkIdList(list: string, dryRun: bool) returns (count: nat, written: seq<u8>)
    requires WellFormedChunkList(list)
    ensures count == ChunkIdCount(list)
    ensures written == if dryRun then [] else ChunkIdBytes(list)
  {
    count := 0;
    written := [];
    var idOffset := 0;
    ghost var emitted: seq<u8> := [];
    var i := 0;
    while i < |list|
      invariant 0 <= i <= |list|
      invariant idOffset == i % 5
      invariant count == (i + 1) / 5
      invariant |emitted| == i - i / 5
      invariant forall j :: 0 <= j < |emitted| ==> emitted[j] == ByteOf(list[j + j / 4])
      invariant written == if dryRun then [] else emitted
    {
      StepArithmetic(i);
      if idOffset == 4 {
        assert list[i] == ',';
        idOffset := 0;
      } else {
        if !dryRun {
          written := written + [ByteOf(list[i])];
        }
        emitted := emitted + [ByteOf(list[i])];
        if idOffset == 3 {
          count := count + 1;
        }
        idOffset := idOffset + 1;
      }
      i := i + 1;
    }
    assert idOffset == 4;
    assert emitted == ChunkIdBytes(list);
  }
}
