/**
 * The feature tests of src/saveload/extended_ver_sl.cpp: whether a feature's
 * loaded version lies in a range (SlXvIsFeaturePresent), and the combined
 * savegame-version / feature-version test of SlXvFeatureTest.
 *
 * Both read the global array _sl_xv_feature_versions; here its contents are
 * passed as `versions`.
 */
module FeatureTest {
  import opened SaveLoad
  import opened SlxiTable

  /** SlXvIsFeaturePresent: the feature's version lies in [minVersion, maxVersion]. Its assertion `feature < XSLFI_SIZE` is the precondition. */
  function SlXvIsFeaturePresent(versions: seq<u16>, feature: nat, minVersion: u16, maxVersion: u16): bool
    requires feature < |versions|
  {
    minVersion <= versions[feature] && versions[feature] <= maxVersion
  }

  /** SlXvFeatureTestOperator: how the two tests are combined. */
  datatype FeatureTestOperator = XSLFTO_OR | XSLFTO_AND

  /** SlXvFeatureTest: an operator, a feature and the feature-version range it asks for. */
  datatype SlXvFeatureTest = SlXvFeatureTest(op: FeatureTestOperator, feature: nat, minVersion: u16, maxVersion: u16) {

    /**
     * SlXvFeatureTest::IsFeaturePresent: the savegame-version range test,
     * combined with the feature-version test by `op` unless the feature is
     * XSLFI_NULL.
     */
    function IsFeaturePresent(versions: seq<u16>, savegameVersion: u16, savegameVersionFrom: u16, savegameVersionTo: u16): bool
      requires feature == XSLFI_NULL || feature < |versions|
    {
      var savegameVersionOk := savegameVersionFrom <= savegameVersion && savegameVersion <= savegameVersionTo;
      if feature == XSLFI_NULL then savegameVersionOk
      else
        var featureOk := SlXvIsFeaturePresent(versions, feature, minVersion, maxVersion);
        match op
        case XSLFTO_OR => savegameVersionOk || featureOk
        case XSLFTO_AND => savegameVersionOk && featureOk
    }
  }

  /**
   * What the combined test means: for XSLFI_NULL exactly the savegame-version
   * range test; otherwise that test or (under XSLFTO_OR) / and (under
   * XSLFTO_AND) the feature's version lying in the test's range.
   */
  lemma FeatureTestMeaning(t: SlXvFeatureTest, versions: seq<u16>, sv: u16, from: u16, to: u16)
    requires t.feature == XSLFI_NULL || t.feature < |versions|
    ensures t.feature == XSLFI_NULL ==> (t.IsFeaturePresent(versions, sv, from, to) <==> from <= sv <= to)
    ensures t.feature != XSLFI_NULL && t.op == XSLFTO_OR ==>
      (t.IsFeaturePresent(versions, sv, from, to) <==> from <= sv <= to || t.minVersion <= versions[t.feature] <= t.maxVersion)
    ensures t.feature != XSLFI_NULL && t.op == XSLFTO_AND ==>
      (t.IsFeaturePresent(versions, sv, from, to) <==> from <= sv <= to && t.minVersion <= versions[t.feature] <= t.maxVersion)
  {
  }

  /** A test that passes under XSLFTO_AND also passes under XSLFTO_OR. */
  lemma AndImpliesOr(t: SlXvFeatureTest, versions: seq<u16>, sv: u16, from: u16, to: u16)
    requires t.feature == XSLFI_NULL || t.feature < |versions|
    requires t.op == XSLFTO_AND && t.IsFeaturePresent(versions, sv, from, to)
    ensures t.(op := XSLFTO_OR).IsFeaturePresent(versions, sv, from, to)
  {
  }

  /** Widening either range never turns a passing test into a failing one. */
  lemma FeatureTestMonotone(t: SlXvFeatureTest, versions: seq<u16>, sv: u16, from: u16, to: u16,
                            from': u16, to': u16, min': u16, max': u16)
    requires t.feature == XSLFI_NULL || t.feature < |versions|
    requires from' <= from && to <= to' && min' <= t.minVersion && t.maxVersion <= max'
    requires t.IsFeaturePresent(versions, sv, from, to)
    ensures t.(minVersion := min', maxVersion := max').IsFeaturePresent(versions, sv, from', to')
  {
  }

  /** After SlXvResetState every feature has version 0, so it is present exactly for ranges starting at 0. */
  lemma PresentAfterReset(size: nat, feature: nat, minVersion: u16, maxVersion: u16)
    requires feature < size
    ensures SlXvIsFeaturePresent(Zeros(size), feature, minVersion, maxVersion) <==> minVersion == 0
  {
  }

  /**
   * After SlXvSetCurrentState a known feature is present for a range exactly
   * when its save version lies in it, and an index with no table entry only
   * for ranges starting at 0.
   */
  lemma PresentAfterSetCurrentState(table: seq<SubChunkInfo>, size: nat, feature: nat, minVersion: u16, maxVersion: u16)
    requires IndicesInRange(table, size) && DistinctIndices(table) && feature < size
    ensures forall j :: 0 <= j < |table| && table[j].index == feature ==>
      (SlXvIsFeaturePresent(CurrentVersions(table, size), feature, minVersion, maxVersion) <==>
       minVersion <= table[j].saveVersion <= maxVersion)
    ensures !HasIndex(table, feature) ==>
      (SlXvIsFeaturePresent(CurrentVersions(table, size), feature, minVersion, maxVersion) <==> minVersion == 0)
  {
    CurrentVersionsAt(table, size);
  }
}
