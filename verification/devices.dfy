/**
 * The table of sensor kinds the editor knows, with the device-name prefix
 * and the range of device numbers of each, and the map from sensor name to
 * definition built from it when the validator is created.
 */
module Devices {
  import opened Seqs

  datatype DeviceDefinition = DeviceDefinition(sensorName: string, devicePrefix: string, min: int, max: int)

  /** The rows of the static definition table, in table order. */
  const DEFINITIONS: seq<DeviceDefinition> := [
    DeviceDefinition("Analog", "/dev/ncar_a2d", 0, 9),
    DeviceDefinition("ADC-GV", "/dev/arinc", 0, 9),
    DeviceDefinition("Butanol_CN_Counter", "/dev/ttyS", 0, 9),
    DeviceDefinition("CCN", "/dev/ttyS", 0, 9),
    DeviceDefinition("CDP", "/dev/ttyS", 0, 9),
    DeviceDefinition("CFDC", "/dev/ttyS", 0, 9),
    DeviceDefinition("CMIGITS3", "/dev/ttyS", 0, 9),
    DeviceDefinition("COMR", "/dev/ttyS", 0, 9),
    DeviceDefinition("CORAW", "/dev/ttyS", 0, 9),
    DeviceDefinition("D_GPS", "/dev/ttyS", 0, 9),
    DeviceDefinition("DewPointer", "/dev/ttyS", 0, 9),
    DeviceDefinition("Fast2DC", "/dev/usbtwod", 0, 9),
    DeviceDefinition("Fast2DC", "/dev/usbtwod_64_", 0, 9),
    DeviceDefinition("GPS-GV", "/dev/arinc", 0, 9),
    DeviceDefinition("Garmin_GPS", "/dev/ttyS", 0, 9),
    DeviceDefinition("HoneywellPPT", "/dev/ttyS", 0, 9),
    DeviceDefinition("IRIG", "/dev/irig", 0, 9),
    DeviceDefinition("IRS-C130", "/dev/arinc", 0, 9),
    DeviceDefinition("IRS-GV", "/dev/arinc", 0, 9),
    DeviceDefinition("LAMS", "/dev/lams", 0, 9),
    DeviceDefinition("Mensor_6100", "/dev/ttyS", 0, 9),
    DeviceDefinition("NOAA_CSD_O3", "/dev/ttyS", 0, 9),
    DeviceDefinition("Novatel_GPS", "/dev/ttyS", 0, 9),
    DeviceDefinition("OphirIII", "/dev/ttyS", 0, 9),
    DeviceDefinition("Paro_DigiQuartz_1000", "/dev/ttyS", 0, 9),
    DeviceDefinition("QCLS", "/dev/ttyS", 0, 9),
    DeviceDefinition("S100", "/dev/ttyS", 0, 9),
    DeviceDefinition("S200", "/dev/ttyS", 0, 9),
    DeviceDefinition("S300", "/dev/ttyS", 0, 9),
    DeviceDefinition("SP2", "/dev/ttyS", 0, 9),
    DeviceDefinition("TDLH2O", "/dev/ttyS", 0, 9),
    DeviceDefinition("TwoDP", "/dev/usbtwod_32_", 0, 9),
    DeviceDefinition("TwoD_House", "/dev/ttyS", 0, 9),
    DeviceDefinition("UHSAS", "/dev/ttyS", 0, 9),
    DeviceDefinition("UHSAS_CU", "/dev/ttyS", 0, 9),
    DeviceDefinition("VCSEL", "/dev/ttyS", 0, 9),
    DeviceDefinition("Water_CN_Counter", "/dev/ttyS", 0, 9)
  ]

  /** The sensor names of the rows, in row order. */
  function NameSeq(defs: seq<DeviceDefinition>): (r: seq<string>)
    ensures |r| == |defs| && forall i :: 0 <= i < |defs| ==> r[i] == defs[i].sensorName
  {
    seq(|defs|, i requires 0 <= i < |defs| => defs[i].sensorName)
  }

  /**
   * The map that std::map::insert builds from the rows taken in order: an
   * insert under a name already present leaves the map as it is.
   */
  function FirstWins(defs: seq<DeviceDefinition>): (r: map<string, DeviceDefinition>)
    ensures r.Keys == Members(NameSeq(defs))
  {
    if defs == [] then map[]
    else
      var init := defs[..|defs| - 1];
      var d := defs[|defs| - 1];
      assert NameSeq(defs) == NameSeq(init) + [d.sensorName];
      var m := FirstWins(init);
      if d.sensorName in m then m else m[d.sensorName := d]
  }

  /** Every entry of the map is a row of the table filed under its own name. */
  lemma {:induction false} FirstWinsEntries(defs: seq<DeviceDefinition>)
    ensures forall k :: k in FirstWins(defs) ==> FirstWins(defs)[k] in defs && FirstWins(defs)[k].sensorName == k
  {
    if defs != [] {
      var init := defs[..|defs| - 1];
      FirstWinsEntries(init);
      assert forall d :: d in init ==> d in defs;
    }
  }

  /** A row whose name no earlier row has is the entry for that name, whatever follows it. */
  lemma {:induction false} FirstWinsKeepsFirst(defs: seq<DeviceDefinition>, i: nat)
    requires i < |defs|
    requires forall j :: 0 <= j < i ==> defs[j].sensorName != defs[i].sensorName
    ensures defs[i].sensorName in FirstWins(defs) && FirstWins(defs)[defs[i].sensorName] == defs[i]
  {
    var init := defs[..|defs| - 1];
    if i < |defs| - 1 {
      FirstWinsKeepsFirst(init, i);
    } else {
      assert defs[i].sensorName !in Members(NameSeq(init)) by {
        forall j | 0 <= j < |init| ensures NameSeq(init)[j] != defs[i].sensorName {
          assert init[j] == defs[j];
        }
      }
    }
  }

  /**
   * DeviceValidator: the name-to-definition map, filled at construction by
   * inserting every row of the table in order.
   */
  class DeviceValidator {
    var devMap: map<string, DeviceDefinition>

    constructor ()
      ensures devMap == FirstWins(DEFINITIONS)
    {
      devMap := map[];
      new;
      var i := 0;
      while i < |DEFINITIONS|
        invariant 0 <= i <= |DEFINITIONS|
        invariant devMap == FirstWins(DEFINITIONS[..i])
      {
        var d := DEFINITIONS[i];
        assert DEFINITIONS[..i + 1][..i] == DEFINITIONS[..i];
        if d.sensorName !in devMap {
          devMap := devMap[d.sensorName := d];
        }
        i := i + 1;
      }
      assert DEFINITIONS[..i] == DEFINITIONS;
    }
  }

  /** Every sensor name of the table is a key of the map, and nothing else is. */
  lemma EveryNameIsKey()
    ensures forall i :: 0 <= i < |DEFINITIONS| ==> DEFINITIONS[i].sensorName in FirstWins(DEFINITIONS)
    ensures forall k :: k in FirstWins(DEFINITIONS) ==> exists i :: 0 <= i < |DEFINITIONS| && DEFINITIONS[i].sensorName == k
  {
    var names := NameSeq(DEFINITIONS);
    assert forall i :: 0 <= i < |DEFINITIONS| ==> names[i] in Members(names);
  }

  /** Fast2DC has two rows; the map keeps the first, so its prefix is "/dev/usbtwod". */
  lemma Fast2DCKeepsFirstRow()
    ensures "Fast2DC" in FirstWins(DEFINITIONS)
    ensures FirstWins(DEFINITIONS)["Fast2DC"] == DEFINITIONS[11]
    ensures FirstWins(DEFINITIONS)["Fast2DC"].devicePrefix == "/dev/usbtwod"
    ensures DEFINITIONS[12].sensorName == "Fast2DC" && DEFINITIONS[12] != DEFINITIONS[11]
  {
    Fast2DCRows();
    FirstWinsKeepsFirst(DEFINITIONS, 11);
  }

  /** Where Fast2DC appears in the table. */
  lemma Fast2DCRows()
    ensures DEFINITIONS[11] == DeviceDefinition("Fast2DC", "/dev/usbtwod", 0, 9)
    ensures DEFINITIONS[12] == DeviceDefinition("Fast2DC", "/dev/usbtwod_64_", 0, 9)
    ensures forall j :: 0 <= j < 11 ==> DEFINITIONS[j].sensorName != "Fast2DC"
  {
  }

  /** Every row allows device numbers 0 through 9, and so does every entry of the map. */
  lemma DeviceRangeIsZeroToNine()
    ensures forall i :: 0 <= i < |DEFINITIONS| ==> DEFINITIONS[i].min == 0 && DEFINITIONS[i].max == 9
    ensures forall k :: k in FirstWins(DEFINITIONS) ==> FirstWins(DEFINITIONS)[k].min == 0 && FirstWins(DEFINITIONS)[k].max == 9
  {
    FirstWinsEntries(DEFINITIONS);
  }

  /** The duplicate row adds no key: 37 rows give at most 36 names. */
  lemma FewerKeysThanRows()
    ensures |DEFINITIONS| == 37 && |FirstWins(DEFINITIONS)| <= 36
  {
    var names := NameSeq(DEFINITIONS);
    assert names[11] == names[12];
    MembersDropRepeat(names, 11, 12);
    MembersBound(names[..12] + names[13..]);
  }
}
