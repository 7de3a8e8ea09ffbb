/**
 * The editing engine: the Document keeps the DOM and the nidas objects in
 * step. Every operation checks what it needs, changes the DOM, lets nidas
 * read the change back, and on a nidas complaint undoes what it did and
 * passes the complaint on.
 *
 * The nidas calls whose code is not part of this model (fromDOMElement,
 * validate, sensorFromDOMElement, the items' findDOMNode) are parameters:
 * the verdict or the object the call would produce.
 */
module Editing {
  import opened Exceptions
  import opened Text
  import opened Dom
  import opened Seqs
  import opened Nidas
  import opened Elements
  import opened Validation
  import opened Calibration
  import opened A2DVariables
  import Allocators
  import Items

  /** An entry of the selection the GUI hands over: a QModelIndex and the item it points at. */
  datatype ModelIndex = ModelIndex(column: int, valid: bool, item: Items.NidasItem)

  /** The item of the last valid selected index in column 0, if any. */
  function LastSelected(indexList: seq<ModelIndex>): (r: Option<Items.NidasItem>)
    ensures r.None? <==> forall i :: 0 <= i < |indexList| ==> !(indexList[i].column == 0 && indexList[i].valid)
    ensures r.Some? ==> exists i :: 0 <= i < |indexList| && indexList[i].column == 0 && indexList[i].valid &&
                                    indexList[i].item == r.value &&
                                    forall j :: i < j < |indexList| ==> !(indexList[j].column == 0 && indexList[j].valid)
  {
    if indexList == [] then None
    else
      var last := indexList[|indexList| - 1];
      if last.column == 0 && last.valid then Some(last.item)
      else LastSelected(indexList[..|indexList| - 1])
  }

  /** `list` with `x` appended unless it is already there: a list used as a set. */
  function Noted(list: seq<string>, x: string): seq<string>
  {
    if x in list then list else list + [x]
  }

  /**
   * Noting a name keeps the list free of duplicates, holds exactly the old
   * names and the new one, and noting it again changes nothing.
   */
  lemma NotedIsSetInsert(list: seq<string>, x: string)
    ensures Distinct(list) ==> Distinct(Noted(list, x))
    ensures forall y :: y in Noted(list, x) <==> y in list || y == x
    ensures Noted(Noted(list, x), x) == Noted(list, x)
    ensures x in list ==> Noted(list, x) == list
  {
    DistinctAppend(list, x);
  }

  /**
   * findSensor: the catalog entry of the given name; none for an empty
   * name or a project without a sensor catalog. The scan over the catalog's
   * std::map stops at the key equal to the name, so it is a key lookup.
   */
  function FindSensor(catalog: Option<map<string, Node>>, sensorIdName: string): (r: Node?)
    ensures r != null <==> sensorIdName != "" && catalog.Some? && sensorIdName in catalog.value
    ensures r != null ==> r == catalog.value[sensorIdName]
  {
    if sensorIdName == "" then null
    else if catalog.None? then null
    else if sensorIdName in catalog.value then catalog.value[sensorIdName]
    else null
  }

  /* ---------------- updateSensor and updateDSM ---------------- */

  /** The nidas complaints an update catches and rolls back: anything else passes through untouched. */
  predicate RolledBack(verdict: Outcome) {
    verdict.Fails(InvalidParameter) || verdict.Fails(InternalProcessing)
  }

  /**
   * How an update ends: with the read-back's verdict, unless the read-back
   * after a rollback throws too, whose exception then replaces the first.
   */
  function UpdateOutcome(verdict: Outcome, reread: Outcome): (r: Outcome)
    ensures r.Pass? <==> verdict.Pass?
    ensures r.Fail? && r != verdict ==> RolledBack(verdict) && r == reread
  {
    if RolledBack(verdict) && reread.Fail? then reread else verdict
  }

  /** The fromDOM and site->validate calls of updateDSM, in one try block: the first to throw decides. */
  function Both(first: Outcome, second: Outcome): (r: Outcome)
    ensures r.Pass? <==> first.Pass? && second.Pass?
    ensures first.Fail? ==> r == first
  {
    if first.Fail? then first else second
  }

  /**
   * The sensor element's attributes after updateSensor: the new values, and
   * on a caught complaint the values the sensor held before written back.
   */
  function SensorAttrsAfterUpdate(attrs: map<string, string>, device: string, lcId: string, sfx: string,
                                  currDevName: string, currSensorId: nat, currSuffix: string, verdict: Outcome): map<string, string>
  {
    var updated := UpdatedSensorAttrs(attrs, device, lcId, sfx);
    if RolledBack(verdict) then UpdatedSensorAttrs(updated, currDevName, NatToString(currSensorId), currSuffix)
    else updated
  }

  /**
   * An accepted update holds the new values; a rolled-back one leaves the
   * element as it was whenever the element agreed with its sensor, and one
   * that failed with any other complaint keeps the rejected values.
   */
  lemma SensorUpdateRollsBack(attrs: map<string, string>, device: string, lcId: string, sfx: string,
                              currDevName: string, currSensorId: nat, currSuffix: string, verdict: Outcome)
    ensures var after := SensorAttrsAfterUpdate(attrs, device, lcId, sfx, currDevName, currSensorId, currSuffix, verdict);
            !RolledBack(verdict) ==>
              after["devicename"] == device && after["id"] == lcId &&
              ("suffix" in after <==> sfx != "") && (sfx != "" ==> after["suffix"] == sfx)
    ensures RolledBack(verdict) &&
            "devicename" in attrs && attrs["devicename"] == currDevName &&
            "id" in attrs && attrs["id"] == NatToString(currSensorId) &&
            (if currSuffix == "" then "suffix" !in attrs else "suffix" in attrs && attrs["suffix"] == currSuffix)
            ==> SensorAttrsAfterUpdate(attrs, device, lcId, sfx, currDevName, currSensorId, currSuffix, verdict) == attrs
  {
    if RolledBack(verdict) {
      SensorUpdateLastWins(attrs, device, lcId, sfx, currDevName, NatToString(currSensorId), currSuffix);
      if "devicename" in attrs && attrs["devicename"] == currDevName &&
         "id" in attrs && attrs["id"] == NatToString(currSensorId) &&
         (if currSuffix == "" then "suffix" !in attrs else "suffix" in attrs && attrs["suffix"] == currSuffix) {
        SensorUpdateRestores(attrs, currDevName, NatToString(currSensorId), currSuffix);
      }
    }
  }

  /** The <dsm> element's attributes after updateDSM, rolled back on a caught complaint. */
  function DsmAttrsAfterUpdate(attrs: map<string, string>, name: string, id: string, location: string,
                               currName: string, currId: nat, currLocation: string, verdict: Outcome): map<string, string>
  {
    var updated := UpdatedDsmAttrs(attrs, name, id, location);
    if RolledBack(verdict) then UpdatedDsmAttrs(updated, currName, NatToString(currId), currLocation)
    else updated
  }

  /**
   * The same for a DSM: new values when accepted; when rolled back, the old
   * element back provided it held a location and its id in plain decimal.
   */
  lemma DsmUpdateRollsBack(attrs: map<string, string>, name: string, id: string, location: string,
                           currName: string, currId: nat, currLocation: string, verdict: Outcome)
    ensures var after := DsmAttrsAfterUpdate(attrs, name, id, location, currName, currId, currLocation, verdict);
            !RolledBack(verdict) ==> after["name"] == name && after["id"] == id && after["location"] == location
    ensures RolledBack(verdict) &&
            "name" in attrs && attrs["name"] == currName && "id" in attrs && attrs["id"] == NatToString(currId) &&
            "location" in attrs && attrs["location"] == currLocation
            ==> DsmAttrsAfterUpdate(attrs, name, id, location, currName, currId, currLocation, verdict) == attrs
  {
    if RolledBack(verdict) {
      DsmUpdateLastWins(attrs, name, id, location, currName, NatToString(currId), currLocation);
      if "name" in attrs && attrs["name"] == currName && "id" in attrs && attrs["id"] == NatToString(currId) &&
         "location" in attrs && attrs["location"] == currLocation {
        DsmUpdateRestores(attrs, currName, NatToString(currId), currLocation);
      }
    }
  }

  /**
   * The rollback of updateDSM as written does not always give back the
   * element it started from: a DSM that addDSM created without a location
   * comes back with an empty location attribute, and an id written "07"
   * comes back as "7".
   */
  lemma DsmRollbackIsNotExact()
    ensures var before := map["name" := "dsm1", "id" := "7"];
            var after := DsmAttrsAfterUpdate(before, "dsm1", "1", "", "dsm1", 7, "", Fail(Invalid("duplicate")));
            "location" in after && after != before
    ensures var before := map["name" := "dsm1", "id" := "07", "location" := "wing"];
            var after := DsmAttrsAfterUpdate(before, "dsm1", "1", "wing", "dsm1", 7, "wing", Fail(Invalid("duplicate")));
            after["id"] == "7" && after != before
  {
    assert NatToString(7) == "7";
  }

  /** One attribute put back as it was before an update: its old value, or absent when it was absent. */
  function RestoreAttr(attrs: map<string, string>, before: map<string, string>, key: string): (r: map<string, string>)
    ensures key in r <==> key in before
    ensures key in r ==> r[key] == before[key]
    ensures forall k :: k != key ==> (k in r <==> k in attrs) && (k in r ==> r[k] == attrs[k])
  {
    if key in before then attrs[key := before[key]] else attrs - {key}
  }

  /** The rollback of updateDSM as evidently intended: name, id and location exactly as they were. */
  function RestoredDsmAttrs(updated: map<string, string>, before: map<string, string>): map<string, string>
  {
    RestoreAttr(RestoreAttr(RestoreAttr(updated, before, "name"), before, "id"), before, "location")
  }

  /** Restoring the snapshot undoes any update of the DSM element, whatever it held. */
  lemma ExactDsmRollback(attrs: map<string, string>, name: string, id: string, location: string)
    ensures RestoredDsmAttrs(UpdatedDsmAttrs(attrs, name, id, location), attrs) == attrs
  {
    assert |"id"| == 2 && |"name"| == 4 && |"location"| == 8;
    var u := UpdatedDsmAttrs(attrs, name, id, location);
    var r := RestoredDsmAttrs(u, attrs);
    forall k ensures (k in r <==> k in attrs) && (k in r ==> r[k] == attrs[k]) {
      if k != "name" && k != "id" && k != "location" {
        assert (k in u <==> k in attrs) && (k in u ==> u[k] == attrs[k]);
      }
    }
    assert r.Keys == attrs.Keys;
  }

  /**
   * The objects updateSensor may change: the selected item, for its DOM node
   * memo, that node, and the item's DSMSensor, which fromDOM reads back.
   */
  function SensorUpdateFrame(indexList: seq<ModelIndex>, found: Node?): set<object>
    reads set i | 0 <= i < |indexList| :: indexList[i].item
  {
    match LastSelected(indexList)
    case None => {}
    case Some(item) =>
      {item} + (if item.domNode != null then {item.domNode} else {}) + (if found != null then {found} else {}) +
      (if item.nidasObject.SensorObject? then {item.nidasObject.sensor} else {})
  }

  /** The objects updateDSM may change: the DSM element and the selected DSMConfig, which fromDOM reads back. */
  function DsmUpdateFrame(indexList: seq<ModelIndex>, dsmNode: Node?): set<object>
    reads set i | 0 <= i < |indexList| :: indexList[i].item
  {
    (if dsmNode != null then {dsmNode} else {}) +
    match LastSelected(indexList)
    case Some(item) => if item.nidasObject.DsmObject? && item.nidasObject.dsm != null then {item.nidasObject.dsm} else {}
    case None => {}
  }

  /** A DSM appended to a site's list adds its id and its name at the end of the site's id and name lists. */
  lemma DsmListGrows(dsms: seq<DSMConfig>, d: DSMConfig)
    ensures DsmIds(dsms + [d]) == DsmIds(dsms) + [d.id]
    ensures DsmNames(dsms + [d]) == DsmNames(dsms) + [d.name]
  {
    assert (dsms + [d])[..|dsms|] == dsms;
  }

  /** A DSM whose id and name are new keeps the list consistent. */
  lemma ConsistentAppend(dsms: seq<DSMConfig>, d: DSMConfig)
    requires Distinct(DsmIds(dsms) + [d.id]) && Distinct(DsmNames(dsms) + [d.name])
    ensures Consistent(dsms + [d])
  {
    DsmListGrows(dsms, d);
  }

  /** The site's DSMs repeat no id and no name. */
  ghost predicate Consistent(dsms: seq<DSMConfig>)
    reads set d | d in dsms
  {
    Distinct(DsmIds(dsms)) && Distinct(DsmNames(dsms))
  }

  /** What validateDsmInfo accepts: an id that reads as a number, a consistent site, and a new id and name. */
  ghost predicate DsmAccepted(dsms: seq<DSMConfig>, dsmName: string, dsmId: string)
    reads set d | d in dsms
  {
    ParseUnsigned(dsmId).Some? && Consistent(dsms) &&
    ParseUnsigned(dsmId).value !in DsmIds(dsms) && dsmName !in DsmNames(dsms)
  }

  /** A DSMConfig with the site, name, id and location addDSM gives it. */
  ghost predicate NewDsm(d: DSMConfig, site: Site, name: string, id: nat, location: string)
    reads d
  {
    d.site == site && d.name == name && d.id == id && d.location == location
  }

  /** The root item is a DSM item with a DSMConfig. */
  predicate DsmRoot(root: Items.NidasItem?) {
    root != null && root.nidasObject.DsmObject? && root.nidasObject.dsm != null
  }

  /* ---------------- addSensor ---------------- */

  /** The tag of a new sensor element: "sensor" for an analog card, else the tag of its catalog entry, if there is one. */
  function SensorTag(catalog: Option<map<string, Node>>, sensorIdName: string): (r: Option<string>)
    ensures IsAnalog(sensorIdName) ==> r == Some("sensor")
    ensures !IsAnalog(sensorIdName) ==> (r.Some? <==> sensorIdName != "" && catalog.Some? && sensorIdName in catalog.value)
    ensures !IsAnalog(sensorIdName) && r.Some? ==> r.value == catalog.value[sensorIdName].nodeName
  {
    if IsAnalog(sensorIdName) then Some("sensor")
    else
      var entry := FindSensor(catalog, sensorIdName);
      if entry == null then None else Some(entry.nodeName)
  }

  /** The objects addSensor may change: the DSM item, for its DOM node memo, its DSMConfig and that node. */
  function AddSensorFrame(root: Items.NidasItem?, found: Node?): set<object>
    reads root
  {
    if DsmRoot(root) then
      {root, root.nidasObject.dsm} + (if root.domNode != null then {root.domNode} else {}) + (if found != null then {found} else {})
    else {}
  }

  /* ---------------- insertA2DVariable ---------------- */

  /** The calibration values came from the variable's XML: the list starts with the "XML:" marker. */
  predicate XmlCals(cals: seq<string>) {
    |cals| > 0 && cals[0] == "XML:"
  }

  /** The element addCalibElem or addVarCalFileElem appends to a variable element. */
  function CalElem(c: CalibrationElement): Elem
  {
    match c
    case Poly(units, coefs) => Elem("poly", map["units" := units, "coefs" := coefs], [])
    case Linear(units, intercept, slope) =>
      Elem("linear", map["units" := units, "intercept" := intercept, "slope" := slope], [])
    case PolyCalFile(units, path, file) =>
      Elem("poly", map["units" := units], [Elem("calfile", map["path" := path, "file" := file], [])])
  }

  /** How nidas reads a calibration element back: by its tag, its attributes and a calfile child. */
  function CalOf(e: Elem): Option<CalibrationElement>
  {
    if e.tag == "linear" && "units" in e.attrs && "intercept" in e.attrs && "slope" in e.attrs && e.kids == [] then
      Some(Linear(e.attrs["units"], e.attrs["intercept"], e.attrs["slope"]))
    else if e.tag == "poly" && "units" in e.attrs && "coefs" in e.attrs && e.kids == [] then
      Some(Poly(e.attrs["units"], e.attrs["coefs"]))
    else if e.tag == "poly" && "units" in e.attrs && "coefs" !in e.attrs && |e.kids| == 1 && e.kids[0].tag == "calfile" &&
            "path" in e.kids[0].attrs && "file" in e.kids[0].attrs then
      Some(PolyCalFile(e.attrs["units"], e.kids[0].attrs["path"], e.kids[0].attrs["file"]))
    else None
  }

  /** Every calibration the editor writes reads back as itself. */
  lemma CalElemRoundTrip(c: CalibrationElement)
    ensures CalOf(CalElem(c)) == Some(c)
  {
  }

  /** The gain parameter's value: the programmable gain in decimal. */
  function GainText(g: GainBipolar): string { IntToString(g.gain) }

  /** The bipolar parameter's value. */
  function BipolarText(g: GainBipolar): string { if g.bipolar == 1 then "true" else "false" }

  /** The gain and bipolar texts read back as the pair they were written from. */
  lemma GainBipolarTextReadsBack(g: GainBipolar)
    requires SupportedRange(g)
    ensures GainBipolar(Atoi(GainText(g)), if BipolarText(g) == "true" then 1 else 0) == g
  {
    AtoiOfIntToString(g.gain);
  }

  /**
   * The variable element insertA2DVariable builds: name, long name and
   * units "V"; the channel, gain and bipolar parameters; the calibration.
   */
  function A2DVariableElem(name: string, longName: string, channel: string, g: GainBipolar, cal: CalibrationElement): Elem
  {
    Elem("variable", map["name" := name, "longname" := longName, "units" := "V"],
         [Param("channel", channel, "int"), Param("gain", GainText(g), "float"), Param("bipolar", BipolarText(g), "bool"),
          CalElem(cal)])
  }

  /**
   * The element of a variable added with a voltage range reads back, through
   * its gain and bipolar parameters, as that same range, and through its
   * channel parameter as the channel chosen.
   */
  lemma A2DVariableElemReadsBack(name: string, longName: string, channel: string, volts: string, cal: CalibrationElement)
    requires GainBipolarOf(volts).Ok?
    ensures var e := A2DVariableElem(name, longName, channel, GainBipolarOf(volts).value, cal);
      && Atoi(e.kids[0].attrs["value"]) == Atoi(channel)
      && VoltsLabel(GainBipolar(Atoi(e.kids[1].attrs["value"]), if e.kids[2].attrs["value"] == "true" then 1 else 0)) == Ok(volts)
      && CalOf(e.kids[3]) == Some(cal)
  {
    var g := GainBipolarOf(volts).value;
    GainBipolarTextReadsBack(g);
    VoltsRoundTrip(g, volts);
    CalElemRoundTrip(cal);
  }

  /**
   * The calibration insertA2DVariable chooses: from the XML values after the
   * marker, or a calfile reference to the first entry of the calibration
   * directory named after the variable or its prefix, or to name + ".dat"
   * when there is none.
   */
  predicate CalChosen(c: CalibrationElement, cals: seq<string>, units: string, name: string, pfx: string,
                      siteName: string, engCalFiles: seq<string>)
  {
    && (XmlCals(cals) && |cals| >= 4 ==>
          && (cals[3] != "" ==> c == Poly(units, PolyCoefsOf(cals[1..])))
          && (cals[3] == "" ==> c == Linear(units, cals[1], cals[2])))
    && (!XmlCals(cals) ==>
          && c.PolyCalFile? && c == VarCalFileElem(c.file, units, siteName)
          && ((forall i :: 0 <= i < |engCalFiles| ==> !MatchesVariable(engCalFiles[i], name, pfx)) ==> c.file == name + DAT)
          && ((exists i :: 0 <= i < |engCalFiles| && MatchesVariable(engCalFiles[i], name, pfx)) ==>
                exists i :: 0 <= i < |engCalFiles| && engCalFiles[i] == c.file && MatchesVariable(engCalFiles[i], name, pfx) &&
                            forall j :: 0 <= j < i ==> !MatchesVariable(engCalFiles[j], name, pfx)))
  }

  /** The sample tags of the variable items, for frames. */
  function TagSet(childTags: seq<SampleTag?>): set<SampleTag>
  {
    set i | 0 <= i < |childTags| && childTags[i] != null :: childTags[i]
  }

  /**
   * The outcome of attaching a variable: nidas's complaint about the
   * variable element as it is; an InvalidParameter complaint of the
   * validation as it is; any other as an internal error.
   */
  function AttachOutcome(varFromDom: Result<Variable>, siteValidation: Outcome): (r: Outcome)
    ensures r.Pass? <==> varFromDom.Ok? && siteValidation.Pass?
    ensures r.Fail? ==> r.error.kind == InvalidParameter || r.error.kind == InternalProcessing ||
                        (varFromDom.Err? && r.error == varFromDom.error)
    ensures varFromDom.Ok? && siteValidation.Fail? ==> r.Fail? && (r.Fails(InvalidParameter) <==> siteValidation.Fails(InvalidParameter))
  {
    if varFromDom.Err? then Fail(varFromDom.error)
    else if siteValidation.Fails(InvalidParameter) then siteValidation
    else if siteValidation.Fail? then Fail(Internal("Caught unexpected error trying to add A2D Variable to model."))
    else Pass
  }

  /** Whether a failed attach undoes the sample: always, except after a complaint of nidas about the variable that is not InvalidParameter. */
  predicate Undone(varFromDom: Result<Variable>, r: Outcome) {
    r.Fail? && !(varFromDom.Err? && !varFromDom.Fails(InvalidParameter))
  }

  /**
   * The sensor's samples and the sensor element's children (`samples`,
   * `children`) against what they were before the sample was found
   * (`samples0`, `children0`): a created sample and its element were
   * appended and were not there before; a joined one changed nothing.
   */
  predicate SampleAdded(created: bool, samples0: seq<SampleTag>, samples: seq<SampleTag>, tag: SampleTag,
                        children0: seq<Node>, children: seq<Node>, sampleNode: Node)
  {
    if created then
      samples == samples0 + [tag] && tag !in samples0 && children == children0 + [sampleNode] && sampleNode !in children0
    else
      samples == samples0 && children == children0
  }

  /** The scan of insertA2DVariable completes: the sensor is analog, the rate reads as a number, every child is an A2D variable item. */
  predicate Scanned(sensor: DSMSensor, childTags: seq<SampleTag?>, sampleRate: string) {
    sensor.isAnalog && ParseUnsigned(sampleRate).Some? && null !in childTags
  }

  /**
   * Why there is no sample for the variable, if there is none: the joinable
   * sample has no element, or nidas complained about the new one.
   */
  function SampleError(joinable: SampleTag?, sampleNodeFound: Node?, sampleFromDom: Result<real>): (r: Option<Exception>)
    ensures joinable != null ==> (r.None? <==> sampleNodeFound != null)
    ensures joinable == null ==> (r.None? <==> sampleFromDom.Ok?) && (r.Some? ==> r.value == sampleFromDom.error)
  {
    if joinable != null then
      if sampleNodeFound == null then Some(Internal("null sample DOM node")) else None
    else if sampleFromDom.Err? then Some(sampleFromDom.error)
    else None
  }

  /**
   * The outcome and the channel, calibration and missing-file bookkeeping
   * of insertA2DVariable after the scan, from the gains (`gains0`) and the
   * missing list (`missing0`) before it to `gains` and `missing`: no sample (`sampleError`) gives its
   * error and changes nothing; then an unknown voltage range is an internal
   * error that changes nothing; otherwise the channel takes the range's gain
   * and bipolar flag, the calibration is the one CalChosen names, a missing
   * calibration file is noted, and the outcome is AttachOutcome's.
   */
  predicate Placed(sampleError: Option<Exception>, pfx: string, sfx: string, volts: string, channel: string, units: string,
                   cals: seq<string>, siteName: string, varFromDom: Result<Variable>, siteValidation: Outcome,
                   engCalFiles: seq<string>, r: Outcome, cal: CalibrationElement,
                   gains0: map<int, (int, int)>, gains: map<int, (int, int)>, missing0: seq<string>, missing: seq<string>)
  {
    var name := VariableName(pfx, sfx);
    && (sampleError.Some? ==>
          r == Fail(sampleError.value) && gains == gains0 && missing == missing0)
    && (sampleError.None? && !IsVoltsLabel(volts) ==>
          && r == Fail(Internal("Voltage choice not found in Document if/else block!"))
          && gains == gains0 && missing == missing0)
    && (sampleError.None? && IsVoltsLabel(volts) ==>
          && r == AttachOutcome(varFromDom, siteValidation)
          && gains == gains0[Atoi(channel) := (GainBipolarOf(volts).value.gain, GainBipolarOf(volts).value.bipolar)]
          && CalChosen(cal, cals, units, name, pfx, siteName, engCalFiles)
          && (!XmlCals(cals) && (forall i :: 0 <= i < |engCalFiles| ==> !MatchesVariable(engCalFiles[i], name, pfx)) ==>
                missing == Noted(missing0, name))
          && (XmlCals(cals) || (exists i :: 0 <= i < |engCalFiles| && MatchesVariable(engCalFiles[i], name, pfx)) ==>
                missing == missing0))
  }

  class Document {
    /** Whether the engineering calibration directory could be opened. */
    var engCalDirExists: bool
    /** The engineering calibration files found, underscored names first. */
    var engCalFiles: seq<string>
    /** The variable names for which no engineering calibration file was found, each once. */
    var missingEngCalFiles: seq<string>

    constructor ()
      ensures !engCalDirExists && engCalFiles == [] && missingEngCalFiles == []
    {
      engCalDirExists := false;
      engCalFiles := [];
      missingEngCalFiles := [];
    }

    /**
     * The directory scan of parseFile: no listing when opendir fails;
     * otherwise every entry containing ".dat" is kept, in front when it also
     * contains "_", at the back otherwise.
     */
    method ReadEngCalFiles(listing: Option<seq<string>>)
      modifies this
      ensures listing.None? ==> !engCalDirExists && engCalFiles == old(engCalFiles)
      ensures listing.Some? ==> engCalDirExists && engCalFiles == ReadInto(old(engCalFiles), listing.value)
      ensures missingEngCalFiles == old(missingEngCalFiles)
    {
      if listing.None? {
        engCalDirExists := false;
        return;
      }
      engCalDirExists := true;
      var entries := listing.value;
      var i := 0;
      while i < |entries|
        invariant 0 <= i <= |entries|
        invariant engCalFiles == ReadInto(old(engCalFiles), entries[..i])
        invariant engCalDirExists && missingEngCalFiles == old(missingEngCalFiles)
      {
        assert entries[..i + 1][..i] == entries[..i];
        var name := entries[i];
        if Contains(name, DAT) {
          if Contains(name, "_") {
            engCalFiles := [name] + engCalFiles;
          } else {
            engCalFiles := engCalFiles + [name];
          }
        }
        i := i + 1;
      }
      assert entries[..i] == entries;
    }

    /** addMissingEngCalFile: the name is appended unless the list already holds it. */
    method AddMissingEngCalFile(filename: string)
      modifies this
      ensures missingEngCalFiles == Noted(old(missingEngCalFiles), filename)
      ensures engCalFiles == old(engCalFiles) && engCalDirExists == old(engCalDirExists)
    {
      var inList := false;
      var i := 0;
      while i < |missingEngCalFiles|
        invariant 0 <= i <= |missingEngCalFiles|
        invariant !inList ==> filename !in missingEngCalFiles[..i]
        invariant inList ==> filename in missingEngCalFiles
      {
        if missingEngCalFiles[i] == filename {
          inList := true;
          break;
        }
        i := i + 1;
      }
      if !inList {
        assert missingEngCalFiles[..i] == missingEngCalFiles;
        missingEngCalFiles := missingEngCalFiles + [filename];
      }
    }

    /** The selection loop of updateSensor and updateDSM: the last valid index in column 0 wins. */
    method SelectedItem(indexList: seq<ModelIndex>) returns (item: Option<Items.NidasItem>)
      ensures item == LastSelected(indexList)
    {
      item := None;
      var i := 0;
      while i < |indexList|
        invariant 0 <= i <= |indexList|
        invariant item == LastSelected(indexList[..i])
      {
        assert indexList[..i + 1][..i] == indexList[..i];
        var index := indexList[i];
        if index.column == 0 && index.valid {
          item := Some(index.item);
        }
        i := i + 1;
      }
      assert indexList[..i] == indexList;
    }

    /**
     * updateSensorDOM: devicename and id removed and set again, the suffix
     * removed when present and set again only when non-empty.
     */
    method UpdateSensorDOM(sensorNode: Node?, device: string, lcId: string, sfx: string) returns (r: Outcome)
      modifies sensorNode
      ensures sensorNode == null ==> r == Fail(Internal("null sensor DOM node"))
      ensures sensorNode != null && !sensorNode.isElement ==>
                r == Fail(Internal("Sensor DOM Node is not an Element Node!")) && sensorNode.attrs == old(sensorNode.attrs)
      ensures sensorNode != null && sensorNode.isElement ==>
                r == Pass && sensorNode.attrs == UpdatedSensorAttrs(old(sensorNode.attrs), device, lcId, sfx)
      ensures sensorNode != null ==> sensorNode.children == old(sensorNode.children)
    {
      if sensorNode == null {
        return Fail(Internal("null sensor DOM node"));
      }
      if !sensorNode.isElement {
        return Fail(Internal("Sensor DOM Node is not an Element Node!"));
      }
      sensorNode.RemoveAttribute("devicename");
      sensorNode.SetAttribute("devicename", device);
      sensorNode.RemoveAttribute("id");
      sensorNode.SetAttribute("id", lcId);
      if "suffix" in sensorNode.attrs {
        sensorNode.RemoveAttribute("suffix");
      }
      assert sensorNode.attrs == Reset(Reset(old(sensorNode.attrs), "devicename", device), "id", lcId) - {"suffix"};
      if sfx != "" {
        sensorNode.SetAttribute("suffix", sfx);
      }
      return Pass;
    }

    /**
     * updateSensor: the root must be a DSM item with a DSMConfig and the
     * selection a sensor item with an element node. The element takes the
     * new values and nidas reads it back (`verdict`); on an
     * InvalidParameter or InternalProcessing complaint the sensor's old
     * device name, id and suffix are written back, nidas reads the element
     * again (`reread`) and the complaint is passed on.
     * `found` is what the sensor item's findDOMNode would return.
     */
    method UpdateSensor(root: Items.NidasItem?, indexList: seq<ModelIndex>, found: Node?,
                        device: string, lcId: string, sfx: string, verdict: Outcome, reread: Outcome)
      returns (r: Outcome)
      modifies SensorUpdateFrame(indexList, found)
      ensures root == null || !root.nidasObject.DsmObject? ==> r == Fail(Internal("Current root index is not a DSM."))
      ensures root != null && root.nidasObject.DsmObject? && !DsmRoot(root) ==> r == Fail(Internal("null DSMConfig"))
      ensures DsmRoot(root) && LastSelected(indexList).None? ==> r == Fail(Internal("null DSMConfig"))
      ensures DsmRoot(root) && LastSelected(indexList).Some? && !LastSelected(indexList).value.nidasObject.SensorObject? ==>
                r == Fail(Internal("Sensor Item not selected"))
      ensures DsmRoot(root) && LastSelected(indexList).Some? && LastSelected(indexList).value.nidasObject.SensorObject? ==>
                var item := LastSelected(indexList).value;
                var sensor := item.nidasObject.sensor;
                var node := if old(item.domNode) != null then old(item.domNode) else found;
                item.domNode == node &&
                (node == null ==> r == Fail(Internal("null sensor DOM node"))) &&
                (node != null && !node.isElement ==> r == Fail(Internal("Sensor DOM Node is not an Element Node!"))) &&
                (node != null && node.isElement ==>
                  r == UpdateOutcome(verdict, reread) &&
                  node.attrs == SensorAttrsAfterUpdate(old(node.attrs), device, lcId, sfx,
                                                       old(sensor.deviceName), old(sensor.sensorId), old(sensor.suffix), verdict))
    {
      if root == null || !root.nidasObject.DsmObject? {
        return Fail(Internal("Current root index is not a DSM."));
      }
      if root.nidasObject.dsm == null {
        return Fail(Internal("null DSMConfig"));
      }
      var selected := SelectedItem(indexList);
      if selected.None? {
        return Fail(Internal("null DSMConfig"));
      }
      var item := selected.value;
      if !item.nidasObject.SensorObject? {
        return Fail(Internal("Sensor Item not selected"));
      }
      var sensor := item.nidasObject.sensor;
      var currDevName, currSensorId, currSuffix := sensor.deviceName, sensor.sensorId, sensor.suffix;
      var sensorNode := item.GetDOMNode(found);
      r := UpdateSensorDOM(sensorNode, device, lcId, sfx);
      if r.Fail? {
        return;
      }
      if RolledBack(verdict) {
        var undone := UpdateSensorDOM(sensorNode, currDevName, NatToString(currSensorId), currSuffix);
        if reread.Fail? {
          return reread;
        }
      }
      return verdict;
    }

    /** updateDSMDOM: name, id and location each removed and set again. */
    method UpdateDSMDOM(dsmNode: Node?, dsmName: string, dsmId: string, dsmLocation: string) returns (r: Outcome)
      modifies dsmNode
      ensures dsmNode == null ==> r == Fail(Internal("null DSM DOM node!"))
      ensures dsmNode != null && !dsmNode.isElement ==>
                r == Fail(Internal("DSM DOM Node is not an Element Node!")) && dsmNode.attrs == old(dsmNode.attrs)
      ensures dsmNode != null && dsmNode.isElement ==>
                r == Pass && dsmNode.attrs == UpdatedDsmAttrs(old(dsmNode.attrs), dsmName, dsmId, dsmLocation)
      ensures dsmNode != null ==> dsmNode.children == old(dsmNode.children)
    {
      if dsmNode == null {
        return Fail(Internal("null DSM DOM node!"));
      }
      if !dsmNode.isElement {
        return Fail(Internal("DSM DOM Node is not an Element Node!"));
      }
      dsmNode.RemoveAttribute("name");
      dsmNode.SetAttribute("name", dsmName);
      dsmNode.RemoveAttribute("id");
      dsmNode.SetAttribute("id", dsmId);
      dsmNode.RemoveAttribute("location");
      dsmNode.SetAttribute("location", dsmLocation);
      return Pass;
    }

    /**
     * updateDSM: the selection must be a DSM item. Its element takes the new
     * values; nidas reads it back and validates the site; on an
     * InvalidParameter or InternalProcessing complaint the DSM's old name,
     * id and location are written back and nidas reads the element again.
     * `dsmNode` is what the DSM item's getDOMNode returns.
     */
    method UpdateDSM(indexList: seq<ModelIndex>, dsmNode: Node?, dsmName: string, dsmId: string, dsmLocation: string,
                     fromDom: Outcome, siteValidation: Outcome, reread: Outcome)
      returns (r: Outcome)
      requires LastSelected(indexList).Some? && LastSelected(indexList).value.nidasObject.DsmObject? ==>
                 LastSelected(indexList).value.nidasObject.dsm != null
      modifies DsmUpdateFrame(indexList, dsmNode)
      ensures LastSelected(indexList).None? ==> r == Fail(Internal("null DSMConfig"))
      ensures LastSelected(indexList).Some? && !LastSelected(indexList).value.nidasObject.DsmObject? ==>
                r == Fail(Internal("DSM Item not selected."))
      ensures LastSelected(indexList).Some? && LastSelected(indexList).value.nidasObject.DsmObject? ==>
                var dsm := LastSelected(indexList).value.nidasObject.dsm;
                (dsmNode == null ==> r == Fail(Internal("null DSM DOM node!"))) &&
                (dsmNode != null && !dsmNode.isElement ==> r == Fail(Internal("DSM DOM Node is not an Element Node!"))) &&
                (dsmNode != null && dsmNode.isElement ==>
                  r == UpdateOutcome(Both(fromDom, siteValidation), reread) &&
                  dsmNode.attrs == DsmAttrsAfterUpdate(old(dsmNode.attrs), dsmName, dsmId, dsmLocation,
                                                       old(dsm.name), old(dsm.id), old(dsm.location), Both(fromDom, siteValidation)))
    {
      var selected := SelectedItem(indexList);
      if selected.None? {
        return Fail(Internal("null DSMConfig"));
      }
      var item := selected.value;
      if !item.nidasObject.DsmObject? {
        return Fail(Internal("DSM Item not selected."));
      }
      var dsm := item.nidasObject.dsm;
      var currName, currId, currLocation := dsm.name, dsm.id, dsm.location;
      r := UpdateDSMDOM(dsmNode, dsmName, dsmId, dsmLocation);
      if r.Fail? {
        return;
      }
      var verdict := Both(fromDom, siteValidation);
      if RolledBack(verdict) {
        var undone := UpdateDSMDOM(dsmNode, currName, NatToString(currId), currLocation);
        if reread.Fail? {
          return reread;
        }
      }
      return verdict;
    }

    /**
     * createSampleElement: a <sample> with the id and rate given and, unless
     * 500 / rate (C division) is 1, a boxcar filter and its point count.
     */
    method CreateSampleElement(sampleId: string, sampleRate: string) returns (sampleElem: Node, ghost nodes: set<Node>)
      requires Atoi(sampleRate) != 0
      ensures fresh(nodes)
      ensures Realizes(sampleElem, SampleElem(sampleId, sampleRate), nodes)
    {
      sampleElem := new Node.Element("sample", map[], []);
      sampleElem.SetAttribute("id", sampleId);
      sampleElem.SetAttribute("rate", sampleRate);
      var sRate := Atoi(sampleRate);
      var nPts := if sRate > 0 then 500 / sRate else -(500 / -sRate);
      ghost var params := AppendBoxcar(sampleElem, nPts);
      nodes := {sampleElem} + params;
      ghost var e := SampleElem(sampleId, sampleRate);
      assert nPts == BoxcarPoints(sRate);
      forall i | 0 <= i < |e.kids| ensures Realizes(sampleElem.children[i], e.kids[i], nodes) {
        RealizesGrows(sampleElem.children[i], e.kids[i], params, {sampleElem});
        assert params + {sampleElem} == nodes;
      }
      RealizesParent(sampleElem, e, nodes);
    }

    /** The boxcar filter parameters of a new sample, appended unless nPts is 1. */
    method AppendBoxcar(sampleElem: Node, nPts: int) returns (ghost params: set<Node>)
      requires sampleElem.children == []
      modifies sampleElem
      ensures fresh(params) && sampleElem.attrs == old(sampleElem.attrs)
      ensures nPts == 1 ==> sampleElem.children == []
      ensures nPts != 1 ==>
        && |sampleElem.children| == 2
        && Realizes(sampleElem.children[0], Param("filter", "boxcar", "string"), params)
        && Realizes(sampleElem.children[1], Param("numpoints", IntToString(nPts), "int"), params)
    {
      params := {};
      if nPts != 1 {
        var filter := NewParameter("filter", "boxcar", "string");
        var numpoints := NewParameter("numpoints", IntToString(nPts), "int");
        sampleElem.AppendChild(filter);
        sampleElem.AppendChild(numpoints);
        params := {filter, numpoints};
        RealizesLeaf(filter, Param("filter", "boxcar", "string"), params);
        RealizesLeaf(numpoints, Param("numpoints", IntToString(nPts), "int"), params);
      }
    }

    /** A <parameter> element with its name, value and type set. */
    method NewParameter(name: string, value: string, kind: string) returns (p: Node)
      ensures fresh(p) && p.isElement && p.nodeName == "parameter" && p.children == []
      ensures p.attrs == Param(name, value, kind).attrs
    {
      p := new Node.Element("parameter", map[], []);
      p.SetAttribute("name", name);
      p.SetAttribute("value", value);
      p.SetAttribute("type", kind);
    }

    /**
     * addDSM under the current root, which must be a site item: the id is
     * validated against the site's DSMs, a <dsm> element with its IRIG
     * sensor and its output is built, and once nidas has read it
     * (`fromDom`) the new DSMConfig, holding the sensor nidas made of the
     * IRIG child (`irig`), joins the site and the element the site's node.
     * `siteNode` is what the site item's getDOMNode returns.
     */
    method AddDSM(root: Items.NidasItem?, dsmName: string, dsmId: string, dsmLocation: string,
                  siteNode: Node?, fromDom: Outcome, irig: DSMSensor)
      returns (r: Outcome, ghost added: DSMConfig?, ghost dsmElem: Node?, ghost nodes: set<Node>)
      requires dsmId != ""
      modifies if root != null && root.nidasObject.SiteObject? then {root.nidasObject.site} else {}, siteNode
      ensures root == null || !root.nidasObject.SiteObject? ==> r == Fail(Internal("Current root index is not a Site."))
      ensures root != null && root.nidasObject.SiteObject? ==>
                var site := root.nidasObject.site;
                var dsms := old(site.dsms);
                (r.Fail? ==> site.dsms == dsms && (siteNode != null ==> siteNode.children == old(siteNode.children))) &&
                (ParseUnsigned(dsmId).None? ==> r.Fails(InvalidParameter)) &&
                (ParseUnsigned(dsmId).Some? && !old(Consistent(site.dsms)) ==> r.Fails(InternalProcessing)) &&
                (r.Pass? <==> old(DsmAccepted(site.dsms, dsmName, dsmId)) && siteNode != null && fromDom.Pass?)
      ensures r.Pass? ==>
                var site := root.nidasObject.site;
                added != null && fresh(added) && site.dsms == old(site.dsms) + [added] &&
                NewDsm(added, site, dsmName, ParseUnsigned(dsmId).value, dsmLocation) && added.sensors == [irig] &&
                Consistent(site.dsms) &&
                dsmElem != null && siteNode.children == old(siteNode.children) + [dsmElem] &&
                fresh(nodes) && Realizes(dsmElem, DsmElem(dsmName, dsmId, dsmLocation), nodes)
    {
      nodes, added, dsmElem := {}, null, null;
      if root == null || !root.nidasObject.SiteObject? {
        return Fail(Internal("Current root index is not a Site.")), added, dsmElem, nodes;
      }
      var site := root.nidasObject.site;
      var validated := ValidateDsmInfo(site, dsmName, dsmId);
      if validated.Err? {
        return Fail(validated.error), added, dsmElem, nodes;
      }
      var iDsmId := validated.value;
      assert DsmAccepted(site.dsms, dsmName, dsmId);
      DsmAcceptanceKeepsUniqueness(DsmIds(site.dsms), DsmNames(site.dsms), iDsmId, dsmName);
      if siteNode == null {
        return Fail(Internal("null site DOM node")), added, dsmElem, nodes;
      }
      r, added, dsmElem, nodes := JoinSite(site, siteNode, dsmName, dsmId, iDsmId, dsmLocation, fromDom, irig);
    }

    /** site->addDSMConfig(dsm) for a DSM whose id and name are new: the site's list stays consistent. */
    method AdmitDsm(site: Site, dsm: DSMConfig)
      requires Distinct(DsmIds(site.dsms) + [dsm.id]) && Distinct(DsmNames(site.dsms) + [dsm.name])
      modifies site
      ensures site.dsms == old(site.dsms) + [dsm] && Consistent(site.dsms)
    {
      ghost var dsms := site.dsms;
      site.AddDSMConfig(dsm);
      assert DsmIds(dsms) == old(DsmIds(site.dsms)) && DsmNames(dsms) == old(DsmNames(site.dsms));
      ConsistentAppend(dsms, dsm);
    }

    /** new DSMConfig with its site, name, id and location set. */
    method NewDSMConfig(site: Site, dsmName: string, iDsmId: nat, dsmLocation: string) returns (dsm: DSMConfig)
      ensures fresh(dsm) && NewDsm(dsm, site, dsmName, iDsmId, dsmLocation) && dsm.sensors == []
    {
      dsm := new DSMConfig(site);
      dsm.name := dsmName;
      dsm.id := iDsmId;
      dsm.location := dsmLocation;
    }

    /**
     * The second half of addDSM, once the id is accepted: the DSMConfig is
     * set up from the values of the element and, unless nidas rejects the
     * element, takes the sensor nidas made of the IRIG child and joins the
     * site while the element joins the site's node. The
     * source builds the element first; a detached element is seen by nothing
     * but the foreign fromDOMElement, so the model builds it where it is
     * attached.
     */
    method JoinSite(site: Site, siteNode: Node, dsmName: string, dsmId: string, iDsmId: nat, dsmLocation: string,
                    fromDom: Outcome, irig: DSMSensor)
      returns (r: Outcome, ghost added: DSMConfig?, ghost dsmElem: Node?, ghost nodes: set<Node>)
      requires Distinct(DsmIds(site.dsms) + [iDsmId]) && Distinct(DsmNames(site.dsms) + [dsmName])
      modifies site, siteNode
      ensures fromDom.Fail? ==> r == fromDom && site.dsms == old(site.dsms) && siteNode.children == old(siteNode.children)
      ensures fromDom.Pass? ==>
                r == Pass && added != null && fresh(added) && site.dsms == old(site.dsms) + [added] &&
                NewDsm(added, site, dsmName, iDsmId, dsmLocation) && added.sensors == [irig] && Consistent(site.dsms) &&
                dsmElem != null && siteNode.children == old(siteNode.children) + [dsmElem] &&
                fresh(nodes) && Realizes(dsmElem, DsmElem(dsmName, dsmId, dsmLocation), nodes)
    {
      added, dsmElem, nodes := null, null, {};
      var dsm := NewDSMConfig(site, dsmName, iDsmId, dsmLocation);
      if fromDom.Fail? {
        return fromDom, added, dsmElem, nodes;
      }
      dsm.AddSensor(irig);
      AdmitDsm(site, dsm);
      var elem;
      elem, nodes := AppendBuilt(siteNode, DsmElem(dsmName, dsmId, dsmLocation));
      return Pass, dsm, elem, nodes;
    }

    /**
     * addSensor: the root must be a DSM item with a DSMConfig, and a sensor
     * that is not analog must be in the catalog. A new element is made for
     * the sensor; nidas makes a sensor of it (`fromElement`), which must be
     * new to the DSM and joins it; dsm, sensor and site are validated
     * (`validation`). An InvalidParameter complaint takes the sensor out of
     * the DSM again and is passed on; any other complaint is passed on and
     * leaves the sensor in the DSM. Otherwise the element joins the DSM's
     * node. `found` is what the DSM item's findDOMNode would return.
     */
    method AddSensor(root: Items.NidasItem?, catalog: Option<map<string, Node>>, found: Node?,
                     sensorIdName: string, device: string, lcId: string, sfx: string,
                     a2dTempSfx: string, a2dSNFname: string, pmsSN: string, resltn: string,
                     fromElement: DSMSensor?, validation: Outcome)
      returns (r: Outcome, ghost elem: Node?, ghost nodes: set<Node>)
      modifies AddSensorFrame(root, found)
      ensures root == null || !root.nidasObject.DsmObject? ==> r == Fail(Internal("Current root index is not a DSM."))
      ensures root != null && root.nidasObject.DsmObject? && !DsmRoot(root) ==> r == Fail(Internal("null DSMConfig"))
      ensures DsmRoot(root) && SensorTag(catalog, sensorIdName).None? ==> r == Fail(Internal("null sensor DOMElement"))
      ensures DsmRoot(root) && SensorTag(catalog, sensorIdName).Some? ==>
                var dsm := root.nidasObject.dsm;
                var node := if old(root.domNode) != null then old(root.domNode) else found;
                root.domNode == node &&
                (node == null ==> r == Fail(Internal("null dsm DOM node"))) &&
                (node != null && fromElement == null ==> r == Fail(Internal("null sensor(FromDOMElement)"))) &&
                (node != null && fromElement != null && fromElement in old(dsm.sensors) ==>
                   r == Fail(Internal("Found duplicate sensor unexpectedly"))) &&
                (node != null && fromElement != null && fromElement !in old(dsm.sensors) ==>
                   (validation.Fail? ==> r == validation && node.children == old(node.children)) &&
                   (validation.Fails(InvalidParameter) ==> dsm.sensors == old(dsm.sensors)) &&
                   (validation.Fail? && !validation.Fails(InvalidParameter) ==> dsm.sensors == old(dsm.sensors) + [fromElement]) &&
                   (validation.Pass? ==>
                      r == Pass && dsm.sensors == old(dsm.sensors) + [fromElement] &&
                      elem != null && node.children == old(node.children) + [elem] && fresh(nodes) &&
                      Realizes(elem, SensorElem(SensorTag(catalog, sensorIdName).value, sensorIdName, device, lcId, sfx,
                                                a2dTempSfx, a2dSNFname, pmsSN, resltn), nodes)))
      ensures r.Fail? && DsmRoot(root) && (fromElement == null || fromElement in old(root.nidasObject.dsm.sensors)) ==>
                root.nidasObject.dsm.sensors == old(root.nidasObject.dsm.sensors)
      ensures DsmRoot(root) ==> var dsm := root.nidasObject.dsm;
                dsm.name == old(dsm.name) && dsm.id == old(dsm.id) && dsm.location == old(dsm.location)
    {
      elem, nodes := null, {};
      if root == null || !root.nidasObject.DsmObject? {
        return Fail(Internal("Current root index is not a DSM.")), elem, nodes;
      }
      var dsm := root.nidasObject.dsm;
      if dsm == null {
        return Fail(Internal("null DSMConfig")), elem, nodes;
      }
      var tag := SensorTag(catalog, sensorIdName);
      if tag.None? {
        return Fail(Internal("null sensor DOMElement")), elem, nodes;
      }
      var dsmNode := root.GetDOMNode(found);
      if dsmNode == null {
        return Fail(Internal("null dsm DOM node")), elem, nodes;
      }
      if fromElement == null {
        return Fail(Internal("null sensor(FromDOMElement)")), elem, nodes;
      }
      if fromElement in dsm.sensors {
        return Fail(Internal("Found duplicate sensor unexpectedly")), elem, nodes;
      }
      r, elem, nodes := JoinDsm(dsm, dsmNode, fromElement, validation,
                                SensorElem(tag.value, sensorIdName, device, lcId, sfx, a2dTempSfx, a2dSNFname, pmsSN, resltn));
    }

    /**
     * The second half of addSensor, once nidas has made a new sensor: it
     * joins the DSM and is validated; on an InvalidParameter complaint it
     * leaves again, on any other complaint it stays, and otherwise the
     * element `e` joins the DSM's node. The source builds the element first;
     * a detached element is seen by nothing but the foreign
     * sensorFromDOMElement, so the model builds it where it is attached.
     */
    method JoinDsm(dsm: DSMConfig, dsmNode: Node, sensor: DSMSensor, validation: Outcome, e: Elem)
      returns (r: Outcome, ghost elem: Node?, ghost nodes: set<Node>)
      requires sensor !in dsm.sensors
      modifies dsm, dsmNode
      ensures dsm.name == old(dsm.name) && dsm.id == old(dsm.id) && dsm.location == old(dsm.location)
      ensures validation.Fail? ==> r == validation && dsmNode.children == old(dsmNode.children)
      ensures validation.Fails(InvalidParameter) ==> dsm.sensors == old(dsm.sensors)
      ensures validation.Fail? && !validation.Fails(InvalidParameter) ==> dsm.sensors == old(dsm.sensors) + [sensor]
      ensures validation.Pass? ==>
                r == Pass && dsm.sensors == old(dsm.sensors) + [sensor] &&
                elem != null && dsmNode.children == old(dsmNode.children) + [elem] && fresh(nodes) && Realizes(elem, e, nodes)
    {
      elem, nodes := null, {};
      dsm.AddSensor(sensor);
      if validation.Fails(InvalidParameter) {
        dsm.RemoveSensor(sensor);
        WithoutAppended(old(dsm.sensors), sensor);
        return validation, elem, nodes;
      }
      if validation.Fail? {
        return validation, elem, nodes;
      }
      var child;
      child, nodes := AppendBuilt(dsmNode, e);
      return Pass, child, nodes;
    }
      /**
     * The calibration insertA2DVariable gives a new variable: addCalibElem
     * on the values after the "XML:" marker; otherwise a calfile reference
     * to the variable's entry of the calibration directory, and when there is
     * none, to name + ".dat", with the name noted as missing.
     */
    method ChooseCalibration(cals: seq<string>, units: string, name: string, pfx: string, siteName: string)
      returns (c: CalibrationElement)
      requires XmlCals(cals) ==> |cals| >= 4
      modifies this
      ensures CalChosen(c, cals, units, name, pfx, siteName, engCalFiles)
      ensures engCalFiles == old(engCalFiles) && engCalDirExists == old(engCalDirExists)
      ensures !XmlCals(cals) && (forall i :: 0 <= i < |engCalFiles| ==> !MatchesVariable(engCalFiles[i], name, pfx)) ==>
                missingEngCalFiles == Noted(old(missingEngCalFiles), name)
      ensures XmlCals(cals) || (exists i :: 0 <= i < |engCalFiles| && MatchesVariable(engCalFiles[i], name, pfx)) ==>
                missingEngCalFiles == old(missingEngCalFiles)
    {
      if XmlCals(cals) {
        c := CalibElem(cals[1..], units);
      } else {
        var found := FindEngCalFile(engCalFiles, name, pfx);
        if found.None? {
          AddMissingEngCalFile(name);
          c := VarCalFileElem(name + DAT, units, siteName);
        } else {
          c := VarCalFileElem(found.value, units, siteName);
        }
      }
    }

    /**
     * The rollback of a sample insertA2DVariable created: the tag leaves the
     * sensor, the element the sensor's node, which gives back the samples and
     * children from before the sample was created.
     */
    method UndoSample(sensor: DSMSensor, sensorNode: Node, tag: SampleTag, sampleNode: Node, created: bool,
                      ghost samples0: seq<SampleTag>, ghost children0: seq<Node>)
      requires SampleAdded(created, samples0, sensor.samples, tag, children0, sensorNode.children, sampleNode)
      modifies sensor, sensorNode
      ensures created ==> sensor.samples == Without(old(sensor.samples), tag) &&
                          sensorNode.children == Without(old(sensorNode.children), sampleNode)
      ensures sensor.samples == samples0 && sensorNode.children == children0
      ensures sensor.gainBipolar == old(sensor.gainBipolar)
    {
      if created {
        sensor.RemoveSampleTag(tag);
        sensorNode.RemoveChild(sampleNode);
        WithoutAppended(samples0, tag);
        WithoutAppended(children0, sampleNode);
      }
    }

    /**
     * A new sample with the given id for a variable no sample joins: its
     * element, which createSampleElement builds, nidas reads (`sampleFromDom`:
     * the rate it reads, or its complaint); then the tag joins the sensor and
     * the element the sensor's node.
     */
    method NewSample(sensor: DSMSensor, sensorNode: Node, sampleId: nat, sampleRate: string, sampleFromDom: Result<real>)
      returns (r: Result<SampleTag>, sampleNode: Node?, ghost nodes: set<Node>)
      requires Atoi(sampleRate) != 0
      modifies sensor, sensorNode
      ensures sensor.gainBipolar == old(sensor.gainBipolar)
      ensures sampleFromDom.Err? ==>
                r == Err(sampleFromDom.error) && sensor.samples == old(sensor.samples) && sensorNode.children == old(sensorNode.children)
      ensures sampleFromDom.Ok? ==>
                && r.Ok? && sampleNode != null && fresh(r.value) && fresh(sampleNode)
                && r.value.sampleId == sampleId && r.value.rate == sampleFromDom.value && !r.value.hasTemperature
                && r.value.variables == []
                && sensor.samples == old(sensor.samples) + [r.value] && sensorNode.children == old(sensorNode.children) + [sampleNode]
                && fresh(nodes) && Realizes(sampleNode, SampleElem(NatToString(sampleId), sampleRate), nodes)
    {
      var sampleElem;
      sampleElem, nodes := CreateSampleElement(NatToString(sampleId), sampleRate);
      if sampleFromDom.Err? {
        // The tag fromDOMElement failed on never joined the sensor: removing it changes nothing.
        return Err(sampleFromDom.error), null, nodes;
      }
      var tag := new SampleTag(sampleId, sampleFromDom.value, false);
      sensor.AddSampleTag(tag);
      sensorNode.AppendChild(sampleElem);
      return Ok(tag), sampleElem, nodes;
    }

    /**
     * insertA2DVariable: a variable on an analog sensor's channel. The sample
     * rate must read as a number and every child item must be an A2D
     * variable item; the sample the variable joins is the last one of the
     * sensor's variables' samples with that rate that is not the A2D
     * temperature sample (`joinable`), or a new one (see PlaceVariable).
     * The arguments after `siteName` stand for what the nidas and item calls
     * would return: findSampleDOMNode, the new sample tag's fromDOMElement
     * (the rate it reads), the variable's fromDOMElement, and the site's
     * validate.
     */
    method InsertA2DVariable(sensor: DSMSensor, sensorNode: Node, childTags: seq<SampleTag?>,
                             pfx: string, sfx: string, longName: string, volts: string, channel: string,
                             sampleRate: string, units: string, cals: seq<string>, siteName: string,
                             sampleNodeFound: Node?, sampleFromDom: Result<real>, varFromDom: Result<Variable>,
                             siteValidation: Outcome)
      returns (r: Outcome, cal: CalibrationElement, ghost joinableAt: int, ghost joinable: SampleTag?,
               ghost varElem: Node?, ghost nodes: set<Node>)
      requires sampleRate != "" && ParseUnsigned(sampleRate) != Some(0)
      requires sampleNodeFound != sensorNode
      requires XmlCals(cals) ==> |cals| >= 4
      modifies this, sensor, sensorNode, sampleNodeFound, TagSet(childTags)
      ensures engCalFiles == old(engCalFiles) && engCalDirExists == old(engCalDirExists)
      ensures !sensor.isAnalog ==> r == Fail(Internal("Current root nidas element is not an AnalogSensor."))
      ensures sensor.isAnalog && ParseUnsigned(sampleRate).None? ==> r == Fail(Invalid("sample rate:" + sampleRate))
      ensures sensor.isAnalog && ParseUnsigned(sampleRate).Some? && null in childTags ==> r.Fails(InternalProcessing)
      ensures !Scanned(sensor, childTags, sampleRate) ==>
                && r.Fail? && sensor.samples == old(sensor.samples) && sensorNode.children == old(sensorNode.children)
                && sensor.gainBipolar == old(sensor.gainBipolar) && missingEngCalFiles == old(missingEngCalFiles)
      ensures Scanned(sensor, childTags, sampleRate) ==>
                && old(Allocators.LastJoinableAt(childTags, ParseUnsigned(sampleRate).value, joinableAt))
                && (joinable == null <==> joinableAt == -1)
                && (joinableAt >= 0 ==> joinable == childTags[joinableAt])
      ensures Scanned(sensor, childTags, sampleRate) ==>
                Placed(SampleError(joinable, sampleNodeFound, sampleFromDom), pfx, sfx, volts, channel, units, cals, siteName, varFromDom,
                     siteValidation, engCalFiles, r, cal, old(sensor.gainBipolar), sensor.gainBipolar,
                     old(missingEngCalFiles), missingEngCalFiles)
      ensures r.Fail? ==> forall t :: t in TagSet(childTags) ==> t.variables == old(t.variables)
      ensures r.Fail? && !(Scanned(sensor, childTags, sampleRate) && SampleError(joinable, sampleNodeFound, sampleFromDom).None? &&
                           IsVoltsLabel(volts) && varFromDom.Err? && !varFromDom.Fails(InvalidParameter)) ==>
                sensor.samples == old(sensor.samples) && sensorNode.children == old(sensorNode.children)
      ensures r.Pass? ==>
                && Scanned(sensor, childTags, sampleRate) && varElem != null && varFromDom.Ok? && GainBipolarOf(volts).Ok?
                && fresh(nodes)
                && Realizes(varElem, A2DVariableElem(VariableName(pfx, sfx), longName, channel, GainBipolarOf(volts).value, cal), nodes)
    {
      cal, joinableAt, joinable, varElem, nodes := Poly("", ""), -1, null, null, {};
      if !sensor.isAnalog {
        return Fail(Internal("Current root nidas element is not an AnalogSensor.")), cal, joinableAt, joinable, varElem, nodes;
      }
      var rate := ParseUnsigned(sampleRate);
      if rate.None? {
        return Fail(Invalid("sample rate:" + sampleRate)), cal, joinableAt, joinable, varElem, nodes;
      }
      r, cal, joinableAt, joinable, varElem, nodes :=
        ScanAndPlace(sensor, sensorNode, childTags, pfx, sfx, longName, volts, channel, sampleRate, units, cals, siteName,
                     sampleNodeFound, sampleFromDom, varFromDom, siteValidation);
    }

    /**
     * insertA2DVariable once the sensor and the rate are checked: the scan
     * of the sample tags, then the placement of the variable.
     */
    method ScanAndPlace(sensor: DSMSensor, sensorNode: Node, childTags: seq<SampleTag?>,
                         pfx: string, sfx: string, longName: string, volts: string, channel: string,
                         sampleRate: string, units: string, cals: seq<string>, siteName: string,
                         sampleNodeFound: Node?, sampleFromDom: Result<real>, varFromDom: Result<Variable>,
                         siteValidation: Outcome)
      returns (r: Outcome, cal: CalibrationElement, ghost joinableAt: int, ghost joinable: SampleTag?,
               ghost varElem: Node?, ghost nodes: set<Node>)
      requires sensor.isAnalog && ParseUnsigned(sampleRate).Some? && ParseUnsigned(sampleRate) != Some(0)
      requires sampleNodeFound != sensorNode
      requires XmlCals(cals) ==> |cals| >= 4
      modifies this, sensor, sensorNode, sampleNodeFound, TagSet(childTags)
      ensures engCalFiles == old(engCalFiles) && engCalDirExists == old(engCalDirExists)
      ensures sensor.isAnalog && ParseUnsigned(sampleRate).Some? && null in childTags ==> r.Fails(InternalProcessing)
      ensures !Scanned(sensor, childTags, sampleRate) ==>
                && r.Fail? && sensor.samples == old(sensor.samples) && sensorNode.children == old(sensorNode.children)
                && sensor.gainBipolar == old(sensor.gainBipolar) && missingEngCalFiles == old(missingEngCalFiles)
      ensures Scanned(sensor, childTags, sampleRate) ==>
                && old(Allocators.LastJoinableAt(childTags, ParseUnsigned(sampleRate).value, joinableAt))
                && (joinable == null <==> joinableAt == -1)
                && (joinableAt >= 0 ==> joinable == childTags[joinableAt])
      ensures Scanned(sensor, childTags, sampleRate) ==>
                Placed(SampleError(joinable, sampleNodeFound, sampleFromDom), pfx, sfx, volts, channel, units, cals, siteName, varFromDom,
                     siteValidation, engCalFiles, r, cal, old(sensor.gainBipolar), sensor.gainBipolar,
                     old(missingEngCalFiles), missingEngCalFiles)
      ensures r.Fail? ==> forall t :: t in TagSet(childTags) ==> t.variables == old(t.variables)
      ensures r.Fail? && !(Scanned(sensor, childTags, sampleRate) && SampleError(joinable, sampleNodeFound, sampleFromDom).None? &&
                           IsVoltsLabel(volts) && varFromDom.Err? && !varFromDom.Fails(InvalidParameter)) ==>
                sensor.samples == old(sensor.samples) && sensorNode.children == old(sensorNode.children)
      ensures r.Pass? ==>
                && Scanned(sensor, childTags, sampleRate) && varElem != null && varFromDom.Ok? && GainBipolarOf(volts).Ok?
                && fresh(nodes)
                && Realizes(varElem, A2DVariableElem(VariableName(pfx, sfx), longName, channel, GainBipolarOf(volts).value, cal), nodes)
    {
      cal, joinableAt, joinable, varElem, nodes := Poly("", ""), -1, null, null, {};
      var rate := ParseUnsigned(sampleRate);
      var scan;
      scan, joinableAt := Allocators.ScanSamples(childTags, rate.value);
      if scan.Err? {
        return Fail(scan.error), cal, joinableAt, joinable, varElem, nodes;
      }
      joinable := scan.value.tag;
      if scan.value.tag == null {
        AtoiOfNonZero(sampleRate);
      }
      r, cal, varElem, nodes := PlaceVariable(sensor, sensorNode, scan.value.tag, scan.value.usedIds, pfx, sfx, longName, volts,
                                              channel, sampleRate, units, cals, siteName, sampleNodeFound, sampleFromDom,
                                              varFromDom, siteValidation);
    }

    /**
     * insertA2DVariable once the scan is done: the variable joins the
     * joinable sample (see PlaceOnSample) or a new one (see
     * PlaceOnNewSample).
     */
    method PlaceVariable(sensor: DSMSensor, sensorNode: Node, joinable: SampleTag?, usedIds: set<nat>,
                         pfx: string, sfx: string, longName: string, volts: string, channel: string,
                         sampleRate: string, units: string, cals: seq<string>, siteName: string,
                         sampleNodeFound: Node?, sampleFromDom: Result<real>, varFromDom: Result<Variable>,
                         siteValidation: Outcome)
      returns (r: Outcome, cal: CalibrationElement, ghost varElem: Node?, ghost nodes: set<Node>)
      requires joinable == null ==> Atoi(sampleRate) != 0
      requires sampleNodeFound != sensorNode
      requires XmlCals(cals) ==> |cals| >= 4
      modifies this, sensor, sensorNode, sampleNodeFound, joinable
      ensures engCalFiles == old(engCalFiles) && engCalDirExists == old(engCalDirExists)
      ensures Placed(SampleError(joinable, sampleNodeFound, sampleFromDom), pfx, sfx, volts, channel, units, cals, siteName,
                     varFromDom, siteValidation, engCalFiles, r, cal, old(sensor.gainBipolar), sensor.gainBipolar,
                     old(missingEngCalFiles), missingEngCalFiles)
      ensures r.Fail? && joinable != null ==> joinable.variables == old(joinable.variables)
      ensures r.Fail? && !(SampleError(joinable, sampleNodeFound, sampleFromDom).None? && IsVoltsLabel(volts) &&
                           varFromDom.Err? && !varFromDom.Fails(InvalidParameter)) ==>
                sensor.samples == old(sensor.samples) && sensorNode.children == old(sensorNode.children)
      ensures r.Pass? ==>
                && varElem != null && varFromDom.Ok? && GainBipolarOf(volts).Ok? && fresh(nodes)
                && Realizes(varElem, A2DVariableElem(VariableName(pfx, sfx), longName, channel, GainBipolarOf(volts).value, cal), nodes)
    {
      if joinable != null {
        r, cal, varElem, nodes := PlaceOnSample(sensor, sensorNode, joinable, pfx, sfx, longName, volts, channel, units, cals,
                                                siteName, sampleNodeFound, varFromDom, siteValidation);
      } else {
        ghost var tag, sampleNode, sampleKids;
        r, cal, tag, sampleNode, sampleKids, varElem, nodes :=
          PlaceOnNewSample(sensor, sensorNode, usedIds, pfx, sfx, longName, volts, channel, sampleRate, units, cals,
                           siteName, sampleFromDom, varFromDom, siteValidation);
      }
    }

    /**
     * The variable joins the joinable sample, whose element
     * findSampleDOMNode looked up (`sampleNodeFound`); nothing is created,
     * so the sensor's samples and element stay as they are.
     */
    method PlaceOnSample(sensor: DSMSensor, sensorNode: Node, joinable: SampleTag,
                         pfx: string, sfx: string, longName: string, volts: string, channel: string,
                         units: string, cals: seq<string>, siteName: string,
                         sampleNodeFound: Node?, varFromDom: Result<Variable>, siteValidation: Outcome)
      returns (r: Outcome, cal: CalibrationElement, ghost varElem: Node?, ghost nodes: set<Node>)
      requires sampleNodeFound != sensorNode
      requires XmlCals(cals) ==> |cals| >= 4
      modifies this, sensor, sensorNode, sampleNodeFound, joinable
      ensures engCalFiles == old(engCalFiles) && engCalDirExists == old(engCalDirExists)
      ensures Placed(if sampleNodeFound == null then Some(Internal("null sample DOM node")) else None,
                     pfx, sfx, volts, channel, units, cals, siteName, varFromDom, siteValidation, engCalFiles, r, cal,
                     old(sensor.gainBipolar), sensor.gainBipolar, old(missingEngCalFiles), missingEngCalFiles)
      ensures sensor.samples == old(sensor.samples) && sensorNode.children == old(sensorNode.children)
      ensures r.Fail? ==> joinable.variables == old(joinable.variables)
      ensures r.Pass? ==>
                && sampleNodeFound != null && varElem != null && varFromDom.Ok? && GainBipolarOf(volts).Ok? && fresh(nodes)
                && Realizes(varElem, A2DVariableElem(VariableName(pfx, sfx), longName, channel, GainBipolarOf(volts).value, cal), nodes)
                && joinable.variables == old(joinable.variables) + [varFromDom.value.(a2dChannel := Atoi(channel))]
                && sampleNodeFound.children == old(sampleNodeFound.children) + [varElem]
    {
      cal, varElem, nodes := Poly("", ""), null, {};
      if sampleNodeFound == null {
        return Fail(Internal("null sample DOM node")), cal, varElem, nodes;
      }
      r, cal, varElem, nodes := CompleteVariable(sensor, sensorNode, joinable, sampleNodeFound, false, sensor.samples,
                                                 sensorNode.children, pfx, sfx, longName, volts,
                                                 channel, units, cals, siteName, varFromDom, siteValidation);
    }

    /**
     * The variable joins a new sample (see NewSample); the failures after
     * the sample was created undo it, except a complaint of nidas about the
     * variable that is not InvalidParameter.
     */
    method PlaceOnNewSample(sensor: DSMSensor, sensorNode: Node, usedIds: set<nat>,
                            pfx: string, sfx: string, longName: string, volts: string, channel: string,
                            sampleRate: string, units: string, cals: seq<string>, siteName: string,
                            sampleFromDom: Result<real>, varFromDom: Result<Variable>, siteValidation: Outcome)
      returns (r: Outcome, cal: CalibrationElement, ghost tag: SampleTag?, ghost sampleNode: Node?,
               ghost sampleKids: seq<Node>, ghost varElem: Node?, ghost nodes: set<Node>)
      requires Atoi(sampleRate) != 0
      requires XmlCals(cals) ==> |cals| >= 4
      modifies this, sensor, sensorNode
      ensures engCalFiles == old(engCalFiles) && engCalDirExists == old(engCalDirExists)
      ensures Placed(if sampleFromDom.Err? then Some(sampleFromDom.error) else None,
                     pfx, sfx, volts, channel, units, cals, siteName, varFromDom, siteValidation, engCalFiles, r, cal,
                     old(sensor.gainBipolar), sensor.gainBipolar, old(missingEngCalFiles), missingEngCalFiles)
      ensures r.Fail? && !(sampleFromDom.Ok? && IsVoltsLabel(volts) && varFromDom.Err? && !varFromDom.Fails(InvalidParameter)) ==>
                sensor.samples == old(sensor.samples) && sensorNode.children == old(sensorNode.children)
      ensures r.Pass? ==>
                && tag != null && sampleNode != null && varElem != null && varFromDom.Ok? && GainBipolarOf(volts).Ok?
                && sampleFromDom.Ok? && fresh(nodes) && fresh(tag) && fresh(sampleNode)
                && Realizes(varElem, A2DVariableElem(VariableName(pfx, sfx), longName, channel, GainBipolarOf(volts).value, cal), nodes)
                && sensor.samples == old(sensor.samples) + [tag] && sensorNode.children == old(sensorNode.children) + [sampleNode]
                && tag.rate == sampleFromDom.value && !tag.hasTemperature
                && tag.variables == [varFromDom.value.(a2dChannel := Atoi(channel))]
                && sampleNode.attrs == SampleElem(NatToString(tag.sampleId), sampleRate).attrs
                && sampleNode.children == sampleKids + [varElem]
                && (tag.sampleId == 0 || tag.sampleId !in usedIds)
    {
      cal, tag, sampleNode, sampleKids, varElem, nodes := Poly("", ""), null, null, [], null, {};
      var sampleId := Allocators.NewSampleId(usedIds);
      var sample, sNode, sampleNodes := NewSample(sensor, sensorNode, sampleId, sampleRate, sampleFromDom);
      if sample.Err? {
        return Fail(sample.error), cal, tag, sampleNode, sampleKids, varElem, nodes;
      }
      tag, sampleNode, sampleKids := sample.value, sNode, sNode.children;
      r, cal, varElem, nodes := CompleteVariable(sensor, sensorNode, sample.value, sNode, true, old(sensor.samples),
                                                 old(sensorNode.children), pfx, sfx, longName, volts,
                                                 channel, units, cals, siteName, varFromDom, siteValidation);
    }

    /**
     * The rest of insertA2DVariable once the sample is known: the voltage
     * range sets the channel's gain and bipolar flag, then the variable is
     * attached. An unknown range undoes a created sample.
     */
    method CompleteVariable(sensor: DSMSensor, sensorNode: Node, tag: SampleTag, sampleNode: Node, created: bool,
                            ghost samples0: seq<SampleTag>, ghost children0: seq<Node>, pfx: string, sfx: string, longName: string, volts: string, channel: string, units: string,
                            cals: seq<string>, siteName: string, varFromDom: Result<Variable>, siteValidation: Outcome)
      returns (r: Outcome, cal: CalibrationElement, ghost varElem: Node?, ghost nodes: set<Node>)
      requires SampleAdded(created, samples0, sensor.samples, tag, children0, sensorNode.children, sampleNode)
      requires sampleNode != sensorNode
      requires XmlCals(cals) ==> |cals| >= 4
      modifies this, sensor, sensorNode, tag, sampleNode
      ensures engCalFiles == old(engCalFiles) && engCalDirExists == old(engCalDirExists)
      ensures !IsVoltsLabel(volts) ==>
                && r == Fail(Internal("Voltage choice not found in Document if/else block!"))
                && sensor.gainBipolar == old(sensor.gainBipolar) && missingEngCalFiles == old(missingEngCalFiles)
      ensures IsVoltsLabel(volts) ==>
                && sensor.gainBipolar ==
                     old(sensor.gainBipolar)[Atoi(channel) := (GainBipolarOf(volts).value.gain, GainBipolarOf(volts).value.bipolar)]
                && r == AttachOutcome(varFromDom, siteValidation)
                && CalChosen(cal, cals, units, VariableName(pfx, sfx), pfx, siteName, engCalFiles)
      ensures IsVoltsLabel(volts) && !XmlCals(cals) &&
              (forall i :: 0 <= i < |engCalFiles| ==> !MatchesVariable(engCalFiles[i], VariableName(pfx, sfx), pfx)) ==>
                missingEngCalFiles == Noted(old(missingEngCalFiles), VariableName(pfx, sfx))
      ensures XmlCals(cals) || (exists i :: 0 <= i < |engCalFiles| && MatchesVariable(engCalFiles[i], VariableName(pfx, sfx), pfx)) ==>
                missingEngCalFiles == old(missingEngCalFiles)
      ensures r.Fail? ==> tag.variables == old(tag.variables) && sampleNode.children == old(sampleNode.children)
      ensures !IsVoltsLabel(volts) || Undone(varFromDom, r) ==> sensor.samples == samples0 && sensorNode.children == children0
      ensures IsVoltsLabel(volts) && !Undone(varFromDom, r) ==>
                sensor.samples == old(sensor.samples) && sensorNode.children == old(sensorNode.children)
      ensures r.Pass? ==>
                && tag.variables == old(tag.variables) + [varFromDom.value.(a2dChannel := Atoi(channel))]
                && varElem != null && sampleNode.children == old(sampleNode.children) + [varElem] && fresh(nodes)
                && Realizes(varElem, A2DVariableElem(VariableName(pfx, sfx), longName, channel, GainBipolarOf(volts).value, cal), nodes)
      ensures tag.sampleId == old(tag.sampleId) && tag.rate == old(tag.rate) && tag.hasTemperature == old(tag.hasTemperature)
      ensures sampleNode.attrs == old(sampleNode.attrs)
    {
      cal, varElem, nodes := Poly("", ""), null, {};
      var gb := GainBipolarOf(volts);
      if gb.Err? {
        UndoSample(sensor, sensorNode, tag, sampleNode, created, samples0, children0);
        return Fail(gb.error), cal, varElem, nodes;
      }
      var g := gb.value;
      sensor.SetGainBipolar(Atoi(channel), g.gain, g.bipolar);
      r, cal, varElem, nodes := AttachVariable(sensor, sensorNode, tag, sampleNode, created, samples0, children0, VariableName(pfx, sfx), pfx,
                                               longName, g, channel, units, cals, siteName, varFromDom, siteValidation);
    }

    /**
     * The variable's calibration is chosen and nidas reads the variable
     * element (`varFromDom`); a complaint is passed on, after undoing a
     * created sample when it is InvalidParameter. Otherwise the variable,
     * with the channel chosen, joins the sample tag.
     */
    method AttachVariable(sensor: DSMSensor, sensorNode: Node, tag: SampleTag, sampleNode: Node, created: bool,
                          ghost samples0: seq<SampleTag>, ghost children0: seq<Node>, name: string, pfx: string, longName: string, g: GainBipolar, channel: string, units: string,
                          cals: seq<string>, siteName: string, varFromDom: Result<Variable>, siteValidation: Outcome)
      returns (r: Outcome, cal: CalibrationElement, ghost varElem: Node?, ghost nodes: set<Node>)
      requires SampleAdded(created, samples0, sensor.samples, tag, children0, sensorNode.children, sampleNode)
      requires sampleNode != sensorNode
      requires XmlCals(cals) ==> |cals| >= 4
      modifies this, sensor, sensorNode, tag, sampleNode
      ensures engCalFiles == old(engCalFiles) && engCalDirExists == old(engCalDirExists)
      ensures sensor.gainBipolar == old(sensor.gainBipolar)
      ensures CalChosen(cal, cals, units, name, pfx, siteName, engCalFiles)
      ensures !XmlCals(cals) && (forall i :: 0 <= i < |engCalFiles| ==> !MatchesVariable(engCalFiles[i], name, pfx)) ==>
                missingEngCalFiles == Noted(old(missingEngCalFiles), name)
      ensures XmlCals(cals) || (exists i :: 0 <= i < |engCalFiles| && MatchesVariable(engCalFiles[i], name, pfx)) ==>
                missingEngCalFiles == old(missingEngCalFiles)
      ensures r == AttachOutcome(varFromDom, siteValidation)
      ensures r.Fail? ==> tag.variables == old(tag.variables) && sampleNode.children == old(sampleNode.children)
      ensures Undone(varFromDom, r) ==> sensor.samples == samples0 && sensorNode.children == children0
      ensures !Undone(varFromDom, r) ==> sensor.samples == old(sensor.samples) && sensorNode.children == old(sensorNode.children)
      ensures r.Pass? ==>
                && tag.variables == old(tag.variables) + [varFromDom.value.(a2dChannel := Atoi(channel))]
                && varElem != null && sampleNode.children == old(sampleNode.children) + [varElem] && fresh(nodes)
                && Realizes(varElem, A2DVariableElem(name, longName, channel, g, cal), nodes)
      ensures tag.sampleId == old(tag.sampleId) && tag.rate == old(tag.rate) && tag.hasTemperature == old(tag.hasTemperature)
      ensures sampleNode.attrs == old(sampleNode.attrs)
    {
      varElem, nodes := null, {};
      cal := ChooseCalibration(cals, units, name, pfx, siteName);
      if varFromDom.Err? {
        if varFromDom.Fails(InvalidParameter) {
          UndoSample(sensor, sensorNode, tag, sampleNode, created, samples0, children0);
        }
        return Fail(varFromDom.error), cal, varElem, nodes;
      }
      r, varElem, nodes := JoinVariable(sensor, sensorNode, tag, sampleNode, created, samples0, children0,
                                        varFromDom.value.(a2dChannel := Atoi(channel)), siteValidation,
                                        A2DVariableElem(name, longName, channel, g, cal));
    }

    /**
     * The variable joins the sample tag and the site is validated
     * (`siteValidation`). A failure takes the variable out again and undoes a
     * created sample; otherwise the element `e` joins the sample's element.
     * The source builds the element before nidas reads it; a detached element
     * is seen by nothing but the foreign fromDOMElement, so the model builds
     * it where it is attached.
     */
    method JoinVariable(sensor: DSMSensor, sensorNode: Node, tag: SampleTag, sampleNode: Node, created: bool,
                        ghost samples0: seq<SampleTag>, ghost children0: seq<Node>, v: Variable, siteValidation: Outcome, e: Elem)
      returns (r: Outcome, ghost varElem: Node?, ghost nodes: set<Node>)
      requires SampleAdded(created, samples0, sensor.samples, tag, children0, sensorNode.children, sampleNode)
      requires sampleNode != sensorNode
      modifies sensor, sensorNode, tag, sampleNode
      ensures sensor.gainBipolar == old(sensor.gainBipolar)
      ensures r == AttachOutcome(Ok(v), siteValidation)
      ensures r.Fail? ==> tag.variables == old(tag.variables) && sampleNode.children == old(sampleNode.children)
      ensures r.Fail? ==> sensor.samples == samples0 && sensorNode.children == children0
      ensures r.Pass? ==> sensor.samples == old(sensor.samples) && sensorNode.children == old(sensorNode.children)
      ensures r.Pass? ==>
                && tag.variables == old(tag.variables) + [v]
                && varElem != null && sampleNode.children == old(sampleNode.children) + [varElem] && fresh(nodes)
                && Realizes(varElem, e, nodes)
      ensures tag.sampleId == old(tag.sampleId) && tag.rate == old(tag.rate) && tag.hasTemperature == old(tag.hasTemperature)
      ensures sampleNode.attrs == old(sampleNode.attrs)
    {
      varElem, nodes := null, {};
      tag.AddVariable(v);
      if siteValidation.Fail? {
        tag.RemoveVariable(v);
        assert tag.variables == old(tag.variables);
        UndoSample(sensor, sensorNode, tag, sampleNode, created, samples0, children0);
        if siteValidation.Fails(InvalidParameter) {
          return siteValidation, varElem, nodes;
        }
        return Fail(Internal("Caught unexpected error trying to add A2D Variable to model.")), varElem, nodes;
      }
      varElem, nodes := AppendBuilt(sampleNode, e);
      return Pass, varElem, nodes;
    }
  }
}
