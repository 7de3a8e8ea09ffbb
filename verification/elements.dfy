/**
 * The DOM elements the editor creates when it adds a DSM, a sensor or a
 * sample, described as values, and the attribute rewrites of its update
 * operations. Document builds Dom nodes that realize these descriptions.
 */
module Elements {
  import opened Text
  import opened Dom

  /** An element to create: its tag, its attributes and its child elements, in order. */
  datatype Elem = Elem(tag: string, attrs: map<string, string>, kids: seq<Elem>)

  /** A <parameter name=.. value=.. type=..> element. */
  function Param(name: string, value: string, kind: string): (r: Elem)
    ensures r.tag == "parameter" && r.kids == []
    ensures r.attrs.Keys == {"name", "value", "type"}
    ensures r.attrs["name"] == name && r.attrs["value"] == value && r.attrs["type"] == kind
  {
    Elem("parameter", map["name" := name, "value" := value, "type" := kind], [])
  }

  /* ---------------- addDSM ---------------- */

  /** The suffix of the IRIG sensor of a new DSM: "_" and the DSM name with its first "dsm" taken out. */
  function IrigSuffix(dsmName: string): string
  {
    match Find(dsmName, "dsm")
    case None => "_" + dsmName
    case Some(k) => "_" + dsmName[..k] + dsmName[k + 3..]
  }

  /** A DSM named by the usual convention, "dsm" followed by its number, gets "_" and that number. */
  lemma IrigSuffixOfConventionalName(rest: string)
    ensures IrigSuffix("dsm" + rest) == "_" + rest
  {
    assert OccursAt("dsm" + rest, "dsm", 0);
    assert ("dsm" + rest)[3..] == rest;
  }

  /**
   * The suffix keeps everything of the name but the first "dsm": putting it
   * back at the place it was taken from gives the name again, and a name
   * without "dsm" is kept whole.
   */
  lemma IrigSuffixKeepsName(dsmName: string)
    ensures |IrigSuffix(dsmName)| >= 1 && IrigSuffix(dsmName)[0] == '_'
    ensures Find(dsmName, "dsm").None? ==> IrigSuffix(dsmName)[1..] == dsmName
    ensures Find(dsmName, "dsm").Some? ==>
              var k := Find(dsmName, "dsm").value;
              var s := IrigSuffix(dsmName);
              k + 1 <= |s| && dsmName == s[1..k + 1] + "dsm" + s[k + 1..]
  {
    match Find(dsmName, "dsm")
    case None =>
    case Some(k) =>
      var s := IrigSuffix(dsmName);
      assert s == "_" + dsmName[..k] + dsmName[k + 3..];
      assert s[1..k + 1] == dsmName[..k];
      assert s[k + 1..] == dsmName[k + 3..];
      assert dsmName[k..k + 3] == "dsm";
      assert dsmName == dsmName[..k] + dsmName[k..k + 3] + dsmName[k + 3..];
  }

  /** The attributes of a new <dsm>: the location only when one is given, and three fixed settings. */
  function DsmAttrs(name: string, id: string, location: string): (r: map<string, string>)
    ensures "location" in r <==> location != ""
    ensures "location" in r ==> r["location"] == location
    ensures "name" in r && r["name"] == name && "id" in r && r["id"] == id
    ensures "rserialPort" in r && r["rserialPort"] == "30002"
    ensures "statusAddr" in r && r["statusAddr"] == "sock::30001"
    ensures "derivedData" in r && r["derivedData"] == "sock::7071"
  {
    var fixed := map["rserialPort" := "30002", "statusAddr" := "sock::30001", "derivedData" := "sock::7071"];
    var named := fixed["name" := name]["id" := id];
    if location == "" then named else named["location" := location]
  }

  /** The IRIG card sensor every new DSM starts with. */
  function IrigSensorElem(dsmName: string): Elem {
    Elem("sensor",
         map["IDREF" := "IRIG", "devicename" := "/dev/irig0", "id" := "100", "suffix" := IrigSuffix(dsmName)],
         [])
  }

  /** createDsmOutputElem: a raw sample output over an mcrequest socket. */
  function DsmOutputElem(): Elem {
    Elem("output", map["class" := "RawSampleOutputStream"], [Elem("socket", map["type" := "mcrequest"], [])])
  }

  /** The <dsm> element addDSM appends to the site. */
  function DsmElem(name: string, id: string, location: string): Elem {
    Elem("dsm", DsmAttrs(name, id, location), [IrigSensorElem(name), DsmOutputElem()])
  }

  /* ---------------- addSensor ---------------- */

  const ANALOG_NCAR: string := "ANALOG_NCAR"
  const ANALOG_DMMAT: string := "ANALOG_DMMAT"
  const A2D_CAL_DIR: string := "${PROJ_DIR}/Configuration/cal_files/A2D/"
  const DMMAT_CAL_DIR: string := "${PROJ_DIR}/Configuration/cal_files/A2D/DMMAT"

  /** The catalog ids of the PMS probes, which carry a serial number and a resolution. */
  predicate IsPmsSensor(sensorIdName: string) {
    sensorIdName in {"CDP", "Fast2DC", "S100", "S200", "S300", "TwoDP", "UHSAS"}
  }

  predicate IsAnalog(sensorIdName: string) {
    sensorIdName == ANALOG_NCAR || sensorIdName == ANALOG_DMMAT
  }

  /**
   * The attributes of a new sensor element: an analog sensor names its
   * class, any other refers to its catalog entry; the suffix is set only
   * when one is given.
   */
  function SensorAttrs(sensorIdName: string, device: string, lcId: string, sfx: string): (r: map<string, string>)
    ensures "suffix" in r <==> sfx != ""
    ensures "suffix" in r ==> r["suffix"] == sfx
    ensures "devicename" in r && r["devicename"] == device && "id" in r && r["id"] == lcId
    ensures ("class" in r <==> IsAnalog(sensorIdName)) && ("IDREF" in r <==> !IsAnalog(sensorIdName))
    ensures "IDREF" in r ==> r["IDREF"] == sensorIdName
  {
    var kind :=
      if sensorIdName == ANALOG_NCAR then map["class" := "raf.DSMAnalogSensor"]
      else if sensorIdName == ANALOG_DMMAT then map["class" := "DSC_A2DSensor"]
      else map["IDREF" := sensorIdName];
    var placed := kind["devicename" := device]["id" := lcId];
    if sfx == "" then placed else placed["suffix" := sfx]
  }

  /** addA2DCalFile: the A2D card's calibration file, under the directory of its kind. */
  function A2DCalFileElem(sensorIdName: string, a2dSNFname: string): Elem {
    var path :=
      if sensorIdName == ANALOG_DMMAT then map["path" := DMMAT_CAL_DIR]
      else if sensorIdName == ANALOG_NCAR then map["path" := A2D_CAL_DIR]
      else map[];
    Elem("calfile", path["file" := a2dSNFname], [])
  }

  /** The name of the A2D temperature variable of a new NCAR analog sensor. */
  function A2DTempName(a2dTempSfx: string): string { "A2DTEMP" + a2dTempSfx }

  /** addSampAndVar: sample 1 at 1 Hz holding the temperature parameter and the A2D temperature variable. */
  function A2DTempSampleElem(a2dTempSfx: string): Elem {
    Elem("sample", map["id" := "1", "rate" := "1"],
         [Param("temperature", "true", "bool"),
          Elem("variable", map["longname" := "A2DTemperature", "name" := A2DTempName(a2dTempSfx), "units" := "deg_C"], [])])
  }

  /** addPMSParms: the serial number, then the resolution only when one is given. */
  function PmsParams(pmsSN: string, pmsResltn: string): (r: seq<Elem>)
    ensures |r| >= 1 && r[0] == Param("SerialNumber", pmsSN, "string")
    ensures |r| == 2 <==> pmsResltn != ""
    ensures |r| <= 2 && (|r| == 2 ==> r[1] == Param("RESOLUTION", pmsResltn, "int"))
  {
    [Param("SerialNumber", pmsSN, "string")] + (if pmsResltn != "" then [Param("RESOLUTION", pmsResltn, "int")] else [])
  }

  /** The children a new sensor element gets, by the kind of sensor. */
  function SensorKids(sensorIdName: string, a2dTempSfx: string, a2dSNFname: string, pmsSN: string, resltn: string): seq<Elem> {
    (if sensorIdName == ANALOG_NCAR
     then [A2DCalFileElem(sensorIdName, a2dSNFname), Param("rate", "500", "int"), A2DTempSampleElem(a2dTempSfx)]
     else []) +
    (if sensorIdName == ANALOG_DMMAT
     then [A2DCalFileElem(sensorIdName, a2dSNFname), Param("rate", "500", "int")]
     else []) +
    (if IsPmsSensor(sensorIdName) then PmsParams(pmsSN, resltn) else [])
  }

  /** The sensor element addSensor creates under the tag it found. */
  function SensorElem(tag: string, sensorIdName: string, device: string, lcId: string, sfx: string,
                      a2dTempSfx: string, a2dSNFname: string, pmsSN: string, resltn: string): Elem {
    Elem(tag, SensorAttrs(sensorIdName, device, lcId, sfx), SensorKids(sensorIdName, a2dTempSfx, a2dSNFname, pmsSN, resltn))
  }

  /**
   * What a new sensor element holds, by kind: an NCAR analog card gets its
   * calibration file, the 500 Hz rate and the A2D temperature sample; a
   * DMMAT card the first two; a PMS probe its serial number and, only when
   * given, its resolution; any other sensor nothing.
   */
  lemma SensorKidsByKind(sensorIdName: string, a2dTempSfx: string, a2dSNFname: string, pmsSN: string, resltn: string)
    ensures var kids := SensorKids(sensorIdName, a2dTempSfx, a2dSNFname, pmsSN, resltn);
      (sensorIdName == ANALOG_NCAR ==>
         |kids| == 3 && kids[0].attrs["path"] == A2D_CAL_DIR && kids[0].attrs["file"] == a2dSNFname &&
         kids[2].kids[1].attrs["name"] == A2DTempName(a2dTempSfx)) &&
      (sensorIdName == ANALOG_DMMAT ==>
         |kids| == 2 && kids[0].attrs["path"] == DMMAT_CAL_DIR && kids[0].attrs["file"] == a2dSNFname) &&
      (IsPmsSensor(sensorIdName) ==>
         kids == PmsParams(pmsSN, resltn) && (|kids| == 2 <==> resltn != "")) &&
      (!IsAnalog(sensorIdName) && !IsPmsSensor(sensorIdName) ==> kids == [])
  {
  }

  /* ---------------- createSampleElement ---------------- */

  /** nPts = 500/sRate with C's division, which truncates toward zero. */
  function BoxcarPoints(rate: int): int
    requires rate != 0
  {
    if rate > 0 then 500 / rate else -(500 / -rate)
  }

  /** The boxcar filter is left out exactly for the rates above 250 and up to 500. */
  lemma BoxcarPointsIsOne(rate: int)
    requires rate != 0
    ensures BoxcarPoints(rate) == 1 <==> 250 < rate <= 500
  {
  }

  /** The boxcar parameters of a new sample: none when nPts is 1, else the filter and its point count. */
  function BoxcarParams(rate: int): (r: seq<Elem>)
    requires rate != 0
    ensures r == [] <==> 250 < rate <= 500
    ensures r != [] ==> |r| == 2 && r[0] == Param("filter", "boxcar", "string") &&
                        r[1] == Param("numpoints", IntToString(BoxcarPoints(rate)), "int")
  {
    BoxcarPointsIsOne(rate);
    if BoxcarPoints(rate) == 1 then []
    else [Param("filter", "boxcar", "string"), Param("numpoints", IntToString(BoxcarPoints(rate)), "int")]
  }

  /** The <sample> element createSampleElement returns. */
  function SampleElem(sampleId: string, sampleRate: string): Elem
    requires Atoi(sampleRate) != 0
  {
    Elem("sample", map["id" := sampleId, "rate" := sampleRate], BoxcarParams(Atoi(sampleRate)))
  }

  /** The point count written into a boxcar parameter reads back as nPts. */
  lemma NumpointsReadsBack(rate: int)
    requires rate != 0 && !(250 < rate <= 500)
    ensures Atoi(BoxcarParams(rate)[1].attrs["value"]) == BoxcarPoints(rate)
  {
    AtoiOfIntToString(BoxcarPoints(rate));
  }

  /* ---------------- updateDSMDOM and updateSensorDOM ---------------- */

  /** The <dsm> attributes after updateDSMDOM: name, id and location each removed and set again. */
  function UpdatedDsmAttrs(attrs: map<string, string>, name: string, id: string, location: string): map<string, string>
  {
    Reset(Reset(Reset(attrs, "name", name), "id", id), "location", location)
  }

  /** A second update overrides the first entirely: what the rollback of updateDSM relies on. */
  lemma DsmUpdateLastWins(attrs: map<string, string>, n1: string, i1: string, l1: string, n2: string, i2: string, l2: string)
    ensures UpdatedDsmAttrs(UpdatedDsmAttrs(attrs, n1, i1, l1), n2, i2, l2) == UpdatedDsmAttrs(attrs, n2, i2, l2)
  {
  }

  /** Updating with the values the element already holds changes nothing. */
  lemma DsmUpdateRestores(attrs: map<string, string>, name: string, id: string, location: string)
    requires "name" in attrs && attrs["name"] == name && "id" in attrs && attrs["id"] == id
    requires "location" in attrs && attrs["location"] == location
    ensures UpdatedDsmAttrs(attrs, name, id, location) == attrs
  {
  }

  /**
   * The sensor attributes after updateSensorDOM: devicename and id removed
   * and set again; the suffix removed, and set again only when non-empty.
   */
  function UpdatedSensorAttrs(attrs: map<string, string>, device: string, id: string, sfx: string): (r: map<string, string>)
    ensures "suffix" in r <==> sfx != ""
  {
    var placed := Reset(Reset(attrs, "devicename", device), "id", id) - {"suffix"};
    if sfx == "" then placed else placed["suffix" := sfx]
  }

  /** A second sensor update overrides the first entirely. */
  lemma SensorUpdateLastWins(attrs: map<string, string>, d1: string, i1: string, s1: string, d2: string, i2: string, s2: string)
    ensures UpdatedSensorAttrs(UpdatedSensorAttrs(attrs, d1, i1, s1), d2, i2, s2) == UpdatedSensorAttrs(attrs, d2, i2, s2)
  {
    var twice := UpdatedSensorAttrs(UpdatedSensorAttrs(attrs, d1, i1, s1), d2, i2, s2);
    var once := UpdatedSensorAttrs(attrs, d2, i2, s2);
    assert twice.Keys == once.Keys;
    assert forall k :: k in twice ==> twice[k] == once[k];
  }

  /** Updating a sensor with the values its element holds, no suffix standing for "", changes nothing. */
  lemma SensorUpdateRestores(attrs: map<string, string>, device: string, id: string, sfx: string)
    requires "devicename" in attrs && attrs["devicename"] == device && "id" in attrs && attrs["id"] == id
    requires if sfx == "" then "suffix" !in attrs else "suffix" in attrs && attrs["suffix"] == sfx
    ensures UpdatedSensorAttrs(attrs, device, id, sfx) == attrs
  {
  }

  /* ---------------- building the nodes ---------------- */

  /** The node `n`, made of the nodes in `nodes`, is the element `e`. */
  ghost predicate Realizes(n: Node, e: Elem, nodes: set<Node>)
    reads nodes
    decreases e
  {
    n in nodes && n.isElement && n.nodeName == e.tag && n.attrs == e.attrs && |n.children| == |e.kids| &&
    forall i :: 0 <= i < |e.kids| ==> Realizes(n.children[i], e.kids[i], nodes)
  }

  lemma {:induction false} RealizesGrows(n: Node, e: Elem, nodes: set<Node>, more: set<Node>)
    requires Realizes(n, e, nodes)
    ensures Realizes(n, e, nodes + more)
    decreases e
  {
    forall i | 0 <= i < |e.kids| ensures Realizes(n.children[i], e.kids[i], nodes + more) {
      RealizesGrows(n.children[i], e.kids[i], nodes, more);
    }
  }

  /** A node without children realizes an element without children of the same tag and attributes. */
  lemma RealizesLeaf(n: Node, e: Elem, nodes: set<Node>)
    requires n in nodes && n.isElement && n.nodeName == e.tag && n.attrs == e.attrs
    requires n.children == [] && e.kids == []
    ensures Realizes(n, e, nodes)
  {
  }

  /** A node realizes an element when its own tag and attributes match and each child realizes its counterpart. */
  lemma RealizesParent(n: Node, e: Elem, nodes: set<Node>)
    requires n in nodes && n.isElement && n.nodeName == e.tag && n.attrs == e.attrs && |n.children| == |e.kids|
    requires forall i :: 0 <= i < |e.kids| ==> Realizes(n.children[i], e.kids[i], nodes)
    ensures Realizes(n, e, nodes)
  {
  }

  /** createElementNS and setAttribute for the element and, child by child, for everything under it. */
  method Build(e: Elem) returns (n: Node, ghost nodes: set<Node>)
    ensures fresh(nodes) && Realizes(n, e, nodes)
    decreases e
  {
    var kids: seq<Node> := [];
    nodes := {};
    var i := 0;
    while i < |e.kids|
      invariant 0 <= i <= |e.kids| && |kids| == i
      invariant fresh(nodes)
      invariant forall k :: 0 <= k < i ==> Realizes(kids[k], e.kids[k], nodes)
    {
      var child, childNodes := Build(e.kids[i]);
      forall k | 0 <= k < i ensures Realizes(kids[k], e.kids[k], nodes + childNodes) {
        RealizesGrows(kids[k], e.kids[k], nodes, childNodes);
      }
      RealizesGrows(child, e.kids[i], childNodes, nodes);
      assert nodes + childNodes == childNodes + nodes;
      kids := kids + [child];
      nodes := nodes + childNodes;
      i := i + 1;
    }
    n := new Node.Element(e.tag, e.attrs, kids);
    forall k | 0 <= k < |kids| ensures Realizes(kids[k], e.kids[k], nodes + {n}) {
      RealizesGrows(kids[k], e.kids[k], nodes, {n});
    }
    nodes := nodes + {n};
  }

  /** A newly built element appended to a parent node: appendChild of the result of Build. */
  method AppendBuilt(parent: Node, e: Elem) returns (child: Node, ghost nodes: set<Node>)
    modifies parent
    ensures parent.children == old(parent.children) + [child] && parent.attrs == old(parent.attrs)
    ensures fresh(nodes) && Realizes(child, e, nodes)
  {
    child, nodes := Build(e);
    parent.AppendChild(child);
  }
}
