/**
 * The presentation tree: one item per project, site, DSM, sensor, sample or
 * variable, each wrapping its nidas object. An item builds its child items
 * lazily from its object's list, caches its DOM node once found, renumbers
 * its children after a removal and deletes children from both trees.
 */
module Items {
  import opened Exceptions
  import opened Text
  import opened Dom
  import opened Nidas
  import Seqs

  /** nidasType: what the item wraps. */
  datatype ItemType = PROJECT | SITE | DSMCONFIG | SENSOR | SAMPLE | VARIABLE

  /** nidasObject: the wrapped nidas object. A DSM item's DSMConfig pointer may be null. */
  datatype NidasObject =
    | ProjectObject(project: Project)
    | SiteObject(site: Site)
    | DsmObject(dsm: DSMConfig?)
    | SensorObject(sensor: DSMSensor)
    | SampleObject(sample: SampleTag)
    | VariableObject(variable: Variable)
  {
    function Type(): ItemType {
      match this
      case ProjectObject(_) => PROJECT
      case SiteObject(_) => SITE
      case DsmObject(_) => DSMCONFIG
      case SensorObject(_) => SENSOR
      case SampleObject(_) => SAMPLE
      case VariableObject(_) => VARIABLE
    }
  }

  /** The header labels of the tree view's columns. */
  datatype Label =
    | ProjectLabel | SiteLabel | DSMLabel | DeviceLabel | SNLabel | IDLabel | SensorLabel
    | SampleLabel | VariableLabel | NameLabel
    | RateLabel | CalCoefLabel | CalCoefSrcLabel | CalDateLabel | UnknownLabel
  {
    /** The label's text, for the labels whose text is defined with NidasItem. */
    function Text(): Option<string> {
      match this
      case ProjectLabel => Some("Project")
      case SiteLabel => Some("Site")
      case DSMLabel => Some("DSM")
      case DeviceLabel => Some("Device")
      case SNLabel => Some("S/N")
      case IDLabel => Some("ID")
      case SensorLabel => Some("Sensor")
      case SampleLabel => Some("Sample")
      case VariableLabel => Some("Variable")
      case NameLabel => Some("Name")
      case _ => None
    }
  }

  /** NidasItem::childLabel, the base class's mapping. */
  function BaseChildLabel(t: ItemType, column: int): (r: Label)
    ensures t == PROJECT ==> r == SiteLabel
    ensures t == SITE ==> r == DSMLabel
    ensures t == DSMCONFIG ==> r == (if column == 0 then SensorLabel else if column == 1 then DeviceLabel
                                      else if column == 2 then SNLabel else if column == 3 then IDLabel
                                      else SampleLabel)
    ensures t == SENSOR ==> r == SampleLabel
    ensures t == SAMPLE ==> r == VariableLabel
    ensures t == VARIABLE ==> r == NameLabel
  {
    match t
    case PROJECT => SiteLabel
    case SITE => DSMLabel
    case DSMCONFIG =>
      // the columns past 3 fall through to the SENSOR case
      if column == 0 then SensorLabel
      else if column == 1 then DeviceLabel
      else if column == 2 then SNLabel
      else if column == 3 then IDLabel
      else SampleLabel
    case SENSOR => SampleLabel
    case SAMPLE => VariableLabel
    case VARIABLE => NameLabel
  }

  /** NidasItem::childColumnCount. */
  function BaseChildColumnCount(t: ItemType): int {
    if t == DSMCONFIG then 4 else 1
  }

  /**
   * The child label an item of each kind shows: ProjectItem, DSMItem and
   * SensorItem override the base mapping, the other kinds use it.
   */
  function ChildLabel(t: ItemType, column: int): Label {
    match t
    case PROJECT => SiteLabel
    case DSMCONFIG =>
      if column == 0 then SensorLabel
      else if column == 1 then DeviceLabel
      else if column == 2 then SNLabel
      else if column == 3 then IDLabel
      else NameLabel
    case SENSOR =>
      if column == 0 then VariableLabel
      else if column == 1 then RateLabel
      else if column == 2 then CalCoefLabel
      else if column == 3 then CalCoefSrcLabel
      else if column == 4 then CalDateLabel
      else if column == 5 then SampleLabel
      else UnknownLabel
    case _ => BaseChildLabel(t, column)
  }

  /** The column count an item of each kind reports: ProjectItem says 1, SensorItem 6, the others the base count. */
  function ChildColumnCount(t: ItemType): int {
    match t
    case PROJECT => 1
    case SENSOR => 6
    case _ => BaseChildColumnCount(t)
  }

  /**
   * The column count matches the labels: every column an item reports gets
   * its own label, different from the fallback label past the last column.
   */
  lemma ColumnsHaveOwnLabels(t: ItemType)
    ensures t == DSMCONFIG || t == SENSOR ==>
      forall c, d :: 0 <= c < d < ChildColumnCount(t) ==> ChildLabel(t, c) != ChildLabel(t, d)
    ensures t == DSMCONFIG ==>
      forall c :: 0 <= c < ChildColumnCount(t) ==> ChildLabel(t, c) != ChildLabel(t, ChildColumnCount(t))
    ensures t == SENSOR ==>
      forall c :: 0 <= c < ChildColumnCount(t) ==> ChildLabel(t, c) != UnknownLabel && ChildLabel(t, c).Text() != Some("Name")
    ensures t == SENSOR ==> forall c :: c >= ChildColumnCount(t) ==> ChildLabel(t, c) == UnknownLabel
    ensures t == PROJECT ==> ChildColumnCount(t) == 1 && forall c :: ChildLabel(t, c) == SiteLabel
  {
  }

  /* ---------------- names ---------------- */

  /** DSMItem::name: "location [name]". */
  function DsmName(location: string, name: string): string {
    location + " [" + name + "]"
  }

  /** Reads a DSM item's name back into its location and DSM name, splitting at the first " [". */
  function ParseDsmName(s: string): Option<(string, string)> {
    match Find(s, " [")
    case None => None
    case Some(k) => if |s| >= k + 3 && s[|s| - 1] == ']' then Some((s[..k], s[k + 2..|s| - 1])) else None
  }

  /** A location without " [" in it can be read back from the item's name, and so can the DSM name. */
  lemma DsmNameRoundTrip(location: string, name: string)
    requires !Contains(location, " [")
    ensures ParseDsmName(DsmName(location, name)) == Some((location, name))
  {
    var s := DsmName(location, name);
    var k := |location|;
    assert OccursAt(s, " [", k);
    forall j | 0 <= j < k ensures !OccursAt(s, " [", j) {
      if OccursAt(s, " [", j) {
        if j + 2 <= k {
          assert s[j..j + 2] == location[j..j + 2];
          assert OccursAt(location, " [", j);
          assert false;
        } else {
          OccursAtIndex(s, " [", j, 1);
          assert false;
        }
      }
    }
    assert Find(s, " [") == Some(k);
    assert s[..k] == location;
    assert s[k + 2..|s| - 1] == name;
  }

  lemma OccursAtIndex(s: string, pat: string, k: nat, i: nat)
    requires OccursAt(s, pat, k) && i < |pat|
    ensures s[k + i] == pat[i]
  {
    assert s[k..k + |pat|][i] == s[k + i];
  }

  /** SensorItem::name: the catalog name, or the class name when there is none, followed by the suffix. */
  function SensorName(catalogName: string, className: string, suffix: string): (r: string)
    ensures catalogName != "" ==> StartsWith(r, catalogName)
    ensures catalogName == "" ==> StartsWith(r, className)
    ensures |suffix| <= |r| && r[|r| - |suffix|..] == suffix
    ensures |r| == |(if catalogName != "" then catalogName else className)| + |suffix|
  {
    (if |catalogName| > 0 then catalogName else className) + suffix
  }

  /**
   * Two sensors of the same catalog entry or class are told apart by their
   * suffixes: the shown name determines the suffix.
   */
  lemma SensorNameDeterminesSuffix(catalogName: string, className: string, s1: string, s2: string)
    requires SensorName(catalogName, className, s1) == SensorName(catalogName, className, s2)
    ensures s1 == s2
  {
    var base := if catalogName != "" then catalogName else className;
    assert SensorName(catalogName, className, s1)[|base|..] == s1;
    assert SensorName(catalogName, className, s2)[|base|..] == s2;
  }

  /** The text before the first ".dat" of a calibration file name, or the whole name. */
  function CalFileBase(file: string): string {
    match Find(file, ".dat")
    case None => file
    case Some(k) => file[..k]
  }

  /** NidasItem::getSerialNumberString: the SerialNumber parameter, else the calibration file's base name, else "". */
  function SerialNumberString(serialNumber: Option<string>, calFile: Option<string>): string {
    if serialNumber.Some? then serialNumber.value
    else if calFile.Some? then CalFileBase(calFile.value)
    else ""
  }

  /**
   * A sensor without a serial number parameter shows the name its
   * calibration file was made from: `sn + ".dat"` gives back `sn` when `sn`
   * itself holds no ".dat".
   */
  lemma SerialNumberFromCalFile(sn: string)
    requires !Contains(sn, ".dat")
    ensures SerialNumberString(None, Some(sn + ".dat")) == sn
    ensures SerialNumberString(Some(sn), Some(sn + ".dat")) == sn
  {
    var f := sn + ".dat";
    var k := |sn|;
    assert OccursAt(f, ".dat", k);
    forall j | 0 <= j < k ensures !OccursAt(f, ".dat", j) {
      if OccursAt(f, ".dat", j) {
        if j + 4 <= k {
          assert f[j..j + 4] == sn[j..j + 4];
          assert OccursAt(sn, ".dat", j);
          assert false;
        } else {
          // the '.' at k would have to be one of "dat"
          OccursAtIndex(f, ".dat", j, k - j);
          assert false;
        }
      }
    }
    assert Find(f, ".dat") == Some(k);
    assert f[..k] == sn;
  }

  /* ---------------- DOM lookups ---------------- */

  /** What a lookup asks of a node. */
  datatype Probe =
    | NameIs(name: string)   // the name attribute equals `name`
    | DsmIdIs(id: nat)       // a <dsm> whose id attribute reads, as an unsigned int, as `id`

  predicate Holds(n: Node, p: Probe)
    reads n
  {
    match p
    case NameIs(name) => GetAttribute(n, "name") == name
    case DsmIdIs(id) => n.nodeName == "dsm" && Atoi(GetAttribute(n, "id")) % UINT_LIMIT == id
  }

  /** The position of the first node that satisfies the probe, |nodes| when there is none. */
  function FirstIndex(nodes: seq<Node>, p: Probe): (r: nat)
    reads set n | n in nodes
    ensures r <= |nodes|
    ensures forall k :: 0 <= k < r ==> !Holds(nodes[k], p)
    ensures r < |nodes| ==> Holds(nodes[r], p)
  {
    if nodes == [] then 0
    else if Holds(nodes[0], p) then 0
    else
      var rest := nodes[1..];
      assert forall k :: 0 < k < |nodes| ==> nodes[k] == rest[k - 1];
      1 + FirstIndex(rest, p)
  }

  /** The first node that satisfies the probe, or null. */
  function First(nodes: seq<Node>, p: Probe): Node?
    reads set n | n in nodes
  {
    var i := FirstIndex(nodes, p);
    if i < |nodes| then nodes[i] else null
  }

  /**
   * The loop shared by the findDOMNode methods: the first node of the list
   * that satisfies the probe, or null.
   */
  method FindFirst(nodes: seq<Node>, p: Probe) returns (found: Node?)
    ensures found == null <==> forall k :: 0 <= k < |nodes| ==> !Holds(nodes[k], p)
    ensures found != null ==> exists i :: 0 <= i < |nodes| && nodes[i] == found && Holds(found, p) &&
                                          forall k :: 0 <= k < i ==> !Holds(nodes[k], p)
  {
    found := null;
    var i := 0;
    while i < |nodes|
      invariant 0 <= i <= |nodes|
      invariant forall k :: 0 <= k < i ==> !Holds(nodes[k], p)
    {
      if Holds(nodes[i], p) {
        return nodes[i];
      }
      i := i + 1;
    }
  }

  /* ---------------- removing DOM children ---------------- */

  const SENSOR_TAGS: set<string> := {"sensor", "serialSensor", "arincSensor", "irigSensor", "lamsSensor", "socketSensor"}

  /** Which children a removeChild deletes. */
  datatype MatchRule =
    | SensorOfDevice(device: string)   // DSMItem: sensor elements of the deleted device
    | SiteNamed(siteName: string)      // ProjectItem: site elements of the deleted site

  predicate Matches(c: Node, rule: MatchRule)
    reads c
  {
    c.isElement &&
    match rule
    case SensorOfDevice(device) => c.nodeName in SENSOR_TAGS && GetAttribute(c, "devicename") == device
    case SiteNamed(siteName) => c.nodeName == "site" && GetAttribute(c, "name") == siteName
  }

  /** For each child, whether the rule deletes it. */
  function MatchFlags(nodes: seq<Node>, rule: MatchRule): (r: seq<bool>)
    reads set n | n in nodes
    ensures |r| == |nodes| && forall k :: 0 <= k < |nodes| ==> r[k] == Matches(nodes[k], rule)
  {
    if nodes == [] then [] else MatchFlags(nodes[..|nodes| - 1], rule) + [Matches(nodes[|nodes| - 1], rule)]
  }

  /**
   * The deletion loop as written: positions 0 .. n-1 of a live child list,
   * a removed child's successor sliding into the position just examined.
   */
  function LiveScan<T>(list: seq<T>, flags: seq<bool>, index: nat, n: nat): seq<T>
    requires |flags| == |list|
    decreases n - index
  {
    if index >= n then list
    else if index < |list| && flags[index] then
      LiveScan(list[..index] + list[index + 1..], flags[..index] + flags[index + 1..], index + 1, n)
    else LiveScan(list, flags, index + 1, n)
  }

  /** The elements whose flag is false, in order: what deleting every matching child leaves. */
  function Kept<T>(list: seq<T>, flags: seq<bool>): seq<T>
    requires |flags| == |list|
  {
    if list == [] then []
    else Kept(list[..|list| - 1], flags[..|flags| - 1]) + (if flags[|flags| - 1] then [] else [list[|list| - 1]])
  }

  /** Keeping from one more element. */
  lemma KeptSnoc<T>(list: seq<T>, flags: seq<bool>, k: nat)
    requires |flags| == |list| && k < |list|
    ensures Kept(list[..k + 1], flags[..k + 1]) == Kept(list[..k], flags[..k]) + (if flags[k] then [] else [list[k]])
  {
    assert list[..k + 1][..k] == list[..k] && flags[..k + 1][..k] == flags[..k];
  }

  lemma SplitAt<T>(kept: seq<T>, rest: seq<T>)
    requires rest != []
    ensures (kept + rest)[|kept|] == rest[0]
    ensures (kept + rest)[..|kept|] + (kept + rest)[|kept| + 1..] == kept + rest[1..]
    ensures kept + rest == (kept + [rest[0]]) + rest[1..]
  {
    assert (kept + rest)[..|kept|] == kept;
    assert (kept + rest)[|kept| + 1..] == rest[1..];
  }

  /** Exactly the unflagged elements are kept. */
  lemma {:induction false} KeptMembers<T>(list: seq<T>, flags: seq<bool>)
    requires |flags| == |list|
    ensures forall x :: x in Kept(list, flags) <==> exists i :: 0 <= i < |list| && list[i] == x && !flags[i]
  {
    forall x | x in Kept(list, flags) ensures exists i :: 0 <= i < |list| && list[i] == x && !flags[i] {
      KeptOnly(list, flags, x);
    }
    forall x | exists i :: 0 <= i < |list| && list[i] == x && !flags[i] ensures x in Kept(list, flags) {
      var i :| 0 <= i < |list| && list[i] == x && !flags[i];
      KeptAll(list, flags, i);
    }
  }

  lemma {:induction false} KeptOnly<T>(list: seq<T>, flags: seq<bool>, x: T)
    requires |flags| == |list| && x in Kept(list, flags)
    ensures exists i :: 0 <= i < |list| && list[i] == x && !flags[i]
  {
    var m := |list| - 1;
    var pre := Kept(list[..m], flags[..m]);
    assert Kept(list, flags) == pre + (if flags[m] then [] else [list[m]]);
    if x in pre {
      KeptOnly(list[..m], flags[..m], x);
      var i :| 0 <= i < m && list[..m][i] == x && !flags[..m][i];
      assert list[i] == x && !flags[i];
    } else {
      assert list[m] == x && !flags[m];
    }
  }

  lemma {:induction false} KeptAll<T>(list: seq<T>, flags: seq<bool>, i: nat)
    requires |flags| == |list| && i < |list| && !flags[i]
    ensures list[i] in Kept(list, flags)
  {
    var m := |list| - 1;
    if i < m {
      KeptAll(list[..m], flags[..m], i);
    }
  }

  /** Dropping a flagged element does not change what is kept. */
  lemma {:induction false} KeptWithoutFlagged<T>(list: seq<T>, flags: seq<bool>, i: nat)
    requires |flags| == |list| && i < |list| && flags[i]
    ensures Kept(list[..i] + list[i + 1..], flags[..i] + flags[i + 1..]) == Kept(list, flags)
    decreases |list|
  {
    var m := |list| - 1;
    var l2 := list[..i] + list[i + 1..];
    var f2 := flags[..i] + flags[i + 1..];
    if i == m {
      assert l2 == list[..m] && f2 == flags[..m];
    } else {
      assert l2[..|l2| - 1] == list[..m][..i] + list[..m][i + 1..];
      assert f2[..|f2| - 1] == flags[..m][..i] + flags[..m][i + 1..];
      KeptWithoutFlagged(list[..m], flags[..m], i);
      assert l2[|l2| - 1] == list[m] && f2[|f2| - 1] == flags[m];
    }
  }

  /**
   * The loop as written removes nothing that does not match, and whatever
   * it leaves was there before.
   */
  lemma {:induction false} LiveScanSparesUnmatched<T>(list: seq<T>, flags: seq<bool>, index: nat, n: nat)
    requires |flags| == |list|
    ensures forall x :: x in Kept(list, flags) ==> x in LiveScan(list, flags, index, n)
    ensures forall x :: x in LiveScan(list, flags, index, n) ==> x in list
    decreases n - index
  {
    KeptMembers(list, flags);
    if index >= n {
      forall x | x in Kept(list, flags) ensures x in list {
        KeptOnly(list, flags, x);
      }
    } else if index < |list| && flags[index] {
      var l2 := list[..index] + list[index + 1..];
      var f2 := flags[..index] + flags[index + 1..];
      KeptWithoutFlagged(list, flags, index);
      LiveScanSparesUnmatched(l2, f2, index + 1, n);
      forall x | x in l2 ensures x in list {
        var j :| 0 <= j < |l2| && l2[j] == x;
        if j < index { assert list[j] == x; } else { assert list[j + 1] == x; }
      }
    } else {
      LiveScanSparesUnmatched(list, flags, index + 1, n);
    }
  }

  /**
   * The loop as written misses a match that directly follows another: of
   * two adjacent matching children only the first is removed.
   */
  lemma LiveScanSkipsNeighbour()
    ensures LiveScan([1, 2], [true, true], 0, 2) == [2]
    ensures Kept([1, 2], [true, true]) == []
  {
    assert [1, 2][..0] + [1, 2][1..] == [2];
    assert [true, true][..0] + [true, true][1..] == [true];
    assert [true, true][..1] == [true];
    assert [1, 2][..1] == [1];
  }

  /**
   * The removal loop of DSMItem::removeChild and ProjectItem::removeChild as
   * written: the index runs over the original number of children while
   * removed children shift the live list under it.
   */
  method RemoveMatchingAsWritten(parent: Node, rule: MatchRule)
    requires parent !in parent.children
    modifies parent
    ensures parent.children == LiveScan(old(parent.children), old(MatchFlags(parent.children, rule)), 0, |old(parent.children)|)
    ensures parent.attrs == old(parent.attrs)
  {
    ghost var flags := MatchFlags(parent.children, rule);
    ghost var orig := parent.children;
    ghost var origFlags := flags;
    var numChildren := |parent.children|;
    var index := 0;
    while index < numChildren
      invariant 0 <= index <= numChildren
      invariant |flags| == |parent.children| && parent !in parent.children
      invariant forall k :: 0 <= k < |flags| ==> flags[k] == Matches(parent.children[k], rule)
      invariant LiveScan(parent.children, flags, index, numChildren) == LiveScan(orig, origFlags, 0, numChildren)
      invariant parent.attrs == old(parent.attrs)
    {
      if index < |parent.children| {
        var child := parent.children[index];
        if Matches(child, rule) {
          flags := flags[..index] + flags[index + 1..];
          parent.RemoveChildAt(index);
        }
      }
      index := index + 1;
    }
  }

  /** The removal loop as evidently intended: every matching child is removed, every other one kept in order. */
  method RemoveMatching(parent: Node, rule: MatchRule)
    requires parent !in parent.children
    modifies parent
    ensures parent.children == Kept(old(parent.children), old(MatchFlags(parent.children, rule)))
    ensures parent.attrs == old(parent.attrs)
  {
    ghost var orig := parent.children;
    ghost var flags := MatchFlags(orig, rule);
    ghost var kept: seq<Node> := [];
    var index := 0;
    ghost var k := 0;
    assert orig[..0] == [] && flags[..0] == [];
    while index < |parent.children|
      invariant 0 <= k <= |orig| && index == |kept|
      invariant kept == Kept(orig[..k], flags[..k])
      invariant parent.children == kept + orig[k..]
      invariant parent !in orig && parent.attrs == old(parent.attrs)
      decreases |parent.children| - index
    {
      SplitAt(kept, orig[k..]);
      KeptSnoc(orig, flags, k);
      var child := parent.children[index];
      if Matches(child, rule) {
        assert flags[k];
        parent.RemoveChildAt(index);
      } else {
        kept := kept + [child];
        index := index + 1;
      }
      k := k + 1;
    }
    assert orig[..k] == orig && flags[..k] == flags;
  }

  /** Deleting with the intended loop leaves no matching child and every other child. */
  lemma RemoveMatchingIsExact(children: seq<Node>, rule: MatchRule)
    ensures forall c :: c in Kept(children, MatchFlags(children, rule)) ==> c in children && !Matches(c, rule)
    ensures forall c :: c in children && !Matches(c, rule) ==> c in Kept(children, MatchFlags(children, rule))
  {
    KeptMembers(children, MatchFlags(children, rule));
  }

  /* ---------------- the item ---------------- */

  class NidasItem {
    const nidasObject: NidasObject
    var rowNumber: int
    const parentItem: NidasItem?
    /** The child items built so far, in row order. */
    var childItems: seq<NidasItem>
    /** The DOM node of the item once looked up; null until then. */
    var domNode: Node?

    /** Every NidasItem constructor: the object, the row within the parent, the parent, no DOM node yet. */
    constructor (obj: NidasObject, row: int, parent: NidasItem?)
      ensures nidasObject == obj && rowNumber == row && parentItem == parent
      ensures domNode == null && childItems == []
    {
      nidasObject := obj;
      rowNumber := row;
      parentItem := parent;
      domNode := null;
      childItems := [];
    }

    /** The child items are distinct and do not include the item itself. */
    predicate ChildrenDistinct()
      reads this
    {
      Seqs.Distinct(childItems) && this !in childItems
    }

    /** The kinds whose child() builds items lazily from the wrapped object's list. */
    predicate BuildsChildren() {
      match nidasObject
      case ProjectObject(_) => true
      case DsmObject(dsm) => dsm != null
      case SensorObject(_) => true
      case _ => false
    }

    /** The wrapped object whose list the children come from. */
    function Source(): set<object>
      requires BuildsChildren()
    {
      match nidasObject
      case ProjectObject(project) => {project}
      case DsmObject(dsm) => {dsm}
      case SensorObject(sensor) => {sensor}
    }

    /** The objects the child items wrap: the project's sites, the DSM's sensors or the sensor's sample tags. */
    function ChildObjects(): (r: seq<NidasObject>)
      requires BuildsChildren()
      reads Source()
    {
      match nidasObject
      case ProjectObject(project) =>
        var sites := project.sites;
        seq(|sites|, i requires 0 <= i < |sites| => SiteObject(sites[i]))
      case DsmObject(dsm) =>
        var sensors := dsm.sensors;
        seq(|sensors|, i requires 0 <= i < |sensors| => SensorObject(sensors[i]))
      case SensorObject(sensor) =>
        var samples := sensor.samples;
        seq(|samples|, i requires 0 <= i < |samples| => SampleObject(samples[i]))
    }

    /** The items the build appends for the objects from position `from` on. */
    ghost predicate BuiltFrom(objs: seq<NidasObject>, from: nat, items: seq<NidasItem>)
      reads set c | c in items
    {
      |items| == (if from <= |objs| then |objs| - from else 0) &&
      forall k :: 0 <= k < |items| ==>
        items[k].nidasObject == objs[from + k] && items[k].rowNumber == from + k &&
        items[k].parentItem == this && items[k].domNode == null && items[k].childItems == []
    }

    /**
     * ProjectItem::child, DSMItem::child and SensorItem::child: a cached row
     * is returned as it is; otherwise an item is appended for every object
     * from position i on, with its position as row, and row i is returned
     * if there now is one.
     */
    method Child(i: int) returns (c: NidasItem?)
      requires BuildsChildren()
      modifies this
      ensures 0 <= i < |old(childItems)| ==> c == old(childItems)[i] && childItems == old(childItems)
      ensures !(0 <= i < |old(childItems)|) ==>
        var from := if i < 0 then 0 else i;
        |childItems| >= |old(childItems)| && childItems[..|old(childItems)|] == old(childItems) &&
        BuiltFrom(old(ChildObjects()), from, childItems[|old(childItems)|..]) &&
        (forall k :: |old(childItems)| <= k < |childItems| ==> fresh(childItems[k])) &&
        c == (if 0 <= i < |childItems| then childItems[i] else null)
      ensures old(ChildrenDistinct()) ==> ChildrenDistinct()
      ensures domNode == old(domNode) && rowNumber == old(rowNumber)
    {
      if 0 <= i < |childItems| {
        return childItems[i];
      }
      var objs := ChildObjects();
      var built := NewChildItems(objs, i);
      if Seqs.Distinct(childItems) {
        forall k | 0 <= k < |built| ensures built[k] !in childItems {
        }
        DistinctConcat(childItems, built);
      }
      childItems := childItems + built;
      assert childItems[|old(childItems)|..] == built;
      if 0 <= i < |childItems| {
        c := childItems[i];
      } else {
        c := null;
      }
    }

    /**
     * The loop of child(i): for every object of the list, in order, the
     * positions before i are skipped and an item is made for each other one,
     * with the object's position as its row and this item as its parent.
     */
    method NewChildItems(objs: seq<NidasObject>, i: int) returns (built: seq<NidasItem>)
      ensures BuiltFrom(objs, if i < 0 then 0 else i, built)
      ensures Seqs.Distinct(built) && this !in built
      ensures forall k :: 0 <= k < |built| ==> fresh(built[k])
    {
      ghost var from: nat := if i < 0 then 0 else i;
      built := [];
      var j := 0;
      while j < |objs|
        invariant 0 <= j <= |objs|
        invariant |built| == (if from <= j then j - from else 0) && this !in built
        invariant forall k :: 0 <= k < |built| ==>
          built[k].nidasObject == objs[from + k] && built[k].rowNumber == from + k &&
          built[k].parentItem == this && built[k].domNode == null && built[k].childItems == []
        invariant forall k :: 0 <= k < |built| ==> fresh(built[k])
        invariant Seqs.Distinct(built)
      {
        if j >= i {
          var item := new NidasItem(objs[j], j, this);
          Seqs.DistinctAppend(built, item);
          built := built + [item];
        }
        j := j + 1;
      }
    }

    /**
     * NidasItem::childCount: the number of cached children when there are
     * any; otherwise the children are built with child(0) and counted.
     */
    method ChildCount() returns (n: int)
      requires BuildsChildren()
      modifies this
      ensures old(|childItems|) != 0 ==> n == old(|childItems|) && childItems == old(childItems)
      ensures old(|childItems|) == 0 ==> n == |childItems| == |ChildObjects()|
      ensures old(ChildrenDistinct()) ==> ChildrenDistinct()
      ensures domNode == old(domNode) && rowNumber == old(rowNumber)
    {
      if |childItems| != 0 {
        return |childItems|;
      }
      var first := Child(0);
      if first != null {
        return |childItems|;
      }
      return 0;
    }

    /**
     * NidasItem::removeChildren: rows first..last are taken out, the others
     * keep their order, and every item from row `first` on is given its new
     * position as row number.
     */
    method RemoveChildren(first: int, last: int) returns (ok: bool)
      requires 0 <= first <= last + 1 && last < |childItems|
      requires ChildrenDistinct()
      modifies this, set c | c in childItems
      ensures childItems == old(childItems[..first] + childItems[last + 1..])
      ensures forall k :: first <= k < |childItems| ==> childItems[k].rowNumber == k
      ensures forall k :: 0 <= k < first ==> childItems[k].rowNumber == old(childItems[k].rowNumber)
      ensures ChildrenDistinct() && ok
    {
      ghost var orig := childItems;
      var f := first;
      var l := last;
      while f <= l
        invariant first == f && first - 1 <= l <= last
        invariant childItems == orig[..first] + orig[first + (last - l)..]
        invariant forall k :: 0 <= k < |orig| ==> orig[k].rowNumber == old(orig[k].rowNumber)
      {
        childItems := childItems[..f] + childItems[f + 1..];
        l := l - 1;
      }
      DistinctSplice(orig, first, last + 1);
      assert this !in childItems;
      Renumber(childItems, first);
      return true;
    }

    /**
     * The getDOMNode memo of ProjectItem and SensorItem: the cached node
     * when there is one, else the node the lookup finds, which is cached.
     */
    method GetDOMNode(found: Node?) returns (n: Node?)
      modifies this
      ensures old(domNode) != null ==> n == old(domNode) && domNode == old(domNode)
      ensures old(domNode) == null ==> n == found && domNode == found
      ensures childItems == old(childItems) && rowNumber == old(rowNumber)
    {
      if domNode != null {
        return domNode;
      }
      domNode := found;
      return domNode;
    }

    /**
     * ProjectItem::findDOMNode over the <project> elements of the document
     * (None when there is no document): the first whose name is the
     * project's, which is also stored as the item's DOM node.
     */
    method FindProjectNode(projectNodes: Option<seq<Node>>) returns (n: Node?)
      requires nidasObject.ProjectObject?
      modifies this
      ensures projectNodes.None? ==> n == null && domNode == old(domNode)
      ensures projectNodes.Some? ==>
        n == First(projectNodes.value, NameIs(nidasObject.project.name)) && domNode == n
      ensures childItems == old(childItems) && rowNumber == old(rowNumber)
    {
      if projectNodes.None? {
        return null;
      }
      var nodes := projectNodes.value;
      n := FindFirst(nodes, NameIs(nidasObject.project.name));
      FirstIsFound(nodes, NameIs(nidasObject.project.name), n);
      domNode := n;
    }

    /** ProjectItem::getDOMNode: the cached node, else the one findDOMNode finds and stores. */
    method ProjectDOMNode(projectNodes: Option<seq<Node>>) returns (n: Node?)
      requires nidasObject.ProjectObject?
      modifies this
      ensures old(domNode) != null ==> n == old(domNode) && domNode == old(domNode)
      ensures old(domNode) == null ==>
        n == (if projectNodes.None? then null else First(projectNodes.value, NameIs(nidasObject.project.name))) &&
        domNode == n
      ensures childItems == old(childItems) && rowNumber == old(rowNumber)
    {
      if domNode != null {
        return domNode;
      }
      n := FindProjectNode(projectNodes);
      domNode := n;
    }

    /**
     * DSMItem::findDOMNode: among the <site> elements of the document, the
     * first named like the DSM's site; among its children, the first <dsm>
     * whose id reads as the DSM's id. Null without a DSMConfig, without a
     * document or without such a child.
     */
    method FindDsmNode(siteNodes: Option<seq<Node>>) returns (n: Node?)
      requires nidasObject.DsmObject?
      requires nidasObject.dsm != null && siteNodes.Some? ==>
                 FirstIndex(siteNodes.value, NameIs(nidasObject.dsm.site.name)) < |siteNodes.value|
      ensures nidasObject.dsm == null || siteNodes.None? ==> n == null
      ensures nidasObject.dsm != null && siteNodes.Some? ==>
        var siteNode := First(siteNodes.value, NameIs(nidasObject.dsm.site.name));
        n == First(siteNode.children, DsmIdIs(nidasObject.dsm.id))
    {
      var dsmConfig := nidasObject.dsm;
      if dsmConfig == null {
        return null;
      }
      if siteNodes.None? {
        return null;
      }
      var siteNode := FindFirst(siteNodes.value, NameIs(dsmConfig.site.name));
      FirstIsFound(siteNodes.value, NameIs(dsmConfig.site.name), siteNode);
      n := FindFirst(siteNode.children, DsmIdIs(dsmConfig.id));
      FirstIsFound(siteNode.children, DsmIdIs(dsmConfig.id), n);
    }

    /** ProjectItem::dataField and DSMItem::dataField: the item's name in column 0, nothing elsewhere. */
    function DataField(column: int): (r: string)
      requires nidasObject.ProjectObject? || (nidasObject.DsmObject? && nidasObject.dsm != null)
      reads if nidasObject.ProjectObject? then {nidasObject.project} else {nidasObject.dsm}
      ensures column != 0 ==> r == ""
      ensures column == 0 && nidasObject.ProjectObject? ==> r == nidasObject.project.name
      ensures column == 0 && nidasObject.DsmObject? ==> r == DsmName(nidasObject.dsm.location, nidasObject.dsm.name)
      ensures column == 0 && nidasObject.DsmObject? && !Contains(nidasObject.dsm.location, " [") ==>
                ParseDsmName(r) == Some((nidasObject.dsm.location, nidasObject.dsm.name))
    {
      if column != 0 then ""
      else if nidasObject.ProjectObject? then nidasObject.project.name
      else if Contains(nidasObject.dsm.location, " [") then DsmName(nidasObject.dsm.location, nidasObject.dsm.name)
      else
        DsmNameRoundTrip(nidasObject.dsm.location, nidasObject.dsm.name);
        DsmName(nidasObject.dsm.location, nidasObject.dsm.name)
    }

    /**
     * DSMItem::removeChild of a sensor item: the sensor elements of the
     * DSM's DOM node with the sensor's device name are deleted by the loop
     * as written (which misses a match directly after a removed one), and then the
     * first sensor of the DSMConfig with that device name, if any, and no
     * other. A missing DSMConfig or DOM node is an internal error, raised
     * before anything changes.
     */
    method RemoveSensorChild(item: NidasItem, found: Node?) returns (r: Outcome)
      requires nidasObject.DsmObject? && item.nidasObject.SensorObject?
      requires domNode != null ==> domNode !in domNode.children
      requires domNode == null && found != null ==> found !in found.children
      modifies this, nidasObject.dsm, domNode, found
      ensures nidasObject.dsm == null ==> r == Fail(Internal("null DSMConfig")) && domNode == old(domNode)
      ensures nidasObject.dsm != null ==> domNode == (if old(domNode) != null then old(domNode) else found)
      ensures nidasObject.dsm != null && domNode == null ==>
                r == Fail(Internal("null dsm DOM node")) && nidasObject.dsm.sensors == old(nidasObject.dsm.sensors)
      ensures nidasObject.dsm != null && domNode != null ==> r == Pass
      ensures var node := domNode;
                nidasObject.dsm != null && node != null ==>
                  node.children == LiveScan(old(node.children),
                                            old(MatchFlags(node.children, SensorOfDevice(item.nidasObject.sensor.deviceName))),
                                            0, |old(node.children)|) &&
                  node.attrs == old(node.attrs)
      ensures nidasObject.dsm != null && domNode != null ==>
                FirstSensorRemoved(old(nidasObject.dsm.sensors), nidasObject.dsm.sensors, item.nidasObject.sensor.deviceName) &&
                nidasObject.dsm.name == old(nidasObject.dsm.name) && nidasObject.dsm.id == old(nidasObject.dsm.id)
      ensures childItems == old(childItems)
    {
      var deleteDevice := item.nidasObject.sensor.deviceName;
      var dsmConfig := nidasObject.dsm;
      if dsmConfig == null {
        return Fail(Internal("null DSMConfig"));
      }
      var dsmNode := GetDOMNode(found);
      if dsmNode == null {
        return Fail(Internal("null dsm DOM node"));
      }
      ghost var flags := MatchFlags(dsmNode.children, SensorOfDevice(deleteDevice));
      assert flags == old(MatchFlags(dsmNode.children, SensorOfDevice(deleteDevice)));
      RemoveMatchingAsWritten(dsmNode, SensorOfDevice(deleteDevice));
      RemoveFirstSensor(dsmConfig, deleteDevice);
      return Pass;
    }

    /**
     * ProjectItem::removeChild of a site: the <site> elements of the
     * project's DOM node with the site's name are deleted by the same loop
     * as DSMItem::removeChild, as written; the Project's own
     * list of sites is left as it is. A missing project DOM node is an
     * internal error.
     */
    method RemoveSiteChild(siteName: string, projectNodes: Option<seq<Node>>) returns (r: Outcome)
      requires nidasObject.ProjectObject?
      requires domNode != null ==> domNode !in domNode.children
      requires domNode == null && projectNodes.Some? ==>
        forall k :: 0 <= k < |projectNodes.value| ==> projectNodes.value[k] !in projectNodes.value[k].children
      modifies this, domNode, if projectNodes.Some? then set k | 0 <= k < |projectNodes.value| :: projectNodes.value[k] else {}
      ensures domNode == null || domNode == old(domNode) || (projectNodes.Some? && domNode in projectNodes.value)
      ensures old(domNode) != null ==> domNode == old(domNode)
      ensures domNode == null ==> r == Fail(Internal("null project DOM node"))
      ensures domNode != null ==> r == Pass
      ensures var node := domNode;
        node != null ==>
          node.children == LiveScan(old(node.children), old(MatchFlags(node.children, SiteNamed(siteName))), 0, |old(node.children)|) &&
          node.attrs == old(node.attrs)
      ensures nidasObject.project.sites == old(nidasObject.project.sites)
      ensures childItems == old(childItems)
    {
      var projectNode := ProjectDOMNode(projectNodes);
      if projectNode == null {
        return Fail(Internal("null project DOM node"));
      }
      if projectNodes.Some? && old(domNode) == null {
        FirstIsMember(projectNodes.value, NameIs(nidasObject.project.name));
      }
      ghost var flags := MatchFlags(projectNode.children, SiteNamed(siteName));
      assert flags == old(MatchFlags(projectNode.children, SiteNamed(siteName)));
      RemoveMatchingAsWritten(projectNode, SiteNamed(siteName));
      return Pass;
    }
  }

  lemma FirstIsFound(nodes: seq<Node>, p: Probe, found: Node?)
    requires found == null <==> forall k :: 0 <= k < |nodes| ==> !Holds(nodes[k], p)
    requires found != null ==> exists i :: 0 <= i < |nodes| && nodes[i] == found && Holds(found, p) &&
                                           forall k :: 0 <= k < i ==> !Holds(nodes[k], p)
    ensures found == First(nodes, p)
  {
    var i := FirstIndex(nodes, p);
    if found != null {
      var j :| 0 <= j < |nodes| && nodes[j] == found && Holds(found, p) && forall k :: 0 <= k < j ==> !Holds(nodes[k], p);
      assert i == j;
    }
  }

  lemma FirstIsMember(nodes: seq<Node>, p: Probe)
    ensures First(nodes, p) == null || First(nodes, p) in nodes
  {
  }

  lemma DistinctConcat<T>(a: seq<T>, b: seq<T>)
    requires Seqs.Distinct(a) && Seqs.Distinct(b)
    requires forall k :: 0 <= k < |b| ==> b[k] !in a
    ensures Seqs.Distinct(a + b)
  {
    var s := a + b;
    forall x, y | 0 <= x < y < |s| ensures s[x] != s[y] {
      if y >= |a| && x < |a| {
        assert s[y] == b[y - |a|] && s[x] in a;
      } else if x >= |a| {
        assert s[x] == b[x - |a|] && s[y] == b[y - |a|];
      }
    }
  }

  /** Taking a range out of a list without repetitions leaves a list without repetitions. */
  lemma DistinctSplice<T>(s: seq<T>, i: nat, j: nat)
    requires i <= j <= |s| && Seqs.Distinct(s)
    ensures Seqs.Distinct(s[..i] + s[j..])
    ensures forall x :: x in s[..i] + s[j..] ==> x in s
  {
    var t := s[..i] + s[j..];
    forall a, b | 0 <= a < b < |t| ensures t[a] != t[b] {
      var a' := if a < i then a else a + (j - i);
      var b' := if b < i then b else b + (j - i);
      assert t[a] == s[a'] && t[b] == s[b'];
    }
  }

  /** Gives every item from position `from` on its position as row number; earlier items keep theirs. */
  method Renumber(items: seq<NidasItem>, from: int)
    requires 0 <= from <= |items| && Seqs.Distinct(items)
    modifies set c | c in items
    ensures forall k :: from <= k < |items| ==> items[k].rowNumber == k
    ensures forall k :: 0 <= k < from ==> items[k].rowNumber == old(items[k].rowNumber)
  {
    var f := from;
    while f < |items|
      invariant from <= f <= |items|
      invariant forall k :: from <= k < f ==> items[k].rowNumber == k
      invariant forall k :: 0 <= k < from ==> items[k].rowNumber == old(items[k].rowNumber)
    {
      forall k | 0 <= k < |items| && k != f ensures items[k] != items[f] {
      }
      items[f].rowNumber := f;
      f := f + 1;
    }
  }

  /** The DSMConfig's sensor list after the first sensor with the device name, if any, is taken out. */
  ghost predicate FirstSensorRemoved(before: seq<DSMSensor>, after: seq<DSMSensor>, device: string)
    reads set s | s in before
  {
    ((forall k :: 0 <= k < |before| ==> before[k].deviceName != device) && after == before) ||
    exists i :: 0 <= i < |before| && before[i].deviceName == device &&
                (forall k :: 0 <= k < i ==> before[k].deviceName != device) &&
                after == Seqs.Without(before, before[i])
  }

  /** The domain half of DSMItem::removeChild: the first sensor with the device name is removed, and only it. */
  method RemoveFirstSensor(dsmConfig: DSMConfig, device: string)
    modifies dsmConfig
    ensures FirstSensorRemoved(old(dsmConfig.sensors), dsmConfig.sensors, device)
    ensures dsmConfig.name == old(dsmConfig.name) && dsmConfig.id == old(dsmConfig.id)
    ensures dsmConfig.location == old(dsmConfig.location)
  {
    var sensors := dsmConfig.sensors;
    var i := 0;
    while i < |sensors|
      invariant 0 <= i <= |sensors| && sensors == dsmConfig.sensors == old(dsmConfig.sensors)
      invariant forall k :: 0 <= k < i ==> sensors[k].deviceName != device
    {
      var sensor := sensors[i];
      if sensor.deviceName == device {
        dsmConfig.RemoveSensor(sensor);
        return;
      }
      i := i + 1;
    }
  }
}
