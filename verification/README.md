# aircraft_config_edit: the editing engine, in Dafny

aircraft_config_edit is the NCAR/EOL editor for NIDAS aircraft
configuration files. A configuration lives twice in the editor. The XML
DOM holds project > site > dsm > sensor > sample > variable elements. The
nidas objects (Project, Site, DSMConfig, DSMSensor, SampleTag, Variable)
are made from that XML and validated by the nidas library. A tree of
presentation items (ProjectItem, SiteItem, DSMItem, SensorItem, ...) sits
over the nidas objects for the Qt views.

This project models three parts of the editor:

- **The `Document` editing engine** (`Document.cc`). Every edit first
  checks uniqueness. It then changes the DOM and lets nidas read the change
  back. When nidas complains, the edit undoes what it did and passes the
  complaint on.
- **The presentation items' bookkeeping** (`nidas_qmv/*Item*`). Items build
  their children lazily, cache their DOM node, renumber rows after a
  removal, and delete children from both trees.
- **The device table of `DeviceValidator`** (`DeviceValidator.cc`).

Module layout:

- `Exceptions`: the exception kinds and the Result, Outcome and Option types.
- `Text`: stream reads, atoi, decimal output and substring search, written out.
- `Seqs`: sequence facts.
- `Dom`: element and text nodes, with the Xerces mutators the editor uses.
- `Nidas`: the nidas objects, holding only the state the editor reads or changes.
- `Elements`: the elements the editor creates, described as values.
- `Validation`: validateDsmInfo and validateSampleInfo.
- `Allocators`: the next ids, the free A2D channels, and the sample scan of insertA2DVariable.
- `Calibration`: calibration elements, the calfile search and the directory listing order.
- `A2DVariables`: the voltage ranges, variable names, the re-insertion order of addNCARVariable and its error report.
- `Devices`: the DeviceValidator table and map.
- `Items`: the presentation items.
- `Editing`: the Document class and the add and update protocols.

The nidas calls whose code is not part of this model become parameters of
the operation that makes them. These are `fromDOMElement`, `validate`,
`sensorFromDOMElement`, `findSampleDOMNode` and the items' `findDOMNode`.
Each parameter is the verdict, the object or the node the call returns.
For addDSM, the sensor that `fromDOMElement` makes of the new DSM's IRIG
child is such a parameter too.

The description of the system and its code disagree in four places. The model follows the code in each:

- **Error report after re-inserting variables.** The description says the
  first exception met is re-raised. addNCARVariable in fact keeps the *last*
  exception of each kind. It raises an internal error before an invalid
  parameter, and that before an unexpected error (`A2DVariables.AggregateOutcomes`).
- **Duplicate identifiers.** The description calls the complaint about a
  duplicate identifier `DuplicateIdentifier`. The code throws
  `InvalidParameterException`.
- **Removing children.** The description has a delete remove every matching
  node. The removal loop of DSMItem::removeChild and ProjectItem::removeChild
  can miss one (see Findings).
- **Rolling back an update.** The description has a rejected update leave the
  DOM exactly as it was. updateDSM writes back the DSM's own name, decimal id
  and location, and always sets the location attribute. A DSM without a
  location, or with an id not written in plain decimal, comes back changed
  (see Findings).

## Model

| member | source | states |
|---|---|---|
| Validation.ValidateDsmInfo | Document.cc:718-770 | An id that does not read as an unsigned number is an InvalidParameter. Otherwise: an id or name repeated among the site's existing DSMs is an InternalProcessing error; a new id, then a new name, already in use is an InvalidParameter; else the parsed id is returned |
| Validation.CheckDsmUniqueness | Document.cc:730-769 | The std::set loop gives exactly that verdict: consistent iff the existing ids and names have no duplicates, accepted iff the new id and name are both unused |
| Validation.DsmAcceptanceKeepsUniqueness | Document.cc:760-767 | For a consistent site, the DSM lists stay duplicate-free with the new DSM added iff its id and its name are unused |
| Validation.ValidateSampleInfo | Document.cc:1147-1183 | As written: a bad id is an InvalidParameter; a repeated full id (getId) among the sensor's tags is internal; a new sample id found among those full ids is an InvalidParameter; else the parsed id |
| Validation.FullIdCheckAdmitsTakenSampleId | Document.cc:1166-1178 | A tag with sample id 1 and another full id: the check as written accepts "1", the check on sample ids rejects it |
| Validation.ValidateSampleInfoBySampleId | Document.cc:1147-1183 | As intended: the same scheme on the sensor's sample ids, so an id is accepted exactly when no tag has it |
| Validation.SampleAcceptanceKeepsUniqueness | Document.cc:1175-1182 | An id the corrected check accepts keeps the sensor's sample ids distinct once a tag with it is added |
| Validation.CheckSampleUniqueness | Document.cc:1159-1182 | The set loop gives exactly that verdict: internal iff the ids the tags yield repeat, accepted iff the new id is not among them |
| Allocators.NextSensorId | Document.cc:1521-1534 | The result is the largest sensor id plus 200, modulo 2^32 |
| Allocators.NextSensorIdIsFresh | Document.cc:1524-1534 | 200 for a DSM without sensors; without wrap-around larger than every existing sensor id; after a wrap below 200 |
| Allocators.NextDsmId | Document.cc:1635-1649 | The result is above every DSM id below the wing threshold; it is 1, or one more than such an id, and at most the threshold |
| Allocators.EraseFirst | Document.cc:1592-1593 | The list minus the first occurrence of c, and unchanged when c is absent |
| Allocators.AvailableA2DChannels | Document.cc:1580-1602 | Strictly ascending, and c is in the result iff 0 <= c < 8 and no variable of any sample tag uses channel c |
| Allocators.ScanSamples | Document.cc:2396-2410 | A child that is not an A2D variable item is an internal error. Otherwise the used ids are exactly the tags' sample ids, and the tag found is the last joinable one: same rate, no temperature parameter. None is found iff none is joinable |
| Allocators.NewSampleId | Document.cc:2420-2430 | The smallest of 1..98 not in use, or 0 when all are used |
| A2DVariables.VoltsLabel | Document.cc:1986-1997 | A label exists exactly for the four supported (gain, bipolar) pairs; any other pair is an InternalProcessing error |
| A2DVariables.GainBipolarOf | Document.cc:2589-2626 | A pair exists exactly for the four voltage labels, and it is a supported one; any other label is an InternalProcessing error |
| A2DVariables.VoltsRoundTrip | Document.cc:1986-1997 | The two tables are inverse to each other in both directions |
| A2DVariables.VariableName | Document.cc:2511-2515 | The name starts with the prefix; it is the prefix when there is no suffix, else prefix, '_' and suffix |
| A2DVariables.VariableNameRoundTrip | Document.cc:2511-2515 | For a prefix without '_', splitting the name at its first '_' gives back prefix and suffix |
| A2DVariables.Describe | Document.cc:1980-2001 | An existing variable is described exactly when its gain and bipolar pair is supported |
| A2DVariables.DescribeReadsBack | Document.cc:1986-1999 | The described channel and rate read back as the variable's own values through atoi, and the volts label maps back to its pair |
| A2DVariables.InsertByChannel | Document.cc:2011-2036 | x is inserted at one position of the list; into a channel-sorted list without x's channel, the result is channel-sorted |
| A2DVariables.PlaceByChannel | Document.cc:2011-2036 | Each placement adds the entry to the multiset, and keeps the list sorted when all channels are distinct |
| A2DVariables.GatherOne | Document.cc:1973-2042 | One child: a missing child or failing description is an internal error, an A2DTEMP child leaves the list alone, and any other is placed by channel |
| A2DVariables.GatherByChannel | Document.cc:1965-2044 | The first loop's list is a permutation of the new variable plus the gathered ones, sorted by channel when channels are distinct; a gathering error is internal |
| A2DVariables.InsertByRate | Document.cc:2052-2074 | x is inserted at one position; if x has a channel above every entry, a rate-then-channel sorted list stays sorted (a stable insert after equal rates) |
| A2DVariables.OrderByRate | Document.cc:2047-2075 | The result is a permutation of the input, and a channel-sorted input comes out sorted by rate, then by channel |
| A2DVariables.PlanReinsertion | Document.cc:1954-2075 | A permutation of the new variable plus every non-A2DTEMP existing variable; sorted by rate, then channel, when the channels are distinct; an internal error for a non-A2D child or unsupported range. The new variable's cals already end with its units, and existing rates are taken truncated to int |
| A2DVariables.MoveUnitsOutOfCals | Document.cc:2095-2101 | A last calibration value that is not a number becomes the units and is emptied; nothing else changes |
| A2DVariables.LastOfKindIsLast | Document.cc:2113-2118 | The exception kept for a kind is one of that kind with none of the kind after it; none is kept iff none occurred |
| A2DVariables.AggregateOutcomes | Document.cc:2086-2126 | The last internal error wins; failing that, the last invalid parameter; failing both, success iff every insertion passed |
| Calibration.PolyCoefs | Document.cc:3176-3178 | The loop builds the first value followed by " v" for every later non-empty value |
| Calibration.PolyCoefsRoundTrip | Document.cc:3176-3178 | Splitting the coefficient string on spaces gives back the first value and the later non-empty values, when none holds a space |
| Calibration.CalibElem | Document.cc:3152-3215 | Poly iff the third value is non-empty, with the joined coefficients; else linear with intercept cals[0] and slope cals[1]; never a calfile |
| Calibration.EngCalPath | Document.cc:3270-3274 | The path has exactly the length of the two directory names, each followed by the site, plus the colon |
| Calibration.EngCalPathParts | Document.cc:3270-3274 | The path is the temporary directory of the site, ':', then the project directory of the site; different sites give different paths |
| Calibration.VarCalFileElemDeterminesArgs | Document.cc:3217-3283 | The calfile reference of addVarCalFileElem names its file, units and site unambiguously: different arguments give different elements |
| Calibration.FindEngCalFile | Document.cc:2647-2665 | None iff no entry is name.dat or pfx.dat. Otherwise the first such entry, with name.dat chosen when it equals that entry |
| Calibration.ReadIntoShape | Document.cc:303-312 | After the listing: underscored .dat files, latest read first, then the old list, then the other .dat files in reading order |
| Calibration.ReadIntoKinds | Document.cc:303-312 | Every name added contains ".dat"; the front part holds only names with "_", the back only names without |
| Calibration.ReadIntoCounts | Document.cc:303-312 | Each ".dat" entry is added exactly once and every other entry is dropped |
| Devices.FirstWins | DeviceValidator.cc:54-58 | The keys of the map built by std::map::insert are exactly the sensor names of the rows |
| Devices.FirstWinsEntries | DeviceValidator.cc:54-58 | Every entry is a row of the table filed under its own name |
| Devices.FirstWinsKeepsFirst | DeviceValidator.cc:57 | A row whose name no earlier row has is the entry for that name, whatever follows |
| Devices.DeviceValidator.constructor | DeviceValidator.cc:50-64 | The validator's map is the first-wins map of the whole table |
| Devices.EveryNameIsKey | DeviceValidator.cc:54-58 | Every table name is a key and every key is a table name |
| Devices.Fast2DCKeepsFirstRow | DeviceValidator.cc:20-21 | Fast2DC maps to its first row, prefix "/dev/usbtwod", not the "/dev/usbtwod_64_" row |
| Devices.Fast2DCRows | DeviceValidator.cc:20-21 | The two Fast2DC rows are rows 11 and 12, and no earlier row is Fast2DC |
| Devices.DeviceRangeIsZeroToNine | DeviceValidator.cc:9-45 | Every row, and so every map entry, has min 0 and max 9 |
| Devices.FewerKeysThanRows | DeviceValidator.cc:8-46 | The table has 37 rows and the map at most 36 keys |
| Elements.IrigSuffixOfConventionalName | Document.cc:1340-1346 | A DSM named "dsm" + rest gets the IRIG suffix "_" + rest |
| Elements.IrigSuffixKeepsName | Document.cc:1340-1344 | The suffix starts with '_'; without "dsm" the rest is the whole name; otherwise putting "dsm" back where it was found gives the name |
| Elements.DsmAttrs | Document.cc:1300-1313 | Name and id as given, the location only when non-empty, and the three fixed port settings |
| Elements.SensorAttrs | Document.cc:603-620 | Class for an analog card, else IDREF to the catalog name; devicename and id as given; a suffix only when non-empty |
| Elements.PmsParams | Document.cc:805-866 | The SerialNumber parameter, then a RESOLUTION parameter iff a resolution is given |
| Elements.SensorKidsByKind | Document.cc:622-644 | NCAR analog: calfile, rate and A2D temperature sample. DMMAT: the first two. PMS probe: its parameters. Other sensors: nothing |
| Elements.BoxcarPointsIsOne | Document.cc:1214-1219 | nPts = 500/rate, truncated, is 1 exactly for rates 251..500 |
| Elements.BoxcarParams | Document.cc:1219-1253 | No boxcar parameters exactly for rates 251..500; otherwise the filter parameter and the numpoints parameter |
| Elements.NumpointsReadsBack | Document.cc:1216-1247 | The numpoints text reads back as nPts |
| Elements.DsmUpdateLastWins | Document.cc:1482-1492 | A second DSM update overrides the first entirely, which is what the rollback relies on |
| Elements.DsmUpdateRestores | Document.cc:1482-1492 | Updating with the values the element holds changes nothing |
| Elements.UpdatedSensorAttrs | Document.cc:531-544 | The suffix attribute is present exactly when the new suffix is non-empty |
| Elements.SensorUpdateLastWins | Document.cc:531-544 | A second sensor update overrides the first entirely |
| Elements.SensorUpdateRestores | Document.cc:531-544 | Updating with the element's own values, no suffix standing for "", changes nothing |
| Elements.Build | Document.cc:1289-1353 | createElementNS and setAttribute produce fresh nodes realizing the described element |
| Elements.AppendBuilt | Document.cc:1348 | The parent gains the built element as its last child, with its attributes unchanged |
| Editing.LastSelected | Document.cc:406-415 | None iff no index is valid in column 0; otherwise the item of the last such index |
| Editing.NotedIsSetInsert | Document.cc:868-884 | Noting keeps the list duplicate-free, holds exactly the old names and the new one, and is idempotent |
| Editing.FindSensor | Document.cc:365-381 | An entry iff the name is non-empty, there is a catalog and the name is a key; it is that key's entry |
| Editing.UpdateOutcome | Document.cc:469-510 | An update passes iff the read-back passes; a different failure comes only from the rollback's re-read after a caught complaint |
| Editing.Both | Document.cc:1448-1451 | fromDOM and validate both pass, or the first to throw decides |
| Editing.SensorUpdateRollsBack | Document.cc:476-509 | Accepted: the new values. Rolled back: the element as it was, when it agreed with its sensor. Other failures: the rejected values remain |
| Editing.DsmUpdateRollsBack | Document.cc:1452-1463 | The same for a DSM: new values when accepted; when rolled back, the old element back provided it held a location and its id as the decimal text of the DSM's id |
| Editing.DsmRollbackIsNotExact | Document.cc:1452-1490 | A DSM element without a location gains an empty one through a rolled-back update, and an id written "07" comes back as "7" |
| Editing.ExactDsmRollback | Document.cc:1452-1463 | Putting back the element's own name, id and location, or removing those it lacked, undoes any update exactly |
| Editing.DsmListGrows | Document.cc:1383 | Appending a DSM appends its id and name to the site's id and name lists |
| Editing.ConsistentAppend | Document.cc:1383 | A DSM with a new id and name keeps the site free of duplicates |
| Editing.SensorTag | Document.cc:569-583 | "sensor" for an analog card; else the catalog entry's tag, which exists iff the catalog holds the name |
| Editing.CalElemRoundTrip | Document.cc:3152-3283 | Every calibration element written reads back as itself |
| Editing.GainBipolarTextReadsBack | Document.cc:2591-2617 | The gain and bipolar texts read back as the supported pair they were written from |
| Editing.A2DVariableElemReadsBack | Document.cc:2509-2630 | The variable element's gain and bipolar parameters read back as the chosen voltage range, and its channel parameter as the channel |
| Editing.AttachOutcome | Document.cc:2680-2731 | Pass iff the variable reads and the site validates. A site complaint stays InvalidParameter exactly when it was one; any other becomes internal |
| Editing.SampleError | Document.cc:2474-2484 | With a joinable sample: no error iff its element was found. Otherwise: no error iff nidas read the new sample, else nidas's complaint |
| Editing.Document.ReadEngCalFiles | Document.cc:284-312 | A failed opendir marks the directory missing; otherwise the list becomes the listing read in, underscored names in front |
| Editing.Document.AddMissingEngCalFile | Document.cc:868-884 | The name is appended unless already listed; nothing else changes |
| Editing.Document.SelectedItem | Document.cc:406-415 | The loop returns the last valid column-0 item |
| Editing.Document.UpdateSensorDOM | Document.cc:517-545 | Internal errors for a null or non-element node; otherwise the attributes after remove-then-set, the suffix only when non-empty; children untouched |
| Editing.Document.UpdateSensor | Document.cc:383-515 | The root, selection and node checks in source order. Then the new values, and on a caught complaint the old device name, id and suffix written back, re-read and the complaint passed on |
| Editing.Document.UpdateDSMDOM | Document.cc:1467-1496 | Internal errors for a null or non-element node; otherwise name, id and location each removed and set |
| Editing.Document.UpdateDSM | Document.cc:1409-1465 | The selection checks. Then the new values; on a caught complaint of fromDOM or validate, the old name, decimal id and location written back, re-read and the complaint passed on |
| Editing.Document.CreateSampleElement | Document.cc:1185-1256 | Fresh nodes realizing the sample element: id, rate, and boxcar parameters unless nPts is 1 |
| Editing.Document.AppendBoxcar | Document.cc:1219-1253 | The two boxcar parameters are appended unless nPts is 1 |
| Editing.Document.NewParameter | Document.cc:776-798 | A fresh childless parameter element with the given attributes |
| Editing.Document.AddDSM | Document.cc:1258-1407 | Root and site checks, then validateDsmInfo's verdict. On success the DSM, holding the sensor nidas made of the element's IRIG child, joins the site and its element the site's node, and the site stays duplicate-free. A nidas complaint changes nothing |
| Editing.Document.AdmitDsm | Document.cc:1383 | The site's list gains the DSM at the end and stays duplicate-free |
| Editing.Document.NewDSMConfig | Document.cc:1367-1374 | A fresh DSMConfig with the site, name, id and location given, and no sensors yet |
| Editing.Document.JoinSite | Document.cc:1362-1400 | A fromDOM complaint is passed on with nothing changed; otherwise the DSM holds exactly the sensor made of the IRIG child and joins the site, the realized element the site's node |
| Editing.Document.AddSensor | Document.cc:548-689 | Root, catalog and node checks in source order; a null or duplicate nidas sensor is internal; otherwise JoinDsm's protocol |
| Editing.Document.JoinDsm | Document.cc:651-682 | An InvalidParameter validation removes the sensor again; any other complaint leaves it; either way the DOM is untouched; a pass appends the element |
| Editing.Document.ChooseCalibration | Document.cc:2632-2672 | XML values give addCalibElem's element; else the matching calfile, or name.dat with the name noted missing, which happens only then |
| Editing.Document.UndoSample | Document.cc:2478-2482 | A created sample's tag and element are removed, giving back the samples and children from before; a joined one changes nothing |
| Editing.Document.NewSample | Document.cc:2419-2466 | A nidas complaint about the new sample changes nothing; otherwise a fresh tag with the id and rate joins the sensor and its element the sensor's node |
| Editing.Document.InsertA2DVariable | Document.cc:2362-2746 | Internal errors for a non-analog sensor or non-variable child; InvalidParameter for a bad rate. Then the last joinable sample or a new one, the outcome, gain and calibration as Placed states, and the rollback on every failure except a non-InvalidParameter complaint about the variable |
| Editing.Document.ScanAndPlace | Document.cc:2396-2746 | A null sample tag child is internal; otherwise the last joinable sample is found and the variable placed on it or on a new sample, with the rollback on failure |
| Editing.Document.PlaceVariable | Document.cc:2418-2746 | Dispatches on the joinable sample; Placed and the rollback hold either way |
| Editing.Document.PlaceOnSample | Document.cc:2474-2746 | A missing sample element is internal; the sensor's samples and element never change; a pass appends the variable, with its channel, to the tag and its element to the sample's |
| Editing.Document.PlaceOnNewSample | Document.cc:2419-2746 | A new sample with a fresh id (or 0); on a pass it holds just the variable, and its element the variable element after its own children |
| Editing.Document.CompleteVariable | Document.cc:2589-2626 | An unknown voltage range is internal and undoes a created sample; a known one sets the channel's gain and bipolar flag, then attaches |
| Editing.Document.AttachVariable | Document.cc:2632-2691 | The calibration is chosen; a nidas complaint about the variable is passed on, undoing a created sample only when it is InvalidParameter |
| Editing.Document.JoinVariable | Document.cc:2694-2746 | Validation failure takes the variable out and undoes a created sample; a pass appends the element to the sample's |
| Items.BaseChildLabel | nidas_qmv/NidasItem.cc:181-219 | PROJECT: Site; SITE: DSM; DSMCONFIG columns 0-3: Sensor, Device, S/N, ID, with other columns falling through to Sample; SENSOR: Sample; SAMPLE: Variable; VARIABLE: Name |
| Items.ColumnsHaveOwnLabels | nidas_qmv/SensorItem.h:60-70 | DSM and sensor columns each get their own label, and the sensor's columns past 5 show Unknown. A project has one column, labelled Site |
| Items.DsmNameRoundTrip | nidas_qmv/DSMItem.cc:202-208 | "location [name]" reads back as location and name when the location holds no " [" |
| Items.SensorName | nidas_qmv/SensorItem.cc:62-68 | The catalog name, or the class name when there is none, followed directly by the suffix, with nothing between |
| Items.SensorNameDeterminesSuffix | nidas_qmv/SensorItem.cc:62-68 | Sensors of the same catalog entry or class show the same name only when their suffixes are equal |
| Items.SerialNumberFromCalFile | nidas_qmv/NidasItem.cc:153-165 | Without a SerialNumber, sn.dat shows as sn; with one, the parameter wins |
| Items.FindFirst | nidas_qmv/DSMItem.cc:84-96 | Null iff no node satisfies the probe; otherwise the first that does |
| Items.MatchFlags | nidas_qmv/DSMItem.cc:164-180 | One flag per child, true exactly when the removal rule matches it |
| Items.LiveScanSparesUnmatched | nidas_qmv/DSMItem.cc:161-185 | The loop as written removes no non-matching child and adds nothing |
| Items.LiveScanSkipsNeighbour | nidas_qmv/DSMItem.cc:161-185 | Two adjacent matching children: the loop as written leaves the second |
| Items.RemoveMatchingAsWritten | nidas_qmv/DSMItem.cc:158-186 | The children are exactly what the live-list scan leaves |
| Items.RemoveMatching | nidas_qmv/DSMItem.cc:158-186 | The children are exactly the non-matching ones, in order |
| Items.RemoveMatchingIsExact | nidas_qmv/DSMItem.cc:158-186 | What is kept is exactly the children that do not match |
| Items.NidasItem.constructor | nidas_qmv/NidasItem.cc:38-103 | The object, row and parent as given; no DOM node and no children |
| Items.NidasItem.Child | nidas_qmv/DSMItem.cc:30-53 | A cached row is returned unchanged. Otherwise an item per object from i on, with row = position, is appended, and row i is returned if now present, else null |
| Items.NidasItem.NewChildItems | nidas_qmv/SensorItem.cc:46-52 | Fresh, distinct items for the objects from position i, each with its position as row and this item as parent |
| Items.NidasItem.ChildCount | nidas_qmv/NidasItem.cc:112-118 | A non-zero cached count is returned without a rebuild; otherwise the children are built and counted |
| Items.NidasItem.RemoveChildren | nidas_qmv/NidasItem.cc:221-229 | Exactly rows first..last are removed, the rest keep their order, and every item from first on has its index as row number |
| Items.NidasItem.GetDOMNode | nidas_qmv/ProjectItem.h:35-39 | A cached node is returned without a search; otherwise the lookup's result is stored and returned |
| Items.NidasItem.FindProjectNode | nidas_qmv/ProjectItem.cc:91-114 | The first project element named like the project, or null, stored as the DOM node |
| Items.NidasItem.ProjectDOMNode | nidas_qmv/ProjectItem.h:35-39 | getDOMNode over findDOMNode: the cached node, else the found one, stored |
| Items.NidasItem.FindDsmNode | nidas_qmv/DSMItem.cc:56-99 | Null without a DSMConfig or document; else the first dsm child, whose id reads as the DSM's, of the first site named like the DSM's site |
| Items.NidasItem.DataField | nidas_qmv/ProjectItem.cc:116-121 | Column 0 is the item's name: the project name, or "location [name]" for a DSM, from which the location and the DSM name read back whenever the location holds no " ["; every other column is empty |
| Items.NidasItem.RemoveSensorChild | nidas_qmv/DSMItem.cc:139-200 | A null DSMConfig or DOM node is internal, with nothing changed. Otherwise the sensor elements with the device name are removed by the loop as written, which misses a match directly after a removed one, and only the first matching nidas sensor is removed |
| Items.NidasItem.RemoveSiteChild | nidas_qmv/ProjectItem.cc:130-183 | A null project node is internal; otherwise site elements with the name are removed by the same loop as written, missing a match directly after a removed one; the Project's sites are untouched |
| Items.Renumber | nidas_qmv/NidasItem.cc:226-227 | Every item from `from` on gets its position as row number; earlier ones keep theirs |
| Items.RemoveFirstSensor | nidas_qmv/DSMItem.cc:189-197 | The first sensor with the device name, if any, is removed, and no other |
| Text.ParseUnsigned | Document.cc:723-727 | A stream read of an unsigned int: a read value is below 2^32 |
| Text.ParseUnsignedOfNatToString | Document.cc:1453-1455 | A number written in decimal reads back as itself through the stream and through atoi |
| Text.AtoiOfIntToString | Document.cc:1998-1999 | atoi reads back any int written by std::to_string |
| Text.Find | Document.cc:1341 | std::string::find: the first position where the pattern occurs; none iff it occurs nowhere |

## Left out

- Nidas.SampleTag: the full id (getId) is an opaque number. How nidas packs it from the DSM, sensor and sample ids, and sets it on a new tag, is not part of this model. validateSampleInfo stores full ids in a `set<int>`; the conversion maps distinct 32-bit ids to distinct ints, so the model compares them as naturals.
- XML parsing and writing, opendir/readdir (the listing is a parameter), the Qt model updates, the message boxes and the `cerr` logging: I/O and UI.
- The foreign nidas calls (`fromDOMElement`, `validate`, `sensorFromDOMElement`, `findSampleDOMNode`, the items' `findDOMNode`) become parameters. Their own code is not part of this model.
- The DOMException catch blocks: Xerces element creation and appendChild are taken not to throw.
- `delete` of removed child items (NidasItem.cc:225) and `release()` of removed DOM nodes (DSMItem.cc:183, ProjectItem.cc:164): memory management becomes removal from the lists. The `delete dsm` of a DSMConfig that nidas rejected (Document.cc:1379) and the `clone` of a caught exception are dropped.
- Validation.CheckDsmUniqueness, Validation.ValidateDsmInfo, Validation.CheckSampleUniqueness, Validation.ValidateSampleInfo: on the internal-error path the source deletes the repeated DSMConfig or SampleTag (Document.cc:744, 752, 1171) while the site's or sensor's list still holds it. The model leaves both the list and the entry unchanged, so it does not capture the dangling pointer left behind. Nor does it capture the error text of Document.cc:751-754, which is built from `dsmname`, a reference into the DSM just deleted; the model uses the name as it was.
- updateSensor's updates of the A2D temperature suffix, the calibration file and the PMS parameters: these are foreign item methods (A2DSensorItem, PMSSensorItem) that are not part of this model.
- setSensorId/setDSMId on the new sample tag: the tag's ids are not modelled.
- The DMMAT variable path (insertDSC_A2DVariable and addDSCVariable) is not part of this model. addDSCVariable returns before reaching it.
- isNum is a floating-point parse. It is a parameter of `A2DVariables.MoveUnitsOutOfCals`.
- `throw;` with no exception active, at the end of addNCARVariable, would end the program. `A2DVariables.AggregateOutcomes` reports it as a failure of kind Unexpected instead.
- getAvailableA2DChannels' choice of root (the DMMAT DSM branch, which changes the selection and returns 0..7), getNextSensorId's and getNextDSMId's root checks: the methods are modelled once the sensor, DSM or site is known.
- The `null Site` check of addDSM cannot fail in the model, where a site item always holds a site.
- getElementsByTagName is modelled as the list of site or project elements handed in, not as a search of the whole document.
- `_MIN_WING_DSM_ID` is defined outside the core files, so it is a parameter of `Allocators.NextDsmId`.
- Atoi: the overflow of atoi on out-of-range text is undefined in C and is not modelled.
- Validation.ValidateDsmInfo: requires a non-empty id, because the source leaves iDsmId uninitialised for an empty one.
- Validation.ValidateSampleInfo: requires a non-empty id, for the same reason.
- Editing.Document.AddDSM: requires a non-empty id, for the same reason.
- Editing.Document.UpdateSensor, Editing.Document.UpdateDSM: fromDOM re-derives the DSMSensor's or DSMConfig's fields from the element, in nidas code that is not part of this model. The frames let those objects change, but the contracts do not state their fields afterwards: neither that they hold the new values after a pass, nor the old ones after a rollback.
- Editing.Document.UpdateDSM: requires that a selected DSM item holds a DSMConfig, because updateDSM dereferences the item's DSMConfig without a null check (Document.cc:1437-1440).
- Items.NidasItem.FindDsmNode: requires that the site element is found, because DSMItem::findDOMNode dereferences the site node it looked up without a null check.
- Editing.Document.InsertA2DVariable: requires a non-empty rate, because iSampRate is uninitialised otherwise. It also requires a rate that does not read as 0, because createSampleElement divides by it. This excludes joining an existing rate-0 sample, which the source would allow.
- Editing.Document.InsertA2DVariable: requires that the joined sample's element is not the sensor's element, a property of any parsed document.
- Editing.Document.InsertA2DVariable: states the details of a pass (the joined tag's new variable, the new sample's id, rate and children) only through PlaceOnSample and PlaceOnNewSample. It names the joinable sample by its index (`joinableAt`).
- Editing.Document.PlaceOnNewSample: states the new sample element's attributes and that the variable element follows its children, not what those children are.
- Editing.Document.ChooseCalibration: requires at least three values after the "XML:" marker, because addCalibElem reads cals[2] without a check.
- Calibration.CalibElem: requires at least three values, for the same reason.
- Devices.FewerKeysThanRows: proves at most 36 keys rather than exactly 36, and does not state the map's ascending iteration order (the iteration only prints).
- Nidas.SampleTag.RemoveVariable: nidas removes by pointer. The editor removes only the variable it added last, so the model removes the last variable.
- The gain/bipolar setting and the missing-calfile note of insertA2DVariable are not undone when a later step fails. The same holds for a created sample after a complaint of the variable's fromDOMElement that is not InvalidParameter. Both are as written.
- The element of a new DSM, sensor or variable is built where it is attached. A detached element is seen by nothing but the foreign nidas reader, which is a parameter.
- The Document constructor is declared in Document.h, which is not part of this model; `Editing.Document.constructor` starts with no calibration directory and empty file lists.
- Items.NidasItem.RemoveSiteChild: ProjectItem::removeChild applies `dynamic_cast<Site*>` to the NidasItem it is given (ProjectItem.cc:133-134). An item wraps a nidas object and is not one, so the cast evidently yields null, and `site->getName()` dereferences it. The `siteName` parameter stands for the name the cast was evidently meant to give.

## Findings

The removal methods of the items, Editing.Document.UpdateDSM and Validation.ValidateSampleInfo follow the code as written. The corrected definitions, with their intended property proved, stand beside them.

| source | as written | input that shows it | evidently intended | confidence | as-written member | corrected member |
|---|---|---|---|---|---|---|
| nidas_qmv/DSMItem.cc:161-185 | The loop runs its index up to the original child count over the live child list. After a removal the next child slides into the index just examined and is skipped. The same loop is in ProjectItem.cc:148-167 | A DSM element whose two adjacent children are both sensors with the deleted device name: only the first is removed | Every matching child is removed and every other child kept, in order | not executed | Items.RemoveMatchingAsWritten, Items.LiveScanSkipsNeighbour | Items.RemoveMatching, Items.RemoveMatchingIsExact |
| Document.cc:1159-1178 | validateSampleInfo fills its set with each tag's full id (getId), which packs the DSM id with the sensor id plus the sample id, and then looks the bare new sample id up in it | DSM 1, a sensor whose tag has sample id 1, and the new sample id "1": the full id of the tag is not 1, so "1" is accepted | Existing tags and the new id are compared by sample id, so a taken sample id is an InvalidParameter | not executed | Validation.ValidateSampleInfo, Validation.FullIdCheckAdmitsTakenSampleId | Validation.ValidateSampleInfoBySampleId, Validation.SampleAcceptanceKeepsUniqueness |
| Document.cc:1452-1490 | The rollback of updateDSM writes back the DSM's name, its id as decimal text and its location. updateDSMDOM always sets the location attribute | A DSM created by addDSM with an empty location has no location attribute. After a rejected update it carries location="". An id written "07" comes back as "7" | A rejected update leaves the element exactly as it was | not executed | Editing.DsmRollbackIsNotExact | Editing.ExactDsmRollback |
