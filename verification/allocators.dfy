/**
 * The numbers the editor proposes for new things: the next DSM id of a site,
 * the next sensor id of a DSM, the A2D channels still free on a sensor, and
 * the sample a new A2D variable joins (or the id of the sample created for it).
 */
module Allocators {
  import opened Exceptions
  import opened Text
  import opened Nidas

  /** The largest of the ids, or 0 when there are none: the running maximum that starts at 0. */
  ghost function MaxOrZero(ids: seq<nat>): nat
  {
    if ids == [] then 0
    else var m := MaxOrZero(ids[..|ids| - 1]); if ids[|ids| - 1] > m then ids[|ids| - 1] else m
  }

  lemma {:induction false} MaxOrZeroBounds(ids: seq<nat>)
    ensures forall i :: 0 <= i < |ids| ==> ids[i] <= MaxOrZero(ids)
    ensures MaxOrZero(ids) == 0 || MaxOrZero(ids) in ids
  {
    if ids != [] {
      MaxOrZeroBounds(ids[..|ids| - 1]);
    }
  }

  /** One more element in the running maximum. */
  lemma MaxOrZeroStep(ids: seq<nat>, i: nat)
    requires i < |ids|
    ensures MaxOrZero(ids[..i + 1]) == if ids[i] > MaxOrZero(ids[..i]) then ids[i] else MaxOrZero(ids[..i])
  {
    assert ids[..i + 1][..i] == ids[..i];
  }

  function SensorIds(sensors: seq<DSMSensor>): (r: seq<nat>)
    reads set s | s in sensors
    ensures |r| == |sensors| && forall i :: 0 <= i < |sensors| ==> r[i] == sensors[i].sensorId
  {
    if sensors == [] then [] else SensorIds(sensors[..|sensors| - 1]) + [sensors[|sensors| - 1].sensorId]
  }

  /**
   * Document::getNextSensorId once the DSM is known: the largest sensor id plus
   * 200, in unsigned int arithmetic.
   */
  method NextSensorId(dsm: DSMConfig) returns (id: nat)
    requires forall s :: s in dsm.sensors ==> s.sensorId < UINT_LIMIT
    ensures id == (MaxOrZero(SensorIds(dsm.sensors)) + 200) % UINT_LIMIT
  {
    var sensors := dsm.sensors;
    ghost var ids := SensorIds(sensors);
    var maxSensorId := 0;
    var i := 0;
    while i < |sensors|
      invariant 0 <= i <= |sensors|
      invariant maxSensorId == MaxOrZero(ids[..i])
    {
      MaxOrZeroStep(ids, i);
      var sensorId := sensors[i].sensorId;
      assert sensorId == ids[i];
      if sensorId > maxSensorId {
        maxSensorId := sensorId;
      }
      i := i + 1;
    }
    assert ids[..i] == ids;
    MaxOrZeroBounds(ids);
    id := (maxSensorId + 200) % UINT_LIMIT;
  }

  /**
   * The proposed sensor id is 200 on a DSM without sensors, and otherwise is
   * larger than every existing sensor id unless the sum wraps past the
   * largest unsigned int.
   */
  lemma NextSensorIdIsFresh(ids: seq<nat>)
    requires forall i :: 0 <= i < |ids| ==> ids[i] < UINT_LIMIT
    ensures ids == [] ==> (MaxOrZero(ids) + 200) % UINT_LIMIT == 200
    ensures MaxOrZero(ids) + 200 < UINT_LIMIT ==>
              forall i :: 0 <= i < |ids| ==> ids[i] < (MaxOrZero(ids) + 200) % UINT_LIMIT
    ensures MaxOrZero(ids) + 200 >= UINT_LIMIT ==> (MaxOrZero(ids) + 200) % UINT_LIMIT < 200
  {
    MaxOrZeroBounds(ids);
  }

  /**
   * Document::getNextDSMId once the site is known: one more than the largest
   * DSM id below the first wing DSM id, or 1 when there is none. Ids at or
   * above the wing threshold are ignored, and the result is above every id
   * that is not.
   */
  method NextDsmId(site: Site, minWingDsmId: nat) returns (id: nat)
    requires minWingDsmId < UINT_LIMIT
    ensures 1 <= id <= minWingDsmId || id == 1
    ensures forall d :: d in site.dsms && d.id < minWingDsmId ==> d.id < id
    ensures id == 1 || exists d :: d in site.dsms && d.id < minWingDsmId && d.id == id - 1
  {
    var dsms := site.dsms;
    var maxDsmId := 0;
    var i := 0;
    while i < |dsms|
      invariant 0 <= i <= |dsms|
      invariant maxDsmId == 0 || maxDsmId < minWingDsmId
      invariant forall k :: 0 <= k < i && dsms[k].id < minWingDsmId ==> dsms[k].id <= maxDsmId
      invariant maxDsmId == 0 || exists k :: 0 <= k < i && dsms[k].id == maxDsmId
    {
      if dsms[i].id > maxDsmId && dsms[i].id < minWingDsmId {
        maxDsmId := dsms[i].id;
      }
      i := i + 1;
    }
    id := maxDsmId + 1;
    if maxDsmId != 0 {
      var k :| 0 <= k < |dsms| && dsms[k].id == maxDsmId;
      assert dsms[k] in site.dsms;
    }
  }

  /** The channels of the given variables. */
  function VariableChannels(vars: seq<Variable>): set<int>
  {
    if vars == [] then {} else VariableChannels(vars[..|vars| - 1]) + {vars[|vars| - 1].a2dChannel}
  }

  /** The channels used by any variable of any of the sample tags. */
  function UsedChannels(samples: seq<SampleTag>): set<int>
    reads set t | t in samples
  {
    if samples == [] then {}
    else UsedChannels(samples[..|samples| - 1]) + VariableChannels(samples[|samples| - 1].variables)
  }

  predicate StrictlyIncreasing(s: seq<int>) {
    forall a, b :: 0 <= a < b < |s| ==> s[a] < s[b]
  }

  /** The list's erase of the first element equal to c, if there is one. */
  method EraseFirst(list: seq<int>, c: int) returns (r: seq<int>)
    ensures c !in list ==> r == list
    ensures c in list ==> exists k :: 0 <= k < |list| && list[k] == c && c !in list[..k] &&
                                      r == list[..k] + list[k + 1..]
  {
    var i := 0;
    while i < |list|
      invariant 0 <= i <= |list|
      invariant c !in list[..i]
    {
      if list[i] == c {
        return list[..i] + list[i + 1..];
      }
      i := i + 1;
    }
    assert list[..i] == list;
    return list;
  }

  lemma EraseFromIncreasing(list: seq<int>, c: int, r: seq<int>)
    requires StrictlyIncreasing(list)
    requires c !in list ==> r == list
    requires c in list ==> exists k :: 0 <= k < |list| && list[k] == c && r == list[..k] + list[k + 1..]
    ensures StrictlyIncreasing(r)
    ensures forall x :: x in r <==> x in list && x != c
  {
    if c in list {
      var k :| 0 <= k < |list| && list[k] == c && r == list[..k] + list[k + 1..];
      EraseAtMembers(list, k, r);
      EraseAtIncreasing(list, k, r);
    }
  }

  lemma EraseAtMembers(list: seq<int>, k: nat, r: seq<int>)
    requires StrictlyIncreasing(list)
    requires k < |list| && r == list[..k] + list[k + 1..]
    ensures forall x :: x in r <==> x in list && x != list[k]
  {
    forall x | x in list && x != list[k] ensures x in r {
      var j :| 0 <= j < |list| && list[j] == x;
      if j < k { assert r[j] == x; } else { assert r[j - 1] == x; }
    }
    forall x | x in r ensures x in list && x != list[k] {
      var j :| 0 <= j < |r| && r[j] == x;
      if j < k { assert list[j] == x; } else { assert list[j + 1] == x; }
    }
  }

  lemma EraseAtIncreasing(list: seq<int>, k: nat, r: seq<int>)
    requires StrictlyIncreasing(list)
    requires k < |list| && r == list[..k] + list[k + 1..]
    ensures StrictlyIncreasing(r)
  {
    forall a, b | 0 <= a < b < |r| ensures r[a] < r[b] {
      var a' := if a < k then a else a + 1;
      var b' := if b < k then b else b + 1;
      assert r[a] == list[a'] && r[b] == list[b'];
    }
  }

  /**
   * Document::getAvailableA2DChannels on a sensor: 0..7 in ascending order,
   * each variable's channel erased from the list in turn.
   */
  method AvailableA2DChannels(sensor: DSMSensor) returns (chans: seq<int>)
    ensures StrictlyIncreasing(chans)
    ensures forall c :: c in chans <==> 0 <= c < 8 && c !in UsedChannels(sensor.samples)
  {
    chans := [0, 1, 2, 3, 4, 5, 6, 7];
    var samples := sensor.samples;
    var i := 0;
    while i < |samples|
      invariant 0 <= i <= |samples|
      invariant StrictlyIncreasing(chans)
      invariant forall c :: c in chans <==> 0 <= c < 8 && c !in UsedChannels(samples[..i])
    {
      var vars := samples[i].variables;
      var k := 0;
      while k < |vars|
        invariant 0 <= k <= |vars|
        invariant StrictlyIncreasing(chans)
        invariant forall c :: c in chans <==> 0 <= c < 8 && c !in UsedChannels(samples[..i]) + VariableChannels(vars[..k])
      {
        var next := EraseFirst(chans, vars[k].a2dChannel);
        EraseFromIncreasing(chans, vars[k].a2dChannel, next);
        assert vars[..k + 1][..k] == vars[..k];
        chans := next;
        k := k + 1;
      }
      assert vars[..k] == vars;
      assert samples[..i + 1][..i] == samples[..i];
      i := i + 1;
    }
    assert samples[..i] == samples;
  }

  /** A sample tag a new variable of the given rate may join: same rate, not the A2D temperature sample. */
  predicate JoinableSample(t: SampleTag, rate: nat)
    reads t
  {
    t.rate == rate as real && !t.hasTemperature
  }

  /**
   * Position k holds the last sample tag of childTags a variable of this
   * rate may join, or k is -1 and no tag may be joined.
   */
  predicate LastJoinableAt(childTags: seq<SampleTag?>, rate: nat, k: int)
    reads set i | 0 <= i < |childTags| && childTags[i] != null :: childTags[i]
  {
    && -1 <= k < |childTags|
    && (k >= 0 ==> childTags[k] != null && JoinableSample(childTags[k], rate))
    && forall j :: k < j < |childTags| && childTags[j] != null ==> !JoinableSample(childTags[j], rate)
  }

  /** What the scan of an A2D sensor's variables finds. */
  datatype SampleScan = SampleScan(tag: SampleTag?, usedIds: set<nat>)

  /**
   * The scan at the start of insertA2DVariable over the sample tags of the
   * sensor's variables (null for a child that is not an A2D variable item):
   * it collects every sample id and keeps the LAST joinable sample tag.
   */
  method ScanSamples(childTags: seq<SampleTag?>, rate: nat) returns (r: Result<SampleScan>, ghost foundAt: int)
    ensures null in childTags ==> r.Fails(InternalProcessing)
    ensures null !in childTags ==> (r.Ok? &&
      (forall i :: 0 <= i < |childTags| ==> childTags[i].sampleId in r.value.usedIds) &&
      (forall id :: id in r.value.usedIds ==> exists i :: 0 <= i < |childTags| && childTags[i].sampleId == id))
    ensures null !in childTags ==>
      && LastJoinableAt(childTags, rate, foundAt)
      && (r.value.tag == null <==> foundAt == -1)
      && (foundAt >= 0 ==> r.value.tag == childTags[foundAt])
  {
    var ids: set<nat> := {};
    var found: SampleTag? := null;
    foundAt := -1;
    var i := 0;
    while i < |childTags|
      invariant 0 <= i <= |childTags|
      invariant null !in childTags[..i]
      invariant forall k :: 0 <= k < i ==> childTags[k].sampleId in ids
      invariant forall id :: id in ids ==> exists k :: 0 <= k < i && childTags[k].sampleId == id
      invariant found == null ==> foundAt == -1 && forall k :: 0 <= k < i ==> !JoinableSample(childTags[k], rate)
      invariant found != null ==> 0 <= foundAt < i && childTags[foundAt] == found && JoinableSample(found, rate) &&
                                  forall k :: foundAt < k < i ==> !JoinableSample(childTags[k], rate)
    {
      var tag := childTags[i];
      if tag == null {
        return Err(Internal("Found child of A2DSensorItem that's not an A2DVariableItem!")), foundAt;
      }
      ids := ids + {tag.sampleId};
      if tag.rate == rate as real && !tag.hasTemperature {
        found := tag;
        foundAt := i;
      }
      i := i + 1;
    }
    assert childTags[..i] == childTags;
    return Ok(SampleScan(found, ids)), foundAt;
  }

  /**
   * The id of the sample created for a new A2D variable: the first of 1..98
   * that the set insert reports as new, or 0 when all are taken.
   */
  method NewSampleId(used: set<nat>) returns (id: nat)
    ensures (exists i :: 1 <= i < 99 && i !in used) ==>
              1 <= id < 99 && id !in used && forall i :: 1 <= i < id ==> i in used
    ensures (forall i :: 1 <= i < 99 ==> i in used) ==> id == 0
  {
    var ids := used;
    id := 0;
    var i := 1;
    while i < 99
      invariant 1 <= i <= 99
      invariant ids == used
      invariant forall k :: 1 <= k < i ==> k in used
    {
      if i !in ids {
        ids := ids + {i};
        return i;
      }
      i := i + 1;
    }
  }
}
