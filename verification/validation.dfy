/**
 * The uniqueness checks the editor makes before it adds a DSM to a site or a
 * sample to a sensor: the new id must read as an unsigned number and, with the
 * new name, must not already be in use; the existing entries are checked for
 * duplicates on the way.
 */
module Validation {
  import opened Exceptions
  import opened Text
  import opened Seqs
  import opened Nidas

  /** The message for an entry already in the configuration that repeats another one. */
  function Corrupt(what: string, value: string): string
  {
    what + value + "is not unique: This should NOT happen!"
  }

  /** The message for a new id or name that is already taken. */
  function Taken(what: string, value: string): string
  {
    what + value + " is not unique"
  }

  /** The ids of a site's DSMs, in list order. */
  function DsmIds(dsms: seq<DSMConfig>): (r: seq<nat>)
    reads set d | d in dsms
    ensures |r| == |dsms| && forall i :: 0 <= i < |dsms| ==> r[i] == dsms[i].id
  {
    if dsms == [] then [] else DsmIds(dsms[..|dsms| - 1]) + [dsms[|dsms| - 1].id]
  }

  /** The names of a site's DSMs, in list order. */
  function DsmNames(dsms: seq<DSMConfig>): (r: seq<string>)
    reads set d | d in dsms
    ensures |r| == |dsms| && forall i :: 0 <= i < |dsms| ==> r[i] == dsms[i].name
  {
    if dsms == [] then [] else DsmNames(dsms[..|dsms| - 1]) + [dsms[|dsms| - 1].name]
  }

  /** The ids of a sensor's sample tags, in list order. */
  function SampleIds(samples: seq<SampleTag>): (r: seq<nat>)
    reads set t | t in samples
    ensures |r| == |samples| && forall i :: 0 <= i < |samples| ==> r[i] == samples[i].sampleId
  {
    if samples == [] then [] else SampleIds(samples[..|samples| - 1]) + [samples[|samples| - 1].sampleId]
  }

  /**
   * Document::validateDsmInfo. The id string must read as an unsigned number;
   * existing duplicates are an internal error; a new id or name already in use
   * is an invalid parameter; otherwise the parsed id is returned.
   */
  method ValidateDsmInfo(site: Site, dsmName: string, dsmId: string) returns (r: Result<nat>)
    requires dsmId != ""
    ensures ParseUnsigned(dsmId).None? ==> r.Fails(InvalidParameter)
    ensures ParseUnsigned(dsmId).Some? ==> DsmUniquenessVerdict(site.dsms, dsmName, ParseUnsigned(dsmId).value, r)
  {
    var parsed := ParseUnsigned(dsmId);
    if parsed.None? {
      return Err(Invalid("dsm: " + dsmName + " id " + dsmId));
    }
    r := CheckDsmUniqueness(site.dsms, dsmName, dsmId, parsed.value);
  }

  /** What validateDsmInfo answers once the id has been read as `id`. */
  ghost predicate DsmUniquenessVerdict(dsms: seq<DSMConfig>, dsmName: string, id: nat, r: Result<nat>)
    reads set d | d in dsms
  {
    var ids := DsmIds(dsms);
    var names := DsmNames(dsms);
    Verdict(Distinct(ids) && Distinct(names), id !in ids && dsmName !in names, id, r)
  }

  /**
   * The answer of a uniqueness check: an internal error when the existing
   * entries are not `consistent`; otherwise the id when the new entry is
   * `unused`, and an invalid parameter when it is not.
   */
  predicate Verdict(consistent: bool, unused: bool, id: nat, r: Result<nat>) {
    (!consistent ==> r.Fails(InternalProcessing)) &&
    (consistent ==>
       (r.Ok? <==> unused) &&
       (r.Ok? ==> r.value == id) &&
       (r.Err? ==> r.Fails(InvalidParameter)))
  }

  /** The std::set loop of validateDsmInfo over the site's DSMs, then the checks of the new id and name. */
  method CheckDsmUniqueness(dsms: seq<DSMConfig>, dsmName: string, dsmId: string, iDsmId: nat) returns (r: Result<nat>)
    ensures DsmUniquenessVerdict(dsms, dsmName, iDsmId, r)
  {
    ghost var ids := DsmIds(dsms);
    ghost var names := DsmNames(dsms);
    var idSet: set<nat> := {};
    var nameSet: set<string> := {};
    var j := 0;
    while j < |dsms|
      invariant 0 <= j <= |dsms|
      invariant idSet == Members(ids[..j])
      invariant nameSet == Members(names[..j])
      invariant Distinct(ids[..j]) && Distinct(names[..j])
    {
      var dsm := dsms[j];
      var id, name := dsm.id, dsm.name;
      assert ids[j] == id && names[j] == name;
      SeenStep(ids, j, idSet);
      if id in idSet {
        assert !Distinct(ids);
        return Err(Internal(Corrupt("Existing dsm id", NatToString(id))));
      }
      idSet := idSet + {id};
      SeenStep(names, j, nameSet);
      if name in nameSet {
        assert !Distinct(names);
        return Err(Internal(Corrupt("dsm name", name)));
      }
      nameSet := nameSet + {name};
      j := j + 1;
    }
    SeenAll(ids, idSet);
    SeenAll(names, nameSet);
    if iDsmId in idSet {
      return Err(Invalid(Taken("dsm id ", dsmId)));
    }
    if dsmName in nameSet {
      return Err(Invalid(Taken("dsm name ", dsmName)));
    }
    return Ok(iDsmId);
  }

  /**
   * Accepting a DSM keeps the site's ids and names free of duplicates once the
   * DSM is added, and a DSM whose id and name are fresh on a consistent site
   * is always accepted.
   */
  lemma DsmAcceptanceKeepsUniqueness(ids: seq<nat>, names: seq<string>, id: nat, name: string)
    requires Distinct(ids) && Distinct(names)
    ensures Distinct(ids + [id]) && Distinct(names + [name]) <==> id !in ids && name !in names
  {
    DistinctAppend(ids, id);
    DistinctAppend(names, name);
  }

  /** The full ids (getId) of a sensor's sample tags, in list order. */
  function FullIds(samples: seq<SampleTag>): (r: seq<nat>)
    reads set t | t in samples
    ensures |r| == |samples| && forall i :: 0 <= i < |samples| ==> r[i] == samples[i].fullId
  {
    if samples == [] then [] else FullIds(samples[..|samples| - 1]) + [samples[|samples| - 1].fullId]
  }

  /**
   * Document::validateSampleInfo as written: the same scheme for the sample
   * tags of one sensor, except that the set collects the tags' full ids
   * (getId) and the new bare sample id is then looked up among them.
   */
  method ValidateSampleInfo(sensor: DSMSensor, sampleId: string) returns (r: Result<nat>)
    requires sampleId != ""
    ensures ParseUnsigned(sampleId).None? ==> r.Fails(InvalidParameter)
    ensures ParseUnsigned(sampleId).Some? ==>
              var ids := FullIds(sensor.samples);
              Verdict(Distinct(ids), ParseUnsigned(sampleId).value !in ids, ParseUnsigned(sampleId).value, r)
  {
    var parsed := ParseUnsigned(sampleId);
    if parsed.None? {
      return Err(Invalid("sample Id: " + sampleId));
    }
    r := CheckSampleUniqueness(FullIds(sensor.samples), sampleId, parsed.value);
  }

  /**
   * A sensor whose one sample tag has sample id 1 and any other full id: the
   * check as written accepts the sample id "1" that is already taken, where a
   * check on the sample ids rejects it.
   */
  lemma FullIdCheckAdmitsTakenSampleId(t: SampleTag, r: Result<nat>)
    requires t.sampleId == 1 && t.fullId != 1
    ensures 1 in SampleIds([t])
    ensures Verdict(Distinct(FullIds([t])), 1 !in FullIds([t]), 1, r) <==> r == Ok(1)
    ensures Verdict(Distinct(SampleIds([t])), 1 !in SampleIds([t]), 1, r) ==> r.Fails(InvalidParameter)
  {
    assert FullIds([t]) == [t.fullId];
    assert SampleIds([t]) == [1];
  }

  /**
   * validateSampleInfo as evidently intended: the existing tags and the new id
   * are compared by sample id, so an id is accepted exactly when no tag of the
   * sensor has it.
   */
  method ValidateSampleInfoBySampleId(sensor: DSMSensor, sampleId: string) returns (r: Result<nat>)
    requires sampleId != ""
    ensures ParseUnsigned(sampleId).None? ==> r.Fails(InvalidParameter)
    ensures ParseUnsigned(sampleId).Some? ==> SampleUniquenessVerdict(sensor.samples, ParseUnsigned(sampleId).value, r)
  {
    var parsed := ParseUnsigned(sampleId);
    if parsed.None? {
      return Err(Invalid("sample Id: " + sampleId));
    }
    r := CheckSampleUniqueness(SampleIds(sensor.samples), sampleId, parsed.value);
  }

  /** What validateSampleInfo, comparing sample ids, answers once the id has been read as `id`. */
  ghost predicate SampleUniquenessVerdict(samples: seq<SampleTag>, id: nat, r: Result<nat>)
    reads set t | t in samples
  {
    var ids := SampleIds(samples);
    Verdict(Distinct(ids), id !in ids, id, r)
  }

  /** A sample id the corrected check accepts keeps the sensor's sample ids distinct once a tag with it is added. */
  lemma SampleAcceptanceKeepsUniqueness(samples: seq<SampleTag>, id: nat, r: Result<nat>)
    requires SampleUniquenessVerdict(samples, id, r) && r.Ok?
    ensures Distinct(SampleIds(samples) + [id])
  {
    DistinctAppend(SampleIds(samples), id);
  }

  /** The std::set loop of validateSampleInfo over the ids the sample tags yield, then the check of the new id. */
  method CheckSampleUniqueness(ids: seq<nat>, sampleId: string, iSampleId: nat) returns (r: Result<nat>)
    ensures Verdict(Distinct(ids), iSampleId !in ids, iSampleId, r)
  {
    var idSet: set<nat> := {};
    var j := 0;
    while j < |ids|
      invariant 0 <= j <= |ids|
      invariant idSet == Members(ids[..j])
      invariant Distinct(ids[..j])
    {
      var id := ids[j];
      SeenStep(ids, j, idSet);
      if id in idSet {
        return Err(Internal(Corrupt("Existing sample id", NatToString(id))));
      }
      idSet := idSet + {id};
      j := j + 1;
    }
    SeenAll(ids, idSet);
    if iSampleId in idSet {
      return Err(Invalid(Taken("sample id ", sampleId)));
    }
    return Ok(iSampleId);
  }
}
