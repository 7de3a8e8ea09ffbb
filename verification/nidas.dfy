/**
 * The nidas configuration objects the editor keeps beside the DOM: a project
 * holds sites, a site holds DSMs, a DSM holds sensors, a sensor holds sample
 * tags and a sample tag holds variables. Only the state the editor reads or
 * changes is kept; the list operations are the ones the editor calls.
 */
module Nidas {
  import opened Exceptions
  import opened Seqs

  /** A variable of a sample: only what the editor reads or sets. */
  datatype Variable = Variable(name: string, longName: string, units: string, a2dChannel: int)

  class SampleTag {
    var sampleId: nat
    /**
     * getId(): the full id nidas packs from the DSM id and the sensor id plus
     * the sample id. How it is packed is not part of this model.
     */
    var fullId: nat
    var rate: real
    /** getParameter("temperature") != 0 */
    var hasTemperature: bool
    var variables: seq<Variable>

    constructor (id: nat, r: real, temperature: bool)
      ensures sampleId == id && rate == r && hasTemperature == temperature && variables == []
    {
      sampleId := id;
      rate := r;
      hasTemperature := temperature;
      variables := [];
    }

    method AddVariable(v: Variable)
      modifies this
      ensures variables == old(variables) + [v]
      ensures sampleId == old(sampleId) && rate == old(rate) && hasTemperature == old(hasTemperature)
    {
      variables := variables + [v];
    }

    /**
     * removeVariable(var): nidas holds variables by pointer and removes the
     * object passed. The editor passes only the variable it added last, so
     * the model names that object by its position.
     */
    method RemoveVariable(v: Variable)
      requires |variables| > 0 && variables[|variables| - 1] == v
      modifies this
      ensures variables == old(variables)[..|old(variables)| - 1]
      ensures sampleId == old(sampleId) && rate == old(rate) && hasTemperature == old(hasTemperature)
    {
      variables := variables[..|variables| - 1];
    }
  }

  class DSMSensor {
    var deviceName: string
    var sensorId: nat
    var suffix: string
    var catalogName: string
    var className: string
    /** The value of the "SerialNumber" parameter, when the sensor has one. */
    var serialNumber: Option<string>
    /** getCalFile()->getFile(), when the sensor has a calibration file. */
    var calFileName: Option<string>
    /** dynamic_cast<A2DSensor*> succeeds */
    const isAnalog: bool
    var samples: seq<SampleTag>
    /** The per-channel (gain, bipolar) pairs set with setGainBipolar. */
    var gainBipolar: map<int, (int, int)>

    constructor (device: string, id: nat, sfx: string, analog: bool)
      ensures deviceName == device && sensorId == id && suffix == sfx && isAnalog == analog
      ensures catalogName == "" && className == "" && serialNumber == None && calFileName == None
      ensures samples == [] && gainBipolar == map[]
    {
      deviceName := device;
      sensorId := id;
      suffix := sfx;
      isAnalog := analog;
      catalogName := "";
      className := "";
      serialNumber := None;
      calFileName := None;
      samples := [];
      gainBipolar := map[];
    }

    method AddSampleTag(t: SampleTag)
      modifies this
      ensures samples == old(samples) + [t]
      ensures deviceName == old(deviceName) && sensorId == old(sensorId) && suffix == old(suffix)
      ensures gainBipolar == old(gainBipolar)
    {
      samples := samples + [t];
    }

    method RemoveSampleTag(t: SampleTag)
      modifies this
      ensures samples == Without(old(samples), t)
      ensures deviceName == old(deviceName) && sensorId == old(sensorId) && suffix == old(suffix)
      ensures gainBipolar == old(gainBipolar)
    {
      samples := Without(samples, t);
    }

    method SetGainBipolar(channel: int, gain: int, bipolar: int)
      modifies this
      ensures gainBipolar == old(gainBipolar)[channel := (gain, bipolar)]
      ensures samples == old(samples) && deviceName == old(deviceName) && sensorId == old(sensorId)
    {
      gainBipolar := gainBipolar[channel := (gain, bipolar)];
    }
  }

  class DSMConfig {
    var name: string
    var id: nat
    var location: string
    var sensors: seq<DSMSensor>
    const site: Site

    constructor (owner: Site)
      ensures site == owner && name == "" && id == 0 && location == "" && sensors == []
    {
      site := owner;
      name := "";
      id := 0;
      location := "";
      sensors := [];
    }

    method AddSensor(s: DSMSensor)
      modifies this
      ensures sensors == old(sensors) + [s]
      ensures name == old(name) && id == old(id) && location == old(location)
    {
      sensors := sensors + [s];
    }

    method RemoveSensor(s: DSMSensor)
      modifies this
      ensures sensors == Without(old(sensors), s)
      ensures name == old(name) && id == old(id) && location == old(location)
    {
      sensors := Without(sensors, s);
    }
  }

  class Site {
    var name: string
    var dsms: seq<DSMConfig>

    constructor (n: string)
      ensures name == n && dsms == []
    {
      name := n;
      dsms := [];
    }

    method AddDSMConfig(d: DSMConfig)
      modifies this
      ensures dsms == old(dsms) + [d] && name == old(name)
    {
      dsms := dsms + [d];
    }
  }

  class Project {
    var name: string
    var sites: seq<Site>

    constructor (n: string)
      ensures name == n && sites == []
    {
      name := n;
      sites := [];
    }
  }
}
