/**
 * Adding an A2D variable to an NCAR analog sensor: the voltage range labels
 * and the (gain, bipolar) pairs they stand for, the variable's name, the
 * order in which the sensor's variables are re-inserted (by rate, then by
 * channel), and how the errors of the re-insertions are reported.
 */
module A2DVariables {
  import opened Exceptions
  import opened Text

  const ZERO_TO_FIVE: string := "  0 to  5 Volts"
  const MINUS_FIVE_TO_FIVE: string := " -5 to  5 Volts"
  const ZERO_TO_TEN: string := "  0 to 10 Volts"
  const MINUS_TEN_TO_TEN: string := "-10 to 10 Volts"

  /** The programmable gain and the bipolar flag (0 or 1) of an A2D channel. */
  datatype GainBipolar = GainBipolar(gain: int, bipolar: int)

  predicate SupportedRange(g: GainBipolar) {
    g == GainBipolar(4, 0) || g == GainBipolar(2, 1) || g == GainBipolar(2, 0) || g == GainBipolar(1, 1)
  }

  predicate IsVoltsLabel(v: string) {
    v == ZERO_TO_FIVE || v == MINUS_FIVE_TO_FIVE || v == ZERO_TO_TEN || v == MINUS_TEN_TO_TEN
  }

  /** The label addNCARVariable gives an existing variable's (gain, bipolar). */
  function VoltsLabel(g: GainBipolar): (r: Result<string>)
    ensures r.Ok? <==> SupportedRange(g)
    ensures r.Ok? ==> IsVoltsLabel(r.value)
    ensures r.Err? ==> r.Fails(InternalProcessing)
  {
    if g.gain == 1 && g.bipolar == 1 then Ok(MINUS_TEN_TO_TEN)
    else if g.gain == 2 && g.bipolar == 0 then Ok(ZERO_TO_TEN)
    else if g.gain == 2 && g.bipolar == 1 then Ok(MINUS_FIVE_TO_FIVE)
    else if g.gain == 4 && g.bipolar == 0 then Ok(ZERO_TO_FIVE)
    else Err(Internal("Unsupported Gain and Bipolar Values"))
  }

  /** The (gain, bipolar) insertA2DVariable writes for a voltage range label. */
  function GainBipolarOf(volts: string): (r: Result<GainBipolar>)
    ensures r.Ok? <==> IsVoltsLabel(volts)
    ensures r.Ok? ==> SupportedRange(r.value)
    ensures r.Err? ==> r.Fails(InternalProcessing)
  {
    if volts == ZERO_TO_FIVE then Ok(GainBipolar(4, 0))
    else if volts == MINUS_FIVE_TO_FIVE then Ok(GainBipolar(2, 1))
    else if volts == ZERO_TO_TEN then Ok(GainBipolar(2, 0))
    else if volts == MINUS_TEN_TO_TEN then Ok(GainBipolar(1, 1))
    else Err(Internal("Voltage choice not found in Document if/else block!"))
  }

  /** The two tables are inverse to each other on the four supported ranges, in both directions. */
  lemma VoltsRoundTrip(g: GainBipolar, volts: string)
    ensures VoltsLabel(g).Ok? ==> GainBipolarOf(VoltsLabel(g).value) == Ok(g)
    ensures GainBipolarOf(volts).Ok? ==> VoltsLabel(GainBipolarOf(volts).value) == Ok(volts)
  {
  }

  /** The variable name: the prefix, or prefix "_" suffix when there is a suffix. */
  function VariableName(pfx: string, sfx: string): (r: string)
    ensures StartsWith(r, pfx)
    ensures sfx == "" ==> r == pfx
    ensures sfx != "" ==> |r| == |pfx| + 1 + |sfx| && r[|pfx|] == '_' && r[|pfx| + 1..] == sfx
  {
    if |sfx| > 0 then pfx + "_" + sfx else pfx
  }

  /** The prefix and suffix of a name: split at its first underscore. */
  function SplitVariableName(name: string): (string, string)
  {
    match Find(name, "_")
    case Some(k) => (name[..k], name[k + 1..])
    case None => (name, "")
  }

  /** A prefix without an underscore is recovered, with its suffix, from the variable name. */
  lemma VariableNameRoundTrip(pfx: string, sfx: string)
    requires '_' !in pfx
    ensures SplitVariableName(VariableName(pfx, sfx)) == (pfx, sfx)
  {
    var name := VariableName(pfx, sfx);
    forall k | 0 <= k < |pfx| ensures !OccursAt(name, "_", k) {
      assert name[k] == pfx[k];
    }
    if sfx != "" {
      assert OccursAt(name, "_", |pfx|);
    } else {
      assert name == pfx;
      forall k | 0 <= k <= |name| ensures !OccursAt(name, "_", k) {
        if k < |name| { assert name[k] == pfx[k]; }
      }
    }
  }

  /**
   * One variable to (re-)insert: A2DVariableInfo, the strings handed to
   * insertA2DVariable. For the new variable of addNCARVariable, `cals`
   * already ends with the units, which nidas keeps after the coefficients.
   */
  datatype VariableInfo = VariableInfo(
    pfx: string, sfx: string, longName: string, volts: string,
    channel: string, rate: string, units: string, cals: seq<string>)

  /**
   * What an existing A2D variable item reports about itself. `rate` is the
   * item's floating-point rate truncated toward zero by the `(int)` cast.
   */
  datatype VariableView = VariableView(
    name: string, pfx: string, sfx: string, longName: string,
    gainBipolar: GainBipolar, channel: int, rate: int, units: string, cals: seq<string>)

  function Channel(v: VariableInfo): int { Atoi(v.channel) }
  function Rate(v: VariableInfo): int { Atoi(v.rate) }

  /** The A2D temperature variable, which is never re-inserted. */
  predicate IsA2DTemperature(v: VariableView) { StartsWith(v.name, "A2DTEMP") }

  /** The info gathered for an existing variable: its channel and rate written out in decimal. */
  function Describe(v: VariableView): (r: Result<VariableInfo>)
    ensures r.Ok? <==> SupportedRange(v.gainBipolar)
  {
    match VoltsLabel(v.gainBipolar)
    case Err(e) => Err(e)
    case Ok(volts) =>
      Ok(VariableInfo(v.pfx, v.sfx, v.longName, volts, IntToString(v.channel),
                      IntToString(v.rate), v.units, v.cals))
  }

  lemma VoltsLabelErrorsAreInternal()
    ensures FailsOnlyInternally(Describe)
  {
  }

  /** The gathered info reads back as the variable's own channel, rate and voltage range. */
  lemma DescribeReadsBack(v: VariableView)
    requires SupportedRange(v.gainBipolar)
    ensures Channel(Describe(v).value) == v.channel && Rate(Describe(v).value) == v.rate
    ensures GainBipolarOf(Describe(v).value.volts) == Ok(v.gainBipolar)
  {
    AtoiOfIntToString(v.channel);
    AtoiOfIntToString(v.rate);
    VoltsRoundTrip(v.gainBipolar, "");
  }

  /**
   * The infos of the sensor's existing variables, in child order, skipping the
   * A2D temperature variable; an internal error for a child that is not an
   * A2D variable or a gain and bipolar pair without a label. None stands for
   * a child that is not an A2D variable item.
   */
  function Existing(children: seq<Option<VariableView>>): Result<seq<VariableInfo>>
  {
    Gathered(children, IsA2DTemperature, Describe)
  }

  /*
   * The gathering loop is written over any child and info type, with the
   * skip test and the description as parameters; this keeps the solver from
   * unfolding the description inside the loop.
   */

  /** The described children that are not skipped, in order; the first failing description's error, or an internal error for a missing child. */
  function Gathered<V, T>(children: seq<Option<V>>, skip: V -> bool, describe: V -> Result<T>): Result<seq<T>>
  {
    if children == [] then Ok([])
    else
      match Gathered(children[..|children| - 1], skip, describe)
      case Err(e) => Err(e)
      case Ok(prev) => Gather(prev, children[|children| - 1], skip, describe)
  }

  /** One child's contribution to the gathered infos. */
  function Gather<V, T>(prev: seq<T>, c: Option<V>, skip: V -> bool, describe: V -> Result<T>): Result<seq<T>>
  {
    if c.None? then Err(Internal("Child of A2D Sensor is not A2D Variable."))
    else if skip(c.value) then Ok(prev)
    else match describe(c.value)
         case Err(e) => Err(e)
         case Ok(info) => Ok(prev + [info])
  }

  /** Gathering one more child: the step the loop of addNCARVariable takes. */
  lemma GatheredStep<V, T>(children: seq<Option<V>>, i: nat, skip: V -> bool, describe: V -> Result<T>)
    requires i < |children| && Gathered(children[..i], skip, describe).Ok?
    ensures Gathered(children[..i + 1], skip, describe) ==
              Gather(Gathered(children[..i], skip, describe).value, children[i], skip, describe)
  {
    assert children[..i + 1][..i] == children[..i];
  }

  ghost predicate FailsOnlyInternally<V(!new), T>(describe: V -> Result<T>) {
    forall v :: describe(v).Err? ==> describe(v).Fails(InternalProcessing)
  }

  /** Descriptions that fail only internally make gathering fail only internally. */
  lemma {:induction false} GatheredErrorsAreInternal<V(!new), T>(children: seq<Option<V>>, skip: V -> bool, describe: V -> Result<T>)
    requires FailsOnlyInternally(describe)
    ensures Gathered(children, skip, describe).Err? ==> Gathered(children, skip, describe).Fails(InternalProcessing)
  {
    if children != [] {
      GatheredErrorsAreInternal(children[..|children| - 1], skip, describe);
    }
  }

  /** Gathering a prefix of the children succeeds whenever gathering all of them does, with a prefix of the infos. */
  lemma {:induction false} GatheredPrefix<V, T>(children: seq<Option<V>>, i: nat, skip: V -> bool, describe: V -> Result<T>)
    requires i <= |children| && Gathered(children, skip, describe).Ok?
    ensures Gathered(children[..i], skip, describe).Ok?
    ensures Gathered(children[..i], skip, describe).value <= Gathered(children, skip, describe).value
  {
    if i < |children| {
      var init := children[..|children| - 1];
      assert children[..i] == init[..i];
      GatheredPrefix(init, i, skip, describe);
    } else {
      assert children[..i] == children;
    }
  }

  /** Once gathering a prefix of the children fails, gathering all of them fails, internally. */
  lemma GatheredErrorSticks<V(!new), T>(children: seq<Option<V>>, i: nat, skip: V -> bool, describe: V -> Result<T>)
    requires FailsOnlyInternally(describe)
    requires i <= |children| && Gathered(children[..i], skip, describe).Err?
    ensures Gathered(children, skip, describe).Fails(InternalProcessing)
  {
    GatheredErrorsAreInternal(children, skip, describe);
    if Gathered(children, skip, describe).Ok? {
      GatheredPrefix(children, i, skip, describe);
    }
  }

  /*
   * The two passes compare entries only through atoi of their channel and of
   * their rate strings; they are written over any entry type and key
   * functions, which is how the solver keeps atoi folded.
   */

  predicate DistinctKeys<T>(s: seq<T>, key: T -> int) {
    forall a, b :: 0 <= a < b < |s| ==> key(s[a]) != key(s[b])
  }

  predicate KeySorted<T>(s: seq<T>, key: T -> int) {
    forall a, b :: 0 <= a < b < |s| ==> key(s[a]) < key(s[b])
  }

  /** Ascending by the major key, then by the minor key among equal major keys. */
  predicate LexBefore<T>(x: T, y: T, major: T -> int, minor: T -> int) {
    major(x) < major(y) || (major(x) == major(y) && minor(x) < minor(y))
  }

  predicate LexSorted<T>(s: seq<T>, major: T -> int, minor: T -> int) {
    forall a, b :: 0 <= a < b < |s| ==> LexBefore(s[a], s[b], major, minor)
  }

  /** x placed between the entries of lower and the entries of higher key keeps the list sorted. */
  lemma InsertKeepsKeySorted<T>(list: seq<T>, x: T, k: nat, key: T -> int)
    requires KeySorted(list, key) && k <= |list|
    requires forall j :: 0 <= j < k ==> key(list[j]) < key(x)
    requires forall j :: k <= j < |list| ==> key(x) < key(list[j])
    ensures KeySorted(list[..k] + [x] + list[k..], key)
  {
    var r := list[..k] + [x] + list[k..];
    forall a, b | 0 <= a < b < |r| ensures key(r[a]) < key(r[b]) {
      assert r[a] == if a < k then list[a] else if a == k then x else list[a - 1];
      assert r[b] == if b < k then list[b] else if b == k then x else list[b - 1];
    }
  }

  /**
   * The channel pass of addNCARVariable: x goes in front of the first entry if
   * its channel is lower, after it if the list has one entry, else between the
   * first neighbours whose channels bracket it, else at the end. The ghost
   * result k is where it went.
   */
  method InsertByChannel<T>(list: seq<T>, x: T, channel: T -> int) returns (r: seq<T>, ghost k: nat)
    requires |list| >= 1
    ensures k <= |list| && r == list[..k] + [x] + list[k..]
    ensures KeySorted(list, channel) && (forall i :: 0 <= i < |list| ==> channel(list[i]) != channel(x)) ==>
              KeySorted(r, channel)
  {
    ghost var isNew := KeySorted(list, channel) && forall i :: 0 <= i < |list| ==> channel(list[i]) != channel(x);
    var inserted := false;
    r, k := list, 0;
    if channel(x) < channel(r[0]) {
      r, k := [x] + r, 0;
      assert r == list[..0] + [x] + list[0..];
      if isNew { InsertKeepsKeySorted(list, x, 0, channel); }
      inserted := true;
    }
    if |r| == 1 {
      r, k := r + [x], 1;
      assert r == list[..1] + [x] + list[1..];
      if isNew { InsertKeepsKeySorted(list, x, 1, channel); }
      inserted := true;
    }
    if !inserted {
      var n := 1;
      while n < |r|
        invariant 1 <= n <= |r| && r == list
        invariant isNew ==> forall j :: 0 <= j < n ==> channel(list[j]) < channel(x)
      {
        if channel(x) > channel(r[n - 1]) && channel(x) < channel(r[n]) {
          if isNew { InsertKeepsKeySorted(list, x, n, channel); }
          r, k := r[..n] + [x] + r[n..], n;
          inserted := true;
          break;
        }
        n := n + 1;
      }
      if !inserted {
        if isNew { InsertKeepsKeySorted(list, x, |list|, channel); }
        r, k := r + [x], |list|;
        assert r == list[..|list|] + [x] + list[|list|..];
      }
    }
  }

  /**
   * x placed after the entries of lower or equal major key, all of lower
   * minor key, and before the entries of higher major key keeps the list
   * lexicographically sorted.
   */
  lemma InsertKeepsLexSorted<T>(list: seq<T>, x: T, k: nat, major: T -> int, minor: T -> int)
    requires LexSorted(list, major, minor) && k <= |list|
    requires forall j :: 0 <= j < k ==> major(list[j]) <= major(x) && minor(list[j]) < minor(x)
    requires forall j :: k <= j < |list| ==> major(x) < major(list[j])
    ensures LexSorted(list[..k] + [x] + list[k..], major, minor)
  {
    var r := list[..k] + [x] + list[k..];
    forall a, b | 0 <= a < b < |r| ensures LexBefore(r[a], r[b], major, minor) {
      assert r[a] == if a < k then list[a] else if a == k then x else list[a - 1];
      assert r[b] == if b < k then list[b] else if b == k then x else list[b - 1];
    }
  }

  /**
   * The rate pass of addNCARVariable: x goes in front if its rate is lower
   * than the first entry's, after it if the list has one entry, else before
   * the first entry whose rate is higher while its predecessor's is not,
   * else at the end: a stable insertion after every entry of equal rate.
   */
  method InsertByRate<T>(list: seq<T>, x: T, rate: T -> int, channel: T -> int) returns (r: seq<T>, ghost k: nat)
    requires |list| >= 1
    ensures k <= |list| && r == list[..k] + [x] + list[k..]
    ensures LexSorted(list, rate, channel) && (forall i :: 0 <= i < |list| ==> channel(list[i]) < channel(x)) ==>
              LexSorted(r, rate, channel)
  {
    ghost var ordered := LexSorted(list, rate, channel) && forall i :: 0 <= i < |list| ==> channel(list[i]) < channel(x);
    var inserted := false;
    r, k := list, 0;
    if rate(x) < rate(r[0]) {
      if ordered {
        forall j | 0 <= j < |list| ensures rate(x) < rate(list[j]) {
          if j > 0 { assert LexBefore(list[0], list[j], rate, channel); }
        }
        InsertKeepsLexSorted(list, x, 0, rate, channel);
      }
      r, k := [x] + r, 0;
      assert r == list[..0] + [x] + list[0..];
      inserted := true;
    }
    if |r| == 1 {
      if ordered { InsertKeepsLexSorted(list, x, 1, rate, channel); }
      r, k := r + [x], 1;
      assert r == list[..1] + [x] + list[1..];
      inserted := true;
    }
    if !inserted {
      var n := 1;
      while n < |r|
        invariant 1 <= n <= |r| && r == list
        invariant ordered ==> forall j :: 0 <= j < n ==> rate(list[j]) <= rate(x)
      {
        if rate(x) >= rate(r[n - 1]) && rate(x) < rate(r[n]) {
          if ordered {
            forall j | n <= j < |list| ensures rate(x) < rate(list[j]) {
              if j > n { assert LexBefore(list[n], list[j], rate, channel); }
            }
            InsertKeepsLexSorted(list, x, n, rate, channel);
          }
          r, k := r[..n] + [x] + r[n..], n;
          inserted := true;
          break;
        }
        n := n + 1;
      }
      if !inserted {
        if ordered { InsertKeepsLexSorted(list, x, |list|, rate, channel); }
        r, k := r + [x], |list|;
        assert r == list[..|list|] + [x] + list[|list|..];
      }
    }
  }

  /** Distinct keys differ from any later entry's. */
  lemma DistinctKeysPrefix<T>(s: seq<T>, n: nat, key: T -> int)
    requires DistinctKeys(s, key) && n < |s|
    ensures forall i :: 0 <= i < n ==> key(s[i]) != key(s[n])
  {
  }

  /**
   * An entry whose key is distinct from those of a whole list differs in key
   * from every entry of any permutation of the part of that list before it.
   */
  lemma KeyDiffersFromEarlier<T>(list: seq<T>, earlier: seq<T>, x: T, whole: seq<T>, key: T -> int)
    requires multiset(list) == multiset(earlier) && earlier + [x] <= whole && DistinctKeys(whole, key)
    ensures forall j :: 0 <= j < |list| ==> key(list[j]) != key(x)
  {
    forall j | 0 <= j < |list| ensures key(list[j]) != key(x) {
      assert list[j] in multiset(earlier);
      var m :| 0 <= m < |earlier| && earlier[m] == list[j];
      assert whole[m] == list[j] && whole[|earlier|] == x;
    }
  }

  /**
   * One placement of the channel pass: the entry is added, and the list
   * stays ordered when its entries are the ones before x in a list of
   * distinct channels.
   */
  method PlaceByChannel<T>(list: seq<T>, x: T, channel: T -> int, ghost earlier: seq<T>, ghost whole: seq<T>)
    returns (r: seq<T>)
    requires |list| >= 1 && multiset(list) == multiset(earlier)
    ensures |r| >= 1 && multiset(r) == multiset(earlier + [x])
    ensures earlier + [x] <= whole && DistinctKeys(whole, channel) && KeySorted(list, channel) ==> KeySorted(r, channel)
  {
    if earlier + [x] <= whole && DistinctKeys(whole, channel) {
      KeyDiffersFromEarlier(list, earlier, x, whole, channel);
    }
    ghost var k;
    r, k := InsertByChannel(list, x, channel);
    assert list == list[..k] + list[k..];
  }

  /** What the gathering loop needs to know about one more child, gathered into one lemma. */
  lemma GatherStepFacts<V(!new), T>(children: seq<Option<V>>, i: nat, skip: V -> bool, describe: V -> Result<T>)
    requires FailsOnlyInternally(describe)
    requires i < |children| && Gathered(children[..i], skip, describe).Ok?
    ensures Gathered(children[..i + 1], skip, describe) ==
              Gather(Gathered(children[..i], skip, describe).value, children[i], skip, describe)
    ensures Gathered(children[..i + 1], skip, describe).Err? ==> Gathered(children, skip, describe).Fails(InternalProcessing)
    ensures Gathered(children, skip, describe).Ok? ==>
              Gathered(children[..i + 1], skip, describe).Ok? &&
              Gathered(children[..i + 1], skip, describe).value <= Gathered(children, skip, describe).value
  {
    GatheredStep(children, i, skip, describe);
    if Gathered(children[..i + 1], skip, describe).Err? {
      GatheredErrorSticks(children, i + 1, skip, describe);
    }
    if Gathered(children, skip, describe).Ok? {
      GatheredPrefix(children, i + 1, skip, describe);
    }
  }

  /**
   * The body of the first loop of addNCARVariable for one child: a missing
   * child or a failing description is an error, a skipped child leaves the
   * list alone, and any other child's info is placed by channel.
   */
  method GatherOne<V(!new), T>(list: seq<T>, child: Option<V>, skip: V -> bool, describe: V -> Result<T>,
                               channel: T -> int, ghost first: T, ghost gathered: seq<T>, ghost whole: seq<T>)
    returns (r: Result<seq<T>>)
    requires FailsOnlyInternally(describe)
    requires |list| >= 1 && multiset(list) == multiset([first] + gathered)
    ensures Gather(gathered, child, skip, describe).Err? ==> r.Fails(InternalProcessing)
    ensures Gather(gathered, child, skip, describe).Ok? ==>
              r.Ok? && |r.value| >= 1 &&
              multiset(r.value) == multiset([first] + Gather(gathered, child, skip, describe).value)
    ensures Gather(gathered, child, skip, describe).Ok? &&
            [first] + Gather(gathered, child, skip, describe).value <= whole &&
            DistinctKeys(whole, channel) && KeySorted(list, channel) ==>
              KeySorted(r.value, channel)
  {
    if child.None? {
      return Err(Internal("Child of A2D Sensor is not A2D Variable."));
    }
    if skip(child.value) {
      return Ok(list);
    }
    var described := describe(child.value);
    if described.Err? {
      return Err(described.error);
    }
    assert [first] + (gathered + [described.value]) == [first] + gathered + [described.value];
    var placed := PlaceByChannel(list, described.value, channel, [first] + gathered, whole);
    return Ok(placed);
  }

  /**
   * The first loop of addNCARVariable: the new variable, then the gathered
   * info of each child in turn, placed by channel.
   */
  method GatherByChannel<V(!new), T>(newInfo: T, children: seq<Option<V>>, skip: V -> bool, describe: V -> Result<T>,
                                     channel: T -> int)
    returns (r: Result<seq<T>>)
    requires FailsOnlyInternally(describe)
    ensures Gathered(children, skip, describe).Err? ==> r.Fails(InternalProcessing)
    ensures Gathered(children, skip, describe).Ok? ==>
              r.Ok? && |r.value| >= 1 && multiset(r.value) == multiset([newInfo] + Gathered(children, skip, describe).value)
    ensures Gathered(children, skip, describe).Ok? && DistinctKeys([newInfo] + Gathered(children, skip, describe).value, channel) ==>
              KeySorted(r.value, channel)
  {
    ghost var allOk := Gathered(children, skip, describe).Ok?;
    ghost var whole := if allOk then [newInfo] + Gathered(children, skip, describe).value else [];
    ghost var distinct := allOk && DistinctKeys(whole, channel);
    var list := [newInfo];
    ghost var gathered: seq<T> := [];
    var i := 0;
    assert children[..i] == [];
    while i < |children|
      invariant 0 <= i <= |children|
      invariant Gathered(children[..i], skip, describe) == Ok(gathered)
      invariant |list| >= 1 && multiset(list) == multiset([newInfo] + gathered)
      invariant distinct ==> KeySorted(list, channel)
    {
      GatherStepFacts(children, i, skip, describe);
      var step := GatherOne(list, children[i], skip, describe, channel, newInfo, gathered, whole);
      if step.Err? {
        return step;
      }
      list := step.value;
      gathered := Gathered(children[..i + 1], skip, describe).value;
      i := i + 1;
    }
    assert children[..i] == children;
    return Ok(list);
  }

  /** The second loop of addNCARVariable: the channel-ordered entries placed by rate, one at a time. */
  method OrderByRate<T>(list: seq<T>, rate: T -> int, channel: T -> int) returns (list2: seq<T>)
    requires |list| >= 1
    ensures multiset(list2) == multiset(list)
    ensures KeySorted(list, channel) ==> LexSorted(list2, rate, channel)
  {
    ghost var sorted := KeySorted(list, channel);
    list2 := [list[0]];
    var n := 1;
    while n < |list|
      invariant 1 <= n <= |list|
      invariant |list2| >= 1 && multiset(list2) == multiset(list[..n])
      invariant sorted ==> LexSorted(list2, rate, channel)
    {
      if sorted {
        forall j | 0 <= j < |list2| ensures channel(list2[j]) < channel(list[n]) {
          assert list2[j] in multiset(list[..n]);
          var m :| 0 <= m < n && list[..n][m] == list2[j];
        }
      }
      assert list[..n + 1] == list[..n] + [list[n]];
      ghost var pos;
      ghost var before := list2;
      list2, pos := InsertByRate(list2, list[n], rate, channel);
      assert before == before[..pos] + before[pos..];
      n := n + 1;
    }
    assert list[..n] == list;
  }

  /**
   * The re-insertion plan of addNCARVariable: the new variable and every
   * existing variable except the A2D temperature one, ordered by rate and,
   * within a rate, by channel. It is always a permutation of those
   * variables, and a sorted one when their channels all differ. `newInfo`
   * is taken with its units already appended to its cals.
   */
  method PlanReinsertion(newInfo: VariableInfo, children: seq<Option<VariableView>>)
    returns (r: Result<seq<VariableInfo>>)
    ensures Existing(children).Err? ==> r.Fails(InternalProcessing)
    ensures Existing(children).Ok? ==>
              r.Ok? && multiset(r.value) == multiset([newInfo] + Existing(children).value)
    ensures Existing(children).Ok? && DistinctKeys([newInfo] + Existing(children).value, Channel) ==>
              LexSorted(r.value, Rate, Channel)
  {
    VoltsLabelErrorsAreInternal();
    var byChannel := GatherByChannel(newInfo, children, IsA2DTemperature, Describe, Channel);
    if byChannel.Err? {
      return byChannel;
    }
    var byRate := OrderByRate(byChannel.value, Rate, Channel);
    return Ok(byRate);
  }

  /**
   * Before each re-insertion: a last calibration value that is not a number
   * is the units, and its place in the calibrations is emptied. `isNum` is
   * Document::isNum, a floating-point parse this model does not write out.
   */
  function MoveUnitsOutOfCals(v: VariableInfo, isNum: string -> bool): (r: VariableInfo)
    ensures |r.cals| == |v.cals| && (v.cals != [] ==> r.cals[..|r.cals| - 1] == v.cals[..|v.cals| - 1])
    ensures v.cals != [] && !isNum(v.cals[|v.cals| - 1]) ==>
              r.units == v.cals[|v.cals| - 1] && r.cals[|r.cals| - 1] == ""
    ensures (v.cals == [] || isNum(v.cals[|v.cals| - 1])) ==> r == v
    ensures r.pfx == v.pfx && r.sfx == v.sfx && r.channel == v.channel && r.rate == v.rate
  {
    if |v.cals| > 0 && !isNum(v.cals[|v.cals| - 1]) then
      v.(units := v.cals[|v.cals| - 1], cals := v.cals[|v.cals| - 1 := ""])
    else v
  }

  /** The last exception of the given kind among the outcomes, if any. */
  function LastOfKind(outcomes: seq<Outcome>, k: Kind): Option<Exception>
  {
    if outcomes == [] then None
    else if outcomes[|outcomes| - 1].Fails(k) then Some(outcomes[|outcomes| - 1].error)
    else LastOfKind(outcomes[..|outcomes| - 1], k)
  }

  /** LastOfKind finds an exception of that kind with none of the kind after it, and finds none only when there is none. */
  lemma {:induction false} LastOfKindIsLast(outcomes: seq<Outcome>, k: Kind)
    ensures LastOfKind(outcomes, k).Some? ==>
              exists i :: 0 <= i < |outcomes| && outcomes[i] == Fail(LastOfKind(outcomes, k).value) &&
                          outcomes[i].Fails(k) && forall j :: i < j < |outcomes| ==> !outcomes[j].Fails(k)
    ensures LastOfKind(outcomes, k).None? <==> forall j :: 0 <= j < |outcomes| ==> !outcomes[j].Fails(k)
  {
    if outcomes != [] {
      var init := outcomes[..|outcomes| - 1];
      LastOfKindIsLast(init, k);
      if !outcomes[|outcomes| - 1].Fails(k) && LastOfKind(init, k).Some? {
        var i :| 0 <= i < |init| && init[i] == Fail(LastOfKind(init, k).value) &&
                 init[i].Fails(k) && forall j :: i < j < |init| ==> !init[j].Fails(k);
        assert outcomes[i] == init[i];
      }
    }
  }

  /**
   * The report after every re-insertion was tried: the last internal error if
   * there was one, else the last invalid parameter, else an unexpected error
   * if one was caught, else success.
   */
  method AggregateOutcomes(outcomes: seq<Outcome>) returns (r: Outcome)
    ensures LastOfKind(outcomes, InternalProcessing).Some? ==>
              r == Fail(LastOfKind(outcomes, InternalProcessing).value)
    ensures LastOfKind(outcomes, InternalProcessing).None? && LastOfKind(outcomes, InvalidParameter).Some? ==>
              r == Fail(LastOfKind(outcomes, InvalidParameter).value)
    ensures LastOfKind(outcomes, InternalProcessing).None? && LastOfKind(outcomes, InvalidParameter).None? ==>
              (r.Pass? <==> forall i :: 0 <= i < |outcomes| ==> outcomes[i].Pass?) &&
              (r.Fail? ==> r.Fails(Unexpected))
  {
    var intProcEx: Option<Exception> := None;
    var invParmEx: Option<Exception> := None;
    var gotUnspEx := false;
    var ii := 0;
    while ii < |outcomes|
      invariant 0 <= ii <= |outcomes|
      invariant intProcEx == LastOfKind(outcomes[..ii], InternalProcessing)
      invariant invParmEx == LastOfKind(outcomes[..ii], InvalidParameter)
      invariant gotUnspEx <==> exists j :: 0 <= j < ii && outcomes[j].Fails(Unexpected)
    {
      assert outcomes[..ii + 1][..ii] == outcomes[..ii];
      assert outcomes[..ii + 1][ii] == outcomes[ii];
      match outcomes[ii] {
        case Pass =>
        case Fail(e) =>
          match e.kind {
            case InternalProcessing => intProcEx := Some(e);
            case InvalidParameter => invParmEx := Some(e);
            case Unexpected => gotUnspEx := true;
          }
      }
      ii := ii + 1;
    }
    assert outcomes[..ii] == outcomes;
    LastOfKindIsLast(outcomes, InternalProcessing);
    LastOfKindIsLast(outcomes, InvalidParameter);
    if intProcEx.Some? { return Fail(intProcEx.value); }
    if invParmEx.Some? { return Fail(invParmEx.value); }
    if gotUnspEx { return Fail(Exception(Unexpected, "")); }
    return Pass;
  }
}
