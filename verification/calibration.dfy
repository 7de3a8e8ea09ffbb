/**
 * How the editor gives a new A2D variable its calibration: inline
 * coefficients (a poly or a linear element), or a reference to an
 * engineering calibration file found in, or missing from, the project's
 * calibration directory; and the order in which that directory's file names
 * are kept.
 */
module Calibration {
  import opened Exceptions
  import opened Text

  const TMP_ENG_CAL_DIR: string := "${TMP_PROJ_DIR}/Configuration/cal_files/Engineering/"
  const ENG_CAL_DIR: string := "${PROJ_DIR}/Configuration/cal_files/Engineering/"
  const DAT: string := ".dat"

  /** The calibration element a variable element receives. */
  datatype CalibrationElement =
    | Poly(units: string, coefs: string)
    | Linear(units: string, intercept: string, slope: string)
    | PolyCalFile(units: string, path: string, file: string)

  /** The text after the first value: " " + v for every later non-empty value v. */
  function LaterCoefs(rest: seq<string>): string
  {
    if rest == [] then ""
    else LaterCoefs(rest[..|rest| - 1]) + (if rest[|rest| - 1] != "" then " " + rest[|rest| - 1] else "")
  }

  /** The poly coefficients of addCalibElem: the first value, then the later non-empty ones, space separated. */
  function PolyCoefsOf(cals: seq<string>): string
    requires |cals| >= 1
  {
    cals[0] + LaterCoefs(cals[1..])
  }

  /** The non-empty values, in order. */
  function NonEmpty(s: seq<string>): (r: seq<string>)
    ensures forall i :: 0 <= i < |r| ==> r[i] != "" && r[i] in s
  {
    if s == [] then [] else (if s[0] != "" then [s[0]] else []) + NonEmpty(s[1..])
  }

  /** The pieces of s between spaces. */
  function SplitOnSpaces(s: string): (r: seq<string>)
    ensures |r| >= 1
    decreases |s|
  {
    match Find(s, " ")
    case None => [s]
    case Some(k) => [s[..k]] + SplitOnSpaces(s[k + 1..])
  }

  predicate NoSpace(s: string) { forall i :: 0 <= i < |s| ==> s[i] != ' ' }

  /** LaterCoefs read from the front: the first later value's piece, then the rest. */
  lemma {:induction false} LaterCoefsFront(rest: seq<string>)
    requires |rest| >= 1
    ensures LaterCoefs(rest) == (if rest[0] != "" then " " + rest[0] else "") + LaterCoefs(rest[1..])
  {
    if |rest| > 1 {
      var init := rest[..|rest| - 1];
      LaterCoefsFront(init);
      assert init[1..] == rest[1..][..|rest[1..]| - 1];
      assert rest[1..][|rest[1..]| - 1] == rest[|rest| - 1];
    } else {
      assert rest[..0] == [] && rest[1..] == [];
    }
  }

  /** A word without spaces is one piece. */
  lemma SplitOfWord(w: string)
    requires NoSpace(w)
    ensures SplitOnSpaces(w) == [w]
  {
    forall k | 0 <= k <= |w| ensures !OccursAt(w, " ", k) {
      if k < |w| { assert w[k] != ' '; }
    }
  }

  /** A word without spaces, a space, then any text: the word is the first piece. */
  lemma SplitAfterWord(w: string, tail: string)
    requires NoSpace(w)
    ensures SplitOnSpaces(w + " " + tail) == [w] + SplitOnSpaces(tail)
  {
    var s := w + " " + tail;
    forall k | 0 <= k < |w| ensures !OccursAt(s, " ", k) {
      assert s[k] == w[k];
    }
    assert OccursAt(s, " ", |w|);
    assert s[..|w|] == w && s[|w| + 1..] == tail;
  }

  /** A word without spaces followed by space separated words splits back into those words. */
  lemma {:induction false} SplitOfCoefs(first: string, rest: seq<string>)
    requires NoSpace(first) && forall i :: 0 <= i < |rest| ==> NoSpace(rest[i])
    ensures SplitOnSpaces(first + LaterCoefs(rest)) == [first] + NonEmpty(rest)
    decreases |rest|
  {
    if rest == [] {
      assert first + LaterCoefs(rest) == first;
      SplitOfWord(first);
    } else {
      LaterCoefsFront(rest);
      if rest[0] == "" {
        SplitOfCoefs(first, rest[1..]);
        assert first + LaterCoefs(rest) == first + LaterCoefs(rest[1..]);
        assert NonEmpty(rest) == NonEmpty(rest[1..]);
      } else {
        SplitOfCoefs(rest[0], rest[1..]);
        assert first + LaterCoefs(rest) == first + " " + (rest[0] + LaterCoefs(rest[1..]));
        SplitAfterWord(first, rest[0] + LaterCoefs(rest[1..]));
        assert NonEmpty(rest) == [rest[0]] + NonEmpty(rest[1..]);
      }
    }
  }

  /**
   * The poly coefficients split back into the first value and the later
   * non-empty values, when no value holds a space.
   */
  lemma PolyCoefsRoundTrip(cals: seq<string>)
    requires |cals| >= 1 && forall i :: 0 <= i < |cals| ==> NoSpace(cals[i])
    ensures SplitOnSpaces(PolyCoefsOf(cals)) == [cals[0]] + NonEmpty(cals[1..])
  {
    SplitOfCoefs(cals[0], cals[1..]);
  }

  /** The loop of addCalibElem that joins the coefficients. */
  method PolyCoefs(cals: seq<string>) returns (polyStr: string)
    requires |cals| >= 1
    ensures polyStr == PolyCoefsOf(cals)
  {
    polyStr := cals[0];
    var i := 1;
    while i < |cals|
      invariant 1 <= i <= |cals|
      invariant polyStr == cals[0] + LaterCoefs(cals[1..i])
    {
      assert cals[1..i + 1][..i - 1] == cals[1..i];
      if |cals[i]| > 0 {
        polyStr := polyStr + (" " + cals[i]);
      }
      i := i + 1;
    }
    assert cals[1..i] == cals[1..];
  }

  /**
   * Document::addCalibElem: a poly calibration when the third value is
   * non-empty, with the values as coefficients; otherwise a linear one with
   * the first value as intercept and the second as slope.
   */
  method CalibElem(cals: seq<string>, units: string) returns (r: CalibrationElement)
    requires |cals| >= 3
    ensures r.Poly? <==> cals[2] != ""
    ensures r.Poly? ==> r == Poly(units, PolyCoefsOf(cals))
    ensures r.Linear? ==> r == Linear(units, cals[0], cals[1])
    ensures !r.PolyCalFile?
  {
    if |cals[2]| > 0 {
      var polyStr := PolyCoefs(cals);
      r := Poly(units, polyStr);
    } else {
      r := Linear(units, cals[0], cals[1]);
    }
  }

  /** The calfile path of addVarCalFileElem: the temporary then the project engineering directory of the site. */
  function EngCalPath(siteName: string): (r: string)
    ensures |r| == |TMP_ENG_CAL_DIR| + |siteName| + 1 + |ENG_CAL_DIR| + |siteName|
  {
    TMP_ENG_CAL_DIR + siteName + ":" + ENG_CAL_DIR + siteName
  }

  /**
   * The path is the temporary directory of the site, a colon, then the
   * project directory of the site; and different sites get different paths.
   */
  lemma EngCalPathParts(siteName: string, other: string)
    ensures EngCalPath(siteName)[..|TMP_ENG_CAL_DIR| + |siteName|] == TMP_ENG_CAL_DIR + siteName
    ensures EngCalPath(siteName)[|TMP_ENG_CAL_DIR| + |siteName|] == ':'
    ensures EngCalPath(siteName)[|TMP_ENG_CAL_DIR| + |siteName| + 1..] == ENG_CAL_DIR + siteName
    ensures EngCalPath(siteName) == EngCalPath(other) ==> siteName == other
  {
    var p := EngCalPath(siteName);
    assert p == (TMP_ENG_CAL_DIR + siteName) + ":" + (ENG_CAL_DIR + siteName);
    if p == EngCalPath(other) {
      assert |siteName| == |other|;
      assert (TMP_ENG_CAL_DIR + siteName)[|TMP_ENG_CAL_DIR|..] == siteName;
      assert EngCalPath(other)[..|TMP_ENG_CAL_DIR| + |other|] == TMP_ENG_CAL_DIR + other;
      assert (TMP_ENG_CAL_DIR + other)[|TMP_ENG_CAL_DIR|..] == other;
    }
  }

  /** Document::addVarCalFileElem: a poly element holding a calfile reference into the site's engineering directories. */
  function VarCalFileElem(file: string, units: string, siteName: string): (r: CalibrationElement)
    ensures r.PolyCalFile? && r.units == units && r.file == file && r.path == EngCalPath(siteName)
  {
    PolyCalFile(units, EngCalPath(siteName), file)
  }

  /**
   * A calfile reference names its file, its units and its site unambiguously:
   * references written for different files, units or sites differ.
   */
  lemma VarCalFileElemDeterminesArgs(file: string, units: string, siteName: string,
                                     file2: string, units2: string, siteName2: string)
    requires VarCalFileElem(file, units, siteName) == VarCalFileElem(file2, units2, siteName2)
    ensures file == file2 && units == units2 && siteName == siteName2
  {
    EngCalPathParts(siteName, siteName2);
  }

  /** An entry of the calibration directory is one of the two file names looked for. */
  predicate MatchesVariable(entry: string, name: string, pfx: string) {
    entry == name + DAT || entry == pfx + DAT
  }

  /**
   * The search loop of insertA2DVariable: the first entry equal to
   * name + ".dat" or pfx + ".dat"; the file name chosen is the one equal to
   * that entry, name + ".dat" when both are.
   */
  method FindEngCalFile(engCalFiles: seq<string>, name: string, pfx: string) returns (found: Option<string>)
    ensures found.None? <==> forall i :: 0 <= i < |engCalFiles| ==> !MatchesVariable(engCalFiles[i], name, pfx)
    ensures found.Some? ==> exists i :: 0 <= i < |engCalFiles| && engCalFiles[i] == found.value &&
                              MatchesVariable(engCalFiles[i], name, pfx) &&
                              forall j :: 0 <= j < i ==> !MatchesVariable(engCalFiles[j], name, pfx)
  {
    var varPfxFileName := pfx + DAT;
    var varFileName := name + DAT;
    var foundCalFile := false;
    found := None;
    var q := 0;
    ghost var at := 0;
    while q < |engCalFiles|
      invariant 0 <= q <= |engCalFiles|
      invariant foundCalFile <==> found.Some?
      invariant !foundCalFile ==> forall j :: 0 <= j < q ==> !MatchesVariable(engCalFiles[j], name, pfx)
      invariant foundCalFile ==>
                  (at < q && engCalFiles[at] == found.value && MatchesVariable(engCalFiles[at], name, pfx) &&
                   forall j :: 0 <= j < at ==> !MatchesVariable(engCalFiles[j], name, pfx))
    {
      if !foundCalFile {
        if engCalFiles[q] == varFileName {
          foundCalFile := true;
          found := Some(name + DAT);
          at := q;
        }
        if engCalFiles[q] == varPfxFileName && !foundCalFile {
          foundCalFile := true;
          found := Some(pfx + DAT);
          at := q;
        }
      }
      q := q + 1;
    }
  }

  /*
   * The directory listing: each entry whose name contains ".dat" is kept;
   * one that also contains "_" goes in front of the list, any other at its
   * end, so that underscored names are found first.
   */

  predicate IsCalFileName(e: string) { Contains(e, DAT) }
  predicate IsUnderscored(e: string) { Contains(e, "_") }

  /** The list after reading the given entries into `initial`, one entry at a time. */
  function ReadInto(initial: seq<string>, entries: seq<string>): seq<string>
  {
    if entries == [] then initial
    else
      var prev := ReadInto(initial, entries[..|entries| - 1]);
      var e := entries[|entries| - 1];
      if !IsCalFileName(e) then prev
      else if IsUnderscored(e) then [e] + prev
      else prev + [e]
  }

  /** The kept entries that contain "_", in reverse reading order. */
  function UnderscoredReversed(entries: seq<string>): seq<string>
  {
    if entries == [] then []
    else
      var e := entries[|entries| - 1];
      (if IsCalFileName(e) && IsUnderscored(e) then [e] else []) + UnderscoredReversed(entries[..|entries| - 1])
  }

  /** The kept entries without "_", in reading order. */
  function Plain(entries: seq<string>): seq<string>
  {
    if entries == [] then []
    else
      var e := entries[|entries| - 1];
      Plain(entries[..|entries| - 1]) + (if IsCalFileName(e) && !IsUnderscored(e) then [e] else [])
  }

  /**
   * The listing puts every underscored calibration file, latest read first,
   * before what the list held, and every other calibration file after it in
   * reading order; nothing else is added.
   */
  lemma {:induction false} ReadIntoShape(initial: seq<string>, entries: seq<string>)
    ensures ReadInto(initial, entries) == UnderscoredReversed(entries) + initial + Plain(entries)
  {
    if entries != [] {
      ReadIntoShape(initial, entries[..|entries| - 1]);
    }
  }

  /** Every name the listing adds is a calibration file name: underscored ones all come before plain ones. */
  lemma {:induction false} ReadIntoKinds(entries: seq<string>)
    ensures forall i :: 0 <= i < |UnderscoredReversed(entries)| ==>
              IsCalFileName(UnderscoredReversed(entries)[i]) && IsUnderscored(UnderscoredReversed(entries)[i])
    ensures forall i :: 0 <= i < |Plain(entries)| ==>
              IsCalFileName(Plain(entries)[i]) && !IsUnderscored(Plain(entries)[i])
  {
    if entries != [] {
      ReadIntoKinds(entries[..|entries| - 1]);
    }
  }

  /** The listing keeps each calibration file entry exactly once and drops every other entry. */
  lemma {:induction false} ReadIntoCounts(initial: seq<string>, entries: seq<string>)
    ensures multiset(ReadInto(initial, entries)) ==
              multiset(initial) + multiset(CalFileNames(entries))
  {
    if entries != [] {
      ReadIntoCounts(initial, entries[..|entries| - 1]);
    }
  }

  /** The entries that name calibration files, in reading order. */
  function CalFileNames(entries: seq<string>): seq<string>
  {
    if entries == [] then []
    else
      var e := entries[|entries| - 1];
      CalFileNames(entries[..|entries| - 1]) + (if IsCalFileName(e) then [e] else [])
  }
}
