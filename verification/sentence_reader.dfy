/**
 * The sentence scan of `get_gnss_data_from_device`: lines from the receiver
 * are read one at a time; the first `$GNGGA` or `$GNRMC` sentence with more
 * than nine comma fields ends the scan with its coordinates and its length.
 * The serial stream is a finite sequence of already decoded, stripped lines;
 * running out of lines stands for an exception from the port (caught at
 * app.py:71), after which the empty fix is returned. A read that times out
 * is just an empty line in the sequence, which the scan skips.
 */
module SentenceReader {
  import opened Wrappers
  import opened NmeaFields
  import opened Coordinate

  /** The dictionary handed to the HTTP layer: `latitude`, `longitude`, `clas_bytes`. */
  datatype Fix = Fix(latitude: Option<real>, longitude: Option<real>, clasBytes: nat)

  /** `{"latitude": None, "longitude": None, "clas_bytes": 0}`. */
  const NoFix := Fix(None, None, 0)

  /** GPS fix data: latitude, N/S, longitude, E/W in fields 2 to 5. */
  const GgaPrefix := "$GNGGA"
  /** Recommended minimum data: a status field first, so fields 3 to 6. */
  const RmcPrefix := "$GNRMC"

  /** Python's `line.startswith(prefix)`. */
  predicate StartsWith(line: string, prefix: string)
    ensures StartsWith(line, prefix) <==> |prefix| <= |line| && line[..|prefix|] == prefix
  {
    prefix <= line
  }

  /** The fix built from one matched line, whatever the coordinate parse gave. */
  function FixOf(coordinates: LatLon, line: string): Fix
  {
    Fix(coordinates.0, coordinates.1, |line|)
  }

  /**
   * One pass of the loop body: `Some(fix)` when the line ends the scan,
   * `None` when it is skipped.
   */
  function Classify(line: string): (r: Option<Fix>)
    ensures r.Some? ==> r.value.clasBytes == |line| >= |GgaPrefix|
    ensures r.Some? ==> r.value.latitude.Some? == r.value.longitude.Some?
  {
    if StartsWith(line, GgaPrefix) then
      var data := Split(line);
      if |data| > 9 then Some(FixOf(ParseLatLon(data[2], data[3], data[4], data[5]), line)) else None
    else if StartsWith(line, RmcPrefix) then
      var data := Split(line);
      if |data| > 9 then Some(FixOf(ParseLatLon(data[3], data[4], data[5], data[6]), line)) else None
    else
      None
  }

  /** The result of reading `lines` until the first sentence that matches, or the empty fix. */
  function FirstFix(lines: seq<string>): (fix: Fix)
    ensures fix.latitude.Some? == fix.longitude.Some?
  {
    if lines == [] then NoFix
    else
      match Classify(lines[0])
      case Some(f) => f
      case None => FirstFix(lines[1..])
  }

  /** The read loop itself, over a finite stream of lines. */
  method ReadFix(lines: seq<string>) returns (fix: Fix)
    ensures fix == FirstFix(lines)
  {
    var i := 0;
    while i < |lines|
      invariant 0 <= i <= |lines|
      invariant FirstFix(lines[i..]) == FirstFix(lines)
    {
      var line := lines[i];
      assert lines[i..][1..] == lines[i + 1..];
      if StartsWith(line, GgaPrefix) {
        var data := Split(line);
        if |data| > 9 {
          var (latitude, longitude) := ParseLatLon(data[2], data[3], data[4], data[5]);
          return Fix(latitude, longitude, |line|);
        }
      } else if StartsWith(line, RmcPrefix) {
        var data := Split(line);
        if |data| > 9 {
          var (latitude, longitude) := ParseLatLon(data[3], data[4], data[5], data[6]);
          return Fix(latitude, longitude, |line|);
        }
      }
      i := i + 1;
    }
    return NoFix;
  }

  // ---------------------------------------------------------------------------
  // Classification of one line

  /** A line starts with every prefix of its first field. */
  lemma StartsLikeFirstField(fields: seq<string>, prefix: string)
    requires |fields| >= 1 && StartsWith(fields[0], prefix)
    ensures StartsWith(Join(fields), prefix)
  {
    JoinStartsWithFirst(fields);
    assert Join(fields)[..|prefix|] == fields[0][..|prefix|];
  }

  /** A `$GNGGA` line whose split has more than nine fields takes the GGA branch. */
  lemma ClassifyGga(line: string)
    requires StartsWith(line, GgaPrefix) && |Split(line)| > 9
    ensures Classify(line) == Some(FixOf(ParseLatLon(Split(line)[2], Split(line)[3], Split(line)[4], Split(line)[5]), line))
  {
  }

  /** A `$GNRMC` line whose split has more than nine fields takes the RMC branch. */
  lemma ClassifyRmc(line: string)
    requires StartsWith(line, RmcPrefix) && |Split(line)| > 9
    ensures Classify(line) == Some(FixOf(ParseLatLon(Split(line)[3], Split(line)[4], Split(line)[5], Split(line)[6]), line))
  {
    assert line[3] == 'R' != GgaPrefix[3];
  }

  /** A `$GNGGA` sentence of more than nine fields hands its fields 2, 3, 4 and 5 to the parser. */
  lemma GgaFieldSelection(fields: seq<string>)
    requires |fields| > 9 && StartsWith(fields[0], GgaPrefix)
    requires forall i | 0 <= i < |fields| :: CommaFree(fields[i])
    ensures Classify(Join(fields)) == Some(FixOf(ParseLatLon(fields[2], fields[3], fields[4], fields[5]), Join(fields)))
  {
    SplitJoin(fields);
    StartsLikeFirstField(fields, GgaPrefix);
    ClassifyGga(Join(fields));
  }

  /** A `$GNRMC` sentence of more than nine fields hands its fields 3, 4, 5 and 6 to the parser. */
  lemma RmcFieldSelection(fields: seq<string>)
    requires |fields| > 9 && StartsWith(fields[0], RmcPrefix)
    requires forall i | 0 <= i < |fields| :: CommaFree(fields[i])
    ensures Classify(Join(fields)) == Some(FixOf(ParseLatLon(fields[3], fields[4], fields[5], fields[6]), Join(fields)))
  {
    SplitJoin(fields);
    StartsLikeFirstField(fields, RmcPrefix);
    ClassifyRmc(Join(fields));
  }

  /**
   * A line is skipped exactly when it starts with neither prefix or has fewer
   * than nine commas (nine or fewer fields).
   */
  lemma SkippedLines(line: string)
    ensures Classify(line).None?
        <==> (!StartsWith(line, GgaPrefix) && !StartsWith(line, RmcPrefix)) || CommaCount(line) < 9
  {
    SplitCount(line);
  }

  // ---------------------------------------------------------------------------
  // The scan

  /** A run of skipped lines leaves the outcome to the lines after it. */
  lemma {:induction false} SkippedRun(skipped: seq<string>, rest: seq<string>)
    requires forall j | 0 <= j < |skipped| :: Classify(skipped[j]).None?
    ensures FirstFix(skipped + rest) == FirstFix(rest)
  {
    if skipped != [] {
      assert Classify(skipped[0]).None?;
      assert forall j | 0 <= j < |skipped| - 1 :: skipped[1..][j] == skipped[j + 1];
      assert (skipped + rest)[0] == skipped[0];
      assert (skipped + rest)[1..] == skipped[1..] + rest;
      assert FirstFix(skipped + rest) == FirstFix(skipped[1..] + rest);
      SkippedRun(skipped[1..], rest);
    } else {
      assert skipped + rest == rest;
    }
  }

  /** The empty fix is never what a matched line yields: its `clas_bytes` of 0 is below any such line's length. */
  lemma EmptyFixUnlikeAnyMatch(line: string)
    ensures NoFix.latitude.None? && NoFix.longitude.None? && NoFix.clasBytes == 0
    ensures Classify(line) != Some(NoFix)
  {
  }

  /** The first line that matches decides the result, and its length becomes `clas_bytes`. */
  lemma {:induction false} FirstMatchWins(lines: seq<string>, k: nat)
    requires k < |lines| && Classify(lines[k]).Some?
    requires forall j | 0 <= j < k :: Classify(lines[j]).None?
    ensures FirstFix(lines) == Classify(lines[k]).value
    ensures FirstFix(lines).clasBytes == |lines[k]|
  {
    if k > 0 {
      FirstMatchWins(lines[1..], k - 1);
    }
  }

  /** The empty fix comes back exactly when no line matches. */
  lemma {:induction false} FallbackExactly(lines: seq<string>)
    ensures FirstFix(lines) == NoFix <==> forall j | 0 <= j < |lines| :: Classify(lines[j]).None?
  {
    if lines != [] {
      FallbackExactly(lines[1..]);
      if Classify(lines[0]).None? {
        assert forall j | 1 <= j < |lines| :: lines[j] == lines[1..][j - 1];
      }
    }
  }

  /** Lines after the first match are never read. */
  lemma {:induction false} LaterLinesUnread(lines: seq<string>, more: seq<string>)
    requires FirstFix(lines) != NoFix
    ensures FirstFix(lines + more) == FirstFix(lines)
  {
    assert lines != [];
    assert (lines + more)[0] == lines[0];
    if Classify(lines[0]).None? {
      assert (lines + more)[1..] == lines[1..] + more;
      LaterLinesUnread(lines[1..], more);
    }
  }

  // ---------------------------------------------------------------------------
  // Sentences from a receiver

  /** A GGA fix at 48°07.038' N, 11°31.000' E; `clas_bytes` is the length of the line. */
  lemma ScenarioGga(fields: seq<string>)
    requires fields == ["$GNGGA", "123519", "4807.038", "N", "01131.000", "E", "1", "08", "0.9", "545.4", "M", "46.9", "M", "", "*47"]
    ensures FirstFix([Join(fields)]) == Fix(Some(48.0 + 7.038 / 60.0), Some(11.0 + 31.0 / 60.0), |Join(fields)|)
  {
    GgaFieldSelection(fields);
    ExampleNorthEast(fields[2], fields[4]);
  }

  /** An RMC fix in the southern and western hemispheres gives two negative coordinates. */
  lemma ScenarioRmc(fields: seq<string>)
    requires fields == ["$GNRMC", "123519", "A", "4807.038", "S", "01131.000", "W", "022.4", "084.4", "230394", "003.1", "W*6A"]
    ensures FirstFix([Join(fields)]) == Fix(Some(-(48.0 + 7.038 / 60.0)), Some(-(11.0 + 31.0 / 60.0)), |Join(fields)|)
  {
    RmcFieldSelection(fields);
    ParseLatitudeField(fields[3]);
    ParseLongitudeField(fields[5]);
    PackedRoundTrip(48, 7.038);
    PackedRoundTrip(11, 31.0);
  }

  /** `$GNGGA` followed by fourteen empty fields is 20 characters long. */
  lemma EmptySentenceLength(fields: seq<string>)
    requires fields == ["$GNGGA", "", "", "", "", "", "", "", "", "", "", "", "", "", ""]
    ensures |Join(fields)| == 20
  {
    JoinOfEmptyFields(fields[1..]);
    assert Join(fields) == fields[0] + "," + Join(fields[1..]);
  }

  /** That sentence takes the GGA branch and its coordinates fail. */
  lemma EmptySentenceMatches(fields: seq<string>)
    requires fields == ["$GNGGA", "", "", "", "", "", "", "", "", "", "", "", "", "", ""]
    ensures Classify(Join(fields)) == Some(Fix(None, None, |Join(fields)|))
  {
    GgaFieldSelection(fields);
    ExampleEmptyField(fields[3], fields[4], fields[5]);
  }

  /** A GGA sentence with every field empty still ends the scan: no coordinates, but its length of 20. */
  lemma ScenarioEmptyFields(fields: seq<string>, rest: seq<string>)
    requires fields == ["$GNGGA", "", "", "", "", "", "", "", "", "", "", "", "", "", ""]
    ensures |Join(fields)| == 20
    ensures FirstFix([Join(fields)] + rest) == Fix(None, None, 20)
  {
    EmptySentenceLength(fields);
    EmptySentenceMatches(fields);
    FirstMatchWins([Join(fields)] + rest, 0);
  }

  /** A satellites-in-view sentence is neither GGA nor RMC. */
  lemma OtherSentenceSkipped(line: string)
    requires line == "$GNGSV,3,1,10"
    ensures Classify(line).None?
  {
    assert line[4] == 'S' != GgaPrefix[4] && line[4] != RmcPrefix[4];
  }

  /** An RMC sentence cut short after its status field has too few fields. */
  lemma ShortSentenceSkipped(line: string)
    requires line == "$GNRMC,A"
    ensures Classify(line).None?
  {
    assert CommaCount("$GNRMC,A") == 1;
    SkippedLines(line);
  }

  /** A stream that ends before any GGA or RMC sentence of more than nine fields gives the empty fix. */
  lemma ScenarioNoSentence(lines: seq<string>)
    requires lines == ["", "$GNGSV,3,1,10", "$GNRMC,A"]
    ensures FirstFix(lines) == NoFix
  {
    assert Classify(lines[0]).None?;
    OtherSentenceSkipped(lines[1]);
    ShortSentenceSkipped(lines[2]);
    assert forall j | 0 <= j < |lines| :: Classify(lines[j]).None? by {
      forall j | 0 <= j < |lines| ensures Classify(lines[j]).None? {
        assert j == 0 || j == 1 || j == 2;
      }
    }
    FallbackExactly(lines);
  }
}
