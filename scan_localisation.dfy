/**
 * The scan reader of the localisation prototype (src/localisation/localisation.py):
 * the text of an `iwlist scan` is read line by line into a dictionary from access-point
 * address to (quality, RSSI, distance, SSID).
 */
module ScanLocalisation {
  import opened Wrappers
  import opened Text
  import opened Dicts

  /**
   * `quality_to_rssi`: `quality / 2 - 100`, clamped to the RSSI range [-100, -50].
   */
  function QualityToRssi(quality: real): (rssi: real)
    ensures -100.0 <= rssi <= -50.0
    ensures quality <= 0.0 ==> rssi == -100.0
    ensures quality >= 100.0 ==> rssi == -50.0
  {
    if quality <= 0.0 then -100.0
    else if quality >= 100.0 then -50.0
    else quality / 2.0 - 100.0
  }

  /** A better link quality never gives a weaker signal. */
  lemma QualityToRssiMonotone(q1: real, q2: real)
    requires q1 <= q2
    ensures QualityToRssi(q1) <= QualityToRssi(q2)
  {
  }

  /** Inside the unclamped range the conversion is invertible: the quality is `2·(rssi + 100)`. */
  lemma QualityToRssiInverse(quality: real)
    requires 0.0 < quality < 100.0
    ensures -100.0 < QualityToRssi(quality) < -50.0
    ensures 2.0 * (QualityToRssi(quality) + 100.0) == quality
  {
  }

  /** One stored network: `(quality, rssi, distance, ssid)`. */
  datatype Entry = Entry(quality: real, rssi: real, distance: real, ssid: string)

  /** What a stripped line of the scan text is taken to be. */
  datatype Line =
    | CellLine(key: string)               // "Cell ": the address after ": "
    | SsidLine(ssid: string)              // "SSID": the quoted name
    | QualityLine(quality: Option<real>)  // "Quality": `None` where the `=` is missing (IndexError)
    | OtherLine

  /** The pieces of a "Quality" line that `float` reads: after the first '=', up to the first '/'. */
  function QualityToken(line: string): Option<string> {
    var parts := Split(line, "=");
    if |parts| < 2 then None else Some(Split(parts[1], "/")[0])
  }

  /**
   * The lines the method reads without raising an uncaught exception: a "Cell " line
   * holds ": ", an "SSID" line holds `:"`, and the quality of a "Quality" line, when
   * there is one, is a number.
   */
  predicate LineParses(line: string) {
    if Contains(line, "Cell ") then Contains(line, ": ")
    else if Contains(line, "SSID") then Contains(line, ":\"")
    else if Contains(line, "Quality") then QualityToken(line).Some? ==> PyFloat(QualityToken(line).value).Some?
    else true
  }

  /** The branch a stripped line takes, in the order the method tests them. */
  function Classify(line: string): (l: Line)
    requires LineParses(line)
    ensures l.CellLine? <==> Contains(line, "Cell ")
    ensures l.SsidLine? <==> !Contains(line, "Cell ") && Contains(line, "SSID")
    ensures l.QualityLine? <==> !Contains(line, "Cell ") && !Contains(line, "SSID") && Contains(line, "Quality")
  {
    if Contains(line, "Cell ") then
      SplitHasSecond(line, ": ");
      CellLine(Split(line, ": ")[1])
    else if Contains(line, "SSID") then
      SplitHasSecond(line, ":\"");
      SsidLine(DropLast(Split(line, ":\"")[1]))
    else if Contains(line, "Quality") then
      match QualityToken(line)
      case None => QualityLine(None)
      case Some(t) => QualityLine(PyFloat(t))
    else OtherLine
  }

  /** The loop's variables: the current key, the current SSID and the dictionary. */
  datatype ScanState = ScanState(curKey: string, curSsid: string, networks: Dict<string, Entry>)

  /** Before the first line: both defaults are "ERR", and the dictionary is what the object already holds. */
  function Start(networks: Dict<string, Entry>): ScanState {
    ScanState("ERR", "ERR", networks)
  }

  /** The stored tuple of a quality reading. */
  function EntryOf(quality: real, ssid: string, toDistance: real -> real): Entry {
    Entry(quality, QualityToRssi(quality), toDistance(QualityToRssi(quality)), ssid)
  }

  /** One iteration of the loop over the lines. */
  function Step(st: ScanState, line: string, toDistance: real -> real): ScanState
    requires LineParses(Strip(line))
  {
    match Classify(Strip(line))
    case CellLine(k) => st.(curKey := k)
    case SsidLine(s) => st.(curSsid := s)
    case QualityLine(None) => st
    case QualityLine(Some(q)) => st.(networks := Put(st.networks, st.curKey, EntryOf(q, st.curSsid, toDistance)))
    case OtherLine => st
  }

  predicate AllParse(lines: seq<string>) {
    forall i :: 0 <= i < |lines| ==> LineParses(Strip(lines[i]))
  }

  /** The state after the given lines. */
  function Run(lines: seq<string>, st: ScanState, toDistance: real -> real): ScanState
    requires AllParse(lines)
    decreases |lines|
  {
    if |lines| == 0 then st
    else Step(Run(lines[..|lines| - 1], st, toDistance), lines[|lines| - 1], toDistance)
  }

  /** The state after one more line is one more step. */
  lemma RunSnoc(lines: seq<string>, i: nat, st: ScanState, toDistance: real -> real)
    requires AllParse(lines) && i < |lines|
    ensures AllParse(lines[..i]) && AllParse(lines[..i + 1])
    ensures Run(lines[..i + 1], st, toDistance) == Step(Run(lines[..i], st, toDistance), lines[i], toDistance)
  {
    assert lines[..i + 1][..i] == lines[..i];
  }

  // `Step`, spelled out branch by branch with the tests and expressions the method's loop body uses.

  lemma StepCell(st: ScanState, raw: string, toDistance: real -> real)
    requires LineParses(Strip(raw)) && Contains(Strip(raw), "Cell ")
    ensures |Split(Strip(raw), ": ")| >= 2
    ensures Step(st, raw, toDistance) == st.(curKey := Split(Strip(raw), ": ")[1])
  {
    SplitHasSecond(Strip(raw), ": ");
  }

  lemma StepSsid(st: ScanState, raw: string, toDistance: real -> real)
    requires LineParses(Strip(raw)) && !Contains(Strip(raw), "Cell ") && Contains(Strip(raw), "SSID")
    ensures |Split(Strip(raw), ":\"")| >= 2
    ensures Step(st, raw, toDistance) == st.(curSsid := DropLast(Split(Strip(raw), ":\"")[1]))
  {
    SplitHasSecond(Strip(raw), ":\"");
  }

  lemma StepQuality(st: ScanState, raw: string, toDistance: real -> real)
    requires LineParses(Strip(raw)) && !Contains(Strip(raw), "Cell ") && !Contains(Strip(raw), "SSID")
    requires Contains(Strip(raw), "Quality") && |Split(Strip(raw), "=")| >= 2
    ensures PyFloat(Split(Split(Strip(raw), "=")[1], "/")[0]).Some?
    ensures Step(st, raw, toDistance) == st.(networks := Put(st.networks, st.curKey,
      EntryOf(PyFloat(Split(Split(Strip(raw), "=")[1], "/")[0]).value, st.curSsid, toDistance)))
  {
  }

  lemma StepOther(st: ScanState, raw: string, toDistance: real -> real)
    requires LineParses(Strip(raw)) && !Contains(Strip(raw), "Cell ") && !Contains(Strip(raw), "SSID")
    requires !(Contains(Strip(raw), "Quality") && |Split(Strip(raw), "=")| >= 2)
    ensures Step(st, raw, toDistance) == st
  {
  }

  /**
   * The body of the line loop of `process_network_data`: the stripped line sets the key,
   * sets the SSID or stores a reading under the current key; any other line changes nothing.
   */
  method ReadLine(raw: string, curKey: string, curSsid: string, networks: Dict<string, Entry>, toDistance: real -> real)
    returns (key: string, ssid: string, networks': Dict<string, Entry>)
    requires LineParses(Strip(raw))
    ensures ScanState(key, ssid, networks') == Step(ScanState(curKey, curSsid, networks), raw, toDistance)
  {
    key, ssid, networks' := curKey, curSsid, networks;
    var st := ScanState(curKey, curSsid, networks);
    var line := Strip(raw);
    if Contains(line, "Cell ") {
      StepCell(st, raw, toDistance);
      key := Split(line, ": ")[1];
    } else if Contains(line, "SSID") {
      StepSsid(st, raw, toDistance);
      ssid := DropLast(Split(line, ":\"")[1]);
    } else if Contains(line, "Quality") {
      var parts := Split(line, "=");
      if |parts| >= 2 {
        StepQuality(st, raw, toDistance);
        var quality := PyFloat(Split(parts[1], "/")[0]).value;
        var rssi := QualityToRssi(quality);
        var distance := toDistance(rssi);
        networks' := Put(networks, curKey, Entry(quality, rssi, distance, curSsid));
      } else {
        StepOther(st, raw, toDistance);
      }
    } else {
      StepOther(st, raw, toDistance);
    }
  }

  /** The key of the most recent "Cell " line, or "ERR" before the first one. */
  function LatestKey(lines: seq<string>): string
    requires AllParse(lines)
    decreases |lines|
  {
    if |lines| == 0 then "ERR"
    else match Classify(Strip(lines[|lines| - 1]))
      case CellLine(k) => k
      case _ => LatestKey(lines[..|lines| - 1])
  }

  /** The name of the most recent "SSID" line, or "ERR" before the first one. */
  function LatestSsid(lines: seq<string>): string
    requires AllParse(lines)
    decreases |lines|
  {
    if |lines| == 0 then "ERR"
    else match Classify(Strip(lines[|lines| - 1]))
      case SsidLine(s) => s
      case _ => LatestSsid(lines[..|lines| - 1])
  }

  /** A "Quality" line whose quality could be read. */
  predicate IsReading(line: string) {
    LineParses(Strip(line)) && Classify(Strip(line)).QualityLine? && Classify(Strip(line)).quality.Some?
  }

  lemma AllParsePrefix(lines: seq<string>, n: nat)
    requires AllParse(lines) && n <= |lines|
    ensures AllParse(lines[..n])
  {
  }

  /** The loop's current key and SSID are those of the latest "Cell " and "SSID" lines. */
  lemma {:induction false} RunTracksLatest(lines: seq<string>, d: Dict<string, Entry>, toDistance: real -> real)
    requires AllParse(lines)
    ensures Run(lines, Start(d), toDistance).curKey == LatestKey(lines)
    ensures Run(lines, Start(d), toDistance).curSsid == LatestSsid(lines)
    decreases |lines|
  {
    if |lines| > 0 {
      RunTracksLatest(lines[..|lines| - 1], d, toDistance);
    }
  }

  /**
   * A readable "Quality" line stores `(quality, rssi, distance, ssid)` under the latest
   * key, overwriting an earlier entry for that key; any other line leaves the dictionary
   * as it is (in particular a "Quality" line without '=').
   */
  lemma RunLastLine(lines: seq<string>, line: string, d: Dict<string, Entry>, toDistance: real -> real)
    requires AllParse(lines + [line])
    ensures AllParse(lines)
    ensures var before := Run(lines, Start(d), toDistance).networks;
      var after := Run(lines + [line], Start(d), toDistance).networks;
      if IsReading(line) then
        after == Put(before, LatestKey(lines), EntryOf(Classify(Strip(line)).quality.value, LatestSsid(lines), toDistance))
      else after == before
  {
    var all := lines + [line];
    assert all[..|all| - 1] == lines;
    assert AllParse(lines) by {
      forall i | 0 <= i < |lines| ensures LineParses(Strip(lines[i])) {
        assert all[i] == lines[i];
      }
    }
    RunTracksLatest(lines, d, toDistance);
  }

  /** Line `i` is a readable "Quality" line met while `k` was the latest key. */
  predicate WrittenAt(lines: seq<string>, i: int, k: string) {
    0 <= i < |lines| && IsReading(lines[i]) && AllParse(lines[..i]) && LatestKey(lines[..i]) == k
  }

  /** A write before the last line is a write in the shorter scan, and the other way round. */
  lemma WrittenAtEarlier(init: seq<string>, last: string, i: int, k: string)
    requires 0 <= i < |init|
    ensures WrittenAt(init + [last], i, k) <==> WrittenAt(init, i, k)
  {
    var lines := init + [last];
    assert init[..i] == lines[..i];
    assert lines[i] == init[i];
  }

  lemma WrittenAtSnoc(init: seq<string>, last: string, k: string)
    requires AllParse(init)
    ensures (exists i :: WrittenAt(init + [last], i, k)) <==>
      (exists i :: WrittenAt(init, i, k)) || (IsReading(last) && LatestKey(init) == k)
  {
    var lines := init + [last];
    assert lines[..|init|] == init;
    assert lines[|init|] == last;
    if exists i :: WrittenAt(lines, i, k) {
      var i :| WrittenAt(lines, i, k);
      if i < |init| {
        WrittenAtEarlier(init, last, i, k);
      }
    }
    if exists i :: WrittenAt(init, i, k) {
      var i :| WrittenAt(init, i, k);
      WrittenAtEarlier(init, last, i, k);
    }
    if IsReading(last) && LatestKey(init) == k {
      assert WrittenAt(lines, |init|, k);
    }
  }

  /**
   * A key is in the final dictionary exactly when it was there before, or it was the
   * latest key at some readable "Quality" line.
   */
  lemma {:induction false} StoredKeys(lines: seq<string>, d: Dict<string, Entry>, toDistance: real -> real, k: string)
    requires AllParse(lines)
    ensures HasKey(Run(lines, Start(d), toDistance).networks, k) <==> HasKey(d, k) || exists i :: WrittenAt(lines, i, k)
    decreases |lines|
  {
    if |lines| > 0 {
      var init := lines[..|lines| - 1];
      var last := lines[|lines| - 1];
      assert lines == init + [last];
      RunLastLine(init, last, d, toDistance);
      StoredKeys(init, d, toDistance, k);
      WrittenAtSnoc(init, last, k);
      if IsReading(last) {
        var before := Run(init, Start(d), toDistance).networks;
        PutGetKeys(before, LatestKey(init), EntryOf(Classify(Strip(last)).quality.value, LatestSsid(init), toDistance), k);
      }
    }
  }

  lemma PutGetKeys(d: Dict<string, Entry>, key: string, v: Entry, k: string)
    ensures HasKey(Put(d, key, v), k) <==> HasKey(d, k) || k == key
  {
    match IndexOf(d, key)
    case Some(i) =>
      var r := Put(d, key, v);
      assert Keys(r) == Keys(d);
      if HasKey(d, k) {
        var j :| 0 <= j < |d| && d[j].0 == k;
        assert Keys(d)[j] == k;
        assert r[j].0 == Keys(r)[j];
      }
      if HasKey(r, k) {
        var j :| 0 <= j < |r| && r[j].0 == k;
        assert Keys(r)[j] == k;
        assert d[j].0 == Keys(d)[j];
      }
    case None =>
      var r := Put(d, key, v);
      assert r[|d|].0 == key;
      if HasKey(r, k) {
        var j :| 0 <= j < |r| && r[j].0 == k;
        if j < |d| { assert d[j] == r[j]; }
      }
      if HasKey(d, k) {
        var j :| 0 <= j < |d| && d[j].0 == k;
        assert r[j] == d[j];
      }
  }

  /** The first line of `__repr__`. */
  const HeaderLine: string := "      MAC      | Quality | RSSI |   Distance   | SSID"

  /** One line of `__repr__`; `show` stands for Python's formatting of a number. */
  function RowOf(key: string, e: Entry, show: real -> string): string {
    key + ", " + show(e.quality) + ", " + show(e.rssi) + ", " + show(e.distance) + ", " + e.ssid
  }

  function Rows(d: Dict<string, Entry>, show: real -> string): (rows: seq<string>)
    ensures |rows| == |d| && forall i :: 0 <= i < |d| ==> rows[i] == RowOf(d[i].0, d[i].1, show)
  {
    seq(|d|, i requires 0 <= i < |d| => RowOf(d[i].0, d[i].1, show))
  }

  /** After the header line, the representation reads back as one row per entry, in dictionary order. */
  lemma ReprLines(d: Dict<string, Entry>, show: real -> string)
    requires forall i :: 0 <= i < |d| ==> Free(RowOf(d[i].0, d[i].1, show), '\n')
    ensures Split(Terminated(Rows(d, show), '\n'), "\n") == Rows(d, show) + [""]
  {
    SplitTerminated(Rows(d, show), '\n');
  }

  class Localisation {
    /** `network_dict`: address to `(quality, rssi, distance, ssid)`, in insertion order. */
    var networkDict: Dict<string, Entry>
    /** `process_output`: the raw text of the last scan. */
    var processOutput: string

    constructor ()
      ensures networkDict == [] && processOutput == ""
    {
      networkDict := [];
      processOutput := "";
    }

    /** The lines of the scan text. */
    function ScanLines(): seq<string>
      reads this
    {
      Split(processOutput, "\n")
    }

    /**
     * `process_network_data`: runs the line loop from the default key and SSID over the
     * current dictionary, which is not cleared first. `toDistance` is `rssi_to_distance`.
     */
    method ProcessNetworkData(toDistance: real -> real)
      requires AllParse(ScanLines())
      modifies this
      ensures processOutput == old(processOutput)
      ensures networkDict == Run(ScanLines(), Start(old(networkDict)), toDistance).networks
    {
      var data := Split(processOutput, "\n");
      var curKey := "ERR";
      var curSsid := "ERR";
      var networks := networkDict;
      ghost var st0 := Start(networks);
      var i := 0;
      assert ScanState(curKey, curSsid, networks) == Run(data[..0], st0, toDistance);
      while i < |data|
        invariant 0 <= i <= |data| && processOutput == old(processOutput) && networkDict == old(networkDict)
        invariant AllParse(data[..i])
        invariant ScanState(curKey, curSsid, networks) == Run(data[..i], st0, toDistance)
      {
        RunSnoc(data, i, st0, toDistance);
        curKey, curSsid, networks := ReadLine(data[i], curKey, curSsid, networks, toDistance);
        i := i + 1;
      }
      networkDict := networks;
      assert data[..|data|] == data;
    }

    /** `__repr__`; `show` stands for Python's formatting of a number. */
    method Repr(show: real -> string) returns (out: string)
      ensures out == HeaderLine + "\n" + Terminated(Rows(networkDict, show), '\n')
    {
      out := HeaderLine + "\n";
      var i := 0;
      while i < |networkDict|
        invariant 0 <= i <= |networkDict|
        invariant out == HeaderLine + "\n" + Terminated(Rows(networkDict[..i], show), '\n')
      {
        var (key, value) := networkDict[i];
        var row := key + ", " + show(value.quality) + ", " + show(value.rssi) + ", " + show(value.distance) + ", " + value.ssid;
        assert row == RowOf(networkDict[i].0, networkDict[i].1, show);
        TerminatedAppend(Rows(networkDict[..i], show), row, '\n');
        assert Rows(networkDict[..i + 1], show) == Rows(networkDict[..i], show) + [row];
        out := out + row + "\n";
        i := i + 1;
      }
      assert networkDict[..|networkDict|] == networkDict;
    }
  }
}
