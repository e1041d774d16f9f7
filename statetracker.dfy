/** statetracker.go: the running state of a rosary walk (group, mystery and
    prayer labels and counters) and the names derived from it. */
module Tracking {
  import opened Basics
  import opened Strings

  /** The values of a StateTracker's fields at one moment. This is what the
      output-filename template is executed on, and what a callback sees. */
  datatype Tracker = Tracker(
    inputDirs: seq<string>,
    outputDir: string,
    format: string,
    group: string,
    decadeNumWord: string,
    mystery: string,
    mysteryPhrase: string,
    prayer: string,
    prayerName: string,
    outputFileNum: int,
    inputFileNum: int,
    groupNum: int,
    mysteryNum: int,
    prayerNum: int,
    hailMaryNum: int,
    outputFilenameTemplate: string,
    lastFilename: string)
  {
    /** `Apply`: a name holding "{{" is executed as a template on this state;
        anything else is returned as it is. */
    function Apply(name: string, host: Host): (r: string)
      ensures !Contains(name, "{{") ==> r == name
      ensures Contains(name, "{{") ==> r == host.render(name, this)
    {
      if Contains(name, "{{") then host.render(name, this) else name
    }

    /** The output file name that `UpdateFilename` computes from this state:
        the template applied, the format appended, joined onto the output directory. */
    function ComputedFilename(host: Host): (r: string)
      ensures !Contains(outputFilenameTemplate, "{{") ==>
                r == host.join(outputDir, outputFilenameTemplate + "." + format)
    {
      host.join(outputDir, Apply(outputFilenameTemplate, host) + "." + format)
    }

    /** The state `UpdateFilename` leaves: when the computed name differs
        from the last one, one more output file, whose name is computed
        after the count moved; otherwise this state. Only the output file
        number and the last name can change. */
    function Updated(host: Host): (u: Tracker)
      ensures u.outputFileNum == outputFileNum + 1 <==> ComputedFilename(host) != lastFilename
      ensures u.outputFileNum == outputFileNum || u.outputFileNum == outputFileNum + 1
      ensures u.(outputFileNum := outputFileNum, lastFilename := lastFilename) == this
    {
      if ComputedFilename(host) != lastFilename then
        var counted := this.(outputFileNum := outputFileNum + 1);
        counted.(lastFilename := counted.ComputedFilename(host))
      else this
    }

    /** `XthGroupMystery`: "Preamble" and "Postamble" stand for themselves;
        inside a decade the label is "<ordinal> <group> Mystery". */
    function XthGroupMystery(): (name: string)
      ensures group == "Preamble" ==> name == "Preamble"
      ensures group == "Postamble" ==> name == "Postamble"
      ensures group != "Preamble" && group != "Postamble" ==>
                name == decadeNumWord + " " + group + " Mystery"
    {
      if group == "Preamble" then "Preamble"
      else if group == "Postamble" then "Postamble"
      else decadeNumWord + " " + group + " Mystery"
    }

    /** `XofGroup`: as XthGroupMystery, but "<ordinal> Of <group>". */
    function XofGroup(): (name: string)
      ensures group == "Preamble" ==> name == "Preamble"
      ensures group == "Postamble" ==> name == "Postamble"
      ensures group != "Preamble" && group != "Postamble" ==>
                name == decadeNumWord + " Of " + group
    {
      if group == "Preamble" then "Preamble"
      else if group == "Postamble" then "Postamble"
      else decadeNumWord + " Of " + group
    }

    /** `FileNum`. */
    function FileNum(): int {
      outputFileNum
    }

    /** `ZeroFileNum`: the output file number, three digits wide. */
    function ZeroFileNum(): (s: string)
      ensures s == ZeroNum(outputFileNum, 3)
    {
      ZeroNum(outputFileNum, 3)
    }

    /** `CDTrack`: the output file number two digits wide, a space, then the
        XthGroupMystery label. */
    function CDTrack(): (s: string)
      ensures HasPrefix(s, ZeroNum(outputFileNum, 2) + " ")
      ensures s[|ZeroNum(outputFileNum, 2)| + 1..] == XthGroupMystery()
    {
      ZeroNum(outputFileNum, 2) + " " + XthGroupMystery()
    }
  }

  /** What the walk cannot compute by itself: Go's text/template execution,
      `filepath.Join`, and whether a file exists (`os.Stat`). */
  datatype Host = Host(
    render: (string, Tracker) -> string,
    join: (string, string) -> string,
    fileExists: string -> bool)

  /** The state `NewStateTracker` creates (and `Rosary.ForEachFile` writes out
      field by field): in the preamble, group number 1, every other counter 0. */
  function InitialTracker(idirs: seq<string>, odir: string, outputFilename: string, format: string): (t: Tracker)
    ensures t.group == "Preamble" && t.groupNum == 1
    ensures t.decadeNumWord == "" && t.mystery == "" && t.mysteryPhrase == "" && t.prayer == "" && t.prayerName == ""
    ensures t.outputFileNum == 0 && t.inputFileNum == 0 && t.mysteryNum == 0 && t.prayerNum == 0 && t.hailMaryNum == 0
    ensures t.lastFilename == ""
    ensures t.inputDirs == idirs && t.outputDir == odir && t.format == format && t.outputFilenameTemplate == outputFilename
  {
    Tracker(idirs, odir, format, "Preamble", "", "", "", "", "", 0, 0, 1, 0, 0, 0, outputFilename, "")
  }

  /** `NumWord`: 0 is the empty word, 1..10 are "First".."Tenth", and every
      other number is written in decimal. */
  function NumWord(num: int): (w: string)
    ensures w == "" <==> num == 0
    ensures w != "" ==> (w[0] == '-' <==> num < 0)
    ensures 1 <= num <= 10 ==> 'A' <= w[0] <= 'Z'
    ensures (num < 0 || num > 10) ==> IsDigit(w[|w| - 1])
  {
    match num
    case 0 => ""
    case 1 => "First"
    case 2 => "Second"
    case 3 => "Third"
    case 4 => "Fourth"
    case 5 => "Fifth"
    case 6 => "Sixth"
    case 7 => "Seventh"
    case 8 => "Eighth"
    case 9 => "Ninth"
    case 10 => "Tenth"
    case _ => Itoa(num)
  }

  /** NumWord's three cases, as the decade labels use them. */
  lemma NumWordCases(num: int)
    ensures num == 0 ==> NumWord(num) == ""
    ensures 1 <= num <= 10 ==> NumWord(num) == ["First", "Second", "Third", "Fourth", "Fifth",
                                                  "Sixth", "Seventh", "Eighth", "Ninth", "Tenth"][num - 1]
    ensures (num < 0 || num > 10) ==> NumWord(num) == Itoa(num)
  {
  }

  /** Different positions never get the same word, so decade labels are distinct. */
  lemma {:induction false} NumWordInjective(a: int, b: int)
    requires NumWord(a) == NumWord(b)
    ensures a == b
  {
    if (a < 0 || a > 10) && (b < 0 || b > 10) {
      ItoaInjective(a, b);
    }
  }

  /** `ZeroNum(num, zeroes)` is `fmt.Sprintf("%0<zeroes>d", num)`: the decimal
      form padded with '0' after the sign to `zeroes` characters; never truncated. */
  function ZeroNum(num: int, zeroes: nat): (r: string)
    ensures |r| >= zeroes && |r| >= |Itoa(num)|
    ensures r[0] == '-' <==> num < 0
    ensures forall i | 1 <= i < |r| :: IsDigit(r[i])
  {
    if num < 0 then "-" + ZeroPad(NatToString(-num), zeroes - 1)
    else ZeroPad(NatToString(num), zeroes)
  }

  /** For num >= 0: zeroes then the decimal form, exactly max(zeroes, digits) long. */
  lemma ZeroNumShape(num: nat, zeroes: nat)
    ensures var d := Itoa(num); var r := ZeroNum(num, zeroes);
      |r| == (if zeroes > |d| then zeroes else |d|) &&
      r[|r| - |d|..] == d &&
      forall i | 0 <= i < |r| - |d| :: r[i] == '0'
  {
  }

  /** Zero padding keeps a digit string a digit string of the same value. */
  lemma {:induction false} PaddedValue(d: string, width: int)
    requires |d| >= 1 && AllDigits(d)
    ensures var p := ZeroPad(d, width); |p| >= 1 && AllDigits(p) && DigitsValue(p) == DigitsValue(d)
  {
    if |d| < width {
      LeadingZerosValue(Zeros(width - |d|), d);
    }
  }

  /** The padded form still reads back as the same number. */
  lemma {:induction false} ZeroNumParses(num: int, zeroes: nat)
    requires MinInt64 <= num <= MaxInt64
    ensures Atoi(ZeroNum(num, zeroes)) == Some(num)
  {
    if num < 0 {
      var d := NatToString(-num);
      var p := ZeroPad(d, zeroes - 1);
      assert |p| >= 1 && AllDigits(p) && DigitsValue(p) == -num by {
        PaddedValue(d, zeroes - 1);
        NatToStringValue(-num);
      }
      assert ZeroNum(num, zeroes) == "-" + p;
      AtoiMinusDigits(p);
    } else {
      var d := NatToString(num);
      var p := ZeroPad(d, zeroes);
      assert |p| >= 1 && AllDigits(p) && DigitsValue(p) == num by {
        PaddedValue(d, zeroes);
        NatToStringValue(num);
      }
      assert ZeroNum(num, zeroes) == p;
      AtoiDigits(p);
    }
  }

  /** The StateTracker object that a walk updates in place. */
  class StateTracker {
    var inputDirs: seq<string>
    var outputDir: string
    var format: string
    var group: string
    var decadeNumWord: string
    var mystery: string
    var mysteryPhrase: string
    var prayer: string
    var prayerName: string
    var outputFileNum: int
    var inputFileNum: int
    var groupNum: int
    var mysteryNum: int
    var prayerNum: int
    var hailMaryNum: int
    var outputFilenameTemplate: string
    var lastFilename: string

    /** The current values of all fields. */
    function Snapshot(): Tracker
      reads this
    {
      Tracker(inputDirs, outputDir, format, group, decadeNumWord, mystery, mysteryPhrase, prayer, prayerName,
              outputFileNum, inputFileNum, groupNum, mysteryNum, prayerNum, hailMaryNum,
              outputFilenameTemplate, lastFilename)
    }

    /** `NewStateTracker`. */
    constructor (idirs: seq<string>, odir: string, outputFilename: string, format: string)
      ensures Snapshot() == InitialTracker(idirs, odir, outputFilename, format)
    {
      inputDirs, outputDir, this.format := idirs, odir, format;
      group, decadeNumWord, mystery, mysteryPhrase := "Preamble", "", "", "";
      prayer, prayerName := "", "";
      outputFileNum, inputFileNum, groupNum := 0, 0, 1;
      mysteryNum, prayerNum, hailMaryNum := 0, 0, 0;
      outputFilenameTemplate, lastFilename := outputFilename, "";
    }

    /** `UpdateFilename`: when the computed output name differs from the last
        one, count a new output file and remember the name, computed again
        after the count moved; otherwise change nothing. */
    method UpdateFilename(host: Host) returns (filenameChanged: bool)
      modifies this
      ensures filenameChanged <==> old(Snapshot()).ComputedFilename(host) != old(lastFilename)
      ensures filenameChanged ==>
                var counted := old(Snapshot()).(outputFileNum := old(outputFileNum) + 1);
                Snapshot() == counted.(lastFilename := counted.ComputedFilename(host))
      ensures !filenameChanged ==> Snapshot() == old(Snapshot())
      ensures Snapshot() == old(Snapshot()).Updated(host)
    {
      var temp := Snapshot().ComputedFilename(host);
      if temp != lastFilename {
        outputFileNum := outputFileNum + 1;
        lastFilename := Snapshot().ComputedFilename(host);
        return true;
      }
      return false;
    }

    /** `SetDecadeNumWord`. */
    method SetDecadeNumWord(num: int)
      modifies this
      ensures Snapshot() == old(Snapshot()).(decadeNumWord := NumWord(num))
    {
      decadeNumWord := NumWord(num);
    }

    /** `MatchActualFile`: the first input directory, in order, holding
        "<filename>.<format>"; when none does, the bare name and not found. */
    method MatchActualFile(filename: string, host: Host) returns (path: string, found: bool)
      ensures found ==> exists i | 0 <= i < |inputDirs| ::
                path == host.join(inputDirs[i], filename + "." + format) && host.fileExists(path) &&
                forall j | 0 <= j < i :: !host.fileExists(host.join(inputDirs[j], filename + "." + format))
      ensures !found ==> path == filename + "." + format
      ensures !found ==> forall i | 0 <= i < |inputDirs| :: !host.fileExists(host.join(inputDirs[i], filename + "." + format))
      ensures found <==> FirstFound(inputDirs, filename + "." + format, host).Some?
      ensures found ==> path == FirstFound(inputDirs, filename + "." + format, host).value
    {
      var fname := filename + "." + format;
      var k := 0;
      while k < |inputDirs|
        invariant 0 <= k <= |inputDirs|
        invariant forall j | 0 <= j < k :: !host.fileExists(host.join(inputDirs[j], fname))
        invariant FirstFound(inputDirs, fname, host) == FirstFound(inputDirs[k..], fname, host)
      {
        assert inputDirs[k..][1..] == inputDirs[k + 1..];
        var t := host.join(inputDirs[k], fname);
        if host.fileExists(t) {
          return t, true;
        }
        k := k + 1;
      }
      return fname, false;
    }
  }

  /** Where `MatchActualFile` finds "<fname>": joined onto the first of
      `dirs`, in order, where that file exists; none when no directory holds it. */
  function FirstFound(dirs: seq<string>, fname: string, host: Host): (r: Option<string>)
    ensures r.Some? <==> exists i | 0 <= i < |dirs| :: host.fileExists(host.join(dirs[i], fname))
    ensures r.Some? ==> host.fileExists(r.value)
    ensures r.Some? ==> exists i | 0 <= i < |dirs| ::
              r.value == host.join(dirs[i], fname) &&
              forall j | 0 <= j < i :: !host.fileExists(host.join(dirs[j], fname))
    decreases |dirs|
  {
    if |dirs| == 0 then None
    else if host.fileExists(host.join(dirs[0], fname)) then Some(host.join(dirs[0], fname))
    else
      var r := FirstFound(dirs[1..], fname, host);
      assert forall i | 1 <= i < |dirs| :: dirs[i] == dirs[1..][i - 1];
      r
  }

  /** The message `MatchActualFile` returns with a file it cannot find. */
  function NotFoundMessage(fname: string): (m: string)
    ensures HasPrefix(m, "File '") && |m| == |fname| + 45
    ensures m[6..6 + |fname|] == fname
  {
    "File '" + fname + "' was not found in any input directory."
  }

  /** Different missing files get different messages, so the report for a
      file names it unambiguously. */
  lemma NotFoundInjective(a: string, b: string)
    requires NotFoundMessage(a) == NotFoundMessage(b)
    ensures a == b
  {
    assert |a| == |b|;
    assert a == NotFoundMessage(a)[6..6 + |a|];
  }
}
