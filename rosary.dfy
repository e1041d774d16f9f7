/** rosary.go: a rosary as preamble, decades of mysteries, and postamble;
    building it from a structure and groups, flattening it, and walking it
    with a shared StateTracker. */
module Rosaries {
  import opened Basics
  import opened Strings
  import opened PrayerOptions
  import opened Tracking
  import opened Structures
  import opened Prayers

  /** One mystery and the prayers said for it. A prayer key with no prayer
      behind it is a nil entry (None). */
  datatype Mystery = Mystery(num: int, name: string, desc: string, prayers: seq<Option<Prayer>>)
  {
    /** `Mystery.GetPrayers`: the prayers, in order. */
    function GetPrayers(): (ps: seq<Option<Prayer>>)
      ensures ps == prayers
    {
      prayers
    }

    /** `Mystery.ForEachFile`: name the mystery in the tracker, reset the Hail
        Mary count, walk the prayers, reset the count again. */
    method ForEachFile(o: OptionProvider, s: StateTracker, host: Host) returns (calls: seq<Call>)
      requires Walkable(prayers, o)
      modifies s
      ensures var w := MysteryWalk(this, o, old(s.Snapshot()), host);
              s.Snapshot() == w.state && calls == w.calls
    {
      ghost var t := s.Snapshot();
      s.mysteryNum := num;
      s.mystery := name;
      s.mysteryPhrase := s.mystery + " Mystery";
      s.hailMaryNum := 0;
      assert s.Snapshot() == t.(mysteryNum := num, mystery := name, mysteryPhrase := name + " Mystery", hailMaryNum := 0);
      calls := WalkPrayers(prayers, o, s, host);
      ghost var after := s.Snapshot();
      s.hailMaryNum := 0;
      assert s.Snapshot() == after.(hailMaryNum := 0);
    }
  }

  /** One decade: its group's name, the prayers said once per decade, and its mysteries. */
  datatype Decade = Decade(name: string, group: seq<Option<Prayer>>, mysteries: seq<Mystery>)
  {
    /** `Decade.GetPrayers`: the group prayers, then each mystery's prayers in order. */
    function GetPrayers(): (ps: seq<Option<Prayer>>)
      ensures |ps| == |group| + PrayerCount(mysteries)
      ensures ps[..|group|] == group
    {
      MysteriesPrayersCount(mysteries);
      group + MysteriesPrayers(mysteries)
    }

    /** `Decade.ForEachFile`: enter the next group, announce the first mystery,
        walk the group prayers, walk each mystery with its ordinal word, then
        clear the mystery fields. */
    method ForEachFile(o: OptionProvider, s: StateTracker, host: Host) returns (calls: seq<Call>)
      requires DecadeWalkable(this, o)
      modifies s
      ensures var w := DecadeWalk(this, o, old(s.Snapshot()), host);
              s.Snapshot() == w.state && calls == w.calls
    {
      ghost var t := s.Snapshot();
      EnterDecade(this, s);
      var c1 := WalkPrayers(group, o, s, host);
      ghost var t1 := s.Snapshot();
      assert Walk(t1, c1) == PrayersWalk(group, o, DecadeStart(this, t), host);
      var c2 := WalkMysteries(mysteries, o, s, host);
      assert Walk(s.Snapshot(), c2) == MysteriesWalk(mysteries, o, t1, host);
      calls := c1 + c2;
      ClearMystery(s);
      s.SetDecadeNumWord(0);
    }
  }

  /** A rosary, ready to be walked or flattened. */
  datatype Rosary = Rosary(preamble: seq<Option<Prayer>>, decades: seq<Decade>, postamble: seq<Option<Prayer>>)
  {
    /** `Rosary.GetPrayers`: preamble, each decade's prayers in order, postamble. */
    function GetPrayers(): (ps: seq<Option<Prayer>>)
      ensures |ps| == |preamble| + |DecadesPrayers(decades)| + |postamble|
      ensures ps[..|preamble|] == preamble && ps[|ps| - |postamble|..] == postamble
    {
      preamble + DecadesPrayers(decades) + postamble
    }

    /** `Rosary.ForEachFile`: a fresh tracker in the preamble; the preamble,
        every decade, then the postamble (one more group, no mystery), and a
        final call with an empty name and no prayer or tracker. */
    method ForEachFile(idirs: seq<string>, odir: string, outputFilename: string, format: string,
                       o: OptionProvider, host: Host) returns (calls: seq<Call>)
      requires RosaryWalkable(this, o)
      ensures calls == RosaryWalk(this, idirs, odir, outputFilename, format, o, host).calls
    {
      var s := new StateTracker(idirs, odir, outputFilename, format);
      ghost var t0 := s.Snapshot();
      var pre := WalkPrayers(preamble, o, s, host);
      ghost var t1 := s.Snapshot();
      assert Walk(t1, pre) == PrayersWalk(preamble, o, t0, host);
      var mid := WalkDecades(decades, o, s, host);
      ghost var t2 := s.Snapshot();
      assert Walk(t2, mid) == DecadesWalk(decades, o, t1, host);
      var post := WalkPostamble(postamble, o, s, host);
      calls := pre + mid + post + [Call("", None, None)];
    }
  }

  /** The prayers of a sequence of mysteries, one mystery after the other. */
  function MysteriesPrayers(ms: seq<Mystery>): seq<Option<Prayer>>
    decreases |ms|
  {
    if |ms| == 0 then [] else MysteriesPrayers(ms[..|ms| - 1]) + ms[|ms| - 1].GetPrayers()
  }

  /** The prayers of a sequence of decades, one decade after the other. */
  function DecadesPrayers(ds: seq<Decade>): seq<Option<Prayer>>
    decreases |ds|
  {
    if |ds| == 0 then [] else DecadesPrayers(ds[..|ds| - 1]) + ds[|ds| - 1].GetPrayers()
  }

  /** The number of prayers of a sequence of mysteries. */
  function PrayerCount(ms: seq<Mystery>): nat
    decreases |ms|
  {
    if |ms| == 0 then 0 else PrayerCount(ms[..|ms| - 1]) + |ms[|ms| - 1].prayers|
  }

  lemma {:induction false} MysteriesPrayersCount(ms: seq<Mystery>)
    ensures |MysteriesPrayers(ms)| == PrayerCount(ms)
    decreases |ms|
  {
    if |ms| > 0 {
      MysteriesPrayersCount(ms[..|ms| - 1]);
    }
  }

  /** `Group`: an ordered, named set of mysteries given by number. */
  datatype GroupValue = GroupValue(order: int, key: string, name: string, mysteries: seq<int>)

  class Group {
    var order: int
    var key: string
    var name: string
    var mysteries: seq<int>

    function Value(): GroupValue
      reads this
    {
      GroupValue(order, key, name, mysteries)
    }

    /** `NewGroup`: no mysteries yet. */
    constructor (order: int, key: string, name: string)
      ensures Value() == GroupValue(order, key, name, [])
    {
      this.order, this.key, this.name := order, key, name;
      mysteries := [];
    }

    /** `AddMystery` appends a mystery number; nothing else changes. */
    method AddMystery(mystery: int)
      modifies this
      ensures Value() == old(Value()).(mysteries := old(mysteries) + [mystery])
    {
      mysteries := mysteries + [mystery];
    }
  }

  /** A prayer key looked up in the prayer table: nil (None) when absent. */
  function Lookup(prayers: map<string, Prayer>, key: string): (p: Option<Prayer>)
    ensures key in prayers ==> p == Some(prayers[key])
    ensures key !in prayers ==> p == None
  {
    if key in prayers then Some(prayers[key]) else None
  }

  function LookupAll(prayers: map<string, Prayer>, keys: seq<string>): (ps: seq<Option<Prayer>>)
    ensures |ps| == |keys| && forall i | 0 <= i < |keys| :: ps[i] == Lookup(prayers, keys[i])
  {
    seq(|keys|, i requires 0 <= i < |keys| => Lookup(prayers, keys[i]))
  }

  /** Every mystery number the groups name has an entry in the mystery table
      (Go dereferences the entry, so a missing one panics). */
  predicate MysteriesKnown(groups: seq<GroupValue>, mysteries: map<string, Mystery>) {
    forall i, j | 0 <= i < |groups| && 0 <= j < |groups[i].mysteries| :: Itoa(groups[i].mysteries[j]) in mysteries
  }

  /** The mystery that `NewRosary` makes for a mystery number: number and
      name from the table, no description, the structure's mystery prayers. */
  function DecadeMystery(structure: StructureValue, mi: int, mysteries: map<string, Mystery>, prayers: map<string, Prayer>): Mystery
    requires Itoa(mi) in mysteries
  {
    var m := mysteries[Itoa(mi)];
    Mystery(m.num, m.name, "", LookupAll(prayers, structure.mystery))
  }

  /** `NewRosary`: the preamble and postamble keys looked up in order; one
      decade per group, in group order, with the structure's group prayers
      and one mystery per mystery number of the group. */
  function NewRosary(structure: StructureValue, groups: seq<GroupValue>,
                     mysteries: map<string, Mystery>, prayers: map<string, Prayer>): (r: Rosary)
    requires MysteriesKnown(groups, mysteries)
    ensures |r.preamble| == |structure.preamble| &&
            forall i | 0 <= i < |structure.preamble| :: r.preamble[i] == Lookup(prayers, structure.preamble[i])
    ensures |r.postamble| == |structure.postamble| &&
            forall i | 0 <= i < |structure.postamble| :: r.postamble[i] == Lookup(prayers, structure.postamble[i])
    ensures |r.decades| == |groups|
    ensures forall i | 0 <= i < |groups| ::
              r.decades[i].name == groups[i].name &&
              r.decades[i].group == LookupAll(prayers, structure.group) &&
              |r.decades[i].mysteries| == |groups[i].mysteries| &&
              forall j | 0 <= j < |groups[i].mysteries| ::
                r.decades[i].mysteries[j].num == mysteries[Itoa(groups[i].mysteries[j])].num &&
                r.decades[i].mysteries[j].name == mysteries[Itoa(groups[i].mysteries[j])].name &&
                r.decades[i].mysteries[j].desc == "" &&
                r.decades[i].mysteries[j].prayers == LookupAll(prayers, structure.mystery)
  {
    var pergroup := LookupAll(prayers, structure.group);
    Rosary(LookupAll(prayers, structure.preamble),
           seq(|groups|, i requires 0 <= i < |groups| =>
             Decade(groups[i].name, pergroup,
                    seq(|groups[i].mysteries|, j requires 0 <= j < |groups[i].mysteries| =>
                      DecadeMystery(structure, groups[i].mysteries[j], mysteries, prayers)))),
           LookupAll(prayers, structure.postamble))
  }

  /** The flattened list of a built rosary has one entry per preamble key,
      per group key of every group, per mystery key of every mystery, and
      per postamble key. */
  lemma NewRosaryPrayerCount(structure: StructureValue, groups: seq<GroupValue>,
                             mysteries: map<string, Mystery>, prayers: map<string, Prayer>)
    requires MysteriesKnown(groups, mysteries)
    ensures |NewRosary(structure, groups, mysteries, prayers).GetPrayers()| ==
            |structure.preamble| + GroupedCount(groups, |structure.group|, |structure.mystery|) + |structure.postamble|
  {
    var r := NewRosary(structure, groups, mysteries, prayers);
    DecadesCount(r.decades, groups, |structure.group|, |structure.mystery|);
  }

  /** Per group: `perGroup` prayers, plus `perMystery` for each of its mysteries. */
  function GroupedCount(groups: seq<GroupValue>, perGroup: nat, perMystery: nat): nat
    decreases |groups|
  {
    if |groups| == 0 then 0
    else GroupedCount(groups[..|groups| - 1], perGroup, perMystery) + perGroup + perMystery * |groups[|groups| - 1].mysteries|
  }

  lemma {:induction false} UniformPrayerCount(ms: seq<Mystery>, perMystery: nat)
    requires forall j | 0 <= j < |ms| :: |ms[j].prayers| == perMystery
    ensures PrayerCount(ms) == perMystery * |ms|
    decreases |ms|
  {
    if |ms| > 0 {
      UniformPrayerCount(ms[..|ms| - 1], perMystery);
    }
  }

  lemma {:induction false} DecadesCount(ds: seq<Decade>, groups: seq<GroupValue>, perGroup: nat, perMystery: nat)
    requires |ds| == |groups|
    requires forall i | 0 <= i < |ds| ::
               |ds[i].group| == perGroup && |ds[i].mysteries| == |groups[i].mysteries| &&
               forall j | 0 <= j < |ds[i].mysteries| :: |ds[i].mysteries[j].prayers| == perMystery
    ensures |DecadesPrayers(ds)| == GroupedCount(groups, perGroup, perMystery)
    decreases |ds|
  {
    if |ds| > 0 {
      var n := |ds| - 1;
      DecadesCount(ds[..n], groups[..n], perGroup, perMystery);
      UniformPrayerCount(ds[n].mysteries, perMystery);
    }
  }

  // ---- Walks, as functions of the tracker's fields ----

  /** Every decade's lists can be walked. */
  predicate DecadeWalkable(d: Decade, o: OptionProvider)
  {
    Walkable(d.group, o) && forall j | 0 <= j < |d.mysteries| :: Walkable(d.mysteries[j].prayers, o)
  }

  predicate RosaryWalkable(r: Rosary, o: OptionProvider)
  {
    Walkable(r.preamble, o) && Walkable(r.postamble, o) &&
    forall i | 0 <= i < |r.decades| :: DecadeWalkable(r.decades[i], o)
  }

  function MysteryWalk(m: Mystery, o: OptionProvider, t: Tracker, host: Host): Walk
    requires Walkable(m.prayers, o)
  {
    var t1 := t.(mysteryNum := m.num, mystery := m.name, mysteryPhrase := m.name + " Mystery", hailMaryNum := 0);
    var w := PrayersWalk(m.prayers, o, t1, host);
    Walk(w.state.(hailMaryNum := 0), w.calls)
  }

  /** The mysteries of a decade; the k-th (1-based) is walked with DecadeNumWord NumWord(k). */
  function MysteriesWalk(ms: seq<Mystery>, o: OptionProvider, t: Tracker, host: Host): Walk
    requires forall j | 0 <= j < |ms| :: Walkable(ms[j].prayers, o)
    decreases |ms|
  {
    if |ms| == 0 then Walk(t, [])
    else
      var w := MysteriesWalk(ms[..|ms| - 1], o, t, host);
      var v := MysteryWalk(ms[|ms| - 1], o, w.state.(decadeNumWord := NumWord(|ms|)), host);
      Walk(v.state, w.calls + v.calls)
  }

  /** The tracker as a decade begins, before its group prayers. */
  function DecadeStart(d: Decade, t: Tracker): Tracker {
    t.(groupNum := t.groupNum + 1, group := d.name, hailMaryNum := 0, decadeNumWord := NumWord(1),
       mysteryNum := if |d.mysteries| > 0 then d.mysteries[0].num else 0,
       mystery := if |d.mysteries| > 0 then d.mysteries[0].name else "",
       mysteryPhrase := if |d.mysteries| > 0 then d.mysteries[0].name + " Mystery" else "")
  }

  function DecadeWalk(d: Decade, o: OptionProvider, t: Tracker, host: Host): Walk
    requires DecadeWalkable(d, o)
  {
    var w1 := PrayersWalk(d.group, o, DecadeStart(d, t), host);
    var w2 := MysteriesWalk(d.mysteries, o, w1.state, host);
    Walk(w2.state.(mysteryNum := 0, mystery := "", mysteryPhrase := "", decadeNumWord := NumWord(0)),
         w1.calls + w2.calls)
  }

  function DecadesWalk(ds: seq<Decade>, o: OptionProvider, t: Tracker, host: Host): Walk
    requires forall i | 0 <= i < |ds| :: DecadeWalkable(ds[i], o)
    decreases |ds|
  {
    if |ds| == 0 then Walk(t, [])
    else
      var w := DecadesWalk(ds[..|ds| - 1], o, t, host);
      var v := DecadeWalk(ds[|ds| - 1], o, w.state, host);
      Walk(v.state, w.calls + v.calls)
  }

  /** The tracker as the postamble begins. */
  function PostambleStart(t: Tracker): Tracker {
    t.(group := "Postamble", groupNum := t.groupNum + 1, mysteryNum := 0, mystery := "")
  }

  /** What `Rosary.ForEachFile` does: its calls, ending with the empty one. */
  function RosaryWalk(r: Rosary, idirs: seq<string>, odir: string, outputFilename: string, format: string,
                      o: OptionProvider, host: Host): Walk
    requires RosaryWalkable(r, o)
  {
    var w1 := PrayersWalk(r.preamble, o, InitialTracker(idirs, odir, outputFilename, format), host);
    var w2 := DecadesWalk(r.decades, o, w1.state, host);
    var w3 := PrayersWalk(r.postamble, o, PostambleStart(w2.state), host);
    Walk(w3.state, w1.calls + w2.calls + w3.calls + [Call("", None, None)])
  }

  /** The mystery loop of `Decade.ForEachFile`: the ordinal word, then the mystery. */
  method WalkMysteries(ms: seq<Mystery>, o: OptionProvider, s: StateTracker, host: Host) returns (calls: seq<Call>)
    requires forall j | 0 <= j < |ms| :: Walkable(ms[j].prayers, o)
    modifies s
    ensures var w := MysteriesWalk(ms, o, old(s.Snapshot()), host);
            s.Snapshot() == w.state && calls == w.calls
  {
    ghost var t0 := s.Snapshot();
    calls := [];
    var i := 1;
    var k := 0;
    while k < |ms|
      invariant 0 <= k <= |ms| && i == k + 1
      invariant MysteriesWalk(ms[..k], o, t0, host) == Walk(s.Snapshot(), calls)
    {
      ghost var before := s.Snapshot();
      s.SetDecadeNumWord(i);
      ghost var named := s.Snapshot();
      var c := ms[k].ForEachFile(o, s, host);
      assert Walk(s.Snapshot(), c) == MysteryWalk(ms[k], o, named, host);
      calls := calls + c;
      assert ms[..k + 1][..k] == ms[..k];
      assert MysteriesWalk(ms[..k + 1], o, t0, host) ==
             Walk(MysteryWalk(ms[k], o, before.(decadeNumWord := NumWord(k + 1)), host).state, calls);
      i := i + 1;
      k := k + 1;
    }
    assert ms[..k] == ms;
  }

  /** The postamble part of `Rosary.ForEachFile`: one more group, named
      "Postamble", with no mystery; then its prayers. */
  method WalkPostamble(ps: seq<Option<Prayer>>, o: OptionProvider, s: StateTracker, host: Host) returns (calls: seq<Call>)
    requires Walkable(ps, o)
    modifies s
    ensures var w := PrayersWalk(ps, o, PostambleStart(old(s.Snapshot())), host);
            s.Snapshot() == w.state && calls == w.calls
  {
    s.group := "Postamble";
    s.groupNum := s.groupNum + 1;
    s.mysteryNum := 0;
    s.mystery := "";
    assert s.Snapshot() == PostambleStart(old(s.Snapshot()));
    calls := WalkPrayers(ps, o, s, host);
  }

  /** The start of `Decade.ForEachFile`: the next group, the first ordinal
      word, and the first mystery (none when the decade has no mysteries). */
  method EnterDecade(d: Decade, s: StateTracker)
    modifies s
    ensures s.Snapshot() == DecadeStart(d, old(s.Snapshot()))
  {
    s.groupNum := s.groupNum + 1;
    s.group := d.name;
    s.hailMaryNum := 0;
    s.SetDecadeNumWord(1);
    if |d.mysteries| > 0 {
      NameMystery(s, d.mysteries[0].num, d.mysteries[0].name);
    } else {
      ClearMystery(s);
    }
  }

  /** The three mystery fields as `Decade.ForEachFile` and `Mystery.ForEachFile`
      set them: number, name, and the name followed by " Mystery". */
  method NameMystery(s: StateTracker, num: int, name: string)
    modifies s
    ensures s.Snapshot() == old(s.Snapshot()).(mysteryNum := num, mystery := name, mysteryPhrase := name + " Mystery")
  {
    s.mysteryNum := num;
    s.mystery := name;
    s.mysteryPhrase := s.mystery + " Mystery";
  }

  /** The three mystery fields cleared, as `Decade.ForEachFile` leaves them. */
  method ClearMystery(s: StateTracker)
    modifies s
    ensures s.Snapshot() == old(s.Snapshot()).(mysteryNum := 0, mystery := "", mysteryPhrase := "")
  {
    s.mysteryNum := 0;
    s.mystery := "";
    s.mysteryPhrase := "";
  }

  /** One more decade of the loop. */
  lemma DecadesWalkStep(ds: seq<Decade>, k: nat, o: OptionProvider, t: Tracker, host: Host)
    requires k < |ds| && forall i | 0 <= i < |ds| :: DecadeWalkable(ds[i], o)
    ensures var w := DecadesWalk(ds[..k], o, t, host);
            var v := DecadeWalk(ds[k], o, w.state, host);
            DecadesWalk(ds[..k + 1], o, t, host) == Walk(v.state, w.calls + v.calls)
  {
    assert ds[..k + 1][..k] == ds[..k];
  }

  /** The decade loop of `Rosary.ForEachFile`. */
  method WalkDecades(ds: seq<Decade>, o: OptionProvider, s: StateTracker, host: Host) returns (calls: seq<Call>)
    requires forall i | 0 <= i < |ds| :: DecadeWalkable(ds[i], o)
    modifies s
    ensures var w := DecadesWalk(ds, o, old(s.Snapshot()), host);
            s.Snapshot() == w.state && calls == w.calls
  {
    ghost var t0 := s.Snapshot();
    calls := [];
    var k := 0;
    while k < |ds|
      invariant 0 <= k <= |ds|
      invariant DecadesWalk(ds[..k], o, t0, host) == Walk(s.Snapshot(), calls)
    {
      ghost var before := s.Snapshot();
      var c := ds[k].ForEachFile(o, s, host);
      assert Walk(s.Snapshot(), c) == DecadeWalk(ds[k], o, before, host);
      calls := calls + c;
      DecadesWalkStep(ds, k, o, t0, host);
      k := k + 1;
    }
    assert ds[..k] == ds;
  }


  // ---- What the walks promise ----

  /** The fields no walk changes: the run's settings and the output-file bookkeeping. */
  predicate SameRun(a: Tracker, b: Tracker) {
    a.inputDirs == b.inputDirs && a.outputDir == b.outputDir && a.format == b.format &&
    a.prayerName == b.prayerName && a.outputFileNum == b.outputFileNum &&
    a.outputFilenameTemplate == b.outputFilenameTemplate && a.lastFilename == b.lastFilename
  }

  /** `u` is in the same group as `t`. */
  predicate SameGroup(t: Tracker, u: Tracker) {
    SameRun(t, u) && u.group == t.group && u.groupNum == t.groupNum
  }

  /** `u` names the j-th (0-based) of the mysteries `ms` with its ordinal word. */
  predicate AtMystery(ms: seq<Mystery>, j: int, u: Tracker)
    requires 0 <= j < |ms|
  {
    u.decadeNumWord == NumWord(j + 1) && u.mysteryNum == ms[j].num && u.mystery == ms[j].name &&
    u.mysteryPhrase == ms[j].name + " Mystery"
  }

  /** `u` is a tracker of mystery `m` walked from `t`: same group and
      ordinal word, the mystery named. */
  predicate InMystery(t: Tracker, m: Mystery, u: Tracker) {
    SameGroup(t, u) && u.decadeNumWord == t.decadeNumWord &&
    u.mysteryNum == m.num && u.mystery == m.name && u.mysteryPhrase == m.name + " Mystery"
  }

  /** `u` is a tracker of the mystery loop over `ms` walked from `t`: same
      group, and one of the mysteries named with its own ordinal word. */
  predicate InMysteries(t: Tracker, ms: seq<Mystery>, u: Tracker) {
    SameGroup(t, u) && exists j | 0 <= j < |ms| :: AtMystery(ms, j, u)
  }

  /** Every call was made inside mystery `m` walked from `t`. */
  predicate CallsInMystery(t: Tracker, m: Mystery, calls: seq<Call>) {
    forall i | 0 <= i < |calls| :: calls[i].state.Some? && InMystery(t, m, calls[i].state.value)
  }

  /** `Mystery.ForEachFile` names the mystery (number, name, and name plus
      " Mystery") for every call and leaves it named; the HailMaryNum of each
      call counts the Hail Marys of this mystery only, and is 0 again at the
      end; the group and the ordinal word do not move. */
  lemma {:induction false} MysteryWalkFacts(m: Mystery, o: OptionProvider, t: Tracker, host: Host)
    requires Walkable(m.prayers, o)
    ensures var w := MysteryWalk(m, o, t, host);
      InMystery(t, m, w.state) && w.state.hailMaryNum == 0 &&
      CallsInMystery(t, m, w.calls) && HailMaryCounted(w.calls, 0)
  {
    var t1 := t.(mysteryNum := m.num, mystery := m.name, mysteryPhrase := m.name + " Mystery", hailMaryNum := 0);
    PrayersWalkPlace(m.prayers, o, t1, host);
    PrayersWalkHailMarys(m.prayers, o, t1, host);
    var w := PrayersWalk(m.prayers, o, t1, host);
    NamedMysteryCalls(t, m, t1, w.calls);
  }

  lemma NamedMysteryCalls(t: Tracker, m: Mystery, t1: Tracker, calls: seq<Call>)
    requires t1 == t.(mysteryNum := m.num, mystery := m.name, mysteryPhrase := m.name + " Mystery", hailMaryNum := 0)
    requires CallsAt(t1, calls)
    ensures CallsInMystery(t, m, calls)
  {
  }

  /** The mystery loop of a decade stays in its group. */
  lemma {:induction false} MysteriesWalkState(ms: seq<Mystery>, o: OptionProvider, t: Tracker, host: Host)
    requires forall j | 0 <= j < |ms| :: Walkable(ms[j].prayers, o)
    ensures SameGroup(t, MysteriesWalk(ms, o, t, host).state)
    decreases |ms|
  {
    if |ms| > 0 {
      var n := |ms| - 1;
      MysteriesWalkState(ms[..n], o, t, host);
      var w := MysteriesWalk(ms[..n], o, t, host);
      var tn := w.state.(decadeNumWord := NumWord(n + 1));
      MysteryWalkFacts(ms[n], o, tn, host);
      var v := MysteryWalk(ms[n], o, tn, host);
      assert ms[..|ms| - 1] == ms[..n];
      assert MysteriesWalk(ms, o, t, host).state == v.state;
      SameGroupStep(t, tn, ms[n], v.state);
    }
  }

  lemma SameGroupStep(t: Tracker, tn: Tracker, m: Mystery, u: Tracker)
    requires SameGroup(t, tn) && InMystery(tn, m, u)
    ensures SameGroup(t, u)
  {
  }

  /** The mystery loop of a decade walks the j-th mystery with the ordinal
      word NumWord(j + 1): every call stays in the group and names one of
      the mysteries together with its own ordinal word. */
  lemma {:induction false} MysteriesWalkCalls(ms: seq<Mystery>, o: OptionProvider, t: Tracker, host: Host)
    requires forall j | 0 <= j < |ms| :: Walkable(ms[j].prayers, o)
    ensures CallsInMysteries(t, ms, MysteriesWalk(ms, o, t, host).calls)
    decreases |ms|
  {
    if |ms| > 0 {
      var n := |ms| - 1;
      MysteriesWalkCalls(ms[..n], o, t, host);
      MysteriesWalkState(ms[..n], o, t, host);
      var w := MysteriesWalk(ms[..n], o, t, host);
      var tn := w.state.(decadeNumWord := NumWord(n + 1));
      MysteryWalkFacts(ms[n], o, tn, host);
      var v := MysteryWalk(ms[n], o, tn, host);
      assert ms[..|ms| - 1] == ms[..n];
      assert MysteriesWalk(ms, o, t, host).calls == w.calls + v.calls;
      assert SameGroup(t, tn);
      CallsInMysteriesAppend(t, ms, n, tn, w.calls, v.calls);
    }
  }

  /** The calls of the first mysteries followed by those of the last one are
      calls of the whole mystery loop. */
  lemma CallsInMysteriesAppend(t: Tracker, ms: seq<Mystery>, n: nat, tn: Tracker, a: seq<Call>, b: seq<Call>)
    requires n == |ms| - 1 && SameGroup(t, tn) && tn.decadeNumWord == NumWord(n + 1)
    requires CallsInMysteries(t, ms[..n], a)
    requires CallsInMystery(tn, ms[n], b)
    ensures CallsInMysteries(t, ms, a + b)
  {
    forall i | 0 <= i < |a + b|
      ensures CallInMysteries(t, ms, (a + b)[i])
    {
      if i < |a| {
        assert (a + b)[i] == a[i];
        InMysteriesPrefix(t, ms, n, a[i].state.value);
      } else {
        assert (a + b)[i] == b[i - |a|];
        InMysteriesLast(t, ms, tn, b[i - |a|].state.value);
      }
    }
  }

  /** A call made inside the mystery loop over `ms` walked from `t`. */
  predicate CallInMysteries(t: Tracker, ms: seq<Mystery>, c: Call) {
    c.state.Some? && InMysteries(t, ms, c.state.value)
  }

  /** Every call was made inside the mystery loop over `ms` walked from `t`. */
  predicate CallsInMysteries(t: Tracker, ms: seq<Mystery>, calls: seq<Call>) {
    forall i | 0 <= i < |calls| :: CallInMysteries(t, ms, calls[i])
  }

  lemma InMysteriesLast(t: Tracker, ms: seq<Mystery>, tn: Tracker, u: Tracker)
    requires |ms| > 0 && SameGroup(t, tn) && tn.decadeNumWord == NumWord(|ms|)
    requires InMystery(tn, ms[|ms| - 1], u)
    ensures InMysteries(t, ms, u)
  {
    assert AtMystery(ms, |ms| - 1, u);
  }

  lemma InMysteriesPrefix(t: Tracker, ms: seq<Mystery>, n: nat, u: Tracker)
    requires n <= |ms| && InMysteries(t, ms[..n], u)
    ensures InMysteries(t, ms, u)
  {
    var j :| 0 <= j < n && AtMystery(ms[..n], j, u);
    assert ms[..n][j] == ms[j];
    assert AtMystery(ms, j, u);
  }

  /** The mystery fields as a decade leaves them, and as the preamble has them. */
  predicate Cleared(u: Tracker) {
    u.mysteryNum == 0 && u.mystery == "" && u.mysteryPhrase == "" && u.decadeNumWord == ""
  }

  /** The mystery fields of a tracker inside decade `d`: with no mysteries,
      the first ordinal word and no mystery; otherwise one of the mysteries
      with its own ordinal word (the first one for the group prayers). */
  predicate NamedMystery(d: Decade, u: Tracker) {
    if |d.mysteries| == 0 then
      u.decadeNumWord == NumWord(1) && u.mysteryNum == 0 && u.mystery == "" && u.mysteryPhrase == ""
    else
      exists j | 0 <= j < |d.mysteries| :: AtMystery(d.mysteries, j, u)
  }

  /** `u` belongs to decade `d`, walked as group number `g` of the run of `t`. */
  predicate InDecade(t: Tracker, g: int, d: Decade, u: Tracker) {
    SameRun(t, u) && u.groupNum == g && u.group == d.name && NamedMystery(d, u)
  }

  predicate CallsInDecade(t: Tracker, g: int, d: Decade, calls: seq<Call>) {
    forall i | 0 <= i < |calls| :: calls[i].state.Some? && InDecade(t, g, d, calls[i].state.value)
  }

  /** The tracker after decade `d` walked from `t`. */
  predicate DecadeEnded(t: Tracker, d: Decade, u: Tracker) {
    SameRun(t, u) && u.groupNum == t.groupNum + 1 && u.group == d.name && Cleared(u)
  }

  /** `Decade.ForEachFile` moves to the next group, named after the decade,
      and leaves MysteryNum 0 and Mystery, MysteryPhrase and DecadeNumWord empty. */
  lemma {:induction false} DecadeWalkState(d: Decade, o: OptionProvider, t: Tracker, host: Host)
    requires DecadeWalkable(d, o)
    ensures DecadeEnded(t, d, DecadeWalk(d, o, t, host).state)
  {
    var t1 := DecadeStart(d, t);
    PrayersWalkPlace(d.group, o, t1, host);
    var w1 := PrayersWalk(d.group, o, t1, host);
    MysteriesWalkState(d.mysteries, o, w1.state, host);
    var w2 := MysteriesWalk(d.mysteries, o, w1.state, host);
    assert DecadeWalk(d, o, t, host).state ==
           w2.state.(mysteryNum := 0, mystery := "", mysteryPhrase := "", decadeNumWord := NumWord(0));
    DecadeEndStep(t, d, w1.state, w2.state);
  }

  lemma DecadeEndStep(t: Tracker, d: Decade, s1: Tracker, s2: Tracker)
    requires SamePlace(DecadeStart(d, t), s1) && SameGroup(s1, s2)
    ensures DecadeEnded(t, d, s2.(mysteryNum := 0, mystery := "", mysteryPhrase := "", decadeNumWord := NumWord(0)))
  {
  }

  /** Every call of `Decade.ForEachFile` is made in the decade's group,
      numbered one past the group before it, with a mystery of the decade
      named by its own ordinal word. */
  lemma {:induction false} DecadeWalkCalls(d: Decade, o: OptionProvider, t: Tracker, host: Host)
    requires DecadeWalkable(d, o)
    ensures CallsInDecade(t, t.groupNum + 1, d, DecadeWalk(d, o, t, host).calls)
  {
    var t1 := DecadeStart(d, t);
    PrayersWalkPlace(d.group, o, t1, host);
    var w1 := PrayersWalk(d.group, o, t1, host);
    MysteriesWalkCalls(d.mysteries, o, w1.state, host);
    var w2 := MysteriesWalk(d.mysteries, o, w1.state, host);
    assert DecadeWalk(d, o, t, host).calls == w1.calls + w2.calls;
    GroupCallsInDecade(t, d, w1.calls);
    MysteryCallsInDecade(t, d, w1.state, w2.calls);
    CallsInDecadeAppend(t, t.groupNum + 1, d, w1.calls, w2.calls);
  }

  /** The group prayers are said with the first mystery named. */
  lemma GroupCallsInDecade(t: Tracker, d: Decade, calls: seq<Call>)
    requires CallsAt(DecadeStart(d, t), calls)
    ensures CallsInDecade(t, t.groupNum + 1, d, calls)
  {
    forall i | 0 <= i < |calls|
      ensures calls[i].state.Some? && InDecade(t, t.groupNum + 1, d, calls[i].state.value)
    {
      var u := calls[i].state.value;
      assert SamePlace(DecadeStart(d, t), u);
      if |d.mysteries| > 0 {
        assert AtMystery(d.mysteries, 0, u);
      }
    }
  }

  lemma MysteryCallsInDecade(t: Tracker, d: Decade, s1: Tracker, calls: seq<Call>)
    requires SamePlace(DecadeStart(d, t), s1) && CallsInMysteries(s1, d.mysteries, calls)
    ensures CallsInDecade(t, t.groupNum + 1, d, calls)
  {
    if |d.mysteries| == 0 {
      assert |calls| > 0 ==> CallInMysteries(s1, d.mysteries, calls[0]);
      assert |calls| == 0;
    } else {
      forall i | 0 <= i < |calls|
        ensures calls[i].state.Some? && InDecade(t, t.groupNum + 1, d, calls[i].state.value)
      {
        assert CallInMysteries(s1, d.mysteries, calls[i]);
      }
    }
  }

  lemma CallsInDecadeAppend(t: Tracker, g: int, d: Decade, a: seq<Call>, b: seq<Call>)
    requires CallsInDecade(t, g, d, a) && CallsInDecade(t, g, d, b)
    ensures CallsInDecade(t, g, d, a + b)
  {
    forall i | 0 <= i < |a + b|
      ensures (a + b)[i].state.Some? && InDecade(t, g, d, (a + b)[i].state.value)
    {
      if i < |a| {
        assert (a + b)[i] == a[i];
      } else {
        assert (a + b)[i] == b[i - |a|];
      }
    }
  }

  /** `u` belongs to one of the decades `ds` walked from `t`: the i-th
      (0-based) of them is walked as group number `t.groupNum + i + 1`. */
  predicate InDecades(t: Tracker, ds: seq<Decade>, u: Tracker) {
    exists i | 0 <= i < |ds| :: InDecade(t, t.groupNum + i + 1, ds[i], u)
  }

  predicate CallsInDecades(t: Tracker, ds: seq<Decade>, calls: seq<Call>) {
    forall i | 0 <= i < |calls| :: calls[i].state.Some? && InDecades(t, ds, calls[i].state.value)
  }

  /** The decade loop raises GroupNum by one per decade, and leaves the
      mystery fields cleared (as they were, when there are no decades). */
  lemma {:induction false} DecadesWalkState(ds: seq<Decade>, o: OptionProvider, t: Tracker, host: Host)
    requires forall i | 0 <= i < |ds| :: DecadeWalkable(ds[i], o)
    ensures var u := DecadesWalk(ds, o, t, host).state;
      SameRun(t, u) && u.groupNum == t.groupNum + |ds| && (|ds| > 0 || Cleared(t) ==> Cleared(u))
    decreases |ds|
  {
    if |ds| > 0 {
      var n := |ds| - 1;
      var w := DecadesWalk(ds[..n], o, t, host).state;
      assert SameRun(t, w) && w.groupNum == t.groupNum + n by {
        DecadesWalkState(ds[..n], o, t, host);
      }
      var v := DecadeWalk(ds[n], o, w, host).state;
      assert DecadeEnded(w, ds[n], v) by {
        DecadeWalkState(ds[n], o, w, host);
      }
      assert DecadesWalk(ds, o, t, host).state == v by {
        DecadesWalkLast(ds, o, t, host);
      }
      SameRunTrans(t, w, v);
    }
  }

  lemma SameRunTrans(a: Tracker, b: Tracker, c: Tracker)
    requires SameRun(a, b) && SameRun(b, c)
    ensures SameRun(a, c)
  {
  }

  /** The last decade of the loop is walked from where the others left off. */
  lemma DecadesWalkLast(ds: seq<Decade>, o: OptionProvider, t: Tracker, host: Host)
    requires |ds| > 0 && forall i | 0 <= i < |ds| :: DecadeWalkable(ds[i], o)
    ensures var w := DecadesWalk(ds[..|ds| - 1], o, t, host);
            DecadesWalk(ds, o, t, host).state == DecadeWalk(ds[|ds| - 1], o, w.state, host).state
  {
  }

  /** Every call of the decade loop is made inside one of the decades, with
      that decade's group name and number. */
  lemma {:induction false} DecadesWalkCalls(ds: seq<Decade>, o: OptionProvider, t: Tracker, host: Host)
    requires forall i | 0 <= i < |ds| :: DecadeWalkable(ds[i], o)
    ensures CallsInDecades(t, ds, DecadesWalk(ds, o, t, host).calls)
    decreases |ds|
  {
    if |ds| > 0 {
      var n := |ds| - 1;
      DecadesWalkCalls(ds[..n], o, t, host);
      DecadesWalkState(ds[..n], o, t, host);
      var w := DecadesWalk(ds[..n], o, t, host);
      DecadeWalkCalls(ds[n], o, w.state, host);
      var v := DecadeWalk(ds[n], o, w.state, host);
      assert ds[..|ds| - 1] == ds[..n];
      assert DecadesWalk(ds, o, t, host).calls == w.calls + v.calls;
      CallsInDecadesAppend(t, ds, n, w.state, w.calls, v.calls);
    }
  }

  lemma CallsInDecadesAppend(t: Tracker, ds: seq<Decade>, n: nat, s: Tracker, a: seq<Call>, b: seq<Call>)
    requires n == |ds| - 1 && SameRun(t, s) && s.groupNum == t.groupNum + n
    requires CallsInDecades(t, ds[..n], a) && CallsInDecade(s, s.groupNum + 1, ds[n], b)
    ensures CallsInDecades(t, ds, a + b)
  {
    forall i | 0 <= i < |a + b|
      ensures (a + b)[i].state.Some? && InDecades(t, ds, (a + b)[i].state.value)
    {
      if i < |a| {
        assert (a + b)[i] == a[i];
        var u := a[i].state.value;
        assert InDecades(t, ds[..n], u);
        var k :| 0 <= k < n && InDecade(t, t.groupNum + k + 1, ds[..n][k], u);
        assert ds[..n][k] == ds[k];
        assert InDecade(t, t.groupNum + k + 1, ds[k], u);
      } else {
        assert (a + b)[i] == b[i - |a|];
        assert InDecade(t, t.groupNum + n + 1, ds[n], b[i - |a|].state.value);
      }
    }
  }

  // ---- Walking and flattening agree ----

  /** A mystery walk hands its callback the visits of its prayers, and
      numbers its files consecutively. */
  lemma {:induction false} MysteryWalkCounts(m: Mystery, o: OptionProvider, t: Tracker, host: Host)
    requires Walkable(m.prayers, o)
    ensures var w := MysteryWalk(m, o, t, host);
      PrayersOf(w.calls) == Visits(m.GetPrayers(), o) &&
      Numbered(w.calls, t.inputFileNum) && w.state.inputFileNum == t.inputFileNum + |w.calls|
  {
    var t1 := t.(mysteryNum := m.num, mystery := m.name, mysteryPhrase := m.name + " Mystery", hailMaryNum := 0);
    PrayersWalkVisits(m.prayers, o, t1, host);
    PrayersWalkNumbered(m.prayers, o, t1, host);
  }

  lemma {:induction false} MysteriesWalkCounts(ms: seq<Mystery>, o: OptionProvider, t: Tracker, host: Host)
    requires forall j | 0 <= j < |ms| :: Walkable(ms[j].prayers, o)
    ensures Walkable(MysteriesPrayers(ms), o)
    ensures var w := MysteriesWalk(ms, o, t, host);
      PrayersOf(w.calls) == Visits(MysteriesPrayers(ms), o) &&
      Numbered(w.calls, t.inputFileNum) && w.state.inputFileNum == t.inputFileNum + |w.calls|
    decreases |ms|
  {
    if |ms| > 0 {
      var n := |ms| - 1;
      MysteriesWalkCounts(ms[..n], o, t, host);
      var w := MysteriesWalk(ms[..n], o, t, host);
      var tn := w.state.(decadeNumWord := NumWord(n + 1));
      MysteryWalkCounts(ms[n], o, tn, host);
      var v := MysteryWalk(ms[n], o, tn, host);
      assert ms[..|ms| - 1] == ms[..n];
      assert MysteriesWalk(ms, o, t, host) == Walk(v.state, w.calls + v.calls);
      assert MysteriesPrayers(ms) == MysteriesPrayers(ms[..n]) + ms[n].GetPrayers();
      VisitsConcat(MysteriesPrayers(ms[..n]), ms[n].GetPrayers(), o, w.calls, v.calls);
      NumberedAppend(w.calls, v.calls, t.inputFileNum);
    }
  }

  lemma {:induction false} DecadeWalkCounts(d: Decade, o: OptionProvider, t: Tracker, host: Host)
    requires DecadeWalkable(d, o)
    ensures Walkable(d.GetPrayers(), o)
    ensures var w := DecadeWalk(d, o, t, host);
      PrayersOf(w.calls) == Visits(d.GetPrayers(), o) &&
      Numbered(w.calls, t.inputFileNum) && w.state.inputFileNum == t.inputFileNum + |w.calls|
  {
    var t1 := DecadeStart(d, t);
    PrayersWalkVisits(d.group, o, t1, host);
    PrayersWalkNumbered(d.group, o, t1, host);
    var w1 := PrayersWalk(d.group, o, t1, host);
    MysteriesWalkCounts(d.mysteries, o, w1.state, host);
    var w2 := MysteriesWalk(d.mysteries, o, w1.state, host);
    assert DecadeWalk(d, o, t, host).calls == w1.calls + w2.calls;
    VisitsConcat(d.group, MysteriesPrayers(d.mysteries), o, w1.calls, w2.calls);
    NumberedAppend(w1.calls, w2.calls, t.inputFileNum);
  }

  lemma {:induction false} DecadesWalkCounts(ds: seq<Decade>, o: OptionProvider, t: Tracker, host: Host)
    requires forall i | 0 <= i < |ds| :: DecadeWalkable(ds[i], o)
    ensures Walkable(DecadesPrayers(ds), o)
    ensures var w := DecadesWalk(ds, o, t, host);
      PrayersOf(w.calls) == Visits(DecadesPrayers(ds), o) &&
      Numbered(w.calls, t.inputFileNum) && w.state.inputFileNum == t.inputFileNum + |w.calls|
    decreases |ds|
  {
    if |ds| > 0 {
      var n := |ds| - 1;
      DecadesWalkCounts(ds[..n], o, t, host);
      var w := DecadesWalk(ds[..n], o, t, host);
      DecadeWalkCounts(ds[n], o, w.state, host);
      var v := DecadeWalk(ds[n], o, w.state, host);
      assert ds[..|ds| - 1] == ds[..n];
      assert DecadesWalk(ds, o, t, host) == Walk(v.state, w.calls + v.calls);
      assert DecadesPrayers(ds) == DecadesPrayers(ds[..n]) + ds[n].GetPrayers();
      VisitsConcat(DecadesPrayers(ds[..n]), ds[n].GetPrayers(), o, w.calls, v.calls);
      NumberedAppend(w.calls, v.calls, t.inputFileNum);
    }
  }

  /** `Rosary.ForEachFile` hands its callback exactly the prayers of
      `Rosary.GetPrayers`, each once per chosen file, in order, and then the
      final empty call, which is the only call without a prayer; the files
      are numbered 1, 2, 3, ... by InputFileNum. */
  lemma {:induction false} RosaryWalkCounts(r: Rosary, idirs: seq<string>, odir: string, outputFilename: string,
                                            format: string, o: OptionProvider, host: Host)
    requires RosaryWalkable(r, o)
    ensures Walkable(r.GetPrayers(), o)
    ensures var calls := RosaryWalk(r, idirs, odir, outputFilename, format, o, host).calls;
      |calls| >= 1 && calls[|calls| - 1] == Call("", None, None) &&
      PrayersOf(calls) == Visits(r.GetPrayers(), o) + [None] &&
      (forall i | 0 <= i < |calls| - 1 :: calls[i].prayer.Some?) &&
      Numbered(calls[..|calls| - 1], 0)
  {
    var t0 := InitialTracker(idirs, odir, outputFilename, format);
    PrayersWalkVisits(r.preamble, o, t0, host);
    PrayersWalkNumbered(r.preamble, o, t0, host);
    var w1 := PrayersWalk(r.preamble, o, t0, host);
    DecadesWalkCounts(r.decades, o, w1.state, host);
    var w2 := DecadesWalk(r.decades, o, w1.state, host);
    var t3 := PostambleStart(w2.state);
    PrayersWalkVisits(r.postamble, o, t3, host);
    PrayersWalkNumbered(r.postamble, o, t3, host);
    var w3 := PrayersWalk(r.postamble, o, t3, host);
    var body := w1.calls + w2.calls + w3.calls;
    assert RosaryWalk(r, idirs, odir, outputFilename, format, o, host).calls == body + [Call("", None, None)];
    VisitsConcat(r.preamble, DecadesPrayers(r.decades), o, w1.calls, w2.calls);
    VisitsConcat(r.preamble + DecadesPrayers(r.decades), r.postamble, o, w1.calls + w2.calls, w3.calls);
    NumberedAppend(w1.calls, w2.calls, 0);
    NumberedAppend(w1.calls + w2.calls, w3.calls, 0);
    FinalCall(body, Visits(r.GetPrayers(), o), r.GetPrayers(), o);
  }

  /** The calls of a walk followed by the final empty one. */
  lemma FinalCall(body: seq<Call>, visits: seq<Option<Prayer>>, ps: seq<Option<Prayer>>, o: OptionProvider)
    requires Walkable(ps, o) && visits == Visits(ps, o) && PrayersOf(body) == visits
    ensures var calls := body + [Call("", None, None)];
      calls[|calls| - 1] == Call("", None, None) && calls[..|calls| - 1] == body &&
      PrayersOf(calls) == visits + [None] &&
      forall i | 0 <= i < |calls| - 1 :: calls[i].prayer.Some?
  {
    var calls := body + [Call("", None, None)];
    VisitsPresent(ps, o);
    PrayersOfAppend(body, [Call("", None, None)]);
    assert calls[..|calls| - 1] == body;
    forall i | 0 <= i < |calls| - 1
      ensures calls[i].prayer.Some?
    {
      assert calls[i] == body[i] && PrayersOf(body)[i] == visits[i];
    }
  }

  // ---- The phases of a rosary walk ----

  /** Calls of the preamble: group "Preamble", GroupNum 1, no mystery. */
  predicate CallsInPreamble(t0: Tracker, calls: seq<Call>) {
    forall i | 0 <= i < |calls| ::
      calls[i].state.Some? && SameRun(t0, calls[i].state.value) &&
      calls[i].state.value.group == "Preamble" && calls[i].state.value.groupNum == 1 &&
      Cleared(calls[i].state.value)
  }

  /** Calls of the postamble after `k` decades: group "Postamble", GroupNum
      k + 2, no mystery. */
  predicate CallsInPostamble(t0: Tracker, k: int, calls: seq<Call>) {
    forall i | 0 <= i < |calls| ::
      calls[i].state.Some? && SameRun(t0, calls[i].state.value) &&
      calls[i].state.value.group == "Postamble" && calls[i].state.value.groupNum == k + 2 &&
      Cleared(calls[i].state.value)
  }

  /** `Rosary.ForEachFile` walks the preamble in group "Preamble" number 1,
      the i-th decade (0-based) as group number i + 2, and the postamble as
      group "Postamble" number len(Decades) + 2 with MysteryNum 0; outside
      the decades no mystery is named; then the final empty call. */
  lemma {:induction false} RosaryWalkPhases(r: Rosary, idirs: seq<string>, odir: string, outputFilename: string,
                                            format: string, o: OptionProvider, host: Host)
    requires RosaryWalkable(r, o)
    ensures var t0 := InitialTracker(idirs, odir, outputFilename, format);
      var calls := RosaryWalk(r, idirs, odir, outputFilename, format, o, host).calls;
      var n1 := |Visits(r.preamble, o)|;
      var n3 := |Visits(r.postamble, o)|;
      RosaryPhases(t0, r.decades, n1, n3, calls)
  {
    var t0 := InitialTracker(idirs, odir, outputFilename, format);
    PrayersWalkPlace(r.preamble, o, t0, host);
    PrayersWalkVisits(r.preamble, o, t0, host);
    var w1 := PrayersWalk(r.preamble, o, t0, host);
    DecadesWalkState(r.decades, o, w1.state, host);
    DecadesWalkCalls(r.decades, o, w1.state, host);
    var w2 := DecadesWalk(r.decades, o, w1.state, host);
    var t3 := PostambleStart(w2.state);
    PrayersWalkPlace(r.postamble, o, t3, host);
    PrayersWalkVisits(r.postamble, o, t3, host);
    var w3 := PrayersWalk(r.postamble, o, t3, host);
    assert RosaryWalk(r, idirs, odir, outputFilename, format, o, host).calls ==
           w1.calls + w2.calls + w3.calls + [Call("", None, None)];
    assert |w1.calls| == |PrayersOf(w1.calls)| == |Visits(r.preamble, o)|;
    assert |w3.calls| == |PrayersOf(w3.calls)| == |Visits(r.postamble, o)|;
    PreambleCalls(t0, w1.calls);
    DecadesCallsFromStart(t0, w1.state, r.decades, w2.calls);
    PostambleCalls(t0, w2.state, |r.decades|, w3.calls);
    Phases(t0, r.decades, w1.calls, w2.calls, w3.calls);
  }

  lemma PreambleCalls(t0: Tracker, calls: seq<Call>)
    requires t0.group == "Preamble" && t0.groupNum == 1 && Cleared(t0)
    requires CallsAt(t0, calls)
    ensures CallsInPreamble(t0, calls)
  {
  }

  lemma DecadesCallsFromStart(t0: Tracker, s: Tracker, ds: seq<Decade>, calls: seq<Call>)
    requires SamePlace(t0, s) && s.groupNum == t0.groupNum && CallsInDecades(s, ds, calls)
    ensures CallsInDecades(t0, ds, calls)
  {
    forall i | 0 <= i < |calls|
      ensures calls[i].state.Some? && InDecades(t0, ds, calls[i].state.value)
    {
      var u := calls[i].state.value;
      assert InDecades(s, ds, u);
      var k :| 0 <= k < |ds| && InDecade(s, s.groupNum + k + 1, ds[k], u);
      assert InDecade(t0, t0.groupNum + k + 1, ds[k], u);
    }
  }

  lemma PostambleCalls(t0: Tracker, s: Tracker, k: int, calls: seq<Call>)
    requires SameRun(t0, s) && s.groupNum == k + 1 && Cleared(s)
    requires CallsAt(PostambleStart(s), calls)
    ensures CallsInPostamble(t0, k, calls)
  {
  }

  /** The calls of a rosary walk: `n1` in the preamble, then those of the
      decades, `n3` in the postamble, and the final empty call. */
  predicate RosaryPhases(t0: Tracker, ds: seq<Decade>, n1: int, n3: int, calls: seq<Call>) {
    var m := |calls| - 1;
    0 <= n1 <= m - n3 && n3 >= 0 && calls[m] == Call("", None, None) &&
    CallsInPreamble(t0, calls[..n1]) &&
    CallsInDecades(t0, ds, calls[n1..m - n3]) &&
    CallsInPostamble(t0, |ds|, calls[m - n3..m])
  }

  /** The slices of the four parts of a rosary walk. */
  lemma Phases(t0: Tracker, ds: seq<Decade>, a: seq<Call>, b: seq<Call>, c: seq<Call>)
    requires CallsInPreamble(t0, a) && CallsInDecades(t0, ds, b) && CallsInPostamble(t0, |ds|, c)
    ensures RosaryPhases(t0, ds, |a|, |c|, a + b + c + [Call("", None, None)])
  {
    var calls := a + b + c + [Call("", None, None)];
    assert calls[..|a|] == a;
    assert calls[|a|..|a| + |b|] == b;
    assert calls[|a| + |b|..|a| + |b| + |c|] == c;
  }
}
