/** prayer.go: a prayer, its alternative recordings, the walk over its files,
    and the two callbacks that consume a walk (`GetBadFilenamesFunc`, `GetFiles`). */
module Prayers {
  import opened Basics
  import opened Strings
  import opened PrayerOptions
  import opened Tracking

  /** A prayer; `options` are alternative recordings, each a prayer itself. */
  datatype Prayer = Prayer(
    key: string,
    name: string,
    desc: string,
    text: string,
    filename: string,
    filenames: seq<string>,
    options: seq<Prayer>)
  {
    /** `AddOption` appends one alternative at the end; nothing else changes. */
    function AddOption(option: Prayer): (q: Prayer)
      ensures |q.options| == |options| + 1 && q.options[..|options|] == options && q.options[|options|] == option
      ensures q.(options := options) == this
    {
      this.(options := options + [option])
    }

    /** `AddFilename` appends one file at the end; nothing else changes. */
    function AddFilename(file: string): (q: Prayer)
      ensures |q.filenames| == |filenames| + 1 && q.filenames[..|filenames|] == filenames && q.filenames[|filenames|] == file
      ensures q.(filenames := filenames) == this
    {
      this.(filenames := filenames + [file])
    }

    /** `Prayer.ForEachFile`: count the prayer, then for each chosen file count
        it (and count a Hail Mary), record the prayer key and hand the file
        name, applied as a template, to the callback. */
    method ForEachFile(o: OptionProvider, s: StateTracker, host: Host) returns (calls: seq<Call>)
      requires ChoicesInRange(this, o)
      modifies s
      ensures var w := PrayerWalk(this, o, old(s.Snapshot()), host);
              s.Snapshot() == w.state && calls == w.calls
    {
      ghost var t := s.Snapshot();
      s.prayerNum := s.prayerNum + 1;
      var r := GetChosenFilenames(this, o);
      ghost var t0 := s.Snapshot();
      assert t0 == t.(prayerNum := t.prayerNum + 1);
      calls := [];
      var k := 0;
      while k < |r|
        invariant 0 <= k <= |r|
        invariant VisitFiles(this, r[..k], t0, host) == Walk(s.Snapshot(), calls)
      {
        CountFile(this, s);
        var ofile := s.Snapshot().Apply(r[k], host);
        calls := calls + [Call(ofile, Some(this), Some(s.Snapshot()))];
        assert r[..k + 1][..k] == r[..k];
        k := k + 1;
      }
      assert r[..k] == r;
    }
  }

  /** The choices the option table makes along the path through `p` all
      point at an existing alternative or past the end: a choice below 1
      would index out of range. */
  predicate ChoicesInRange(p: Prayer, o: OptionProvider)
    decreases p
  {
    |p.options| > 0 ==>
      var i := o(p.key);
      1 <= i && (i <= |p.options| ==> ChoicesInRange(p.options[i - 1], o))
  }

  /** `GetChosenFilenames`: follow the chosen alternative; a choice past the
      last alternative, or a prayer without alternatives or files, gives its
      own file name; a leaf with files gives its files. Never empty. */
  function GetChosenFilenames(p: Prayer, o: OptionProvider): (files: seq<string>)
    requires ChoicesInRange(p, o)
    ensures |files| >= 1
    decreases p
  {
    var i := o(p.key);
    if |p.options| > 0 then
      if i <= |p.options| then GetChosenFilenames(p.options[i - 1], o) else [p.filename]
    else if |p.filenames| > 0 then p.filenames
    else [p.filename]
  }

  /** The cases of `GetChosenFilenames`. */
  lemma {:induction false} ChosenCases(p: Prayer, o: OptionProvider)
    requires ChoicesInRange(p, o)
    ensures |p.options| == 0 && |p.filenames| > 0 ==> GetChosenFilenames(p, o) == p.filenames
    ensures |p.options| == 0 && |p.filenames| == 0 ==> GetChosenFilenames(p, o) == [p.filename]
    ensures |p.options| > 0 && o(p.key) <= |p.options| ==>
              GetChosenFilenames(p, o) == GetChosenFilenames(p.options[o(p.key) - 1], o)
    ensures |p.options| > 0 && o(p.key) > |p.options| ==> GetChosenFilenames(p, o) == [p.filename]
  {
  }

  /** `f` is a file name somewhere in the option tree of `p`. */
  predicate InTree(f: string, p: Prayer)
    decreases p
  {
    f == p.filename || f in p.filenames || exists i | 0 <= i < |p.options| :: InTree(f, p.options[i])
  }

  /** Every chosen file is a file of the prayer's own tree. */
  lemma {:induction false} ChosenInTree(p: Prayer, o: OptionProvider)
    requires ChoicesInRange(p, o)
    ensures forall f | f in GetChosenFilenames(p, o) :: InTree(f, p)
    decreases p
  {
    var i := o(p.key);
    if |p.options| > 0 && i <= |p.options| {
      ChosenInTree(p.options[i - 1], o);
      forall f | f in GetChosenFilenames(p, o)
        ensures InTree(f, p)
      {
        assert InTree(f, p.options[i - 1]);
      }
    }
  }

  /** One invocation of a walk's callback: the file name (template applied),
      the prayer, and the tracker's fields at that moment. The final call of
      a rosary walk has no prayer and no tracker (Go's nil, nil). */
  datatype Call = Call(filename: string, prayer: Option<Prayer>, state: Option<Tracker>)

  /** The tracker after a walk, and the calls it made, in order. */
  datatype Walk = Walk(state: Tracker, calls: seq<Call>)

  /** The tracker once one more file of `p` is counted: InputFileNum up by
      one, HailMaryNum too for the "hailmary" prayer, and the key recorded. */
  function FileCounted(p: Prayer, t: Tracker): Tracker {
    t.(inputFileNum := t.inputFileNum + 1,
       hailMaryNum := if p.key == "hailmary" then t.hailMaryNum + 1 else t.hailMaryNum,
       prayer := p.key)
  }

  /** The counting at the top of the file loop of `Prayer.ForEachFile`. */
  method CountFile(p: Prayer, s: StateTracker)
    modifies s
    ensures s.Snapshot() == FileCounted(p, old(s.Snapshot()))
  {
    s.inputFileNum := s.inputFileNum + 1;
    if p.key == "hailmary" {
      s.hailMaryNum := s.hailMaryNum + 1;
    }
    s.prayer := p.key;
  }

  /** One file of prayer `p`. */
  function VisitFile(p: Prayer, file: string, t: Tracker, host: Host): Walk {
    var t' := FileCounted(p, t);
    Walk(t', [Call(t'.Apply(file, host), Some(p), Some(t'))])
  }

  /** The files of prayer `p`, one after the other. */
  function VisitFiles(p: Prayer, files: seq<string>, t: Tracker, host: Host): Walk
    decreases |files|
  {
    if |files| == 0 then Walk(t, [])
    else
      var w := VisitFiles(p, files[..|files| - 1], t, host);
      var v := VisitFile(p, files[|files| - 1], w.state, host);
      Walk(v.state, w.calls + v.calls)
  }

  /** What `Prayer.ForEachFile` does, as a function of the tracker's fields. */
  function PrayerWalk(p: Prayer, o: OptionProvider, t: Tracker, host: Host): Walk
    requires ChoicesInRange(p, o)
  {
    VisitFiles(p, GetChosenFilenames(p, o), t.(prayerNum := t.prayerNum + 1), host)
  }

  /** The tracker while the i-th (0-based) of `n` files of `p` is handed over. */
  function DuringFile(p: Prayer, t: Tracker, i: int): Tracker {
    t.(inputFileNum := t.inputFileNum + i + 1,
       hailMaryNum := if p.key == "hailmary" then t.hailMaryNum + i + 1 else t.hailMaryNum,
       prayer := p.key)
  }

  /** Walking `files` makes one call per file, in order, each with the prayer
      and the key recorded and the counters advanced by one per file; the
      Hail Mary counter moves only for the "hailmary" prayer; no other field
      changes. */
  lemma {:induction false} VisitFilesFacts(p: Prayer, files: seq<string>, t: Tracker, host: Host)
    ensures var w := VisitFiles(p, files, t, host);
      |w.calls| == |files| &&
      w.state == (if |files| == 0 then t else DuringFile(p, t, |files| - 1)) &&
      forall i | 0 <= i < |files| ::
        w.calls[i].prayer == Some(p) && w.calls[i].state == Some(DuringFile(p, t, i)) &&
        w.calls[i].filename == DuringFile(p, t, i).Apply(files[i], host)
    decreases |files|
  {
    if |files| > 0 {
      var n := |files| - 1;
      VisitFilesFacts(p, files[..n], t, host);
      var w := VisitFiles(p, files[..n], t, host);
      assert w.state == (if n == 0 then t else DuringFile(p, t, n - 1));
      assert VisitFile(p, files[n], w.state, host).state == DuringFile(p, t, n);
      forall i | 0 <= i < n
        ensures files[..n][i] == files[i]
      {
      }
    }
  }

  /** `Prayer.ForEachFile` raises PrayerNum by one and InputFileNum by the
      number of chosen files, raises HailMaryNum by that number exactly for
      the "hailmary" prayer, records the key, calls back once per chosen file
      in order, and changes no other field. */
  lemma {:induction false} PrayerWalkFacts(p: Prayer, o: OptionProvider, t: Tracker, host: Host)
    requires ChoicesInRange(p, o)
    ensures |PrayerWalk(p, o, t, host).calls| == |GetChosenFilenames(p, o)|
    ensures PrayerWalk(p, o, t, host).state ==
              t.(prayerNum := t.prayerNum + 1, inputFileNum := t.inputFileNum + |GetChosenFilenames(p, o)|,
                 hailMaryNum := if p.key == "hailmary" then t.hailMaryNum + |GetChosenFilenames(p, o)| else t.hailMaryNum,
                 prayer := p.key)
    ensures forall i | 0 <= i < |GetChosenFilenames(p, o)| ::
              PrayerWalk(p, o, t, host).calls[i] ==
                var u := DuringFile(p, t.(prayerNum := t.prayerNum + 1), i);
                Call(u.Apply(GetChosenFilenames(p, o)[i], host), Some(p), Some(u))
  {
    VisitFilesFacts(p, GetChosenFilenames(p, o), t.(prayerNum := t.prayerNum + 1), host);
  }

  /** A list of prayers can be walked: no entry is a missing (nil) prayer,
      and the option table resolves each of them. */
  predicate Walkable(ps: seq<Option<Prayer>>, o: OptionProvider)
  {
    forall i | 0 <= i < |ps| :: ps[i].Some? && ChoicesInRange(ps[i].value, o)
  }

  /** The prayers of a list, walked one after the other. */
  function PrayersWalk(ps: seq<Option<Prayer>>, o: OptionProvider, t: Tracker, host: Host): Walk
    requires Walkable(ps, o)
    decreases |ps|
  {
    if |ps| == 0 then Walk(t, [])
    else
      var w := PrayersWalk(ps[..|ps| - 1], o, t, host);
      var v := PrayerWalk(ps[|ps| - 1].value, o, w.state, host);
      Walk(v.state, w.calls + v.calls)
  }

  /** `for _, p := range ps { p.ForEachFile(o, s, f) }`, as the rosary code
      writes it for each of its prayer lists. */
  method WalkPrayers(ps: seq<Option<Prayer>>, o: OptionProvider, s: StateTracker, host: Host) returns (calls: seq<Call>)
    requires Walkable(ps, o)
    modifies s
    ensures var w := PrayersWalk(ps, o, old(s.Snapshot()), host);
            s.Snapshot() == w.state && calls == w.calls
  {
    ghost var t0 := s.Snapshot();
    calls := [];
    var k := 0;
    while k < |ps|
      invariant 0 <= k <= |ps|
      invariant PrayersWalk(ps[..k], o, t0, host) == Walk(s.Snapshot(), calls)
    {
      var c := ps[k].value.ForEachFile(o, s, host);
      calls := calls + c;
      assert ps[..k + 1][..k] == ps[..k];
      k := k + 1;
    }
    assert ps[..k] == ps;
  }

  /** Each prayer of the list once per file chosen for it: the prayers a walk
      hands to its callback, in order. */
  function Visits(ps: seq<Option<Prayer>>, o: OptionProvider): seq<Option<Prayer>>
    requires Walkable(ps, o)
    decreases |ps|
  {
    if |ps| == 0 then []
    else
      var last := ps[|ps| - 1];
      Visits(ps[..|ps| - 1], o) + seq(|GetChosenFilenames(last.value, o)|, _ => last)
  }

  /** Visits of a concatenation are the concatenated visits. */
  lemma {:induction false} VisitsAppend(a: seq<Option<Prayer>>, b: seq<Option<Prayer>>, o: OptionProvider)
    requires Walkable(a, o) && Walkable(b, o)
    ensures Walkable(a + b, o)
    ensures Visits(a + b, o) == Visits(a, o) + Visits(b, o)
    decreases |b|
  {
    assert forall i | 0 <= i < |a + b| :: (a + b)[i] == if i < |a| then a[i] else b[i - |a|];
    if |b| == 0 {
      assert a + b == a;
    } else {
      var n := |b| - 1;
      assert (a + b)[..|a + b| - 1] == a + b[..n];
      assert Walkable(b[..n], o) by {
        assert forall i | 0 <= i < n :: b[..n][i] == b[i];
      }
      VisitsAppend(a, b[..n], o);
    }
  }

  /** Every visit is a present prayer of the list. */
  lemma {:induction false} VisitsPresent(ps: seq<Option<Prayer>>, o: OptionProvider)
    requires Walkable(ps, o)
    ensures forall i | 0 <= i < |Visits(ps, o)| :: Visits(ps, o)[i].Some? && Visits(ps, o)[i] in ps
    decreases |ps|
  {
    if |ps| > 0 {
      var n := |ps| - 1;
      assert Walkable(ps[..n], o) by {
        assert forall i | 0 <= i < n :: ps[..n][i] == ps[i];
      }
      VisitsPresent(ps[..n], o);
      assert forall x | x in ps[..n] :: x in ps;
    }
  }

  /** Two walks one after the other visit the two lists one after the other. */
  lemma VisitsConcat(a: seq<Option<Prayer>>, b: seq<Option<Prayer>>, o: OptionProvider, ca: seq<Call>, cb: seq<Call>)
    requires Walkable(a, o) && Walkable(b, o)
    requires PrayersOf(ca) == Visits(a, o) && PrayersOf(cb) == Visits(b, o)
    ensures Walkable(a + b, o) && PrayersOf(ca + cb) == Visits(a + b, o)
  {
    VisitsAppend(a, b, o);
    PrayersOfAppend(ca, cb);
  }

  /** The prayers the calls carry. */
  function PrayersOf(calls: seq<Call>): (r: seq<Option<Prayer>>)
    ensures |r| == |calls| && forall i | 0 <= i < |calls| :: r[i] == calls[i].prayer
  {
    seq(|calls|, i requires 0 <= i < |calls| => calls[i].prayer)
  }

  lemma PrayersOfAppend(a: seq<Call>, b: seq<Call>)
    ensures PrayersOf(a + b) == PrayersOf(a) + PrayersOf(b)
  {
  }

  /** Same place in the rosary and same settings: the two trackers differ at
      most in the per-prayer fields (PrayerNum, InputFileNum, HailMaryNum, Prayer). */
  predicate SamePlace(a: Tracker, b: Tracker) {
    a.inputDirs == b.inputDirs && a.outputDir == b.outputDir && a.format == b.format &&
    a.group == b.group && a.decadeNumWord == b.decadeNumWord && a.mystery == b.mystery &&
    a.mysteryPhrase == b.mysteryPhrase && a.prayerName == b.prayerName &&
    a.outputFileNum == b.outputFileNum && a.groupNum == b.groupNum && a.mysteryNum == b.mysteryNum &&
    a.outputFilenameTemplate == b.outputFilenameTemplate && a.lastFilename == b.lastFilename
  }

  /** Walking a list of prayers hands the callback exactly their visits, in order. */
  lemma {:induction false} PrayersWalkVisits(ps: seq<Option<Prayer>>, o: OptionProvider, t: Tracker, host: Host)
    requires Walkable(ps, o)
    ensures PrayersOf(PrayersWalk(ps, o, t, host).calls) == Visits(ps, o)
    decreases |ps|
  {
    if |ps| > 0 {
      var n := |ps| - 1;
      var p := ps[n].value;
      assert Walkable(ps[..n], o) by {
        assert forall i | 0 <= i < n :: ps[..n][i] == ps[i];
      }
      PrayersWalkVisits(ps[..n], o, t, host);
      var w := PrayersWalk(ps[..n], o, t, host);
      PrayerWalkFacts(p, o, w.state, host);
      var v := PrayerWalk(p, o, w.state, host);
      PrayersOfAppend(w.calls, v.calls);
      assert PrayersOf(v.calls) == seq(|GetChosenFilenames(p, o)|, _ => ps[n]);
    }
  }

  /** Every call has a tracker at the same place as `t`. */
  predicate CallsAt(t: Tracker, calls: seq<Call>) {
    forall i | 0 <= i < |calls| :: calls[i].state.Some? && SamePlace(t, calls[i].state.value)
  }

  lemma CallsAtAppend(t: Tracker, a: seq<Call>, b: seq<Call>)
    requires CallsAt(t, a) && CallsAt(t, b)
    ensures CallsAt(t, a + b)
  {
    forall i | 0 <= i < |a + b|
      ensures (a + b)[i].state.Some? && SamePlace(t, (a + b)[i].state.value)
    {
      if i < |a| {
        assert (a + b)[i] == a[i];
      } else {
        assert (a + b)[i] == b[i - |a|];
      }
    }
  }

  lemma CallsAtTrans(t: Tracker, s: Tracker, calls: seq<Call>)
    requires SamePlace(t, s) && CallsAt(s, calls)
    ensures CallsAt(t, calls)
  {
  }

  /** A prayer's walk stays at the place it began, during and after. */
  lemma {:induction false} PrayerWalkAt(p: Prayer, o: OptionProvider, t: Tracker, host: Host)
    requires ChoicesInRange(p, o)
    ensures SamePlace(t, PrayerWalk(p, o, t, host).state) && CallsAt(t, PrayerWalk(p, o, t, host).calls)
  {
    PrayerWalkFacts(p, o, t, host);
    var v := PrayerWalk(p, o, t, host);
    forall k | 0 <= k < |v.calls|
      ensures v.calls[k].state.Some? && SamePlace(t, v.calls[k].state.value)
    {
      assert SamePlace(t, DuringFile(p, t.(prayerNum := t.prayerNum + 1), k));
    }
  }

  /** PrayerNum rises by the number of prayers and InputFileNum by the number
      of files; the place in the rosary stays where it was, during the walk
      and after it. */
  lemma {:induction false} PrayersWalkPlace(ps: seq<Option<Prayer>>, o: OptionProvider, t: Tracker, host: Host)
    requires Walkable(ps, o)
    ensures var w := PrayersWalk(ps, o, t, host);
      SamePlace(t, w.state) &&
      w.state.prayerNum == t.prayerNum + |ps| &&
      w.state.inputFileNum == t.inputFileNum + |Visits(ps, o)| &&
      CallsAt(t, w.calls)
    decreases |ps|
  {
    if |ps| > 0 {
      var n := |ps| - 1;
      var p := ps[n].value;
      assert Walkable(ps[..n], o) by {
        assert forall i | 0 <= i < n :: ps[..n][i] == ps[i];
      }
      PrayersWalkPlace(ps[..n], o, t, host);
      var w := PrayersWalk(ps[..n], o, t, host);
      PrayerWalkFacts(p, o, w.state, host);
      PrayerWalkAt(p, o, w.state, host);
      var v := PrayerWalk(p, o, w.state, host);
      CallsAtTrans(t, w.state, v.calls);
      CallsAtAppend(t, w.calls, v.calls);
    }
  }

  /** Every call has a tracker, and the i-th call (0-based) sees InputFileNum
      `base + i + 1`: the files are numbered consecutively. */
  predicate Numbered(calls: seq<Call>, base: int) {
    forall i | 0 <= i < |calls| :: calls[i].state.Some? && calls[i].state.value.inputFileNum == base + i + 1
  }

  lemma NumberedAppend(a: seq<Call>, b: seq<Call>, base: int)
    requires Numbered(a, base) && Numbered(b, base + |a|)
    ensures Numbered(a + b, base)
  {
    forall i | |a| <= i < |a + b|
      ensures (a + b)[i] == b[i - |a|]
    {
    }
  }

  /** InputFileNum numbers the files of a walk consecutively, starting after
      the count the walk began with, and ends with one more per call. */
  lemma {:induction false} PrayersWalkNumbered(ps: seq<Option<Prayer>>, o: OptionProvider, t: Tracker, host: Host)
    requires Walkable(ps, o)
    ensures var w := PrayersWalk(ps, o, t, host);
      Numbered(w.calls, t.inputFileNum) && w.state.inputFileNum == t.inputFileNum + |w.calls|
    decreases |ps|
  {
    if |ps| > 0 {
      var n := |ps| - 1;
      var p := ps[n].value;
      assert Walkable(ps[..n], o) by {
        assert forall i | 0 <= i < n :: ps[..n][i] == ps[i];
      }
      PrayersWalkNumbered(ps[..n], o, t, host);
      var w := PrayersWalk(ps[..n], o, t, host);
      PrayerWalkNumbered(p, o, w.state, host);
      NumberedAppend(w.calls, PrayerWalk(p, o, w.state, host).calls, t.inputFileNum);
    }
  }

  /** The same, for one prayer. */
  lemma {:induction false} PrayerWalkNumbered(p: Prayer, o: OptionProvider, t: Tracker, host: Host)
    requires ChoicesInRange(p, o)
    ensures var v := PrayerWalk(p, o, t, host);
      Numbered(v.calls, t.inputFileNum) && v.state.inputFileNum == t.inputFileNum + |v.calls|
  {
    PrayerWalkFacts(p, o, t, host);
  }

  /** The number of Hail Mary entries (key "hailmary") in a list of visits. */
  function HailMarys(ps: seq<Option<Prayer>>): nat
    decreases |ps|
  {
    if |ps| == 0 then 0
    else HailMarys(ps[..|ps| - 1]) + if ps[|ps| - 1].Some? && ps[|ps| - 1].value.key == "hailmary" then 1 else 0
  }

  lemma {:induction false} HailMarysAppend(a: seq<Option<Prayer>>, b: seq<Option<Prayer>>)
    ensures HailMarys(a + b) == HailMarys(a) + HailMarys(b)
    decreases |b|
  {
    if |b| == 0 {
      assert a + b == a;
    } else {
      assert (a + b)[..|a + b| - 1] == a + b[..|b| - 1];
      HailMarysAppend(a, b[..|b| - 1]);
    }
  }

  /** `n` visits of the same prayer are `n` Hail Marys or none. */
  lemma {:induction false} HailMarysSame(p: Prayer, n: nat)
    ensures HailMarys(seq(n, _ => Some(p))) == if p.key == "hailmary" then n else 0
  {
    if n > 0 {
      assert seq(n, _ => Some(p))[..n - 1] == seq(n - 1, _ => Some(p));
      HailMarysSame(p, n - 1);
    }
  }

  /** Every call has a tracker, and its HailMaryNum is `base` plus the Hail
      Marys among the calls up to and including it. */
  predicate HailMaryCounted(calls: seq<Call>, base: int) {
    forall i | 0 <= i < |calls| ::
      calls[i].state.Some? && calls[i].state.value.hailMaryNum == base + HailMarys(PrayersOf(calls[..i + 1]))
  }

  lemma HailMaryCountedAppend(a: seq<Call>, b: seq<Call>, base: int)
    requires HailMaryCounted(a, base) && HailMaryCounted(b, base + HailMarys(PrayersOf(a)))
    ensures HailMaryCounted(a + b, base)
  {
    forall i | 0 <= i < |a + b|
      ensures (a + b)[i].state.Some? &&
              (a + b)[i].state.value.hailMaryNum == base + HailMarys(PrayersOf((a + b)[..i + 1]))
    {
      if i < |a| {
        assert (a + b)[..i + 1] == a[..i + 1];
      } else {
        var k := i - |a|;
        assert (a + b)[..i + 1] == a + b[..k + 1];
        PrayersOfAppend(a, b[..k + 1]);
        HailMarysAppend(PrayersOf(a), PrayersOf(b[..k + 1]));
      }
    }
  }

  /** The same, for one prayer. */
  lemma {:induction false} PrayerWalkHailMarys(p: Prayer, o: OptionProvider, t: Tracker, host: Host)
    requires ChoicesInRange(p, o)
    ensures var v := PrayerWalk(p, o, t, host);
      HailMaryCounted(v.calls, t.hailMaryNum) && v.state.hailMaryNum == t.hailMaryNum + HailMarys(PrayersOf(v.calls))
  {
    PrayerWalkFacts(p, o, t, host);
    var v := PrayerWalk(p, o, t, host);
    forall k | 0 <= k < |v.calls|
      ensures v.calls[k].state.Some? &&
              v.calls[k].state.value.hailMaryNum == t.hailMaryNum + HailMarys(PrayersOf(v.calls[..k + 1]))
    {
      assert PrayersOf(v.calls[..k + 1]) == seq(k + 1, _ => Some(p));
      HailMarysSame(p, k + 1);
    }
    assert PrayersOf(v.calls) == seq(|v.calls|, _ => Some(p));
    HailMarysSame(p, |v.calls|);
  }

  /** HailMaryNum counts the Hail Mary files of a walk, on top of the count
      it began with, at every call and at the end. */
  lemma {:induction false} PrayersWalkHailMarys(ps: seq<Option<Prayer>>, o: OptionProvider, t: Tracker, host: Host)
    requires Walkable(ps, o)
    ensures var w := PrayersWalk(ps, o, t, host);
      HailMaryCounted(w.calls, t.hailMaryNum) && w.state.hailMaryNum == t.hailMaryNum + HailMarys(PrayersOf(w.calls))
    decreases |ps|
  {
    if |ps| > 0 {
      var n := |ps| - 1;
      var p := ps[n].value;
      assert Walkable(ps[..n], o) by {
        assert forall i | 0 <= i < n :: ps[..n][i] == ps[i];
      }
      var w := PrayersWalk(ps[..n], o, t, host);
      assert HailMaryCounted(w.calls, t.hailMaryNum) &&
             w.state.hailMaryNum == t.hailMaryNum + HailMarys(PrayersOf(w.calls)) by {
        PrayersWalkHailMarys(ps[..n], o, t, host);
      }
      var v := PrayerWalk(p, o, w.state, host);
      assert HailMaryCounted(v.calls, w.state.hailMaryNum) &&
             v.state.hailMaryNum == w.state.hailMaryNum + HailMarys(PrayersOf(v.calls)) by {
        PrayerWalkHailMarys(p, o, w.state, host);
      }
      assert PrayersWalk(ps, o, t, host) == Walk(v.state, w.calls + v.calls);
      HailMaryCountedAppend(w.calls, v.calls, t.hailMaryNum);
      PrayersOfAppend(w.calls, v.calls);
      HailMarysAppend(PrayersOf(w.calls), PrayersOf(v.calls));
    }
  }

  /** `GetBadFilenamesFunc`: a callback that reports, through `f`, each file
      name the walk cannot find, once, and ignores the final empty name. */
  class MissingFileReporter {
    /** The map `m` of file names already reported, with their errors. */
    var reported: map<string, string>
    /** The calls made to `f`: the path looked for and the error message. */
    var reports: seq<(string, string)>
    /** The file names behind `reports`, in the same order. */
    ghost var names: seq<string>

    /** Each name is reported once, and `m` holds exactly the reported names. */
    ghost predicate Valid()
      reads this
    {
      |names| == |reports| &&
      (forall i, j | 0 <= i < j < |names| :: names[i] != names[j]) &&
      (forall n :: n in reported <==> n in names)
    }

    constructor ()
      ensures Valid() && reported == map[] && reports == []
    {
      reported, reports, names := map[], [], [];
    }

    /** One call of the callback. The final call passes no tracker. */
    method Accept(filename: string, s: StateTracker?, host: Host)
      requires Valid()
      requires filename != "" ==> s != null
      modifies this
      ensures Valid()
      ensures filename == "" ==> reported == old(reported) && reports == old(reports)
      ensures filename != "" && filename in old(reported) ==> reported == old(reported) && reports == old(reports)
      ensures filename != "" && filename !in old(reported) ==>
                var fname := filename + "." + s.format;
                if exists i | 0 <= i < |s.inputDirs| :: host.fileExists(host.join(s.inputDirs[i], fname)) then
                  reported == old(reported) && reports == old(reports)
                else
                  reported == old(reported)[filename := NotFoundMessage(fname)] &&
                  reports == old(reports) + [(fname, NotFoundMessage(fname))]
    {
      if filename == "" {
        return;
      }
      var actual, found := s.MatchActualFile(filename, host);
      if !found {
        if filename !in reported {
          var err := NotFoundMessage(actual);
          reported := reported[filename := err];
          reports := reports + [(actual, err)];
          names := names + [filename];
        }
      }
    }
  }

  /** `FileStack`: one output file and the input files that go into it. */
  datatype FileStack = FileStack(outputFilename: string, filenames: seq<string>) {
    function AddFilename(file: string): (f: FileStack)
      ensures f.outputFilename == outputFilename && f.filenames == filenames + [file]
    {
      FileStack(outputFilename, filenames + [file])
    }
  }

  /** `GetFiles`: a callback that groups the walked files by output file.
      A new group starts whenever the tracker's output file name changes; the
      final empty name sends the last group and closes the channel. Only
      files that exist in an input directory are kept. */
  class FileGrouper {
    /** The captured `stack` (nil before the first call). */
    var stack: Option<FileStack>
    /** The stacks sent on the channel, in order. */
    var sent: seq<FileStack>
    /** Whether the channel has been closed. */
    var closed: bool

    constructor ()
      ensures stack == None && sent == [] && !closed
    {
      stack, sent, closed := None, [], false;
    }

    /** One call of the callback. Go panics when the tracker it needs is nil
        and when it sends on the closed channel; those are preconditions here. */
    method Accept(filename: string, s: StateTracker?, host: Host)
      requires !closed
      requires (stack.None? || filename != "") ==> s != null
      modifies this, s
      ensures s != null && old(stack.None? || filename != "") ==> old(s.inputDirs) == s.inputDirs && old(s.format) == s.format
      ensures old(stack.Some?) && filename == "" ==>
                sent == old(sent) + [old(stack.value)] && closed && (s != null ==> unchanged(s))
      ensures old(stack.None?) ==>
                !closed && sent == old(sent) && stack.Some? && stack.value.outputFilename == s.lastFilename
      ensures old(stack.Some?) && filename != "" ==>
                !closed && stack.Some? &&
                if old(s.Snapshot()).ComputedFilename(host) != old(s.lastFilename) then
                  sent == old(sent) + [old(stack.value)] && stack.value.outputFilename == s.lastFilename
                else
                  sent == old(sent) && stack.value.outputFilename == old(stack.value.outputFilename)
      ensures old(stack.None? || filename != "") ==>
                var fname := filename + "." + s.format;
                (exists i | 0 <= i < |s.inputDirs| :: host.fileExists(host.join(s.inputDirs[i], fname))) ==>
                  |stack.value.filenames| >= 1 && host.fileExists(stack.value.filenames[|stack.value.filenames| - 1])
      ensures old(stack.None? || filename != "") ==>
                var t1 := old(s.Snapshot()).Updated(host);
                var st0 := if old(stack.None?) || old(s.Snapshot()).ComputedFilename(host) != old(s.lastFilename)
                           then FileStack(t1.lastFilename, []) else old(stack.value);
                var found := FirstFound(t1.inputDirs, filename + "." + t1.format, host);
                s.Snapshot() == t1 &&
                stack == Some(if found.Some? then st0.AddFilename(found.value) else st0)
    {
      if stack.None? {
        var _ := s.UpdateFilename(host);
        stack := Some(FileStack(s.lastFilename, []));
      } else {
        if filename == "" {
          sent := sent + [stack.value];
          closed := true;
          return;
        }
        var changed := s.UpdateFilename(host);
        if changed {
          sent := sent + [stack.value];
          stack := Some(FileStack(s.lastFilename, []));
        }
      }
      var actual, found := s.MatchActualFile(filename, host);
      if found {
        stack := Some(stack.value.AddFilename(actual));
      }
    }
  }
}
