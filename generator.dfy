/** generator.go: choosing the groups of a rosary, finding a mystery by
    name, resolving the structure, building the rosary, and reading a list
    of render commands line by line. */
module Generators {
  import opened Basics
  import opened Strings
  import opened PrayerOptions
  import opened Tracking
  import opened Structures
  import opened Prayers
  import opened Rosaries

  /** The groups "all" names, in order. */
  const AllGroups: seq<string> := ["joyful", "luminous", "sorrowful", "glorious"]

  /** The groups "old" names: all but the luminous mysteries. */
  const OldGroups: seq<string> := ["joyful", "sorrowful", "glorious"]

  /** `GroupsForRosary`: the group names a request stands for. "all" and
      "old" (in any case) are the fixed lists, "custom" takes the
      comma-separated mysteries, and anything else names a single group.
      Every name comes out lower-cased, and there is always at least one. */
  function GroupsForRosary(groups: string, mysteries: string): (names: seq<string>)
    ensures |names| >= 1
    ensures forall i | 0 <= i < |names| :: IsLower(names[i])
  {
    var g := ToLower(groups);
    LowerIsLower(groups);
    if g == "all" then AllGroups
    else if g == "old" then OldGroups
    else if g == "custom" then
      LowerIsLower(mysteries);
      SplitLower(ToLower(mysteries), ',');
      Split(ToLower(mysteries), ',')
    else [g]
  }

  /** The group keyword is read without regard to case. */
  lemma GroupsCaseInsensitive(groups: string, mysteries: string)
    ensures GroupsForRosary(groups, mysteries) == GroupsForRosary(ToLower(groups), mysteries)
    ensures GroupsForRosary(groups, mysteries) == GroupsForRosary(groups, ToLower(mysteries))
  {
    LowerIsLower(groups);
    LowerIsLower(mysteries);
  }

  /** With "custom", the names are the lower-cased mysteries list, piece by
      piece: joined with commas they give it back, and none holds a comma. */
  lemma {:induction false} CustomGroups(groups: string, mysteries: string)
    requires ToLower(groups) == "custom"
    ensures var names := GroupsForRosary(groups, mysteries);
            Join(names, ',') == ToLower(mysteries) && forall i | 0 <= i < |names| :: ',' !in names[i]
  {
    JoinSplit(ToLower(mysteries), ',');
  }

  /** Any other word names one group: itself, lower-cased. */
  lemma {:induction false} SingleGroup(groups: string, mysteries: string)
    requires ToLower(groups) !in {"all", "old", "custom"}
    ensures GroupsForRosary(groups, mysteries) == [ToLower(groups)]
    ensures GroupsForRosary(groups, mysteries) == GroupsForRosary(groups, "")
  {
  }

  /** Every key of `order` is a key of the table. */
  predicate KeysOf<V>(order: seq<string>, table: map<string, V>) {
    forall i | 0 <= i < |order| :: order[i] in table
  }

  /** `order` is an order in which Go may range over the table: each key
      exactly once. */
  predicate IsOrderOf<V>(order: seq<string>, table: map<string, V>) {
    KeysOf(order, table) &&
    (forall k | k in table :: k in order) &&
    (forall i, j | 0 <= i < j < |order| :: order[i] != order[j])
  }

  /** The first mystery, in `order`, whose lower-cased name is `name`; none
      when no mystery of the table is named so. */
  function FirstNamed(order: seq<string>, mysteries: map<string, Mystery>, name: string): (r: Option<Mystery>)
    requires KeysOf(order, mysteries)
    ensures r.Some? ==> ToLower(r.value.name) == name && r.value in mysteries.Values
    decreases |order|
  {
    if |order| == 0 then None
    else if ToLower(mysteries[order[0]].name) == name then Some(mysteries[order[0]])
    else FirstNamed(order[1..], mysteries, name)
  }

  /** What `FirstNamed` finds is the mystery at the first position of `order`
      whose name matches; when it finds none, no name in `order` matches. */
  lemma {:induction false} FirstNamedFirst(order: seq<string>, mysteries: map<string, Mystery>, name: string)
    requires KeysOf(order, mysteries)
    ensures var r := FirstNamed(order, mysteries, name);
            r.Some? ==> exists i | 0 <= i < |order| ::
              r.value == mysteries[order[i]] &&
              forall j | 0 <= j < i :: ToLower(mysteries[order[j]].name) != name
    ensures var r := FirstNamed(order, mysteries, name);
            r.None? ==> forall i | 0 <= i < |order| :: ToLower(mysteries[order[i]].name) != name
    decreases |order|
  {
    if |order| > 0 && ToLower(mysteries[order[0]].name) != name {
      var tail := order[1..];
      FirstNamedFirst(tail, mysteries, name);
      var r := FirstNamed(tail, mysteries, name);
      if r.Some? {
        var i :| 0 <= i < |tail| && r.value == mysteries[tail[i]] &&
                 forall j | 0 <= j < i :: ToLower(mysteries[tail[j]].name) != name;
        assert order[i + 1] == tail[i];
        forall j | 0 <= j < i + 1
          ensures ToLower(mysteries[order[j]].name) != name
        {
          if j > 0 {
            assert order[j] == tail[j - 1];
          }
        }
      } else {
        forall i | 0 <= i < |order|
          ensures ToLower(mysteries[order[i]].name) != name
        {
          if i > 0 {
            assert order[i] == tail[i - 1];
          }
        }
      }
    }
  }

  /** The one-mystery group `NewRosary` makes for a mystery asked for by name. */
  function CustomGroup(m: Mystery): GroupValue {
    GroupValue(-1, "Custom", "Custom", [m.num])
  }

  /** A generator's tables: prayers, mysteries, groups and structures by key,
      and the option choices. */
  datatype Generator = Generator(
    prayers: map<string, Prayer>,
    mysteries: map<string, Mystery>,
    groups: map<string, GroupValue>,
    structures: map<string, StructureValue>,
    options: OptionProvider)
  {
    /** Every mystery number a group names, and the number of every mystery,
        is a key of the mystery table, as the loaded configuration has it. */
    predicate Consistent() {
      (forall k, j | k in groups && 0 <= j < |groups[k].mysteries| :: Itoa(groups[k].mysteries[j]) in mysteries) &&
      (forall k | k in mysteries :: Itoa(mysteries[k].num) in mysteries)
    }

    /** `FindMystery`: range over the mystery table in `order` and return the
        first mystery whose lower-cased name is the one asked for. */
    method FindMystery(mystery: string, order: seq<string>) returns (r: Option<Mystery>)
      requires IsOrderOf(order, mysteries)
      ensures r == FirstNamed(order, mysteries, mystery)
      ensures r.Some? ==> ToLower(r.value.name) == mystery && r.value in mysteries.Values
      ensures r.None? ==> forall k | k in mysteries :: ToLower(mysteries[k].name) != mystery
    {
      var i := 0;
      while i < |order|
        invariant 0 <= i <= |order|
        invariant FirstNamed(order, mysteries, mystery) == FirstNamed(order[i..], mysteries, mystery)
      {
        var k := mysteries[order[i]];
        if ToLower(k.name) == mystery {
          return Some(k);
        }
        assert order[i..][1..] == order[i + 1..];
        i := i + 1;
      }
      FirstNamedFirst(order, mysteries, mystery);
      return None;
    }

    /** The groups one requested name contributes: the group of that key,
        else a one-mystery "Custom" group for the first mystery of that
        name, else none. */
    function GroupsFor(v: string, order: seq<string>): (gs: seq<GroupValue>)
      requires KeysOf(order, mysteries)
      ensures |gs| <= 1
    {
      if v in groups then [groups[v]]
      else
        var m := FirstNamed(order, mysteries, v);
        if m.Some? then [CustomGroup(m.value)] else []
    }

    /** The groups `NewRosary` collects for the requested names, in order. */
    function ActualGroups(names: seq<string>, order: seq<string>): seq<GroupValue>
      requires KeysOf(order, mysteries)
      decreases |names|
    {
      if |names| == 0 then []
      else ActualGroups(names[..|names| - 1], order) + GroupsFor(names[|names| - 1], order)
    }

    lemma ActualGroupsStep(names: seq<string>, i: nat, order: seq<string>)
      requires KeysOf(order, mysteries) && i < |names|
      ensures ActualGroups(names[..i + 1], order) == ActualGroups(names[..i], order) + GroupsFor(names[i], order)
    {
      assert names[..i + 1][..i] == names[..i];
    }

    /** A group key gives its group; otherwise a mystery name gives a group
        holding just the first mystery of that name; any other name gives
        nothing. */
    lemma {:induction false} ActualGroupsOne(v: string, order: seq<string>)
      requires KeysOf(order, mysteries)
      ensures v in groups ==> ActualGroups([v], order) == [groups[v]]
      ensures v !in groups && (exists i | 0 <= i < |order| :: ToLower(mysteries[order[i]].name) == v) ==>
                exists i | 0 <= i < |order| ::
                  ActualGroups([v], order) == [GroupValue(-1, "Custom", "Custom", [mysteries[order[i]].num])] &&
                  ToLower(mysteries[order[i]].name) == v
      ensures v !in groups && (forall i | 0 <= i < |order| :: ToLower(mysteries[order[i]].name) != v) ==>
                ActualGroups([v], order) == []
    {
      assert [v][..0] == [];
      assert ActualGroups([v], order) == GroupsFor(v, order);
      FirstNamedFirst(order, mysteries, v);
    }

    /** Names are handled one at a time and in order: the groups of a list
        are the groups of its parts, concatenated. */
    lemma {:induction false} ActualGroupsAppend(a: seq<string>, b: seq<string>, order: seq<string>)
      requires KeysOf(order, mysteries)
      ensures ActualGroups(a + b, order) == ActualGroups(a, order) + ActualGroups(b, order)
      decreases |b|
    {
      if |b| == 0 {
        assert a + b == a;
      } else {
        var n := |b| - 1;
        ActualGroupsAppend(a, b[..n], order);
        var ab := a + b;
        assert ab[..|ab| - 1] == a + b[..n];
        ActualGroupsLast(ab, order);
        ActualGroupsLast(b, order);
        ConcatAssoc(ActualGroups(a, order), ActualGroups(b[..n], order), GroupsFor(b[n], order));
      }
    }

    lemma ActualGroupsLast(names: seq<string>, order: seq<string>)
      requires KeysOf(order, mysteries) && |names| > 0
      ensures ActualGroups(names, order) ==
              ActualGroups(names[..|names| - 1], order) + GroupsFor(names[|names| - 1], order)
    {
    }

    /** No name yields more than one group. */
    lemma {:induction false} ActualGroupsAtMost(names: seq<string>, order: seq<string>)
      requires KeysOf(order, mysteries)
      ensures |ActualGroups(names, order)| <= |names|
      decreases |names|
    {
      if |names| > 0 {
        ActualGroupsAtMost(names[..|names| - 1], order);
      }
    }

    /** On a consistent configuration the mystery numbers of the groups
        collected are all in the mystery table, so `NewRosary` can look them up. */
    lemma {:induction false} ConsistentKnown(names: seq<string>, order: seq<string>)
      requires KeysOf(order, mysteries) && Consistent()
      ensures MysteriesKnown(ActualGroups(names, order), mysteries)
      decreases |names|
    {
      if |names| > 0 {
        var n := |names| - 1;
        ConsistentKnown(names[..n], order);
        GroupsForKnown(names[n], order);
        KnownAppend(ActualGroups(names[..n], order), GroupsFor(names[n], order), mysteries);
      }
    }

    lemma GroupsForKnown(v: string, order: seq<string>)
      requires KeysOf(order, mysteries) && Consistent()
      ensures MysteriesKnown(GroupsFor(v, order), mysteries)
    {
      if v in groups {
        var g := groups[v];
        assert forall j | 0 <= j < |g.mysteries| :: Itoa(g.mysteries[j]) in mysteries;
        OneKnown(g, mysteries);
        assert GroupsFor(v, order) == [g];
      } else {
        var r := FirstNamed(order, mysteries, v);
        if r.Some? {
          var k :| k in mysteries && mysteries[k] == r.value;
          CustomKnown(r.value, mysteries);
          assert GroupsFor(v, order) == [CustomGroup(r.value)];
        }
      }
    }

    /** The structure a request names: a structure of that key, else a
        prayer of that key said once, else an inline list "[a,b]" with its
        brackets and quotes taken out; anything else is a fatal error. */
    function ResolveStructure(structure: string): (r: Result<StructureValue>)
      ensures r.Failure? <==> structure !in structures && structure !in prayers && !Contains(structure, "[")
      ensures r.Failure? ==> r.error == "Structure " + structure + " not found.\n"
    {
      if structure in structures then Success(structures[structure])
      else if structure in prayers then Success(PrayerStructure(structure))
      else if Contains(structure, "[") then Success(PrayersStructure(Unbracket(structure)))
      else Failure("Structure " + structure + " not found.\n")
    }

    /** A structure key is looked up first, so it hides a prayer of the same key. */
    lemma StructureFirst(structure: string)
      requires structure in structures
      ensures ResolveStructure(structure) == Success(structures[structure])
    {
    }

    /** The rosary `NewRosary` builds, or the fatal error it stops with. */
    function RosaryFor(structure: string, names: seq<string>, order: seq<string>): Result<Rosary>
      requires KeysOf(order, mysteries)
      requires ResolveStructure(structure).Success? ==> MysteriesKnown(ActualGroups(names, order), mysteries)
    {
      match ResolveStructure(structure)
      case Success(sv) => Success(Rosaries.NewRosary(sv, ActualGroups(names, order), mysteries, prayers))
      case Failure(e) => Failure(e)
    }

    /** `NewRosary`: collect the groups for the names, then resolve the
        structure and build the rosary from it. */
    method NewRosary(structure: string, names: seq<string>, order: seq<string>) returns (r: Result<Rosary>)
      requires IsOrderOf(order, mysteries)
      requires ResolveStructure(structure).Success? ==> MysteriesKnown(ActualGroups(names, order), mysteries)
      ensures r == RosaryFor(structure, names, order)
    {
      var actualGroups: seq<GroupValue> := [];
      var i := 0;
      while i < |names|
        invariant 0 <= i <= |names|
        invariant actualGroups == ActualGroups(names[..i], order)
      {
        var v := names[i];
        ActualGroupsStep(names, i, order);
        if v in groups {
          actualGroups := actualGroups + [groups[v]];
        } else {
          var mystery := FindMystery(v, order);
          if mystery.Some? {
            var newgroup := new Group(-1, "Custom", "Custom");
            newgroup.AddMystery(mystery.value.num);
            assert newgroup.Value() == CustomGroup(mystery.value);
            actualGroups := actualGroups + [newgroup.Value()];
          }
        }
        i := i + 1;
      }
      assert names[..i] == names;
      var resolved := ResolveStructure(structure);
      match resolved
      case Success(sv) =>
        r := Success(Rosaries.NewRosary(sv, actualGroups, mysteries, prayers));
      case Failure(e) =>
        r := Failure(e);
    }

    /** A request for one prayer (a prayer key that is not a structure key)
        yields a rosary that says just that prayer, whatever groups it names. */
    lemma {:induction false} SinglePrayerRosary(structure: string, names: seq<string>, order: seq<string>)
      requires KeysOf(order, mysteries) && MysteriesKnown(ActualGroups(names, order), mysteries)
      requires structure !in structures && structure in prayers
      ensures RosaryFor(structure, names, order).Success?
      ensures RosaryFor(structure, names, order).value.GetPrayers() == [Some(prayers[structure])]
    {
      var sv := PrayerStructure(structure);
      var gs := ActualGroups(names, order);
      NewRosaryPrayerCount(sv, gs, mysteries, prayers);
      NoPrayersPerGroup(gs);
      var ps := Rosaries.NewRosary(sv, gs, mysteries, prayers).GetPrayers();
      assert ps == ps[..1];
    }

    /** A request for an inline list "[a,b]" yields a rosary that says the
        listed prayers, in order, once each (a nil entry for a key that is
        not a prayer), whatever groups it names. */
    lemma {:induction false} InlineListRosary(structure: string, names: seq<string>, order: seq<string>)
      requires KeysOf(order, mysteries) && MysteriesKnown(ActualGroups(names, order), mysteries)
      requires structure !in structures && structure !in prayers && Contains(structure, "[")
      ensures RosaryFor(structure, names, order).Success?
      ensures var keys := Split(Unbracket(structure), ',');
              RosaryFor(structure, names, order).value.GetPrayers() == LookupAll(prayers, keys)
    {
      var sv := PrayersStructure(Unbracket(structure));
      var gs := ActualGroups(names, order);
      NewRosaryPrayerCount(sv, gs, mysteries, prayers);
      NoPrayersPerGroup(gs);
      var ps := Rosaries.NewRosary(sv, gs, mysteries, prayers).GetPrayers();
      assert ps == ps[..|sv.preamble|];
    }

    /** The keys of an inline list hold no bracket, quote or comma, and joined
        with commas they give the list with its brackets and quotes removed. */
    lemma {:induction false} InlineListKeys(structure: string)
      requires structure !in structures && structure !in prayers && Contains(structure, "[")
      ensures ResolveStructure(structure).Success?
      ensures var keys := ResolveStructure(structure).value.preamble;
              Join(keys, ',') == Unbracket(structure) &&
              forall i | 0 <= i < |keys| :: '[' !in keys[i] && ']' !in keys[i] && '"' !in keys[i] && ',' !in keys[i]
    {
      var u := Unbracket(structure);
      var keys := Split(u, ',');
      SplitChars(u, ',');
      forall i | 0 <= i < |keys|
        ensures '[' !in keys[i] && ']' !in keys[i] && '"' !in keys[i]
      {
        forall j | 0 <= j < |keys[i]|
          ensures keys[i][j] != '[' && keys[i][j] != ']' && keys[i][j] != '"'
        {
          assert keys[i][j] in u;
        }
      }
    }

    /** The render a line asked for: the tracker takes the current
        directories, template and format and restarts its group and mystery
        counts, the group names and the structure are resolved, and the
        rosary is handed on with the gap (5 when the gap is not a number). A
        structure that cannot be resolved ends the run with its message. */
    function Rendered(st: ListState, renders: seq<RenderRequest>, order: seq<string>): (r: ListRun)
      requires KeysOf(order, mysteries) && Consistent() && HasDefaults(st.params)
      ensures r.params == st.params && r.tracker == Prepared(st.params, st.tracker)
      ensures r.fatal.None? ==> |r.renders| == |renders| + 1 && r.renders[..|renders|] == renders
      ensures r.fatal.Some? <==> ResolveStructure(st.params["structure"]).Failure?
    {
      var t := Prepared(st.params, st.tracker);
      var names := GroupsForRosary(st.params["groups"], st.params["mysteries"]);
      ConsistentKnown(names, order);
      var r := RosaryFor(st.params["structure"], names, order);
      if r.Failure? then ListRun(st.params, t, renders, Some(r.error))
      else
        var request := RenderRequest(r.value, t.inputDirs, t.outputDir, t.outputFilenameTemplate, t.format,
                                     GapOf(st.params["gap"]), t);
        ListRun(st.params, t, renders + [request], None)
    }

    /** One line of a render list, then the render it asks for, if any; once
        the run has ended, nothing more happens. */
    function RunLine(run: ListRun, line: string, order: seq<string>): (r: ListRun)
      requires KeysOf(order, mysteries) && Consistent() && HasDefaults(run.params)
      ensures HasDefaults(r.params)
    {
      if run.fatal.Some? then run
      else
        var st := ReadLine(ListState(run.params, run.tracker, false), line);
        if st.render then Rendered(st, run.renders, order)
        else ListRun(st.params, st.tracker, run.renders, None)
    }

    /** The state after the given lines of a render list. */
    function RunList(lines: seq<string>, order: seq<string>): (r: ListRun)
      requires KeysOf(order, mysteries) && Consistent()
      ensures HasDefaults(r.params)
      decreases |lines|
    {
      if |lines| == 0 then ListRun(DefaultParams, InitialTracker([], "", "", ""), [], None)
      else RunLine(RunList(lines[..|lines| - 1], order), lines[|lines| - 1], order)
    }

    lemma RunListStep(lines: seq<string>, i: nat, order: seq<string>)
      requires KeysOf(order, mysteries) && Consistent() && i < |lines|
      ensures RunList(lines[..i + 1], order) == RunLine(RunList(lines[..i], order), lines[i], order)
    {
      assert lines[..i + 1][..i] == lines[..i];
    }

    /** The lines up to and including line i, given how line i reads. */
    lemma RunListRead(lines: seq<string>, i: nat, order: seq<string>, st: ListState)
      requires KeysOf(order, mysteries) && Consistent() && i < |lines|
      requires RunList(lines[..i], order).fatal.None?
      requires st == ReadLine(ListState(RunList(lines[..i], order).params, RunList(lines[..i], order).tracker, false), lines[i])
      ensures HasDefaults(st.params)
      ensures RunList(lines[..i + 1], order) ==
              if st.render then Rendered(st, RunList(lines[..i], order).renders, order)
              else ListRun(st.params, st.tracker, RunList(lines[..i], order).renders, None)
    {
      RunListStep(lines, i, order);
    }

    /** A fatal error ends the run: no later line changes anything. */
    lemma {:induction false} StoppedStays(lines: seq<string>, k: nat, order: seq<string>)
      requires KeysOf(order, mysteries) && Consistent() && k <= |lines|
      requires RunList(lines[..k], order).fatal.Some?
      ensures RunList(lines, order) == RunList(lines[..k], order)
      decreases |lines| - k
    {
      if k == |lines| {
        assert lines[..k] == lines;
      } else {
        var n := |lines| - 1;
        assert lines[..n][..k] == lines[..k];
        StoppedStays(lines[..n], k, order);
      }
    }

    /** The rendering half of one pass of `RenderList`'s loop: the tracker
        is prepared in place, the rosary is built, and the render is recorded;
        a structure that cannot be resolved gives the fatal message instead. */
    method RenderOne(s: StateTracker, params: map<string, string>, renders: seq<RenderRequest>, order: seq<string>)
      returns (renders': seq<RenderRequest>, fatal: Option<string>)
      requires IsOrderOf(order, mysteries) && Consistent() && HasDefaults(params)
      modifies s
      ensures ListRun(params, s.Snapshot(), renders', fatal) == Rendered(ListState(params, old(s.Snapshot()), true), renders, order)
    {
      var inputdirs := Split(params["idirs"], ',');
      s.inputDirs := inputdirs;
      s.outputDir := params["odir"];
      s.outputFilenameTemplate := params["ofilename"];
      s.format := params["format"];
      s.groupNum := 0;
      s.mysteryNum := 0;
      assert s.Snapshot() == Prepared(params, old(s.Snapshot()));
      var names := GroupsForRosary(params["groups"], params["mysteries"]);
      ConsistentKnown(names, order);
      var r := NewRosary(params["structure"], names, order);
      if r.Failure? {
        return renders, Some(r.error);
      }
      var g := Atoi(params["gap"]);
      var gap := if g.Some? then g.value else 5;
      renders' := renders + [RenderRequest(r.value, inputdirs, params["odir"], params["ofilename"], params["format"], gap, s.Snapshot())];
      fatal := None;
    }

    /** `RenderList`: read the lines in order, keeping the parameters and one
        tracker across them, and collect the renders they ask for; stop at
        the first structure that cannot be resolved (Go's `log.Fatalf`). */
    method RenderList(lines: seq<string>, order: seq<string>) returns (renders: seq<RenderRequest>, fatal: Option<string>)
      requires IsOrderOf(order, mysteries) && Consistent()
      ensures renders == RunList(lines, order).renders && fatal == RunList(lines, order).fatal
    {
      var params := DefaultParams;
      var s := new StateTracker([], "", "", "");
      renders, fatal := [], None;
      var i := 0;
      while i < |lines|
        invariant 0 <= i <= |lines|
        invariant HasDefaults(params) && fresh(s) && fatal.None?
        invariant RunList(lines[..i], order) == ListRun(params, s.Snapshot(), renders, None)
      {
        ghost var run := ListRun(params, s.Snapshot(), renders, None);
        var render;
        params, render := ReadListLine(s, params, lines[i]);
        ghost var st := ListState(params, s.Snapshot(), render);
        RunListRead(lines, i, order, st);
        if render {
          renders, fatal := RenderOne(s, params, renders, order);
          if fatal.Some? {
            assert RunList(lines[..i + 1], order) == ListRun(params, s.Snapshot(), renders, fatal);
            StoppedStays(lines, i + 1, order);
            return;
          }
        }
        i := i + 1;
      }
      assert lines[..i] == lines;
    }
  }

  lemma ConcatAssoc<T>(x: seq<T>, y: seq<T>, z: seq<T>)
    ensures (x + y) + z == x + (y + z)
  {
  }

  lemma OneKnown(g: GroupValue, mysteries: map<string, Mystery>)
    requires forall j | 0 <= j < |g.mysteries| :: Itoa(g.mysteries[j]) in mysteries
    ensures MysteriesKnown([g], mysteries)
  {
  }

  lemma CustomKnown(m: Mystery, mysteries: map<string, Mystery>)
    requires Itoa(m.num) in mysteries
    ensures MysteriesKnown([CustomGroup(m)], mysteries)
  {
    var g := CustomGroup(m);
    assert g.mysteries == [m.num];
  }

  lemma KnownAppend(a: seq<GroupValue>, b: seq<GroupValue>, mysteries: map<string, Mystery>)
    requires MysteriesKnown(a, mysteries) && MysteriesKnown(b, mysteries)
    ensures MysteriesKnown(a + b, mysteries)
  {
    var ab := a + b;
    forall i, j | 0 <= i < |ab| && 0 <= j < |ab[i].mysteries|
      ensures Itoa(ab[i].mysteries[j]) in mysteries
    {
      if i >= |a| {
        assert ab[i] == b[i - |a|];
      }
    }
  }

  // ---- RenderList: the line-by-line command reader ----

  /** The parameters `RenderList` starts from. */
  const DefaultParams: map<string, string> :=
    map["idirs" := "data", "odir" := "output", "ofilename" := "{{.GroupNum}} {{.Group}} Mysteries",
        "groups" := "All", "mysteries" := "", "structure" := "basic", "format" := "wav", "gap" := "5"]

  /** The keys a render reads, all present from the start. */
  predicate HasDefaults(params: map<string, string>) {
    "idirs" in params && "odir" in params && "ofilename" in params && "groups" in params &&
    "mysteries" in params && "structure" in params && "format" in params && "gap" in params
  }

  /** What one `RenderToFiles` call is given: the rosary, input directories,
      output directory, file-name template, format, gap, and the shared tracker. */
  datatype RenderRequest = RenderRequest(rosary: Rosary, inputDirs: seq<string>, outputDir: string,
                                         outputFilename: string, format: string, gap: int, tracker: Tracker)

  /** While a line is read: the parameters, the tracker, and the render flag. */
  datatype ListState = ListState(params: map<string, string>, tracker: Tracker, render: bool)

  /** Between lines: the parameters, the tracker, the renders asked for so
      far, and the fatal error that ended the run, if any. */
  datatype ListRun = ListRun(params: map<string, string>, tracker: Tracker, renders: seq<RenderRequest>, fatal: Option<string>)

  /** One space-separated token of a command line ('|' stands for a protected
      space): "key=value" (split at the first '=') sets the parameter;
      "structure" also asks for a render, and "filenum" or "outputfilenum"
      with a number n makes n the next output file's number. A bare "render"
      (any case) asks for a render; any other bare word is ignored. */
  function ReadPiece(st: ListState, raw: string): (r: ListState)
    ensures st.params.Keys <= r.params.Keys
  {
    var piece := ReplaceAll(raw, "|", " ");
    var pair := SplitFirst(piece, '=');
    if |pair| > 1 then SetParam(st, pair[0], pair[1])
    else if ToLower(pair[0]) == "render" then st.(render := true)
    else st
  }

  /** A "key=value" token. */
  function SetParam(st: ListState, key: string, value: string): (r: ListState)
    ensures r.params == st.params[key := value]
  {
    var st1 := st.(params := st.params[key := value]);
    if key == "structure" then st1.(render := true)
    else if key == "outputfilenum" || key == "filenum" then
      var fnum := Atoi(value);
      if fnum.Some? then st1.(tracker := st1.tracker.(outputFileNum := fnum.value - 1)) else st1
    else st1
  }

  /** The tokens of a line, read left to right. */
  function ReadPieces(st: ListState, pieces: seq<string>): (r: ListState)
    ensures st.params.Keys <= r.params.Keys
    decreases |pieces|
  {
    if |pieces| == 0 then st else ReadPiece(ReadPieces(st, pieces[..|pieces| - 1]), pieces[|pieces| - 1])
  }

  lemma ReadPiecesStep(st: ListState, pieces: seq<string>, j: nat)
    requires j < |pieces|
    ensures ReadPieces(st, pieces[..j + 1]) == ReadPiece(ReadPieces(st, pieces[..j]), pieces[j])
  {
    assert pieces[..j + 1][..j] == pieces[..j];
  }

  /** One line of a render list: a line starting with '#' is a comment; a
      line with '=' is a list of tokens separated by spaces, where "\\ " is a
      space inside a value; a line with '[' is an inline structure; any other
      line is "structure" or "structure,groups". The last two always ask for
      a render. */
  function ReadLine(st: ListState, line: string): (r: ListState)
    ensures st.params.Keys <= r.params.Keys
  {
    if HasPrefix(line, "#") then st
    else if Contains(line, "=") then ReadPieces(st, Split(ReplaceAll(line, "\\ ", "|"), ' '))
    else if Contains(line, "[") then st.(params := st.params["structure" := line], render := true)
    else
      var pair := Split(line, ',');
      var params := st.params["structure" := pair[0]];
      st.(params := if |pair| > 1 then params["groups" := pair[1]] else params, render := true)
  }

  /** The tracker as a render hands it on: directories, template and format
      from the parameters, group and mystery numbers back to 0, everything
      else (the output file number above all) as the earlier lines left it. */
  function Prepared(params: map<string, string>, t: Tracker): (r: Tracker)
    requires HasDefaults(params)
    ensures |r.inputDirs| >= 1 && Join(r.inputDirs, ',') == params["idirs"]
    ensures r.outputDir == params["odir"] && r.outputFilenameTemplate == params["ofilename"] && r.format == params["format"]
    ensures r.groupNum == 0 && r.mysteryNum == 0
    ensures r.outputFileNum == t.outputFileNum && r.lastFilename == t.lastFilename
    ensures r.(inputDirs := t.inputDirs, outputDir := t.outputDir, outputFilenameTemplate := t.outputFilenameTemplate,
               format := t.format, groupNum := t.groupNum, mysteryNum := t.mysteryNum) == t
  {
    JoinSplit(params["idirs"], ',');
    t.(inputDirs := Split(params["idirs"], ','), outputDir := params["odir"],
       outputFilenameTemplate := params["ofilename"], format := params["format"],
       groupNum := 0, mysteryNum := 0)
  }

  /** The gap parameter as a number, or 5 when it is not one. */
  function GapOf(s: string): (g: int)
    ensures MinInt64 <= g <= MaxInt64
    ensures Atoi(s).Some? ==> g == Atoi(s).value
    ensures Atoi(s).None? ==> g == 5
  {
    var g := Atoi(s);
    if g.Some? then g.value else 5
  }

  /** A value written for a render list: each space protected as "\\ ". */
  function Escape(v: string): string
    decreases |v|
  {
    if |v| == 0 then "" else (if v[0] == ' ' then "\\ " else [v[0]]) + Escape(v[1..])
  }

  /** A value with each space stood in for by '|', as a token holds it. */
  function Bar(v: string): (r: string)
    ensures ' ' !in r
    decreases |v|
  {
    if |v| == 0 then "" else [if v[0] == ' ' then '|' else v[0]] + Bar(v[1..])
  }

  /** Protecting the spaces and then reading them back as '|'. */
  lemma {:induction false} EscapeBar(v: string)
    requires '\\' !in v
    ensures ReplaceAll(Escape(v), "\\ ", "|") == Bar(v)
    decreases |v|
  {
    if |v| > 0 {
      EscapeBar(v[1..]);
      var e := Escape(v);
      if v[0] == ' ' {
        assert HasPrefix(e, "\\ ") && e[2..] == Escape(v[1..]);
      } else {
        ReplaceSkip([v[0]], Escape(v[1..]), "\\ ", "|");
      }
    }
  }

  /** Turning each '|' of a token back into a space restores the value. */
  lemma {:induction false} BarBack(v: string)
    requires '|' !in v
    ensures ReplaceAll(Bar(v), "|", " ") == v
    decreases |v|
  {
    if |v| > 0 {
      BarBack(v[1..]);
      var b := Bar(v);
      if v[0] == ' ' {
        assert HasPrefix(b, "|") && b[1..] == Bar(v[1..]);
      } else {
        ReplaceSkip([v[0]], Bar(v[1..]), "|", " ");
      }
      assert v == [v[0]] + v[1..];
    }
  }

  /** A parameter name that a line can set "name=value": no space, '|',
      backslash, '=', and it does not start a comment. */
  predicate PlainKey(key: string) {
    ' ' !in key && '|' !in key && '\\' !in key && '=' !in key && '#' !in key
  }

  /** A line "key=value", spaces in the value protected, is the one token
      "key=value" with '|' for the spaces. */
  lemma {:induction false} PairLine(st: ListState, key: string, v: string)
    requires PlainKey(key) && '|' !in v && '\\' !in v
    ensures ReadLine(st, key + "=" + Escape(v)) == ReadPiece(st, key + "=" + Bar(v))
  {
    var line := key + "=" + Escape(v);
    var head := key + "=";
    assert line == head + Escape(v);
    assert line[|key|] == '=';
    ContainsChar(line, '=');
    assert !HasPrefix(line, "#") by {
      if |key| > 0 { assert line[0] == key[0]; }
    }
    ReplaceSkip(head, Escape(v), "\\ ", "|");
    EscapeBar(v);
    var token := head + Bar(v);
    SplitNoSep(token, ' ');
    assert ReadPieces(st, [token]) == ReadPiece(ReadPieces(st, []), token);
  }

  /** Reading the token "key=value", with '|' for the spaces, is setting
      that parameter to the value with its spaces back. */
  lemma {:induction false} PairPiece(st: ListState, key: string, v: string)
    requires '|' !in key && '=' !in key && '|' !in v
    ensures ReadPiece(st, key + "=" + Bar(v)) == SetParam(st, key, v)
  {
    var token := key + "=" + Bar(v);
    ReplaceSkip(key + "=", Bar(v), "|", " ");
    BarBack(v);
    var piece := ReplaceAll(token, "|", " ");
    assert piece == key + "=" + v;
    SplitFirstAt(key, v, '=');
    assert SplitFirst(piece, '=') == [key, v];
  }

  /** One "name=value" line with the spaces of the value protected sets that
      parameter, spaces and all, and nothing else (a "structure" line also
      asks for a render). */
  lemma {:induction false} ProtectedValue(st: ListState, key: string, v: string)
    requires PlainKey(key) && key != "filenum" && key != "outputfilenum"
    requires '|' !in v && '\\' !in v
    ensures ReadLine(st, key + "=" + Escape(v)) ==
            st.(params := st.params[key := v], render := st.render || key == "structure")
  {
    PairLine(st, key, v);
    PairPiece(st, key, v);
  }

  /** "filenum=n" makes n the number of the next output file: the tracker's
      counter becomes n - 1, to be incremented when that file is opened. */
  lemma {:induction false} FileNumLine(st: ListState, n: int)
    requires MinInt64 <= n <= MaxInt64
    ensures ReadLine(st, "filenum=" + Itoa(n)) ==
            st.(params := st.params["filenum" := Itoa(n)], tracker := st.tracker.(outputFileNum := n - 1))
  {
    var v := Itoa(n);
    assert Escape(v) == v && Bar(v) == v && '|' !in v && '\\' !in v by {
      assert ' ' !in v;
      EscapePlain(v);
    }
    assert ReadLine(st, "filenum=" + v) == SetParam(st, "filenum", v) by {
      assert "filenum" + "=" == "filenum=";
      PairLine(st, "filenum", v);
      PairPiece(st, "filenum", v);
    }
    assert SetParam(st, "filenum", v) ==
           st.(params := st.params["filenum" := v], tracker := st.tracker.(outputFileNum := n - 1)) by {
      AtoiItoa(n);
    }
  }

  /** Escape and Bar leave a value without spaces as it is. */
  lemma {:induction false} EscapePlain(v: string)
    requires ' ' !in v
    ensures Escape(v) == v && Bar(v) == v
    decreases |v|
  {
    if |v| > 0 {
      EscapePlain(v[1..]);
      assert v == [v[0]] + v[1..];
    }
  }

  /** A line without '=' or '[' names a structure, and after a ',' the groups. */
  lemma {:induction false} StructureLine(st: ListState, name: string, groups: string)
    requires '=' !in name && '[' !in name && ',' !in name && '#' !in name
    requires '=' !in groups && '[' !in groups && ',' !in groups
    ensures ReadLine(st, name + "," + groups) ==
            st.(params := st.params["structure" := name]["groups" := groups], render := true)
    ensures ReadLine(st, name) == st.(params := st.params["structure" := name], render := true)
  {
    var line := name + "," + groups;
    ContainsChar(line, '=');
    ContainsChar(line, '[');
    assert !HasPrefix(line, "#") by {
      if |name| > 0 { assert line[0] == name[0]; } else { assert line[0] == ','; }
    }
    assert Join([name, groups], ',') == line by {
      assert Join([name, groups][1..], ',') == groups;
    }
    SplitJoin([name, groups], ',');
    ContainsChar(name, '=');
    ContainsChar(name, '[');
    assert !HasPrefix(name, "#") by {
      if |name| > 0 { assert name[0] in name; }
    }
    SplitNoSep(name, ',');
  }

  /** The gap round-trips through its decimal text; what is not a number is 5. */
  lemma {:induction false} GapRoundTrip(n: int, s: string)
    requires MinInt64 <= n <= MaxInt64
    requires Atoi(s).None?
    ensures GapOf(Itoa(n)) == n && GapOf(s) == 5
  {
    AtoiItoa(n);
  }

  /** The reading half of one pass of `RenderList`'s loop: the parameters
      are updated in place, and a file number is written straight into the
      shared tracker. */
  method ReadListLine(s: StateTracker, params: map<string, string>, line: string)
    returns (params': map<string, string>, render: bool)
    modifies s
    ensures ListState(params', s.Snapshot(), render) == ReadLine(ListState(params, old(s.Snapshot()), false), line)
  {
    params', render := params, false;
    if HasPrefix(line, "#") {
      return;
    }
    if Contains(line, "=") {
      var protected := ReplaceAll(line, "\\ ", "|");
      var pieces := Split(protected, ' ');
      ghost var st0 := ListState(params, s.Snapshot(), false);
      var j := 0;
      while j < |pieces|
        invariant 0 <= j <= |pieces|
        invariant ListState(params', s.Snapshot(), render) == ReadPieces(st0, pieces[..j])
      {
        ReadPiecesStep(st0, pieces, j);
        params', render := ReadListPiece(s, params', render, pieces[j]);
        j := j + 1;
      }
      assert pieces[..j] == pieces;
    } else if Contains(line, "[") {
      params', render := params["structure" := line], true;
    } else {
      var pair := Split(line, ',');
      params' := params["structure" := pair[0]];
      if |pair| > 1 {
        params' := params'["groups" := pair[1]];
      }
      render := true;
    }
  }

  /** One token of an '=' line, read in place: the parameter is set, and a
      file number goes straight into the shared tracker. */
  method ReadListPiece(s: StateTracker, params: map<string, string>, render: bool, raw: string)
    returns (params': map<string, string>, render': bool)
    modifies s
    ensures ListState(params', s.Snapshot(), render') == ReadPiece(ListState(params, old(s.Snapshot()), render), raw)
  {
    params', render' := params, render;
    var piece := ReplaceAll(raw, "|", " ");
    var pair := SplitFirst(piece, '=');
    if |pair| > 1 {
      params' := params'[pair[0] := pair[1]];
      if pair[0] == "structure" {
        render' := true;
      } else if pair[0] == "outputfilenum" || pair[0] == "filenum" {
        var fnum := Atoi(pair[1]);
        if fnum.Some? {
          s.outputFileNum := fnum.value - 1;
        }
      }
    } else if ToLower(pair[0]) == "render" {
      render' := true;
    }
  }

  /** `strings.Replace` three times: the inline list with every '[', ']' and
      '"' removed. */
  function Unbracket(s: string): (r: string)
    ensures '[' !in r && ']' !in r && '"' !in r
  {
    var a := ReplaceAll(s, "[", "");
    var b := ReplaceAll(a, "]", "");
    var c := ReplaceAll(b, "\"", "");
    RemovedChars(s, '[');
    RemovedChars(a, ']');
    RemovedChars(b, '"');
    c
  }

  /** Groups whose structure says no prayer per group or per mystery add no prayers. */
  lemma {:induction false} NoPrayersPerGroup(groups: seq<GroupValue>)
    ensures GroupedCount(groups, 0, 0) == 0
    decreases |groups|
  {
    if |groups| > 0 {
      NoPrayersPerGroup(groups[..|groups| - 1]);
    }
  }
}
