# rosarygen, the rosary-assembly core, in Dafny

rosarygen assembles spoken-rosary audio from recorded prayers. This project
models its sequential core and proves properties of it:

- **Structures and rosaries.** A *structure* lists prayer keys for the
  preamble, for each group, for each mystery and for the postamble. Together
  with a list of mystery *groups* (joyful, sorrowful, ...) it is expanded into
  a *rosary*: preamble prayers, one *decade* per group, postamble prayers.
- **Flattening and walking.** A rosary is flattened into its list of prayers
  (`GetPrayers`). It is also walked file by file (`ForEachFile`), with one
  shared `StateTracker` whose counters and labels (group, mystery, ordinal
  word, file numbers) change at every level. Each file goes to a callback.
- **Prayers and options.** A prayer is a tree of alternative recordings. The
  user's option table picks a branch, and the choice defaults to 1.
- **Callbacks.** Two callbacks consume a walk:
  - one reports each missing file once;
  - one groups the input files by output file.
- **The generator.** It selects groups (`all`, `old`, `custom`, or a single
  group or mystery). It resolves a structure name: a structure, else a single
  prayer, else an inline `[a,b]` list. It also reads render lists line by line.
- **Merging.** Tables loaded later are merged over earlier ones.
- **Audio bookkeeping.** The integer and list parts of the processors:
  - tone-pattern expansion and stretching;
  - the wrapping step indices of a tone pattern;
  - the Goertzel filter's counters and the round robin of the cycling filter;
  - the processor stack;
  - the construction of a harmonic tone.

The Dafny form follows the Go form of each piece of code:
- Go structs whose fields are updated in place are classes with `modifies` clauses. These are:
  - `StateTracker`, `Options`, `Structure` and `Group`;
  - the merge `Table`;
  - the two callback closures (`MissingFileReporter`, `FileGrouper`);
  - `TonePattern`, `GoertzelFilter`, `CyclingGoertzelFilter`, `Stack` and `HarmonicTone`.
- Values built once and only read are datatypes: `Prayer`, `Mystery`, `Decade`, `Rosary` and the loaded `Generator`.
- Each loop is a method. Its `ensures` states the result, or the new state, as a pure fold:
  - `PrayerWalk`, `DecadeWalk` and `RosaryWalk` for the walks;
  - `RunList` for the render list;
  - `Expanded` and `Stretched` for the tone patterns;
  - `StepAfter` and `Consumed` for the tone-pattern steps.

  Lemmas then prove the properties on those folds.

Code that the model cannot compute becomes a parameter:
- The `Host` datatype stands for:
  - Go's `text/template` execution;
  - `filepath.Join`;
  - `os.Stat`.
- `cosTurn` stands for `cos(2π·x)`.
- Go's map iteration order in `FindMystery` and `RenderList` is an explicit
  `order` list of the table's keys.

Errors follow the Go code:
- A Go panic (nil dereference, index out of range, negative `make`) is a precondition.
- `log.Fatalf` is a `Failure` result, or a fatal message that ends the render list.

Modules, one per Go file:
- `Tracking` (statetracker.go), `PrayerOptions` (options.go), `Structures` (structure.go);
- `Prayers` (prayer.go, and filestack.go's `FileStack.AddFilename`);
- `Rosaries` (rosary.go), `Generators` (generator.go), `Merging` (parsers.go), `Processors` (processor.go);
- `Basics` (Option and Result) and `Strings` (the parts of Go's `strings` and `strconv` used).

## Model

| member | source | states |
|---|---|---|
| Tracking.Tracker.Apply | statetracker.go:74-85 | a name without "{{" is returned unchanged; one with "{{" is the template executed on the tracker |
| Tracking.Tracker.ComputedFilename | statetracker.go:64 | a template without "{{" names the file literally: output directory joined with template "." format |
| Tracking.Tracker.Updated | statetracker.go:63-72 | the output file number rises by one exactly when the computed name differs from the last one, and nothing but the number and the last name can change |
| Tracking.Tracker.XthGroupMystery | statetracker.go:132-141 | "Preamble" and "Postamble" stand for themselves; any other group gives `<ordinal> <group> Mystery` |
| Tracking.Tracker.XofGroup | statetracker.go:143-152 | "Preamble" and "Postamble" stand for themselves; any other group gives `<ordinal> Of <group>` |
| Tracking.Tracker.ZeroFileNum | statetracker.go:162-164 | the output file number formatted as `ZeroNum(n, 3)`, i.e. `%03d` |
| Tracking.Tracker.CDTrack | statetracker.go:166-168 | the number padded to two digits, a space, then exactly the XthGroupMystery label |
| Tracking.InitialTracker | statetracker.go:38-61 | group "Preamble", GroupNum 1, every other counter 0, all labels and LastFilename empty, the directories, template and format as given |
| Tracking.NumWord | statetracker.go:99-126 | empty exactly for 0; starts with '-' exactly for negative numbers; 1..10 give capitalised words; other numbers end in a digit |
| Tracking.NumWordCases | statetracker.go:99-126 | 0 is "", 1..10 are "First".."Tenth", every other number is its decimal form |
| Tracking.NumWordInjective | statetracker.go:99-126 | different numbers never get the same word |
| Tracking.ZeroNum | statetracker.go:158-160 | never shorter than the width or than the decimal form; a '-' first exactly for negatives; digits after the first character |
| Tracking.ZeroNumShape | statetracker.go:158-160 | for num >= 0: exactly max(width, digits) characters, the decimal form at the end, zeros before it, never truncated |
| Tracking.PaddedValue | statetracker.go:158-160 | zero padding keeps a digit string's value |
| Tracking.ZeroNumParses | statetracker.go:158-164 | the padded form reads back (strconv.Atoi) as the same number, negatives included |
| Tracking.StateTracker.constructor | statetracker.go:38-61 | the new tracker's fields are exactly InitialTracker |
| Tracking.StateTracker.UpdateFilename | statetracker.go:63-72 | returns true iff the computed name differs from LastFilename; then OutputFileNum rises by exactly 1 and LastFilename is the name computed after the increment; otherwise no field changes; the new state is Tracker.Updated |
| Tracking.StateTracker.SetDecadeNumWord | statetracker.go:128-130 | DecadeNumWord becomes NumWord(num), nothing else changes |
| Tracking.StateTracker.MatchActualFile | statetracker.go:87-97 | found exactly when FirstFound finds the file, with its path: the first input directory, in order, that holds the file, none earlier holding it; not found: the bare name, and no directory holds it |
| Tracking.FirstFound | statetracker.go:88-95 | finds a path exactly when some directory holds the file; the path exists and is the join of the first such directory |
| Tracking.NotFoundMessage | statetracker.go:96 | the message starts "File '" and quotes the name whole, 45 fixed characters around it |
| Tracking.NotFoundInjective | statetracker.go:96 | different missing names give different messages |
| PrayerOptions.Options.constructor | options.go:11-15 | empty table; every prayer gets the default choice 1 |
| PrayerOptions.Options.AddOption | options.go:17-19 | the prayer's choice becomes `choice`; every other prayer's answer is unchanged |
| PrayerOptions.Options.GetOption | options.go:21-28 | the stored choice when present, 1 otherwise |
| PrayerOptions.Options.Provider | options.go:3-5 | the table seen as an OptionProvider answers as GetOption does |
| PrayerOptions.AddOptionTwice | options.go:17-19 | two AddOption calls on the same prayer: the last one wins, other prayers unchanged |
| Structures.PrayerStructure | structure.go:25-34 | key = name = the prayer, preamble [prayer], the other lists empty |
| Structures.PrayersStructure | structure.go:36-47 | the preamble is the comma split: at least one piece, joined with ',' it gives back the argument, no piece holds ','; key and name are the first piece |
| Structures.Structure.constructor | structure.go:14-23 | given key and name, all four lists empty |
| Structures.Structure.ForPrayer | structure.go:25-34 | the fields are PrayerStructure(prayer) |
| Structures.Structure.ForPrayers | structure.go:36-47 | the fields are PrayersStructure(prayers) |
| Structures.Structure.AddPreamble | structure.go:49-51 | appends to the preamble; every other field unchanged |
| Structures.Structure.AddGroup | structure.go:53-55 | appends to the per-group list; every other field unchanged |
| Structures.Structure.AddMystery | structure.go:57-59 | appends to the per-mystery list; every other field unchanged |
| Structures.Structure.AddPostamble | structure.go:61-63 | appends to the postamble; every other field unchanged |
| Prayers.Prayer.AddOption | prayer.go:42-44 | one alternative appended at the end; the old ones keep their places; no other field changes |
| Prayers.Prayer.AddFilename | prayer.go:46-48 | one file appended at the end; the old ones keep their places; no other field changes |
| Prayers.GetChosenFilenames | prayer.go:50-70 | never empty (by induction over the option tree) |
| Prayers.ChosenCases | prayer.go:52-68 | no options: the files, or [Filename] when there are none; a choice within range: the chosen alternative's result; a choice past the end: [Filename] |
| Prayers.ChosenInTree | prayer.go:50-70 | every chosen file is a file of the prayer's own option tree |
| Prayers.Prayer.ForEachFile | prayer.go:72-84 | the tracker and the calls are those of PrayerWalk from the old tracker |
| Prayers.CountFile | prayer.go:76-80 | InputFileNum up by one, HailMaryNum up by one only for "hailmary", Prayer set to the key |
| Prayers.VisitFilesFacts | prayer.go:75-83 | one call per file, in order; each sees the prayer and the counters advanced by one per file; the i-th call gets the i-th file with the template applied |
| Prayers.PrayerWalkFacts | prayer.go:72-84 | PrayerNum +1, InputFileNum + the number of chosen files, HailMaryNum + that number exactly for "hailmary", Prayer = key, nothing else changes; one call per chosen file, in order |
| Prayers.WalkPrayers | rosary.go:82-84 | walking a list of prayers in place equals the fold PrayersWalk |
| Prayers.VisitsAppend | rosary.go:46-58 | the visits of a concatenation are the concatenated visits |
| Prayers.VisitsPresent | prayer.go:72-84 | every prayer handed to the callback is one of the list's (non-nil) prayers |
| Prayers.VisitsConcat | rosary.go:82-95 | two walks in a row visit the two lists in a row |
| Prayers.PrayersOf | prayer.go:82 | the prayers carried by the calls, one per call |
| Prayers.PrayersOfAppend | prayer.go:82 | the prayers of concatenated calls are concatenated |
| Prayers.PrayersWalkVisits | prayer.go:72-84 | walking a list hands the callback exactly each prayer once per chosen file, in order |
| Prayers.CallsAtAppend | prayer.go:72-84 | calls at one place, concatenated, stay at that place |
| Prayers.CallsAtTrans | prayer.go:72-84 | being at the same place carries over from tracker to calls |
| Prayers.PrayerWalkAt | prayer.go:72-84 | a prayer's walk changes only the per-prayer counters, during the walk and after it |
| Prayers.PrayersWalkPlace | prayer.go:72-84 | PrayerNum + number of prayers, InputFileNum + number of files, and the place in the rosary stays the same, during the walk and after it |
| Prayers.NumberedAppend | prayer.go:76 | consecutive numbering carries over a concatenation |
| Prayers.PrayersWalkNumbered | prayer.go:76 | the i-th call of a walk sees InputFileNum start + i + 1, and the walk ends one higher per call |
| Prayers.PrayerWalkNumbered | prayer.go:76 | the same for one prayer |
| Prayers.HailMarysAppend | prayer.go:77-79 | the Hail Mary count of a concatenation is the sum of the counts |
| Prayers.HailMarysSame | prayer.go:77-79 | n visits of one prayer are n Hail Marys exactly when its key is "hailmary", else none |
| Prayers.HailMaryCountedAppend | prayer.go:77-79 | the Hail Mary numbering carries over a concatenation |
| Prayers.PrayerWalkHailMarys | prayer.go:77-79 | each call of a prayer's walk sees HailMaryNum = start + the Hail Marys up to and including it |
| Prayers.PrayersWalkHailMarys | prayer.go:77-79 | the same for a list of prayers, at every call and at the end |
| Prayers.MissingFileReporter.constructor | prayer.go:119-120 | nothing reported yet |
| Prayers.MissingFileReporter.Accept | prayer.go:121-133 | the "" sentinel and names already reported change nothing; a new name whose "<name>.<format>" is in no input directory is recorded, and reported once with the not-found message for that file; a file that is found is not reported; no name is ever recorded twice |
| Prayers.FileStack.AddFilename | filestack.go:28-30 | the file appended at the end, the output name unchanged |
| Prayers.FileGrouper.constructor | prayer.go:94-95 | no stack yet, nothing sent, channel open |
| Prayers.FileGrouper.Accept | prayer.go:96-116 | "" after the first call: the last stack is sent, the channel closed, the tracker untouched; otherwise the tracker is exactly what UpdateFilename leaves, the stack is a new one named after the new output file on the first call or a changed name (the old one sent) and the old stack otherwise, and gets the path FirstFound gives appended when there is one |
| Rosaries.Mystery.GetPrayers | rosary.go:172-178 | the mystery's prayers, in order |
| Rosaries.Mystery.ForEachFile | rosary.go:180-189 | the tracker and calls are MysteryWalk's: number, name and "name Mystery" set, HailMaryNum 0 before and after the prayers |
| Rosaries.Decade.GetPrayers | rosary.go:112-121 | the group prayers, then each mystery's prayers in order; length = group + sum of the mysteries' lengths |
| Rosaries.Decade.ForEachFile | rosary.go:123-151 | the tracker and calls are DecadeWalk's from the old tracker |
| Rosaries.Rosary.GetPrayers | rosary.go:46-58 | preamble ++ each decade's prayers in order ++ postamble |
| Rosaries.Rosary.ForEachFile | rosary.go:60-96 | the calls equal RosaryWalk's from a fresh tracker |
| Rosaries.MysteriesPrayersCount | rosary.go:117-119 | the mysteries' prayers together are as many as their lengths add up to |
| Rosaries.Group.constructor | rosary.go:198-205 | order, key and name as given, no mysteries |
| Rosaries.Group.AddMystery | rosary.go:207-209 | appends a mystery number; nothing else changes |
| Rosaries.Lookup | rosary.go:22 | a key present gives its prayer, an absent key gives nil (None) |
| Rosaries.LookupAll | rosary.go:21-29 | one lookup per key, same order and length |
| Rosaries.NewRosary | rosary.go:14-44 | preamble and postamble are the structure's keys looked up, same order and length; one decade per group, in order, named after it, with the group prayers looked up, one mystery per mystery number (number and name from the table), each with the structure's mystery keys looked up |
| Rosaries.NewRosaryPrayerCount | rosary.go:14-58 | the flattened rosary has one entry per preamble key, per group key of every group, per mystery key of every mystery, and per postamble key |
| Rosaries.UniformPrayerCount | rosary.go:112-121 | mysteries of equal length k: k times their number |
| Rosaries.DecadesCount | rosary.go:30-42 | the built decades' prayers count group keys per group plus mystery keys per mystery |
| Rosaries.WalkMysteries | rosary.go:142-146 | the mystery loop in place equals MysteriesWalk, the j-th mystery walked with NumWord(j) |
| Rosaries.WalkPostamble | rosary.go:88-94 | group "Postamble", GroupNum +1, MysteryNum 0, Mystery ""; then the postamble prayers |
| Rosaries.EnterDecade | rosary.go:124-138 | GroupNum +1, the decade's name, HailMaryNum 0, "First", and the first mystery (or none) named |
| Rosaries.NameMystery | rosary.go:130-133 | number, name, and name + " Mystery"; nothing else changes |
| Rosaries.ClearMystery | rosary.go:147-149 | number 0, name and phrase empty; nothing else changes |
| Rosaries.DecadesWalkStep | rosary.go:85-87 | one more decade of the loop |
| Rosaries.WalkDecades | rosary.go:85-87 | the decade loop in place equals DecadesWalk |
| Rosaries.MysteryWalkFacts | rosary.go:180-189 | every call sees the mystery named, HailMaryNum counts only this mystery's Hail Marys and is 0 at the end; group and ordinal word do not move |
| Rosaries.NamedMysteryCalls | rosary.go:181-187 | calls made after naming the mystery are in that mystery |
| Rosaries.MysteriesWalkState | rosary.go:142-146 | the mystery loop stays in its group |
| Rosaries.SameGroupStep | rosary.go:142-146 | staying in the group carries over one mystery |
| Rosaries.MysteriesWalkCalls | rosary.go:142-146 | every call names one of the decade's mysteries together with its own ordinal word NumWord(j + 1) |
| Rosaries.CallsInMysteriesAppend | rosary.go:142-146 | the calls of the first mysteries and of the last one are calls of the whole loop |
| Rosaries.InMysteriesLast | rosary.go:142-146 | a tracker in the last mystery is in the loop |
| Rosaries.InMysteriesPrefix | rosary.go:142-146 | a tracker in the first mysteries is in the loop |
| Rosaries.DecadeWalkState | rosary.go:123-151 | after a decade: GroupNum +1, Group = the decade's name, MysteryNum 0, Mystery, MysteryPhrase and DecadeNumWord "" |
| Rosaries.DecadeEndStep | rosary.go:147-150 | the clearing at the end of a decade |
| Rosaries.DecadeWalkCalls | rosary.go:123-151 | every call is in the decade's group and number, with a mystery of the decade named by its own ordinal word |
| Rosaries.GroupCallsInDecade | rosary.go:139-141 | the group prayers are said with the first mystery and "First" named |
| Rosaries.MysteryCallsInDecade | rosary.go:142-146 | the mystery calls are in the decade |
| Rosaries.CallsInDecadeAppend | rosary.go:139-146 | calls in a decade, concatenated, stay in it |
| Rosaries.DecadesWalkState | rosary.go:85-87 | GroupNum rises by one per decade; the mystery fields are left cleared |
| Rosaries.DecadesWalkCalls | rosary.go:85-87 | every call is in one of the decades, with its name and group number |
| Rosaries.CallsInDecadesAppend | rosary.go:85-87 | calls of the first decades and of the last one are calls of the loop |
| Rosaries.MysteryWalkCounts | rosary.go:180-189 | a mystery walk visits its prayers and numbers its files consecutively |
| Rosaries.MysteriesWalkCounts | rosary.go:142-146 | the mystery loop visits the mysteries' prayers and numbers its files consecutively |
| Rosaries.DecadeWalkCounts | rosary.go:123-151 | a decade walk visits exactly Decade.GetPrayers and numbers its files consecutively |
| Rosaries.DecadesWalkCounts | rosary.go:85-87 | the decade loop visits the decades' prayers and numbers its files consecutively |
| Rosaries.RosaryWalkCounts | rosary.go:46-96 | the calls carry exactly Rosary.GetPrayers (each once per chosen file, in order) and then ("", nil, nil), the only call without a prayer, which comes last; InputFileNum numbers the files 1, 2, 3, ... |
| Rosaries.FinalCall | rosary.go:95 | the final call comes after all the others and is the only one without a prayer |
| Rosaries.RosaryWalkPhases | rosary.go:60-96 | preamble in group "Preamble" number 1, the i-th decade as number i + 2, the postamble as "Postamble" number len(Decades) + 2 with MysteryNum 0, no mystery outside the decades, then the final call |
| Rosaries.PreambleCalls | rosary.go:82-84 | the preamble calls are in group "Preamble" number 1 |
| Rosaries.DecadesCallsFromStart | rosary.go:85-87 | the decade calls belong to the run begun by the fresh tracker |
| Rosaries.PostambleCalls | rosary.go:88-94 | the postamble calls are in group "Postamble" number len(Decades) + 2 |
| Rosaries.Phases | rosary.go:82-95 | the four parts of a walk in order |
| Generators.GroupsForRosary | generator.go:75-86 | at least one name, all lower case |
| Generators.GroupsCaseInsensitive | generator.go:76 | the keyword and the mysteries list are read without regard to case |
| Generators.CustomGroups | generator.go:81-82 | "custom": the lower-cased mysteries list split at ','; joined again it gives the list back, and no name holds ',' |
| Generators.SingleGroup | generator.go:83-84 | any other word gives just itself, lower-cased |
| Generators.FirstNamed | generator.go:66-73 | a mystery found has the lower-cased name asked for and is in the table |
| Generators.FirstNamedFirst | generator.go:66-73 | found: the first mystery in iteration order whose name matches; none: no mystery of the table matches |
| Generators.Generator.FindMystery | generator.go:66-73 | the loop equals FirstNamed; found means the lower-cased name matches, nil means no mystery matches |
| Generators.Generator.GroupsFor | generator.go:90-101 | each name gives at most one group |
| Generators.Generator.ActualGroupsStep | generator.go:90-102 | one more name appends its groups |
| Generators.Generator.ActualGroupsOne | generator.go:91-100 | a group key gives its group; else a mystery name gives a one-mystery "Custom" group (order -1) for the first mystery of that name; else nothing |
| Generators.Generator.ActualGroupsAppend | generator.go:90-102 | names are handled in order: the groups of a concatenation are the concatenated groups, so kept names keep their relative order |
| Generators.Generator.ActualGroupsLast | generator.go:90-102 | the last name's groups come last |
| Generators.Generator.ActualGroupsAtMost | generator.go:90-102 | no more groups than names |
| Generators.Generator.ConsistentKnown | generator.go:89-102 | on a consistent configuration every collected group's mysteries are in the table |
| Generators.Generator.GroupsForKnown | generator.go:91-100 | the same for one name |
| Generators.Generator.ResolveStructure | generator.go:103-121 | fatal exactly when the name is no structure, no prayer and has no '[', with the message "Structure X not found.\n" |
| Generators.Generator.StructureFirst | generator.go:103-121 | a structure key is used first, even when a prayer has the same key |
| Generators.Generator.NewRosary | generator.go:88-122 | the built rosary, or fatal, equals RosaryFor: the groups collected, then the structure resolved |
| Generators.Generator.SinglePrayerRosary | generator.go:103-118 | a prayer key gives a rosary that says exactly that prayer |
| Generators.Generator.InlineListRosary | generator.go:107-112 | "[a,b]" gives a rosary that says the listed keys in order, once each |
| Generators.Generator.InlineListKeys | generator.go:107-112 | inline keys hold no bracket, quote or comma, and joined they give the list without brackets and quotes |
| Generators.Generator.Rendered | generator.go:189-206 | the tracker takes the current directories, template and format, with GroupNum and MysteryNum 0; a render is appended exactly when the structure resolves, fatal otherwise |
| Generators.Generator.RunLine | generator.go:145-209 | the parameter defaults are never lost |
| Generators.Generator.RunList | generator.go:124-209 | the parameter defaults are never lost |
| Generators.Generator.RunListStep | generator.go:145-209 | one more line of the list |
| Generators.Generator.RunListRead | generator.go:146-208 | the state after a line, given how it reads |
| Generators.Generator.StoppedStays | generator.go:114 | after a fatal error no later line changes anything |
| Generators.Generator.RenderOne | generator.go:189-206 | one render in place equals Rendered |
| Generators.Generator.RenderList | generator.go:124-209 | the renders and the fatal error equal RunList's on the lines, from the default parameters and a fresh tracker |
| Generators.ReadPiece | generator.go:155-172 | the parameter keys only grow |
| Generators.SetParam | generator.go:157-169 | the parameter is set; "structure" asks for a render; "filenum"/"outputfilenum" with a number n sets OutputFileNum to n - 1 |
| Generators.ReadPieces | generator.go:154-174 | the parameter keys only grow |
| Generators.ReadPiecesStep | generator.go:154-174 | tokens are read left to right |
| Generators.ReadLine | generator.go:146-188 | the parameter keys only grow |
| Generators.Bar | generator.go:152 | a protected value holds no space |
| Generators.EscapeBar | generator.go:152 | a protected space (backslash, space) in a line becomes a bar character |
| Generators.BarBack | generator.go:155 | turning each bar character back into a space restores the value |
| Generators.PairLine | generator.go:150-156 | a line "key=value" with protected spaces is one token |
| Generators.PairPiece | generator.go:155-158 | reading that token sets the parameter to the value, spaces restored |
| Generators.ProtectedValue | generator.go:150-162 | "name=value" with spaces protected sets exactly that parameter, spaces and all; "structure" also asks for a render |
| Generators.FileNumLine | generator.go:163-168 | "filenum=n" sets the parameter and makes OutputFileNum n - 1 |
| Generators.EscapePlain | generator.go:152-155 | values without spaces pass unchanged |
| Generators.StructureLine | generator.go:179-188 | "name,groups" sets structure and groups; "name" sets structure only; both ask for a render |
| Generators.GapRoundTrip | generator.go:199-202 | a numeric gap reads as itself; anything else is 5 |
| Generators.GapOf | generator.go:199-202 | what strconv.Atoi reads when it reads a number, otherwise 5; always within 64 bits |
| Generators.Prepared | generator.go:190-197 | input directories whose comma-join is the idirs parameter; output directory, template and format from the parameters; group and mystery numbers 0; output file number and last name kept; nothing else changes |
| Generators.ReadListLine | generator.go:146-188 | reading one line in place equals ReadLine |
| Generators.ReadListPiece | generator.go:155-172 | one token read in place equals ReadPiece: the parameter and the tracker's output file number as that function says |
| Generators.Unbracket | generator.go:109-111 | no '[', ']' or '"' is left |
| Generators.NoPrayersPerGroup | rosary.go:27-40 | with no per-group or per-mystery keys, groups add no prayers |
| Merging.Table.constructor | parsers.go:150 | the table holds the given entries |
| Merging.Merge | parsers.go:150-176 | the same table is returned, updated in place: b's keys map to b's values, a's other keys keep a's values, no other key appears |
| Merging.Restrict | parsers.go:151-153 | the entries of the keys merged so far |
| Merging.MergeIdempotent | parsers.go:150-176 | merging b twice is merging it once |
| Merging.MergeTwice | parsers.go:150-155 | two merges of the same table leave what one merge leaves |
| Processors.Trunc | processor.go:369 | Go's int(f): the integer next to f toward zero, within 1 of it |
| Processors.Count | processor.go:369 | the number of inner-loop runs: 0 exactly when the count is below 1, otherwise its integer part |
| Processors.Repeat | processor.go:369-371 | n copies of the value |
| Processors.MakeTonePattern | processor.go:366-374 | the loop builds Expanded(steps) |
| Processors.ExpandedLength | processor.go:366-374 | the length is the sum of the truncated counts |
| Processors.ExpandedAppend | processor.go:368-372 | pairs expand one after the other, in order |
| Processors.ExpandedFront | processor.go:368-372 | the first value comes first, as often as its truncated count says |
| Processors.ExpandedValues | processor.go:368-372 | every entry is one of the values, never a count |
| Processors.ExpandedExample | processor.go:362-365 | [1, 5, 0, 5] gives five 1s, then five 0s |
| Processors.StretchTonePattern | processor.go:376-384 | the buffer equals Stretched(x, steps); a negative x only with no steps, giving [] |
| Processors.StretchedLength | processor.go:377 | len(steps)·x entries |
| Processors.StretchedAppend | processor.go:378-382 | steps stretch one after the other |
| Processors.StretchedBlock | processor.go:379-381 | out[k·x + i] = steps[k] / x for every i < x |
| Processors.StretchedBlockSum | processor.go:379-381 | over the reals each block adds up to steps[k] |
| Processors.SumShare | processor.go:380 | x shares of s/x add up to s |
| Processors.StretchedSum | processor.go:376-384 | the whole stretched pattern adds up to the same total |
| Processors.StepAfter | processor.go:340-343 | the step index stays inside the list |
| Processors.StepAfterMod | processor.go:340-343 | the wrapped index is (start + count) mod len |
| Processors.ConsumedSplit | processor.go:338-355 | consuming in two runs equals consuming in one, the second starting where the first stopped |
| Processors.StepAfterSplit | processor.go:338-355 | the same for the index |
| Processors.TonePattern.Symmetric | processor.go:358-360 | the same list on both channels, indices and values 0 |
| Processors.TonePattern.Process | processor.go:337-356 | indices stay inside their lists and advance by one per written sample, wrapping; even entries get the left value plus the left steps consumed so far, odd entries the right one; each value ends as the old value plus the steps it consumed |
| Processors.Channel | processor.go:338-355 | one channel's loop: every second entry from the first gets the running value, the index wraps, other entries are untouched |
| Processors.Fed | processor.go:407-415 | n + 1, sPrev2 takes sPrev, and from a valid state the energy is positive |
| Processors.FedEnergy | processor.go:412-415 | the total energy never decreases, and it grows by exactly sample² whenever that sum is positive |
| Processors.GoertzelFilter.constructor | processor.go:419-424 | normFreq = freq / sampleRate, coeff = 2·cos(2π·normFreq), running state cleared |
| Processors.GoertzelFilter.Zero | processor.go:399-404 | s_prev, s_prev2, totalpower and n are cleared; Freq, SampleRate, normFreq and coeff stay |
| Processors.GoertzelFilter.Calculate | processor.go:406-417 | the new state is Fed; afterwards n >= 1 and totalpower > 0, so the division is defined; the result is the reported power of the new state |
| Processors.NextActive | processor.go:439-453 | the active filter stays in range; it moves only when the count returns to 0; a count within the period stays within it |
| Processors.RotationPeriod | processor.go:446-453 | after k full periods of ResetEvery samples the active index is (active + k) mod len and the count is 0 |
| Processors.RunCounterSplit | processor.go:439-453 | running the counter in two parts equals running it at once |
| Processors.OnePeriod | processor.go:446-453 | from a count below the period the active filter stays until the period ends, then moves on |
| Processors.CyclingGoertzelFilter.constructor | processor.go:457-464 | count fresh, distinct, cleared filters, each with the given frequency and sample rate, normFreq = freq / sampleRate and coeff = 2·cos(2π·normFreq); active 0, num 0 |
| Processors.CyclingGoertzelFilter.Calculate | processor.go:436-455 | every filter takes the sample; the active one's power is returned; (active, num) move as NextActive says, staying in range; at the reset the filter left is cleared; Freq, SampleRate and every filter's frequency, sample rate, normFreq and coeff stay; with no filters the result is 0 |
| Processors.CyclingGoertzelFilter.Rotate | processor.go:446-453 | the active filter cleared, num 0, active advanced, wrapping to 0; Freq, SampleRate and every filter's configuration stay |
| Processors.FeedAll | processor.go:440-445 | every filter is fed the sample in turn, keeping its frequency, sample rate, normFreq and coeff; the active filter's power is kept, and 0 when no filter is active |
| Processors.Stack.constructor | processor.go:552-556 | the stack holds exactly [p] |
| Processors.Stack.Add | processor.go:558-560 | p goes last, the others keep their order |
| Processors.PowerTwoAbove | processor.go:323 | 2^e >= 1 and 2^e - 1 >= 2^(e-1), so the volume scale is defined |
| Processors.VolScaleBounds | processor.go:323 | the volume scale lies in (0, 1] and is 1 for one harmonic |
| Processors.HarmonicTone.constructor | processor.go:316-326 | step and phase have length num, phases 0, the steps as SetFreq computes them, the volume scale 2^(num-1) / (2^num - 1); vibrato distance, rate, step, extent and position all 0 |
| Processors.HarmonicTone.SetFreq | processor.go:293-299 | the frequency is set and each step[i] is (freq·(i+1)·distance^i) / sampleRate; the phases, volume scale and every vibrato field stay |
| Strings.Split | structure.go:37 | at least one piece, none holding the separator |
| Strings.JoinSplit | structure.go:37 | joining the pieces gives back the string |
| Strings.Join | structure.go:37 | the joined string starts with the first piece, followed by the separator when there are more |
| Strings.SplitJoin | generator.go:182 | splitting a join of separator-free pieces gives back the pieces |
| Strings.SplitFirst | generator.go:156 | no separator: the string itself; otherwise two parts around the first separator |
| Strings.PrefixSplit | generator.go:147 | a string has the prefix exactly when it is the prefix followed by the rest |
| Strings.ContainsAt | statetracker.go:75 | t occurs in s exactly when some suffix of s starts with t; then t is no longer than s |
| Strings.ReplaceAll | generator.go:152 | with the pattern absent nothing changes; a same-length replacement keeps the length |
| Strings.ReplacedChars | generator.go:152 | every character of the result comes from the string or from the replacement |
| Strings.ToLower | generator.go:76 | same length, each character lowered |
| Strings.LowerIsLower | generator.go:76-84 | lower-casing is idempotent |
| Strings.AtoiItoa | generator.go:165 | strconv.Atoi reads back what strconv.Itoa writes |
| Strings.Atoi | generator.go:165 | a number read is within 64 bits, led by '-' when negative, digits after the first character; an empty string or one ending in a non-digit is an error |
| Strings.Itoa | statetracker.go:124 | never empty, '-' first exactly for negative numbers, digits everywhere else |
| Strings.ItoaInjective | statetracker.go:124 | different numbers have different decimal forms |
| Strings.ZeroPad | statetracker.go:159 | exactly max(width, length) characters: zeros, then the string itself, never truncated |

## Left out

- Concurrency is not modelled: `Apply`, `Split`, `Merge`, `Transistor`, `Stack.Apply` and the channel sends of `GetFiles`. `FileGrouper` records the sent stacks in a list instead.
- Floating-point signal processing is not modelled: `PureTone`, `HarmonicTone.Process` and `SetVibrato`, `VolumeKnob`, `GoertzelVolume`, and the FFT code. Samples are `real`, so the arithmetic has no rounding, no infinities and no NaN.
- `math.Cos` is the parameter `cosTurn`, and the power formula is computed over the reals.
- Go's text/template execution, `filepath.Join` and `os.Stat` are the `Host` functions. A template that fails to execute (log.Fatalf in `Apply`) is not modelled.
- `Generator.Init`, the TOML loading and the `Parse*` functions are not modelled. The loaded tables are the fields of the `Generator` value. The merges `Init` performs are `Merging.Merge`.
- `RenderToFiles` is not part of this model. `RenderList` records each render request (rosary, directories, template, format, gap, tracker), and what rendering does to the shared tracker is not fed back into the next render.
- filestack.go `RenderWav` (file I/O and the WAV codec) and the command-line program are not modelled.
- `log.Print` in `SetFreq` and the printing in `PrintFilename` are left out: they are output only.
- Go's map iteration order is the `order` parameter, the table's keys in some order. The range loops of `Merge` pick keys in an arbitrary order.
- `Strings.ToLower` lowers ASCII letters only; Go's `strings.ToLower` also maps other Unicode letters.
- `Strings.Atoi` accepts only base-10 numbers within 64 bits, as `strconv.Atoi` does on 64-bit platforms. Go's `int` wrap-around in the counters is not modelled: the counters are unbounded.
- Prayer, Mystery and Group pointers shared between several places are values here, so aliased updates are not modelled.
- Tracking.ZeroNum: the width is a `nat`; a negative width in Go's format verb is not modelled (the code only uses 2 and 3).
- Processors.Count: Go's `int(f)` for a float outside the `int` range is implementation-defined; the model truncates exactly.
- Processors.GoertzelFilter.constructor: requires a non-zero sample rate; Go would divide by zero and carry an infinity or NaN, which reals do not have.
- Processors.CyclingGoertzelFilter.constructor: requires a non-zero sample rate, for the same reason.
- Processors.HarmonicTone.constructor: requires a non-zero sample rate, for the same reason.
- Processors.HarmonicTone.SetFreq: requires a non-zero sample rate, for the same reason.
- Generators.Generator.RenderList: requires the whole configuration to be `Consistent()`: every mystery number that any group names, and every mystery's own number, must be a key of the mystery table. This is stronger than Go needs. Go dereferences a nil mystery (rosary.go:33-34) only when a render asks for a group that names a missing number, or for a mystery by name whose own number is missing. The model therefore excludes tables with an unused inconsistent entry, such as a group naming mystery 99 that no render asks for, although Go renders lists from them without trouble. The same requirement is on Generators.Generator.RunList, Generators.Generator.RunLine, Generators.Generator.Rendered and Generators.Generator.RenderOne.
- Processors.TonePattern.Process: requires non-empty step lists for channels that have samples, where Go indexes an empty slice and panics.
- Processors.Channel and Processors.FeedAll are the loops of `TonePattern.Process` and `CyclingGoertzelFilter.Calculate`, factored into their own methods. Processors.CyclingGoertzelFilter.Rotate is that method's reset.
- Prayers.Prayer.ForEachFile: the callback is a recorder of (filename, tracker) calls that never writes to the tracker. Go's `GetFiles` callback calls `UpdateFilename` (prayer.go:98 and prayer.go:107), which raises OutputFileNum and sets LastFilename during the walk; those writes are not fed back into the walk. So the facts that the walk keeps OutputFileNum and LastFilename hold only for a read-only callback such as `PrintFilename` or `GetBadFilenamesFunc`. `FileGrouper.Accept` models one such call on its own.
- Rosaries.Mystery.ForEachFile: the same recorder callback; the tracker changes a writing callback makes are not fed back into the walk.
- Rosaries.Decade.ForEachFile: the same recorder callback. Its SameRun facts for OutputFileNum and LastFilename (`InDecade`) hold only for a read-only callback.
- Rosaries.Rosary.ForEachFile: the same recorder callback. The SameRun facts for OutputFileNum and LastFilename (`RosaryPhases`, `RosaryWalkPhases`) hold only for a read-only callback.
- Generators.Generator.RenderList: the lines are taken as `bufio.Scanner` output (generator.go:144-146). The scanner's removal of a trailing "\r", and its silent stop at a line longer than 64 KiB, are not modelled.
