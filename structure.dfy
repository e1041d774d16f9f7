/** structure.go: the template of a rosary, as four lists of prayer keys. */
module Structures {
  import opened Strings

  /** The fields of a Structure at one moment. */
  datatype StructureValue = StructureValue(
    key: string,
    name: string,
    preamble: seq<string>,
    group: seq<string>,
    mystery: seq<string>,
    postamble: seq<string>)

  /** `StructureForPrayer`: a structure whose only prayer is the one given,
      said once in the preamble. */
  function PrayerStructure(prayer: string): (v: StructureValue)
    ensures v.key == prayer && v.name == prayer && v.preamble == [prayer]
    ensures v.group == [] && v.mystery == [] && v.postamble == []
  {
    StructureValue(prayer, prayer, [prayer], [], [], [])
  }

  /** `StructureForPrayers`: the comma-separated prayers become the preamble;
      key and name are the first of them, which always exists. Joining the
      preamble with commas gives back the argument. */
  function PrayersStructure(prayers: string): (v: StructureValue)
    ensures |v.preamble| >= 1 && v.key == v.preamble[0] && v.name == v.preamble[0]
    ensures Join(v.preamble, ',') == prayers
    ensures forall i | 0 <= i < |v.preamble| :: ',' !in v.preamble[i]
    ensures v.group == [] && v.mystery == [] && v.postamble == []
  {
    var ps := Split(prayers, ',');
    JoinSplit(prayers, ',');
    StructureValue(ps[0], ps[0], ps, [], [], [])
  }

  class Structure {
    var key: string
    var name: string
    var preamble: seq<string>
    var group: seq<string>
    var mystery: seq<string>
    var postamble: seq<string>

    function Value(): StructureValue
      reads this
    {
      StructureValue(key, name, preamble, group, mystery, postamble)
    }

    /** `NewStructure`: named, with all four lists empty. */
    constructor (key: string, name: string)
      ensures Value() == StructureValue(key, name, [], [], [], [])
    {
      this.key, this.name := key, name;
      preamble, group, mystery, postamble := [], [], [], [];
    }

    /** `StructureForPrayer`. */
    constructor ForPrayer(prayer: string)
      ensures Value() == PrayerStructure(prayer)
    {
      var v := PrayerStructure(prayer);
      key, name := v.key, v.name;
      preamble, group, mystery, postamble := v.preamble, v.group, v.mystery, v.postamble;
    }

    /** `StructureForPrayers`. */
    constructor ForPrayers(prayers: string)
      ensures Value() == PrayersStructure(prayers)
    {
      var v := PrayersStructure(prayers);
      key, name := v.key, v.name;
      preamble, group, mystery, postamble := v.preamble, v.group, v.mystery, v.postamble;
    }

    /** `AddPreamble` appends to the preamble and to nothing else. */
    method AddPreamble(prayer: string)
      modifies this
      ensures Value() == old(Value()).(preamble := old(preamble) + [prayer])
    {
      preamble := preamble + [prayer];
    }

    /** `AddGroup` appends to the per-group prayers and to nothing else. */
    method AddGroup(prayer: string)
      modifies this
      ensures Value() == old(Value()).(group := old(group) + [prayer])
    {
      group := group + [prayer];
    }

    /** `AddMystery` appends to the per-mystery prayers and to nothing else. */
    method AddMystery(prayer: string)
      modifies this
      ensures Value() == old(Value()).(mystery := old(mystery) + [prayer])
    {
      mystery := mystery + [prayer];
    }

    /** `AddPostamble` appends to the postamble and to nothing else. */
    method AddPostamble(prayer: string)
      modifies this
      ensures Value() == old(Value()).(postamble := old(postamble) + [prayer])
    {
      postamble := postamble + [prayer];
    }
  }
}
