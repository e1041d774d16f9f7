/** options.go: the user's choice among alternative recordings, per prayer key. */
module PrayerOptions {

  /** The choice used for a prayer that has no entry. */
  const DefaultChoice: int := 1

  /** `OptionProvider`: anything that answers `GetOption(prayer)`. The walks
      only ever ask it questions, so it is modelled by its answers. */
  type OptionProvider = string -> int

  /** A table from prayer key to the 1-based index of the chosen alternative. */
  class Options {
    var options: map<string, int>

    /** `NewOptions`: an empty table, so every prayer gets the default choice. */
    constructor ()
      ensures options == map[]
      ensures forall prayer :: GetOption(prayer) == DefaultChoice
    {
      options := map[];
    }

    /** `AddOption` records (or overwrites) the choice for one prayer. */
    method AddOption(prayer: string, choice: int)
      modifies this
      ensures options == old(options)[prayer := choice]
      ensures GetOption(prayer) == choice
      ensures forall other | other != prayer :: GetOption(other) == old(GetOption(other))
    {
      options := options[prayer := choice];
    }

    /** `GetOption`: the stored choice, or 1 when the prayer has none. */
    function GetOption(prayer: string): (choice: int)
      reads this
      ensures prayer in options ==> choice == options[prayer]
      ensures prayer !in options ==> choice == DefaultChoice
    {
      if prayer in options then options[prayer] else DefaultChoice
    }

    /** The table as an OptionProvider: the answers `GetOption` gives now. */
    function Provider(): (o: OptionProvider)
      reads this
      ensures forall prayer :: o(prayer) == GetOption(prayer)
    {
      var m := options;
      prayer => if prayer in m then m[prayer] else DefaultChoice
    }
  }

  /** Two `AddOption` calls for the same prayer: the second one wins, and no
      other prayer's choice moves. */
  method AddOptionTwice(o: Options, prayer: string, first: int, second: int)
    modifies o
    ensures o.GetOption(prayer) == second
    ensures forall other | other != prayer :: o.GetOption(other) == old(o.GetOption(other))
  {
    o.AddOption(prayer, first);
    o.AddOption(prayer, second);
  }
}
