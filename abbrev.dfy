/** The team-code translation both scripts apply before every lookup on the
    statistics site: three codes differ, every other code is kept. */
module Abbrev {

  /** ABBREV_TO_BREF.get(abbrev, abbrev) */
  function ToBref(abbrev: string): (r: string)
    ensures abbrev == "PHX" ==> r == "PHO"
    ensures abbrev == "BKN" ==> r == "BRK"
    ensures abbrev == "CHA" ==> r == "CHO"
    ensures abbrev !in {"PHX", "BKN", "CHA"} ==> r == abbrev
  {
    if abbrev == "PHX" then "PHO"
    else if abbrev == "BKN" then "BRK"
    else if abbrev == "CHA" then "CHO"
    else abbrev
  }

  /** The translated codes are not themselves translated again, so applying
      the translation twice is the same as once. */
  lemma ToBrefIdempotent(abbrev: string)
    ensures ToBref(ToBref(abbrev)) == ToBref(abbrev)
  {
  }

  /** Only the three known codes change. */
  lemma ToBrefChanges(abbrev: string)
    ensures ToBref(abbrev) != abbrev <==> abbrev in {"PHX", "BKN", "CHA"}
  {
  }
}
