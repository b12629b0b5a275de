/** The balanced pie assignment of `assignPieTypeFromSheet`: read the current
    sweet and savory tallies from the sheet and give the newcomer the kind that
    has fewer pies, sweet on a tie, sweet when the tallies cannot be read. */
module PieAssignment {
  import opened Net

  /** The two kinds of pie. The page spells the second one "savoury". */
  datatype Pie = Sweet | Savoury {
    /** The string the page displays, mails and saves for this pie. */
    function Name(): string {
      match this
      case Sweet => "sweet"
      case Savoury => "savoury"
    }

    function Other(): Pie {
      if Sweet? then Savoury else Sweet
    }
  }

  /** The body of a `getPieCounts` answer once JSON.parse has read it: `null`,
      an object whose two count fields may each be missing, or any other value
      (a number, string, boolean or array, whose count fields are all missing). */
  datatype CountsJson =
    | CNull
    | CObject(sweetCount: Option<int>, savoryCount: Option<int>)
    | COther

  /** The tally a pie kind is compared by. */
  function CountFor(sweet: int, savory: int, p: Pie): int {
    if p == Sweet then sweet else savory
  }

  /** The comparison of script.js:198-204 once both counts are numbers. */
  function ChooseByCounts(sweet: int, savory: int): (r: Pie)
    ensures CountFor(sweet, savory, r) <= CountFor(sweet, savory, r.Other())
    ensures sweet == savory ==> r == Sweet
  {
    if sweet <= savory then Sweet else Savoury
  }

  /** Whether reading the counts ended in the exception that
      `assignPieTypeFromSheet` catches: the fetch failed, the body was not
      JSON, or the body was `null` (reading a property of null throws). */
  predicate CountsUnavailable(counts: Fetch<CountsJson>)
    ensures !CountsUnavailable(counts) <==>
            counts.Received? && counts.parsed.Parsed?
            && (counts.parsed.value.CObject? || counts.parsed.value.COther?)
  {
    counts.NetworkError? || counts.parsed.ParseError? || counts.parsed.value.CNull?
  }

  /** `assignPieTypeFromSheet`: the pie given to a new registrant. A count
      field that is missing reads as `undefined`, and every `<=` comparison
      with `undefined` is false, which gives "savoury". */
  function AssignPieType(counts: Fetch<CountsJson>): (r: Pie)
    ensures CountsUnavailable(counts) ==> r == Sweet
    ensures !CountsUnavailable(counts) && counts.parsed.value.CObject?
            && counts.parsed.value.sweetCount.Some? && counts.parsed.value.savoryCount.Some?
            ==> r == ChooseByCounts(counts.parsed.value.sweetCount.value, counts.parsed.value.savoryCount.value)
    ensures !CountsUnavailable(counts)
            && !(counts.parsed.value.CObject? && counts.parsed.value.sweetCount.Some? && counts.parsed.value.savoryCount.Some?)
            ==> r == Savoury
  {
    match counts
    case NetworkError => Sweet
    case Received(_, ParseError) => Sweet
    case Received(_, Parsed(CNull)) => Sweet
    case Received(_, Parsed(CObject(Some(sweet), Some(savory)))) => ChooseByCounts(sweet, savory)
    case Received(_, Parsed(CObject(_, _))) => Savoury
    case Received(_, Parsed(COther)) => Savoury
  }

  /** The assigned name is always "sweet" or "savoury". */
  lemma AssignedNameIsSweetOrSavoury(counts: Fetch<CountsJson>)
    ensures AssignPieType(counts).Name() == "sweet" || AssignPieType(counts).Name() == "savoury"
    ensures AssignPieType(counts).Name() == "sweet" <==> AssignPieType(counts) == Sweet
  {
  }

  /** The sheet's running tally of saved registrations by kind, assuming the
      sheet counts a saved "savoury" row under `savoryCount`. */
  datatype Tally = Tally(sweet: nat, savory: nat)

  function Record(t: Tally, p: Pie): Tally {
    if p == Sweet then Tally(t.sweet + 1, t.savory) else Tally(t.sweet, t.savory + 1)
  }

  /** The tally after `n` more registrations, each assigned from a fresh and
      complete read of the tally before it. */
  function AfterRegistrations(t: Tally, n: nat): Tally {
    if n == 0 then t
    else
      var before := AfterRegistrations(t, n - 1);
      Record(before, ChooseByCounts(before.sweet, before.savory))
  }

  predicate Balanced(t: Tally) {
    -1 <= t.sweet - t.savory <= 1
  }

  /** Sequential registrations keep the two kinds within one pie of each other
      and add one pie each. */
  lemma {:induction false} RegistrationsStayBalanced(t: Tally, n: nat)
    requires Balanced(t)
    ensures Balanced(AfterRegistrations(t, n))
    ensures AfterRegistrations(t, n).sweet + AfterRegistrations(t, n).savory == t.sweet + t.savory + n
  {
    if n > 0 {
      RegistrationsStayBalanced(t, n - 1);
    }
  }

  /** From an empty sheet, the first, third, fifth ... registrants get sweet
      and the others savoury. */
  lemma {:induction false} FromEmptySheet(n: nat)
    ensures AfterRegistrations(Tally(0, 0), n) == Tally((n + 1) / 2, n / 2)
  {
    if n > 0 {
      FromEmptySheet(n - 1);
    }
  }

  /** Equal tallies, including an empty sheet, give sweet; one more sweet than
      savory gives savoury; an unreachable sheet gives sweet. */
  lemma ScenarioTallies()
    ensures AssignPieType(Received("", Parsed(CObject(Some(3), Some(3))))) == Sweet
    ensures AssignPieType(Received("", Parsed(CObject(Some(4), Some(3))))) == Savoury
    ensures AssignPieType(Received("", Parsed(CObject(Some(0), Some(0))))) == Sweet
    ensures AssignPieType(NetworkError) == Sweet
  {
  }
}
