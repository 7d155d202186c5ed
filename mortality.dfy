/** The mortality log: an append-only list of (date, count, notes) records fed
    by a small form; a submission with no date or with a count that is not a
    number is ignored. */
module Mortality {
  import opened Optional

  /** The value of a number input: `Number(...)` of the typed text, which may be NaN. */
  datatype Number = NaN | Num(value: real)

  datatype MortalityEntry = MortalityEntry(date: string, count: real, notes: Option<string>)

  /** The record a submission would add, or None when the submission is ignored.
      Empty notes are stored as absent. */
  function Submission(date: string, count: Number, notes: string): (r: Option<MortalityEntry>)
    ensures r == None <==> date == "" || count == NaN
    ensures r != None ==> r.value.date == date && r.value.count == count.value
    ensures r != None ==> (r.value.notes == None <==> notes == "")
    ensures r != None && notes != "" ==> r.value.notes == Some(notes)
  {
    if date == "" || count.NaN? then None
    else Some(MortalityEntry(date, count.value, if notes == "" then None else Some(notes)))
  }

  /** The log after a submission: one record more when accepted, the same log otherwise. */
  function Appended(log: seq<MortalityEntry>, date: string, count: Number, notes: string): (r: seq<MortalityEntry>)
    ensures |r| == |log| || |r| == |log| + 1
    ensures r[..|log|] == log
    ensures |r| == |log| + 1 <==> date != "" && count != NaN
    ensures |r| == |log| + 1 ==> r[|log|].date == date && r[|log|].count == count.value
    ensures |r| == |log| + 1 ==> Submission(date, count, notes) == Some(r[|log|])
  {
    match Submission(date, count, notes)
    case None => log
    case Some(entry) => log + [entry]
  }

  /** Records for the same date are never merged: each accepted submission adds
      its own record, so two submissions for one date leave two records. */
  lemma {:induction false} SameDateAccumulates(log: seq<MortalityEntry>, date: string, c1: Number, c2: Number, notes: string)
    requires date != "" && c1 != NaN && c2 != NaN
    ensures var twice := Appended(Appended(log, date, c1, notes), date, c2, notes);
      |twice| == |log| + 2 && twice[..|log|] == log &&
      twice[|log|].date == date && twice[|log| + 1].date == date &&
      twice[|log|].count == c1.value && twice[|log| + 1].count == c2.value
  {
  }

  /** The mortality state of the dashboard: the log and the three inputs of its form. */
  class MortalityLog {
    var mortality: seq<MortalityEntry>
    var mortDate: string
    var mortCount: Number
    var mortNotes: string

    /** The date input starts at today's date, which the caller supplies. */
    constructor (today: string)
      ensures mortality == [] && mortDate == today && mortCount == Num(0.0) && mortNotes == ""
    {
      mortality := [];
      mortDate := today;
      mortCount := Num(0.0);
      mortNotes := "";
    }

    /** The user edits the three inputs of the form. */
    method EditForm(date: string, count: Number, notes: string)
      modifies this
      ensures mortality == old(mortality)
      ensures mortDate == date && mortCount == count && mortNotes == notes
    {
      mortDate, mortCount, mortNotes := date, count, notes;
    }

    /** The "Add" button: an accepted submission appends one record and clears
        the count and notes; an ignored one changes nothing. The date is kept. */
    method AddMortality()
      modifies this
      ensures mortality == Appended(old(mortality), old(mortDate), old(mortCount), old(mortNotes))
      ensures mortDate == old(mortDate)
      ensures old(mortDate) == "" || old(mortCount) == NaN ==>
        mortality == old(mortality) && mortCount == old(mortCount) && mortNotes == old(mortNotes)
      ensures old(mortDate) != "" && old(mortCount) != NaN ==>
        |mortality| == |old(mortality)| + 1 && mortality[..|old(mortality)|] == old(mortality) &&
        mortCount == Num(0.0) && mortNotes == ""
    {
      var submitted := Submission(mortDate, mortCount, mortNotes);
      if submitted.None? {
        return;
      }
      mortality := mortality + [submitted.value];
      mortCount := Num(0.0);
      mortNotes := "";
    }
  }
}
