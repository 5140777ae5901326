/** Per-nugget review progress kept under the `notes-learner-progress` key, and
    the read-only `notes-learner-streak` counter. */
module ProgressManager {
  import opened Wrappers
  import opened Text
  import opened JsNumber
  import opened Records

  type Progress = map<string, ProgressEntry>

  /** The progress map a stored value stands for: an absent key or a value
      that does not parse reads as the empty map. */
  function ReadProgress(slot: Slot<Progress>): (r: Progress)
    ensures slot.Holds? ==> r == slot.value
    ensures !slot.Holds? ==> r == map[]
  {
    if slot.Holds? then slot.value else map[]
  }

  /** `progress[nuggetId] = { completed: true, lastReviewed: now }`. */
  function Marked(m: Progress, id: string, now: string): (r: Progress)
    ensures r.Keys == m.Keys + {id}
    ensures r[id] == ProgressEntry(true, now)
    ensures forall k :: k in m && k != id ==> r[k] == m[k]
  {
    m[id := ProgressEntry(true, now)]
  }

  /** Marking the same nugget again keeps it completed and only moves its
      review time. */
  lemma MarkAgain(m: Progress, id: string, t1: string, t2: string)
    ensures Marked(Marked(m, id, t1), id, t2) == Marked(m, id, t2)
    ensures Marked(Marked(m, id, t1), id, t2)[id].completed
  {
  }

  /** Marks of two different nuggets do not interfere. */
  lemma MarksCommute(m: Progress, a: string, t: string, b: string, u: string)
    requires a != b
    ensures Marked(Marked(m, a, t), b, u) == Marked(Marked(m, b, u), a, t)
  {
  }

  /** `getCurrentStreak`: `parseInt(stored || '0', 10)`. */
  function Streak(stored: Option<string>): (r: Num)
    ensures stored.None? || stored.value == "" ==> r == Int(0)
    ensures stored.Some? && stored.value != "" ==> r == ParseInt(stored.value)
  {
    var s := if stored.Some? && stored.value != "" then stored.value else "0";
    assert ParseInt("0") == Int(0) by { ParseDecimal(0, ""); assert Decimal(0) + "" == "0"; }
    ParseInt(s)
  }

  /** A streak stored as a decimal number reads back as that number, and text
      after the digits is ignored. */
  lemma StreakOfDecimal(n: nat, junk: string)
    requires junk == [] || !IsDigit(junk[0])
    ensures Streak(Some(Decimal(n) + junk)) == Int(n)
  {
    ParseDecimal(n, junk);
  }

  /** The browser storage behind `progressManager`: the progress key, the
      streak key (read only here) and the log of values written to the
      progress key. */
  class ProgressStore {
    var progress: Slot<Progress>
    var streak: Option<string>
    var writes: seq<Progress>

    constructor(progress0: Slot<Progress>, streak0: Option<string>)
      ensures progress == progress0 && streak == streak0 && writes == []
    {
      progress := progress0;
      streak := streak0;
      writes := [];
    }

    /** `getProgress`. */
    function GetProgress(): Progress
      reads this
    {
      ReadProgress(progress)
    }

    /** `getCurrentStreak`: it only reads the streak key. */
    function GetCurrentStreak(): Num
      reads this
    {
      Streak(streak)
    }

    /** `markAsCompleted`: reads the map, sets the nugget's entry and writes
        the whole map back once; every other entry and the streak key stay as
        they were. */
    method MarkAsCompleted(nuggetId: string, now: string)
      modifies this
      ensures progress == Holds(Marked(old(GetProgress()), nuggetId, now))
      ensures writes == old(writes) + [progress.value]
      ensures streak == old(streak)
      ensures GetProgress()[nuggetId] == ProgressEntry(true, now)
      ensures forall k :: k != nuggetId ==>
                (k in GetProgress() <==> k in old(GetProgress()))
                && (k in GetProgress() ==> GetProgress()[k] == old(GetProgress())[k])
    {
      var m := GetProgress();
      m := m[nuggetId := ProgressEntry(true, now)];
      progress := Holds(m);
      writes := writes + [m];
    }
  }
}
