/**
  The pure helpers of the month calendar: which entries fall on a day, which
  outcome a day shows (the best one by a fixed ranking), the colour class for
  an outcome, and the days of the previous month that pad the first week.

  Days are day numbers (days since 1 January 1970, a Thursday), so comparing
  two dates for the same day is equality of day numbers. Parsing an entry's
  date string is a parameter `dayOf`; None stands for an invalid date, which
  is on no day.
 */
module CalendarView {
  import opened Wrappers
  import opened Entries
  import CalendarEvents

  // ---------------------------------------------------------------------
  // Entries of one day
  // ---------------------------------------------------------------------

  predicate OnDay(dayOf: string -> Option<int>, entry: DateEntry, day: int) {
    dayOf(entry.date) == Some(day)
  }

  /** `s` is `t` with some elements left out, the rest in their original order. */
  predicate IsSubsequence<T(==)>(s: seq<T>, t: seq<T>)
    decreases |t|
  {
    if s == [] then true
    else if t == [] then false
    else if s[|s| - 1] == t[|t| - 1] then IsSubsequence(s[..|s| - 1], t[..|t| - 1])
    else IsSubsequence(s, t[..|t| - 1])
  }

  /**
    The entries on `day`: exactly those (with their multiplicities), kept in
    their original order.
   */
  function GetEntriesForDate(entries: seq<DateEntry>, dayOf: string -> Option<int>, day: int): (r: seq<DateEntry>)
    ensures forall i :: 0 <= i < |r| ==> OnDay(dayOf, r[i], day)
    ensures forall e :: multiset(r)[e] == if OnDay(dayOf, e, day) then multiset(entries)[e] else 0
    ensures IsSubsequence(r, entries)
    decreases |entries|
  {
    if entries == [] then []
    else
      var n := |entries| - 1;
      var earlier := GetEntriesForDate(entries[..n], dayOf, day);
      assert entries == entries[..n] + [entries[n]];
      if OnDay(dayOf, entries[n], day) then
        assert (earlier + [entries[n]])[..|earlier|] == earlier;
        earlier + [entries[n]]
      else
        earlier
  }

  // ---------------------------------------------------------------------
  // Best outcome of a day
  // ---------------------------------------------------------------------

  /** The ranking of outcomes; an outcome the table does not name ranks 0. */
  function OutcomeRank(outcome: string): (rank: nat)
    ensures rank <= 4
    ensures rank == 0 <==> outcome !in KnownOutcomes
  {
    if outcome == Great then 4
    else if outcome == Good then 3
    else if outcome == Okay then 2
    else if outcome == NoSpark then 1
    else 0
  }

  function Rank(entry: DateEntry): nat {
    OutcomeRank(entry.outcome)
  }

  /**
    `reduce` without an initial value, with the accumulator kept as a
    position: `entries[k]` is the best so far and `entries[i..]` is still to
    come. Only an entry of strictly greater rank replaces the accumulator.
    The result is the position of the entry the fold returns.
   */
  function ReduceBest(entries: seq<DateEntry>, k: nat, i: nat): (m: nat)
    requires k < i <= |entries|
    ensures k <= m < |entries|
    ensures Rank(entries[k]) <= Rank(entries[m])
    decreases |entries| - i
  {
    if i == |entries| then k
    else ReduceBest(entries, if Rank(entries[i]) > Rank(entries[k]) then i else k, i + 1)
  }

  /** The entry `reduce` returns: one of the entries, ranked at least as high as each of them. */
  function BestEntry(entries: seq<DateEntry>): (r: DateEntry)
    requires entries != []
    ensures r in entries
    ensures forall e :: e in entries ==> Rank(e) <= Rank(r)
  {
    ReduceBestIsEarliest(entries, 0, 1);
    entries[ReduceBest(entries, 0, 1)]
  }

  /** `s[m]` has maximal rank in `s` and every entry before it ranks strictly lower. */
  predicate EarliestMaximum(s: seq<DateEntry>, m: nat) {
    && m < |s|
    && (forall j :: 0 <= j < |s| ==> Rank(s[j]) <= Rank(s[m]))
    && (forall j :: 0 <= j < m ==> Rank(s[j]) < Rank(s[m]))
  }

  /**
    The fold ends at the earliest maximum, given that the accumulator is the
    earliest maximum of the prefix already folded.
   */
  lemma {:induction false} ReduceBestIsEarliest(entries: seq<DateEntry>, k: nat, i: nat)
    requires k < i <= |entries|
    requires forall j :: 0 <= j < k ==> Rank(entries[j]) < Rank(entries[k])
    requires forall j :: 0 <= j < i ==> Rank(entries[j]) <= Rank(entries[k])
    ensures EarliestMaximum(entries, ReduceBest(entries, k, i))
    decreases |entries| - i
  {
    if i < |entries| {
      if Rank(entries[i]) > Rank(entries[k]) {
        ReduceBestIsEarliest(entries, i, i + 1);
      } else {
        ReduceBestIsEarliest(entries, k, i + 1);
      }
    }
  }

  /**
    The best entry is the earliest one of maximal rank: it ranks at least as
    high as every entry, and every entry before it ranks strictly lower.
   */
  lemma BestEntryIsEarliestMaximum(entries: seq<DateEntry>)
    requires entries != []
    ensures exists m: nat :: EarliestMaximum(entries, m) && BestEntry(entries) == entries[m]
  {
    ReduceBestIsEarliest(entries, 0, 1);
  }

  /**
    The outcome a day shows: None exactly when no entry is on that day,
    otherwise the outcome of an entry on that day whose rank no other entry
    on that day exceeds.
   */
  function GetBestOutcomeForDate(entries: seq<DateEntry>, dayOf: string -> Option<int>, day: int): (r: Option<string>)
    ensures r.None? <==> forall e :: e in entries ==> !OnDay(dayOf, e, day)
    ensures r.Some? ==> exists e :: e in entries && OnDay(dayOf, e, day) && e.outcome == r.value
    ensures r.Some? ==> forall e :: e in entries && OnDay(dayOf, e, day) ==> OutcomeRank(e.outcome) <= OutcomeRank(r.value)
  {
    var dayEntries := GetEntriesForDate(entries, dayOf, day);
    if |dayEntries| == 0 then
      assert forall e :: e in entries ==> !OnDay(dayOf, e, day) by {
        forall e | e in entries ensures !OnDay(dayOf, e, day) {
          assert multiset(dayEntries)[e] == 0;
        }
      }
      None
    else
      var best := BestEntry(dayEntries);
      assert multiset(dayEntries)[best] > 0;
      assert forall e :: e in entries && OnDay(dayOf, e, day) ==> e in dayEntries by {
        forall e | e in entries && OnDay(dayOf, e, day) ensures e in dayEntries {
          assert multiset(entries)[e] > 0;
        }
      }
      Some(best.outcome)
  }

  /**
    On a tie the earliest entry of the day wins, because only a strictly
    greater rank replaces the accumulator.
   */
  lemma BestOutcomeKeepsEarliest(entries: seq<DateEntry>, dayOf: string -> Option<int>, day: int)
    requires GetBestOutcomeForDate(entries, dayOf, day).Some?
    ensures exists m: nat :: EarliestMaximum(GetEntriesForDate(entries, dayOf, day), m)
                        && GetEntriesForDate(entries, dayOf, day)[m].outcome == GetBestOutcomeForDate(entries, dayOf, day).value
  {
    var dayEntries := GetEntriesForDate(entries, dayOf, day);
    var best := BestEntry(dayEntries);
    assert GetBestOutcomeForDate(entries, dayOf, day) == Some(best.outcome);
    BestEntryIsEarliestMaximum(dayEntries);
  }

  // ---------------------------------------------------------------------
  // Colours
  // ---------------------------------------------------------------------

  const DefaultColorClass: string := "bg-gray-50 border-gray-200 text-gray-600"

  /** The CSS classes of a day cell for its outcome. */
  function GetOutcomeColor(outcome: string): (r: string)
    ensures r == DefaultColorClass <==> outcome !in KnownOutcomes
  {
    if outcome == Great then "bg-green-100 border-green-300 text-green-800"
    else if outcome == Good then "bg-blue-100 border-blue-300 text-blue-800"
    else if outcome == Okay then "bg-yellow-100 border-yellow-300 text-yellow-800"
    else if outcome == NoSpark then "bg-gray-100 border-gray-300 text-gray-800"
    else DefaultColorClass
  }

  /** Two outcomes get the same cell colour exactly when they have the same rank. */
  lemma OutcomeColorFollowsRank(a: string, b: string)
    ensures GetOutcomeColor(a) == GetOutcomeColor(b) <==> OutcomeRank(a) == OutcomeRank(b)
  {
  }

  /** The calendar's colour ids and the ranking classify outcomes the same way. */
  lemma ColorIdFollowsRank(a: string, b: string)
    ensures CalendarEvents.ColorId(a) == CalendarEvents.ColorId(b) <==> OutcomeRank(a) == OutcomeRank(b)
  {
  }

  // ---------------------------------------------------------------------
  // Padding days
  // ---------------------------------------------------------------------

  /** `getDay`: 0 for Sunday through 6 for Saturday; day 0 was a Thursday. */
  function Weekday(day: int): (w: nat)
    ensures w < 7
  {
    (day + 4) % 7
  }

  /** The days of the previous month shown before the first of the month. */
  function PaddingDays(monthStart: int): (r: seq<int>)
    ensures |r| == Weekday(monthStart)
    ensures forall i :: 0 <= i < |r| - 1 ==> r[i + 1] == r[i] + 1
    ensures r != [] ==> r[|r| - 1] == monthStart - 1
    ensures r != [] ==> Weekday(r[0]) == 0
  {
    var first := Weekday(monthStart);
    var r := seq(first, i requires 0 <= i < first => monthStart - (first - i));
    assert r != [] ==> Weekday(r[0]) == 0 by {
      if r != [] {
        WeekdayBack(monthStart);
      }
    }
    r
  }

  /** Going back `Weekday(d)` days from `d` lands on a Sunday. */
  lemma WeekdayBack(d: int)
    ensures Weekday(d - Weekday(d)) == 0
  {
    var x := d + 4;
    assert x == 7 * (x / 7) + x % 7;
    assert d - Weekday(d) + 4 == 7 * (x / 7);
  }

  /** The padding days strictly ascend and end right before the first of the month. */
  lemma PaddingDaysAscend(monthStart: int, i: nat, j: nat)
    requires i < j < |PaddingDays(monthStart)|
    ensures PaddingDays(monthStart)[i] < PaddingDays(monthStart)[j] < monthStart
  {
  }

  // ---------------------------------------------------------------------
  // The ranking as written
  // ---------------------------------------------------------------------

  /** Property names every object literal inherits from `Object.prototype`. */
  const InheritedNames: set<string> := {
    "constructor", "toString", "toLocaleString", "valueOf", "hasOwnProperty",
    "isPrototypeOf", "propertyIsEnumerable", "__proto__", "__defineGetter__",
    "__defineSetter__", "__lookupGetter__", "__lookupSetter__"}

  /**
    The value `outcomeRanking[outcome] || 0` takes when `>` compares it: a
    number, or the text an inherited member converts to (a function or an
    object is first turned into its string form).
   */
  datatype LookedUpRank = Number(n: nat) | Text(s: string)

  /**
    The string form of the inherited member `name` in a V8-based runtime:
    `Object.prototype` for "__proto__", the `Object` function for
    "constructor", and a native method of that name otherwise.
   */
  function InheritedText(name: string): string {
    if name == "__proto__" then "[object Object]"
    else if name == "constructor" then "function " + ("Object" + "() { [native code] }")
    else "function " + (name + "() { [native code] }")
  }

  /**
    An inherited name finds a function (or, for "__proto__", an object) in
    the ranking object; it is truthy, so `|| 0` keeps it, and it compares
    through its string form.
   */
  function RankAsWritten(outcome: string): (r: LookedUpRank)
    ensures outcome !in InheritedNames ==> r == Number(OutcomeRank(outcome))
    ensures outcome in InheritedNames ==> r == Text(InheritedText(outcome))
  {
    if outcome in KnownOutcomes then Number(OutcomeRank(outcome))
    else if outcome in InheritedNames then Text(InheritedText(outcome))
    else Number(0)
  }

  /** String `<` on character codes: a proper prefix, or a smaller first difference. */
  predicate LexLess(a: string, b: string)
    decreases |a|
  {
    |b| > 0 && (|a| == 0 || a[0] < b[0] || (a[0] == b[0] && LexLess(a[1..], b[1..])))
  }

  lemma {:induction false} LexLessTransitive(a: string, b: string, c: string)
    requires LexLess(a, b) && LexLess(b, c)
    ensures LexLess(a, c)
    decreases |a|
  {
    if |a| > 0 && a[0] == b[0] && b[0] == c[0] {
      LexLessTransitive(a[1..], b[1..], c[1..]);
    }
  }

  lemma {:induction false} LexLessCommonPrefix(p: string, a: string, b: string)
    requires LexLess(a, b)
    ensures LexLess(p + a, p + b)
    decreases |p|
  {
    if |p| == 0 {
      assert p + a == a && p + b == b;
    } else {
      LexLessCommonPrefix(p[1..], a, b);
      assert (p + a)[0] == p[0] == (p + b)[0];
      assert (p + a)[1..] == p[1..] + a;
      assert (p + b)[1..] == p[1..] + b;
    }
  }

  /**
    `>` as JavaScript evaluates it on these operands: two numbers compare
    numerically, two strings by character codes, and a string against a
    number becomes NaN, so the comparison is false.
   */
  predicate GreaterAsWritten(a: LookedUpRank, b: LookedUpRank) {
    match (a, b)
    case (Number(x), Number(y)) => x > y
    case (Text(x), Text(y)) => LexLess(y, x)
    case _ => false
  }

  lemma GreaterAsWrittenTransitive(a: LookedUpRank, b: LookedUpRank, c: LookedUpRank)
    requires GreaterAsWritten(a, b) && GreaterAsWritten(b, c)
    ensures GreaterAsWritten(a, c)
  {
    if a.Text? {
      LexLessTransitive(c.s, b.s, a.s);
    }
  }

  /** What the lookup `outcomeRanking[outcome] || 0` yields for each entry. */
  function LookedUp(entries: seq<DateEntry>): (ranks: seq<LookedUpRank>)
    ensures |ranks| == |entries|
  {
    seq(|entries|, j requires 0 <= j < |entries| => RankAsWritten(entries[j].outcome))
  }

  /** The fold as written over looked-up ranks, by positions like `ReduceBest`, comparing with `GreaterAsWritten`. */
  function ReduceRanksAsWritten(ranks: seq<LookedUpRank>, k: nat, i: nat): (m: nat)
    requires k < i <= |ranks|
    ensures k <= m < |ranks|
    decreases |ranks| - i
  {
    if i == |ranks| then k
    else ReduceRanksAsWritten(ranks, if GreaterAsWritten(ranks[i], ranks[k]) then i else k, i + 1)
  }

  /** The reduce of `getBestOutcomeForDate` as written: the fold over each entry's looked-up rank. */
  function ReduceBestAsWritten(entries: seq<DateEntry>, k: nat, i: nat): (m: nat)
    requires k < i <= |entries|
    ensures k <= m < |entries|
    ensures var ranks := LookedUp(entries);
      m == k || (i <= m && GreaterAsWritten(ranks[m], ranks[k]))
    ensures var ranks := LookedUp(entries);
      forall j :: i <= j < |entries| && m < j ==> !GreaterAsWritten(ranks[j], ranks[m])
  {
    var ranks := LookedUp(entries);
    ReduceAsWrittenPicksGreater(ranks, k, i);
    ReduceAsWrittenKeepsPick(ranks, k, i);
    ReduceRanksAsWritten(ranks, k, i)
  }

  /**
    What the fold as written picks from position `i` on, with `k` held so
    far: `k` itself or a later rank comparing greater than it.
   */
  lemma {:induction false} ReduceAsWrittenPicksGreater(ranks: seq<LookedUpRank>, k: nat, i: nat)
    requires k < i <= |ranks|
    ensures var m := ReduceRanksAsWritten(ranks, k, i);
      m == k || (i <= m && GreaterAsWritten(ranks[m], ranks[k]))
    decreases |ranks| - i
  {
    if i < |ranks| {
      var next := if GreaterAsWritten(ranks[i], ranks[k]) then i else k;
      ReduceAsWrittenPicksGreater(ranks, next, i + 1);
      var m := ReduceRanksAsWritten(ranks, next, i + 1);
      if next == i && m != i {
        GreaterAsWrittenTransitive(ranks[m], ranks[i], ranks[k]);
      }
    }
  }

  /** No rank after the pick of the fold as written compares greater than the pick. */
  lemma {:induction false} ReduceAsWrittenKeepsPick(ranks: seq<LookedUpRank>, k: nat, i: nat)
    requires k < i <= |ranks|
    ensures var m := ReduceRanksAsWritten(ranks, k, i);
      forall j :: i <= j < |ranks| && m < j ==> !GreaterAsWritten(ranks[j], ranks[m])
    decreases |ranks| - i
  {
    if i < |ranks| {
      var next := if GreaterAsWritten(ranks[i], ranks[k]) then i else k;
      ReduceAsWrittenKeepsPick(ranks, next, i + 1);
      ReduceAsWrittenPicksGreater(ranks, next, i + 1);
    }
  }

  /**
    Where every lookup finds the modelled rank (by `LookupsFindRanks`, for
    every day without an inherited name), the reduce as written and the
    model agree.
   */
  lemma {:induction false} ReduceAsWrittenAgrees(entries: seq<DateEntry>, k: nat, i: nat)
    requires k < i <= |entries|
    requires forall j :: 0 <= j < |entries| ==> RankAsWritten(entries[j].outcome) == Number(Rank(entries[j]))
    ensures ReduceBestAsWritten(entries, k, i) == ReduceBest(entries, k, i)
  {
    ReduceRanksAgree(LookedUp(entries), entries, k, i);
  }

  /** `ReduceAsWrittenAgrees` over the looked-up values. */
  lemma {:induction false} ReduceRanksAgree(ranks: seq<LookedUpRank>, entries: seq<DateEntry>, k: nat, i: nat)
    requires k < i <= |entries| == |ranks|
    requires forall j :: 0 <= j < |entries| ==> ranks[j] == Number(Rank(entries[j]))
    ensures ReduceRanksAsWritten(ranks, k, i) == ReduceBest(entries, k, i)
    decreases |entries| - i
  {
    if i < |entries| {
      ReduceRanksAgree(ranks, entries, if Rank(entries[i]) > Rank(entries[k]) then i else k, i + 1);
    }
  }

  /** Away from the inherited names every lookup finds the modelled rank. */
  lemma LookupsFindRanks(entries: seq<DateEntry>)
    requires forall j :: 0 <= j < |entries| ==> entries[j].outcome !in InheritedNames
    ensures forall j :: 0 <= j < |entries| ==> RankAsWritten(entries[j].outcome) == Number(Rank(entries[j]))
  {
  }

  /**
    An entry whose outcome is "toString" placed first keeps a later "Great"
    entry from being shown: as written the day shows "toString".
   */
  lemma InheritedNameHidesGreat(first: DateEntry, second: DateEntry)
    requires first.outcome == "toString" && second.outcome == Great
    ensures ReduceBestAsWritten([first, second], 0, 1) == 0
    ensures ReduceBest([first, second], 0, 1) == 1
    ensures Rank(first) < Rank(second)
  {
    var ranks := LookedUp([first, second]);
    assert ranks[0] == Text(InheritedText("toString")) && ranks[1] == Number(4);
    assert !GreaterAsWritten(ranks[1], ranks[0]);
    assert ReduceRanksAsWritten(ranks, 0, 1) == ReduceRanksAsWritten(ranks, 0, 2);
  }

  /**
    Two inherited names compare by their string forms: "toString" first and
    "valueOf" second leaves the day showing "valueOf".
   */
  lemma InheritedNamesCompareAsText(first: DateEntry, second: DateEntry)
    requires first.outcome == "toString" && second.outcome == "valueOf"
    ensures ReduceBestAsWritten([first, second], 0, 1) == 1
  {
    var suffix := "() { [native code] }";
    assert LexLess("toString" + suffix, "valueOf" + suffix);
    LexLessCommonPrefix("function ", "toString" + suffix, "valueOf" + suffix);
    var ranks := LookedUp([first, second]);
    assert ranks[0] == Text(InheritedText("toString")) && ranks[1] == Text(InheritedText("valueOf"));
  }
}
