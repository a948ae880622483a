/**
  The date entry record shared by the calendar view and the calendar service
  (both declare the same `DateEntry` interface), and the four outcome names
  that the application treats specially.
 */
module Entries {

  /** One logged date. `date` and `time` are the raw form strings. */
  datatype DateEntry = DateEntry(
    id: string,
    location: string,
    date: string,
    time: string,
    kind: string,     // the `type` field
    outcome: string,
    rating: int,
    notes: string)

  const Great: string := "Great"
  const Good: string := "Good"
  const Okay: string := "Okay"
  const NoSpark: string := "No spark"

  /** The outcomes that both the colour switch and the ranking know by name. */
  const KnownOutcomes: set<string> := {Great, Good, Okay, NoSpark}
}
