/**
  The stateful half of the calendar service: the client it initialises, the
  guarded remote calls, and the sync pass that links each date entry to a
  remote event through string-keyed browser storage.

  The remote calendar is a foreign service: every call that reaches it has an
  arbitrary result here. Storage access may throw; that too is arbitrary.
  The sync pass returns, as a ghost trace, what happened to each entry, and
  its contract ties the new link store and the counters to that trace;
  the lemmas below say what every trace the code can produce guarantees.
 */
module CalendarSync {
  import opened Wrappers
  import opened Entries
  import opened CalendarEvents

  // ---------------------------------------------------------------------
  // The link store
  // ---------------------------------------------------------------------

  const LinkPrefix: string := "calendar-event-"

  /** The storage key under which an entry's remote event id is kept. */
  function LinkKey(id: string): (k: string)
    ensures |k| == |LinkPrefix| + |id|
    ensures k[..|LinkPrefix|] == LinkPrefix && k[|LinkPrefix|..] == id
  {
    LinkPrefix + id
  }

  /** Distinct entries never share a storage key. */
  lemma LinkKeyInjective(a: string, b: string)
    ensures LinkKey(a) == LinkKey(b) <==> a == b
  {
    if LinkKey(a) == LinkKey(b) {
      assert a == LinkKey(a)[|LinkPrefix|..];
    }
  }

  /** `getItem`: the stored string, or null. */
  function GetItem(store: map<string, string>, key: string): Option<string> {
    if key in store then Some(store[key]) else None
  }

  /** JavaScript truthiness of a string that may be null: null and "" are falsy. */
  predicate Truthy(s: Option<string>) {
    s.Some? && s.value != ""
  }

  /** The entry takes the update branch: its key holds a non-empty remote id. */
  predicate HasLink(store: map<string, string>, id: string) {
    Truthy(GetItem(store, LinkKey(id)))
  }

  // ---------------------------------------------------------------------
  // What happened to one entry during a pass
  // ---------------------------------------------------------------------

  datatype Attempt =
    | Updated(ok: bool)                 // update branch, with updateEvent's result
    | Created(eventId: Option<string>)  // create branch, with createEvent's result
    | StoreThrew                        // reading or writing the link threw

  predicate Succeeded(a: Attempt) {
    match a
    case Updated(ok) => ok
    case Created(eventId) => Truthy(eventId)
    case StoreThrew => false
  }

  /** The store after one entry: only a successful create writes, and it writes that entry's key. */
  function Record(store: map<string, string>, entry: DateEntry, a: Attempt): (r: map<string, string>)
    ensures !(a.Created? && Succeeded(a)) ==> r == store
    ensures a.Created? && Succeeded(a) ==>
      r.Keys == store.Keys + {LinkKey(entry.id)} && r[LinkKey(entry.id)] == a.eventId.value
    ensures forall k :: k in store && k != LinkKey(entry.id) ==> k in r && r[k] == store[k]
  {
    if a.Created? && Truthy(a.eventId) then store[LinkKey(entry.id) := a.eventId.value] else store
  }

  /** The store after a pass over `entries` with the given per-entry attempts. */
  function LinksAfter(store: map<string, string>, entries: seq<DateEntry>, attempts: seq<Attempt>): map<string, string>
    requires |attempts| == |entries|
    decreases |entries|
  {
    if entries == [] then store
    else
      var n := |entries| - 1;
      Record(LinksAfter(store, entries[..n], attempts[..n]), entries[n], attempts[n])
  }

  /** The number of entries counted as successes. */
  function SuccessCount(attempts: seq<Attempt>): (n: nat)
    ensures n <= |attempts|
    ensures n == |attempts| <==> forall i :: 0 <= i < |attempts| ==> Succeeded(attempts[i])
    decreases |attempts|
  {
    if attempts == [] then 0
    else
      var n := |attempts| - 1;
      SuccessCount(attempts[..n]) + (if Succeeded(attempts[n]) then 1 else 0)
  }

  /**
    The attempts the code can produce for one entry, given the store before
    it, whether the client is initialised and whether the entry maps to an
    event: the branch follows the stored link, and nothing succeeds without
    an initialised client and a well-formed event.
   */
  predicate Permitted(ready: bool, mappable: bool, store: map<string, string>, entry: DateEntry, a: Attempt) {
    match a
    case StoreThrew => true
    case Updated(ok) => HasLink(store, entry.id) && (ok ==> ready && mappable)
    case Created(eventId) => !HasLink(store, entry.id) && (eventId.Some? ==> ready && mappable)
  }

  /** Whether the entry's date and time give an event, with the given date parser. */
  predicate Mappable(parse: string -> Option<int>, entry: DateEntry) {
    var start := parse(DateTimeText(entry));
    start.Some? && IsTimeValue(start.value) && IsTimeValue(start.value + TwoHoursMs)
  }

  /** The `i`-th attempt of a pass is permitted by the store the earlier entries left. */
  predicate PermittedAt(ready: bool, parse: string -> Option<int>, store: map<string, string>,
                        entries: seq<DateEntry>, attempts: seq<Attempt>, i: nat)
    requires i < |entries| == |attempts|
  {
    Permitted(ready, Mappable(parse, entries[i]),
              LinksAfter(store, entries[..i], attempts[..i]), entries[i], attempts[i])
  }

  /** A trace the sync loop can produce, entry by entry, from the store `store`. */
  predicate ValidPass(ready: bool, parse: string -> Option<int>, store: map<string, string>,
                      entries: seq<DateEntry>, attempts: seq<Attempt>)
  {
    && |attempts| == |entries|
    && forall i: nat :: i < |entries| ==> PermittedAt(ready, parse, store, entries, attempts, i)
  }

  lemma ValidPassPrefix(ready: bool, parse: string -> Option<int>, store: map<string, string>,
                        entries: seq<DateEntry>, attempts: seq<Attempt>, n: nat)
    requires ValidPass(ready, parse, store, entries, attempts)
    requires n <= |entries|
    ensures ValidPass(ready, parse, store, entries[..n], attempts[..n])
  {
    forall i: nat | i < n
      ensures PermittedAt(ready, parse, store, entries[..n], attempts[..n], i)
    {
      assert PermittedAt(ready, parse, store, entries, attempts, i);
      assert entries[..n][..i] == entries[..i];
      assert attempts[..n][..i] == attempts[..i];
    }
  }

  /** The last step of a valid pass, seen from the store the earlier entries left. */
  lemma LastStep(ready: bool, parse: string -> Option<int>, store: map<string, string>,
                 entries: seq<DateEntry>, attempts: seq<Attempt>)
    requires ValidPass(ready, parse, store, entries, attempts) && entries != []
    ensures ValidPass(ready, parse, store, entries[..|entries| - 1], attempts[..|entries| - 1])
    ensures Permitted(ready, Mappable(parse, entries[|entries| - 1]),
                      LinksAfter(store, entries[..|entries| - 1], attempts[..|entries| - 1]),
                      entries[|entries| - 1], attempts[|entries| - 1])
    ensures LinksAfter(store, entries, attempts)
         == Record(LinksAfter(store, entries[..|entries| - 1], attempts[..|entries| - 1]),
                   entries[|entries| - 1], attempts[|entries| - 1])
  {
    ValidPassPrefix(ready, parse, store, entries, attempts, |entries| - 1);
    assert PermittedAt(ready, parse, store, entries, attempts, |entries| - 1);
  }

  /** Extending a valid trace by one permitted attempt keeps it valid. */
  lemma ValidPassExtend(ready: bool, parse: string -> Option<int>, store: map<string, string>,
                        entries: seq<DateEntry>, attempts: seq<Attempt>, a: Attempt, i: nat)
    requires i < |entries| && |attempts| == i
    requires ValidPass(ready, parse, store, entries[..i], attempts)
    requires Permitted(ready, Mappable(parse, entries[i]), LinksAfter(store, entries[..i], attempts), entries[i], a)
    ensures ValidPass(ready, parse, store, entries[..i + 1], attempts + [a])
    ensures LinksAfter(store, entries[..i + 1], attempts + [a]) == Record(LinksAfter(store, entries[..i], attempts), entries[i], a)
  {
    var es, ats := entries[..i + 1], attempts + [a];
    assert es[..i] == entries[..i];
    assert ats[..i] == attempts;
    forall j: nat | j < i + 1
      ensures PermittedAt(ready, parse, store, es, ats, j)
    {
      if j < i {
        assert PermittedAt(ready, parse, store, entries[..i], attempts, j);
        assert es[..j] == entries[..i][..j];
        assert ats[..j] == attempts[..j];
        assert es[j] == entries[..i][j];
      }
    }
  }

  // ---------------------------------------------------------------------
  // What every valid pass guarantees
  // ---------------------------------------------------------------------

  /**
    A pass never removes a key, and never changes a link that holds a
    non-empty id (only an empty value, which reads as no link, can be replaced).
   */
  lemma {:induction false} PassKeepsLinks(ready: bool, parse: string -> Option<int>, store: map<string, string>,
                                          entries: seq<DateEntry>, attempts: seq<Attempt>)
    requires ValidPass(ready, parse, store, entries, attempts)
    ensures store.Keys <= LinksAfter(store, entries, attempts).Keys
    ensures forall k :: k in store && store[k] != "" ==> LinksAfter(store, entries, attempts)[k] == store[k]
    decreases |entries|
  {
    if entries != [] {
      var n := |entries| - 1;
      LastStep(ready, parse, store, entries, attempts);
      PassKeepsLinks(ready, parse, store, entries[..n], attempts[..n]);
      var before := LinksAfter(store, entries[..n], attempts[..n]);
      forall k | k in store && store[k] != ""
        ensures LinksAfter(store, entries, attempts)[k] == store[k]
      {
        assert k in before && before[k] == store[k];
      }
    }
  }

  /** A link that is present stays present, with the same id, through any valid pass. */
  lemma LinkSurvivesPass(ready: bool, parse: string -> Option<int>, store: map<string, string>,
                         entries: seq<DateEntry>, attempts: seq<Attempt>, id: string)
    requires ValidPass(ready, parse, store, entries, attempts)
    requires HasLink(store, id)
    ensures HasLink(LinksAfter(store, entries, attempts), id)
    ensures LinksAfter(store, entries, attempts)[LinkKey(id)] == store[LinkKey(id)]
  {
    PassKeepsLinks(ready, parse, store, entries, attempts);
  }

  /**
    Every key a pass adds or changes belongs to an entry whose create call
    succeeded, and holds the id that call returned.
   */
  lemma {:induction false} PassWritesOnlyCreates(store: map<string, string>, entries: seq<DateEntry>,
                                                 attempts: seq<Attempt>, k: string)
    requires |attempts| == |entries|
    requires k in LinksAfter(store, entries, attempts)
    requires k !in store || LinksAfter(store, entries, attempts)[k] != store[k]
    ensures exists i :: 0 <= i < |entries| && attempts[i].Created? && Succeeded(attempts[i])
                        && k == LinkKey(entries[i].id)
                        && LinksAfter(store, entries, attempts)[k] == attempts[i].eventId.value
    decreases |entries|
  {
    var n := |entries| - 1;
    var before := LinksAfter(store, entries[..n], attempts[..n]);
    if attempts[n].Created? && Succeeded(attempts[n]) && k == LinkKey(entries[n].id) {
      assert LinksAfter(store, entries, attempts)[k] == attempts[n].eventId.value;
    } else {
      assert LinksAfter(store, entries, attempts) == Record(before, entries[n], attempts[n]);
      assert k in before && before[k] == LinksAfter(store, entries, attempts)[k];
      PassWritesOnlyCreates(store, entries[..n], attempts[..n], k);
      var i :| 0 <= i < n && attempts[..n][i].Created? && Succeeded(attempts[..n][i])
               && k == LinkKey(entries[..n][i].id) && before[k] == attempts[..n][i].eventId.value;
      assert attempts[i] == attempts[..n][i] && entries[i] == entries[..n][i];
    }
  }

  /** After a pass, every entry whose create succeeded is linked to the id it was given. */
  lemma {:induction false} CreatedEntriesLinked(ready: bool, parse: string -> Option<int>, store: map<string, string>,
                                                entries: seq<DateEntry>, attempts: seq<Attempt>, i: nat)
    requires ValidPass(ready, parse, store, entries, attempts)
    requires i < |entries| && attempts[i].Created? && Succeeded(attempts[i])
    ensures HasLink(LinksAfter(store, entries, attempts), entries[i].id)
    ensures LinksAfter(store, entries, attempts)[LinkKey(entries[i].id)] == attempts[i].eventId.value
    decreases |entries|
  {
    var n := |entries| - 1;
    LastStep(ready, parse, store, entries, attempts);
    var before := LinksAfter(store, entries[..n], attempts[..n]);
    if i < n {
      var key := LinkKey(entries[i].id);
      assert entries[..n][i] == entries[i] && attempts[..n][i] == attempts[i];
      CreatedEntriesLinked(ready, parse, store, entries[..n], attempts[..n], i);
      assert HasLink(before, entries[i].id) && before[key] == attempts[i].eventId.value;
      if attempts[n].Created? && Succeeded(attempts[n]) {
        assert LinkKey(entries[n].id) != key;
      }
    }
  }

  /** Within one pass, an entry repeating the id of a successfully created one never creates again. */
  lemma LaterDuplicateNeverCreates(ready: bool, parse: string -> Option<int>, store: map<string, string>,
                                   entries: seq<DateEntry>, attempts: seq<Attempt>, i: nat, j: nat)
    requires ValidPass(ready, parse, store, entries, attempts)
    requires i < j < |entries| && entries[i].id == entries[j].id
    requires attempts[i].Created? && Succeeded(attempts[i])
    ensures !attempts[j].Created?
  {
    ValidPassPrefix(ready, parse, store, entries, attempts, j + 1);
    LastStep(ready, parse, store, entries[..j + 1], attempts[..j + 1]);
    assert entries[..j + 1][..j] == entries[..j] && attempts[..j + 1][..j] == attempts[..j];
    assert entries[..j][i] == entries[i] && attempts[..j][i] == attempts[i];
    CreatedEntriesLinked(ready, parse, store, entries[..j], attempts[..j], i);
  }

  /**
    Re-syncing is idempotent in its branching: in any later pass over the
    store a pass left behind, an entry created in the first pass is never
    created again.
   */
  lemma SecondPassNeverRecreates(ready1: bool, ready2: bool, parse: string -> Option<int>, store: map<string, string>,
                                 entries1: seq<DateEntry>, attempts1: seq<Attempt>,
                                 entries2: seq<DateEntry>, attempts2: seq<Attempt>, i: nat, j: nat)
    requires ValidPass(ready1, parse, store, entries1, attempts1)
    requires ValidPass(ready2, parse, LinksAfter(store, entries1, attempts1), entries2, attempts2)
    requires i < |entries1| && attempts1[i].Created? && Succeeded(attempts1[i])
    requires j < |entries2| && entries2[j].id == entries1[i].id
    ensures !attempts2[j].Created?
  {
    var middle := LinksAfter(store, entries1, attempts1);
    CreatedEntriesLinked(ready1, parse, store, entries1, attempts1, i);
    ValidPassPrefix(ready2, parse, middle, entries2, attempts2, j);
    LinkSurvivesPass(ready2, parse, middle, entries2[..j], attempts2[..j], entries1[i].id);
    assert PermittedAt(ready2, parse, middle, entries2, attempts2, j);
  }

  /**
    An entry whose date does not give an event (invalid, or too close to the
    end of the time range for a two-hour window) is always counted as failed.
   */
  lemma UnmappableEntryFails(ready: bool, parse: string -> Option<int>, store: map<string, string>,
                             entries: seq<DateEntry>, attempts: seq<Attempt>, i: nat)
    requires ValidPass(ready, parse, store, entries, attempts)
    requires i < |entries| && !Mappable(parse, entries[i])
    ensures !Succeeded(attempts[i])
  {
    assert PermittedAt(ready, parse, store, entries, attempts, i);
  }

  /** With an uninitialised client, every entry fails and the store is untouched. */
  lemma {:induction false} UninitialisedPassFails(parse: string -> Option<int>, store: map<string, string>,
                                                  entries: seq<DateEntry>, attempts: seq<Attempt>)
    requires ValidPass(false, parse, store, entries, attempts)
    ensures SuccessCount(attempts) == 0
    ensures LinksAfter(store, entries, attempts) == store
    decreases |entries|
  {
    if entries != [] {
      var n := |entries| - 1;
      LastStep(false, parse, store, entries, attempts);
      UninitialisedPassFails(parse, store, entries[..n], attempts[..n]);
    }
  }

  // ---------------------------------------------------------------------
  // The service
  // ---------------------------------------------------------------------

  /** The two states of the service: no client yet, or a client holding an access token. */
  datatype Client = Uninitialised | Ready(accessToken: string)

  class GoogleCalendarService {
    /** The OAuth client and the calendar client, which are set together. */
    var client: Client
    /** The browser storage entries the sync reads and writes. */
    var links: map<string, string>
    /** `new Date(text)`, as milliseconds, or None for an invalid date. */
    const parseInstant: string -> Option<int>
    /** The time zone the runtime resolves. */
    const timeZone: string

    constructor (parseInstant: string -> Option<int>, timeZone: string, storage: map<string, string>)
      ensures client == Uninitialised && links == storage
      ensures this.parseInstant == parseInstant && this.timeZone == timeZone
    {
      client := Uninitialised;
      links := storage;
      this.parseInstant := parseInstant;
      this.timeZone := timeZone;
    }

    /** Creating the clients may fail; a failure leaves the previous client in place. */
    method Initialize(accessToken: string) returns (ok: bool)
      modifies this`client
      ensures ok ==> client == Ready(accessToken)
      ensures !ok ==> client == old(client)
    {
      ok := *;
      if ok {
        client := Ready(accessToken);
      }
    }

    function EventFor(entry: DateEntry): (r: Option<CalendarEvent>)
      ensures r.Some? <==> Mappable(parseInstant, entry)
    {
      ToCalendarEvent(entry, parseInstant(DateTimeText(entry)), timeZone)
    }

    /** Inserts the entry's event; the remote id, or None for any failure. */
    method CreateEvent(entry: DateEntry) returns (eventId: Option<string>)
      ensures client.Uninitialised? ==> eventId == None
      ensures !Mappable(parseInstant, entry) ==> eventId == None
    {
      if client.Uninitialised? {
        return None;
      }
      var event := EventFor(entry);
      if event.None? {
        // toISOString threw inside the try block
        return None;
      }
      eventId := *;  // the inserted event's id, if the remote call succeeds
    }

    /** Replaces a remote event with the entry's event. */
    method UpdateEvent(eventId: string, entry: DateEntry) returns (ok: bool)
      ensures client.Uninitialised? ==> !ok
      ensures !Mappable(parseInstant, entry) ==> !ok
    {
      if client.Uninitialised? {
        return false;
      }
      var event := EventFor(entry);
      if event.None? {
        return false;
      }
      ok := *;
    }

    method DeleteEvent(eventId: string) returns (ok: bool)
      ensures client.Uninitialised? ==> !ok
    {
      if client.Uninitialised? {
        return false;
      }
      ok := *;
    }

    /**
      Lists events between two optional instants; the lower bound defaults to
      `now`, the current instant. A bound that is not a valid time value makes
      `toISOString` throw, which yields [].
     */
    method GetEvents(startMs: Option<int>, endMs: Option<int>, now: int) returns (events: seq<CalendarEvent>)
      ensures client.Uninitialised? ==> events == []
      ensures startMs.Some? && !IsTimeValue(startMs.value) ==> events == []
      ensures startMs.None? && !IsTimeValue(now) ==> events == []
      ensures endMs.Some? && !IsTimeValue(endMs.value) ==> events == []
    {
      if client.Uninitialised? {
        return [];
      }
      var timeMin := if startMs.Some? then startMs.value else now;
      if !IsTimeValue(timeMin) || (endMs.Some? && !IsTimeValue(endMs.value)) {
        return [];
      }
      events := *;
    }

    /** Probes the calendar list; false on any failure. */
    method HasCalendarPermission() returns (granted: bool)
      ensures client.Uninitialised? ==> !granted
    {
      if client.Uninitialised? {
        return false;
      }
      granted := *;
    }

    /**
      The body of the sync loop for one entry: update the linked event, or
      create one and record the link. Any storage exception is caught and
      counts as a failure.
     */
    method SyncEntry(entry: DateEntry) returns (ok: bool, ghost attempt: Attempt)
      modifies this`links
      ensures Permitted(client.Ready?, Mappable(parseInstant, entry), old(links), entry, attempt)
      ensures links == Record(old(links), entry, attempt)
      ensures ok == Succeeded(attempt)
    {
      var threw: bool := *;  // localStorage.getItem threw
      if threw {
        return false, StoreThrew;
      }
      var existing := GetItem(links, LinkKey(entry.id));
      if Truthy(existing) {
        ok := UpdateEvent(existing.value, entry);
        attempt := Updated(ok);
        return;
      }
      var eventId := CreateEvent(entry);
      if !Truthy(eventId) {
        return false, Created(eventId);
      }
      var writeThrew: bool := *;  // localStorage.setItem threw
      if writeThrew {
        return false, StoreThrew;
      }
      links := links[LinkKey(entry.id) := eventId.value];
      return true, Created(eventId);
    }

    /**
      One best-effort pass over the entries, in order: update through the
      stored link when there is one, otherwise create and store the new id.
      Every entry is attempted and counted exactly once.
     */
    method SyncDateEntries(entries: seq<DateEntry>) returns (success: nat, failed: nat, ghost attempts: seq<Attempt>)
      modifies this`links
      ensures ValidPass(client.Ready?, parseInstant, old(links), entries, attempts)
      ensures links == LinksAfter(old(links), entries, attempts)
      ensures success == SuccessCount(attempts)
      ensures success + failed == |entries|
      ensures client.Uninitialised? ==> success == 0 && failed == |entries| && links == old(links)
    {
      success, failed := 0, 0;
      attempts := [];
      for i := 0 to |entries|
        invariant |attempts| == i
        invariant ValidPass(client.Ready?, parseInstant, old(links), entries[..i], attempts)
        invariant links == LinksAfter(old(links), entries[..i], attempts)
        invariant success == SuccessCount(attempts) && success + failed == i
      {
        var ok, attempt := SyncEntry(entries[i]);
        if ok {
          success := success + 1;
        } else {
          failed := failed + 1;
        }
        ValidPassExtend(client.Ready?, parseInstant, old(links), entries, attempts, attempt, i);
        assert entries[..i + 1][..i] == entries[..i];
        assert (attempts + [attempt])[..i] == attempts;
        attempts := attempts + [attempt];
      }
      assert entries[..|entries|] == entries;
      if client.Uninitialised? {
        UninitialisedPassFails(parseInstant, old(links), entries, attempts);
      }
    }
  }
}
