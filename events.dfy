/** What `ListenForEvents` consumes and reports: destroy notifications and
    the three OS signals it subscribes to, merged into one stream in the
    order `select` takes them. */
module Events {
  import opened Wrappers
  import opened Games
  import opened Listing
  import opened Registry

  datatype Signal = SigTerm | SigInt | SigUsr1

  datatype Event = DestroyGame(game: Game) | OsSignal(signal: Signal)

  /** One "room #n" log line of the status dump. */
  datatype RoomLine = RoomLine(number: nat, room: string, clients: nat)

  /** The status dump: "no active rooms", or one line per room. */
  datatype Report = NoActiveRooms | ActiveRooms(lines: seq<RoomLine>)

  /** What one pass of the loop does after handling an event. */
  datatype Step = Continue(report: Option<Report>) | ShutDown

  /** SIGTERM and SIGINT end the loop; SIGUSR1 does not. */
  predicate IsTermination(e: Event) {
    e.OsSignal? && e.signal != SigUsr1
  }

  predicate IsStatus(e: Event) {
    e == OsSignal(SigUsr1)
  }

  /** The rooms of a report's lines, in order. */
  function Rooms(lines: seq<RoomLine>): (rooms: seq<string>)
    ensures |rooms| == |lines|
    ensures forall i :: 0 <= i < |lines| ==> rooms[i] == lines[i].room
  {
    seq(|lines|, i requires 0 <= i < |lines| => lines[i].room)
  }

  /** The report lists every key of `t` exactly once, in ascending order,
      numbered from 1, each with its game's client count; an empty table
      gives only "no active rooms". */
  ghost predicate Describes(report: Report, t: Table, clientsOf: Game -> nat) {
    if |t| == 0 then report == NoActiveRooms
    else
      && report.ActiveRooms?
      && |report.lines| == |t|
      && StrictlySorted(Rooms(report.lines))
      && (forall k :: k in t <==> k in Rooms(report.lines))
      && (forall i :: 0 <= i < |report.lines| ==>
            report.lines[i].number == i + 1 && report.lines[i].room in t &&
            report.lines[i].clients == clientsOf(t[report.lines[i].room]))
  }

  /** Numbering the sorted keys of a non-empty table gives its report. */
  lemma NumberedKeysDescribe(sorted: seq<string>, lines: seq<RoomLine>, t: Table, clientsOf: Game -> nat)
    requires |t| > 0 && |sorted| == |t| && StrictlySorted(sorted)
    requires forall k :: k in sorted <==> k in t
    requires |lines| == |sorted|
    requires forall j :: 0 <= j < |lines| ==> lines[j] == RoomLine(j + 1, sorted[j], clientsOf(t[sorted[j]]))
    ensures Describes(ActiveRooms(lines), t, clientsOf)
  {
  }

  /** The status dump is fully determined by the registry: the order in
      which the map hands out its keys leaves no trace. */
  lemma {:induction false} DescribesUnique(r1: Report, r2: Report, t: Table, clientsOf: Game -> nat)
    requires Describes(r1, t, clientsOf) && Describes(r2, t, clientsOf)
    ensures r1 == r2
  {
    if |t| != 0 {
      var a, b := Rooms(r1.lines), Rooms(r2.lines);
      SortedUnique(a, b);
      assert forall i :: 0 <= i < |a| ==> r1.lines[i] == r2.lines[i];
    }
  }

  /** The effect of one event on the registry. */
  function After(t: Table, e: Event): (r: Table)
    ensures !e.DestroyGame? ==> r == t
  {
    if e.DestroyGame? then Remove(t, e.game) else t
  }

  /** The registry after a sequence of events: never a room it did not have. */
  function Replay(t: Table, events: seq<Event>): (r: Table)
    ensures r.Keys <= t.Keys
    decreases |events|
  {
    if events == [] then t else After(Replay(t, events[..|events| - 1]), events[|events| - 1])
  }

  /** The registry as it stood at each SIGUSR1 among the events, in order:
      what the successive status dumps describe. */
  ghost function StatusStates(t: Table, events: seq<Event>): seq<Table>
    decreases |events|
  {
    if events == [] then []
    else
      var init := events[..|events| - 1];
      StatusStates(t, init) + (if IsStatus(events[|events| - 1]) then [Replay(t, init)] else [])
  }

  /** The positions of the SIGUSR1 events, in ascending order: where each
      status dump is taken, and so which client counts it reads. */
  function StatusPositions(events: seq<Event>): (r: seq<nat>)
    ensures forall j :: 0 <= j < |r| ==> r[j] < |events| && IsStatus(events[r[j]])
    ensures forall j, k :: 0 <= j < k < |r| ==> r[j] < r[k]
    ensures forall i :: 0 <= i < |events| && IsStatus(events[i]) ==> i in r
    decreases |events|
  {
    if events == [] then []
    else
      var init := events[..|events| - 1];
      StatusPositions(init) + (if IsStatus(events[|events| - 1]) then [|events| - 1] else [])
  }

  /** The position of the first SIGTERM or SIGINT, or the length when there is none. */
  function FirstTermination(events: seq<Event>): (n: nat)
    ensures n <= |events|
    ensures forall j :: 0 <= j < n ==> !IsTermination(events[j])
    ensures n < |events| ==> IsTermination(events[n])
    decreases |events|
  {
    if events == [] then 0
    else if IsTermination(events[0]) then 0
    else 1 + FirstTermination(events[1..])
  }

  /** Each report describes the registry state of the same rank, with the
      client counts in force at the event position of the same rank. */
  ghost predicate DescribesAll(reports: seq<Report>, states: seq<Table>, positions: seq<nat>,
                               clientsAt: nat -> (Game -> nat)) {
    && |reports| == |states| == |positions|
    && forall j :: 0 <= j < |reports| ==> Describes(reports[j], states[j], clientsAt(positions[j]))
  }

  lemma DescribesAllSnoc(reports: seq<Report>, states: seq<Table>, positions: seq<nat>,
                         r: Report, t: Table, i: nat, clientsAt: nat -> (Game -> nat))
    requires DescribesAll(reports, states, positions, clientsAt) && Describes(r, t, clientsAt(i))
    ensures DescribesAll(reports + [r], states + [t], positions + [i], clientsAt)
  {
  }

  /** Handling one more event: the registry takes that event's effect, and a
      SIGUSR1 records the registry as it stood. */
  lemma ReplayStep(t: Table, events: seq<Event>, i: nat)
    requires i < |events|
    ensures Replay(t, events[..i + 1]) == After(Replay(t, events[..i]), events[i])
    ensures StatusStates(t, events[..i + 1]) ==
      StatusStates(t, events[..i]) + (if IsStatus(events[i]) then [Replay(t, events[..i])] else [])
    ensures StatusPositions(events[..i + 1]) ==
      StatusPositions(events[..i]) + (if IsStatus(events[i]) then [i] else [])
  {
    assert events[..i + 1][..i] == events[..i];
  }

  /** The loop's shutdown position: a termination signal with none before it
      is the first one. */
  lemma FirstTerminationAt(events: seq<Event>, i: nat)
    requires i < |events| && IsTermination(events[i])
    requires forall j :: 0 <= j < i ==> !IsTermination(events[j])
    ensures FirstTermination(events) == i
  {
  }

  /** How many events the loop takes: up to and including the first
      termination signal, or all of them. */
  function Handled(events: seq<Event>): (n: nat)
    ensures n <= |events|
    ensures n < |events| ==> 0 < n && IsTermination(events[n - 1])
    ensures forall j :: 0 <= j < n - 1 ==> !IsTermination(events[j])
  {
    if FirstTermination(events) < |events| then FirstTermination(events) + 1 else |events|
  }

  /** No event in the sequence destroys a game whose room has key `k`. */
  ghost predicate Spares(events: seq<Event>, k: string) {
    forall i :: 0 <= i < |events| && events[i].DestroyGame? ==> RoomKey(events[i].game.room) != k
  }

  /** Replaying events only ever removes rooms, and never those no destroyed
      game names; it keeps the registry's invariants. */
  lemma {:induction false} ReplayOnlyRemoves(t: Table, events: seq<Event>)
    ensures forall k :: k in Replay(t, events) ==> k in t && Replay(t, events)[k] == t[k]
    ensures forall k :: k in t && Spares(events, k) ==> k in Replay(t, events)
    ensures Normalized(t) ==> Normalized(Replay(t, events))
    ensures Indexed(t) ==> Indexed(Replay(t, events))
    decreases |events|
  {
    if events != [] {
      var init := events[..|events| - 1];
      ReplayOnlyRemoves(t, init);
      var last := events[|events| - 1];
      if last.DestroyGame? { RemovePreservesInvariants(Replay(t, init), last.game); }
      forall k | k in t && Spares(events, k) ensures k in Replay(t, events) {
        assert forall i :: 0 <= i < |init| ==> init[i] == events[i];
      }
    }
  }
}
