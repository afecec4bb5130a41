/**
 The watching script. It prints one record at start-up, then re-queries and
 prints again on filesystem events about the database file family, at most
 once per debounce interval (leading edge: the first qualifying event of a
 window fires, later ones in the window are dropped). If the watcher cannot
 start, or fails later, it prints one fallback record.

 Time is the value the script reads from the wall clock, passed in as a real
 number of seconds.
 */
module SignalUnreadWatch {
  import opened Decimal
  import opened Status
  import opened StoreReader

  const ClickHelp: string := "\n\nClick to open Signal"
  const DbFileName: string := "db.sqlite"
  const DebounceInterval: real := 1.0

  /** This script's record for `count`: the shared layout with its own hint. */
  function FormatOutput(count: nat): (r: StatusRecord)
    ensures r.cssClass == ClassRead <==> count == 0
    ensures r.tooltip == Summary(count) + ClickHelp
  {
    Format(count, ClickHelp)
  }

  /** The record printed after querying `store`. */
  function Emit(store: Store): (r: StatusRecord)
    ensures r.cssClass == ClassRead <==> GetUnreadCount(store) == 0
  {
    FormatOutput(GetUnreadCount(store))
  }

  /** One filesystem notification: the file name it carries (None when the
      event is about the directory itself), the clock reading when the
      handler runs, and the store as a query at that moment would find it. */
  datatype Event = Event(name: Option<string>, time: real, store: Store)

  /** The filter: the database file itself or any sidecar whose name extends it
      (the write-ahead log and shared-memory files). */
  function IsRelevant(name: Option<string>): (b: bool)
    ensures b <==> name.Some? && DbFileName <= name.value
  {
    name.Some? && name.value != "" && (name.value == DbFileName || DbFileName <= name.value)
  }

  /** Whether the handler re-queries and prints for `e` when the last update was at `last`. */
  predicate Fires(last: real, e: Event) {
    IsRelevant(e.name) && e.time - last >= DebounceInterval
  }

  /** The debounce state after a run of events: the last-update time and the
      events that fired, in order. */
  datatype Debounce = Debounce(lastUpdate: real, fired: seq<Event>)

  /** The debounce state machine applied to `events`, starting from `last`. */
  function Session(last: real, events: seq<Event>): (d: Debounce)
    ensures |d.fired| <= |events|
    ensures d.lastUpdate == if d.fired == [] then last else d.fired[|d.fired| - 1].time
  {
    if events == [] then
      Debounce(last, [])
    else
      var d := Session(last, events[..|events| - 1]);
      var e := events[|events| - 1];
      if Fires(d.lastUpdate, e) then Debounce(e.time, d.fired + [e]) else d
  }

  /** Only events about the database file family ever fire. */
  lemma {:induction false} SessionFiresRelevant(last: real, events: seq<Event>)
    ensures forall i :: 0 <= i < |Session(last, events).fired| ==> IsRelevant(Session(last, events).fired[i].name)
  {
    if events != [] {
      SessionFiresRelevant(last, events[..|events| - 1]);
    }
  }

  /** The records printed for the events that fired. */
  function Records(fired: seq<Event>): (rs: seq<StatusRecord>)
    ensures |rs| == |fired|
  {
    if fired == [] then [] else Records(fired[..|fired| - 1]) + [Emit(fired[|fired| - 1].store)]
  }

  /** The clock readings of the events that fired. */
  function Times(fired: seq<Event>): (ts: seq<real>)
    ensures |ts| == |fired|
    ensures fired != [] ==> ts[|ts| - 1] == fired[|fired| - 1].time
  {
    if fired == [] then [] else Times(fired[..|fired| - 1]) + [fired[|fired| - 1].time]
  }

  /** One more event extends the session by at most that event. */
  lemma SessionStep(last: real, events: seq<Event>, i: nat)
    requires i < |events|
    ensures var d := Session(last, events[..i]);
            Session(last, events[..i + 1])
              == if Fires(d.lastUpdate, events[i]) then Debounce(events[i].time, d.fired + [events[i]]) else d
  {
    assert events[..i + 1][..i] == events[..i];
  }

  /** Printing one more fired event extends the printed lines by its record. */
  lemma RecordsAppend(out0: seq<StatusRecord>, fired: seq<Event>, e: Event, out: seq<StatusRecord>)
    requires out == out0 + Records(fired)
    ensures out + [Emit(e.store)] == out0 + Records(fired + [e])
  {
    assert (fired + [e])[..|fired|] == fired;
  }

  /** One more firing extends the emission times by its time. */
  lemma TimesAppend(at0: seq<real>, fired: seq<Event>, e: Event, at: seq<real>)
    requires at == at0 + Times(fired)
    ensures at + [e.time] == at0 + Times(fired + [e])
  {
    assert (fired + [e])[..|fired|] == fired;
  }

  /** After the events `events[..i]`, starting from `last0` with `out0`
      printed at times `at0`: the lines printed, their times and `last_update`
      are those of the session over that prefix. */
  ghost predicate Replays(last0: real, out0: seq<StatusRecord>, at0: seq<real>, events: seq<Event>, i: nat,
                          out: seq<StatusRecord>, at: seq<real>, lastUpdate: real)
    requires i <= |events|
  {
    var d := Session(last0, events[..i]);
    && out == out0 + Records(d.fired)
    && at == at0 + Times(d.fired)
    && lastUpdate == d.lastUpdate
  }

  /** Handling `events[i]` as the handler does extends the replayed prefix by one. */
  lemma ReplaysStep(last0: real, out0: seq<StatusRecord>, at0: seq<real>, events: seq<Event>, i: nat,
                    out: seq<StatusRecord>, at: seq<real>, lastUpdate: real)
    requires i < |events|
    requires Replays(last0, out0, at0, events, i, out, at, lastUpdate)
    ensures var e := events[i];
            if Fires(lastUpdate, e)
            then Replays(last0, out0, at0, events, i + 1, out + [Emit(e.store)], at + [e.time], e.time)
            else Replays(last0, out0, at0, events, i + 1, out, at, lastUpdate)
  {
    var d, e := Session(last0, events[..i]), events[i];
    SessionStep(last0, events, i);
    if Fires(lastUpdate, e) {
      RecordsAppend(out0, d.fired, e, out);
      TimesAppend(at0, d.fired, e, at);
    }
  }

  /** Consecutive clock readings that led to a printed line are at least one
      debounce interval apart. */
  ghost predicate Spaced(ts: seq<real>) {
    forall i :: 0 < i < |ts| ==> ApartFromPrevious(ts, i)
  }

  ghost predicate ApartFromPrevious(ts: seq<real>, i: nat)
    requires 0 < i < |ts|
  {
    ts[i] - ts[i - 1] >= DebounceInterval
  }

  lemma SpacedAppend(ts: seq<real>, t: real)
    requires Spaced(ts) && |ts| > 0 && t - ts[|ts| - 1] >= DebounceInterval
    ensures Spaced(ts + [t])
  {
    var ts' := ts + [t];
    forall i | 0 < i < |ts'| ensures ApartFromPrevious(ts', i) {
      if i < |ts| {
        assert ApartFromPrevious(ts, i);
      }
    }
  }

  /** The events that pass the filter, in order. */
  function Relevant(events: seq<Event>): (rs: seq<Event>)
    ensures |rs| <= |events|
  {
    if events == [] then []
    else
      var e := events[|events| - 1];
      Relevant(events[..|events| - 1]) + (if IsRelevant(e.name) then [e] else [])
  }

  /** Every emission after the last update, and each after the one before it,
      comes at least one debounce interval later. */
  lemma {:induction false} SessionSpaced(last: real, events: seq<Event>)
    ensures Spaced([last] + Times(Session(last, events).fired))
  {
    if events != [] {
      var pre := events[..|events| - 1];
      SessionSpaced(last, pre);
      var d := Session(last, pre);
      var e := events[|events| - 1];
      if Fires(d.lastUpdate, e) {
        assert Session(last, events).fired == d.fired + [e];
        assert Times(d.fired + [e]) == Times(d.fired) + [e.time];
        assert [last] + Times(d.fired + [e]) == ([last] + Times(d.fired)) + [e.time];
        SpacedAppend([last] + Times(d.fired), e.time);
      }
    }
  }

  /** Events outside the database file family change nothing: the session
      over all events equals the session over the relevant ones. */
  lemma {:induction false} SessionIgnoresIrrelevant(last: real, events: seq<Event>)
    ensures Session(last, events) == Session(last, Relevant(events))
  {
    if events != [] {
      var pre := events[..|events| - 1];
      var e := events[|events| - 1];
      SessionIgnoresIrrelevant(last, pre);
      var rp := Relevant(pre);
      if IsRelevant(e.name) {
        assert Relevant(events) == rp + [e];
        assert (rp + [e])[..|rp|] == rp;
      } else {
        assert Relevant(events) == rp;
      }
    }
  }

  /** Two qualifying events, the first outside the window: the second fires
      exactly when it comes at least one interval after the first. */
  lemma DebounceTwoEvents(last: real, e1: Event, e2: Event)
    requires IsRelevant(e1.name) && IsRelevant(e2.name)
    requires e1.time - last >= DebounceInterval
    ensures Session(last, [e1, e2]).fired == if e2.time - e1.time >= DebounceInterval then [e1, e2] else [e1]
  {
    assert [e1, e2][..1] == [e1];
    assert [e1][..0] == [];
  }

  /** There is no trailing re-check: a change committed inside the window is
      not shown, and the last record printed reflects the earlier state. */
  lemma DroppedChangeInWindow()
    ensures var e1 := Event(Some("db.sqlite-wal"), 10.0, Store(true, Rows(1)));
            var e2 := Event(Some("db.sqlite"), 10.5, Store(true, Rows(2)));
            Records(Session(9.0, [e1, e2]).fired) == [Emit(e1.store)]
  {
    var e1 := Event(Some("db.sqlite-wal"), 10.0, Store(true, Rows(1)));
    var e2 := Event(Some("db.sqlite"), 10.5, Store(true, Rows(2)));
    assert DbFileName <= "db.sqlite-wal";
    DebounceTwoEvents(9.0, e1, e2);
    assert [e1][..0] == [];
  }

  /** The event watcher: the one-element `last_update` cell of the script and
      the lines printed so far. `emittedAt` records, for the proof only, the
      clock reading that decided each line: the start time for the start-up
      line, and the time read before the query for every later one. */
  class Watcher {
    var lastUpdate: real
    var output: seq<StatusRecord>
    ghost var emittedAt: seq<real>

    ghost predicate Valid()
      reads this
    {
      && |emittedAt| == |output| >= 1
      && emittedAt[|emittedAt| - 1] == lastUpdate
      && Spaced(emittedAt)
    }

    /** Start-up: print the initial state, then read the clock into `lastUpdate`. */
    constructor (startTime: real, store: Store)
      ensures Valid()
      ensures output == [Emit(store)] && emittedAt == [startTime]
      ensures lastUpdate == startTime
    {
      output := [];
      new;
      OutputStatus(GetUnreadCount(store));
      emittedAt := [startTime];
      lastUpdate := startTime;
    }

    /** Print the record for `count`. */
    method OutputStatus(count: nat)
      modifies this`output
      ensures output == old(output) + [FormatOutput(count)]
    {
      output := output + [FormatOutput(count)];
    }

    /** The handler for one filesystem event. */
    method ProcessDefault(e: Event)
      requires Valid()
      modifies this
      ensures Valid()
      ensures Fires(old(lastUpdate), e) ==>
                && output == old(output) + [Emit(e.store)]
                && emittedAt == old(emittedAt) + [e.time]
                && lastUpdate == e.time
      ensures !Fires(old(lastUpdate), e) ==>
                output == old(output) && emittedAt == old(emittedAt) && lastUpdate == old(lastUpdate)
    {
      if IsRelevant(e.name) {
        var now := e.time;
        if now - lastUpdate >= DebounceInterval {
          var count := GetUnreadCount(e.store);
          OutputStatus(count);
          SpacedAppend(emittedAt, now);
          emittedAt := emittedAt + [now];
          lastUpdate := now;
        }
      }
    }

    /** The state after the notifier loop has handled `events[..i]`, starting
        from `last0` with `out0` printed at emission times `at0`. */
    ghost predicate Replayed(last0: real, out0: seq<StatusRecord>, at0: seq<real>, events: seq<Event>, i: nat)
      requires i <= |events|
      reads this
    {
      Replays(last0, out0, at0, events, i, output, emittedAt, lastUpdate)
    }

    /** Handle `events[i]`, extending the replayed prefix by one event. */
    method HandleNext(ghost last0: real, ghost out0: seq<StatusRecord>, ghost at0: seq<real>, events: seq<Event>, i: nat)
      requires i < |events|
      requires Valid() && Replayed(last0, out0, at0, events, i)
      modifies this
      ensures Valid() && Replayed(last0, out0, at0, events, i + 1)
    {
      ReplaysStep(last0, out0, at0, events, i, output, emittedAt, lastUpdate);
      ProcessDefault(events[i]);
    }

    /** The notifier loop over the events delivered so far. */
    method Loop(events: seq<Event>)
      requires Valid()
      modifies this
      ensures Valid()
      ensures var d := Session(old(lastUpdate), events);
              && output == old(output) + Records(d.fired)
              && emittedAt == old(emittedAt) + Times(d.fired)
              && lastUpdate == d.lastUpdate
    {
      ghost var last0, out0, at0 := lastUpdate, output, emittedAt;
      var i := 0;
      assert events[..0] == [];
      while i < |events|
        invariant 0 <= i <= |events|
        invariant Valid() && Replayed(last0, out0, at0, events, i)
      {
        HandleNext(last0, out0, at0, events, i);
        i := i + 1;
      }
      assert events[..i] == events;
    }
  }

  /** How a watch run ends. */
  datatype Fault =
    | Running                     // still looping over events
    | Crashed(fallback: Store)    // an exception escaped after the listed events; `fallback` is the store when it is re-queried

  /** The watch mode's course, as far as it is observed. */
  datatype WatchRun =
    | Unavailable(store: Store)   // the inotify module cannot be imported
    | Started(startTime: real, initial: Store, events: seq<Event>, fault: Fault)

  /** Everything watch mode prints. */
  function WatchTrace(run: WatchRun): (out: seq<StatusRecord>)
    ensures |out| >= 1
  {
    match run
    case Unavailable(store) => [Emit(store)]
    case Started(startTime, initial, events, fault) =>
      [Emit(initial)] + Records(Session(startTime, events).fired)
      + (if fault.Crashed? then [Emit(fault.fallback)] else [])
  }

  /** Watch mode: start-up emission, the event loop, and the fallback emissions. */
  method WatchWithInotify(run: WatchRun) returns (out: seq<StatusRecord>)
    ensures out == WatchTrace(run)
  {
    match run
    case Unavailable(store) =>
      out := [FormatOutput(GetUnreadCount(store))];
    case Started(startTime, initial, events, fault) =>
      var w := new Watcher(startTime, initial);
      w.Loop(events);
      out := w.output;
      if fault.Crashed? {
        out := out + [FormatOutput(GetUnreadCount(fault.fallback))];
      }
  }

  /** The script's entry: watch mode with `--watch` as first argument, else one record. */
  method RunScript(argv: seq<string>, run: WatchRun, store: Store) returns (out: seq<StatusRecord>)
    ensures |argv| > 1 && argv[1] == "--watch" ==> out == WatchTrace(run)
    ensures !(|argv| > 1 && argv[1] == "--watch") ==> out == [Emit(store)]
  {
    if |argv| > 1 && argv[1] == "--watch" {
      out := WatchWithInotify(run);
    } else {
      var count := GetUnreadCount(store);
      out := [FormatOutput(count)];
    }
  }

  /** When the watcher cannot start, exactly one record is printed; a later
      failure adds exactly one record after those already printed. */
  lemma FallbackEmitsOne(run: WatchRun)
    ensures run.Unavailable? ==> |WatchTrace(run)| == 1
    ensures run.Started? && run.fault.Crashed? ==>
              WatchTrace(run) == WatchTrace(run.(fault := Running)) + [Emit(run.fault.fallback)]
  {
  }

  /** The record shows a count the store reader can produce. */
  predicate ShowsDisplayableCount(r: StatusRecord) {
    CountOf(r).Some? && CountOf(r).value <= MaxCountDisplay
  }

  lemma EmitDisplayable(store: Store)
    ensures ShowsDisplayableCount(Emit(store))
  {
    FormatCountOf(GetUnreadCount(store), ClickHelp);
  }

  lemma {:induction false} RecordsDisplayable(fired: seq<Event>)
    ensures forall j :: 0 <= j < |Records(fired)| ==> ShowsDisplayableCount(Records(fired)[j])
  {
    if fired != [] {
      var pre, e := fired[..|fired| - 1], fired[|fired| - 1];
      RecordsDisplayable(pre);
      EmitDisplayable(e.store);
      assert Records(fired) == Records(pre) + [Emit(e.store)];
    }
  }

  /** Every record watch mode prints shows a count from 0 to MaxCountDisplay. */
  lemma WatchTraceBounded(run: WatchRun)
    ensures forall i :: 0 <= i < |WatchTrace(run)| ==> ShowsDisplayableCount(WatchTrace(run)[i])
  {
    match run
    case Unavailable(store) =>
      EmitDisplayable(store);
    case Started(t, initial, events, fault) =>
      var middle := Records(Session(t, events).fired);
      var tail := if fault.Crashed? then [Emit(fault.fallback)] else [];
      EmitDisplayable(initial);
      RecordsDisplayable(Session(t, events).fired);
      if fault.Crashed? {
        EmitDisplayable(fault.fallback);
      }
      assert forall j :: 0 <= j < |tail| ==> ShowsDisplayableCount(tail[j]);
      assert WatchTrace(run) == [Emit(initial)] + middle + tail;
  }

  /** Watch mode prints at most one record per relevant event, besides the
      start-up record and the fallback record. */
  lemma WatchTraceLength(run: WatchRun)
    ensures run.Started? ==>
              |WatchTrace(run)| <= 1 + |Relevant(run.events)| + (if run.fault.Crashed? then 1 else 0)
  {
    if run.Started? {
      SessionIgnoresIrrelevant(run.startTime, run.events);
    }
  }
}
