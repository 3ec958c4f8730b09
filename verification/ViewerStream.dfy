/** Keyed-state stream operator: per-viewer histories in event time, lateness, and point-in-time snapshots. */
module ViewerStream {
  import opened Seqs
  import opened Dedup
  import opened Sorting
  import Lex

  const ACTION_IDS: map<string, int> :=
    map["view" := 0, "long_view" := 1, "anchor_click" := 2, "favorite" := 3, "order" := 4]
  const HOUR := 3_600
  const WEEK := 604_800

  function ActionId(action: string): int {
    if action in ACTION_IDS then ACTION_IDS[action] else 0
  }

  datatype Event = Event(
    eventId: string, viewerId: int, categoryId: int, action: string, eventTime: int, receivedAt: int)

  /** The sort key `(event_time, event_id)`. */
  predicate EventLe(a: Event, b: Event) {
    a.eventTime < b.eventTime || (a.eventTime == b.eventTime && Lex.StrLe(a.eventId, b.eventId))
  }

  lemma EventLeIsPreorder()
    ensures TotalPreorder(EventLe)
  {
    forall a, b ensures EventLe(a, b) || EventLe(b, a) {
      Lex.StrLeTotalOrder(a.eventId, b.eventId, a.eventId);
    }
    forall a, b, c | EventLe(a, b) && EventLe(b, c) ensures EventLe(a, c) {
      Lex.StrLeTotalOrder(a.eventId, b.eventId, c.eventId);
    }
  }

  datatype Snapshot = Snapshot(
    viewerId: int, asOf: int, count1h: nat, count7d: nat, categories: seq<int>, actions: seq<int>)

  datatype State = State(
    lateness: int, events: map<int, seq<Event>>, eventIds: set<string>, accepted: nat, late: nat, duplicates: nat) {
    function History(viewer: int): seq<Event> {
      if viewer in events then events[viewer] else []
    }

    function Before(viewer: int, asOf: int): seq<Event> {
      Filter(History(viewer), (e: Event) => e.eventTime <= asOf)
    }

    function SnapshotAt(viewer: int, asOf: int): Snapshot {
      var history := Before(viewer, asOf);
      var recent := Last(history, 64);
      Snapshot(viewer, asOf,
               |Filter(history, (e: Event) => e.eventTime >= asOf - HOUR)|,
               |Filter(history, (e: Event) => e.eventTime >= asOf - WEEK)|,
               Map(recent, (e: Event) => e.categoryId),
               Map(recent, (e: Event) => ActionId(e.action)))
    }

    predicate OnTime(e: Event, watermark: int) {
      e.eventTime >= watermark - lateness
    }

    /** One event's effect on the operator. */
    function Ingested(e: Event, watermark: int): State {
      if e.eventId in eventIds then this.(duplicates := duplicates + 1)
      else if !OnTime(e, watermark) then this.(eventIds := eventIds + {e.eventId}, late := late + 1)
      else this.(eventIds := eventIds + {e.eventId}, accepted := accepted + 1,
                 events := events[e.viewerId := SortBy(History(e.viewerId) + [e], EventLe)])
    }

    ghost predicate Valid() {
      && accepted + late == |eventIds|
      && forall v :: v in events ==> ValidHistory(events[v], v, eventIds)
    }
  }

  /** Sorted by (event time, id) with no id twice: so strictly sorted. */
  ghost predicate ValidHistory(history: seq<Event>, viewer: int, ids: set<string>) {
    && Sorted(history, EventLe)
    && UniqueIds(history)
    && forall e :: e in history ==> e.viewerId == viewer && e.eventId in ids
  }

  function Initial(lateness: int): State {
    State(lateness, map[], {}, 0, 0, 0)
  }

  datatype Arrival = Arrival(event: Event, watermark: int)

  /** The state after a sequence of arrivals. */
  function Run(s: State, arrivals: seq<Arrival>): State {
    if arrivals == [] then s
    else
      var last := arrivals[|arrivals| - 1];
      Run(s, arrivals[..|arrivals| - 1]).Ingested(last.event, last.watermark)
  }

  class ViewerFeatureOperator {
    const allowedLateness: int
    var events: map<int, seq<Event>>
    var eventIds: set<string>
    var accepted: nat
    var late: nat
    var duplicates: nat

    function Contents(): State
      reads this
    {
      State(allowedLateness, events, eventIds, accepted, late, duplicates)
    }

    constructor (lateness: int)
      ensures Contents() == Initial(lateness)
    {
      allowedLateness := lateness;
      events, eventIds, accepted, late, duplicates := map[], {}, 0, 0, 0;
    }

    method Ingest(event: Event, watermark: int)
      modifies this
      ensures Contents() == old(Contents()).Ingested(event, watermark)
    {
      if event.eventId in eventIds {
        duplicates := duplicates + 1;
        return;
      }
      eventIds := eventIds + {event.eventId};
      if event.eventTime < watermark - allowedLateness {
        late := late + 1;
        return;
      }
      var history := if event.viewerId in events then events[event.viewerId] else [];
      events := events[event.viewerId := SortBy(history + [event], EventLe)];
      accepted := accepted + 1;
    }

    method SnapshotOf(viewer: int, asOf: int) returns (s: Snapshot)
      ensures s == Contents().SnapshotAt(viewer, asOf) && |s.categories| == |s.actions|
    {
      hide State.Before, Filter;
      var history := EventsBefore(viewer, asOf);
      var count1h := CountSince(history, asOf - HOUR);
      var count7d := CountSince(history, asOf - WEEK);
      var recent := if |history| < 64 then history else history[|history| - 64..];
      var categories: seq<int>, actions: seq<int> := [], [];
      for i := 0 to |recent|
        invariant categories == Map(recent[..i], (e: Event) => e.categoryId)
        invariant actions == Map(recent[..i], (e: Event) => ActionId(e.action))
      {
        var action := recent[i].action;
        actions := actions + [if action in ACTION_IDS then ACTION_IDS[action] else 0];
        categories := categories + [recent[i].categoryId];
        assert recent[..i + 1] == recent[..i] + [recent[i]];
      }
      assert recent[..|recent|] == recent;
      s := Snapshot(viewer, asOf, count1h, count7d, categories, actions);
    }

    method EventsBefore(viewer: int, asOf: int) returns (history: seq<Event>)
      ensures history == Contents().Before(viewer, asOf)
    {
      hide Filter;
      var stored := if viewer in events then events[viewer] else [];
      NoneKept((e: Event) => e.eventTime <= asOf);
      history := [];
      for i := 0 to |stored|
        invariant history == Filter(stored[..i], (e: Event) => e.eventTime <= asOf)
      {
        FilterNext(stored, i, (e: Event) => e.eventTime <= asOf);
        if stored[i].eventTime <= asOf {
          history := history + [stored[i]];
        }
      }
      assert stored[..|stored|] == stored;
    }

    method CountSince(history: seq<Event>, start: int) returns (count: nat)
      ensures count == |Filter(history, (e: Event) => e.eventTime >= start)|
    {
      hide Filter;
      NoneKept((e: Event) => e.eventTime >= start);
      count := 0;
      for i := 0 to |history|
        invariant count == |Filter(history[..i], (e: Event) => e.eventTime >= start)|
      {
        FilterNext(history, i, (e: Event) => e.eventTime >= start);
        if history[i].eventTime >= start {
          count := count + 1;
        }
      }
      assert history[..|history|] == history;
    }
  }

  // ---------------------------------------------------------------------------------------------
  // Reachable states.

  /** Sorting a new event into a sorted history inserts it. */
  lemma SortSnoc(history: seq<Event>, e: Event)
    requires Sorted(history, EventLe)
    ensures SortBy(history + [e], EventLe) == Insert(history, e, EventLe)
  {
    assert (history + [e])[..|history|] == history;
    SortSorted(history, EventLe);
  }

  /** Ingesting keeps every history strictly sorted, without repeated ids, and the counters in step. */
  lemma IngestedKeepsValid(s: State, e: Event, watermark: int)
    requires s.Valid()
    ensures s.Ingested(e, watermark).Valid()
  {
    if e.eventId !in s.eventIds && s.OnTime(e, watermark) {
      HistoryKeepsValid(s.History(e.viewerId), e, s.eventIds);
    }
  }

  ghost predicate UniqueIds(s: seq<Event>) {
    forall i, j :: 0 <= i < j < |s| ==> s[i].eventId != s[j].eventId
  }

  lemma HistoryKeepsValid(history: seq<Event>, e: Event, ids: set<string>)
    requires ValidHistory(history, e.viewerId, ids) && e.eventId !in ids
    ensures ValidHistory(SortBy(history + [e], EventLe), e.viewerId, ids + {e.eventId})
  {
    EventLeIsPreorder();
    SortSnoc(history, e);
    InsertSorted(history, e, EventLe);
    InsertContains(history, e);
    InsertUniqueIds(history, e);
  }

  lemma InsertContains(history: seq<Event>, e: Event)
    ensures forall x :: x in Insert(history, e, EventLe) <==> x in history || x == e
  {
    InsertPermutes(history, e, EventLe);
    forall x ensures x in Insert(history, e, EventLe) <==> x in history || x == e {
      assert x in multiset(Insert(history, e, EventLe)) <==> x in multiset(history) + multiset{e};
    }
  }

  lemma {:induction false} InsertUniqueIds(history: seq<Event>, e: Event)
    requires UniqueIds(history) && forall x :: x in history ==> x.eventId != e.eventId
    ensures UniqueIds(Insert(history, e, EventLe))
  {
    if !(history == [] || EventLe(history[|history| - 1], e)) {
      var front, last := history[..|history| - 1], history[|history| - 1];
      var inserted := Insert(front, e, EventLe);
      InsertUniqueIds(front, e);
      InsertContains(front, e);
      forall i | 0 <= i < |inserted| ensures inserted[i].eventId != last.eventId {
        assert inserted[i] in inserted;
        assert last in history;
      }
    } else {
      forall i | 0 <= i < |history| ensures history[i].eventId != e.eventId {
        assert history[i] in history;
      }
    }
  }

  lemma SameIdSameEvent(s: seq<Event>, a: Event, b: Event)
    requires UniqueIds(s) && a in s && b in s && a.eventId == b.eventId
    ensures a == b
  {
    var i :| 0 <= i < |s| && s[i] == a;
    var j :| 0 <= j < |s| && s[j] == b;
  }

  lemma {:induction false} RunKeepsValid(s: State, arrivals: seq<Arrival>)
    requires s.Valid()
    ensures Run(s, arrivals).Valid() && Run(s, arrivals).lateness == s.lateness
    ensures Run(s, arrivals).accepted + Run(s, arrivals).late + Run(s, arrivals).duplicates
         == s.accepted + s.late + s.duplicates + |arrivals|
  {
    if arrivals != [] {
      var last := arrivals[|arrivals| - 1];
      RunKeepsValid(s, arrivals[..|arrivals| - 1]);
      IngestedKeepsValid(Run(s, arrivals[..|arrivals| - 1]), last.event, last.watermark);
    }
  }

  /** Earlier, or at one time the one whose id is smaller at the first different character. */
  ghost predicate Precedes(a: Event, b: Event) {
    a.eventTime < b.eventTime || (a.eventTime == b.eventTime && exists k: nat :: Lex.StrSmallerFrom(a.eventId, b.eventId, k))
  }

  ghost predicate InOrder(history: seq<Event>) {
    forall i, j :: 0 <= i < j < |history| ==> Precedes(history[i], history[j])
  }

  lemma SortedInOrder(history: seq<Event>)
    requires Sorted(history, EventLe) && UniqueIds(history)
    ensures InOrder(history)
  {
    forall i, j | 0 <= i < j < |history| ensures Precedes(history[i], history[j]) {
      assert EventLe(history[i], history[j]);
      Lex.StrLeMeans(history[i].eventId, history[j].eventId);
    }
  }

  /** In every reachable state each history is in order of time and id. */
  lemma HistoriesInOrder(lateness: int, arrivals: seq<Arrival>, viewer: int)
    ensures InOrder(Run(Initial(lateness), arrivals).History(viewer))
  {
    RunKeepsValid(Initial(lateness), arrivals);
    SortedInOrder(Run(Initial(lateness), arrivals).History(viewer));
  }

  // ---------------------------------------------------------------------------------------------
  // What a run amounts to, and what does not matter to it.

  ghost function IdsOf(arrivals: seq<Arrival>): set<string> {
    set a | a in arrivals :: a.event.eventId
  }

  /** The events a run takes in: of new identity, and on time when they arrive. */
  ghost function Accepted(lateness: int, arrivals: seq<Arrival>): seq<Event> {
    if arrivals == [] then []
    else
      var front, last := arrivals[..|arrivals| - 1], arrivals[|arrivals| - 1];
      if last.event.eventId in IdsOf(front) || last.event.eventTime < last.watermark - lateness
      then Accepted(lateness, front)
      else Accepted(lateness, front) + [last.event]
  }

  ghost function OfViewer(events: seq<Event>, viewer: int): seq<Event> {
    Filter(events, (e: Event) => e.viewerId == viewer)
  }

  /** The state holds exactly these events, each viewer's in sorted order, and has seen exactly these ids. */
  ghost predicate Tracks(s: State, lateness: int, accepted: seq<Event>, ids: set<string>) {
    && s.Valid() && s.lateness == lateness
    && s.eventIds == ids && s.accepted == |accepted|
    && (forall v :: HistoryTracked(s, accepted, v))
  }

  lemma TracksIngested(s: State, lateness: int, accepted: seq<Event>, ids: set<string>, e: Event, watermark: int)
    requires Tracks(s, lateness, accepted, ids) && e.eventId !in ids && e.eventTime >= watermark - lateness
    ensures Tracks(s.Ingested(e, watermark), lateness, accepted + [e], ids + {e.eventId})
  {
    IngestedKeepsValid(s, e, watermark);
    HistoryIngested(s, e, watermark);
    forall v ensures HistoryTracked(s.Ingested(e, watermark), accepted + [e], v) {
      HistoryTracks(s, lateness, accepted, ids, e, watermark, v);
    }
    hide State.Valid, State.Ingested, State.History, OfViewer, SortBy;
  }

  /** The viewer's history is the sort of the viewer's accepted events, and kept only if there are any. */
  ghost predicate HistoryTracked(s: State, accepted: seq<Event>, viewer: int) {
    && s.History(viewer) == SortBy(OfViewer(accepted, viewer), EventLe)
    && (viewer in s.events <==> s.History(viewer) != [])
  }

  lemma HistoryTracks(s: State, lateness: int, accepted: seq<Event>, ids: set<string>, e: Event, watermark: int, v: int)
    requires Tracks(s, lateness, accepted, ids) && e.eventId !in ids && e.eventTime >= watermark - lateness
    ensures HistoryTracked(s.Ingested(e, watermark), accepted + [e], v)
  {
    HistoryIngested(s, e, watermark);
    OfViewerSnoc(accepted, e, v);
    assert HistoryTracked(s, accepted, v) && HistoryTracked(s, accepted, e.viewerId);
    hide State.Ingested, State.History, OfViewer, SortBy;
    if v == e.viewerId {
      AcceptedHistory(s, accepted, e);
    }
  }

  /** An accepted event goes into its viewer's history and no other. */
  lemma HistoryIngested(s: State, e: Event, watermark: int)
    requires e.eventId !in s.eventIds && s.OnTime(e, watermark)
    ensures var after := s.Ingested(e, watermark);
      && after.lateness == s.lateness && after.eventIds == s.eventIds + {e.eventId} && after.accepted == s.accepted + 1
      && after.events.Keys == s.events.Keys + {e.viewerId}
      && forall v :: after.History(v) == if v == e.viewerId then SortBy(s.History(v) + [e], EventLe) else s.History(v)
  {
    hide SortBy;
  }

  lemma OfViewerSnoc(events: seq<Event>, e: Event, viewer: int)
    ensures OfViewer(events + [e], viewer)
         == if e.viewerId == viewer then OfViewer(events, viewer) + [e] else OfViewer(events, viewer)
  {
    FilterSnoc(events, e, (e: Event) => e.viewerId == viewer);
  }

  /** Each viewer's history is the sort of that viewer's accepted events, however they arrived. */
  lemma {:induction false} RunIsSortedAccepted(lateness: int, arrivals: seq<Arrival>)
    ensures Tracks(Run(Initial(lateness), arrivals), lateness, Accepted(lateness, arrivals), IdsOf(arrivals))
  {
    if arrivals != [] {
      var front, last := arrivals[..|arrivals| - 1], arrivals[|arrivals| - 1];
      RunIsSortedAccepted(lateness, front);
      var before := Run(Initial(lateness), front);
      assert arrivals == front + [last];
      assert IdsOf(arrivals) == IdsOf(front) + {last.event.eventId};
      if last.event.eventId !in before.eventIds && before.OnTime(last.event, last.watermark) {
        TracksIngested(before, lateness, Accepted(lateness, front), IdsOf(front), last.event, last.watermark);
      } else {
        SkippedKeepsTracks(before, lateness, Accepted(lateness, front), IdsOf(front), last);
      }
    }
  }

  /** The viewer's events of a time span. */
  ghost function Within(events: seq<Event>, viewer: int, from: int, to: int): seq<Event> {
    Filter(events, (e: Event) => e.viewerId == viewer && from <= e.eventTime <= to)
  }

  ghost function UpTo(events: seq<Event>, viewer: int, to: int): seq<Event> {
    Filter(events, (e: Event) => e.viewerId == viewer && e.eventTime <= to)
  }

  /** The counts are the viewer's events in the hour and in the week before the snapshot's time, and the sequences say
      what the latest 64 up to it were about, in order. */
  ghost predicate Summarizes(s: Snapshot, events: seq<Event>, viewer: int, asOf: int) {
    var upTo := UpTo(events, viewer, asOf);
    var latest := Last(SortBy(upTo, EventLe), 64);
    && s.viewerId == viewer && s.asOf == asOf
    && s.count1h == |Within(events, viewer, asOf - HOUR, asOf)|
    && s.count7d == |Within(events, viewer, asOf - WEEK, asOf)|
    && InOrder(latest) && |latest| == (if |upTo| <= 64 then |upTo| else 64)
    && |s.categories| == |s.actions| == |latest|
    && forall i :: 0 <= i < |latest| ==>
         s.categories[i] == latest[i].categoryId && s.actions[i] == ActionId(latest[i].action)
  }

  /** What a snapshot holds in terms of the events a run took in. */
  lemma SnapshotMeans(lateness: int, arrivals: seq<Arrival>, viewer: int, asOf: int)
    ensures Summarizes(Run(Initial(lateness), arrivals).SnapshotAt(viewer, asOf), Accepted(lateness, arrivals), viewer,
                       asOf)
  {
    RunIsSortedAccepted(lateness, arrivals);
    HistoriesInOrder(lateness, arrivals, viewer);
    hide Accepted, Run, SortBy, HistoryTracked;
    TrackedSummarizes(Run(Initial(lateness), arrivals), Accepted(lateness, arrivals), viewer, asOf);
  }

  lemma TrackedSummarizes(s: State, accepted: seq<Event>, viewer: int, asOf: int)
    requires HistoryTracked(s, accepted, viewer) && InOrder(s.History(viewer))
    ensures Summarizes(s.SnapshotAt(viewer, asOf), accepted, viewer, asOf)
  {
    BeforeInOrder(s, viewer, asOf);
    BeforeIsSorted(s, accepted, viewer, asOf);
    CountMeans(accepted, viewer, asOf - HOUR, asOf);
    CountMeans(accepted, viewer, asOf - WEEK, asOf);
    EventLeIsPreorder();
    SortCorrect(UpTo(accepted, viewer, asOf), EventLe);
    hide InOrder, SortBy, Filter, ActionId, Within, UpTo, State.Before, State.History;
  }

  lemma BeforeInOrder(s: State, viewer: int, asOf: int)
    requires InOrder(s.History(viewer))
    ensures InOrder(Last(s.Before(viewer, asOf), 64))
  {
    FilterInOrder(s.History(viewer), (e: Event) => e.eventTime <= asOf);
  }

  lemma {:induction false} FilterInOrder(history: seq<Event>, p: Event -> bool)
    requires InOrder(history)
    ensures InOrder(Filter(history, p))
  {
    if history != [] {
      var front, last := history[..|history| - 1], history[|history| - 1];
      FilterInOrder(front, p);
      FilterContains(front, p);
      hide Precedes;
      forall x | x in Filter(front, p) ensures Precedes(x, last) {
        var i :| 0 <= i < |front| && history[i] == x;
      }
    }
  }

  lemma BeforeIsSorted(s: State, accepted: seq<Event>, viewer: int, asOf: int)
    requires HistoryTracked(s, accepted, viewer)
    ensures s.Before(viewer, asOf) == SortBy(UpTo(accepted, viewer, asOf), EventLe)
  {
    var own, early := (e: Event) => e.viewerId == viewer, (e: Event) => e.eventTime <= asOf;
    EventLeIsPreorder();
    SortFilter(OfViewer(accepted, viewer), EventLe, early);
    FilterFilter(accepted, own, early, (e: Event) => e.viewerId == viewer && e.eventTime <= asOf);
  }

  lemma CountMeans(accepted: seq<Event>, viewer: int, from: int, to: int)
    ensures |Filter(SortBy(UpTo(accepted, viewer, to), EventLe), (e: Event) => e.eventTime >= from)|
         == |Within(accepted, viewer, from, to)|
  {
    var early, recent := (e: Event) => e.viewerId == viewer && e.eventTime <= to, (e: Event) => e.eventTime >= from;
    EventLeIsPreorder();
    SortFilter(UpTo(accepted, viewer, to), EventLe, recent);
    FilterFilter(accepted, early, recent, (e: Event) => e.viewerId == viewer && from <= e.eventTime <= to);
    SortCorrect(Within(accepted, viewer, from, to), EventLe);
  }

  lemma SkippedKeepsTracks(s: State, lateness: int, accepted: seq<Event>, ids: set<string>, a: Arrival)
    requires Tracks(s, lateness, accepted, ids)
    requires a.event.eventId in ids || a.event.eventTime < a.watermark - lateness
    ensures Tracks(s.Ingested(a.event, a.watermark), lateness, accepted, ids + {a.event.eventId})
  {
    var after := s.Ingested(a.event, a.watermark);
    IngestedKeepsValid(s, a.event, a.watermark);
    assert a.event.eventId in ids ==> ids + {a.event.eventId} == ids;
    forall v ensures HistoryTracked(after, accepted, v) {
      assert HistoryTracked(s, accepted, v);
      assert after.History(v) == s.History(v);
    }
  }

  lemma AcceptedHistory(s: State, accepted: seq<Event>, e: Event)
    requires s.Valid() && s.History(e.viewerId) == SortBy(OfViewer(accepted, e.viewerId), EventLe)
    ensures SortBy(s.History(e.viewerId) + [e], EventLe) == SortBy(OfViewer(accepted, e.viewerId) + [e], EventLe)
    ensures SortBy(s.History(e.viewerId) + [e], EventLe) != []
  {
    hide OfViewer;
    var own := OfViewer(accepted, e.viewerId);
    SortSnoc(s.History(e.viewerId), e);
    assert (own + [e])[..|own|] == own;
    InsertContains(s.History(e.viewerId), e);
    assert e in Insert(s.History(e.viewerId), e, EventLe);
  }

  lemma {:induction false} AcceptedIds(lateness: int, arrivals: seq<Arrival>)
    ensures UniqueIds(Accepted(lateness, arrivals))
    ensures forall e :: e in Accepted(lateness, arrivals) ==> e.eventId in IdsOf(arrivals)
  {
    if arrivals != [] {
      var front, last := arrivals[..|arrivals| - 1], arrivals[|arrivals| - 1];
      AcceptedIds(lateness, front);
      assert arrivals == front + [last];
      assert IdsOf(arrivals) == IdsOf(front) + {last.event.eventId};
      var accepted := Accepted(lateness, front);
      forall i | 0 <= i < |accepted| ensures accepted[i].eventId in IdsOf(front) {
        assert accepted[i] in accepted;
      }
    }
  }

  lemma IdsBreakTies(events: seq<Event>)
    requires UniqueIds(events)
    ensures AntisymmetricOn(events, EventLe)
  {
    forall a, b | a in events && b in events && EventLe(a, b) && EventLe(b, a) ensures a == b {
      Lex.StrLeTotalOrder(a.eventId, b.eventId, a.eventId);
      SameIdSameEvent(events, a, b);
    }
  }

  /** Two runs that accept the same events, in whatever order and under whatever watermarks, hold the same
      histories and give the same snapshots. */
  lemma SameAcceptedSameState(lateness: int, a1: seq<Arrival>, a2: seq<Arrival>)
    requires multiset(Accepted(lateness, a1)) == multiset(Accepted(lateness, a2))
    ensures Run(Initial(lateness), a1).events == Run(Initial(lateness), a2).events
    ensures forall v, asOf ::
      Run(Initial(lateness), a1).SnapshotAt(v, asOf) == Run(Initial(lateness), a2).SnapshotAt(v, asOf)
  {
    RunIsSortedAccepted(lateness, a1);
    RunIsSortedAccepted(lateness, a2);
    AcceptedIds(lateness, a1);
    TracksSame(Run(Initial(lateness), a1), Run(Initial(lateness), a2), lateness, Accepted(lateness, a1),
               Accepted(lateness, a2), IdsOf(a1), IdsOf(a2));
  }

  lemma TracksSame(s1: State, s2: State, lateness: int, e1: seq<Event>, e2: seq<Event>, ids1: set<string>,
                   ids2: set<string>)
    requires Tracks(s1, lateness, e1, ids1) && Tracks(s2, lateness, e2, ids2)
    requires UniqueIds(e1) && multiset(e1) == multiset(e2)
    ensures s1.events == s2.events
    ensures forall v, asOf :: s1.SnapshotAt(v, asOf) == s2.SnapshotAt(v, asOf)
  {
    forall v ensures s1.History(v) == s2.History(v) && (v in s1.events <==> v in s2.events) {
      assert HistoryTracked(s1, e1, v) && HistoryTracked(s2, e2, v);
      SameEventsSameHistory(e1, e2, v);
    }
    SameHistoriesSameEvents(s1, s2);
  }

  lemma SameHistoriesSameEvents(s1: State, s2: State)
    requires forall v :: s1.History(v) == s2.History(v) && (v in s1.events <==> v in s2.events)
    ensures s1.events == s2.events
    ensures forall v, asOf :: s1.SnapshotAt(v, asOf) == s2.SnapshotAt(v, asOf)
  {
    forall v ensures v in s1.events <==> v in s2.events {
      assert s1.History(v) == s2.History(v);
    }
    forall v | v in s1.events ensures s1.events[v] == s2.events[v] {
      assert s1.History(v) == s2.History(v);
    }
    assert s1.events.Keys == s2.events.Keys;
    forall v, asOf ensures s1.SnapshotAt(v, asOf) == s2.SnapshotAt(v, asOf) {
      assert s1.History(v) == s2.History(v);
      assert s1.Before(v, asOf) == s2.Before(v, asOf);
    }
  }

  lemma SameEventsSameHistory(e1: seq<Event>, e2: seq<Event>, viewer: int)
    requires UniqueIds(e1) && multiset(e1) == multiset(e2)
    ensures SortBy(OfViewer(e1, viewer), EventLe) == SortBy(OfViewer(e2, viewer), EventLe)
  {
    var own := (e: Event) => e.viewerId == viewer;
    FilterMultiset(e1, own);
    FilterMultiset(e2, own);
    assert multiset(OfViewer(e1, viewer)) == multiset(OfViewer(e2, viewer));
    IdsBreakTies(e1);
    FilterContains(e1, own);
    EventLeIsPreorder();
    SortUnique(OfViewer(e1, viewer), OfViewer(e2, viewer), EventLe);
  }

  ghost predicate DistinctOnTime(lateness: int, arrivals: seq<Arrival>) {
    && (forall i, j :: 0 <= i < j < |arrivals| ==> arrivals[i].event.eventId != arrivals[j].event.eventId)
    && (forall a :: a in arrivals ==> a.event.eventTime >= a.watermark - lateness)
  }

  lemma LastIsNew(lateness: int, arrivals: seq<Arrival>)
    requires DistinctOnTime(lateness, arrivals) && arrivals != []
    ensures var front, last := arrivals[..|arrivals| - 1], arrivals[|arrivals| - 1];
      DistinctOnTime(lateness, front) && last.event.eventId !in IdsOf(front)
      && last.event.eventTime >= last.watermark - lateness
  {
    var front, last := arrivals[..|arrivals| - 1], arrivals[|arrivals| - 1];
    assert last in arrivals;
    forall a | a in front ensures a in arrivals && a.event.eventId != last.event.eventId {
      var i :| 0 <= i < |front| && front[i] == a;
      assert arrivals[i].event.eventId != arrivals[|front|].event.eventId;
    }
  }

  lemma {:induction false} AllAccepted(lateness: int, arrivals: seq<Arrival>)
    requires DistinctOnTime(lateness, arrivals)
    ensures Accepted(lateness, arrivals) == Map(arrivals, (a: Arrival) => a.event)
  {
    if arrivals != [] {
      var front, last := arrivals[..|arrivals| - 1], arrivals[|arrivals| - 1];
      assert arrivals == front + [last];
      LastIsNew(lateness, arrivals);
      AllAccepted(lateness, front);
      hide IdsOf, DistinctOnTime;
      MapSnoc(front, last, (a: Arrival) => a.event);
    }
  }

  /** Order independence: any permutation of the same distinct on-time events leads to the same state. */
  lemma OrderDoesNotMatter(lateness: int, a1: seq<Arrival>, a2: seq<Arrival>)
    requires DistinctOnTime(lateness, a1) && DistinctOnTime(lateness, a2)
    requires multiset(Map(a1, (a: Arrival) => a.event)) == multiset(Map(a2, (a: Arrival) => a.event))
    ensures Run(Initial(lateness), a1).events == Run(Initial(lateness), a2).events
    ensures forall v, asOf ::
      Run(Initial(lateness), a1).SnapshotAt(v, asOf) == Run(Initial(lateness), a2).SnapshotAt(v, asOf)
  {
    AllAccepted(lateness, a1);
    AllAccepted(lateness, a2);
    SameAcceptedSameState(lateness, a1, a2);
  }

  // ---------------------------------------------------------------------------------------------
  // Frozen snapshots.

  ghost predicate From(arrivals: seq<Arrival>, watermark: int) {
    forall a :: a in arrivals ==> a.watermark >= watermark
  }

  lemma BeforeUnchanged(s: State, e: Event, watermark: int, viewer: int, asOf: int)
    requires s.Valid() && asOf < watermark - s.lateness
    ensures s.Ingested(e, watermark).Before(viewer, asOf) == s.Before(viewer, asOf)
  {
    if e.eventId !in s.eventIds && s.OnTime(e, watermark) && e.viewerId == viewer {
      EventLeIsPreorder();
      SortSnoc(s.History(viewer), e);
      InsertFilter(s.History(viewer), e, EventLe, (x: Event) => x.eventTime <= asOf);
    }
  }

  lemma {:induction false} HistoryFrozen(s: State, arrivals: seq<Arrival>, watermark: int, viewer: int, asOf: int)
    requires s.Valid() && From(arrivals, watermark) && asOf < watermark - s.lateness
    ensures Run(s, arrivals).Before(viewer, asOf) == s.Before(viewer, asOf)
  {
    if arrivals != [] {
      var front, last := arrivals[..|arrivals| - 1], arrivals[|arrivals| - 1];
      assert last in arrivals;
      HistoryFrozen(s, front, watermark, viewer, asOf);
      RunKeepsValid(s, front);
      BeforeUnchanged(Run(s, front), last.event, last.watermark, viewer, asOf);
    }
  }

  /** A snapshot at a time further back than the lateness behind the watermark no longer changes. */
  lemma SnapshotFrozen(s: State, arrivals: seq<Arrival>, watermark: int, viewer: int, asOf: int)
    requires s.Valid() && From(arrivals, watermark) && asOf < watermark - s.lateness
    ensures Run(s, arrivals).SnapshotAt(viewer, asOf) == s.SnapshotAt(viewer, asOf)
  {
    HistoryFrozen(s, arrivals, watermark, viewer, asOf);
  }

  /** An on-time event of new identity at the snapshot's own time counts in its last hour. */
  lemma ArrivalShows(s: State, e: Event, watermark: int)
    requires s.Valid() && e.eventId !in s.eventIds && s.OnTime(e, watermark)
    ensures var after := s.Ingested(e, watermark).Before(e.viewerId, e.eventTime);
      |Filter(after, (x: Event) => x.eventTime >= e.eventTime - HOUR)|
        == |Filter(s.Before(e.viewerId, e.eventTime), (x: Event) => x.eventTime >= e.eventTime - HOUR)| + 1
  {
    var history := s.History(e.viewerId);
    var early, hour := (x: Event) => x.eventTime <= e.eventTime, (x: Event) => x.eventTime >= e.eventTime - HOUR;
    EventLeIsPreorder();
    SortSnoc(history, e);
    InsertFilter(history, e, EventLe, early);
    SortedFilter(history, early);
    InsertFilter(Filter(history, early), e, EventLe, hour);
    InsertLength(Filter(Filter(history, early), hour), e);
  }

  /** While a snapshot's time is not behind the lateness, some arrival still changes it. */
  lemma SnapshotStillOpen(s: State, watermark: int, viewer: int, asOf: int) returns (a: Arrival)
    requires s.Valid() && asOf >= watermark - s.lateness
    ensures a.watermark == watermark
    ensures Run(s, [a]).SnapshotAt(viewer, asOf) != s.SnapshotAt(viewer, asOf)
  {
    hide State.Ingested, State.Before, State.Valid, SortBy, Filter;
    var id := NewId(s.eventIds);
    var e := Event(id, viewer, 0, "view", asOf, asOf);
    a := Arrival(e, watermark);
    assert [a][..0] == [];
    assert Run(s, [a]) == Run(s, []).Ingested(e, watermark);
    ArrivalShows(s, e, watermark);
  }

  lemma {:induction false} InsertLength(history: seq<Event>, e: Event)
    ensures |Insert(history, e, EventLe)| == |history| + 1
  {
    if !(history == [] || EventLe(history[|history| - 1], e)) {
      InsertLength(history[..|history| - 1], e);
    }
  }

  lemma SortedFilter(history: seq<Event>, p: Event -> bool)
    requires Sorted(history, EventLe)
    ensures Sorted(Filter(history, p), EventLe)
  {
    EventLeIsPreorder();
    SortFilter(history, EventLe, p);
    SortSorted(history, EventLe);
    SortCorrect(Filter(history, p), EventLe);
  }

  ghost predicate Frozen(s: State, watermark: int, viewer: int, asOf: int) {
    forall arrivals :: From(arrivals, watermark) ==>
      Run(s, arrivals).SnapshotAt(viewer, asOf) == s.SnapshotAt(viewer, asOf)
  }

  /** Whatever still arrives from a watermark on, a snapshot stays what it is exactly when its time lies before
      that watermark less the lateness. */
  lemma FrozenExactly(s: State, watermark: int, viewer: int, asOf: int)
    requires s.Valid()
    ensures Frozen(s, watermark, viewer, asOf) <==> asOf < watermark - s.lateness
  {
    if asOf < watermark - s.lateness {
      forall arrivals | From(arrivals, watermark)
        ensures Run(s, arrivals).SnapshotAt(viewer, asOf) == s.SnapshotAt(viewer, asOf)
      {
        SnapshotFrozen(s, arrivals, watermark, viewer, asOf);
      }
    } else {
      var a := SnapshotStillOpen(s, watermark, viewer, asOf);
      assert From([a], watermark);
    }
  }
}
