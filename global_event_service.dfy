/**
 * The list logic of `GlobalEventService`: the event list with its empty-list
 * fallbacks, the single and multi-select lookups by event id, the upsert of
 * `export` (read the whole list, replace or append one entry, write the whole
 * list back) and the `"OK"` status check. Replies, the file read and the
 * user's answers are inputs.
 */
module GlobalEventService {
  import opened Wrappers
  import opened Text
  import opened Models

  /** `globalEventPK`: the key of a global event. */
  datatype EventKey = EventKey(companyId: int, eventId: string)

  /** One global event (`GlobalEventDTO`): its key and its script. */
  datatype GlobalEvent = GlobalEvent(key: EventKey, eventDescription: string)

  /**
   * What `getEventList` gets back: the fetch failed, the server answered
   * with an error envelope carrying a message, or the list itself.
   */
  datatype ListReply = FetchFailed(error: string) | ErrorEnvelope(message: string) | EventList(events: seq<GlobalEvent>)

  /** `getEventList`: the list, or the empty list after an error envelope or a failed fetch. */
  function EventListOf(reply: ListReply): (events: seq<GlobalEvent>)
    ensures reply.EventList? ==> events == reply.events
    ensures !reply.EventList? ==> events == []
  {
    match reply
    case EventList(es) => es
    case _ => []
  }

  /** No two events share an event id. */
  predicate UniqueEventIds(events: seq<GlobalEvent>) {
    forall i, j :: 0 <= i < j < |events| ==> events[i].key.eventId != events[j].key.eventId
  }

  // ---------------------------------------------------------------------
  // Lookups
  // ---------------------------------------------------------------------

  /** Some listed event holds `id`. */
  predicate HasEventWithId(events: seq<GlobalEvent>, id: string) {
    exists e :: e in events && e.key.eventId == id
  }

  /** `e` is listed at an index before which no event holds `id`. */
  predicate IsFirstWithId(events: seq<GlobalEvent>, id: string, e: GlobalEvent) {
    exists k :: 0 <= k < |events| && events[k] == e && forall j :: 0 <= j < k ==> events[j].key.eventId != id
  }

  /** `findIndex` on the event id: the first index holding `id`, or -1. */
  function FindIndex(events: seq<GlobalEvent>, id: string): (k: int)
    ensures -1 <= k < |events|
    ensures k >= 0 ==> events[k].key.eventId == id
    ensures forall j :: 0 <= j < |events| && (k == -1 || j < k) ==> events[j].key.eventId != id
  {
    if events == [] then -1
    else if events[0].key.eventId == id then 0
    else
      var k := FindIndex(events[1..], id);
      if k == -1 then -1 else k + 1
  }

  /** `find` on the event id: the first event holding `id`. */
  function FindEvent(events: seq<GlobalEvent>, id: string): (r: Option<GlobalEvent>)
    ensures r.Some? ==> r.value in events && r.value.key.eventId == id
    ensures r.None? <==> forall e :: e in events ==> e.key.eventId != id
    ensures r.Some? ==> IsFirstWithId(events, id, r.value)
  {
    var k := FindIndex(events, id);
    if k == -1 then None else Some(events[k])
  }

  /**
   * `getOptionSelected`: the picker shows one event id per event; `None`
   * when it is dismissed, otherwise the first event with the picked id.
   */
  function SelectEvent(reply: ListReply, choice: Option<string>): (r: Option<GlobalEvent>)
    ensures choice.None? ==> r.None?
    ensures r.Some? ==> r.value in EventListOf(reply) && r.value.key.eventId == choice.value
    ensures choice.Some? && HasEventWithId(EventListOf(reply), choice.value) ==> r.Some?
    ensures r.Some? ==> IsFirstWithId(EventListOf(reply), choice.value, r.value)
  {
    match choice
    case None => None
    case Some(picked) => FindEvent(EventListOf(reply), picked)
  }

  /** Picking the id of the i-th event yields that event when ids are unique. */
  lemma SelectPickedEvent(events: seq<GlobalEvent>, i: nat)
    requires UniqueEventIds(events)
    requires i < |events|
    ensures SelectEvent(EventList(events), Some(events[i].key.eventId)) == Some(events[i])
  {
    var k := FindIndex(events, events[i].key.eventId);
    assert k != -1;
    assert k == i;
  }

  /** The events holding `id`, in list order. */
  function EventsWithId(events: seq<GlobalEvent>, id: string): seq<GlobalEvent>
  {
    if events == [] then []
    else
      var last := events[|events| - 1];
      EventsWithId(events[..|events| - 1], id) + (if last.key.eventId == id then [last] else [])
  }

  /** For each picked id in turn, every event holding it. */
  function Lookup(events: seq<GlobalEvent>, picks: seq<string>): seq<GlobalEvent>
  {
    if picks == [] then []
    else Lookup(events, picks[..|picks| - 1]) + EventsWithId(events, picks[|picks| - 1])
  }

  /** The nested loops of `getOptionsSelected` over the picked ids and the event list. */
  method LookupPicked(events: seq<GlobalEvent>, picks: seq<string>) returns (selected: seq<GlobalEvent>)
    ensures selected == Lookup(events, picks)
  {
    selected := [];
    var i := 0;
    while i < |picks|
      invariant 0 <= i <= |picks|
      invariant selected == Lookup(events, picks[..i])
    {
      var j := 0;
      while j < |events|
        invariant 0 <= j <= |events|
        invariant selected == Lookup(events, picks[..i]) + EventsWithId(events[..j], picks[i])
      {
        assert events[..j + 1][..j] == events[..j];
        if events[j].key.eventId == picks[i] {
          selected := selected + [events[j]];
        }
        j := j + 1;
      }
      assert events[..j] == events;
      assert picks[..i + 1][..i] == picks[..i];
      i := i + 1;
    }
    assert picks[..i] == picks;
  }

  /**
   * `getOptionsSelected`: `None` when the picker is dismissed, otherwise the
   * events of the picked ids.
   */
  method SelectEvents(reply: ListReply, choice: Option<seq<string>>) returns (r: Option<seq<GlobalEvent>>)
    ensures r.None? <==> choice.None?
    ensures r.Some? ==> r.value == Lookup(EventListOf(reply), choice.value)
  {
    if choice.None? {
      return None;
    }
    var selected := LookupPicked(EventListOf(reply), choice.value);
    r := Some(selected);
  }

  /** An event is selected exactly when it is listed and one of the picks is its id. */
  lemma {:induction false} EventsWithIdMembers(events: seq<GlobalEvent>, id: string, e: GlobalEvent)
    ensures e in EventsWithId(events, id) <==> e in events && e.key.eventId == id
  {
    if events != [] {
      var init := events[..|events| - 1];
      EventsWithIdMembers(init, id, e);
      assert events == init + [events[|events| - 1]];
    }
  }

  lemma {:induction false} LookupMembers(events: seq<GlobalEvent>, picks: seq<string>, e: GlobalEvent)
    ensures e in Lookup(events, picks) <==> e in events && e.key.eventId in picks
  {
    if picks != [] {
      var init := picks[..|picks| - 1];
      LookupMembers(events, init, e);
      EventsWithIdMembers(events, picks[|picks| - 1], e);
      assert picks == init + [picks[|picks| - 1]];
    }
  }

  /** With unique ids, the events holding the id of the k-th event are that event alone. */
  lemma {:induction false} EventsWithUniqueId(events: seq<GlobalEvent>, k: nat)
    requires UniqueEventIds(events) && k < |events|
    ensures EventsWithId(events, events[k].key.eventId) == [events[k]]
  {
    var init := events[..|events| - 1];
    if k < |events| - 1 {
      assert init[k] == events[k];
      EventsWithUniqueId(init, k);
    } else {
      NoEventWithId(init, events[k].key.eventId);
    }
  }

  lemma {:induction false} NoEventWithId(events: seq<GlobalEvent>, id: string)
    requires forall e :: e in events ==> e.key.eventId != id
    ensures EventsWithId(events, id) == []
  {
    if events != [] {
      NoEventWithId(events[..|events| - 1], id);
    }
  }

  /** The events at the picked indices, in pick order. */
  function EventsAt(events: seq<GlobalEvent>, picks: seq<nat>): seq<GlobalEvent>
    requires forall k :: 0 <= k < |picks| ==> picks[k] < |events|
  {
    seq(|picks|, k requires 0 <= k < |picks| => events[picks[k]])
  }

  /** The ids of the events at the picked indices, in pick order. */
  function IdsAt(events: seq<GlobalEvent>, picks: seq<nat>): seq<string>
    requires forall k :: 0 <= k < |picks| ==> picks[k] < |events|
  {
    seq(|picks|, k requires 0 <= k < |picks| => events[picks[k]].key.eventId)
  }

  lemma PicksSnoc(events: seq<GlobalEvent>, picks: seq<nat>)
    requires picks != []
    requires forall k :: 0 <= k < |picks| ==> picks[k] < |events|
    ensures var n := |picks| - 1;
            IdsAt(events, picks)[..n] == IdsAt(events, picks[..n]) &&
            IdsAt(events, picks)[n] == events[picks[n]].key.eventId &&
            EventsAt(events, picks) == EventsAt(events, picks[..n]) + [events[picks[n]]]
  {
  }

  /**
   * With unique ids and picks taken from the listed ids, the selection has
   * one event per pick, in pick order, each holding the picked id.
   */
  lemma {:induction false} LookupOnePerPick(events: seq<GlobalEvent>, picks: seq<nat>)
    requires UniqueEventIds(events)
    requires forall k :: 0 <= k < |picks| ==> picks[k] < |events|
    ensures Lookup(events, IdsAt(events, picks)) == EventsAt(events, picks)
  {
    if picks != [] {
      var n := |picks| - 1;
      var ids := IdsAt(events, picks);
      PicksSnoc(events, picks);
      LookupOnePerPick(events, picks[..n]);
      EventsWithUniqueId(events, picks[n]);
      assert Lookup(events, ids) == Lookup(events, ids[..n]) + EventsWithId(events, ids[n]);
    }
  }

  // ---------------------------------------------------------------------
  // The export upsert
  // ---------------------------------------------------------------------

  /** The list `export` writes back: the first entry with the same id replaced, or the entry appended. */
  function Upserted(events: seq<GlobalEvent>, entry: GlobalEvent): (r: seq<GlobalEvent>)
    ensures entry in r
    ensures |r| == if HasEventWithId(events, entry.key.eventId) then |events| else |events| + 1
  {
    var k := FindIndex(events, entry.key.eventId);
    if k == -1 then events + [entry]
    else
      assert events[k] in events && events[k := entry][k] == entry;
      events[k := entry]
  }

  /** No event with the id: the list grows by one and the new entry is last. */
  lemma UpsertAppends(events: seq<GlobalEvent>, entry: GlobalEvent)
    requires forall e :: e in events ==> e.key.eventId != entry.key.eventId
    ensures var r := Upserted(events, entry);
            |r| == |events| + 1 && r[|events|] == entry && r[..|events|] == events
  {
  }

  /**
   * An event with the id at index k, and none before it: the length is kept,
   * index k holds the new entry, and every other index is untouched.
   */
  lemma UpsertReplacesFirst(events: seq<GlobalEvent>, entry: GlobalEvent, k: nat)
    requires k < |events| && events[k].key.eventId == entry.key.eventId
    requires forall j :: 0 <= j < k ==> events[j].key.eventId != entry.key.eventId
    ensures var r := Upserted(events, entry);
            |r| == |events| && r[k] == entry &&
            forall j :: 0 <= j < |events| && j != k ==> r[j] == events[j]
  {
  }

  /** Ids unique before the upsert stay unique, and the entry's id occurs exactly once, at the entry. */
  lemma UpsertKeepsIdsUnique(events: seq<GlobalEvent>, entry: GlobalEvent)
    requires UniqueEventIds(events)
    ensures UniqueEventIds(Upserted(events, entry))
    ensures var r := Upserted(events, entry);
            exists k :: 0 <= k < |r| && r[k] == entry &&
                        forall j :: 0 <= j < |r| && j != k ==> r[j].key.eventId != entry.key.eventId
  {
    var r := Upserted(events, entry);
    var k := FindIndex(events, entry.key.eventId);
    if k == -1 {
      assert r[|events|] == entry;
    } else {
      assert r[k] == entry;
    }
  }

  /** Every event with another id is still there after the upsert. */
  lemma UpsertKeepsOthers(events: seq<GlobalEvent>, entry: GlobalEvent, e: GlobalEvent)
    requires e in events && e.key.eventId != entry.key.eventId
    ensures e in Upserted(events, entry)
  {
    var i :| 0 <= i < |events| && events[i] == e;
    var r := Upserted(events, entry);
    assert r[i] == e;
  }

  /** Exporting the same file twice writes the same list as exporting it once. */
  lemma UpsertIdempotent(events: seq<GlobalEvent>, entry: GlobalEvent)
    ensures Upserted(Upserted(events, entry), entry) == Upserted(events, entry)
  {
    var id := entry.key.eventId;
    var k := FindIndex(events, id);
    var r := Upserted(events, entry);
    if k == -1 {
      assert forall j :: 0 <= j < |events| ==> r[j] == events[j];
      assert r[|events|] == entry;
    } else {
      assert forall j :: 0 <= j < |events| && j != k ==> r[j] == events[j];
      assert r[k] == entry;
    }
    assert FindIndex(r, id) == (if k == -1 then |events| else k);
  }

  /** The `message` object of a reply, whose own `message` field may be missing. */
  datatype ServerMessage = ServerMessage(message: Option<string>)

  /**
   * What `saveEventList` and the delete call get back: `content` and the
   * optional `message` object.
   */
  datatype SaveReply = SaveReply(content: string, message: Option<ServerMessage>)

  /** `result?.message?.message` as string concatenation shows it: `"undefined"` when either is missing. */
  function MessageDetail(reply: SaveReply): (detail: string)
    ensures reply.message.Some? && reply.message.value.message.Some? ==> detail == reply.message.value.message.value
    ensures reply.message.None? || reply.message.value.message.None? ==> detail == "undefined"
  {
    match reply.message
    case Some(ServerMessage(Some(m))) => m
    case _ => "undefined"
  }

  const ExportFailurePrefix: string := "Falha ao exportar o Evento Global "

  /**
   * The status check of `export`: `None` when the save failed and
   * `result.content` cannot be read; otherwise success exactly when the
   * content is `"OK"`, and a failure naming the event and the server's message.
   */
  function EventExportReport(eventId: string, reply: Option<SaveReply>): (r: Option<Report>)
    ensures r.None? <==> reply.None?
    ensures r.Some? ==> (r.value.Success? <==> reply.value.content == "OK")
    ensures r.Some? && r.value.Failure? ==> StartsWith(r.value.message, ExportFailurePrefix + eventId + "!")
    ensures r.Some? && r.value.Failure? ==> r.value.message[|ExportFailurePrefix + eventId + "!"|..] == MessageDetail(reply.value)
  {
    match reply
    case None => None
    case Some(saved) =>
      if saved.content == "OK" then Some(Success)
      else Some(Failure(ExportFailurePrefix + eventId + "!" + MessageDetail(saved)))
  }

  /** How `export` ends: no server chosen, stopped by the confirmation, or the list pushed. */
  datatype EventExportOutcome = NoServer | Stopped | ReadFailed | Pushed(events: seq<GlobalEvent>, report: Option<Report>)

  /**
   * `export`: reads the whole list, builds the entry keyed by the server's
   * company and the file's base name without `.js`, replaces or appends it in
   * the list, and writes the whole list back unless the confirmation the
   * server asks for fails.
   */
  method ExportEvent(server: Option<Server>, listReply: ListReply, fsPath: string, fileContent: string,
                     passwordConfirmed: bool, saveReply: Option<SaveReply>) returns (outcome: EventExportOutcome)
    ensures server.None? ==> outcome == NoServer
    ensures outcome.Stopped? <==> server.Some? && server.value.confirmExporting && !passwordConfirmed
    ensures outcome.Pushed? ==>
              var entry := GlobalEvent(EventKey(server.value.companyId, BaseNameWithout(fsPath, ".js")), fileContent);
              outcome.events == Upserted(EventListOf(listReply), entry)
    ensures outcome.Pushed? ==> outcome.report == EventExportReport(BaseNameWithout(fsPath, ".js"), saveReply)
    ensures server.Some? && (server.value.confirmExporting ==> passwordConfirmed) ==> outcome.Pushed?
  {
    if server.None? {
      return NoServer;
    }
    var globalEvents := EventListOf(listReply);
    var globalEventId := BaseNameWithout(fsPath, ".js");
    var entry := GlobalEvent(EventKey(server.value.companyId, globalEventId), fileContent);
    var index := FindIndex(globalEvents, globalEventId);
    if index == -1 {
      globalEvents := globalEvents + [entry];
    } else {
      globalEvents := globalEvents[index := entry];
    }
    if server.value.confirmExporting && !passwordConfirmed {
      return Stopped;
    }
    outcome := Pushed(globalEvents, EventExportReport(globalEventId, saveReply));
  }

  /**
   * When the list read fails, `getEventList` answers `[]` and `export` goes
   * on: the list it pushes is the one new entry, which replaces the whole
   * remote catalog.
   */
  lemma FailedReadPushesOnlyEntry(reply: ListReply, entry: GlobalEvent)
    requires !reply.EventList?
    ensures Upserted(EventListOf(reply), entry) == [entry]
  {
  }

  /**
   * `export` with the evidently intended guard: nothing is pushed unless the
   * list was read, so every listed event with another id survives the push.
   */
  method ExportEventChecked(server: Option<Server>, listReply: ListReply, fsPath: string, fileContent: string,
                            passwordConfirmed: bool, saveReply: Option<SaveReply>) returns (outcome: EventExportOutcome)
    ensures server.None? ==> outcome == NoServer
    ensures server.Some? && !listReply.EventList? ==> outcome == ReadFailed
    ensures outcome.Pushed? ==> listReply.EventList?
    ensures outcome.Pushed? ==> forall e :: e in listReply.events && e.key.eventId != BaseNameWithout(fsPath, ".js") ==>
                                            e in outcome.events
    ensures outcome.Pushed? ==>
              var entry := GlobalEvent(EventKey(server.value.companyId, BaseNameWithout(fsPath, ".js")), fileContent);
              outcome.events == Upserted(listReply.events, entry)
    ensures outcome.Pushed? ==> outcome.report == EventExportReport(BaseNameWithout(fsPath, ".js"), saveReply)
    ensures server.Some? && listReply.EventList? && (server.value.confirmExporting ==> passwordConfirmed) ==> outcome.Pushed?
  {
    if server.Some? && !listReply.EventList? {
      return ReadFailed;
    }
    outcome := ExportEvent(server, listReply, fsPath, fileContent, passwordConfirmed, saveReply);
    if outcome.Pushed? {
      var entry := GlobalEvent(EventKey(server.value.companyId, BaseNameWithout(fsPath, ".js")), fileContent);
      forall e | e in listReply.events && e.key.eventId != entry.key.eventId
        ensures e in outcome.events
      {
        UpsertKeepsOthers(listReply.events, entry, e);
      }
    }
  }

  /** Where `saveFile` writes an imported event: `<workspace>/events/<eventId>.js`. */
  function EventFilePath(workspace: string, eventId: string): string {
    workspace + "/events/" + eventId + ".js"
  }

  /** Exporting the file an import wrote targets the event it came from. */
  lemma ImportExportSameId(workspace: string, eventId: string)
    requires eventId != "" && '/' !in eventId
    ensures BaseNameWithout(EventFilePath(workspace, eventId), ".js") == eventId
  {
    assert EventFilePath(workspace, eventId) == (workspace + "/events") + "/" + eventId + ".js";
    BaseNameWithoutOfJoin(workspace + "/events", eventId, ".js");
  }

  const DeleteFailurePrefix: string := "Erro ao remover Evento Global "

  /**
   * The status check of one `delete` call: success exactly when the content
   * is `"OK"`; otherwise a failure naming the event and the server's message.
   * `result.message.message` is read without optional chaining, so a failure
   * reply with no `message` object throws inside the callback and shows
   * nothing: `None`.
   */
  function DeleteReport(eventId: string, reply: SaveReply): (r: Option<Report>)
    ensures r.None? <==> reply.content != "OK" && reply.message.None?
    ensures r.Some? ==> (r.value.Success? <==> reply.content == "OK")
    ensures r.Some? && r.value.Failure? ==> StartsWith(r.value.message, DeleteFailurePrefix + eventId + "! ")
    ensures r.Some? && r.value.Failure? ==> r.value.message[|DeleteFailurePrefix + eventId + "! "|..] == MessageDetail(reply)
  {
    if reply.content == "OK" then Some(Success)
    else if reply.message.None? then None
    else Some(Failure(DeleteFailurePrefix + eventId + "! " + MessageDetail(reply)))
  }
}
