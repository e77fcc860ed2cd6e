/** The two HTTP entry points and the `machines` table they share: the LINE
    webhook (index.js:24-40) with its text handler (100-173), the ESP32 report
    endpoint (46-95), and the three table operations (180-240). */
module Server {
  import opened Wrappers
  import opened JsString
  import opened Commands
  import opened Machines

  /** The JSON body of a POST to /esp32; a field absent from it is `None`. */
  datatype ReportBody = ReportBody(machineId: Option<string>, status: Option<string>)

  /** 400 with an error body, or 200 with `{ ok: true }`. */
  datatype Response = BadRequest | Ok

  /** One entry of the webhook's `events` array, reduced to what the handler reads. */
  datatype LineEvent =
    LineEvent(kind: string, messageKind: string, userId: string, replyToken: string, text: string)

  /** `!field` in JavaScript: absent or the empty string. */
  predicate Falsy(field: Option<string>) {
    field.None? || field.value == ""
  }

  /** What a parsed command from `userId` does: a Register or Release, or a
      hint or the help text. Whatever the command, exactly one reply is sent
      and it answers this message. */
  function CommandOutcome(s: Store, userId: string, replyToken: string, command: Command): (o: Outcome)
    ensures |o.sent| == 1 && o.sent[0].Reply? && o.sent[0].replyToken == replyToken
  {
    match command
    case Use(id) => Step(s, Register(id, userId, replyToken))
    case Pickup(id) => Step(s, Release(id, userId, replyToken))
    case UseMissingId => Outcome(s, [Reply(replyToken, UseHint)])
    case PickupMissingId => Outcome(s, [Reply(replyToken, PickupHint)])
    case Unrecognised => Outcome(s, [Reply(replyToken, Help)])
  }

  /** A text message from `userId`: whatever it says, it is answered by exactly
      one reply on its own token, and text that is neither command once
      trimmed leaves the table as it was. */
  function TextOutcome(s: Store, userId: string, replyToken: string, text: string): (o: Outcome)
    ensures |o.sent| == 1 && o.sent[0].Reply? && o.sent[0].replyToken == replyToken
    ensures !StartsWith(Trim(text), UsePrefix) && !StartsWith(Trim(text), PickupPrefix) ==> o.store == s
  {
    CommandOutcome(s, userId, replyToken, Parse(text))
  }

  /** A POST to /esp32. A missing or empty field is rejected before the table
      is read; otherwise the report is applied and acknowledged, even when its
      status is neither `started` nor `finished`. */
  function ReportOutcome(s: Store, body: ReportBody): (r: (Response, Outcome))
    ensures r.0 == BadRequest <==> Falsy(body.machineId) || Falsy(body.status)
    ensures r.0 == BadRequest ==> r.1 == Outcome(s, [])
  {
    if Falsy(body.machineId) || Falsy(body.status) then (BadRequest, Outcome(s, []))
    else (Ok, Step(s, Report(body.machineId.value, body.status.value)))
  }

  /** Only text messages are handled; every other webhook event is skipped. */
  function EventOutcome(s: Store, e: LineEvent): (o: Outcome)
    ensures IsText(e) ==> |o.sent| == 1 && o.sent[0].Reply? && o.sent[0].replyToken == e.replyToken
    ensures !IsText(e) ==> o == Outcome(s, [])
    ensures |o.sent| <= 1 && forall n :: n in o.sent ==> n.Reply?
  {
    if IsText(e) then
      var o := TextOutcome(s, e.userId, e.replyToken, e.text);
      assert o.sent == [o.sent[0]];
      o
    else
      Outcome(s, [])
  }

  /** A text message, the one kind of webhook event the handler acts on. */
  predicate IsText(e: LineEvent) {
    e.kind == "message" && e.messageKind == "text"
  }

  /** The webhook's events handled one after another: each sees the table the
      previous one left, and the messages are sent in event order. A batch
      only ever replies, never pushes, and sends at most one message per
      event. */
  function Deliver(s: Store, events: seq<LineEvent>): (o: Outcome)
    ensures |o.sent| <= |events|
    ensures forall n :: n in o.sent ==> n.Reply?
    decreases |events|
  {
    if events == [] then Outcome(s, [])
    else
      var before := Deliver(s, events[..|events| - 1]);
      var last := EventOutcome(before.store, events[|events| - 1]);
      assert |last.sent| <= 1 && forall n :: n in last.sent ==> n.Reply?;
      Outcome(last.store, before.sent + last.sent)
  }

  /** The machine a webhook event can write to, if any. */
  function Target(e: LineEvent): Option<string> {
    if IsText(e) then
      match Parse(e.text)
      case Use(id) => Some(id)
      case Pickup(id) => Some(id)
      case _ => None
    else None
  }

  /** A row that no event in the batch names is untouched by the batch. */
  lemma {:induction false} DeliverLeavesOtherRows(s: Store, events: seq<LineEvent>, k: string)
    requires forall i :: 0 <= i < |events| ==> Target(events[i]) != Some(k)
    ensures SameRow(s, Deliver(s, events).store, k)
  {
    if events != [] {
      var init := events[..|events| - 1];
      DeliverLeavesOtherRows(s, init, k);
      var before := Deliver(s, init);
      var e := events[|events| - 1];
      assert Target(e) != Some(k);
      EventKeepsOtherRows(before.store, e, k);
    }
  }

  /** One webhook event leaves alone every row it does not name. */
  lemma EventKeepsOtherRows(s: Store, e: LineEvent, k: string)
    requires Target(e) != Some(k)
    ensures SameRow(s, EventOutcome(s, e).store, k)
  {
    if IsText(e) {
      var command := Parse(e.text);
      assert EventOutcome(s, e) == CommandOutcome(s, e.userId, e.replyToken, command);
      match command
      case Use(id) => assert id != k;
      case Pickup(id) => assert id != k;
      case _ =>
    }
  }

  /** Every batch of webhook events keeps the table well formed. */
  lemma {:induction false} DeliverPreservesWellFormed(s: Store, events: seq<LineEvent>)
    requires WellFormed(s)
    ensures WellFormed(Deliver(s, events).store)
  {
    if events != [] {
      var init := events[..|events| - 1];
      DeliverPreservesWellFormed(s, init);
      var before := Deliver(s, init);
      var e := events[|events| - 1];
      if IsText(e) {
        match Parse(e.text)
        case Use(id) => StepPreservesWellFormed(before.store, Register(id, e.userId, e.replyToken));
        case Pickup(id) => StepPreservesWellFormed(before.store, Release(id, e.userId, e.replyToken));
        case _ =>
      }
    }
  }

  /** A hardware report keeps the table well formed, whether it is rejected,
      applied or ignored. */
  lemma ReportPreservesWellFormed(s: Store, body: ReportBody)
    requires WellFormed(s)
    ensures WellFormed(ReportOutcome(s, body).1.store)
  {
    if !Falsy(body.machineId) && !Falsy(body.status) {
      StepPreservesWellFormed(s, Report(body.machineId.value, body.status.value));
    }
  }

  /** A prefix followed by nothing but whitespace changes nothing and only
      sends the matching usage hint. */
  lemma EmptyIdOnlyHints(s: Store, userId: string, token: string, a: string, gap: string)
    requires AllWhitespace(a) && AllWhitespace(gap)
    ensures TextOutcome(s, userId, token, a + UsePrefix + gap) == Outcome(s, [Reply(token, UseHint)])
    ensures TextOutcome(s, userId, token, a + PickupPrefix + gap) == Outcome(s, [Reply(token, PickupHint)])
  {
    MissingIdParses(a, gap);
  }

  /** A text that starts with neither prefix, once trimmed, changes nothing and
      only sends the help text. */
  lemma UnrecognisedTextOnlyHelps(s: Store, userId: string, token: string, text: string)
    requires !StartsWith(Trim(text), UsePrefix) && !StartsWith(Trim(text), PickupPrefix)
    ensures TextOutcome(s, userId, token, text) == Outcome(s, [Reply(token, Help)])
  {
  }

  /** `使用<id>`, with any whitespace around the id, binds the sender to that
      machine whatever its row held before. */
  lemma UseTextRegisters(s: Store, userId: string, token: string, a: string, gap: string, id: string, b: string)
    requires AllWhitespace(a) && AllWhitespace(gap) && AllWhitespace(b)
    requires id != [] && IsTrimmed(id)
    ensures TextOutcome(s, userId, token, a + UsePrefix + gap + id + b)
            == Outcome(s[id := Record(WaitingStart, Some(userId))], [Reply(token, Registered(id))])
  {
    UseCommandParses(a, gap, id, b);
  }

  /** `取衣<id>`, with any whitespace around the id, is a Release by the
      sender: it succeeds only for the bound user, from any status. */
  lemma PickupTextReleases(s: Store, userId: string, token: string, a: string, gap: string, id: string, b: string)
    requires AllWhitespace(a) && AllWhitespace(gap) && AllWhitespace(b)
    requires id != [] && IsTrimmed(id)
    ensures var o := TextOutcome(s, userId, token, a + PickupPrefix + gap + id + b);
            if id in s && s[id].currentUser == Some(userId) then
              o == Outcome(s[id := IdleRecord], [Reply(token, Released(id))])
            else
              o.store == s
              && o.sent == [Reply(token, if id in s then NotYours(id) else NoRecord(id))]
  {
    PickupCommandParses(a, gap, id, b);
    ReleaseAcceptedIff(s, id, userId, token);
  }

  /** Someone other than the bound user sending `取衣<id>` is turned away and
      the row is untouched. */
  lemma OtherUserCannotCollect(s: Store, id: string, owner: string, other: string, token: string)
    requires id in s && s[id].currentUser == Some(owner) && other != owner
    requires id != [] && IsTrimmed(id)
    ensures TextOutcome(s, other, token, PickupPrefix + id) == Outcome(s, [Reply(token, NotYours(id))])
  {
    SuggestedPickupParses(id);
  }

  /** The `machines` table as the server sees it through the REST API. */
  class MachineTable {
    var rows: Store

    constructor (initial: Store)
      ensures rows == initial
    {
      rows := initial;
    }

    /** `getMachine`: the row stored under the id, or null. */
    method GetMachine(id: string) returns (row: Option<Record>)
      ensures row.Some? <==> id in rows
      ensures row.Some? ==> row.value == rows[id]
    {
      row := if id in rows then Some(rows[id]) else None;
    }

    /** `upsertMachine`: insert, or replace the whole row on a duplicate key. */
    method UpsertMachine(id: string, row: Record)
      modifies this
      ensures rows == old(rows)[id := row]
    {
      rows := rows[id := row];
    }

    /** `updateMachineToIdle`: a PATCH filtered by id, so it writes nothing when
        no row has that id. */
    method UpdateMachineToIdle(id: string)
      modifies this
      ensures id in old(rows) ==> rows == old(rows)[id := IdleRecord]
      ensures id !in old(rows) ==> rows == old(rows)
    {
      if id in rows {
        rows := rows[id := IdleRecord];
      }
    }

    /** `handleTextMessage`. */
    method HandleTextMessage(userId: string, replyToken: string, text: string)
      returns (sent: seq<Notification>)
      modifies this
      ensures Outcome(rows, sent) == TextOutcome(old(rows), userId, replyToken, text)
    {
      match Parse(text)
      case Use(id) =>
        UpsertMachine(id, Record(WaitingStart, Some(userId)));
        sent := [Reply(replyToken, Registered(id))];
      case Pickup(id) =>
        var row := GetMachine(id);
        if row.None? {
          sent := [Reply(replyToken, NoRecord(id))];
        } else if row.value.currentUser != Some(userId) {
          sent := [Reply(replyToken, NotYours(id))];
        } else {
          UpdateMachineToIdle(id);
          sent := [Reply(replyToken, Released(id))];
        }
      case UseMissingId =>
        sent := [Reply(replyToken, UseHint)];
      case PickupMissingId =>
        sent := [Reply(replyToken, PickupHint)];
      case Unrecognised =>
        sent := [Reply(replyToken, Help)];
    }

    /** The /esp32 handler. */
    method HandleReport(body: ReportBody) returns (response: Response, sent: seq<Notification>)
      modifies this
      ensures (response, Outcome(rows, sent)) == ReportOutcome(old(rows), body)
    {
      if Falsy(body.machineId) || Falsy(body.status) {
        return BadRequest, [];
      }
      var id, status := body.machineId.value, body.status.value;
      var machine := GetMachine(id);
      var currentUser := if machine.Some? then machine.value.currentUser else None;
      sent := [];
      if status == "started" {
        UpsertMachine(id, Record(Running, currentUser));
        if currentUser.Some? && currentUser.value != "" {
          sent := [Push(currentUser.value, CycleStarted(id))];
        }
      } else if status == "finished" {
        UpsertMachine(id, Record(FinishedWait, currentUser));
        if currentUser.Some? && currentUser.value != "" {
          sent := [Push(currentUser.value, CycleFinished(id))];
        }
      }
      response := Ok;
    }

    /** The /webhook handler: each text message in turn, the others skipped. */
    method HandleWebhook(events: seq<LineEvent>) returns (sent: seq<Notification>)
      modifies this
      ensures Outcome(rows, sent) == Deliver(old(rows), events)
    {
      sent := [];
      for i := 0 to |events|
        invariant Outcome(rows, sent) == Deliver(old(rows), events[..i])
      {
        var e := events[i];
        assert events[..i + 1][..i] == events[..i];
        if IsText(e) {
          var replies := HandleTextMessage(e.userId, e.replyToken, e.text);
          sent := sent + replies;
        }
      }
      assert events[..|events|] == events;
    }
  }
}
