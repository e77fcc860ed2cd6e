/** The binding state machine: one row per machine id in the `machines` table,
    and the store writes and LINE messages each event causes
    (index.js:56-88 for hardware reports, 114-158 for the two commands). */
module Machines {
  import opened Wrappers
  import opened JsString
  import opened Commands

  datatype Status = Idle | WaitingStart | Running | FinishedWait

  /** A row of the table, without its key and without `updated_at`. */
  datatype Record = Record(status: Status, currentUser: Option<string>)

  /** The `machines` table, keyed by `machine_id`. */
  type Store = map<string, Record>

  /** What `updateMachineToIdle` writes. */
  const IdleRecord: Record := Record(Idle, None)

  /** The three events the handlers feed to the store. A reply is addressed by
      the one-shot reply token of the LINE message being answered. */
  datatype Event =
    | Register(id: string, user: string, replyToken: string)
    | Release(id: string, user: string, replyToken: string)
    | Report(id: string, phase: string)

  /** The messages the system sends; `Text` gives their wording. */
  datatype Message =
    | UseHint
    | PickupHint
    | Help
    | Registered(id: string)
    | NoRecord(id: string)
    | NotYours(id: string)
    | Released(id: string)
    | CycleStarted(id: string)
    | CycleFinished(id: string)

  datatype Notification =
    | Reply(replyToken: string, message: Message)
    | Push(to: string, message: Message)

  /** The table after an event, and the messages sent, in order. */
  datatype Outcome = Outcome(store: Store, sent: seq<Notification>)

  /** The row under `k` is the same (or equally absent) in both tables. */
  predicate SameRow(s: Store, t: Store, k: string) {
    (k in s <==> k in t) && (k in s ==> s[k] == t[k])
  }

  /** `machine ? machine.current_user : null`. */
  function BoundUser(s: Store, id: string): Option<string> {
    if id in s then s[id].currentUser else None
  }

  /** `if (currentUser) pushMessage(currentUser, …)`: JavaScript truthiness, so
      neither null nor the empty string receives a push. */
  function PushTo(user: Option<string>, m: Message): (sent: seq<Notification>)
    ensures |sent| <= 1
    ensures sent != [] <==> user.Some? && user.value != ""
    ensures sent != [] ==> sent[0] == Push(user.value, m)
  {
    if user.Some? && user.value != "" then [Push(user.value, m)] else []
  }

  /** One event applied to the table. Every write is keyed by the event's id,
      so every other row is left exactly as it was. */
  function Step(s: Store, e: Event): (o: Outcome)
    ensures forall k :: k != e.id ==> SameRow(s, o.store, k)
    ensures o.store.Keys <= s.Keys + {e.id}
  {
    match e
    case Register(id, user, token) =>
      Outcome(s[id := Record(WaitingStart, Some(user))], [Reply(token, Registered(id))])
    case Release(id, user, token) =>
      if id !in s then Outcome(s, [Reply(token, NoRecord(id))])
      else if s[id].currentUser != Some(user) then Outcome(s, [Reply(token, NotYours(id))])
      else Outcome(s[id := IdleRecord], [Reply(token, Released(id))])
    case Report(id, phase) =>
      var user := BoundUser(s, id);
      if phase == "started" then
        Outcome(s[id := Record(Running, user)], PushTo(user, CycleStarted(id)))
      else if phase == "finished" then
        Outcome(s[id := Record(FinishedWait, user)], PushTo(user, CycleFinished(id)))
      else
        Outcome(s, [])
  }

  /** Register always succeeds: whatever the machine's row was, or if it had
      none, it now waits for its cycle to start, bound to the sender. */
  lemma RegisterOverwrites(s: Store, id: string, user: string, token: string)
    ensures var o := Step(s, Register(id, user, token));
            && id in o.store && o.store[id] == Record(WaitingStart, Some(user))
            && o.store.Keys == s.Keys + {id}
            && o.sent == [Reply(token, Registered(id))]
  {
  }

  /** Release succeeds exactly when the row exists and is bound to the sender,
      whatever its status (there is no check for `finished_wait`); otherwise
      nothing changes and the sender is told why. */
  lemma ReleaseAcceptedIff(s: Store, id: string, user: string, token: string)
    ensures var o := Step(s, Release(id, user, token));
            if id in s && s[id].currentUser == Some(user) then
              o == Outcome(s[id := IdleRecord], [Reply(token, Released(id))])
            else
              o.store == s
              && o.sent == [Reply(token, if id in s then NotYours(id) else NoRecord(id))]
  {
  }

  /** A hardware report of `started` or `finished` sets the status and keeps
      the bound user (none for a machine never seen before, whose row it
      creates); that user, if any, gets exactly one push. */
  lemma ReportKeepsBinding(s: Store, id: string, phase: string)
    requires phase == "started" || phase == "finished"
    ensures var o := Step(s, Report(id, phase));
            && id in o.store
            && o.store[id].status == (if phase == "started" then Running else FinishedWait)
            && o.store[id].currentUser == (if id in s then s[id].currentUser else None)
            && o.store.Keys == s.Keys + {id}
            && |o.sent| <= 1
            && (o.sent != [] <==> BoundUser(s, id).Some? && BoundUser(s, id).value != "")
            && forall n :: n in o.sent ==>
                 n.Push? && Some(n.to) == BoundUser(s, id)
                 && n.message == (if phase == "started" then CycleStarted(id) else CycleFinished(id))
  {
  }

  /** Any other phase is acknowledged and ignored. */
  lemma ReportOtherPhaseIgnored(s: Store, id: string, phase: string)
    requires phase != "started" && phase != "finished"
    ensures Step(s, Report(id, phase)) == Outcome(s, [])
  {
  }

  /** Reporting `finished` twice leaves the same row as reporting it once; the
      bound user is pushed the same message again. */
  lemma FinishedTwiceSameRow(s: Store, id: string)
    ensures var once := Step(s, Report(id, "finished"));
            var twice := Step(once.store, Report(id, "finished"));
            twice.store == once.store && twice.sent == once.sent
  {
  }

  /** Register followed by Release from the same sender, with no report in
      between, frees the machine. */
  lemma RegisterThenRelease(s: Store, id: string, user: string, t1: string, t2: string)
    ensures var o := Step(Step(s, Register(id, user, t1)).store, Release(id, user, t2));
            o == Outcome(s[id := IdleRecord], [Reply(t2, Released(id))])
  {
  }

  /** One washing cycle: register, start, finish, collect. */
  lemma WashingCycle(s: Store)
    ensures var o1 := Step(s, Register("A1", "U1", "t1"));
            var o2 := Step(o1.store, Report("A1", "started"));
            var o3 := Step(o2.store, Report("A1", "finished"));
            var o4 := Step(o3.store, Release("A1", "U1", "t2"));
            && o1 == Outcome(s["A1" := Record(WaitingStart, Some("U1"))], [Reply("t1", Registered("A1"))])
            && o2 == Outcome(s["A1" := Record(Running, Some("U1"))], [Push("U1", CycleStarted("A1"))])
            && o3 == Outcome(s["A1" := Record(FinishedWait, Some("U1"))], [Push("U1", CycleFinished("A1"))])
            && o4 == Outcome(s["A1" := IdleRecord], [Reply("t2", Released("A1"))])
  {
  }

  /** The rows every event writes keep three facts: an idle machine has no
      user, a machine waiting to start has one, and a machine with a user has
      a non-empty trimmed id, because only a parsed command binds a user.
      (A running or finished machine may have no user: a report can arrive
      before anyone registers, and it may then carry any id.) */
  ghost predicate WellFormed(s: Store) {
    forall k :: k in s ==>
      (s[k].status == Idle ==> s[k].currentUser == None)
      && (s[k].status == WaitingStart ==> s[k].currentUser.Some?)
      && (s[k].currentUser.Some? ==> k != [] && IsTrimmed(k))
  }

  /** Every event keeps the table well formed, given that a Register names an
      id as `Parse` returns it. */
  lemma StepPreservesWellFormed(s: Store, e: Event)
    requires WellFormed(s)
    requires e.Register? ==> e.id != [] && IsTrimmed(e.id)
    ensures WellFormed(Step(s, e).store)
  {
  }

  /** On a well-formed table nobody can release an idle machine: it is bound to
      no one, so the sender is told it is not theirs. */
  lemma IdleMachineNotReleasable(s: Store, id: string, user: string, token: string)
    requires WellFormed(s) && id in s && s[id].status == Idle
    ensures Step(s, Release(id, user, token)) == Outcome(s, [Reply(token, NotYours(id))])
  {
  }

  const AdText: string := "今日優惠：出示此訊息飲料店 9 折！"

  /** A command as the messages show it, in corner brackets. */
  function Quoted(command: string): string {
    "「" + command + "」"
  }

  /** The wording of each message, as the handlers send it. */
  function Text(m: Message): string {
    match m
    case UseHint => "請輸入機台編號，例如：使用A1"
    case PickupHint => "請輸入機台編號，例如：取衣A1"
    case Help =>
      "👋 智慧洗衣機系統\n" +
      "指令示例：\n" +
      "「使用A1」→ 登記你正在使用 A1\n" +
      "「取衣A1」→ 取衣後釋放 A1\n"
    case Registered(id) => "✅ 已登記你本次使用洗衣機 " + id + "，感測器偵測到開始時會通知你。"
    case NoRecord(id) => "找不到洗衣機 " + id + " 的紀錄，請先輸入" + Quoted(UsePrefix + id) + "。"
    case NotYours(id) => "❌ 登記這台洗衣機的不是你，無法釋放 " + id + "。"
    case Released(id) => "✅ 已確認你已取走 " + id + " 的衣物，機台已釋放。"
    case CycleStarted(id) => "🌀 你登記的洗衣機 " + id + " 已開始運轉。"
    case CycleFinished(id) =>
      "✅ 洗衣機 " + id + " 已完成，請盡速取衣。\n" + AdText +
      "\n取衣後請輸入" + Quoted(PickupPrefix + id) + "或按系統按鈕。"
  }

  /** The finished push quotes, between 「 and 」, a command that releases the
      same machine when the user sends it back. */
  lemma FinishedPushQuotesPickup(id: string)
    requires id != [] && IsTrimmed(id)
    ensures Parse(PickupPrefix + id) == Pickup(id)
    ensures exists i: nat :: OccursAt(Text(CycleFinished(id)), Quoted(PickupPrefix + id), i)
  {
    SuggestedPickupParses(id);
    var quoted := Quoted(PickupPrefix + id);
    var head := "✅ 洗衣機 " + id + " 已完成，請盡速取衣。\n" + AdText + "\n取衣後請輸入";
    var text := Text(CycleFinished(id));
    assert text == head + quoted + "或按系統按鈕。";
    assert text[|head|..|head| + |quoted|] == quoted;
    assert OccursAt(text, quoted, |head|);
  }

  /** Every finished push actually sent, from a well-formed table, quotes a
      command that releases its machine: a pushed user is bound to the row,
      so its id is the trimmed id of a parsed command. */
  lemma SentFinishedPushIsCollectable(s: Store, id: string)
    requires WellFormed(s)
    requires Step(s, Report(id, "finished")).sent != []
    ensures Parse(PickupPrefix + id) == Pickup(id)
    ensures exists i: nat :: OccursAt(Text(CycleFinished(id)), Quoted(PickupPrefix + id), i)
  {
    assert id in s && s[id].currentUser.Some?;
    FinishedPushQuotesPickup(id);
  }
}
