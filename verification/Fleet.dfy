/**
 Several service processes on one durable ledger (src/omo/service.py over src/omo/access.py): their
 chats reserve by the statements of one SQLite transaction each, interleaved in any way. A
 reservation may be refused, find the table busy or fail, and any process may die at any moment.
 */
module Fleet {
  import opened Common
  import opened Contracts
  import opened Ledger
  import Provider
  import L = SqliteLedger
  import S = Service

  type Pid = L.Pid

  /**
   `at` is the process of each chat, `waiting` the chats inside `reserve`, each with what it will do
   once the reservation is accepted, and `dead` the processes that have died. A restarted process
   is a new one.
   */
  datatype State = State(
    db: L.Db, chats: seq<S.Chat>, at: seq<Pid>, waiting: map<nat, S.Payment>, dead: set<Pid>)
  {
    predicate Sized() { |at| == |chats| }

    predicate Runs(id: nat)
      requires Sized()
    {
      id < |chats| && at[id] !in dead
    }
  }

  datatype Statement = Fetch | Upsert | Commit | Fail {
    function On(p: Pid): L.Step {
      match this
      case Fetch => L.Fetch(p)
      case Upsert => L.Upsert(p)
      case Commit => L.Commit(p)
      case Fail => L.Fail(p)
    }
  }

  /** `busy`: the transaction cannot begin within the connection's timeout. */
  datatype Step =
    | Start(p: Pid, callerId: Option<string>, request: ChatRequest, snapshot: Registry)
    | Ask(
        id: nat, analysis: S.Analysis, day: Day, hasKey: bool, upstream: seq<Provider.Response<()>>, busy: bool)
    | Execute(id: nat, statement: Statement)
    | Send(id: nat)
    | Crash(p: Pid)

  function Settle(s: State, id: nat, phase: S.Phase): (t: State)
    requires s.Sized() && id < |s.chats|
    ensures t.Sized()
  {
    s.(chats := s.chats[id := s.chats[id].(phase := phase)], waiting := s.waiting - {id})
  }

  /** A chat whose decision asks for a reservation enters `reserve`; its process has one lock. */
  function AskFor(s: State, id: nat, payment: S.Payment, busy: bool): (t: State)
    requires s.Sized() && id < |s.chats|
    ensures t.Sized()
  {
    if payment.ask.None? then Settle(s, id, payment.accepted)
    else
      var p, r := s.at[id], payment.ask.value;
      if L.TxnOf(s.db, p).Open() then s
      else if !r.Counts() then
        var db := L.Apply(s.db, L.Begin(p, r));
        Settle(s.(db := db), id, if r.amount.Finite? && r.amount.value >= 0.0 then payment.accepted else S.Over)
      else if busy then Settle(s.(db := L.Apply(s.db, L.Busy(p, r))), id, S.Over)
      else if s.db.writer.Some? then s
      else s.(db := L.Apply(s.db, L.Begin(p, r)), waiting := s.waiting[id := payment])
  }

  /** One statement of a waiting chat; with the answer, `reserve` returns. */
  function ExecuteFor(s: State, id: nat, statement: Statement): (t: State)
    requires s.Sized() && id < |s.chats| && id in s.waiting
    ensures t.Sized()
  {
    var db := L.Apply(s.db, statement.On(s.at[id]));
    var txn := L.TxnOf(db, s.at[id]);
    if txn.Answered? then Settle(s.(db := db), id, if txn.ok then s.waiting[id].accepted else S.Over)
    else s.(db := db)
  }

  function Apply(world: S.World, s: State, step: Step): (t: State)
    requires s.Sized()
    ensures t.Sized()
  {
    match step
    case Start(p, callerId, request, snapshot) =>
      if p in s.dead || !snapshot.Valid() || (callerId.Some? && callerId.value !in world.callers) then s
      else
        var caller := if callerId.None? then None else Some(world.callers[callerId.value]);
        s.(chats := s.chats + [S.Chat(caller, request, snapshot, S.Captured, 0)], at := s.at + [p])
    case Ask(id, analysis, day, hasKey, upstream, busy) =>
      if !s.Runs(id) || !s.chats[id].phase.Captured? || id in s.waiting || |upstream| != 2 then s
      else AskFor(s, id, S.Pay(world, s.chats[id], analysis, day, Provider.RequestsSent(hasKey, upstream)), busy)
    case Execute(id, statement) =>
      if !s.Runs(id) || id !in s.waiting then s else ExecuteFor(s, id, statement)
    case Send(id) =>
      if !s.Runs(id) || !s.chats[id].phase.Calling? || s.chats[id].sent >= s.chats[id].phase.toSend then s
      else s.(chats := s.chats[id := s.chats[id].(sent := s.chats[id].sent + 1)])
    case Crash(p) => s.(db := L.Apply(s.db, L.Crash(p)), dead := s.dead + {p})
  }

  function Empty(): (s: State)
    ensures s.Sized()
  {
    State(L.Empty(), [], [], map[], {})
  }

  function Run(world: S.World, steps: seq<Step>): (s: State)
    ensures s.Sized()
  {
    if steps == [] then Empty() else Apply(world, Run(world, steps[..|steps| - 1]), steps[|steps| - 1])
  }

  // ---- the invariant --------------------------------------------------------------------------

  /**
   What is required of chats, of the payments they wait for, and of reservations. The steps below
   are checked for any such rules; `RulesOf` gives those of a world.
   */
  datatype Rules = Rules(
    chat: S.Chat -> bool, payment: (S.Chat, S.Payment) -> bool, backed: Reservation -> bool, budgeted: Key -> bool)

  predicate GoodDb(rules: Rules, db: L.Db) {
    && L.Inv(db)
    && (forall p | p in db.txns :: db.txns[p].Open() ==> rules.backed(db.txns[p].r))
    && (forall i | 0 <= i < |db.granted| :: rules.backed(db.granted[i]))
  }

  /** A chat waits with the one open transaction of its process. */
  predicate GoodWait(rules: Rules, s: State, id: nat)
    requires s.Sized() && id in s.waiting
  {
    && id < |s.chats| && rules.payment(s.chats[id], s.waiting[id]) && s.waiting[id].ask.Some?
    && (s.at[id] !in s.dead ==>
          L.TxnOf(s.db, s.at[id]).Open() && L.TxnOf(s.db, s.at[id]).r == s.waiting[id].ask.value)
  }

  predicate GoodWaits(rules: Rules, s: State)
    requires s.Sized()
  {
    && (forall id | id in s.waiting :: GoodWait(rules, s, id))
    && (forall i, j | i in s.waiting && j in s.waiting && i != j && s.at[i] == s.at[j] :: s.at[i] in s.dead)
  }

  predicate GoodChats(rules: Rules, chats: seq<S.Chat>) { forall i | 0 <= i < |chats| :: rules.chat(chats[i]) }

  /** What the chats have reserved on an account is covered by what is committed. */
  predicate Funded(rules: Rules, db: L.Db, chats: seq<S.Chat>, k: Key) {
    rules.budgeted(k) ==> S.Reserved(chats, k) <= Held(db.committed, k)
  }

  ghost predicate AllFunded(rules: Rules, db: L.Db, chats: seq<S.Chat>) { forall k: Key :: Funded(rules, db, chats, k) }

  ghost predicate Inv(rules: Rules, s: State)
    requires s.Sized()
  {
    GoodDb(rules, s.db) && GoodWaits(rules, s) && GoodChats(rules, s.chats) && AllFunded(rules, s.db, s.chats)
  }

  // ---- one step of the database ---------------------------------------------------------------

  /** Only the transaction of one process changes, and an open one keeps its reservation. */
  ghost predicate OneTxn(db: L.Db, next: L.Db, p: Pid) {
    && (forall q | q != p :: L.TxnOf(next, q) == L.TxnOf(db, q))
    && (L.TxnOf(next, p).Open() && L.TxnOf(db, p).Open() ==> L.TxnOf(next, p).r == L.TxnOf(db, p).r)
  }

  lemma DbMoves(db: L.Db, step: L.Step)
    ensures OneTxn(db, L.Apply(db, step), step.p)
    ensures L.TxnOf(L.Apply(db, step), step.p).Open() && !L.TxnOf(db, step.p).Open() ==>
      step.Begin? && L.TxnOf(L.Apply(db, step), step.p).r == step.r
    ensures L.Apply(db, step).granted == db.granted ||
      (step.Commit? && L.TxnOf(db, step.p).Upserted?
        && L.Apply(db, step).granted == db.granted + [L.TxnOf(db, step.p).r])
  {
  }

  lemma BackedKept(rules: Rules, db: L.Db, next: L.Db, p: Pid)
    requires forall q | q in db.txns :: db.txns[q].Open() ==> rules.backed(db.txns[q].r)
    requires OneTxn(db, next, p)
    requires L.TxnOf(next, p).Open() && !L.TxnOf(db, p).Open() ==> rules.backed(L.TxnOf(next, p).r)
    ensures forall q | q in next.txns :: next.txns[q].Open() ==> rules.backed(next.txns[q].r)
  {
    forall q | q in next.txns && next.txns[q].Open() ensures rules.backed(next.txns[q].r) {
      assert L.TxnOf(next, q) == next.txns[q];
      if q != p || L.TxnOf(db, q).Open() {
        assert L.TxnOf(db, q).Open() && q in db.txns;
      }
    }
  }

  lemma GrantedKept(rules: Rules, db: L.Db, next: L.Db, p: Pid)
    requires GoodDb(rules, db)
    requires next.granted == db.granted
      || (L.TxnOf(db, p).Upserted? && next.granted == db.granted + [L.TxnOf(db, p).r])
    ensures forall i | 0 <= i < |next.granted| :: rules.backed(next.granted[i])
  {
    assert L.TxnOf(db, p).Upserted? ==> p in db.txns && db.txns[p].Open();
  }

  lemma DbKeeps(rules: Rules, db: L.Db, step: L.Step)
    requires GoodDb(rules, db) && (step.Begin? ==> rules.backed(step.r))
    ensures GoodDb(rules, L.Apply(db, step)) && OneTxn(db, L.Apply(db, step), step.p)
  {
    L.StepKeeps(db, step);
    DbMoves(db, step);
    BackedKept(rules, db, L.Apply(db, step), step.p);
    GrantedKept(rules, db, L.Apply(db, step), step.p);
  }

  lemma BeginTakes(db: L.Db, p: Pid, r: Reservation)
    requires !L.TxnOf(db, p).Open() && r.Counts() && db.writer.None?
    ensures var next := L.Apply(db, L.Begin(p, r));
      L.TxnOf(next, p).Open() && L.TxnOf(next, p).r == r && next.committed == db.committed
  {
  }

  lemma RefusedLeaves(db: L.Db, p: Pid, r: Reservation)
    requires !L.TxnOf(db, p).Open()
    ensures L.Apply(db, L.Busy(p, r)).committed == db.committed
    ensures !r.Counts() ==> L.Apply(db, L.Begin(p, r)).committed == db.committed
  {
  }

  /** A statement of an open transaction leaves it open, or answers it: `True` exactly at a commit. */
  lemma StatementAnswers(db: L.Db, p: Pid, statement: Statement)
    requires L.Inv(db) && L.TxnOf(db, p).Open()
    ensures var r, next := L.TxnOf(db, p).r, L.Apply(db, statement.On(p));
      var txn := L.TxnOf(next, p);
      && (txn.Open() || txn.Answered?) && r.Counts()
      && (if txn.Answered? && txn.ok
          then next.committed == db.committed[r.EntryKey() := Held(db.committed, r.EntryKey()) + r.amount.value]
          else next.committed == db.committed)
  {
    assert p in db.txns && L.Current(db, db.txns[p]);
  }

  // ---- every step -----------------------------------------------------------------------------

  /** A chat that stops waiting, or never waited, disturbs no other wait. */
  lemma WaitsKept(rules: Rules, s: State, t: State, id: nat)
    requires s.Sized() && t.Sized() && GoodWaits(rules, s) && s.Runs(id)
    requires t.at == s.at && t.dead == s.dead && |t.chats| == |s.chats| && t.waiting == s.waiting - {id}
    requires forall i | 0 <= i < |s.chats| && i != id :: t.chats[i] == s.chats[i]
    requires OneTxn(s.db, t.db, s.at[id])
    requires id in s.waiting || t.db == s.db || !L.TxnOf(s.db, s.at[id]).Open()
    ensures GoodWaits(rules, t)
  {
    forall j | j in t.waiting ensures GoodWait(rules, t, j) {
      assert GoodWait(rules, s, j);
    }
  }

  /** The table grows at least by what the chat newly owes. */
  ghost predicate Covers(rules: Rules, before: L.Db, after: L.Db, was: S.Chat, now: S.Chat) {
    forall k: Key | rules.budgeted(k) ::
      Held(before.committed, k) + S.ReservedBy(now, k) - S.ReservedBy(was, k) <= Held(after.committed, k)
  }

  lemma FundedKept(rules: Rules, s: State, db: L.Db, id: nat, chat: S.Chat)
    requires AllFunded(rules, s.db, s.chats) && id < |s.chats|
    requires Covers(rules, s.db, db, s.chats[id], chat)
    ensures AllFunded(rules, db, s.chats[id := chat])
  {
    var chats := s.chats[id := chat];
    forall k: Key ensures Funded(rules, db, chats, k) {
      assert Funded(rules, s.db, s.chats, k);
      S.ReservedUpdate(s.chats, id, chat, k);
    }
  }

  lemma SettleKeeps(rules: Rules, s: State, db: L.Db, id: nat, phase: S.Phase)
    requires s.Sized() && Inv(rules, s) && s.Runs(id) && GoodDb(rules, db) && OneTxn(s.db, db, s.at[id])
    requires id in s.waiting || db == s.db || !L.TxnOf(s.db, s.at[id]).Open()
    requires rules.chat(s.chats[id].(phase := phase))
    requires Covers(rules, s.db, db, s.chats[id], s.chats[id].(phase := phase))
    ensures Inv(rules, Settle(s.(db := db), id, phase))
  {
    var t := Settle(s.(db := db), id, phase);
    WaitsKept(rules, s, t, id);
    FundedKept(rules, s, db, id, s.chats[id].(phase := phase));
  }

  /** The payment is that of the chat: it owes what it asks for, if it asks for anything. */
  ghost predicate Owes(rules: Rules, chat: S.Chat, payment: S.Payment) {
    && chat.phase.Captured? && rules.chat(chat) && rules.chat(chat.(phase := payment.accepted))
    && rules.chat(chat.(phase := S.Over))
    && (payment.ask.Some? ==> rules.backed(payment.ask.value) && rules.payment(chat, payment))
    && forall k: Key :: S.ReservedBy(chat.(phase := payment.accepted), k) == Asked(payment, k)
  }

  function Asked(payment: S.Payment, k: Key): real {
    if payment.ask.Some? && payment.ask.value.amount.Finite? && payment.ask.value.EntryKey() == k
    then payment.ask.value.amount.value else 0.0
  }

  lemma AskKeeps(rules: Rules, s: State, id: nat, payment: S.Payment, busy: bool)
    requires s.Sized() && Inv(rules, s) && s.Runs(id) && id !in s.waiting && Owes(rules, s.chats[id], payment)
    requires payment.ask.Some? && !payment.ask.value.Counts() ==> !rules.budgeted(payment.ask.value.EntryKey())
    ensures Inv(rules, AskFor(s, id, payment, busy))
  {
    var p := s.at[id];
    if payment.ask.None? {
      SettleKeeps(rules, s, s.db, id, payment.accepted);
    } else if !L.TxnOf(s.db, p).Open() {
      var r := payment.ask.value;
      RefusedLeaves(s.db, p, r);
      if !r.Counts() {
        DbKeeps(rules, s.db, L.Begin(p, r));
        SettleKeeps(rules, s, L.Apply(s.db, L.Begin(p, r)), id,
                    if r.amount.Finite? && r.amount.value >= 0.0 then payment.accepted else S.Over);
      } else if busy {
        DbKeeps(rules, s.db, L.Busy(p, r));
        SettleKeeps(rules, s, L.Apply(s.db, L.Busy(p, r)), id, S.Over);
      } else if s.db.writer.None? {
        BeginKeeps(rules, s, id, payment);
      }
    }
  }

  lemma BeginKeeps(rules: Rules, s: State, id: nat, payment: S.Payment)
    requires s.Sized() && Inv(rules, s) && s.Runs(id) && id !in s.waiting
    requires payment.ask.Some? && payment.ask.value.Counts() && rules.backed(payment.ask.value)
    requires rules.payment(s.chats[id], payment)
    requires !L.TxnOf(s.db, s.at[id]).Open() && s.db.writer.None?
    ensures Inv(rules, s.(db := L.Apply(s.db, L.Begin(s.at[id], payment.ask.value)),
      waiting := s.waiting[id := payment]))
  {
    var p, r := s.at[id], payment.ask.value;
    var db := L.Apply(s.db, L.Begin(p, r));
    DbKeeps(rules, s.db, L.Begin(p, r));
    BeginTakes(s.db, p, r);
    OneMoreWaits(rules, s, db, id, payment);
    SameFunds(rules, s, s.(db := db, waiting := s.waiting[id := payment]));
  }

  lemma OneMoreWaits(rules: Rules, s: State, db: L.Db, id: nat, payment: S.Payment)
    requires s.Sized() && GoodWaits(rules, s) && s.Runs(id) && payment.ask.Some?
    requires rules.payment(s.chats[id], payment) && OneTxn(s.db, db, s.at[id])
    requires !L.TxnOf(s.db, s.at[id]).Open()
    requires L.TxnOf(db, s.at[id]).Open() && L.TxnOf(db, s.at[id]).r == payment.ask.value
    ensures GoodWaits(rules, s.(db := db, waiting := s.waiting[id := payment]))
  {
    var t := s.(db := db, waiting := s.waiting[id := payment]);
    forall j | j in t.waiting ensures GoodWait(rules, t, j) {
      assert j != id ==> GoodWait(rules, s, j);
    }
    forall i, j | i in t.waiting && j in t.waiting && i != j && t.at[i] == t.at[j] ensures t.at[i] in t.dead {
      assert i != id ==> GoodWait(rules, s, i);
      assert j != id ==> GoodWait(rules, s, j);
    }
  }

  lemma SameFunds(rules: Rules, s: State, t: State)
    requires AllFunded(rules, s.db, s.chats) && t.chats == s.chats && t.db.committed == s.db.committed
    ensures AllFunded(rules, t.db, t.chats)
  {
    forall k: Key ensures Funded(rules, t.db, t.chats, k) {
      assert Funded(rules, s.db, s.chats, k);
    }
  }

  /** An accepted reservation covers what the chat will owe; otherwise nothing is owed. */
  lemma AnswerCovers(rules: Rules, db: L.Db, next: L.Db, chat: S.Chat, payment: S.Payment, ok: bool)
    requires Owes(rules, chat, payment) && payment.ask.Some? && payment.ask.value.Counts()
    requires next.committed == (if ok
      then db.committed[payment.ask.value.EntryKey() :=
        Held(db.committed, payment.ask.value.EntryKey()) + payment.ask.value.amount.value]
      else db.committed)
    ensures Covers(rules, db, next, chat, chat.(phase := if ok then payment.accepted else S.Over))
  {
  }

  lemma ExecuteKeeps(rules: Rules, s: State, id: nat, statement: Statement)
    requires s.Sized() && Inv(rules, s) && s.Runs(id) && id in s.waiting && Owes(rules, s.chats[id], s.waiting[id])
    ensures Inv(rules, ExecuteFor(s, id, statement))
  {
    assert GoodWait(rules, s, id);
    var p := s.at[id];
    var db := L.Apply(s.db, statement.On(p));
    DbKeeps(rules, s.db, statement.On(p));
    StatementAnswers(s.db, p, statement);
    var txn := L.TxnOf(db, p);
    if txn.Answered? {
      AnswerCovers(rules, s.db, db, s.chats[id], s.waiting[id], txn.ok);
      SettleKeeps(rules, s, db, id, if txn.ok then s.waiting[id].accepted else S.Over);
    } else {
      StillOpen(rules, s, db, id);
      SameFunds(rules, s, s.(db := db));
    }
  }

  lemma StillOpen(rules: Rules, s: State, db: L.Db, id: nat)
    requires s.Sized() && GoodWaits(rules, s) && id < |s.chats| && OneTxn(s.db, db, s.at[id])
    requires L.TxnOf(s.db, s.at[id]).Open() && L.TxnOf(db, s.at[id]).Open()
    ensures GoodWaits(rules, s.(db := db))
  {
    var t := s.(db := db);
    forall j | j in t.waiting ensures GoodWait(rules, t, j) {
      assert GoodWait(rules, s, j);
    }
  }

  lemma CrashKeeps(rules: Rules, s: State, p: Pid)
    requires s.Sized() && Inv(rules, s)
    ensures Inv(rules, s.(db := L.Apply(s.db, L.Crash(p)), dead := s.dead + {p}))
  {
    var t := s.(db := L.Apply(s.db, L.Crash(p)), dead := s.dead + {p});
    DbKeeps(rules, s.db, L.Crash(p));
    OthersWait(rules, s, t, p);
    SameFunds(rules, s, t);
  }

  lemma OthersWait(rules: Rules, s: State, t: State, p: Pid)
    requires s.Sized() && GoodWaits(rules, s) && t == s.(db := t.db, dead := s.dead + {p}) && OneTxn(s.db, t.db, p)
    ensures GoodWaits(rules, t)
  {
    forall j | j in t.waiting ensures GoodWait(rules, t, j) {
      assert GoodWait(rules, s, j);
    }
  }

  /** A request is sent: the chat owes what it owed. */
  lemma SendKeeps(rules: Rules, s: State, id: nat, chat: S.Chat)
    requires s.Sized() && Inv(rules, s) && s.Runs(id) && id !in s.waiting && rules.chat(chat)
    requires forall k: Key :: S.ReservedBy(chat, k) == S.ReservedBy(s.chats[id], k)
    ensures Inv(rules, s.(chats := s.chats[id := chat]))
  {
    var t := s.(chats := s.chats[id := chat]);
    assert s.waiting - {id} == s.waiting;
    WaitsKept(rules, s, t, id);
    FundedKept(rules, s, s.db, id, chat);
  }

  lemma StartKeeps(rules: Rules, s: State, chat: S.Chat, p: Pid)
    requires s.Sized() && Inv(rules, s) && rules.chat(chat) && chat.phase.Captured?
    ensures Inv(rules, s.(chats := s.chats + [chat], at := s.at + [p]))
  {
    var t := s.(chats := s.chats + [chat], at := s.at + [p]);
    OldWaits(rules, s, chat, p);
    forall k: Key ensures Funded(rules, t.db, t.chats, k) {
      assert Funded(rules, s.db, s.chats, k);
      assert t.chats[..|t.chats| - 1] == s.chats;
    }
  }

  lemma OldWaits(rules: Rules, s: State, chat: S.Chat, p: Pid)
    requires s.Sized() && GoodWaits(rules, s)
    ensures GoodWaits(rules, s.(chats := s.chats + [chat], at := s.at + [p]))
  {
    var t := s.(chats := s.chats + [chat], at := s.at + [p]);
    forall j | j in t.waiting ensures GoodWait(rules, t, j) {
      assert GoodWait(rules, s, j);
    }
    forall i, j | i in t.waiting && j in t.waiting && i != j && t.at[i] == t.at[j] ensures t.at[i] in t.dead {
      assert GoodWait(rules, s, i) && GoodWait(rules, s, j);
    }
  }

  // ---- the rules of a world -------------------------------------------------------------------

  /** The reservation carries the budget of its caller. */
  predicate Backed(world: S.World, r: Reservation) {
    r.caller in world.callers && r.budget == world.callers[r.caller].dailyBudget
  }

  /** Once accepted, the payment makes the chat a good one that owes exactly the reservation. */
  predicate GoodPayment(world: S.World, chat: S.Chat, payment: S.Payment) {
    && chat.phase.Captured? && chat.caller.Some? && payment.accepted.Calling?
    && S.GoodChat(world, chat) && S.GoodChat(world, chat.(phase := payment.accepted))
    && payment.ask == Some(S.ReservationFor(chat.caller.value, payment.accepted.cost, payment.accepted.day))
  }

  ghost function RulesOf(world: S.World): Rules {
    Rules(
      chat => S.GoodChat(world, chat), (chat, payment) => GoodPayment(world, chat, payment),
      r => Backed(world, r), k => S.Budgeted(world, k))
  }

  /** What `Pay` gives is such a payment, or asks for nothing and owes nothing on any account. */
  lemma PayOwes(world: S.World, chat: S.Chat, analysis: S.Analysis, day: Day, toSend: nat)
    requires S.GoodChat(world, chat) && chat.phase.Captured? && toSend <= 2
    ensures Owes(RulesOf(world), chat, S.Pay(world, chat, analysis, day, toSend))
  {
    var payment := S.Pay(world, chat, analysis, day, toSend);
    S.PayExact(world, chat, analysis, day, toSend);
    OverIsGood(world, chat);
    if payment.ask.Some? {
      PaymentOwes(world, chat, payment);
    }
  }

  lemma OverIsGood(world: S.World, chat: S.Chat)
    requires S.GoodChat(world, chat) && chat.phase.Captured?
    ensures S.GoodChat(world, chat.(phase := S.Over))
  {
  }

  lemma PaymentOwes(world: S.World, chat: S.Chat, payment: S.Payment)
    requires GoodPayment(world, chat, payment)
    ensures Owes(RulesOf(world), chat, payment)
  {
    OverIsGood(world, chat);
    forall k: Key ensures S.ReservedBy(chat.(phase := payment.accepted), k) == Asked(payment, k) {}
  }

  lemma SentIsGood(world: S.World, chat: S.Chat)
    requires S.GoodChat(world, chat) && chat.phase.Calling? && chat.sent < chat.phase.toSend
    ensures S.GoodChat(world, chat.(sent := chat.sent + 1))
    ensures forall k: Key :: S.ReservedBy(chat.(sent := chat.sent + 1), k) == S.ReservedBy(chat, k)
  {
  }

  lemma NotCounted(world: S.World, payment: S.Payment)
    requires payment.ask.Some? && Backed(world, payment.ask.value) && !payment.ask.value.Counts()
    requires payment.ask.value.amount.Finite? && payment.ask.value.amount.value >= 0.0
    ensures !S.Budgeted(world, payment.ask.value.EntryKey())
  {
  }

  lemma PaymentKeeps(world: S.World, s: State, id: nat, payment: S.Payment, busy: bool)
    requires s.Sized() && Inv(RulesOf(world), s) && s.Runs(id) && id !in s.waiting
    requires Owes(RulesOf(world), s.chats[id], payment)
    ensures Inv(RulesOf(world), AskFor(s, id, payment, busy))
  {
    if payment.ask.Some? && !payment.ask.value.Counts() {
      assert GoodPayment(world, s.chats[id], payment);
      NotCounted(world, payment);
    }
    AskKeeps(RulesOf(world), s, id, payment, busy);
  }

  lemma AskStep(
    world: S.World, s: State, id: nat, analysis: S.Analysis, day: Day, hasKey: bool,
    upstream: seq<Provider.Response<()>>, busy: bool)
    requires s.Sized() && Inv(RulesOf(world), s)
    ensures Inv(RulesOf(world), Apply(world, s, Ask(id, analysis, day, hasKey, upstream, busy)))
  {
    if s.Runs(id) && s.chats[id].phase.Captured? && id !in s.waiting && |upstream| == 2 {
      var toSend := Provider.RequestsSent(hasKey, upstream);
      assert RulesOf(world).chat(s.chats[id]);
      PayOwes(world, s.chats[id], analysis, day, toSend);
      PaymentKeeps(world, s, id, S.Pay(world, s.chats[id], analysis, day, toSend), busy);
    }
  }

  lemma StartStep(world: S.World, s: State, p: Pid, callerId: Option<string>, request: ChatRequest, snapshot: Registry)
    requires world.Valid() && s.Sized() && Inv(RulesOf(world), s)
    ensures Inv(RulesOf(world), Apply(world, s, Start(p, callerId, request, snapshot)))
  {
    if p !in s.dead && snapshot.Valid() && (callerId.Some? ==> callerId.value in world.callers) {
      var caller := if callerId.None? then None else Some(world.callers[callerId.value]);
      StartKeeps(RulesOf(world), s, S.Chat(caller, request, snapshot, S.Captured, 0), p);
    }
  }

  lemma ExecuteStep(world: S.World, s: State, id: nat, statement: Statement)
    requires s.Sized() && Inv(RulesOf(world), s)
    ensures Inv(RulesOf(world), Apply(world, s, Execute(id, statement)))
  {
    if s.Runs(id) && id in s.waiting {
      assert GoodWait(RulesOf(world), s, id);
      PaymentOwes(world, s.chats[id], s.waiting[id]);
      ExecuteKeeps(RulesOf(world), s, id, statement);
    }
  }

  lemma SendStep(world: S.World, s: State, id: nat)
    requires s.Sized() && Inv(RulesOf(world), s)
    ensures Inv(RulesOf(world), Apply(world, s, Send(id)))
  {
    if s.Runs(id) && s.chats[id].phase.Calling? && s.chats[id].sent < s.chats[id].phase.toSend {
      assert RulesOf(world).chat(s.chats[id]);
      CallingNotWaiting(world, s, id);
      SentIsGood(world, s.chats[id]);
      SendKeeps(RulesOf(world), s, id, s.chats[id].(sent := s.chats[id].sent + 1));
    }
  }

  lemma CallingNotWaiting(world: S.World, s: State, id: nat)
    requires s.Sized() && GoodWaits(RulesOf(world), s) && id < |s.chats| && s.chats[id].phase.Calling?
    ensures id !in s.waiting
  {
    assert id in s.waiting ==> GoodWait(RulesOf(world), s, id);
  }

  lemma CrashStep(world: S.World, s: State, p: Pid)
    requires s.Sized() && Inv(RulesOf(world), s)
    ensures Inv(RulesOf(world), Apply(world, s, Crash(p)))
  {
    CrashKeeps(RulesOf(world), s, p);
  }

  lemma StepKeeps(world: S.World, s: State, step: Step)
    requires world.Valid() && s.Sized() && Inv(RulesOf(world), s)
    ensures Inv(RulesOf(world), Apply(world, s, step))
  {
    match step
    case Start(p, callerId, request, snapshot) => StartStep(world, s, p, callerId, request, snapshot);
    case Ask(id, analysis, day, hasKey, upstream, busy) => AskStep(world, s, id, analysis, day, hasKey, upstream, busy);
    case Execute(id, statement) => ExecuteStep(world, s, id, statement);
    case Send(id) => SendStep(world, s, id);
    case Crash(p) => CrashStep(world, s, p);
  }

  lemma {:induction false} RunKeeps(world: S.World, steps: seq<Step>)
    requires world.Valid()
    ensures Inv(RulesOf(world), Run(world, steps))
  {
    if steps != [] {
      RunKeeps(world, steps[..|steps| - 1]);
      StepKeeps(world, Run(world, steps[..|steps| - 1]), steps[|steps| - 1]);
    }
  }

  // ---- over every run -------------------------------------------------------------------------

  function Budgets(world: S.World): map<string, real> {
    map id | id in world.callers && world.callers[id].dailyBudget.Some? :: world.callers[id].dailyBudget.value
  }

  lemma BackedConsistent(world: S.World, granted: seq<Reservation>)
    requires world.Valid() && forall i | 0 <= i < |granted| :: Backed(world, granted[i])
    ensures Consistent(granted, Budgets(world))
  {
  }

  /**
   However the processes interleave, fail and die: the estimated cost of the requests that all of
   them sent for a caller on a day is covered by the committed amount, and that stays within the
   caller's budget.
   */
  lemma FleetBudgetsKept(world: S.World, steps: seq<Step>, id: string, day: Day)
    requires world.Valid() && id in world.callers && world.callers[id].dailyBudget.Some?
    ensures var s := Run(world, steps);
      S.Spent(s.chats, (id, day)) <= Held(s.db.committed, (id, day)) <= world.callers[id].dailyBudget.value
  {
    var s, k: Key := Run(world, steps), (id, day);
    RunKeeps(world, steps);
    forall i | 0 <= i < |s.chats| ensures S.GoodChat(world, s.chats[i]) {
      assert RulesOf(world).chat(s.chats[i]);
    }
    S.SpentWithinReserved(world, s.chats, k);
    assert Funded(RulesOf(world), s.db, s.chats, k);
    BackedConsistent(world, s.db.granted);
    KeptTableExact(s.db.granted, Budgets(world), k);
  }

  /** The chat after asking and the three further statements, when no other process comes between. */
  function Served(world: S.World, s: State, ask: Step): (t: State)
    requires s.Sized() && ask.Ask?
    ensures t.Sized()
  {
    var fetched := Apply(world, Apply(world, s, ask), Execute(ask.id, Fetch));
    Apply(world, Apply(world, fetched, Execute(ask.id, Upsert)), Execute(ask.id, Commit))
  }

  /** A whole chat that no other process comes between: it starts, reserves, and sends while it may. */
  function Alone(
    world: S.World, s: State, p: Pid, callerId: Option<string>, request: ChatRequest, snapshot: Registry,
    analysis: S.Analysis, day: Day, hasKey: bool, upstream: seq<Provider.Response<()>>): (t: State)
    requires s.Sized()
    ensures t.Sized()
  {
    var id := |s.chats|;
    var started := Apply(world, s, Start(p, callerId, request, snapshot));
    var served := Served(world, started, Ask(id, analysis, day, hasKey, upstream, false));
    Apply(world, Apply(world, served, Send(id)), Send(id))
  }

  /**
   Wherever the processes have got to, once the table is free, a chat that is not disturbed does what
   one chat on a ledger of its own does: the same table, the same answer, and as many requests sent.
   */
  lemma UndisturbedChatIsChat(
    world: S.World, steps: seq<Step>, p: Pid, callerId: Option<string>, request: ChatRequest, snapshot: Registry,
    analysis: S.Analysis, day: Day, upstream: S.Upstream)
    requires world.Valid() && snapshot.Valid() && upstream.Valid()
    requires callerId.Some? ==> callerId.value in world.callers
    requires Run(world, steps).db.writer.None? && p !in Run(world, steps).dead
    ensures var s := Run(world, steps);
      var heads := if request.stream then S.Heads(upstream.lines) else S.Heads(upstream.chunks);
      var t := Alone(world, s, p, callerId, request, snapshot, analysis, day, upstream.hasKey, heads);
      var caller := if callerId.None? then None else Some(world.callers[callerId.value]);
      var (table, result, sent) := S.ChatOf(
        Reserve, s.db.committed, world.settings, snapshot, request, caller, analysis, day, upstream);
      && t.db.committed == table && |t.chats| == |s.chats| + 1 && t.chats[..|s.chats|] == s.chats
      && S.EndedAs(t.chats[|s.chats|], result, sent)
  {
    RunKeeps(world, steps);
    var s := Run(world, steps);
    var heads := if request.stream then S.Heads(upstream.lines) else S.Heads(upstream.chunks);
    var caller := if callerId.None? then None else Some(world.callers[callerId.value]);
    var chat := S.Chat(caller, request, snapshot, S.Captured, 0);
    var toSend := Provider.RequestsSent(upstream.hasKey, heads);
    assert toSend == upstream.Sent(request.stream);
    NotWaiting(RulesOf(world), s);
    AloneServed(world, s, p, callerId, chat, analysis, day, upstream.hasKey, heads);
    S.AloneEnds(Reserve, s.db.committed, world, chat, analysis, day, upstream, toSend);
  }

  lemma AloneServed(
    world: S.World, s: State, p: Pid, callerId: Option<string>, chat: S.Chat, analysis: S.Analysis, day: Day,
    hasKey: bool, heads: seq<Provider.Response<()>>)
    requires s.Sized() && L.Inv(s.db) && s.db.writer.None? && p !in s.dead && |s.chats| !in s.waiting && |heads| == 2
    requires chat.snapshot.Valid() && (callerId.Some? ==> callerId.value in world.callers)
    requires chat == S.Chat(if callerId.None? then None else Some(world.callers[callerId.value]), chat.request,
      chat.snapshot, S.Captured, 0)
    ensures var toSend := Provider.RequestsSent(hasKey, heads);
      var t := Alone(world, s, p, callerId, chat.request, chat.snapshot, analysis, day, hasKey, heads);
      var paid := S.PaidChat(Reserve, s.db.committed, chat, S.Pay(world, chat, analysis, day, toSend), toSend);
      t.db.committed == paid.0 && t.chats == s.chats + [paid.1]
  {
    var id := |s.chats|;
    var started := s.(chats := s.chats + [chat], at := s.at + [p]);
    ChatStarts(world, s, p, callerId, chat);
    var toSend := Provider.RequestsSent(hasKey, heads);
    NewChatServed(world, started, id, chat, analysis, day, hasKey, heads);
    S.PayCalls(world, chat, analysis, day, toSend);
    SendTwice(world, Served(world, started, Ask(id, analysis, day, hasKey, heads, false)), id);
  }

  lemma ChatStarts(world: S.World, s: State, p: Pid, callerId: Option<string>, chat: S.Chat)
    requires s.Sized() && p !in s.dead && chat.snapshot.Valid()
    requires callerId.Some? ==> callerId.value in world.callers
    requires chat == S.Chat(if callerId.None? then None else Some(world.callers[callerId.value]), chat.request,
      chat.snapshot, S.Captured, 0)
    ensures Apply(world, s, Start(p, callerId, chat.request, chat.snapshot))
      == s.(chats := s.chats + [chat], at := s.at + [p])
  {
  }

  lemma NewChatServed(
    world: S.World, s: State, id: nat, chat: S.Chat, analysis: S.Analysis, day: Day, hasKey: bool,
    heads: seq<Provider.Response<()>>)
    requires s.Sized() && L.Inv(s.db) && s.db.writer.None? && s.Runs(id) && id !in s.waiting && |heads| == 2
    requires s.chats[id] == chat && chat.phase.Captured?
    ensures var payment := S.Pay(world, chat, analysis, day, Provider.RequestsSent(hasKey, heads));
      var (table, ok) := if payment.ask.None? then (s.db.committed, true)
        else Reserve(s.db.committed, payment.ask.value);
      var t := Served(world, s, Ask(id, analysis, day, hasKey, heads, false));
      && t.db.committed == table && t.at == s.at && t.dead == s.dead
      && t.chats == s.chats[id := chat.(phase := if ok then payment.accepted else S.Over)]
  {
    AskServed(world, s, Ask(id, analysis, day, hasKey, heads, false),
              S.Pay(world, chat, analysis, day, Provider.RequestsSent(hasKey, heads)));
  }

  lemma NotWaiting(rules: Rules, s: State)
    requires s.Sized() && GoodWaits(rules, s)
    ensures |s.chats| !in s.waiting
  {
    assert |s.chats| in s.waiting ==> GoodWait(rules, s, |s.chats|);
  }

  lemma SendTwice(world: S.World, s: State, id: nat)
    requires s.Sized() && s.Runs(id) && s.chats[id].sent == 0
    requires s.chats[id].phase.Calling? ==> s.chats[id].phase.toSend <= 2
    ensures Apply(world, Apply(world, s, Send(id)), Send(id)) == s.(chats := s.chats[id :=
      s.chats[id].(sent := if s.chats[id].phase.Calling? then s.chats[id].phase.toSend else 0)])
  {
    var once := Apply(world, s, Send(id));
    var twice := Apply(world, once, Send(id));
    assert s.chats[id].phase.Calling? && s.chats[id].phase.toSend == 2 ==> once.chats[id].sent == 1;
    assert twice.chats == s.chats[id := twice.chats[id]];
  }

  lemma AskServed(world: S.World, s: State, ask: Step, payment: S.Payment)
    requires s.Sized() && L.Inv(s.db) && ask.Ask? && !ask.busy && |ask.upstream| == 2
    requires s.Runs(ask.id) && s.chats[ask.id].phase.Captured? && ask.id !in s.waiting && s.db.writer.None?
    requires payment == S.Pay(
      world, s.chats[ask.id], ask.analysis, ask.day, Provider.RequestsSent(ask.hasKey, ask.upstream))
    ensures var (table, ok) := if payment.ask.None? then (s.db.committed, true)
        else Reserve(s.db.committed, payment.ask.value);
      var t := Served(world, s, ask);
      && t.db.committed == table && t.at == s.at && t.dead == s.dead
      && t.chats == s.chats[ask.id := s.chats[ask.id].(phase := if ok then payment.accepted else S.Over)]
  {
    var id, p := ask.id, s.at[ask.id];
    var asked := Apply(world, s, ask);
    assert asked == AskFor(s, id, payment, false);
    if payment.ask.Some? {
      var r := payment.ask.value;
      L.FourReserve(s.db, p, r);
      if r.Counts() {
        StatementsRun(world, s, asked, id, payment);
      } else {
        NothingRuns(world, asked, id);
      }
    } else {
      NothingRuns(world, asked, id);
    }
  }

  /** A chat that no longer waits has no statement to run. */
  lemma NothingRuns(world: S.World, s: State, id: nat)
    requires s.Sized() && id !in s.waiting
    ensures forall statement :: Apply(world, s, Execute(id, statement)) == s
  {
  }

  lemma StatementsRun(world: S.World, s: State, asked: State, id: nat, payment: S.Payment)
    requires s.Sized() && asked.Sized() && s.Runs(id) && payment.ask.Some? && payment.ask.value.Counts()
    requires s.db.writer.None? && !L.TxnOf(s.db, s.at[id]).Open()
    requires asked == s.(db := L.Apply(s.db, L.Begin(s.at[id], payment.ask.value)),
      waiting := s.waiting[id := payment])
    ensures var (table, ok) := Reserve(s.db.committed, payment.ask.value);
      var fetched := Apply(world, asked, Execute(id, Fetch));
      var t := Apply(world, Apply(world, fetched, Execute(id, Upsert)), Execute(id, Commit));
      && t.db.committed == table && t.at == s.at && t.dead == s.dead
      && t.chats == s.chats[id := s.chats[id].(phase := if ok then payment.accepted else S.Over)]
  {
    var r, p := payment.ask.value, s.at[id];
    var held := Held(s.db.committed, r.EntryKey());
    assert L.TxnOf(asked.db, p) == L.Began(r);
    var fetched := Apply(world, asked, Execute(id, Fetch));
    assert fetched == asked.(db := fetched.db) && L.TxnOf(fetched.db, p) == L.Fetched(r, held);
    WriteRuns(world, s, fetched, id, payment, r);
  }

  lemma WriteRuns(world: S.World, s: State, fetched: State, id: nat, payment: S.Payment, r: Reservation)
    requires s.Sized() && fetched.Sized() && s.Runs(id) && payment.ask == Some(r) && r.Counts()
    requires fetched == s.(db := fetched.db, waiting := s.waiting[id := payment])
    requires fetched.db.committed == s.db.committed
    requires L.TxnOf(fetched.db, s.at[id]) == L.Fetched(r, Held(s.db.committed, r.EntryKey()))
    ensures var (table, ok) := Reserve(s.db.committed, r);
      var t := Apply(world, Apply(world, fetched, Execute(id, Upsert)), Execute(id, Commit));
      && t.db.committed == table && t.at == s.at && t.dead == s.dead
      && t.chats == s.chats[id := s.chats[id].(phase := if ok then payment.accepted else S.Over)]
  {
    var upserted := Apply(world, fetched, Execute(id, Upsert));
    if !Reserve(s.db.committed, r).1 {
      NothingRuns(world, upserted, id);
    } else {
      assert upserted == fetched.(db := upserted.db);
    }
  }
}
