/**
 The durable ledger (src/omo/access.py): several processes run the statements of `reserve` against
 one SQLite table, interleaved in any way. `BEGIN IMMEDIATE` admits one writer at a time; any
 statement may fail, and any process may die between two statements.
 */
module SqliteLedger {
  import opened Common
  import opened Ledger

  type Pid = nat

  datatype Txn =
    | Idle
    | Began(r: Reservation)
    | Fetched(r: Reservation, held: real)
    | Upserted(r: Reservation, total: real)
    | Answered(r: Reservation, ok: bool)
  {
    predicate Open() { Began? || Fetched? || Upserted? }
  }

  /** `committed` is the table; `granted` records the committed reservations, in commit order. */
  datatype Db = Db(committed: Table, writer: Option<Pid>, txns: map<Pid, Txn>, granted: seq<Reservation>)

  datatype Step =
    | Begin(p: Pid, r: Reservation)
    | Busy(p: Pid, r: Reservation)
    | Fetch(p: Pid)
    | Upsert(p: Pid)
    | Commit(p: Pid)
    | Fail(p: Pid)
    | Crash(p: Pid)

  function TxnOf(db: Db, p: Pid): Txn { if p in db.txns then db.txns[p] else Idle }

  function Leave(db: Db, p: Pid, txn: Txn): Db { db.(writer := None, txns := db.txns[p := txn]) }

  /** A statement that cannot run yet (or not in this state) leaves everything as it is. */
  function Apply(db: Db, step: Step): Db {
    var p := step.p;
    var txn := TxnOf(db, p);
    match step
    case Begin(_, r) =>
      if txn.Open() then db
      else if !r.Counts() then db.(txns := db.txns[p := Answered(r, r.amount.Finite? && r.amount.value >= 0.0)])
      else if db.writer.Some? then db
      else db.(writer := Some(p), txns := db.txns[p := Began(r)])
    case Busy(_, r) =>
      if txn.Open() || !r.Counts() then db else db.(txns := db.txns[p := Answered(r, false)])
    case Fetch(_) =>
      if txn.Began? then db.(txns := db.txns[p := Fetched(txn.r, Held(db.committed, txn.r.EntryKey()))]) else db
    case Upsert(_) =>
      if !txn.Fetched? || !txn.r.Counts() then db
      else if txn.held + txn.r.amount.value > txn.r.budget.value then Leave(db, p, Answered(txn.r, false))
      else db.(txns := db.txns[p := Upserted(txn.r, txn.held + txn.r.amount.value)])
    case Commit(_) =>
      if !txn.Upserted? then db
      else Leave(db, p, Answered(txn.r, true)).(
        committed := db.committed[txn.r.EntryKey() := txn.total], granted := db.granted + [txn.r])
    case Fail(_) => if txn.Open() then Leave(db, p, Answered(txn.r, false)) else db
    case Crash(_) =>
      if txn.Open() then Leave(db, p, Idle) else db.(txns := db.txns - {p})
  }

  function Run(db: Db, steps: seq<Step>): Db {
    if steps == [] then db else Apply(Run(db, steps[..|steps| - 1]), steps[|steps| - 1])
  }

  function Empty(): Db { Db(map[], None, map[], []) }

  /** Replaying these reservations one after the other on an empty table, each is accepted. */
  predicate Serial(granted: seq<Reservation>) {
    granted == [] ||
    (Serial(granted[..|granted| - 1]) && granted[|granted| - 1].Counts() && Accepts(Reserve, granted))
  }

  /** What the open transaction has read or is about to write is still what the table holds. */
  predicate Current(db: Db, txn: Txn) {
    match txn
    case Began(r) => r.Counts()
    case Fetched(r, held) => r.Counts() && held == Held(db.committed, r.EntryKey())
    case Upserted(r, total) =>
      r.Counts() && total == Held(db.committed, r.EntryKey()) + r.amount.value && total <= r.budget.value
    case _ => true
  }

  predicate Inv(db: Db) {
    && db.committed == TableAfter(Reserve, db.granted) && Serial(db.granted)
    && (forall p | p in db.txns :: db.txns[p].Open() ==> db.writer == Some(p) && Current(db, db.txns[p]))
    && (db.writer.Some? ==> TxnOf(db, db.writer.value).Open())
  }

  lemma GrantOne(granted: seq<Reservation>, r: Reservation)
    requires Serial(granted) && r.Counts()
    requires Held(TableAfter(Reserve, granted), r.EntryKey()) + r.amount.value <= r.budget.value
    ensures Serial(granted + [r])
    ensures TableAfter(Reserve, granted + [r]) == Reserve(TableAfter(Reserve, granted), r).0
  {
    assert (granted + [r])[..|granted|] == granted;
  }

  lemma CommitKeeps(db: Db, p: Pid)
    requires Inv(db) && TxnOf(db, p).Upserted?
    ensures Inv(Apply(db, Commit(p)))
  {
    var r := TxnOf(db, p).r;
    GrantOne(db.granted, r);
  }

  /** Every other step leaves the table alone and moves one process. */
  predicate Moves(db: Db, next: Db, p: Pid) {
    && next.committed == db.committed && next.granted == db.granted
    && (next.txns == db.txns[p := TxnOf(next, p)] || next.txns == db.txns - {p})
    && Current(db, TxnOf(next, p))
    && next.writer == (if TxnOf(next, p).Open() then Some(p) else if TxnOf(db, p).Open() then None else db.writer)
    && (TxnOf(next, p).Open() && !TxnOf(db, p).Open() ==> db.writer.None?)
  }

  lemma OtherMoves(db: Db, step: Step)
    requires !(step.Commit? && TxnOf(db, step.p).Upserted?)
    requires Current(db, TxnOf(db, step.p)) && (TxnOf(db, step.p).Open() ==> db.writer == Some(step.p))
    ensures Apply(db, step) == db || Moves(db, Apply(db, step), step.p)
  {
  }

  lemma MovesKeeps(db: Db, next: Db, p: Pid)
    requires Inv(db) && Moves(db, next, p)
    ensures Inv(next)
  {
    forall q | q in next.txns && next.txns[q].Open()
      ensures next.writer == Some(q) && Current(next, next.txns[q])
    {
      if q != p {
        assert q in db.txns && next.txns[q] == db.txns[q];
      }
    }
  }

  lemma StepKeeps(db: Db, step: Step)
    requires Inv(db)
    ensures Inv(Apply(db, step))
  {
    if step.Commit? && TxnOf(db, step.p).Upserted? {
      CommitKeeps(db, step.p);
    } else {
      OtherMoves(db, step);
      if Apply(db, step) != db {
        MovesKeeps(db, Apply(db, step), step.p);
      }
    }
  }

  lemma {:induction false} RunKeeps(steps: seq<Step>)
    ensures Inv(Run(Empty(), steps))
  {
    if steps != [] {
      RunKeeps(steps[..|steps| - 1]);
      StepKeeps(Run(Empty(), steps[..|steps| - 1]), steps[|steps| - 1]);
    }
  }

  function SumFor(granted: seq<Reservation>, k: Key): real {
    if granted == [] then 0.0
    else
      var r := granted[|granted| - 1];
      SumFor(granted[..|granted| - 1], k) + if r.EntryKey() == k && r.amount.Finite? then r.amount.value else 0.0
  }

  lemma {:induction false} SerialSums(granted: seq<Reservation>, k: Key)
    requires Serial(granted)
    ensures Granted(Reserve, granted, k) == SumFor(granted, k)
  {
    if granted != [] {
      SerialSums(granted[..|granted| - 1], k);
    }
  }

  /**
   No lost update: in every interleaving the committed amount of a caller and day is the sum of
   the reservations reported as accepted, and never passes the caller's budget.
   */
  lemma CommittedIsSumOfGrants(steps: seq<Step>, budgets: map<string, real>, k: Key)
    requires k.0 in budgets && budgets[k.0] >= 0.0 && Consistent(Run(Empty(), steps).granted, budgets)
    ensures var db := Run(Empty(), steps);
      Held(db.committed, k) == SumFor(db.granted, k) <= budgets[k.0]
  {
    RunKeeps(steps);
    var granted := Run(Empty(), steps).granted;
    KeptTableExact(granted, budgets, k);
    SerialSums(granted, k);
  }

  /** The interleaved processes compute what one process would, reserving in commit order. */
  lemma Serializable(steps: seq<Step>)
    ensures var db := Run(Empty(), steps);
      db.committed == TableAfter(Reserve, db.granted) && Serial(db.granted)
  {
    RunKeeps(steps);
  }

  /** Only a commit changes the table, by the one reservation that is then answered `True`. */
  predicate ChangedByGrantOnly(db: Db, next: Db, step: Step) {
    var before, after := TxnOf(db, step.p), TxnOf(next, step.p);
    if step.Commit? && before.Upserted? then
      && before.r.Counts() && after == Answered(before.r, true) && next.granted == db.granted + [before.r]
      && (next.committed, true) == Reserve(db.committed, before.r)
    else
      && next.committed == db.committed && next.granted == db.granted
      && (after != before && after.Answered? && after.r.Counts() ==> !after.ok)
  }

  lemma StepChange(db: Db, step: Step)
    requires Current(db, TxnOf(db, step.p))
    ensures ChangedByGrantOnly(db, Apply(db, step), step)
  {
  }

  lemma RefusalChangesNothing(steps: seq<Step>, step: Step)
    ensures ChangedByGrantOnly(Run(Empty(), steps), Apply(Run(Empty(), steps), step), step)
  {
    RunKeeps(steps);
    var db := Run(Empty(), steps);
    assert Current(db, TxnOf(db, step.p));
    StepChange(db, step);
  }

  /**
   A reservation that is not disturbed computes `Reserve`: wherever the processes have got to, once
   the table is free, its four statements answer and change the table exactly as that does.
   */
  lemma UndisturbedReserves(steps: seq<Step>, p: Pid, r: Reservation)
    requires Run(Empty(), steps).writer.None?
    ensures var db := Run(Empty(), steps);
      var t := Run(db, [Begin(p, r), Fetch(p), Upsert(p), Commit(p)]);
      && t.committed == Reserve(db.committed, r).0
      && TxnOf(t, p) == Answered(r, Reserve(db.committed, r).1) && t.writer.None?
  {
    RunKeeps(steps);
    var db := Run(Empty(), steps);
    RunFour(db, Begin(p, r), Fetch(p), Upsert(p), Commit(p));
    FourReserve(db, p, r);
  }

  lemma RunFour(db: Db, a: Step, b: Step, c: Step, d: Step)
    ensures Run(db, [a, b, c, d]) == Apply(Apply(Apply(Apply(db, a), b), c), d)
  {
    assert [a, b, c, d][..3] == [a, b, c] && [a, b, c][..2] == [a, b] && [a, b][..1] == [a] && [a][..0] == [];
    assert Run(db, [a]) == Apply(db, a);
    assert Run(db, [a, b]) == Apply(Run(db, [a]), b);
    assert Run(db, [a, b, c]) == Apply(Run(db, [a, b]), c);
  }

  lemma FourReserve(db: Db, p: Pid, r: Reservation)
    requires db.writer.None? && !TxnOf(db, p).Open()
    ensures var t := Apply(Apply(Apply(Apply(db, Begin(p, r)), Fetch(p)), Upsert(p)), Commit(p));
      t.committed == Reserve(db.committed, r).0 && TxnOf(t, p) == Answered(r, Reserve(db.committed, r).1)
      && t.writer.None?
  {
  }
}
