/**
 The daily budget ledger (src/omo/access.py): the in-memory class, which drops the entries of
 other days on every reservation, and the table that keeps everything, which is what one SQLite
 transaction at a time computes. Money is `real`: the rounding of floats is not modelled.
 */
module Ledger {
  import opened Common

  datatype Amount = Finite(value: real) | NotFinite

  type Day = int
  type Key = (string, Day)
  type Table = map<Key, real>

  datatype Reservation = Reservation(caller: string, budget: Option<real>, amount: Amount, day: Day) {
    /** Does the request get past the two early returns? */
    predicate Counts() { amount.Finite? && amount.value >= 0.0 && budget.Some? }
    function EntryKey(): Key { (caller, day) }
  }

  function Held(t: Table, k: Key): real { if k in t then t[k] else 0.0 }

  function OnDay(t: Table, day: Day): Table { map k: Key | k in t && k.1 == day :: t[k] }

  /** The table that keeps everything. */
  function Reserve(t: Table, r: Reservation): (Table, bool) {
    if !r.Counts() then (t, r.amount.Finite? && r.amount.value >= 0.0)
    else if Held(t, r.EntryKey()) + r.amount.value > r.budget.value then (t, false)
    else (t[r.EntryKey() := Held(t, r.EntryKey()) + r.amount.value], true)
  }

  /** The in-memory ledger. */
  function ReservePruned(t: Table, r: Reservation): (Table, bool) {
    if r.Counts() then Reserve(OnDay(t, r.day), r) else Reserve(t, r)
  }

  function SnapshotOf(t: Table, day: Day): map<string, real> {
    map c | c in (set k: Key | k in t && k.1 == day :: k.0) :: t[(c, day)]
  }

  class BudgetLedger {
    var reservations: Table

    constructor ()
      ensures reservations == map[]
    {
      reservations := map[];
    }

    method Reserve(r: Reservation) returns (ok: bool)
      modifies this
      ensures (reservations, ok) == ReservePruned(old(reservations), r)
    {
      if !r.amount.Finite? || r.amount.value < 0.0 {
        return false;
      }
      if r.budget.None? {
        return true;
      }
      reservations := map k: Key | k in reservations && k.1 == r.day :: reservations[k];
      var held := if r.EntryKey() in reservations then reservations[r.EntryKey()] else 0.0;
      if held + r.amount.value > r.budget.value {
        return false;
      }
      reservations := reservations[r.EntryKey() := held + r.amount.value];
      return true;
    }

    method Snapshot(day: Day) returns (amounts: map<string, real>)
      ensures amounts == SnapshotOf(reservations, day)
      ensures forall c :: c in amounts <==> (c, day) in reservations
      ensures forall c | c in amounts :: amounts[c] == reservations[(c, day)]
    {
      amounts := map c | c in (set k: Key | k in reservations && k.1 == day :: k.0) :: reservations[(c, day)];
    }
  }

  // ---- histories ------------------------------------------------------------------------------

  type Ledgering = (Table, Reservation) -> (Table, bool)

  function TableAfter(op: Ledgering, h: seq<Reservation>): Table {
    if h == [] then map[] else op(TableAfter(op, h[..|h| - 1]), h[|h| - 1]).0
  }

  /** The answer to the last request of a history. */
  predicate Accepts(op: Ledgering, h: seq<Reservation>)
    requires h != []
  {
    op(TableAfter(op, h[..|h| - 1]), h[|h| - 1]).1
  }

  /** The sum of the accepted amounts of one caller on one day. */
  function Granted(op: Ledgering, h: seq<Reservation>, k: Key): real {
    if h == [] then 0.0
    else
      var r := h[|h| - 1];
      var before := Granted(op, h[..|h| - 1], k);
      if r.Counts() && r.EntryKey() == k && Accepts(op, h) then before + r.amount.value else before
  }

  /** Every caller has one daily budget, at least zero. */
  predicate Consistent(h: seq<Reservation>, budgets: map<string, real>) {
    forall i | 0 <= i < |h| :: h[i].Counts() ==>
      h[i].caller in budgets && h[i].budget == Some(budgets[h[i].caller]) && h[i].budget.value >= 0.0
  }

  /** The table holds exactly what was granted, and no grant ever passes the budget. */
  lemma {:induction false} KeptTableExact(h: seq<Reservation>, budgets: map<string, real>, k: Key)
    requires Consistent(h, budgets) && k.0 in budgets && budgets[k.0] >= 0.0
    ensures Held(TableAfter(Reserve, h), k) == Granted(Reserve, h, k) <= budgets[k.0]
  {
    if h != [] {
      KeptTableExact(h[..|h| - 1], budgets, k);
    }
  }

  /** No day comes back after another day has been used. */
  predicate Contiguous(h: seq<Reservation>) {
    forall i, j, k | 0 <= i < j < k < |h| && h[i].Counts() && h[j].Counts() && h[k].Counts() ::
      h[i].day == h[k].day ==> h[j].day == h[i].day
  }

  predicate NonDecreasing(h: seq<Reservation>) {
    forall i, j | 0 <= i < j < |h| && h[i].Counts() && h[j].Counts() :: h[i].day <= h[j].day
  }

  lemma NonDecreasingContiguous(h: seq<Reservation>)
    requires NonDecreasing(h)
    ensures Contiguous(h)
  {
  }

  /** The index just after the last request that counts; 0 when none does. */
  function Last(h: seq<Reservation>): (n: nat)
    ensures n <= |h| && (n > 0 ==> h[n - 1].Counts())
    ensures forall i | n <= i < |h| :: !h[i].Counts()
  {
    if h == [] then 0 else if h[|h| - 1].Counts() then |h| else Last(h[..|h| - 1])
  }

  lemma {:induction false} KeptDaysOccur(h: seq<Reservation>, k: Key)
    requires k in TableAfter(Reserve, h)
    ensures exists i :: 0 <= i < |h| && h[i].Counts() && h[i].day == k.1
  {
    var front, r := h[..|h| - 1], h[|h| - 1];
    if k in TableAfter(Reserve, front) {
      KeptDaysOccur(front, k);
      var i :| 0 <= i < |front| && front[i].Counts() && front[i].day == k.1;
      assert h[i] == front[i];
    } else {
      assert h[|h| - 1].Counts() && k == r.EntryKey();
    }
  }

  function LastDay(h: seq<Reservation>): Option<Day> {
    if Last(h) == 0 then None else Some(h[Last(h) - 1].day)
  }

  /** The pruned table, seen from the kept one. */
  predicate Restricts(pruned: Table, kept: Table, day: Option<Day>) {
    if day.None? then kept == map[] && pruned == map[] else pruned == OnDay(kept, day.value)
  }

  lemma ReserveOnOneDay(pruned: Table, kept: Table, r: Reservation)
    requires r.Counts() && OnDay(pruned, r.day) == OnDay(kept, r.day)
    ensures ReservePruned(pruned, r).1 == Reserve(kept, r).1
    ensures ReservePruned(pruned, r).0 == OnDay(Reserve(kept, r).0, r.day)
  {
    var key := r.EntryKey();
    assert Held(OnDay(kept, r.day), key) == Held(kept, key);
    assert OnDay(kept[key := Held(kept, key) + r.amount.value], r.day)
        == OnDay(kept, r.day)[key := Held(kept, key) + r.amount.value];
  }

  lemma SameEntriesToday(h: seq<Reservation>, pruned: Table)
    requires h != [] && h[|h| - 1].Counts() && Contiguous(h)
    requires Restricts(pruned, TableAfter(Reserve, h[..|h| - 1]), LastDay(h[..|h| - 1]))
    ensures OnDay(pruned, h[|h| - 1].day) == OnDay(TableAfter(Reserve, h[..|h| - 1]), h[|h| - 1].day)
  {
    var front, r := h[..|h| - 1], h[|h| - 1];
    var kept := TableAfter(Reserve, front);
    forall k: Key | k in kept && k.1 == r.day ensures k in pruned {
      KeptDaysOccur(front, k);
      var i :| 0 <= i < |front| && front[i].Counts() && front[i].day == k.1;
      var j := Last(front) - 1;
      assert h[i] == front[i] && h[j] == front[j] && i <= j < |h| - 1;
    }
  }

  /** Without returning days, memory is the kept table restricted to the last day. */
  lemma {:induction false} PrunedIsRestriction(h: seq<Reservation>)
    requires Contiguous(h)
    ensures Restricts(TableAfter(ReservePruned, h), TableAfter(Reserve, h), LastDay(h))
    ensures h != [] ==> Accepts(ReservePruned, h) == Accepts(Reserve, h)
  {
    if h != [] {
      var front, r := h[..|h| - 1], h[|h| - 1];
      PrunedIsRestriction(front);
      if r.Counts() {
        SameEntriesToday(h, TableAfter(ReservePruned, front));
        ReserveOnOneDay(TableAfter(ReservePruned, front), TableAfter(Reserve, front), r);
      } else {
        assert LastDay(h) == LastDay(front);
      }
    }
  }

  /** The in-memory ledger answers every request of such a history as the kept table does. */
  lemma MemoryAnswersAgree(h: seq<Reservation>, n: nat)
    requires Contiguous(h) && 0 < n <= |h|
    ensures Accepts(ReservePruned, h[..n]) == Accepts(Reserve, h[..n])
  {
    PrunedIsRestriction(h[..n]);
  }

  /** With non-decreasing days, its snapshots agree too, for every day from the last reservation on. */
  lemma MemorySnapshotsAgree(h: seq<Reservation>, day: Day)
    requires NonDecreasing(h) && (LastDay(h).Some? ==> LastDay(h).value <= day)
    ensures SnapshotOf(TableAfter(ReservePruned, h), day) == SnapshotOf(TableAfter(Reserve, h), day)
  {
    NonDecreasingContiguous(h);
    PrunedIsRestriction(h);
    var kept, pruned := TableAfter(Reserve, h), TableAfter(ReservePruned, h);
    forall k: Key | k.1 == day && k in kept ensures k in pruned {
      KeptDaysOccur(h, k);
    }
    SnapshotsOfSameDay(kept, pruned, day);
  }

  lemma SnapshotsOfSameDay(kept: Table, pruned: Table, day: Day)
    requires forall k: Key | k.1 == day :: k in kept <==> k in pruned
    requires forall k: Key | k.1 == day && k in kept :: kept[k] == pruned[k]
    ensures SnapshotOf(pruned, day) == SnapshotOf(kept, day)
  {
    assert (set k: Key | k in kept && k.1 == day :: k.0) == (set k: Key | k in pruned && k.1 == day :: k.0);
  }

  lemma {:induction false} GrantsAgree(h: seq<Reservation>, k: Key)
    requires Contiguous(h)
    ensures Granted(ReservePruned, h, k) == Granted(Reserve, h, k)
  {
    if h != [] {
      PrunedIsRestriction(h);
      GrantsAgree(h[..|h| - 1], k);
    }
  }

  /** A grant is owed: the amount is one, and there is no budget or what was granted leaves room for it. */
  predicate Owed(r: Reservation, granted: real) {
    && r.amount.Finite? && r.amount.value >= 0.0
    && (r.budget.None? || granted + r.amount.value <= r.budget.value)
  }

  /** A request is accepted if and only if it is owed, after what the caller was granted that day. */
  lemma AcceptedExactly(h: seq<Reservation>, budgets: map<string, real>)
    requires h != [] && Consistent(h, budgets)
    ensures var r := h[|h| - 1];
      Accepts(Reserve, h) <==> Owed(r, Granted(Reserve, h[..|h| - 1], r.EntryKey()))
  {
    var front, r := h[..|h| - 1], h[|h| - 1];
    if r.Counts() {
      KeptTableExact(front, budgets, r.EntryKey());
    }
  }

  /** The in-memory ledger accepts exactly those too, while no day returns. */
  lemma MemoryAcceptedExactly(h: seq<Reservation>, budgets: map<string, real>)
    requires h != [] && Consistent(h, budgets) && Contiguous(h)
    ensures var r := h[|h| - 1];
      Accepts(ReservePruned, h) <==> Owed(r, Granted(ReservePruned, h[..|h| - 1], r.EntryKey()))
  {
    PrunedIsRestriction(h);
    AcceptedExactly(h, budgets);
    GrantsAgree(h[..|h| - 1], h[|h| - 1].EntryKey());
  }

  // ---- when the clock goes back ---------------------------------------------------------------

  /** `h` asks on exactly these days. */
  predicate Follows(h: seq<Reservation>, days: seq<Day>) {
    |h| == |days| && forall i | 0 <= i < |h| :: h[i].Counts() && h[i].day == days[i]
  }

  predicate NoDayReturns(days: seq<Day>) {
    forall i, j, k | 0 <= i < j < k < |days| :: days[i] == days[k] ==> days[j] == days[i]
  }

  ghost predicate KeepsBudgets(h: seq<Reservation>) {
    forall budgets, k: Key | Consistent(h, budgets) && k.0 in budgets && budgets[k.0] >= 0.0 ::
      Granted(ReservePruned, h, k) <= budgets[k.0]
  }

  /**
   The in-memory ledger keeps every budget in every history on these days if and only if no day
   returns after another one. A wall clock that is set back over midnight breaks the condition.
   */
  lemma MemoryKeepsBudgetsExactly(days: seq<Day>)
    ensures NoDayReturns(days) <==> forall h | Follows(h, days) :: KeepsBudgets(h)
  {
    if NoDayReturns(days) {
      forall h | Follows(h, days) ensures KeepsBudgets(h) {
        ContiguousKeepsBudgets(h);
      }
    } else {
      var i, j, k :| 0 <= i < j < k < |days| && days[i] == days[k] && days[j] != days[i];
      OverspendBreaksBudget(days, i, j, k);
    }
  }

  lemma ContiguousKeepsBudgets(h: seq<Reservation>)
    requires Contiguous(h)
    ensures KeepsBudgets(h)
  {
    forall budgets, k: Key | Consistent(h, budgets) && k.0 in budgets && budgets[k.0] >= 0.0
      ensures Granted(ReservePruned, h, k) <= budgets[k.0]
    {
      GrantsAgree(h, k);
      KeptTableExact(h, budgets, k);
    }
  }

  /** Spend the whole budget at `i` and again at `k`, and nothing at the other days before `n`. */
  function Overspend(days: seq<Day>, i: nat, k: nat, n: nat): seq<Reservation>
    requires n <= |days|
  {
    if n == 0 then [] else Overspend(days, i, k, n - 1) + [Spend(Share(i, k, n - 1), days[n - 1])]
  }

  lemma {:induction false} OverspendShape(days: seq<Day>, i: nat, k: nat, n: nat)
    requires n <= |days|
    ensures |Overspend(days, i, k, n)| == n
    ensures forall m | 0 <= m < n :: Overspend(days, i, k, n)[m] == Spend(Share(i, k, m), days[m])
  {
    if n > 0 {
      OverspendShape(days, i, k, n - 1);
    }
  }

  function Share(i: nat, k: nat, m: nat): real { if m == i || m == k then 1.0 else 0.0 }

  function Spend(amount: real, day: Day): Reservation { Reservation("c", Some(1.0), Finite(amount), day) }

  lemma OverspendBreaksBudget(days: seq<Day>, i: nat, j: nat, k: nat)
    requires i < j < k < |days| && days[i] == days[k] && days[j] != days[i]
    ensures exists h :: Follows(h, days) && !KeepsBudgets(h)
  {
    var h := Overspend(days, i, k, |days|);
    OverspendShape(days, i, k, |days|);
    OverspendGranted(days, i, j, k, |days|);
    var budgets := map["c" := 1.0];
    var key: Key := ("c", days[i]);
    assert Consistent(h, budgets) && key.0 in budgets;
    assert Granted(ReservePruned, h, key) > budgets[key.0];
    assert Follows(h, days);
  }

  /** A day's entry is gone after a request of another day; on its own day an empty one takes 1.0. */
  lemma SpendStep(t: Table, amount: real, day: Day, key: Key)
    requires key.0 == "c" && (amount == 0.0 || amount == 1.0)
    ensures day != key.1 ==> Held(ReservePruned(t, Spend(amount, day)).0, key) == 0.0
    ensures day == key.1 && Held(t, key) == 0.0 ==>
      ReservePruned(t, Spend(amount, day)).1 && Held(ReservePruned(t, Spend(amount, day)).0, key) == amount
  {
    assert Held(OnDay(t, day), key) == (if day == key.1 then Held(t, key) else 0.0);
  }

  lemma OneMore(front: seq<Reservation>, r: Reservation, k: Key)
    requires r.Counts()
    ensures TableAfter(ReservePruned, front + [r]) == ReservePruned(TableAfter(ReservePruned, front), r).0
    ensures Granted(ReservePruned, front + [r], k) == Granted(ReservePruned, front, k) +
      if r.EntryKey() == k && ReservePruned(TableAfter(ReservePruned, front), r).1 then r.amount.value else 0.0
  {
    assert (front + [r])[..|front|] == front;
  }

  predicate Spent(h: seq<Reservation>, key: Key, i: nat, j: nat, k: nat, n: nat) {
    && (n <= i || j < n <= k ==> Held(TableAfter(ReservePruned, h), key) == 0.0)
    && Granted(ReservePruned, h, key) >= (if n > i then 1.0 else 0.0) + (if n > k then 1.0 else 0.0)
  }

  lemma {:induction false} OverspendGranted(days: seq<Day>, i: nat, j: nat, k: nat, n: nat)
    requires i < j < k < |days| && days[i] == days[k] && days[j] != days[i] && n <= |days|
    ensures Spent(Overspend(days, i, k, n), ("c", days[i]), i, j, k, n)
  {
    if n == 0 {
      NothingSpent(("c", days[i]), i, j, k);
    } else {
      OverspendGranted(days, i, j, k, n - 1);
      SpentStep(Overspend(days, i, k, n - 1), days, i, j, k, n);
    }
  }

  lemma NothingSpent(key: Key, i: nat, j: nat, k: nat)
    ensures Spent([], key, i, j, k, 0)
  {
  }

  lemma SpentStep(front: seq<Reservation>, days: seq<Day>, i: nat, j: nat, k: nat, n: nat)
    requires i < j < k < |days| && days[i] == days[k] && days[j] != days[i] && 0 < n <= |days|
    requires Spent(front, ("c", days[i]), i, j, k, n - 1)
    ensures Spent(front + [Spend(Share(i, k, n - 1), days[n - 1])], ("c", days[i]), i, j, k, n)
  {
    var r, key := Spend(Share(i, k, n - 1), days[n - 1]), ("c", days[i]);
    OneMore(front, r, key);
    SpendStep(TableAfter(ReservePruned, front), Share(i, k, n - 1), days[n - 1], key);
  }
}
