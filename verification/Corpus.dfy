/**
 The evaluation corpus and what is built from it: validation (evaluation/dataset.py), the
 canonical training set (evaluation/build_dataset.py) and the fine-tuning records
 (training/dataset.py). The text normaliser and the similarity ratio are parameters.
 */
module Corpus {
  import opened Common
  import opened Contracts
  import opened Orders
  import Classification

  datatype Split = Train | Validation | Calibration | Test | Development

  datatype Record = Record(
    id: string, family: string, split: Split, messages: seq<Message>, capability: Capability,
    action: Action, proposal: Option<Proposal>)
  {
    /** The boundary between model-routed and policy-owned records. */
    predicate Valid() {
      if action in PROPOSAL_ACTIONS then
        proposal.Some? && proposal.value.action == action && proposal.value.capability == capability
      else proposal.None?
    }
  }

  const PROPOSAL_ACTIONS := {ExternalModel, Helper, Clarify}

  predicate ValidRecords(records: seq<Record>) { forall i | 0 <= i < |records| :: records[i].Valid() }

  function Spaced(messages: seq<Message>): string {
    if messages == [] then "" else if |messages| == 1 then messages[0].content
    else messages[0].content + " " + Spaced(messages[1..])
  }

  /** The contents of all messages in order, with one space between two of them. */
  lemma {:induction false} SpacedAppends(a: seq<Message>, b: seq<Message>)
    requires a != [] && b != []
    ensures Spaced(a + b) == Spaced(a) + " " + Spaced(b)
    ensures |a| == 1 ==> Spaced(a) == a[0].content
  {
    if |a| == 1 {
      assert a + b == [a[0]] + b && (a + b)[1..] == b;
    } else {
      SpacedAppends(a[1..], b);
      assert (a + b)[1..] == a[1..] + b;
      PlusAssociates(a[0].content + " ", Spaced(a[1..]), " " + Spaced(b));
      PlusAssociates(Spaced(a[1..]), " ", Spaced(b));
    }
  }

  /** The normaliser of texts and the similarity of a text to an earlier one, not symmetric in general. */
  datatype Judge = Judge(normalise: string -> string, ratio: (string, string) -> real) {
    function Text(r: Record): string { normalise(Spaced(r.messages)) }

    predicate Near(later: Record, earlier: Record) {
      later.split != earlier.split && ratio(Text(later), Text(earlier)) >= 0.9
    }
  }

  // ---- validation -----------------------------------------------------------------------------

  datatype Verdict = Accepted | DuplicateId | FamilyLeakage | DuplicateText | NearDuplicate

  predicate HasId(before: seq<Record>, id: string) { exists i :: 0 <= i < |before| && before[i].id == id }

  predicate Leaks(before: seq<Record>, r: Record) {
    exists i :: 0 <= i < |before| && before[i].family == r.family && before[i].split != r.split
  }

  predicate HasText(judge: Judge, before: seq<Record>, text: string) {
    exists i :: 0 <= i < |before| && judge.Text(before[i]) == text
  }

  predicate NearEarlier(judge: Judge, before: seq<Record>, r: Record) {
    exists i :: 0 <= i < |before| && judge.Near(r, before[i])
  }

  /** What is wrong with a record after those before it. */
  function Fault(judge: Judge, before: seq<Record>, r: Record): Verdict {
    if HasId(before, r.id) then DuplicateId
    else if Leaks(before, r) then FamilyLeakage
    else if HasText(judge, before, judge.Text(r)) then DuplicateText
    else if NearEarlier(judge, before, r) then NearDuplicate
    else Accepted
  }

  /** The first fault in file order. */
  function VerdictOn(judge: Judge, records: seq<Record>): Verdict {
    if records == [] then Accepted
    else
      var front := VerdictOn(judge, records[..|records| - 1]);
      if front.Accepted? then Fault(judge, records[..|records| - 1], records[|records| - 1]) else front
  }

  /** The tables of the loop after `before`. */
  datatype Tables = Tables(ids: set<string>, families: map<string, Split>, normalized: seq<(string, Split)>) {
    ghost predicate Describe(judge: Judge, before: seq<Record>) {
      && (forall id :: id in ids <==> HasId(before, id))
      && (forall i | 0 <= i < |before| :: before[i].family in families && families[before[i].family] == before[i].split)
      && (forall f | f in families :: HasFamily(before, f))
      && |normalized| == |before|
      && (forall i | 0 <= i < |before| :: normalized[i] == (judge.Text(before[i]), before[i].split))
    }

    function With(judge: Judge, r: Record): Tables {
      Tables(ids + {r.id}, families[r.family := r.split], normalized + [(judge.Text(r), r.split)])
    }
  }

  predicate HasFamily(before: seq<Record>, f: string) { exists i :: 0 <= i < |before| && before[i].family == f }

  lemma TablesGrow(judge: Judge, t: Tables, before: seq<Record>, r: Record)
    requires t.Describe(judge, before) && !Leaks(before, r)
    ensures t.With(judge, r).Describe(judge, before + [r])
  {
    var after, next := before + [r], t.With(judge, r);
    assert forall i | 0 <= i < |before| :: after[i] == before[i];
    assert after[|before|] == r;
    forall id ensures id in next.ids <==> HasId(after, id) {
      if HasId(before, id) {
        var i :| 0 <= i < |before| && before[i].id == id;
        assert after[i].id == id;
      }
    }
    forall f | f in next.families ensures HasFamily(after, f) {
      if f != r.family {
        assert HasFamily(before, f);
        var i :| 0 <= i < |before| && before[i].family == f;
        assert after[i].family == f;
      }
    }
  }

  lemma LeakShows(judge: Judge, t: Tables, before: seq<Record>, r: Record)
    requires t.Describe(judge, before)
    ensures Leaks(before, r) <==> r.family in t.families && t.families[r.family] != r.split
  {
    if r.family in t.families {
      assert HasFamily(before, r.family);
    }
  }

  /** `text in normalized`, and then the loop over its items. */
  method Compare(judge: Judge, normalized: seq<(string, Split)>, r: Record, ghost before: seq<Record>)
    returns (verdict: Verdict)
    requires |normalized| == |before|
    requires forall i | 0 <= i < |before| :: normalized[i] == (judge.Text(before[i]), before[i].split)
    ensures verdict == if HasText(judge, before, judge.Text(r)) then DuplicateText
      else if NearEarlier(judge, before, r) then NearDuplicate else Accepted
  {
    var text := judge.Text(r);
    if exists i :: 0 <= i < |normalized| && normalized[i].0 == text {
      return DuplicateText;
    }
    for i := 0 to |normalized|
      invariant forall k | 0 <= k < i :: !judge.Near(r, before[k])
    {
      if r.split != normalized[i].1 && judge.ratio(text, normalized[i].0) >= 0.9 {
        assert judge.Near(r, before[i]);
        return NearDuplicate;
      }
    }
    return Accepted;
  }

  /** The checks on one record against the tables of those before it. */
  method Check(judge: Judge, tables: Tables, r: Record, ghost before: seq<Record>) returns (verdict: Verdict)
    requires tables.Describe(judge, before)
    ensures verdict == Fault(judge, before, r)
  {
    LeakShows(judge, tables, before, r);
    if r.id in tables.ids {
      return DuplicateId;
    }
    if r.family in tables.families && tables.families[r.family] != r.split {
      return FamilyLeakage;
    }
    verdict := Compare(judge, tables.normalized, r, before);
  }

  /** `validate` on parsed records. */
  method Validate(judge: Judge, records: seq<Record>) returns (verdict: Verdict)
    ensures verdict == VerdictOn(judge, records)
  {
    var tables := Tables({}, map[], []);
    for n := 0 to |records|
      invariant VerdictOn(judge, records[..n]).Accepted?
      invariant tables.Describe(judge, records[..n])
    {
      VerdictStep(judge, records, n);
      verdict := Check(judge, tables, records[n], records[..n]);
      if !verdict.Accepted? {
        return;
      }
      TablesGrow(judge, tables, records[..n], records[n]);
      assert records[..n + 1] == records[..n] + [records[n]];
      tables := tables.With(judge, records[n]);
    }
    assert records[..|records|] == records;
    return Accepted;
  }

  /** The verdict so far decides, or the next record does and a fault of it is final. */
  lemma VerdictStep(judge: Judge, records: seq<Record>, n: nat)
    requires n < |records| && VerdictOn(judge, records[..n]).Accepted?
    ensures VerdictOn(judge, records[..n + 1]) == Fault(judge, records[..n], records[n])
    ensures !Fault(judge, records[..n], records[n]).Accepted? ==>
      VerdictOn(judge, records) == Fault(judge, records[..n], records[n])
  {
    assert records[..n + 1][..n] == records[..n];
    if !Fault(judge, records[..n], records[n]).Accepted? {
      FirstFaultStays(judge, records, n + 1);
    }
  }

  lemma {:induction false} FirstFaultStays(judge: Judge, records: seq<Record>, n: nat)
    requires n <= |records| && !VerdictOn(judge, records[..n]).Accepted?
    ensures VerdictOn(judge, records) == VerdictOn(judge, records[..n])
  {
    if n == |records| {
      assert records[..n] == records;
    } else {
      var front := records[..|records| - 1];
      assert front[..n] == records[..n];
      FirstFaultStays(judge, front, n);
    }
  }

  predicate UniqueIds(records: seq<Record>) {
    forall i, j | 0 <= i < j < |records| :: records[i].id != records[j].id
  }

  /** What an accepted corpus promises. */
  predicate Isolated(judge: Judge, records: seq<Record>) {
    && UniqueIds(records)
    && (forall i, j | 0 <= i < j < |records| ::
          records[i].family == records[j].family ==> records[i].split == records[j].split)
    && (forall i, j | 0 <= i < j < |records| :: judge.Text(records[i]) != judge.Text(records[j]))
    && (forall i, j | 0 <= i < j < |records| :: !judge.Near(records[j], records[i]))
  }

  lemma {:induction false} AcceptedExactly(judge: Judge, records: seq<Record>)
    ensures VerdictOn(judge, records).Accepted? <==> Isolated(judge, records)
  {
    if records != [] {
      var front, last := records[..|records| - 1], records[|records| - 1];
      AcceptedExactly(judge, front);
      if Isolated(judge, front) && Fault(judge, front, last).Accepted? {
        IsolatedGrows(judge, records);
      } else if Isolated(judge, records) {
        assert forall i | 0 <= i < |front| :: front[i] == records[i];
      }
    }
  }

  lemma IsolatedGrows(judge: Judge, records: seq<Record>)
    requires records != [] && Isolated(judge, records[..|records| - 1])
    requires Fault(judge, records[..|records| - 1], records[|records| - 1]).Accepted?
    ensures Isolated(judge, records)
  {
    var front, last := records[..|records| - 1], records[|records| - 1];
    forall i, j | 0 <= i < j < |records|
      ensures records[i].id != records[j].id && judge.Text(records[i]) != judge.Text(records[j])
      ensures records[i].family == records[j].family ==> records[i].split == records[j].split
      ensures !judge.Near(records[j], records[i])
    {
      assert records[i] == front[i];
      if j < |front| {
        assert records[j] == front[j];
      }
    }
  }

  /**
   What is reported of a corpus that is not accepted: of the first record that breaks the isolation of
   those before it, the first of the four ways in which it does.
   */
  lemma RejectedExactly(judge: Judge, records: seq<Record>, n: nat)
    requires n < |records| && Isolated(judge, records[..n]) && !Isolated(judge, records[..n + 1])
    ensures var before, r, verdict := records[..n], records[n], VerdictOn(judge, records);
      var id, family, text := HasId(before, r.id), Leaks(before, r), HasText(judge, before, judge.Text(r));
      && (verdict == DuplicateId <==> id)
      && (verdict == FamilyLeakage <==> !id && family)
      && (verdict == DuplicateText <==> !id && !family && text)
      && (verdict == NearDuplicate <==> !id && !family && !text)
  {
    AcceptedExactly(judge, records[..n]);
    AcceptedExactly(judge, records[..n + 1]);
    VerdictStep(judge, records, n);
  }

  // ---- the canonical training set -------------------------------------------------------------

  datatype Built = Output(records: seq<Record>) | Rejected

  predicate IdBefore(a: Record, b: Record) { StringLe(a.id, b.id) }

  predicate Trains(r: Record) { r.split == Train }

  predicate HasProtected(selected: seq<Record>) { exists i :: 0 <= i < |selected| && selected[i].split == Test }

  predicate HasOtherAction(selected: seq<Record>) {
    exists i :: 0 <= i < |selected| && selected[i].action !in PROPOSAL_ACTIONS
  }

  function TrainingSet(judge: Judge, records: seq<Record>): Built {
    var selected := Filter(Trains, records);
    if !VerdictOn(judge, records).Accepted? || selected == [] || HasOtherAction(selected) then Rejected
    else Output(Sort(IdBefore, selected))
  }

  function CountOf(records: seq<Record>, split: Split): nat {
    if records == [] then 0
    else CountOf(records[..|records| - 1], split) + if records[|records| - 1].split == split then 1 else 0
  }

  /** The counts of one split are in the card exactly when it occurs. */
  predicate Counts(card: map<Split, nat>, records: seq<Record>) {
    forall split: Split ::
      && (split in card <==> CountOf(records, split) > 0)
      && (split in card ==> card[split] == CountOf(records, split))
  }

  method CountSplits(records: seq<Record>) returns (card: map<Split, nat>)
    ensures Counts(card, records)
  {
    card := map[];
    for i := 0 to |records|
      invariant Counts(card, records[..i])
    {
      assert records[..i + 1][..i] == records[..i];
      var split := records[i].split;
      card := card[split := (if split in card then card[split] else 0) + 1];
    }
    assert records[..|records|] == records;
  }

  /** `build_dataset`: the records written, in order, and the two tables of the card. */
  method BuildDataset(judge: Judge, records: seq<Record>)
    returns (built: Built, inputCounts: map<Split, nat>, outputCounts: map<Split, nat>)
    ensures built == TrainingSet(judge, records)
    ensures built.Output? ==> Counts(inputCounts, records) && outputCounts == map[Train := |built.records|]
  {
    inputCounts, outputCounts := map[], map[];
    var verdict := Validate(judge, records);
    if !verdict.Accepted? {
      return Rejected, inputCounts, outputCounts;
    }
    var selected := SelectTraining(records);
    if selected == [] || HasProtected(selected) || HasOtherAction(selected) {
      return Rejected, inputCounts, outputCounts;
    }
    selected := Sort(IdBefore, selected);
    inputCounts := CountSplits(records);
    outputCounts := CountSplits(selected);
    OutputCounts(records, outputCounts);
    return Output(selected), inputCounts, outputCounts;
  }

  /** The second guard against protected records never fires: the selection holds none. */
  method SelectTraining(records: seq<Record>) returns (selected: seq<Record>)
    ensures selected == Filter(Trains, records) && !HasProtected(selected)
  {
    selected := [];
    for i := 0 to |records|
      invariant selected == Filter(Trains, records[..i]) && !HasProtected(selected)
    {
      assert records[..i + 1][..i] == records[..i];
      if Trains(records[i]) {
        selected := selected + [records[i]];
      }
    }
    assert records[..|records|] == records;
  }

  lemma OutputCounts(records: seq<Record>, card: map<Split, nat>)
    requires Filter(Trains, records) != [] && Counts(card, Sort(IdBefore, Filter(Trains, records)))
    ensures card == map[Train := |Sort(IdBefore, Filter(Trains, records))|]
  {
    var selected := Filter(Trains, records);
    var sorted := Sort(IdBefore, selected);
    FilterContents(Trains, records);
    IdBeforeIsLinear();
    SortSorts(IdBefore, selected);
    assert |multiset(sorted)| == |multiset(selected)|;
    forall i | 0 <= i < |sorted| ensures Trains(sorted[i]) {
      assert sorted[i] in multiset(sorted);
      assert sorted[i] in multiset(selected);
    }
    OneSplitCounts(sorted);
  }

  lemma {:induction false} OneSplitCounts(records: seq<Record>)
    requires forall i | 0 <= i < |records| :: Trains(records[i])
    ensures forall split :: CountOf(records, split) == if split == Train then |records| else 0
  {
    if records != [] {
      OneSplitCounts(records[..|records| - 1]);
    }
  }

  lemma IdBeforeIsLinear()
    ensures Linear(IdBefore)
  {
    forall a: Record, b: Record ensures IdBefore(a, b) || IdBefore(b, a) {
      StringLeTotal(a.id, b.id);
    }
    forall a: Record, b: Record, c: Record | IdBefore(a, b) && IdBefore(b, c) ensures IdBefore(a, c) {
      StringLeTransitive(a.id, b.id, c.id);
    }
  }

  // ---- isolation of the training set ----------------------------------------------------------

  /** A record of another split shares nothing with `r`: no family, no text, no near duplicate. */
  predicate Apart(judge: Judge, r: Record, other: Record) {
    && r.family != other.family && judge.Text(r) != judge.Text(other)
    && (judge.ratio(judge.Text(r), judge.Text(other)) < 0.9 || judge.ratio(judge.Text(other), judge.Text(r)) < 0.9)
  }

  lemma SplitsApart(judge: Judge, records: seq<Record>, r: Record, other: Record)
    requires Isolated(judge, records) && r in records && other in records && r.split != other.split
    ensures Apart(judge, r, other)
  {
    var i :| 0 <= i < |records| && records[i] == r;
    var j :| 0 <= j < |records| && records[j] == other;
    if i < j {
      assert !judge.Near(records[j], records[i]);
    } else {
      assert !judge.Near(records[i], records[j]);
    }
  }

  /** The training set holds exactly the train records, in strictly increasing order of id. */
  lemma TrainingSetExact(judge: Judge, records: seq<Record>)
    requires TrainingSet(judge, records).Output?
    ensures var out := TrainingSet(judge, records).records;
      && (forall r :: r in out <==> r in records && r.split == Train)
      && Sorted(IdBefore, out) && UniqueIds(out) && out != []
  {
    var selected := Filter(Trains, records);
    AcceptedExactly(judge, records);
    IdBeforeIsLinear();
    FilterContents(Trains, records);
    SortSorts(IdBefore, selected);
    var out := Sort(IdBefore, selected);
    forall r ensures r in out <==> r in selected {
      assert r in out <==> r in multiset(out);
      assert r in selected <==> r in multiset(selected);
    }
    assert |multiset(out)| == |multiset(selected)|;
    NoRepeats(records);
    forall r ensures multiset(out)[r] <= 1 {
      assert multiset(out)[r] == multiset(selected)[r] <= multiset(records)[r] <= 1;
    }
    OnceMeansUnique(records, out);
  }

  lemma {:induction false} NoRepeats(records: seq<Record>)
    requires UniqueIds(records)
    ensures forall r :: multiset(records)[r] <= 1
  {
    if records != [] {
      var front, last := records[..|records| - 1], records[|records| - 1];
      NoRepeats(front);
      assert records == front + [last];
      assert last !in front;
    }
  }

  /** Distinct records of a corpus with unique ids have different ids. */
  lemma OnceMeansUnique(records: seq<Record>, some: seq<Record>)
    requires UniqueIds(records) && (forall r :: r in some ==> r in records) && forall r :: multiset(some)[r] <= 1
    ensures UniqueIds(some)
  {
    forall i, j | 0 <= i < j < |some| ensures some[i].id != some[j].id {
      assert some[i] in records && some[j] in records;
      CountedTwice(some, i, j);
    }
  }

  lemma CountedTwice<T>(s: seq<T>, i: nat, j: nat)
    requires i < j < |s|
    ensures s[i] == s[j] ==> multiset(s)[s[i]] >= 2
  {
    assert s == s[..i] + [s[i]] + s[i + 1..j] + [s[j]] + s[j + 1..];
  }

  /**
   A training set is written if and only if the corpus is isolated, there is a train record, and the
   model is to answer every train record.
   */
  lemma OutputExactly(judge: Judge, records: seq<Record>)
    ensures TrainingSet(judge, records).Output? <==>
      && Isolated(judge, records) && (exists r :: r in records && r.split == Train)
      && forall r | r in records && r.split == Train :: r.action in {ExternalModel, Helper, Clarify}
  {
    AcceptedExactly(judge, records);
    SomeTrain(records);
    NoOtherAction(records);
  }

  lemma SomeTrain(records: seq<Record>)
    ensures Filter(Trains, records) != [] <==> exists r :: r in records && r.split == Train
  {
    var selected := Filter(Trains, records);
    FilterContents(Trains, records);
    if r :| r in records && r.split == Train {
      assert r in selected;
    }
    if selected != [] {
      assert selected[0] in selected;
    }
  }

  lemma NoOtherAction(records: seq<Record>)
    ensures HasOtherAction(Filter(Trains, records)) <==>
      exists r :: r in records && r.split == Train && r.action !in {ExternalModel, Helper, Clarify}
  {
    var selected := Filter(Trains, records);
    FilterContents(Trains, records);
    if HasOtherAction(selected) {
      var i :| 0 <= i < |selected| && selected[i].action !in PROPOSAL_ACTIONS;
      assert selected[i] in selected;
    }
    if r :| r in records && r.split == Train && r.action !in {ExternalModel, Helper, Clarify} {
      assert r in selected;
      var i :| 0 <= i < |selected| && selected[i] == r;
    }
  }

  /** No protected record, and nothing of its family or near its text, enters the training set. */
  lemma TrainingSetIsolated(judge: Judge, records: seq<Record>, r: Record, protected: Record)
    requires TrainingSet(judge, records).Output? && r in TrainingSet(judge, records).records
    requires protected in records && protected.split != Train
    ensures Apart(judge, r, protected) && protected !in TrainingSet(judge, records).records
  {
    TrainingSetExact(judge, records);
    AcceptedExactly(judge, records);
    SplitsApart(judge, records, r, protected);
  }

  /** The training set depends only on which train records there are, not on the rest nor on the order. */
  lemma TrainingSetCanonical(judge: Judge, a: seq<Record>, b: seq<Record>)
    requires VerdictOn(judge, a).Accepted? && VerdictOn(judge, b).Accepted?
    requires forall r: Record | r.split == Train :: r in a <==> r in b
    ensures TrainingSet(judge, a) == TrainingSet(judge, b)
  {
    var sa, sb := Filter(Trains, a), Filter(Trains, b);
    AcceptedExactly(judge, a);
    AcceptedExactly(judge, b);
    NoRepeats(a);
    NoRepeats(b);
    FilterContents(Trains, a);
    FilterContents(Trains, b);
    forall r ensures multiset(sa)[r] == multiset(sb)[r] {
      assert r in multiset(a) <==> r in a;
      assert r in multiset(b) <==> r in b;
    }
    assert multiset(sa) == multiset(sb);
    IdBeforeIsLinear();
    IdsDecide(a, sa);
    SortCanonical(IdBefore, sa, sb);
    SameActions(sa, sb);
    SameActions(sb, sa);
  }

  lemma SameActions(a: seq<Record>, b: seq<Record>)
    requires multiset(a) == multiset(b)
    ensures HasOtherAction(a) ==> HasOtherAction(b)
    ensures a == [] <==> b == []
  {
    assert |multiset(a)| == |a| && |multiset(b)| == |b|;
    if HasOtherAction(a) {
      var i :| 0 <= i < |a| && a[i].action !in PROPOSAL_ACTIONS;
      assert a[i] in multiset(b);
      assert a[i] in b;
    }
  }

  lemma IdsDecide(records: seq<Record>, some: seq<Record>)
    requires UniqueIds(records) && forall r :: r in some ==> r in records
    ensures Decisive(IdBefore, some)
  {
    forall a, b | a in some && b in some && IdBefore(a, b) && IdBefore(b, a) ensures a == b {
      StringLeAntisymmetric(a.id, b.id);
      assert a in records && b in records;
    }
  }

  /** Building again from a training set accepts it and changes nothing. */
  lemma TrainingSetStable(judge: Judge, records: seq<Record>)
    requires TrainingSet(judge, records).Output?
    ensures var out := TrainingSet(judge, records).records;
      VerdictOn(judge, out).Accepted? && TrainingSet(judge, out) == TrainingSet(judge, records)
  {
    var out := TrainingSet(judge, records).records;
    AcceptedExactly(judge, records);
    TrainingSetExact(judge, records);
    forall i, j | 0 <= i < j < |out|
      ensures judge.Text(out[i]) != judge.Text(out[j]) && out[i].split == out[j].split
    {
      assert out[i] in records && out[j] in records && out[i].id != out[j].id;
      TextsDiffer(judge, records, out[i], out[j]);
    }
    AcceptedExactly(judge, out);
    TrainingSetCanonical(judge, records, out);
  }

  lemma TextsDiffer(judge: Judge, records: seq<Record>, a: Record, b: Record)
    requires Isolated(judge, records) && a in records && b in records && a != b
    ensures judge.Text(a) != judge.Text(b)
  {
    var i :| 0 <= i < |records| && records[i] == a;
    var j :| 0 <= j < |records| && records[j] == b;
    assert i < j || j < i;
  }

  // ---- the fine-tuning records ----------------------------------------------------------------

  /** The serialisers, and the instruction of the classifier. */
  datatype Prompting = Prompting(instruction: string, dump: Classification.Dump, dumpProposal: Proposal -> string)

  predicate ValidContent(content: string) { 1 <= |content| <= Classification.MAX_CONTENT }

  datatype SftRecord = SftRecord(sourceId: string, family: string, split: Split, prompt: seq<Message>,
      completion: seq<Message>)

  /** Does `_record_for_sft` give a record, skip the source record, or raise? */
  datatype Converted = Skipped | Failed | Converted(record: SftRecord)

  function Convert(p: Prompting, r: Record): Converted {
    if r.proposal.None? || r.split in {Test, Development} then Skipped
    else
      var text := Classification.Serialized(p.dump, r.messages);
      var reply := p.dumpProposal(r.proposal.value);
      if text.None? || !ValidContent(p.instruction) || !ValidContent(text.value) || !ValidContent(reply) then Failed
      else Converted(SftRecord(r.id, r.family, r.split,
        [Message("system", p.instruction), Message("user", text.value)], [Message("assistant", reply)]))
  }

  datatype Tuned = Tuned(records: seq<SftRecord>) | NotTuned

  /** `build_sft_records`; a source that is not accepted, a failed record and an empty result all raise. */
  method BuildSft(judge: Judge, p: Prompting, records: seq<Record>, split: Split) returns (tuned: Tuned)
    ensures tuned == SftOf(judge, p, records, split)
  {
    var verdict := Validate(judge, records);
    if !verdict.Accepted? {
      return NotTuned;
    }
    var built: seq<SftRecord> := [];
    for i := 0 to |records|
      invariant Conversions(p, records[..i], split) == Some(built)
    {
      assert records[..i + 1][..i] == records[..i];
      if records[i].split != split {
        continue;
      }
      var candidate := Convert(p, records[i]);
      if candidate.Failed? {
        FailureStays(p, records, split, i + 1);
        return NotTuned;
      }
      if candidate.Converted? {
        built := built + [candidate.record];
      }
    }
    assert records[..|records|] == records;
    return if built == [] then NotTuned else Tuned(built);
  }

  function Conversions(p: Prompting, records: seq<Record>, split: Split): Option<seq<SftRecord>> {
    if records == [] then Some([])
    else
      var front, last := Conversions(p, records[..|records| - 1], split), records[|records| - 1];
      if front.None? || last.split != split then front
      else match Convert(p, last)
        case Skipped => front
        case Failed => None
        case Converted(record) => Some(front.value + [record])
  }

  lemma {:induction false} FailureStays(p: Prompting, records: seq<Record>, split: Split, n: nat)
    requires n <= |records| && Conversions(p, records[..n], split).None?
    ensures Conversions(p, records, split).None?
  {
    if n == |records| {
      assert records[..n] == records;
    } else {
      assert records[..|records| - 1][..n] == records[..n];
      FailureStays(p, records[..|records| - 1], split, n);
    }
  }

  function SftOf(judge: Judge, p: Prompting, records: seq<Record>, split: Split): Tuned {
    var built := Conversions(p, records, split);
    if !VerdictOn(judge, records).Accepted? || built.None? || built.value == [] then NotTuned else Tuned(built.value)
  }

  /** Does the record call for a fine-tuning record of this split? */
  predicate Routed(split: Split, r: Record) { r.split == split && r.proposal.Some? && split !in {Test, Development} }

  /** One fine-tuning record for each routed record of the split, in the order of the source. */
  lemma {:induction false} ConversionsExact(p: Prompting, records: seq<Record>, split: Split)
    ensures Conversions(p, records, split).None? <==>
      exists i :: 0 <= i < |records| && Routed(split, records[i]) && Convert(p, records[i]).Failed?
    ensures Conversions(p, records, split).Some? ==>
      var routed, built := Filter(r => Routed(split, r), records), Conversions(p, records, split).value;
      |built| == |routed| && forall i | 0 <= i < |built| :: Convert(p, routed[i]) == Converted(built[i])
  {
    if records != [] {
      var front, last := records[..|records| - 1], records[|records| - 1];
      ConversionsExact(p, front, split);
      assert forall i | 0 <= i < |front| :: records[i] == front[i];
      if Conversions(p, front, split).None? {
        var i :| 0 <= i < |front| && Routed(split, front[i]) && Convert(p, front[i]).Failed?;
        assert Routed(split, records[i]) && Convert(p, records[i]).Failed?;
      }
    }
  }

  /** The conversation can be shown to the classifier, and all three texts are valid contents. */
  predicate Convertible(p: Prompting, r: Record) {
    && Classification.WellFormed(r.messages) && Utf8Length(p.dump(r.messages)) <= 16000
    && 1 <= |p.instruction| <= 12000 && 1 <= |p.dump(r.messages)| <= 12000
    && r.proposal.Some? && 1 <= |p.dumpProposal(r.proposal.value)| <= 12000
  }

  /**
   Fine-tuning records are built if and only if the corpus is isolated, some record is routed to the
   split, and every such record can be converted.
   */
  lemma TunedExactly(judge: Judge, p: Prompting, records: seq<Record>, split: Split)
    ensures SftOf(judge, p, records, split).Tuned? <==>
      && Isolated(judge, records) && (exists i :: 0 <= i < |records| && Routed(split, records[i]))
      && forall i | 0 <= i < |records| && Routed(split, records[i]) :: Convertible(p, records[i])
  {
    AcceptedExactly(judge, records);
    ConversionsExact(p, records, split);
    SomeRouted(records, split);
    forall i | 0 <= i < |records| && Routed(split, records[i])
      ensures Convert(p, records[i]).Failed? <==> !Convertible(p, records[i])
    {
      ConvertExactly(p, records[i]);
    }
  }

  lemma ConvertExactly(p: Prompting, r: Record)
    requires r.proposal.Some? && r.split !in {Test, Development}
    ensures Convert(p, r).Failed? <==> !Convertible(p, r)
  {
  }

  lemma SomeRouted(records: seq<Record>, split: Split)
    ensures Filter(r => Routed(split, r), records) != [] <==>
      exists i :: 0 <= i < |records| && Routed(split, records[i])
  {
    var routed := (r: Record) => Routed(split, r);
    FilterContents(routed, records);
    var kept := Filter(routed, records);
    assert Filter(r => Routed(split, r), records) == kept;
    if i :| 0 <= i < |records| && Routed(split, records[i]) {
      assert records[i] in kept;
    }
    if kept != [] {
      assert kept[0] in kept;
    }
  }

  /** A fine-tuning record comes from a routed record of its split. */
  lemma SftHasSource(judge: Judge, p: Prompting, records: seq<Record>, split: Split, i: nat) returns (source: Record)
    requires SftOf(judge, p, records, split).Tuned? && i < |SftOf(judge, p, records, split).records|
    ensures source in records && source.split == split && split !in {Test, Development}
    ensures var made := SftOf(judge, p, records, split).records[i];
      made.sourceId == source.id && made.family == source.family && made.split == split
      && source.proposal.Some? && made.completion == [Message("assistant", p.dumpProposal(source.proposal.value))]
      && Classification.Serialized(p.dump, source.messages).Some?
      && made.prompt == [Message("system", p.instruction),
        Message("user", Classification.Serialized(p.dump, source.messages).value)]
  {
    var routed := (r: Record) => Routed(split, r);
    ConversionsExact(p, records, split);
    FilterContents(routed, records);
    assert Filter(r => Routed(split, r), records) == Filter(routed, records);
    source := Filter(routed, records)[i];
    assert source in Filter(routed, records);
  }

  /** Fine-tuning sets of different splits share no family, and none has a family of a protected record. */
  lemma SftIsolated(judge: Judge, p: Prompting, records: seq<Record>, split: Split, i: nat, other: Record)
    requires SftOf(judge, p, records, split).Tuned? && i < |SftOf(judge, p, records, split).records|
    requires other in records && other.split != split
    ensures SftOf(judge, p, records, split).records[i].family != other.family
    ensures SftOf(judge, p, records, split).records[i].sourceId != other.id
  {
    var source := SftHasSource(judge, p, records, split, i);
    AcceptedExactly(judge, records);
    SplitsApart(judge, records, source, other);
    assert source != other;
  }

  /** From a canonical training set every record is used: one fine-tuning record each, in its order. */
  lemma TrainingSetFullyUsed(judge: Judge, p: Prompting, records: seq<Record>)
    requires ValidRecords(records) && TrainingSet(judge, records).Output?
    ensures var out := TrainingSet(judge, records).records;
      SftOf(judge, p, out, Train) == NotTuned <==> exists i :: 0 <= i < |out| && Convert(p, out[i]).Failed?
    ensures var out := TrainingSet(judge, records).records;
      SftOf(judge, p, out, Train).Tuned? ==>
        var tuned := SftOf(judge, p, out, Train).records;
        |tuned| == |out| && forall i | 0 <= i < |out| :: Convert(p, out[i]) == Converted(tuned[i])
  {
    var out := TrainingSet(judge, records).records;
    TrainingSetExact(judge, records);
    TrainingSetStable(judge, records);
    AllRouted(judge, records);
    AllConverted(judge, p, out);
  }

  lemma AllConverted(judge: Judge, p: Prompting, out: seq<Record>)
    requires VerdictOn(judge, out).Accepted? && out != [] && forall r | r in out :: Routed(Train, r)
    ensures SftOf(judge, p, out, Train) == NotTuned <==> exists i :: 0 <= i < |out| && Convert(p, out[i]).Failed?
    ensures SftOf(judge, p, out, Train).Tuned? ==>
      var tuned := SftOf(judge, p, out, Train).records;
      |tuned| == |out| && forall i | 0 <= i < |out| :: Convert(p, out[i]) == Converted(tuned[i])
  {
    ConversionsExact(p, out, Train);
    FilterAll((r: Record) => Routed(Train, r), out);
    assert Filter(r => Routed(Train, r), out) == out;
  }

  lemma AllRouted(judge: Judge, records: seq<Record>)
    requires ValidRecords(records) && TrainingSet(judge, records).Output?
    ensures forall r | r in TrainingSet(judge, records).records :: Routed(Train, r)
  {
    var selected := Filter(Trains, records);
    var out := TrainingSet(judge, records).records;
    TrainingSetExact(judge, records);
    FilterContents(Trains, records);
    forall r | r in out ensures Routed(Train, r) {
      assert r in selected && r in records;
    }
  }

  lemma {:induction false} FilterAll<T>(keep: T -> bool, s: seq<T>)
    requires forall x :: x in s ==> keep(x)
    ensures Filter(keep, s) == s
  {
    if s != [] {
      FilterAll(keep, s[..|s| - 1]);
    }
  }
}
