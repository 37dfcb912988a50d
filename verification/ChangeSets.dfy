/**
 Selection of the expensive CI suites from a change set (src/omo/ci_changes.py): the parser of
 `git diff --name-status -z`, the path classifier and the fail-closed selection.
 */
module ChangeSets {
  import opened Common

  // ---- fields ---------------------------------------------------------------------------------

  predicate NulFree(s: string) { '\0' !in s }

  function Split(s: string): (fields: seq<string>)
    ensures fields != [] && forall i | 0 <= i < |fields| :: NulFree(fields[i])
  {
    if s == "" then [""]
    else
      var rest := Split(s[1..]);
      if s[0] == '\0' then [""] + rest else [[s[0]] + rest[0]] + rest[1..]
  }

  function Join(fields: seq<string>): string
    requires fields != []
  {
    if |fields| == 1 then fields[0] else fields[0] + ['\0'] + Join(fields[1..])
  }

  lemma {:induction false} JoinSplit(s: string)
    ensures Join(Split(s)) == s
  {
    if s != "" {
      JoinSplit(s[1..]);
      var rest := Split(s[1..]);
      if s[0] == '\0' {
        assert ([""] + rest)[1..] == rest;
        assert [] + ['\0'] + Join(rest) == ['\0'] + Join(rest);
      } else if |rest| > 1 {
        assert Split(s)[1..] == rest[1..];
        assert [s[0]] + rest[0] + ['\0'] + Join(rest[1..]) == [s[0]] + (rest[0] + ['\0'] + Join(rest[1..]));
      }
    }
  }

  lemma {:induction false} SplitJoin(fields: seq<string>)
    requires fields != [] && forall i | 0 <= i < |fields| :: NulFree(fields[i])
    ensures Split(Join(fields)) == fields
    decreases |fields|, |fields[0]|
  {
    var first, others := fields[0], fields[1..];
    if first == "" {
      if others == [] {
        assert fields == [""];
      } else {
        SplitJoin(others);
        assert Join(fields) == ['\0'] + Join(others);
        assert Join(fields)[1..] == Join(others);
        assert fields == [""] + others;
      }
    } else {
      var shorter := [first[1..]] + others;
      assert shorter[1..] == others;
      forall i | 0 <= i < |shorter| ensures NulFree(shorter[i]) {
        assert NulFree(fields[i]);
      }
      SplitJoin(shorter);
      assert first == [first[0]] + first[1..];
      assert Join(fields) == [first[0]] + Join(shorter);
      assert Join(fields)[1..] == Join(shorter);
      assert first[0] in fields[0];
      assert fields == [[first[0]] + shorter[0]] + shorter[1..];
    }
  }

  // ---- name-status records --------------------------------------------------------------------

  /** `None` stands for a ValueError: an incomplete record. */
  function Parsed(fields: seq<string>, found: seq<string>): Option<seq<string>> {
    if |fields| <= 1 then Some(found)
    else if fields[0] == "" then Parsed(fields[1..], found)
    else if IsMove(fields[0]) then
      if |fields| < 3 || fields[1] == "" || fields[2] == "" then None
      else Parsed(fields[3..], found + [fields[1], fields[2]])
    else if fields[1] == "" then None
    else Parsed(fields[2..], found + [fields[1]])
  }

  predicate IsMove(status: string)
    requires status != ""
  {
    status[0] in {'R', 'C'}
  }

  /** `_parse_name_status`; an output that is not UTF-8 is given as `None`. */
  method ParseNameStatus(output: Option<string>) returns (paths: Option<seq<string>>)
    ensures paths == ParsedOutput(output)
  {
    if output.None? {
      return None;
    }
    var fields := Split(output.value);
    var found: seq<string> := [];
    var index := 0;
    while index < |fields| - 1
      invariant 0 <= index <= |fields|
      invariant Parsed(fields, []) == Parsed(fields[index..], found)
    {
      ghost var left := fields[index..];
      var status := fields[index];
      index := index + 1;
      if status == "" {
        assert left[1..] == fields[index..];
        continue;
      }
      if IsMove(status) {
        if index + 1 >= |fields| || fields[index] == "" || fields[index + 1] == "" {
          return None;
        }
        assert left[3..] == fields[index + 2..];
        found := found + [fields[index], fields[index + 1]];
        index := index + 2;
      } else {
        if fields[index] == "" {
          return None;
        }
        assert left[2..] == fields[index + 1..];
        found := found + [fields[index]];
        index := index + 1;
      }
    }
    return Some(found);
  }

  function ParsedOutput(output: Option<string>): Option<seq<string>> {
    if output.None? then None else Parsed(Split(output.value), [])
  }

  /** What Git prints: a change of one path, a rename or copy with both paths, or an empty status. */
  datatype Item = Blank | Change(status: string, path: string) | Move(status: string, old_: string, new_: string) {
    predicate Valid() {
      match this
      case Blank => true
      case Change(status, path) => status != "" && !IsMove(status) && path != "" && NulFree(status) && NulFree(path)
      case Move(status, a, b) =>
        status != "" && IsMove(status) && a != "" && b != "" && NulFree(status) && NulFree(a) && NulFree(b)
    }

    function Fields(): seq<string> {
      match this
      case Blank => [""]
      case Change(status, path) => [status, path]
      case Move(status, a, b) => [status, a, b]
    }

    function Paths(): seq<string> {
      match this
      case Blank => []
      case Change(status, path) => [path]
      case Move(status, a, b) => [a, b]
    }
  }

  predicate ValidItems(items: seq<Item>) { forall i | 0 <= i < |items| :: items[i].Valid() }

  function FieldsOf(items: seq<Item>): seq<string> {
    if items == [] then [] else items[0].Fields() + FieldsOf(items[1..])
  }

  function PathsOf(items: seq<Item>): seq<string> {
    if items == [] then [] else items[0].Paths() + PathsOf(items[1..])
  }

  /** Every field followed by NUL. */
  function Terminated(fields: seq<string>): string {
    if fields == [] then "" else fields[0] + ['\0'] + Terminated(fields[1..])
  }

  function Print(items: seq<Item>): string { Terminated(FieldsOf(items)) }

  /**
   The fields are those of the items, and at most one more that no record starts. Nothing is left
   over exactly when the last record lacks its final NUL.
   */
  predicate Leaves(fields: seq<string>, items: seq<Item>) {
    || (|fields| == |FieldsOf(items)| + 1 && FieldsOf(items) <= fields)
    || (fields == FieldsOf(items) && items != [] && !items[|items| - 1].Blank?)
  }

  lemma ItemParses(item: Item, fields: seq<string>, found: seq<string>)
    requires item.Valid() && item.Fields() <= fields && |fields| > 1
    ensures Parsed(fields, found) == Parsed(fields[|item.Fields()|..], found + item.Paths())
  {
    assert found + [] == found;
    assert fields[0] == item.Fields()[0];
    assert !item.Blank? ==> fields[1] == item.Fields()[1];
    assert item.Move? ==> fields[2] == item.Fields()[2];
  }

  lemma LeavesRest(items: seq<Item>, fields: seq<string>)
    requires items != [] && Leaves(fields, items)
    ensures var item := items[0];
      && item.Fields() <= fields && |fields| > 1
      && ((fields[|item.Fields()|..] == [] && items[1..] == []) || Leaves(fields[|item.Fields()|..], items[1..]))
  {
    var item, rest := items[0], items[1..];
    var n := |item.Fields()|;
    assert FieldsOf(items) == item.Fields() + FieldsOf(rest);
    assert fields[..n] == item.Fields() && FieldsOf(rest) <= fields[n..];
    assert rest != [] ==> rest[|rest| - 1] == items[|items| - 1];
  }

  lemma {:induction false} ItemsParse(items: seq<Item>, fields: seq<string>, found: seq<string>)
    requires ValidItems(items) && Leaves(fields, items)
    ensures Parsed(fields, found) == Some(found + PathsOf(items))
  {
    if items == [] {
      assert found + [] == found;
    } else {
      var item, rest := items[0], items[1..];
      LeavesRest(items, fields);
      ItemParses(item, fields, found);
      var left := fields[|item.Fields()|..];
      PlusAssociates(found, item.Paths(), PathsOf(rest));
      if Leaves(left, rest) {
        ItemsParse(rest, left, found + item.Paths());
      } else {
        assert rest == [] && Parsed(left, found + item.Paths()) == Some(found + item.Paths());
        assert PathsOf(items) == item.Paths();
      }
    }
  }

  /** The record that the parser consumes first. */
  lemma FirstItem(fields: seq<string>, found: seq<string>) returns (item: Item)
    requires |fields| > 1 && forall i | 0 <= i < |fields| :: NulFree(fields[i])
    requires Parsed(fields, found).Some?
    ensures item.Valid() && item.Fields() <= fields && (item.Blank? ==> |fields| > |item.Fields()|)
    ensures Parsed(fields[|item.Fields()|..], found + item.Paths()) == Parsed(fields, found)
  {
    assert found + [] == found;
    item := if fields[0] == "" then Blank
            else if IsMove(fields[0]) then Move(fields[0], fields[1], fields[2])
            else Change(fields[0], fields[1]);
  }

  lemma {:induction false} ParsedHasItems(fields: seq<string>, found: seq<string>) returns (items: seq<Item>)
    requires fields != [] && forall i | 0 <= i < |fields| :: NulFree(fields[i])
    requires Parsed(fields, found).Some?
    ensures ValidItems(items) && Leaves(fields, items)
    decreases |fields|
  {
    if |fields| == 1 {
      return [];
    }
    var item := FirstItem(fields, found);
    var n := |item.Fields()|;
    assert fields == item.Fields() + fields[n..];
    if |fields| == n {
      items := [item];
      assert FieldsOf(items) == item.Fields() + FieldsOf([]);
    } else {
      var rest := ParsedHasItems(fields[n..], found + item.Paths());
      items := [item] + rest;
      assert items[1..] == rest;
      assert FieldsOf(items) == item.Fields() + FieldsOf(rest);
    }
  }

  /**
   Exactly the outputs made of such records are accepted, whatever the order of records and blanks;
   the paths are those of the records, old and new, in order.
   */
  lemma ParsedExactly(output: string, paths: seq<string>)
    ensures ParsedOutput(Some(output)) == Some(paths) <==>
      exists items :: ValidItems(items) && PathsOf(items) == paths && Leaves(Split(output), items)
  {
    var fields := Split(output);
    if ParsedOutput(Some(output)) == Some(paths) {
      var items := ParsedHasItems(fields, []);
      ItemsParse(items, fields, []);
      assert [] + PathsOf(items) == PathsOf(items);
    }
    forall items | ValidItems(items) && PathsOf(items) == paths && Leaves(fields, items)
      ensures ParsedOutput(Some(output)) == Some(paths)
    {
      ItemsParse(items, fields, []);
      assert [] + PathsOf(items) == PathsOf(items);
    }
  }

  lemma {:induction false} JoinTerminated(fields: seq<string>, last: string)
    ensures Join(fields + [last]) == Terminated(fields) + last
  {
    if fields == [] {
      assert [] + [last] == [last];
      assert "" + last == last;
    } else {
      JoinTerminated(fields[1..], last);
      assert (fields + [last])[1..] == fields[1..] + [last];
    }
  }

  lemma {:induction false} FieldsNulFree(items: seq<Item>)
    requires ValidItems(items)
    ensures forall i | 0 <= i < |FieldsOf(items)| :: NulFree(FieldsOf(items)[i])
  {
    if items != [] {
      FieldsNulFree(items[1..]);
      var n := |items[0].Fields()|;
      assert forall i | 0 <= i < n :: NulFree(items[0].Fields()[i]);
      forall i | 0 <= i < |FieldsOf(items)| ensures NulFree(FieldsOf(items)[i]) {
        if i < n {
          assert FieldsOf(items)[i] == items[0].Fields()[i];
        } else {
          assert FieldsOf(items)[i] == FieldsOf(items[1..])[i - n];
        }
      }
    }
  }

  /** What is printed, with or without a torn status behind it, is read back: no path is lost. */
  lemma RoundTrip(items: seq<Item>, torn: string)
    requires ValidItems(items) && NulFree(torn)
    ensures ParsedOutput(Some(Print(items) + torn)) == Some(PathsOf(items))
  {
    var fields := FieldsOf(items) + [torn];
    FieldsNulFree(items);
    JoinTerminated(FieldsOf(items), torn);
    SplitJoin(fields);
    ItemsParse(items, fields, []);
    assert [] + PathsOf(items) == PathsOf(items);
  }

  // ---- paths ----------------------------------------------------------------------------------

  function Slashed(path: string): (r: string)
    ensures |r| == |path| && forall i | 0 <= i < |r| :: r[i] == if path[i] == '\\' then '/' else path[i]
  {
    if path == "" then "" else [if path[0] == '\\' then '/' else path[0]] + Slashed(path[1..])
  }

  function Undotted(path: string): string {
    if |path| >= 2 && path[..2] == "./" then Undotted(path[2..]) else path
  }

  /** `_normalise_path`: `None` stands for a ValueError. */
  method NormalisePath(path: string) returns (normalised: Option<string>)
    ensures normalised == Normalised(path)
  {
    if path == "" || '\0' in path {
      return None;
    }
    var left := Slashed(path);
    while |left| >= 2 && left[..2] == "./"
      invariant Undotted(left) == Undotted(Slashed(path))
      decreases |left|
    {
      left := left[2..];
    }
    return if left == "" || left[0] == '/' then None else Some(left);
  }

  function Normalised(path: string): Option<string> {
    if path == "" || '\0' in path then None
    else
      var rest := Undotted(Slashed(path));
      if rest == "" || rest[0] == '/' then None else Some(rest)
  }

  function Dots(n: nat): string { if n == 0 then "" else "./" + Dots(n - 1) }

  lemma {:induction false} UndottedExactly(path: string, n: nat, rest: string)
    requires path == Dots(n) + rest && !(|rest| >= 2 && rest[..2] == "./")
    ensures Undotted(path) == rest
  {
    if n == 0 {
      assert "" + rest == rest;
    } else {
      assert path == "./" + (Dots(n - 1) + rest);
      assert path[..2] == "./" && path[2..] == Dots(n - 1) + rest;
      UndottedExactly(path[2..], n - 1, rest);
    }
  }

  lemma DotsAhead(prefix: string, path: string, dots: string, rest: string)
    requires |path| >= |prefix| && path[..|prefix|] == prefix && path[|prefix|..] == dots + rest
    ensures path == (prefix + dots) + rest
  {
    assert path == path[..|prefix|] + path[|prefix|..];
  }

  lemma {:induction false} UndottedDots(path: string) returns (n: nat)
    ensures path == Dots(n) + Undotted(path)
    ensures !(|Undotted(path)| >= 2 && Undotted(path)[..2] == "./")
  {
    if |path| >= 2 && path[..2] == "./" {
      var m := UndottedDots(path[2..]);
      DotsAhead("./", path, Dots(m), Undotted(path));
      n := m + 1;
    } else {
      assert "" + path == path;
      n := 0;
    }
  }

  /** A normal path is what follows the `./` prefixes, relative and not empty. */
  lemma NormalisedExactly(path: string, normal: string)
    ensures Normalised(path) == Some(normal) <==>
      && '\0' !in path && normal != "" && normal[0] != '/' && !(|normal| >= 2 && normal[..2] == "./")
      && exists n: nat :: Slashed(path) == Dots(n) + normal
  {
    var m := UndottedDots(Slashed(path));
    if path == "" && exists n: nat :: Slashed(path) == Dots(n) + normal {
      var n: nat :| Slashed(path) == Dots(n) + normal;
      assert |normal| == 0;
    }
    forall n: nat | Slashed(path) == Dots(n) + normal && !(|normal| >= 2 && normal[..2] == "./")
      ensures Undotted(Slashed(path)) == normal
    {
      UndottedExactly(Slashed(path), n, normal);
    }
  }

  lemma NormalisedTwice(path: string)
    requires Normalised(path).Some?
    ensures Normalised(Normalised(path).value) == Normalised(path)
  {
    var normal := Normalised(path).value;
    var m := UndottedDots(Slashed(path));
    forall i | 0 <= i < |normal| ensures normal[i] != '\\' && normal[i] != '\0' {
      assert normal[i] == Slashed(path)[|Dots(m)| + i];
    }
    assert Slashed(normal) == normal;
    assert normal == Dots(0) + normal;
    NormalisedExactly(normal, normal);
  }
}
