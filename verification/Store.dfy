/**
 The subscriber store: a set in memory, and a file that is replaced by renaming a temporary one.

 A `Disk` records every state it passes through, so that a crash can be put anywhere: between
 two steps of a write as well as in the middle of one.
 */
module Store {
  import opened Wrappers
  import opened Sequences
  import opened TextSearch
  import opened Space
  import opened Decimal

  // ---------- The file format ----------

  /** What a line adds to the rest: a blank one nothing, a number itself; any other line is an error. */
  function AddLine(line: string, rest: Option<set<int64>>): Option<set<int64>> {
    if TrimSpace(line) == "" then rest
    else match (ParseInt(TrimSpace(line)), rest)
      case (Some(id), Some(ids)) => Some({id} + ids)
      case _ => None
  }

  /** The numbers on the lines of a text from `i` on; nothing when a line is not a number. */
  function LoadFrom(data: string, i: nat): Option<set<int64>>
    requires i <= |data|
    decreases |data| - i
  {
    if i == |data| then Some({}) else
      var e := Until(data, i, Rune('\n'));
      AddLine(data[i..e], if e < |data| then LoadFrom(data, e + 1) else Some({}))
  }

  /** The text after the line that ends at `e`. */
  function LoadAfter(data: string, e: nat): Option<set<int64>>
    requires e <= |data|
  {
    if e < |data| then LoadFrom(data, e + 1) else Some({})
  }

  lemma AfterLine(data: string, e: nat)
    requires e <= |data|
    ensures LoadAfter(data, e) == LoadFrom(data, if e < |data| then e + 1 else e)
  {
  }

  /** The set a file holds. A missing file holds the empty set, a damaged one nothing. */
  function Contents(file: Option<string>): Option<set<int64>> {
    match file
    case None => Some({})
    case Some(data) => LoadFrom(data, 0)
  }

  function Row(id: int64): string {
    FormatInt(id) + "\n"
  }

  function Rows(ids: seq<int64>): string {
    if ids == [] then "" else Row(ids[0]) + Rows(ids[1..])
  }

  lemma {:induction false} RowsSnoc(ids: seq<int64>, id: int64)
    ensures Rows(ids + [id]) == Rows(ids) + Row(id)
    decreases |ids|
  {
    if ids == [] {
      assert [id][1..] == [];
    } else {
      assert (ids + [id])[1..] == ids[1..] + [id];
      RowsSnoc(ids[1..], id);
      Regroup(Row(ids[0]), Rows(ids[1..]), Row(id));
    }
  }

  lemma RowText(data: string, i: nat, id: int64)
    requires Has(data, i, Row(id))
    ensures var e := i + |FormatInt(id)|;
            e < |data| && Until(data, i, Rune('\n')) == e && data[i..e] == FormatInt(id)
  {
    var text := FormatInt(id);
    FormatIntReads(id);
    HasCat(data, i, text, "\n");
    HasMark(data, i + |text|, Rune('\n'));
    RuneUntil(data, i, '\n', text);
  }

  lemma NumberAdds(id: int64, rest: set<int64>)
    ensures AddLine(FormatInt(id), Some(rest)) == Some({id} + rest)
  {
    FormatIntReads(id);
    TrimIsTight(FormatInt(id));
  }

  function SetOf(ids: seq<int64>): set<int64> {
    set id | id in ids
  }

  lemma SetOfCons(ids: seq<int64>)
    requires ids != []
    ensures SetOf(ids) == {ids[0]} + SetOf(ids[1..])
  {
    forall x
      ensures x in SetOf(ids) <==> x in {ids[0]} + SetOf(ids[1..])
    {
      assert ids == [ids[0]] + ids[1..];
    }
  }

  lemma RowLoads(data: string, i: nat, id: int64, rest: set<int64>)
    requires Has(data, i, Row(id)) && LoadFrom(data, i + |Row(id)|) == Some(rest)
    ensures LoadFrom(data, i) == Some({id} + rest)
  {
    RowText(data, i, id);
    NumberAdds(id, rest);
  }

  /** Rows stand one after the other, up to the end of the text. */
  predicate RowsAt(data: string, i: nat, ids: seq<int64>)
    decreases |ids|
  {
    if ids == [] then i == |data| else Has(data, i, Row(ids[0])) && RowsAt(data, i + |Row(ids[0])|, ids[1..])
  }

  lemma RowsParts(data: string, i: nat, ids: seq<int64>)
    requires ids != [] && Has(data, i, Rows(ids)) && i + |Rows(ids)| == |data|
    ensures var next := i + |Row(ids[0])|;
            Has(data, i, Row(ids[0])) && Has(data, next, Rows(ids[1..])) && next + |Rows(ids[1..])| == |data|
  {
    HasCat(data, i, Row(ids[0]), Rows(ids[1..]));
  }

  lemma {:induction false} RowsBehind(data: string, i: nat, ids: seq<int64>)
    requires ids != [] && Has(data, i, Rows(ids)) && i + |Rows(ids)| == |data|
    ensures RowsAt(data, i + |Row(ids[0])|, ids[1..])
    decreases |ids|, 0
  {
    RowsParts(data, i, ids);
    RowsStand(data, i + |Row(ids[0])|, ids[1..]);
  }

  lemma {:induction false} RowsStand(data: string, i: nat, ids: seq<int64>)
    requires Has(data, i, Rows(ids)) && i + |Rows(ids)| == |data|
    ensures RowsAt(data, i, ids)
    decreases |ids|, 1
  {
    if ids != [] {
      assert Has(data, i, Row(ids[0])) by {
        RowsParts(data, i, ids);
      }
      RowsBehind(data, i, ids);
    }
  }

  lemma RowsReadOne(data: string, i: nat, ids: seq<int64>)
    requires ids != [] && Has(data, i, Row(ids[0]))
    requires LoadFrom(data, i + |Row(ids[0])|) == Some(SetOf(ids[1..]))
    ensures LoadFrom(data, i) == Some(SetOf(ids))
  {
    SetOfCons(ids);
    RowLoads(data, i, ids[0], SetOf(ids[1..]));
  }

  /** Rows are read back as the set of their numbers. */
  lemma {:induction false} RowsRead(data: string, i: nat, ids: seq<int64>)
    requires RowsAt(data, i, ids)
    ensures i <= |data| && LoadFrom(data, i) == Some(SetOf(ids))
    decreases |ids|
  {
    if ids == [] {
      assert SetOf(ids) == {};
    } else {
      var next := i + |Row(ids[0])|;
      assert i <= |data| && Has(data, i, Row(ids[0])) && RowsAt(data, next, ids[1..]);
      RowsRead(data, next, ids[1..]);
      assert LoadFrom(data, i) == Some(SetOf(ids)) by {
        RowsReadOne(data, i, ids);
      }
    }
  }

  /** What has been found so far, with what the rest of the text holds. */
  function Joined(found: set<int64>, rest: Option<set<int64>>): Option<set<int64>> {
    match rest
    case None => None
    case Some(ids) => Some(found + ids)
  }

  lemma JoinedEmpty(rest: Option<set<int64>>)
    ensures Joined({}, rest) == rest
  {
    if rest.Some? {
      assert {} + rest.value == rest.value;
    }
  }

  lemma NumberLineAdds(found: set<int64>, line: string, rest: Option<set<int64>>)
    requires TrimSpace(line) != "" && ParseInt(TrimSpace(line)).Some?
    ensures Joined(found, AddLine(line, rest)) == Joined(found + {ParseInt(TrimSpace(line)).value}, rest)
  {
    var id := ParseInt(TrimSpace(line)).value;
    if rest.Some? {
      assert found + ({id} + rest.value) == (found + {id}) + rest.value;
    }
  }

  lemma SetOfSnoc(ids: seq<int64>, id: int64)
    ensures SetOf(ids + [id]) == SetOf(ids) + {id}
  {
    assert forall x | x in SetOf(ids + [id]) :: x == id || x in ids;
    assert forall x | x in ids :: x in ids + [id];
    assert (ids + [id])[|ids|] == id;
  }

  /** What `persist` writes is what `load` reads, whatever the order of the rows. */
  lemma LoadUndoesPersist(ids: seq<int64>)
    ensures Contents(Some(Rows(ids))) == Some(SetOf(ids))
  {
    RowsStand(Rows(ids), 0, ids);
    RowsRead(Rows(ids), 0, ids);
  }

  // ---------- What any file holds ----------

  /** Lines, each with its line break, and a last one without. */
  function TextOf(lines: seq<string>, last: string): string {
    if lines == [] then last else lines[0] + ("\n" + TextOf(lines[1..], last))
  }

  predicate Unbroken(line: string) {
    '\n' !in line
  }

  predicate AllUnbroken(lines: seq<string>) {
    forall line | line in lines :: Unbroken(line)
  }

  /** The lines one after the other, from the last one on. */
  function AddLines(lines: seq<string>, last: string): Option<set<int64>> {
    if lines == [] then AddLine(last, Some({})) else AddLine(lines[0], AddLines(lines[1..], last))
  }

  lemma LastLineLoads(data: string, i: nat, last: string)
    requires Has(data, i, last) && i + |last| == |data| && Unbroken(last)
    ensures LoadFrom(data, i) == AddLine(last, Some({}))
  {
    RuneUntil(data, i, '\n', last);
  }

  lemma LineLoads(data: string, i: nat, line: string, rest: string)
    requires Has(data, i, line + ("\n" + rest)) && Unbroken(line)
    ensures var next := i + |line| + 1;
            next <= |data| && Has(data, next, rest) && LoadFrom(data, i) == AddLine(line, LoadFrom(data, next))
  {
    HasCat(data, i, line, "\n" + rest);
    HasCat(data, i + |line|, "\n", rest);
    HasMark(data, i + |line|, Rune('\n'));
    RuneUntil(data, i, '\n', line);
  }

  lemma {:induction false} LinesLoad(data: string, i: nat, lines: seq<string>, last: string)
    requires Has(data, i, TextOf(lines, last)) && i + |TextOf(lines, last)| == |data|
    requires AllUnbroken(lines) && Unbroken(last)
    ensures LoadFrom(data, i) == AddLines(lines, last)
    decreases |lines|
  {
    if lines == [] {
      LastLineLoads(data, i, last);
    } else {
      assert Unbroken(lines[0]) && AllUnbroken(lines[1..]) by {
        assert lines[0] in lines && forall line | line in lines[1..] :: line in lines;
      }
      var next := i + |lines[0]| + 1;
      assert next <= |data| && Has(data, next, TextOf(lines[1..], last))
             && LoadFrom(data, i) == AddLine(lines[0], LoadFrom(data, next)) by {
        LineLoads(data, i, lines[0], TextOf(lines[1..], last));
      }
      LinesLoad(data, next, lines[1..], last);
    }
  }

  /** A line with something on it that is no number. */
  predicate Damaged(line: string) {
    TrimSpace(line) != "" && ParseInt(TrimSpace(line)).None?
  }

  predicate SomeDamaged(lines: seq<string>, last: string) {
    Damaged(last) || exists k | 0 <= k < |lines| :: Damaged(lines[k])
  }

  predicate Holds(line: string, id: int64) {
    ParseInt(TrimSpace(line)) == Some(id)
  }

  predicate SomeHolds(lines: seq<string>, last: string, id: int64) {
    Holds(last, id) || exists k | 0 <= k < |lines| :: Holds(lines[k], id)
  }

  lemma SomeCons(lines: seq<string>, last: string, id: int64)
    requires lines != []
    ensures SomeDamaged(lines, last) <==> Damaged(lines[0]) || SomeDamaged(lines[1..], last)
    ensures SomeHolds(lines, last, id) <==> Holds(lines[0], id) || SomeHolds(lines[1..], last, id)
  {
    forall k | 1 <= k < |lines|
      ensures lines[1..][k - 1] == lines[k]
    {
    }
    if k :| 1 <= k < |lines| && Damaged(lines[k]) {
      assert Damaged(lines[1..][k - 1]);
    }
    if k :| 1 <= k < |lines| && Holds(lines[k], id) {
      assert Holds(lines[1..][k - 1], id);
    }
  }

  lemma BlankHoldsNothing(line: string, id: int64)
    ensures Holds(line, id) ==> TrimSpace(line) != ""
  {
  }

  lemma {:induction false} AddLinesIs(lines: seq<string>, last: string, id: int64)
    ensures AddLines(lines, last).None? <==> SomeDamaged(lines, last)
    ensures AddLines(lines, last).Some? ==> (id in AddLines(lines, last).value <==> SomeHolds(lines, last, id))
    decreases |lines|
  {
    if lines == [] {
      BlankHoldsNothing(last, id);
    } else {
      AddLinesIs(lines[1..], last, id);
      SomeCons(lines, last, id);
      BlankHoldsNothing(lines[0], id);
    }
  }

  /**
   Whatever a file holds: it is refused exactly when some line of it is neither blank nor a number,
   and loads as the set of the numbers on its lines otherwise, the last line with or without its break.
   */
  lemma FileLoadsLines(lines: seq<string>, last: string, id: int64)
    requires AllUnbroken(lines) && Unbroken(last)
    ensures var ids := Contents(Some(TextOf(lines, last)));
            && (ids.None? <==> SomeDamaged(lines, last))
            && (ids.Some? ==> (id in ids.value <==> SomeHolds(lines, last, id)))
  {
    LinesLoad(TextOf(lines, last), 0, lines, last);
    AddLinesIs(lines, last, id);
  }

  /** Every text is made of lines. */
  lemma {:induction false} TextHasLines(text: string) returns (lines: seq<string>, last: string)
    ensures text == TextOf(lines, last) && AllUnbroken(lines) && Unbroken(last)
    decreases |text|
  {
    var e := Until(text, 0, Rune('\n'));
    UntilRune(text, 0, '\n');
    if e == |text| {
      lines, last := [], text;
      assert text[0..e] == text;
    } else {
      var rest;
      rest, last := TextHasLines(text[e + 1..]);
      lines := [text[0..e]] + rest;
      assert text == text[0..e] + ("\n" + text[e + 1..]);
      assert lines[1..] == rest;
    }
  }

  function Numbers(ids: seq<int64>): seq<string> {
    if ids == [] then [] else [FormatInt(ids[0])] + Numbers(ids[1..])
  }

  lemma {:induction false} RowsAreLines(ids: seq<int64>)
    ensures Rows(ids) == TextOf(Numbers(ids), "")
    decreases |ids|
  {
    if ids != [] {
      RowsAreLines(ids[1..]);
      assert Numbers(ids)[1..] == Numbers(ids[1..]);
      Regroup(FormatInt(ids[0]), "\n", Rows(ids[1..]));
    }
  }

  /** Every number of a set stands once, in decimal on a line of its own, and nothing else does. */
  ghost predicate Lists(data: string, ids: set<int64>) {
    exists order: seq<int64> :: |order| == |ids| && SetOf(order) == ids && data == TextOf(Numbers(order), "")
  }

  lemma RowsList(order: seq<int64>, ids: set<int64>)
    requires |order| == |ids| && SetOf(order) == ids
    ensures Contents(Some(Rows(order))) == Some(ids) && Lists(Rows(order), ids)
  {
    LoadUndoesPersist(order);
    RowsAreLines(order);
  }

  /** One row more, and one number less to go. */
  lemma OneRowMore(order: seq<int64>, id: int64, left: set<int64>, ids: set<int64>)
    requires id in left && left <= ids && SetOf(order) == ids - left && |order| + |left| == |ids|
    ensures SetOf(order + [id]) == ids - (left - {id}) && |order + [id]| + |left - {id}| == |ids|
    ensures Rows(order + [id]) == Rows(order) + Row(id)
  {
    RowsSnoc(order, id);
    SetOfSnoc(order, id);
  }

  // ---------- The disk ----------

  /** What a crash would leave on the disk. */
  datatype Frozen = Frozen(file: Option<string>, temp: Option<string>)

  /** Which steps of a persist fail; `written` bounds the bytes a failing write gets out. */
  datatype Faults = Faults(mkdir: bool, open: bool, written: Option<nat>, rename: bool, remove: bool) {
    predicate None() {
      !mkdir && !open && written.None? && !rename
    }
  }

  /** The disk went from one trail to another, and the file changed in the last step only, to hold `ids`. */
  ghost predicate OneSwitch(before: seq<Frozen>, after: seq<Frozen>, ids: set<int64>)
    requires before != []
  {
    && before <= after
    && (forall k | |before| <= k < |after| - 1 :: after[k].file == before[|before| - 1].file)
    && (after[|after| - 1].file == before[|before| - 1].file || Contents(after[|after| - 1].file) == Some(ids))
  }

  class Disk {
    var file: Option<string>
    var temp: Option<string>
    ghost var trail: seq<Frozen>   // every state since the beginning, the present one last

    ghost predicate Valid()
      reads this
    {
      trail != [] && trail[|trail| - 1] == Frozen(file, temp)
    }

    constructor (file: Option<string>, temp: Option<string>)
      ensures Valid() && this.file == file
    {
      this.file, this.temp := file, temp;
      trail := [Frozen(file, temp)];
    }

    method SetTemp(value: Option<string>)
      requires Valid()
      modifies this`temp, this`trail
      ensures Valid() && temp == value && trail == old(trail) + [Frozen(file, value)]
    {
      temp := value;
      trail := trail + [Frozen(file, temp)];
    }

    /** Truncates the temporary file and writes it byte by byte, as far as the fault allows. */
    method WriteTemp(data: string, faults: Faults) returns (ok: bool)
      requires Valid()
      modifies this`temp, this`trail
      ensures Valid() && ok == (!faults.open && faults.written.None?)
      ensures ok ==> temp == Some(data)
      ensures old(trail) <= trail
      ensures forall k | |old(trail)| <= k < |trail| :: trail[k].file == file
    {
      if faults.open {
        return false;
      }
      SetTemp(Some(""));
      var n := if faults.written.Some? && faults.written.value < |data| then faults.written.value else |data|;
      for i := 0 to n
        invariant Valid() && temp == Some(data[..i]) && old(trail) <= trail
        invariant forall k | |old(trail)| <= k < |trail| :: trail[k].file == file
      {
        SetTemp(Some(data[..i + 1]));
      }
      assert data[..|data|] == data;
      ok := faults.written.None?;
    }

    /** Renaming is one step: the file is the old one before it and the new one after it. */
    method Rename()
      requires Valid() && temp.Some?
      modifies this
      ensures Valid() && file == old(temp) && trail == old(trail) + [Frozen(old(temp), None)]
    {
      file, temp := temp, None;
      trail := trail + [Frozen(file, temp)];
    }
  }

  // ---------- The store ----------

  class Store {
    var subscribers: set<int64>
    const disk: Disk

    constructor (disk: Disk, subscribers: set<int64>)
      ensures this.disk == disk && this.subscribers == subscribers
    {
      this.disk, this.subscribers := disk, subscribers;
    }

    static method NextLineEnd(data: string, i: nat) returns (e: nat)
      requires i < |data|
      ensures e == Until(data, i, Rune('\n'))
      ensures i <= e <= |data| && LoadFrom(data, i) == AddLine(data[i..e], LoadAfter(data, e))
    {
      e := i;
      while e < |data| && data[e] != '\n'
        invariant i <= e <= |data|
        invariant Until(data, e, Rune('\n')) == Until(data, i, Rune('\n'))
      {
        e := e + 1;
      }
    }

    static method AddParsed(found: set<int64>, line: string, ghost rest: Option<set<int64>>)
      returns (more: Option<set<int64>>)
      ensures Joined(found, AddLine(line, rest)) == if more.None? then None else Joined(more.value, rest)
    {
      var trimmed := TrimSpace(line);
      if trimmed == "" {
        return Some(found);
      }
      var id := ParseInt(trimmed);
      if id.None? {
        return None;
      }
      NumberLineAdds(found, line, rest);
      return Some(found + {id.value});
    }

    static method LoadLine(data: string, i: nat, found: set<int64>) returns (next: nat, more: Option<set<int64>>)
      requires i < |data|
      ensures i < next <= |data|
      ensures Joined(found, LoadFrom(data, i)) == if more.None? then None else Joined(more.value, LoadFrom(data, next))
    {
      var e := NextLineEnd(data, i);
      more := AddParsed(found, data[i..e], LoadAfter(data, e));
      next := if e < |data| then e + 1 else e;
      AfterLine(data, e);
    }

    /** Loads the file line by line; fails on a line that is no number. */
    static method Load(data: string) returns (ids: Option<set<int64>>)
      ensures ids == LoadFrom(data, 0)
    {
      var found: set<int64> := {};
      var i := 0;
      JoinedEmpty(LoadFrom(data, 0));
      while i < |data|
        invariant 0 <= i <= |data|
        invariant LoadFrom(data, 0) == Joined(found, LoadFrom(data, i))
      {
        var next, more := LoadLine(data, i, found);
        if more.None? {
          return None;
        }
        i, found := next, more.value;
      }
      return Some(found);
    }

    /** Opens a store on a disk: nothing in memory but what the file holds. */
    static method New(disk: Disk) returns (store: Option<Store>)
      ensures store.None? <==> Contents(disk.file).None?
      ensures disk.file.None? ==> store.Some? && store.value.subscribers == {}
      ensures store.Some? ==> fresh(store.value) && store.value.disk == disk
                              && Contents(disk.file) == Some(store.value.subscribers)
    {
      var ids := Some({});
      if disk.file.Some? {
        ids := Load(disk.file.value);
      }
      if ids.None? {
        return None;
      }
      var s := new Store(disk, ids.value);
      return Some(s);
    }

    /** The rows of the subscribers, in any order. */
    method Format() returns (data: string)
      ensures Contents(Some(data)) == Some(subscribers) && Lists(data, subscribers)
    {
      var left := subscribers;
      ghost var order: seq<int64> := [];
      data := "";
      while left != {}
        invariant left <= subscribers && SetOf(order) == subscribers - left
        invariant data == Rows(order) && |order| + |left| == |subscribers|
      {
        var id :| id in left;
        OneRowMore(order, id, left, subscribers);
        data := data + Row(id);
        order := order + [id];
        left := left - {id};
      }
      RowsList(order, subscribers);
    }

    /**
     Writes the subscribers to the disk. In every state the disk passes through, the file is the
     old one or holds the whole new set; on failure it stays the old one.
     */
    method Persist(faults: Faults) returns (ok: bool)
      requires disk.Valid()
      modifies disk
      ensures disk.Valid() && ok == faults.None()
      ensures if ok then Contents(disk.file) == Some(subscribers) else disk.file == old(disk.file)
      ensures OneSwitch(old(disk.trail), disk.trail, subscribers)
      ensures ok ==> disk.file.Some? && Lists(disk.file.value, subscribers)
      ensures ok || (!faults.mkdir && !faults.open && faults.written.None? && !faults.remove) ==> disk.temp == None
    {
      var data := Format();
      if faults.mkdir {
        return false;
      }
      var written := disk.WriteTemp(data, faults);
      if !written {
        return false;
      }
      if faults.rename {
        if !faults.remove {
          disk.SetTemp(None);
        }
        return false;
      }
      disk.Rename();
      ok := true;
    }

    method Add(id: int64, faults: Faults) returns (ok: bool)
      requires disk.Valid()
      modifies this, disk
      ensures subscribers == old(subscribers) + {id}
      ensures disk.Valid() && ok == faults.None()
      ensures if ok then Contents(disk.file) == Some(subscribers) else disk.file == old(disk.file)
      ensures OneSwitch(old(disk.trail), disk.trail, subscribers)
    {
      subscribers := subscribers + {id};
      ok := Persist(faults);
    }

    method Remove(id: int64, faults: Faults) returns (ok: bool)
      requires disk.Valid()
      modifies this, disk
      ensures subscribers == old(subscribers) - {id}
      ensures disk.Valid() && ok == faults.None()
      ensures if ok then Contents(disk.file) == Some(subscribers) else disk.file == old(disk.file)
      ensures OneSwitch(old(disk.trail), disk.trail, subscribers)
    {
      subscribers := subscribers - {id};
      ok := Persist(faults);
    }

    /** A snapshot of the subscribers, each once, in any order. */
    method All() returns (ids: seq<int64>)
      ensures |ids| == |subscribers|
      ensures forall id :: id in ids <==> id in subscribers
      ensures forall i, j | 0 <= i < j < |ids| :: ids[i] != ids[j]
    {
      var left := subscribers;
      ids := [];
      while left != {}
        invariant left <= subscribers && SetOf(ids) == subscribers - left
        invariant |ids| + |left| == |subscribers|
        invariant forall i | 0 <= i < |ids| :: ids[i] !in left
        invariant forall i, j | 0 <= i < j < |ids| :: ids[i] != ids[j]
      {
        var id :| id in left;
        SetOfSnoc(ids, id);
        ids := ids + [id];
        left := left - {id};
      }
      assert SetOf(ids) == subscribers;
      assert forall id :: id in ids <==> id in SetOf(ids);
    }
  }
}
