/**
 DiffRanges of internal/api/sheets_ops.go (lines 170-222) and its helper indexByKey (lines 361-372). A
 cell is the text that `%v` prints for it.
 */
module SheetDiff {
  import opened Text
  import opened Sheet

  datatype Key = Key(text: string)

  type Table = map<Key, Row>

  // ---------------------------------------------------------------- the index

  predicate HasKey(row: Row) { row != [] && CellStr(row, 0) != "" }

  function KeyOf(row: Row): Key { Key(CellStr(row, 0)) }

  function Index(rows: seq<Row>): Table {
    if rows == [] then map[]
    else
      var last := rows[|rows| - 1];
      var before := Index(rows[..|rows| - 1]);
      if HasKey(last) then before[KeyOf(last) := last] else before
  }

  method IndexByKey(rows: seq<Row>) returns (m: Table)
    ensures m == Index(rows)
  {
    hide TrimSpace;
    m := map[];
    for i := 0 to |rows|
      invariant m == Index(rows[..i])
    {
      var row := rows[i];
      assert rows[..i + 1][..i] == rows[..i];
      if |row| > 0 {
        var key := TrimSpace(row[0].text);
        if key != "" {
          m := m[Key(key) := row];
        }
      }
    }
    assert rows[..|rows|] == rows;
  }

  /** Row `i` is the last one with the key. */
  predicate LastWith(rows: seq<Row>, i: nat, key: Key) {
    && i < |rows| && IsUnder(rows[i], key)
    && forall j :: i < j < |rows| ==> !IsUnder(rows[j], key)
  }

  /** The row has this text, trimmed and not empty, in its first cell. */
  predicate IsUnder(row: Row, key: Key) {
    row != [] && key.text != "" && TrimSpace(row[0].text) == key.text
  }

  lemma UnderKey(row: Row, key: Key)
    ensures IsUnder(row, key) <==> HasKey(row) && KeyOf(row) == key
  {}

  /** The index holds, under each key that occurs, the last row with it. */
  lemma {:induction false} IndexIsLast(rows: seq<Row>, key: Key)
    ensures key in Index(rows) <==> exists i: nat :: LastWith(rows, i, key)
    ensures forall i: nat :: LastWith(rows, i, key) ==> key in Index(rows) && Index(rows)[key] == rows[i]
  {
    hide TrimSpace, CellStr, HasKey, KeyOf, IsUnder;
    if rows != [] {
      var n: nat := |rows| - 1;
      var before := rows[..n];
      IndexIsLast(before, key);
      UnderKey(rows[n], key);
      if IsUnder(rows[n], key) {
        assert LastWith(rows, n, key);
        forall i: nat | LastWith(rows, i, key) ensures i == n {}
      } else {
        forall i: nat ensures LastWith(rows, i, key) <==> LastWith(before, i, key) {
          if LastWith(before, i, key) {
            assert forall j :: 0 <= j < n ==> rows[j] == before[j];
          }
        }
      }
    }
  }

  /** Every row of an index is filed under its own key. */
  ghost predicate Indexed(t: Table) {
    forall key :: key in t ==> HasKey(t[key]) && KeyOf(t[key]) == key
  }

  lemma {:induction false} IndexIsIndexed(rows: seq<Row>)
    ensures Indexed(Index(rows))
  {
    hide TrimSpace, CellStr;
    if rows != [] {
      IndexIsIndexed(rows[..|rows| - 1]);
    }
  }

  // ---------------------------------------------------------------- rows that differ

  datatype CellChange = CellChange(column: string, from: string, to: string)

  function ColumnName(headers: Row, i: nat): string {
    if i < |headers| then headers[i].text else ""
  }

  function Width(a: Row, b: Row): nat {
    if |b| > |a| then |b| else |a|
  }

  predicate CellDiffers(a: Row, b: Row, i: nat) { CellStr(a, i) != CellStr(b, i) }

  function ChangeAt(headers: Row, a: Row, b: Row, i: nat): CellChange {
    CellChange(ColumnName(headers, i), CellStr(a, i), CellStr(b, i))
  }

  /** The differing cells of columns 1 up to `n`, in column order. */
  function CellChanges(headers: Row, a: Row, b: Row, n: nat): seq<CellChange> {
    if n <= 1 then []
    else CellChanges(headers, a, b, n - 1) + if CellDiffers(a, b, n - 1) then [ChangeAt(headers, a, b, n - 1)] else []
  }

  method CompareRows(headers: Row, a: Row, b: Row) returns (cells: seq<CellChange>)
    requires a != []
    ensures cells == CellChanges(headers, a, b, Width(a, b))
  {
    hide CellStr, ColumnName;
    cells := [];
    var maxLen := |a|;
    if |b| > maxLen {
      maxLen := |b|;
    }
    for i := 1 to maxLen
      invariant cells == CellChanges(headers, a, b, i)
    {
      var valA, valB := CellStr(a, i), CellStr(b, i);
      if valA != valB {
        cells := cells + [CellChange(ColumnName(headers, i), valA, valB)];
      }
    }
  }

  /** A change tells a column by its header, if it has one, and the trimmed texts before and after. */
  lemma ChangeTellsCells(headers: Row, a: Row, b: Row, i: nat)
    requires i < |a| && i < |b|
    ensures var c := ChangeAt(headers, a, b, i);
            && (i < |headers| ==> c.column == headers[i].text) && (i >= |headers| ==> c.column == "")
            && c.from == TrimSpace(a[i].text) && c.to == TrimSpace(b[i].text)
  {}

  /** Two rows agree behind the key column. */
  ghost predicate SameCells(a: Row, b: Row) {
    forall i: nat :: i >= 1 ==> !CellDiffers(a, b, i)
  }

  lemma BeyondBoth(a: Row, b: Row, i: nat)
    requires i >= Width(a, b)
    ensures !CellDiffers(a, b, i)
  {}

  /** A change is listed exactly for the columns that differ. */
  lemma {:induction false} ListedIffDiffers(headers: Row, a: Row, b: Row, n: nat)
    ensures forall i: nat :: 1 <= i < n && CellDiffers(a, b, i) ==>
              ChangeAt(headers, a, b, i) in CellChanges(headers, a, b, n)
    ensures forall c :: c in CellChanges(headers, a, b, n) ==>
              exists i: nat :: 1 <= i < n && CellDiffers(a, b, i) && c == ChangeAt(headers, a, b, i)
  {
    hide ChangeAt, CellDiffers;
    if n > 1 {
      ListedIffDiffers(headers, a, b, n - 1);
    }
  }

  lemma NoChangesIffSame(headers: Row, a: Row, b: Row)
    ensures CellChanges(headers, a, b, Width(a, b)) == [] <==> SameCells(a, b)
  {
    hide CellDiffers, ChangeAt;
    var cells := CellChanges(headers, a, b, Width(a, b));
    ListedIffDiffers(headers, a, b, Width(a, b));
    if cells != [] {
      assert cells[0] in cells;
    } else {
      forall i: nat | i >= 1 ensures !CellDiffers(a, b, i) {
        if i >= Width(a, b) {
          BeyondBoth(a, b, i);
        }
      }
    }
  }

  // ---------------------------------------------------------------- the diff

  datatype Change =
    | Removed(key: Key, rowA: Row)
    | Modified(key: Key, rowA: Row, rowB: Row, cells: seq<CellChange>)
    | Added(key: Key, rowB: Row)

  datatype Diff = Diff(changes: seq<Change>, added: nat, removed: nat, modified: nat)

  datatype DiffError = NoHeaders

  predicate KeyDiffers(a: Table, b: Table, key: Key) {
    if key in a && key in b then CellChanges([], a[key], b[key], Width(a[key], b[key])) != []
    else key in a || key in b
  }

  /** The change says what happened to its key. */
  predicate Right(headers: Row, a: Table, b: Table, c: Change) {
    match c
    case Removed(key, rowA) => key in a && key !in b && rowA == a[key]
    case Added(key, rowB) => key !in a && key in b && rowB == b[key]
    case Modified(key, rowA, rowB, cells) =>
      && key in a && key in b && rowA == a[key] && rowB == b[key]
      && cells == CellChanges(headers, rowA, rowB, Width(rowA, rowB)) && cells != []
  }

  predicate Concerns(changes: seq<Change>, i: nat, key: Key) { i < |changes| && changes[i].key == key }

  predicate DistinctKeys(changes: seq<Change>) {
    forall i, j :: 0 <= i < j < |changes| ==> changes[i].key != changes[j].key
  }

  /** The changes are right, one to a key, and complete for the keys that were looked at. */
  ghost predicate Collected(headers: Row, a: Table, b: Table, changes: seq<Change>, done: set<Key>) {
    && DistinctKeys(changes)
    && (forall c :: c in changes ==> c.key in done && Right(headers, a, b, c))
    && (forall key :: key in done && KeyDiffers(a, b, key) ==> exists i: nat :: Concerns(changes, i, key))
  }

  ghost predicate IsDiff(headers: Row, a: Table, b: Table, changes: seq<Change>) {
    Collected(headers, a, b, changes, a.Keys + b.Keys)
  }

  /** The column names have no part in whether two rows differ. */
  lemma {:induction false} HeadersDoNotMatter(h: Row, h': Row, a: Row, b: Row, n: nat)
    ensures var cs, cs' := CellChanges(h, a, b, n), CellChanges(h', a, b, n);
            |cs| == |cs'| && forall i :: 0 <= i < |cs| ==> cs[i].from == cs'[i].from && cs[i].to == cs'[i].to
  {
    hide CellStr, ColumnName;
    if n > 1 {
      HeadersDoNotMatter(h, h', a, b, n - 1);
    }
  }

  lemma CollectedChange(headers: Row, a: Table, b: Table, changes: seq<Change>, done: set<Key>, c: Change)
    requires Collected(headers, a, b, changes, done) && c.key !in done && Right(headers, a, b, c)
    ensures Collected(headers, a, b, changes + [c], done + {c.key})
  {
    hide Right, KeyDiffers;
    var more := changes + [c];
    forall key | key in done + {c.key} && KeyDiffers(a, b, key) ensures exists i: nat :: Concerns(more, i, key) {
      if key == c.key {
        assert Concerns(more, |changes|, key);
      } else {
        var i: nat :| Concerns(changes, i, key);
        assert Concerns(more, i, key);
      }
    }
    forall i, j | 0 <= i < j < |more| ensures more[i].key != more[j].key {
      assert changes[i] in changes;
    }
  }

  lemma CollectedSame(headers: Row, a: Table, b: Table, changes: seq<Change>, done: set<Key>, key: Key)
    requires Collected(headers, a, b, changes, done) && !KeyDiffers(a, b, key)
    ensures Collected(headers, a, b, changes, done + {key})
  {
    hide Right, KeyDiffers;
  }

  datatype Kind = Gone | Edited | New

  function KindOf(c: Change): Kind {
    match c
    case Removed(_, _) => Gone
    case Modified(_, _, _, _) => Edited
    case Added(_, _) => New
  }

  function Count(changes: seq<Change>, kind: Kind): nat {
    if changes == [] then 0
    else Count(changes[..|changes| - 1], kind) + if KindOf(changes[|changes| - 1]) == kind then 1 else 0
  }

  lemma CountOneMore(changes: seq<Change>, c: Change, kind: Kind)
    ensures Count(changes + [c], kind) == Count(changes, kind) + if KindOf(c) == kind then 1 else 0
  {
    assert (changes + [c])[..|changes|] == changes;
  }

  /** The counters of a result count its changes by kind. */
  predicate Counted(d: Diff) {
    d.removed == Count(d.changes, Gone) && d.modified == Count(d.changes, Edited) && d.added == Count(d.changes, New)
  }

  predicate NoneAdded(changes: seq<Change>) { forall c :: c in changes ==> !c.Added? }

  /** The additions come behind all other changes. */
  predicate AddedLast(changes: seq<Change>) {
    forall i, j :: 0 <= i < j < |changes| && changes[i].Added? ==> changes[j].Added?
  }

  /** One round of the loop over the first table. */
  method CompareKey(headers: Row, a: Table, b: Table, d: Diff, ghost done: set<Key>, key: Key) returns (d': Diff)
    requires Collected(headers, a, b, d.changes, done) && Counted(d) && Indexed(a) && key in a && key !in done
    ensures Collected(headers, a, b, d'.changes, done + {key}) && Counted(d')
    ensures NoneAdded(d.changes) ==> NoneAdded(d'.changes)
  {
    hide CellStr, Collected, KeyDiffers, Right, Count, Width, CellChanges;
    d' := d;
    var rowA := a[key];
    if key !in b {
      var c := Removed(key, rowA);
      GoneIsRight(headers, a, b, key);
      CollectedChange(headers, a, b, d.changes, done, c);
      CountsOneMore(d.changes, c);
      d' := d.(changes := d.changes + [c], removed := d.removed + 1);
    } else {
      var rowB := b[key];
      var cells := CompareRows(headers, rowA, rowB);
      EditIsRight(headers, a, b, key);
      if |cells| > 0 {
        var c := Modified(key, rowA, rowB, cells);
        CollectedChange(headers, a, b, d.changes, done, c);
        CountsOneMore(d.changes, c);
        d' := d.(changes := d.changes + [c], modified := d.modified + 1);
      } else {
        CollectedSame(headers, a, b, d.changes, done, key);
      }
    }
  }

  lemma CountsOneMore(changes: seq<Change>, c: Change)
    ensures forall kind :: Count(changes + [c], kind) == Count(changes, kind) + if KindOf(c) == kind then 1 else 0
  {
    forall kind ensures Count(changes + [c], kind) == Count(changes, kind) + if KindOf(c) == kind then 1 else 0 {
      CountOneMore(changes, c, kind);
    }
  }

  lemma GoneIsRight(headers: Row, a: Table, b: Table, key: Key)
    ensures key in a && key !in b ==> Right(headers, a, b, Removed(key, a[key]))
    ensures key !in a && key in b ==> Right(headers, a, b, Added(key, b[key]))
  {}

  lemma EditIsRight(headers: Row, a: Table, b: Table, key: Key)
    requires key in a && key in b
    ensures var cells := CellChanges(headers, a[key], b[key], Width(a[key], b[key]));
            if cells != [] then Right(headers, a, b, Modified(key, a[key], b[key], cells)) else !KeyDiffers(a, b, key)
  {
    HeadersDoNotMatter(headers, [], a[key], b[key], Width(a[key], b[key]));
  }

  /** The maps are walked in any order. */
  method DiffRanges(rangeA: seq<Row>, rangeB: seq<Row>) returns (r: Result<Diff, DiffError>)
    ensures r.Err? <==> rangeA == [] || rangeB == []
    ensures r.Ok? ==> IsDiff(rangeA[0], Index(rangeA[1..]), Index(rangeB[1..]), r.value.changes) && Counted(r.value)
    ensures r.Ok? ==> AddedLast(r.value.changes)
  {
    hide CellStr, KeyDiffers, Right, Count, Width, CellChanges, Index, Collected;
    if |rangeA| < 1 || |rangeB| < 1 {
      return Err(NoHeaders);
    }
    var headers := rangeA[0];
    var a := IndexByKey(rangeA[1..]);
    var b := IndexByKey(rangeB[1..]);
    IndexIsIndexed(rangeA[1..]);
    var d := Diff([], 0, 0, 0);
    NothingYet(headers, a, b);
    var pending := a.Keys;
    assert a.Keys - pending == {};
    while pending != {}
      invariant pending <= a.Keys && Counted(d) && NoneAdded(d.changes)
      invariant Collected(headers, a, b, d.changes, a.Keys - pending)
      decreases pending
    {
      var key :| key in pending;
      d := CompareKey(headers, a, b, d, a.Keys - pending, key);
      assert a.Keys - (pending - {key}) == a.Keys - pending + {key};
      pending := pending - {key};
    }
    pending := b.Keys;
    assert a.Keys + (b.Keys - pending) == a.Keys - {};
    while pending != {}
      invariant pending <= b.Keys && Counted(d) && AddedLast(d.changes)
      invariant Collected(headers, a, b, d.changes, a.Keys + (b.Keys - pending))
      decreases pending
    {
      var key :| key in pending;
      ghost var done := a.Keys + (b.Keys - pending);
      assert a.Keys + (b.Keys - (pending - {key})) == done + {key};
      if key !in a {
        var c := Added(key, b[key]);
        GoneIsRight(headers, a, b, key);
        CollectedChange(headers, a, b, d.changes, done, c);
        CountsOneMore(d.changes, c);
        d := d.(changes := d.changes + [c], added := d.added + 1);
      } else {
        assert done + {key} == done;
      }
      pending := pending - {key};
    }
    assert a.Keys + (b.Keys - {}) == a.Keys + b.Keys;
    r := Ok(d);
  }

  lemma NothingYet(headers: Row, a: Table, b: Table)
    ensures Counted(Diff([], 0, 0, 0)) && Collected(headers, a, b, [], {})
  {}

  // ---------------------------------------------------------------- the diff is a patch

  function Apply(t: Table, c: Change): Table {
    match c
    case Removed(key, _) => t - {key}
    case Modified(key, _, rowB, _) => t[key := rowB]
    case Added(key, rowB) => t[key := rowB]
  }

  function Patch(t: Table, changes: seq<Change>): Table {
    if changes == [] then t else Apply(Patch(t, changes[..|changes| - 1]), changes[|changes| - 1])
  }

  /** Two tables have the same keys and the same trimmed cells. */
  ghost predicate SameTable(t: Table, u: Table) {
    && t.Keys == u.Keys
    && forall key, i: nat :: key in t ==> CellStr(t[key], i) == CellStr(u[key], i)
  }

  /** A change decides its key, whatever other keys the changes touch. */
  lemma {:induction false} PatchAt(t: Table, changes: seq<Change>, i: nat)
    requires DistinctKeys(changes) && i < |changes|
    ensures var key := changes[i].key; var u := Patch(t, changes);
            && (key in u <==> !changes[i].Removed?)
            && (key in u ==> u[key] == changes[i].rowB)
  {
    var n := |changes| - 1;
    if i < n {
      PatchAt(t, changes[..n], i);
    }
  }

  lemma {:induction false} PatchElsewhere(t: Table, changes: seq<Change>, key: Key)
    requires forall i: nat :: !Concerns(changes, i, key)
    ensures var u := Patch(t, changes); (key in u <==> key in t) && (key in u ==> u[key] == t[key])
  {
    if changes != [] {
      var n := |changes| - 1;
      forall i: nat ensures !Concerns(changes[..n], i, key) {
        assert !Concerns(changes, i, key);
      }
      PatchElsewhere(t, changes[..n], key);
      assert !Concerns(changes, n, key);
    }
  }

  lemma UnchangedKey(a: Table, b: Table, key: Key)
    requires Indexed(a) && Indexed(b) && !KeyDiffers(a, b, key)
    ensures key in a <==> key in b
    ensures forall i: nat :: key in a ==> CellStr(a[key], i) == CellStr(b[key], i)
  {
    hide CellStr;
    if key in a {
      NoChangesIffSame([], a[key], b[key]);
      forall i: nat ensures CellStr(a[key], i) == CellStr(b[key], i) {
        if i >= 1 {
          assert !CellDiffers(a[key], b[key], i);
        }
      }
    }
  }

  lemma PatchedKey(headers: Row, a: Table, b: Table, changes: seq<Change>, key: Key)
    requires IsDiff(headers, a, b, changes) && Indexed(a) && Indexed(b)
    ensures var u := Patch(a, changes);
            (key in u <==> key in b) && forall i: nat :: key in u ==> CellStr(u[key], i) == CellStr(b[key], i)
  {
    hide CellStr, Patch, Indexed, KeyDiffers;
    if i: nat :| Concerns(changes, i, key) {
      assert changes[i] in changes;
      PatchAt(a, changes, i);
    } else {
      PatchElsewhere(a, changes, key);
      if KeyDiffers(a, b, key) {
        KeyDiffersSomewhere(a, b, key);
        assert false;
      } else {
        UnchangedKey(a, b, key);
      }
    }
  }

  lemma KeyDiffersSomewhere(a: Table, b: Table, key: Key)
    requires KeyDiffers(a, b, key)
    ensures key in a.Keys + b.Keys
  {}

  /** Applying the changes to the first table gives the second one, on every trimmed cell. */
  lemma DiffIsAPatch(headers: Row, a: Table, b: Table, changes: seq<Change>)
    requires IsDiff(headers, a, b, changes) && Indexed(a) && Indexed(b)
    ensures SameTable(Patch(a, changes), b)
  {
    hide CellStr, Patch, Indexed, IsDiff;
    var u := Patch(a, changes);
    forall key
      ensures (key in u <==> key in b) && forall i: nat :: key in u ==> CellStr(u[key], i) == CellStr(b[key], i)
    {
      PatchedKey(headers, a, b, changes, key);
    }
  }

  // ---------------------------------------------------------------- the counters

  function KeysOf(changes: seq<Change>, kind: Kind): (r: set<Key>)
    ensures forall key :: key in r ==> exists c :: c in changes && c.key == key && KindOf(c) == kind
    ensures forall c :: c in changes && KindOf(c) == kind ==> c.key in r
  {
    if changes == [] then {}
    else
      var last := changes[|changes| - 1];
      KeysOf(changes[..|changes| - 1], kind) + if KindOf(last) == kind then {last.key} else {}
  }

  lemma LastKeyIsNew(changes: seq<Change>, kind: Kind)
    requires DistinctKeys(changes) && changes != []
    ensures changes[|changes| - 1].key !in KeysOf(changes[..|changes| - 1], kind)
  {
    hide KeysOf;
  }

  lemma {:induction false} CountIsKeys(changes: seq<Change>, kind: Kind)
    requires DistinctKeys(changes)
    ensures Count(changes, kind) == |KeysOf(changes, kind)|
  {
    if changes != [] {
      CountIsKeys(changes[..|changes| - 1], kind);
      LastKeyIsNew(changes, kind);
    }
  }

  ghost predicate Edit(a: Table, b: Table, key: Key) { key in a && key in b && !SameCells(a[key], b[key]) }

  ghost function EditedKeys(a: Table, b: Table): set<Key> {
    set key | key in a.Keys && Edit(a, b, key)
  }

  lemma ConcernsIsMember(headers: Row, a: Table, b: Table, changes: seq<Change>, key: Key) returns (c: Change)
    requires IsDiff(headers, a, b, changes) && KeyDiffers(a, b, key)
    ensures c in changes && c.key == key && Right(headers, a, b, c)
  {
    hide Right;
    KeyDiffersSomewhere(a, b, key);
    var i: nat :| Concerns(changes, i, key);
    c := changes[i];
  }

  lemma EditedIffDiffers(a: Table, b: Table, key: Key)
    requires key in a && key in b
    ensures KeyDiffers(a, b, key) <==> Edit(a, b, key)
  {
    hide CellChanges, Width, SameCells;
    NoChangesIffSame([], a[key], b[key]);
  }

  /** A right change is of the kind its key calls for. */
  lemma RightKind(headers: Row, a: Table, b: Table, c: Change)
    requires Right(headers, a, b, c)
    ensures KindOf(c) == Gone <==> c.key in a.Keys - b.Keys
    ensures KindOf(c) == New <==> c.key in b.Keys - a.Keys
    ensures KindOf(c) == Edited <==> c.key in EditedKeys(a, b)
  {
    if c.Modified? {
      NoChangesIffSame(headers, c.rowA, c.rowB);
    }
  }

  /** The keys a kind of change is about, in terms of the two tables alone. */
  ghost function Expected(a: Table, b: Table, kind: Kind): set<Key> {
    match kind
    case Gone => a.Keys - b.Keys
    case New => b.Keys - a.Keys
    case Edited => EditedKeys(a, b)
  }

  lemma KeysAreExpected(headers: Row, a: Table, b: Table, changes: seq<Change>, kind: Kind)
    requires IsDiff(headers, a, b, changes)
    ensures KeysOf(changes, kind) == Expected(a, b, kind)
  {
    hide Right, KeysOf, SameCells, CellChanges;
    forall key | key in KeysOf(changes, kind) ensures key in Expected(a, b, kind) {
      var c :| c in changes && c.key == key && KindOf(c) == kind;
      RightKind(headers, a, b, c);
    }
    forall key | key in Expected(a, b, kind) ensures key in KeysOf(changes, kind) {
      if kind == Edited {
        EditedIffDiffers(a, b, key);
      }
      var c := ConcernsIsMember(headers, a, b, changes, key);
      RightKind(headers, a, b, c);
    }
  }

  /** The counters are the numbers of keys that went, came and stayed with other cells. */
  lemma CountersAreExact(headers: Row, a: Table, b: Table, d: Diff)
    requires IsDiff(headers, a, b, d.changes) && Counted(d)
    ensures d.removed == |a.Keys - b.Keys| && d.added == |b.Keys - a.Keys| && d.modified == |EditedKeys(a, b)|
  {
    hide KeysOf, Count, EditedKeys;
    forall kind ensures Count(d.changes, kind) == |Expected(a, b, kind)| {
      CountIsKeys(d.changes, kind);
      KeysAreExpected(headers, a, b, d.changes, kind);
    }
    assert Expected(a, b, Gone) == a.Keys - b.Keys && Expected(a, b, New) == b.Keys - a.Keys;
    assert Expected(a, b, Edited) == EditedKeys(a, b);
  }

  /** The number of keys is conserved. */
  lemma SizesBalance(headers: Row, a: Table, b: Table, d: Diff)
    requires IsDiff(headers, a, b, d.changes) && Counted(d)
    ensures |b.Keys| == |a.Keys| - d.removed + d.added
  {
    hide IsDiff, Counted, EditedKeys;
    CountersAreExact(headers, a, b, d);
    DifferencesBalance(a.Keys, b.Keys);
  }

  lemma DifferencesBalance<T>(s: set<T>, t: set<T>)
    ensures |t| == |s| - |s - t| + |t - s|
  {
    assert s == s * t + (s - t) && t == s * t + (t - s);
  }

  // ---------------------------------------------------------------- swapping the ranges

  predicate MirrorCells(cs: seq<CellChange>, ds: seq<CellChange>) {
    |cs| == |ds| && forall i :: 0 <= i < |cs| ==> cs[i].from == ds[i].to && cs[i].to == ds[i].from
  }

  /** The one change undoes the other. */
  predicate Mirror(c: Change, d: Change) {
    match c
    case Removed(key, rowA) => d == Added(key, rowA)
    case Added(key, rowB) => d == Removed(key, rowB)
    case Modified(key, rowA, rowB, cells) =>
      d.Modified? && d.key == key && d.rowA == rowB && d.rowB == rowA && MirrorCells(cells, d.cells)
  }

  lemma {:induction false} MirroredCells(h: Row, h': Row, a: Row, b: Row, n: nat)
    ensures MirrorCells(CellChanges(h, a, b, n), CellChanges(h', b, a, n))
  {
    hide CellStr, ColumnName;
    if n > 1 {
      MirroredCells(h, h', a, b, n - 1);
    }
  }

  lemma WidthBothWays(a: Row, b: Row)
    ensures Width(a, b) == Width(b, a)
    ensures SameCells(a, b) <==> SameCells(b, a)
  {
    hide CellStr;
    assert forall i: nat :: CellDiffers(a, b, i) <==> CellDiffers(b, a, i);
  }

  /** Swapping the ranges swaps added with removed and From with To: each change undoes one of the other result. */
  lemma SwapMirrors(h: Row, h': Row, a: Table, b: Table, d: Diff, e: Diff)
    requires IsDiff(h, a, b, d.changes) && Counted(d) && IsDiff(h', b, a, e.changes) && Counted(e)
    ensures d.added == e.removed && d.removed == e.added && d.modified == e.modified
    ensures forall c :: c in d.changes ==> exists c' :: c' in e.changes && Mirror(c, c')
  {
    hide Right, Count, Mirror, KeyDiffers, SameCells, CellChanges, Width;
    CountersAreExact(h, a, b, d);
    CountersAreExact(h', b, a, e);
    assert EditedKeys(a, b) == EditedKeys(b, a) by {
      forall key | key in a && key in b ensures SameCells(a[key], b[key]) <==> SameCells(b[key], a[key]) {
        WidthBothWays(a[key], b[key]);
      }
    }
    forall c | c in d.changes ensures exists c' :: c' in e.changes && Mirror(c, c') {
      RightDiffersBack(h, a, b, c);
      var c' := ConcernsIsMember(h', b, a, e.changes, c.key);
      RightMirrors(h, h', a, b, c, c');
    }
  }

  lemma RightDiffersBack(h: Row, a: Table, b: Table, c: Change)
    requires Right(h, a, b, c)
    ensures KeyDiffers(b, a, c.key)
  {
    if c.Modified? {
      NoChangesIffSame(h, c.rowA, c.rowB);
      WidthBothWays(c.rowA, c.rowB);
      NoChangesIffSame([], c.rowB, c.rowA);
    }
  }

  lemma RightMirrors(h: Row, h': Row, a: Table, b: Table, c: Change, c': Change)
    requires Right(h, a, b, c) && Right(h', b, a, c') && c.key == c'.key
    ensures Mirror(c, c')
  {
    if c.Modified? {
      WidthBothWays(c.rowA, c.rowB);
      MirroredCells(h, h', c.rowA, c.rowB, Width(c.rowA, c.rowB));
    }
  }

  // ---------------------------------------------------------------- rows from their changes alone

  /** The column names of columns 1 up to `n` tell the columns apart. */
  predicate NamesApart(headers: Row, n: nat) {
    forall i: nat, j: nat :: 1 <= i < j < n ==> ColumnName(headers, i) != ColumnName(headers, j)
  }

  function FindColumn(cells: seq<CellChange>, column: string): (r: Option<CellChange>)
    ensures r.Some? ==> r.value in cells && r.value.column == column
    ensures r.None? ==> forall c :: c in cells ==> c.column != column
  {
    if cells == [] then None
    else if cells[0].column == column then Some(cells[0]) else FindColumn(cells[1..], column)
  }

  /** A cell as the changes to its row tell it. */
  function Rebuilt(headers: Row, a: Row, cells: seq<CellChange>, i: nat): string {
    var c := FindColumn(cells, ColumnName(headers, i));
    if c.Some? then c.value.to else CellStr(a, i)
  }

  lemma {:induction false} NothingBeyond(headers: Row, a: Row, b: Row, n: nat)
    requires n >= Width(a, b)
    ensures CellChanges(headers, a, b, n) == CellChanges(headers, a, b, Width(a, b))
  {
    hide CellStr, ColumnName, ChangeAt;
    if n > Width(a, b) {
      BeyondBoth(a, b, n - 1);
      NothingBeyond(headers, a, b, n - 1);
    }
  }

  lemma CellsRebuildRow(headers: Row, a: Row, b: Row, n: nat, i: nat)
    requires NamesApart(headers, n) && Width(a, b) <= n && 1 <= i < n
    ensures Rebuilt(headers, a, CellChanges(headers, a, b, Width(a, b)), i) == CellStr(b, i)
  {
    hide CellStr, ColumnName, Width;
    NothingBeyond(headers, a, b, n);
    var cells := CellChanges(headers, a, b, n);
    ListedIffDiffers(headers, a, b, n);
    var c := FindColumn(cells, ColumnName(headers, i));
    if c.Some? {
      var j: nat :| 1 <= j < n && CellDiffers(a, b, j) && c.value == ChangeAt(headers, a, b, j);
      assert ColumnName(headers, i) == ColumnName(headers, j);
      assert i == j;
    } else {
      assert CellDiffers(a, b, i) ==> ChangeAt(headers, a, b, i) in cells;
    }
  }

  predicate Fits(row: Row, n: nat) { |row| <= n }

  /** The old row and the changed cells of a modification, as DiffRanges reports them. */
  predicate SameReport(headers: Row, a: Row, b: Row, b': Row) {
    CellChanges(headers, a, b, Width(a, b)) == CellChanges(headers, a, b', Width(a, b'))
  }

  /** In rows of at most `n` cells, the old row and the changed cells tell the new row up to trimming. */
  ghost predicate CellsTellRow(headers: Row, n: nat) {
    forall a: Row, b: Row, b': Row ::
      Fits(a, n) && Fits(b, n) && Fits(b', n) && SameReport(headers, a, b, b') ==> SameCells(b, b')
  }

  lemma {:induction false} OneCellChanged(headers: Row, a: Row, b: Row, i: nat, n: nat)
    requires 1 <= i && forall j: nat :: j != i ==> !CellDiffers(a, b, j)
    requires CellDiffers(a, b, i)
    ensures CellChanges(headers, a, b, n) == if i < n then [ChangeAt(headers, a, b, i)] else []
  {
    hide CellDiffers, ChangeAt;
    if n > 1 {
      OneCellChanged(headers, a, b, i, n - 1);
    }
  }

  /** An empty row of `n` cells with one `x` in it. */
  function Dotted(n: nat, i: nat): Row
    requires i < n
  {
    seq(n, j => Cell(""))[i := Cell("x")]
  }

  lemma DottedCells(n: nat, i: nat, j: nat)
    requires i < n
    ensures CellStr(Dotted(n, i), j) == if j == i then "x" else ""
    ensures CellStr(seq(n, j => Cell("")), j) == ""
  {}

  lemma SharedNameHides(headers: Row, n: nat, i: nat, j: nat)
    requires 1 <= i < j < n && ColumnName(headers, i) == ColumnName(headers, j)
    ensures !CellsTellRow(headers, n)
  {
    hide CellStr, Dotted, CellChanges, ColumnName;
    var a: Row, b, b' := seq(n, j => Cell("")), Dotted(n, i), Dotted(n, j);
    forall k: nat ensures CellStr(a, k) == "" && CellStr(b, k) == (if k == i then "x" else "")
                          && CellStr(b', k) == if k == j then "x" else "" {
      DottedCells(n, i, k);
      DottedCells(n, j, k);
    }
    OneCellChanged(headers, a, b, i, n);
    OneCellChanged(headers, a, b', j, n);
    assert CellDiffers(b, b', i);
    DottedFits(n, i);
    DottedFits(n, j);
    assert Fits(a, n) && Width(a, b) == n == Width(a, b');
    assert SameReport(headers, a, b, b') && !SameCells(b, b');
  }

  lemma DottedFits(n: nat, i: nat)
    requires i < n
    ensures |Dotted(n, i)| == n && Fits(Dotted(n, i), n)
  {}

  /**
   The changed cells alone rebuild a row exactly when the headers tell its columns apart; columns beyond the
   headers all have the empty name.
   */
  lemma ExactlyDistinctNames(headers: Row, n: nat)
    ensures CellsTellRow(headers, n) <==> NamesApart(headers, n)
  {
    hide CellStr, ColumnName, CellChanges;
    if NamesApart(headers, n) {
      forall a: Row, b: Row, b': Row | Fits(a, n) && Fits(b, n) && Fits(b', n) && SameReport(headers, a, b, b')
        ensures SameCells(b, b')
      {
        forall i: nat | i >= 1 ensures !CellDiffers(b, b', i) {
          if i < n {
            CellsRebuildRow(headers, a, b, n, i);
            CellsRebuildRow(headers, a, b', n, i);
          } else {
            BeyondBoth(b, b', i);
          }
        }
      }
    } else {
      var i: nat, j: nat :| 1 <= i < j < n && ColumnName(headers, i) == ColumnName(headers, j);
      SharedNameHides(headers, n, i, j);
    }
  }
}
