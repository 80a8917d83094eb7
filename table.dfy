/** The employee table of ctr_web/src/components/EnhancedTable/EnhancedTable.js: the pure view
    pipeline (visible columns, filter, sort, paginate) and the component state that its event
    handlers update. Rendering is left out. */
module EnhancedTable {
  import opened Wrappers
  import opened Seqs
  import opened Text
  import opened EntityModel

  // ===== columns =====

  datatype ColumnId = IdCol | FirstNameCol | LastNameCol | EmailCol | AgeCol | HireDateCol
  datatype ColumnType = NumberType | StringType | DateType
  datatype Column = Column(id: ColumnId, title: string, kind: ColumnType, width: nat)

  function AllColumns(): seq<Column> {
    [ Column(IdCol, "ID", NumberType, 70),
      Column(FirstNameCol, "First Name", StringType, 150),
      Column(LastNameCol, "Last Name", StringType, 150),
      Column(EmailCol, "Email", StringType, 250),
      Column(AgeCol, "Age", NumberType, 80),
      Column(HireDateCol, "Hire Date", DateType, 130) ]
  }

  function AllColumnIds(): seq<ColumnId> {
    [IdCol, FirstNameCol, LastNameCol, EmailCol, AgeCol, HireDateCol]
  }

  /** `cols.filter(col => visible.includes(col.id))` */
  function KeepVisible(cols: seq<Column>, visible: seq<ColumnId>): (r: seq<Column>)
    ensures forall c :: c in r <==> c in cols && c.id in visible
    ensures IsSubsequence(r, cols)
  {
    if cols == [] then []
    else
      var rest := KeepVisible(cols[1..], visible);
      assert cols == [cols[0]] + cols[1..];
      if cols[0].id in visible then
        var r := [cols[0]] + rest;
        assert r[0] == cols[0] && r[1..] == rest;
        r
      else
        SubsequenceOfLonger(rest, cols);
        rest
  }

  /** Dropping a head keeps a subsequence a subsequence. */
  lemma SubsequenceOfLonger<T>(sub: seq<T>, s: seq<T>)
    requires s != [] && IsSubsequence(sub, s[1..])
    ensures IsSubsequence(sub, s)
  {
  }

  /** The columns shown: the visible ones, in the fixed column order. */
  function VisibleColumns(visible: seq<ColumnId>): seq<Column> {
    KeepVisible(AllColumns(), visible)
  }

  /** The type of the first column with that id, or `StringType` when there is none
      (`column?.type || 'string'`). */
  function SortType(orderBy: ColumnId, columns: seq<Column>): (t: ColumnType)
    ensures (forall i :: 0 <= i < |columns| ==> columns[i].id != orderBy) ==> t == StringType
    ensures (exists i :: 0 <= i < |columns| && columns[i].id == orderBy) ==>
              exists i :: 0 <= i < |columns| && columns[i].id == orderBy && t == columns[i].kind
                          && forall j :: 0 <= j < i ==> columns[j].id != orderBy
  {
    if columns == [] then StringType
    else if columns[0].id == orderBy then columns[0].kind
    else
      var t := SortType(orderBy, columns[1..]);
      assert forall i :: 0 < i < |columns| ==> columns[i] == columns[1..][i - 1];
      t
  }

  /** Hiding columns changes the sort type only of a hidden sort column, which becomes 'string'. */
  lemma {:induction false} SortTypeOfKeepVisible(orderBy: ColumnId, cols: seq<Column>, visible: seq<ColumnId>)
    ensures SortType(orderBy, KeepVisible(cols, visible))
            == if orderBy in visible then SortType(orderBy, cols) else StringType
  {
    if cols != [] {
      SortTypeOfKeepVisible(orderBy, cols[1..], visible);
      var rest := KeepVisible(cols[1..], visible);
      if cols[0].id in visible {
        var r := [cols[0]] + rest;
        assert KeepVisible(cols, visible) == r;
        assert r[1..] == rest;
      }
    }
  }

  /** The sort type is the column's own type while the column is shown, and 'string' once it
      is hidden. */
  lemma SortTypeComesFromVisibleColumns(orderBy: ColumnId, visible: seq<ColumnId>)
    ensures orderBy !in visible ==> SortType(orderBy, VisibleColumns(visible)) == StringType
    ensures orderBy in visible ==>
      SortType(orderBy, VisibleColumns(visible))
        == (if orderBy == HireDateCol then DateType
            else if orderBy == IdCol || orderBy == AgeCol then NumberType else StringType)
  {
    SortTypeOfKeepVisible(orderBy, AllColumns(), visible);
    SortTypeOfAllColumns(orderBy);
  }

  lemma SortTypeOfAllColumns(orderBy: ColumnId)
    ensures SortType(orderBy, AllColumns())
        == (if orderBy == HireDateCol then DateType
            else if orderBy == IdCol || orderBy == AgeCol then NumberType else StringType)
  {
    var all := AllColumns();
    var i := match orderBy
      case IdCol => 0 case FirstNameCol => 1 case LastNameCol => 2
      case EmailCol => 3 case AgeCol => 4 case HireDateCol => 5;
    assert all[i].id == orderBy;
    var j :| 0 <= j < |all| && all[j].id == orderBy && SortType(orderBy, all) == all[j].kind;
    assert j == i;
  }

  // ===== comparator =====

  datatype Order = Asc | Desc

  /** A cell value as the comparator sees it; `Undefined` is a missing value or an invalid date. */
  datatype Key = Num(n: int) | Str(s: string) | Undefined

  function KeyOf(e: Entity, orderBy: ColumnId): Key {
    match orderBy
    case IdCol => Num(e.id)
    case FirstNameCol => Str(e.firstName)
    case LastNameCol => Str(e.lastName)
    case EmailCol => Str(e.email)
    case AgeCol => if e.age.Some? then Num(e.age.value) else Undefined
    case HireDateCol => if e.hireDate.Some? then Num(e.hireDate.value) else Undefined
  }

  /** `new Date(value)` for the 'date' type: a day number keeps its order, anything else is an
      invalid date. Other types compare the raw value. */
  function AsSortKey(k: Key, kind: ColumnType): Key {
    if kind == DateType && !k.Num? then Undefined else k
  }

  /** The `<` of JavaScript on strings (code unit by code unit). */
  predicate LexLess(a: string, b: string)
    decreases |a|
  {
    if a == [] then b != []
    else if b == [] then false
    else if a[0] != b[0] then a[0] < b[0]
    else LexLess(a[1..], b[1..])
  }

  /** `<` between two cell values; anything compared with `undefined` or an invalid date is false. */
  predicate Less(x: Key, y: Key) {
    if x.Num? && y.Num? then x.n < y.n
    else if x.Str? && y.Str? then LexLess(x.s, y.s)
    else false
  }

  /** Exactly one of `a < b`, `b < a`, `a == b` holds for strings. */
  lemma {:induction false} LexLessTrichotomy(a: string, b: string)
    ensures LexLess(a, b) || LexLess(b, a) || a == b
    ensures !(LexLess(a, b) && LexLess(b, a))
    ensures !LexLess(a, a)
    decreases |a|
  {
    if a != [] && b != [] && a[0] == b[0] {
      LexLessTrichotomy(a[1..], b[1..]);
      if a[1..] == b[1..] {
        assert a == [a[0]] + a[1..] && b == [b[0]] + b[1..];
      }
    }
    if a != [] {
      LexLessTrichotomy(a[1..], a[1..]);
    }
  }

  lemma {:induction false} LexLessTransitive(a: string, b: string, c: string)
    requires LexLess(a, b) && LexLess(b, c)
    ensures LexLess(a, c)
    decreases |a|
  {
    if a != [] && a[0] == b[0] && b[0] == c[0] {
      LexLessTransitive(a[1..], b[1..], c[1..]);
    }
  }

  lemma LessAsymmetric(x: Key, y: Key)
    ensures !(Less(x, y) && Less(y, x))
  {
    if x.Str? && y.Str? {
      LexLessTrichotomy(x.s, y.s);
    }
  }

  /** `descendingComparator(a, b, orderBy, type)` */
  function DescendingComparator(a: Entity, b: Entity, orderBy: ColumnId, kind: ColumnType): int {
    var x := AsSortKey(KeyOf(a, orderBy), kind);
    var y := AsSortKey(KeyOf(b, orderBy), kind);
    if Less(y, x) then -1 else if Less(x, y) then 1 else 0
  }

  /** The comparator `getComparator(order, orderBy, columns)` builds, with the type resolved. */
  datatype Sorting = Sorting(order: Order, orderBy: ColumnId, kind: ColumnType)

  function GetSorting(order: Order, orderBy: ColumnId, columns: seq<Column>): Sorting {
    Sorting(order, orderBy, SortType(orderBy, columns))
  }

  function SortKey(s: Sorting, e: Entity): Key {
    AsSortKey(KeyOf(e, s.orderBy), s.kind)
  }

  function Compare(s: Sorting, a: Entity, b: Entity): int {
    if s.order == Desc then DescendingComparator(a, b, s.orderBy, s.kind)
    else -DescendingComparator(a, b, s.orderBy, s.kind)
  }

  /** 'asc' is the exact negation of 'desc'; the comparator is -1, 0 or 1, antisymmetric, and 0
      iff neither value is less than the other. */
  lemma ComparatorLaws(s: Sorting, a: Entity, b: Entity)
    ensures Compare(s.(order := Asc), a, b) == -Compare(s.(order := Desc), a, b)
    ensures -1 <= Compare(s, a, b) <= 1
    ensures Compare(s, a, b) == -Compare(s, b, a)
    ensures Compare(s, a, b) == 0 <==> !Less(SortKey(s, a), SortKey(s, b)) && !Less(SortKey(s, b), SortKey(s, a))
    ensures s.order == Asc ==> (Compare(s, a, b) < 0 <==> Less(SortKey(s, a), SortKey(s, b)))
    ensures s.order == Desc ==> (Compare(s, a, b) < 0 <==> Less(SortKey(s, b), SortKey(s, a)))
  {
    LessAsymmetric(SortKey(s, a), SortKey(s, b));
  }

  /** Every row has a value for the sort column (no missing age or hire date). */
  predicate AllKeyed(s: Sorting, rows: seq<Entity>) {
    forall e :: e in rows ==> SortKey(s, e) != Undefined
  }

  /** Between rows that all have a value, "not after" is transitive. */
  lemma CompareTransitive(s: Sorting, a: Entity, b: Entity, c: Entity)
    requires SortKey(s, a) != Undefined && SortKey(s, b) != Undefined && SortKey(s, c) != Undefined
    requires Compare(s, a, b) <= 0 && Compare(s, b, c) <= 0
    ensures Compare(s, a, c) <= 0
  {
    var x, y, z := SortKey(s, a), SortKey(s, b), SortKey(s, c);
    LessAsymmetric(x, y);
    LessAsymmetric(y, z);
    LessAsymmetric(x, z);
    if x.Str? {
      LexLessTrichotomy(x.s, y.s);
      LexLessTrichotomy(y.s, z.s);
      LexLessTrichotomy(x.s, z.s);
      if s.order == Asc {
        if LexLess(z.s, x.s) {
          if LexLess(x.s, y.s) { LexLessTransitive(z.s, x.s, y.s); }
        }
      } else {
        if LexLess(x.s, z.s) {
          if LexLess(y.s, x.s) { LexLessTransitive(y.s, x.s, z.s); }
        }
      }
    }
  }

  // ===== sort =====

  /** Inserts `x` after the last row that does not come after it (a stable insertion). */
  function Insert(s: Sorting, x: Entity, rows: seq<Entity>): (r: seq<Entity>)
    ensures multiset(r) == multiset(rows) + multiset{x}
    decreases |rows|
  {
    if rows == [] then [x]
    else if Compare(s, rows[|rows| - 1], x) <= 0 then rows + [x]
    else
      var init := rows[..|rows| - 1];
      assert rows == init + [rows[|rows| - 1]];
      Insert(s, x, init) + [rows[|rows| - 1]]
  }

  /** `[...rows].sort(comparator)`, as a stable insertion sort. */
  function SortRows(s: Sorting, rows: seq<Entity>): (r: seq<Entity>)
    decreases |rows|
  {
    if rows == [] then []
    else Insert(s, rows[|rows| - 1], SortRows(s, rows[..|rows| - 1]))
  }

  predicate SortedBy(s: Sorting, rows: seq<Entity>) {
    forall i, j :: 0 <= i < j < |rows| ==> Compare(s, rows[i], rows[j]) <= 0
  }

  /** Appending a row that no earlier row comes after keeps rows sorted. */
  lemma AppendKeepsSorted(s: Sorting, rows: seq<Entity>, x: Entity)
    requires SortedBy(s, rows)
    requires forall i :: 0 <= i < |rows| ==> Compare(s, rows[i], x) <= 0
    ensures SortedBy(s, rows + [x])
  {
    var r := rows + [x];
    assert forall i :: 0 <= i < |rows| ==> r[i] == rows[i];
  }

  /** Every row of `Insert(s, x, init)` comes no later than `last`, when `x` and every row of
      `init` do not come after it. */
  lemma InsertedNotAfter(s: Sorting, x: Entity, init: seq<Entity>, last: Entity)
    requires Compare(s, x, last) <= 0
    requires forall i :: 0 <= i < |init| ==> Compare(s, init[i], last) <= 0
    ensures forall i :: 0 <= i < |Insert(s, x, init)| ==> Compare(s, Insert(s, x, init)[i], last) <= 0
  {
    var r0 := Insert(s, x, init);
    forall i | 0 <= i < |r0| ensures Compare(s, r0[i], last) <= 0 {
      assert r0[i] in multiset(r0);
      if r0[i] != x {
        assert r0[i] in multiset(init);
        var j :| 0 <= j < |init| && init[j] == r0[i];
      }
    }
  }

  lemma {:induction false} InsertKeepsSorted(s: Sorting, x: Entity, rows: seq<Entity>)
    requires SortedBy(s, rows) && AllKeyed(s, rows) && SortKey(s, x) != Undefined
    ensures SortedBy(s, Insert(s, x, rows))
    decreases |rows|
  {
    if rows != [] {
      var last := rows[|rows| - 1];
      var init := rows[..|rows| - 1];
      assert rows == init + [last];
      if Compare(s, last, x) <= 0 {
        forall i | 0 <= i < |rows| ensures Compare(s, rows[i], x) <= 0 {
          if i < |rows| - 1 {
            CompareTransitive(s, rows[i], last, x);
          }
        }
        AppendKeepsSorted(s, rows, x);
      } else {
        assert SortedBy(s, init) && AllKeyed(s, init) by {
          forall e | e in init ensures e in rows { }
        }
        InsertKeepsSorted(s, x, init);
        ComparatorLaws(s, last, x);
        InsertedNotAfter(s, x, init, last);
        AppendKeepsSorted(s, Insert(s, x, init), last);
      }
    }
  }

  /** The sorted rows are a permutation of the rows; when every row has a value for the sort
      column, each row comes no later than the rows after it under the comparator. */
  lemma {:induction false} SortRowsSortsAndPermutes(s: Sorting, rows: seq<Entity>)
    ensures multiset(SortRows(s, rows)) == multiset(rows)
    ensures AllKeyed(s, rows) ==> SortedBy(s, SortRows(s, rows))
    decreases |rows|
  {
    if rows != [] {
      var init := rows[..|rows| - 1];
      var x := rows[|rows| - 1];
      assert rows == init + [x];
      SortRowsSortsAndPermutes(s, init);
      if AllKeyed(s, rows) {
        assert AllKeyed(s, SortRows(s, init)) by {
          forall e | e in SortRows(s, init) ensures SortKey(s, e) != Undefined {
            assert e in multiset(SortRows(s, init));
            assert e in multiset(init);
          }
        }
        InsertKeepsSorted(s, x, SortRows(s, init));
      }
    }
  }

  // ===== filter =====

  datatype Filters = Filters(minAge: Option<int>, maxAge: Option<int>,
                             hireDateFrom: Option<int>, hireDateTo: Option<int>)

  /** `{}`: no filter set. An empty input field is the same as no filter. */
  const NoFilters := Filters(None, None, None, None)

  datatype FilterField = MinAge | MaxAge | HireDateFrom | HireDateTo

  /** `{ ...prev, [field]: value }` */
  function WithFilter(f: Filters, field: FilterField, value: Option<int>): Filters {
    match field
    case MinAge => f.(minAge := value)
    case MaxAge => f.(maxAge := value)
    case HireDateFrom => f.(hireDateFrom := value)
    case HireDateTo => f.(hireDateTo := value)
  }

  /** The lower-cased term occurs in the lower-cased first name, last name or email, or in the
      decimal id. */
  predicate MatchesSearch(e: Entity, searchTerm: string) {
    var term := Lower(searchTerm);
    Contains(Lower(e.firstName), term) || Contains(Lower(e.lastName), term)
    || Contains(Lower(e.email), term) || Contains(IntToString(e.id), term)
  }

  /** The filter callback. A record with no age or no hire date is never excluded by the bound
      on it, since `undefined < n` is false. */
  predicate Keep(e: Entity, searchTerm: string, f: Filters) {
    (searchTerm != [] ==> MatchesSearch(e, searchTerm))
    && !(f.minAge.Some? && e.age.Some? && e.age.value < f.minAge.value)
    && !(f.maxAge.Some? && e.age.Some? && e.age.value > f.maxAge.value)
    && !(f.hireDateFrom.Some? && e.hireDate.Some? && e.hireDate.value < f.hireDateFrom.value)
    && !(f.hireDateTo.Some? && e.hireDate.Some? && e.hireDate.value > f.hireDateTo.value)
  }

  function Filtered(es: seq<Entity>, searchTerm: string, f: Filters): seq<Entity> {
    if es == [] then []
    else (if Keep(es[0], searchTerm, f) then [es[0]] else []) + Filtered(es[1..], searchTerm, f)
  }

  /** The filtered list keeps, in order, exactly the records the callback keeps: each matches a
      non-empty search and respects every bound set on an age it has. With no search and no
      filter it is the whole list. */
  lemma {:induction false} FilteredKeepsMatchesInOrder(es: seq<Entity>, searchTerm: string, f: Filters)
    ensures IsSubsequence(Filtered(es, searchTerm, f), es)
    ensures forall x :: x in Filtered(es, searchTerm, f) <==> x in es && Keep(x, searchTerm, f)
    ensures forall x :: x in Filtered(es, searchTerm, f) ==>
      (searchTerm != [] ==> MatchesSearch(x, searchTerm))
      && (f.minAge.Some? && x.age.Some? ==> x.age.value >= f.minAge.value)
      && (f.maxAge.Some? && x.age.Some? ==> x.age.value <= f.maxAge.value)
    ensures searchTerm == [] && f == NoFilters ==> Filtered(es, searchTerm, f) == es
  {
    if es != [] {
      var rest := Filtered(es[1..], searchTerm, f);
      FilteredKeepsMatchesInOrder(es[1..], searchTerm, f);
      assert es == [es[0]] + es[1..];
      if Keep(es[0], searchTerm, f) {
        var r := [es[0]] + rest;
        assert r[0] == es[0] && r[1..] == rest;
        assert Filtered(es, searchTerm, f) == r;
      } else {
        assert Filtered(es, searchTerm, f) == rest;
      }
    }
  }

  // ===== paginate =====

  /** `rows.slice(page * rpp, page * rpp + rpp)`, with the bounds clamped to the list. */
  function Paginate(rows: seq<Entity>, page: nat, rpp: nat): (r: seq<Entity>)
    ensures var start := page * rpp;
      |r| <= rpp
      && (start >= |rows| ==> r == [])
      && (start < |rows| ==> |r| == (if |rows| - start < rpp then |rows| - start else rpp))
      && forall k :: 0 <= k < |r| ==> start + k < |rows| && r[k] == rows[start + k]
  {
    var start := page * rpp;
    if start >= |rows| then []
    else rows[start..if start + rpp < |rows| then start + rpp else |rows|]
  }

  /** Every row of a page is one of the rows. */
  lemma PageHoldsRows(rows: seq<Entity>, page: nat, rpp: nat)
    ensures forall x :: x in Paginate(rows, page, rpp) ==> x in rows
  {
    var r := Paginate(rows, page, rpp);
    forall x | x in r ensures x in rows {
      var k :| 0 <= k < |r| && r[k] == x;
      assert rows[page * rpp + k] == x;
    }
  }

  /** The rows on screen: filter, then sort, then the current page. */
  function View(entities: seq<Entity>, searchTerm: string, f: Filters, order: Order,
                orderBy: ColumnId, visible: seq<ColumnId>, page: nat, rpp: nat): seq<Entity>
  {
    var sorting := GetSorting(order, orderBy, VisibleColumns(visible));
    Paginate(SortRows(sorting, Filtered(entities, searchTerm, f)), page, rpp)
  }

  /** Every row on screen is a stored record the filter keeps, and there are at most `rpp`. */
  lemma ViewShowsKeptRecords(entities: seq<Entity>, searchTerm: string, f: Filters, order: Order,
                             orderBy: ColumnId, visible: seq<ColumnId>, page: nat, rpp: nat)
    ensures var v := View(entities, searchTerm, f, order, orderBy, visible, page, rpp);
      |v| <= rpp && forall x :: x in v ==> x in entities && Keep(x, searchTerm, f)
  {
    var sorting := GetSorting(order, orderBy, VisibleColumns(visible));
    var filtered := Filtered(entities, searchTerm, f);
    FilteredKeepsMatchesInOrder(entities, searchTerm, f);
    SortRowsSortsAndPermutes(sorting, filtered);
    var v := View(entities, searchTerm, f, order, orderBy, visible, page, rpp);
    var sorted := SortRows(sorting, filtered);
    assert v == Paginate(sorted, page, rpp);
    PageHoldsRows(sorted, page, rpp);
    forall x | x in v ensures x in entities && Keep(x, searchTerm, f) {
      assert x in multiset(sorted);
      assert x in multiset(filtered);
    }
  }

  /** The first page shows the first `rpp` sorted matches, so it is never empty while something
      matches. */
  lemma FirstPageShowsMatches(entities: seq<Entity>, searchTerm: string, f: Filters, order: Order,
                              orderBy: ColumnId, visible: seq<ColumnId>, rpp: nat)
    requires rpp > 0 && Filtered(entities, searchTerm, f) != []
    ensures View(entities, searchTerm, f, order, orderBy, visible, 0, rpp) != []
  {
    var sorting := GetSorting(order, orderBy, VisibleColumns(visible));
    var filtered := Filtered(entities, searchTerm, f);
    SortRowsSortsAndPermutes(sorting, filtered);
    assert |multiset(SortRows(sorting, filtered))| == |multiset(filtered)|;
  }

  // ===== selection =====

  /** `handleClick`'s new selection, branch by branch. */
  function Toggled(selected: seq<int>, id: int): (r: seq<int>)
    ensures IndexOf(selected, id) == -1 ==> r == selected + [id]
    ensures IndexOf(selected, id) >= 0 ==>
      r == selected[..IndexOf(selected, id)] + selected[IndexOf(selected, id) + 1..]
  {
    var k := IndexOf(selected, id);
    if k == -1 then selected + [id]
    else if k == 0 then selected[1..]
    else if k == |selected| - 1 then selected[..|selected| - 1]
    else selected[..k] + selected[k + 1..]
  }

  /** On a selection without repeats, a click flips the membership of the clicked id only, keeps
      the selection free of repeats, and clicking an unselected id twice restores the selection. */
  lemma ToggleFlipsOnlyTheClickedId(selected: seq<int>, id: int)
    requires NoDup(selected)
    ensures NoDup(Toggled(selected, id))
    ensures id in Toggled(selected, id) <==> id !in selected
    ensures forall x :: x != id ==> (x in Toggled(selected, id) <==> x in selected)
    ensures id !in selected ==> Toggled(Toggled(selected, id), id) == selected
  {
    var k := IndexOf(selected, id);
    var r := Toggled(selected, id);
    if k == -1 {
      var r2 := Toggled(r, id);
      assert IndexOf(r, id) == |selected|;
      assert r2 == r[..|selected|] + r[|selected| + 1..];
      assert r[..|selected|] == selected;
    } else {
      assert r == selected[..k] + selected[k + 1..];
      forall i, j | 0 <= i < j < |r| ensures r[i] != r[j] {
        var i' := if i < k then i else i + 1;
        var j' := if j < k then j else j + 1;
        assert r[i] == selected[i'] && r[j] == selected[j'];
      }
      assert id !in r by {
        forall i | 0 <= i < |r| ensures r[i] != id {
          var i' := if i < k then i else i + 1;
          assert r[i] == selected[i'];
        }
      }
      forall x | x != id && x in selected ensures x in r {
        var i :| 0 <= i < |selected| && selected[i] == x;
        if i < k { assert r[i] == x; } else { assert i > k && r[i - 1] == x; }
      }
    }
  }

  // ===== sort header =====

  /** `handleRequestSort`: the new order and sort column after a click on `property`. */
  function SortAfterClick(order: Order, orderBy: ColumnId, property: ColumnId): (Order, ColumnId) {
    var isAsc := orderBy == property && order == Asc;
    (if isAsc then Desc else Asc, property)
  }

  /** A click sorts by the clicked column; it gives 'desc' only when that column was already
      sorted 'asc', so repeated clicks on one column alternate, and a click on another column
      starts at 'asc'. */
  lemma SortClicksAlternate(order: Order, orderBy: ColumnId, property: ColumnId)
    ensures SortAfterClick(order, orderBy, property).1 == property
    ensures SortAfterClick(order, orderBy, property).0 == Desc <==> orderBy == property && order == Asc
    ensures var (o1, c1) := SortAfterClick(order, orderBy, property);
      SortAfterClick(o1, c1, property).0 != o1
    ensures orderBy != property ==> SortAfterClick(order, orderBy, property).0 == Asc
  {
  }

  // ===== component state =====

  class TableState {
    var order: Order
    var orderBy: ColumnId
    var selected: seq<int>
    var page: nat
    var rowsPerPage: nat
    var searchTerm: string
    var filters: Filters
    var visibleColumns: seq<ColumnId>

    /** The initial `useState` values. */
    constructor ()
      ensures order == Asc && orderBy == IdCol && selected == [] && page == 0
      ensures rowsPerPage == 5 && searchTerm == [] && filters == NoFilters
      ensures visibleColumns == AllColumnIds()
    {
      order := Asc;
      orderBy := IdCol;
      selected := [];
      page := 0;
      rowsPerPage := 5;
      searchTerm := [];
      filters := NoFilters;
      visibleColumns := AllColumnIds();
    }

    /** `paginatedEntities` for the given records. */
    function Rows(entities: seq<Entity>): seq<Entity>
      reads this
    {
      View(entities, searchTerm, filters, order, orderBy, visibleColumns, page, rowsPerPage)
    }

    /** `isSelected(id)` */
    function IsSelected(id: int): (r: bool)
      reads this
      ensures r <==> id in selected
    {
      IndexOf(selected, id) != -1
    }

    method RequestSort(property: ColumnId)
      modifies this`order, this`orderBy
      ensures (order, orderBy) == SortAfterClick(old(order), old(orderBy), property)
    {
      var isAsc := orderBy == property && order == Asc;
      order := if isAsc then Desc else Asc;
      orderBy := property;
    }

    /** Checking the header box selects the ids on the current page; unchecking it clears. */
    method SelectAllClick(checked: bool, entities: seq<Entity>)
      modifies this`selected
      ensures selected == if checked then Ids(Rows(entities)) else []
    {
      if checked {
        var newSelected := Ids(Rows(entities));
        selected := newSelected;
        return;
      }
      selected := [];
    }

    method Click(id: int)
      modifies this`selected
      ensures selected == Toggled(old(selected), id)
    {
      var selectedIndex := IndexOf(selected, id);
      var newSelected: seq<int> := [];
      if selectedIndex == -1 {
        newSelected := newSelected + selected + [id];
      } else if selectedIndex == 0 {
        newSelected := newSelected + selected[1..];
      } else if selectedIndex == |selected| - 1 {
        newSelected := newSelected + selected[..|selected| - 1];
      } else if selectedIndex > 0 {
        newSelected := newSelected + selected[..selectedIndex] + selected[selectedIndex + 1..];
      }
      assert newSelected == Toggled(selected, id);
      selected := newSelected;
    }

    /** A page change clears the selection. */
    method ChangePage(newPage: nat)
      modifies this`page, this`selected
      ensures page == newPage && selected == []
    {
      page := newPage;
      selected := [];
    }

    /** A rows-per-page change goes back to the first page and clears the selection. */
    method ChangeRowsPerPage(rpp: nat)
      modifies this`rowsPerPage, this`page, this`selected
      ensures rowsPerPage == rpp && page == 0 && selected == []
    {
      rowsPerPage := rpp;
      page := 0;
      selected := [];
    }

    /** A filter change sets that one filter and goes back to the first page. */
    method FilterChange(field: FilterField, value: Option<int>)
      modifies this`filters, this`page
      ensures filters == WithFilter(old(filters), field, value) && page == 0
    {
      filters := WithFilter(filters, field, value);
      page := 0;
    }

    /** `onSearchChange={setSearchTerm}` as written: the page is kept. */
    method SearchChange(term: string)
      modifies this`searchTerm
      ensures searchTerm == term
    {
      searchTerm := term;
    }

    /** The corrected search change: like a filter change, it goes back to the first page. */
    method SearchChangeFixed(term: string)
      modifies this`searchTerm, this`page
      ensures searchTerm == term && page == 0
    {
      searchTerm := term;
      page := 0;
    }

    method ColumnsChange(visible: seq<ColumnId>)
      modifies this`visibleColumns
      ensures visibleColumns == visible
    {
      visibleColumns := visible;
    }

    /** `handleDeleteSelected`: after the user confirms, the selected ids go to `onDeleteMany`
        and the selection is cleared, whatever the deletion's outcome. */
    method DeleteSelected(confirmed: bool) returns (requested: Option<seq<int>>)
      modifies this`selected
      ensures confirmed ==> requested == Some(old(selected)) && selected == []
      ensures !confirmed ==> requested.None? && selected == old(selected)
    {
      if confirmed {
        requested := Some(selected);
        selected := [];
      } else {
        requested := None;
      }
    }
  }

  /** A filter change touches only the named filter. */
  lemma WithFilterChangesOneField(f: Filters, field: FilterField, value: Option<int>)
    ensures var g := WithFilter(f, field, value);
      g.minAge == (if field == MinAge then value else f.minAge)
      && g.maxAge == (if field == MaxAge then value else f.maxAge)
      && g.hireDateFrom == (if field == HireDateFrom then value else f.hireDateFrom)
      && g.hireDateTo == (if field == HireDateTo then value else f.hireDateTo)
  {
  }

  /** A needle that starts with a character the text lacks does not occur in it. */
  lemma {:induction false} AbsentFirstCharNotContained(h: string, n: string)
    requires n != [] && forall i :: 0 <= i < |h| ==> h[i] != n[0]
    ensures !Contains(h, n)
    decreases |h|
  {
    if h == [] {
      assert |n| > |h|;
      assert !StartsWith(h, n);
    } else {
      if |n| <= |h| {
        assert h[..|n|][0] == h[0] != n[0];
      }
      assert !StartsWith(h, n);
      forall i | 0 <= i < |h[1..]| ensures h[1..][i] != n[0] {
        assert h[1..][i] == h[i + 1];
      }
      AbsentFirstCharNotContained(h[1..], n);
    }
  }

  /** A search term that starts with "z" is not found in a text with no "z" in either case. */
  lemma ZTermNotFound(v: string, term: string)
    requires term != [] && term[0] == 'z'
    requires forall i :: 0 <= i < |v| ==> v[i] != 'z' && v[i] != 'Z'
    ensures !Contains(Lower(v), term)
  {
    forall i | 0 <= i < |Lower(v)| ensures Lower(v)[i] != 'z' {
      assert Lower(v)[i] == LowerChar(v[i]);
    }
    AbsentFirstCharNotContained(Lower(v), term);
  }

  /** A search for "zoe" keeps Zoe Lee ... */
  lemma SearchKeepsZoe(zoe: Entity)
    requires zoe == Entity(1, "Zoe", "Lee", "zoe@company.com", None, None)
    ensures Keep(zoe, "zoe", NoFilters)
  {
    assert Lower("zoe") == "zoe";
    assert Lower("Zoe") == "zoe";
    assert StartsWith(Lower(zoe.firstName), Lower("zoe"));
  }

  /** ... and drops Bob Ray, in whose fields no "z" occurs. */
  lemma SearchDropsBob(bob: Entity)
    requires bob == Entity(2, "Bob", "Ray", "bob@company.com", None, None)
    ensures !Keep(bob, "zoe", NoFilters)
  {
    var term := Lower("zoe");
    assert term[0] == LowerChar("zoe"[0]) == 'z';
    var first, last, email := bob.firstName, bob.lastName, bob.email;
    assert forall i :: 0 <= i < |first| ==> first[i] != 'z' && first[i] != 'Z';
    assert forall i :: 0 <= i < |last| ==> last[i] != 'z' && last[i] != 'Z';
    assert forall i :: 0 <= i < |email| ==> email[i] != 'z' && email[i] != 'Z';
    ZTermNotFound(first, term);
    ZTermNotFound(last, term);
    ZTermNotFound(email, term);
    AbsentFirstCharNotContained(IntToString(bob.id), term);
  }

  /** A search for "zoe" keeps Zoe Lee and drops Bob Ray. */
  lemma SearchExampleKeepsOne(zoe: Entity, bob: Entity)
    requires zoe == Entity(1, "Zoe", "Lee", "zoe@company.com", None, None)
    requires bob == Entity(2, "Bob", "Ray", "bob@company.com", None, None)
    ensures Filtered([zoe, bob], "zoe", NoFilters) == [zoe]
  {
    SearchKeepsZoe(zoe);
    SearchDropsBob(bob);
    assert [zoe, bob][1..] == [bob];
    assert Filtered([bob], "zoe", NoFilters) == [];
  }

  /** How many rows the screen shows depends only on how many records the filter keeps. */
  lemma ViewSize(entities: seq<Entity>, searchTerm: string, f: Filters, order: Order,
                 orderBy: ColumnId, visible: seq<ColumnId>, page: nat, rpp: nat)
    ensures var n := |Filtered(entities, searchTerm, f)|;
      |View(entities, searchTerm, f, order, orderBy, visible, page, rpp)|
        == if page * rpp >= n then 0 else if n - page * rpp < rpp then n - page * rpp else rpp
  {
    var sorting := GetSorting(order, orderBy, VisibleColumns(visible));
    var filtered := Filtered(entities, searchTerm, f);
    SortRowsSortsAndPermutes(sorting, filtered);
    assert |multiset(SortRows(sorting, filtered))| == |multiset(filtered)|;
  }

  /** At any page size the table offers (5, 10, 25 or 50), a page past the first stays open
      after a search that leaves no more matches than the earlier pages hold: the screen is
      empty though something matches, and the first page would show the matches. */
  lemma SearchKeepsStalePage(entities: seq<Entity>, term: string, f: Filters, order: Order,
                             orderBy: ColumnId, visible: seq<ColumnId>, page: nat, rpp: nat)
    requires rpp == 5 || rpp == 10 || rpp == 25 || rpp == 50
    requires page > 0 && 0 < |Filtered(entities, term, f)| <= page * rpp
    ensures View(entities, term, f, order, orderBy, visible, page, rpp) == []
    ensures View(entities, term, f, order, orderBy, visible, 0, rpp) != []
  {
    ViewSize(entities, term, f, order, orderBy, visible, page, rpp);
    FirstPageShowsMatches(entities, term, f, order, orderBy, visible, rpp);
  }

  /** A fresh table over six records shows five rows per page, so the second page holds the
      sixth record; a search there that matches one record leaves the screen empty. */
  method StaleSearchOverSixRecords(entities: seq<Entity>, term: string)
    returns (t: TableState, before: seq<Entity>)
    requires |entities| == 6 && |Filtered(entities, term, NoFilters)| == 1
    ensures fresh(t) && t.page == 1 && t.rowsPerPage == 5 && t.searchTerm == term
    ensures |before| == 1 && t.Rows(entities) == []
  {
    t := new TableState();
    t.ChangePage(1);
    FilteredKeepsMatchesInOrder(entities, [], NoFilters);
    ViewSize(entities, [], NoFilters, Asc, IdCol, AllColumnIds(), 1, 5);
    before := t.Rows(entities);
    t.SearchChange(term);
    SearchKeepsStalePage(entities, term, NoFilters, Asc, IdCol, AllColumnIds(), 1, 5);
  }

  /** The corrected search change returns to the first page, which shows a row whenever the
      search and the filters keep a record and the page size is positive. */
  method FixedSearchShowsMatches(t: TableState, entities: seq<Entity>, term: string)
    modifies t`searchTerm, t`page
    ensures t.searchTerm == term && t.page == 0
    ensures t.rowsPerPage > 0 && Filtered(entities, term, t.filters) != [] ==> t.Rows(entities) != []
  {
    t.SearchChangeFixed(term);
    if t.rowsPerPage > 0 && Filtered(entities, term, t.filters) != [] {
      FirstPageShowsMatches(entities, term, t.filters, t.order, t.orderBy, t.visibleColumns,
                            t.rowsPerPage);
    }
  }
}
