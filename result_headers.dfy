/**
  The column headers of an admin change list (`extended_result_headers`)
  and the count of sorted headers that `result_list_custom` hands to the
  template. Each column is the action checkbox, a column that cannot be
  sorted, or a sortable column; a sortable column carries its sort state
  and three links: make it the primary sort, remove it from the sort, and
  toggle its direction.
 */
module ResultHeaders {
  import opened Wrappers
  import opened Text
  import opened Orderings

  /** The attribute `label_for_field` returns, reduced to its `admin_order_field`. */
  datatype Attr = Attr(adminOrderField: Option<string>)

  /** One entry of `list_display` with what `label_for_field` gives for it. */
  datatype Column = Column(fieldName: string, text: string, attr: Option<Attr>)

  /**
    The change list as the headers see it: its columns, the model admin's
    `list_shortened_labels` and `get_ordering_field_columns()`.
   */
  datatype ChangeList = ChangeList(columns: seq<Column>, shortenedLabels: map<string, string>, ordering: Ordering)

  /** The ordering is a dict, so its keys are distinct. */
  predicate ValidChangeList(cl: ChangeList) {
    DistinctColumns(cl.ordering)
  }

  /** `cl.get_query_string({ORDER_VAR: order})`; the other query parameters are not modelled. */
  datatype QueryString = OrderQuery(order: string)

  datatype Header =
    | CheckboxHeader(text: string, tooltip: string)
    | PlainHeader(text: string, fieldName: string)
    | SortableHeader(text: string, tooltip: string, sorted: bool, ascending: bool, sortPriority: nat,
                     urlPrimary: QueryString, urlRemove: QueryString, urlToggle: QueryString,
                     classes: seq<string>)
  {
    /** `h['sortable'] and h['sorted']`. */
    predicate SortableAndSorted() {
      SortableHeader? && sorted
    }
  }

  datatype ColumnKind = ActionCheckboxColumn | UnsortableColumn | SortableColumn

  /** Python truthiness of `admin_order_field`. */
  predicate HasOrderField(a: Attr) {
    a.adminOrderField.Some? && a.adminOrderField.value != ""
  }

  /** Which of the three branches of the header loop a column takes. */
  function Kind(col: Column): ColumnKind {
    if col.attr.Some? then
      if col.fieldName == "action_checkbox" then ActionCheckboxColumn
      else if !HasOrderField(col.attr.value) then UnsortableColumn
      else SortableColumn
    else SortableColumn
  }

  /** A non-empty shortened label replaces the header text. */
  predicate IsShortened(col: Column, shortenedLabels: map<string, string>) {
    col.fieldName in shortenedLabels && shortenedLabels[col.fieldName] != ""
  }

  function HeaderText(col: Column, shortenedLabels: map<string, string>): string {
    if IsShortened(col, shortenedLabels) then shortenedLabels[col.fieldName] else col.text
  }

  /** With a shortened label the full label becomes the tooltip. */
  function HeaderTooltip(col: Column, shortenedLabels: map<string, string>): string {
    if IsShortened(col, shortenedLabels) then col.text else ""
  }

  function ThClasses(fieldName: string, orderType: Option<Dir>): seq<string> {
    ["sortable", "column-" + fieldName]
      + (if orderType.Some? then ["sorted " + DirName(orderType.value) + "ending"] else [])
  }

  /** The header of sortable column `i`. */
  function SortableHeaderOf(fieldName: string, text: string, tooltip: string, i: nat, o: Ordering): Header {
    var st := SortStateOf(o, i);
    SortableHeader(text, tooltip, st.sorted, st.orderType == Some(Asc), st.priority,
                   OrderQuery(Join(Encode(MadePrimary(o, i, st.newOrderType)))),
                   OrderQuery(Join(Encode(Removed(o, i)))),
                   OrderQuery(Join(Encode(Toggled(o, i)))),
                   ThClasses(fieldName, st.orderType))
  }

  /** The header of column `k` of the change list. */
  function HeaderOf(cl: ChangeList, k: nat): Header
    requires k < |cl.columns|
  {
    var col := cl.columns[k];
    var text := HeaderText(col, cl.shortenedLabels);
    var tooltip := HeaderTooltip(col, cl.shortenedLabels);
    match Kind(col)
    case ActionCheckboxColumn => CheckboxHeader(text, tooltip)
    case UnsortableColumn => PlainHeader(text, col.fieldName)
    case SortableColumn => SortableHeaderOf(col.fieldName, text, tooltip, k, cl.ordering)
  }

  function AllHeaders(cl: ChangeList): (hs: seq<Header>)
    ensures |hs| == |cl.columns|
  {
    seq(|cl.columns|, k requires 0 <= k < |cl.columns| => HeaderOf(cl, k))
  }

  /**
    The pass over the ordering that builds the three parameter lists:
    column `i` goes to the front of the "primary" list in the direction
    the click asks for, is left out of the "remove" list and is written
    in that direction in place in the "toggle" list; every other column
    is appended to all three unchanged. An unsorted `i` is put in front of
    the "primary" list afterwards.
   */
  method OrderParams(ordering: Ordering, i: nat, newOrderType: Dir)
    returns (primary: seq<string>, remove: seq<string>, toggle: seq<string>)
    requires DistinctColumns(ordering)
    requires i in Columns(ordering) ==> newOrderType == Flip(ordering[ColumnIndex(ordering, i)].dir)
    ensures primary == Encode(MadePrimary(ordering, i, newOrderType))
    ensures remove == Encode(Removed(ordering, i))
    ensures toggle == Encode(Toggled(ordering, i))
  {
    primary, remove, toggle := [], [], [];
    for n := 0 to |ordering|
      invariant ParamsUpTo(ordering, i, newOrderType, n, primary, remove, toggle)
    {
      var entry := ordering[n];
      if entry.column == i {
        var param := MakeQsParam(DirName(newOrderType), entry.column);
        SameColumnStep(ordering, i, newOrderType, n, primary, remove, toggle);
        primary := [param] + primary;
        toggle := toggle + [param];
      } else {
        var param := MakeQsParam(DirName(entry.dir), entry.column);
        OtherColumnStep(ordering, i, newOrderType, n, primary, remove, toggle);
        primary := primary + [param];
        toggle := toggle + [param];
        remove := remove + [param];
      }
    }
    LoopExit(ordering, i, newOrderType, primary, remove, toggle);
    if i !in Columns(ordering) {
      primary := [MakeQsParam(DirName(newOrderType), i)] + primary;
    }
  }

  /** The "primary" ordering of the entries before index `n`. */
  function PrimaryUpTo(ordering: Ordering, i: nat, d: Dir, n: nat): Ordering
    requires n <= |ordering|
  {
    if i in Columns(ordering) && ColumnIndex(ordering, i) < n then [OrderEntry(i, d)] + Removed(ordering[..n], i)
    else Removed(ordering[..n], i)
  }

  /** The loop's invariant: the three lists encode the orderings of the entries seen so far. */
  predicate ParamsUpTo(ordering: Ordering, i: nat, d: Dir, n: nat,
                       primary: seq<string>, remove: seq<string>, toggle: seq<string>)
    requires n <= |ordering|
  {
    && remove == Encode(Removed(ordering[..n], i))
    && toggle == Encode(Toggled(ordering[..n], i))
    && primary == Encode(PrimaryUpTo(ordering, i, d, n))
  }

  /** One step of the loop at the entry of column `i` itself. */
  lemma SameColumnStep(ordering: Ordering, i: nat, d: Dir, n: nat,
                       primary: seq<string>, remove: seq<string>, toggle: seq<string>)
    requires DistinctColumns(ordering) && n < |ordering| && ordering[n].column == i
    requires i in Columns(ordering) ==> d == Flip(ordering[ColumnIndex(ordering, i)].dir)
    requires ParamsUpTo(ordering, i, d, n, primary, remove, toggle)
    ensures ParamsUpTo(ordering, i, d, n + 1, [MakeQsParam(DirName(d), i)] + primary, remove,
                       toggle + [MakeQsParam(DirName(d), i)])
  {
    PrefixStep(ordering, n, i);
    ColumnIndexUnique(ordering, i, n);
    EncodePrepend(OrderEntry(i, d), Removed(ordering[..n], i));
    EncodeAppend(Toggled(ordering[..n], i), OrderEntry(i, d));
  }

  /** One step of the loop at the entry of another column. */
  lemma OtherColumnStep(ordering: Ordering, i: nat, d: Dir, n: nat,
                        primary: seq<string>, remove: seq<string>, toggle: seq<string>)
    requires DistinctColumns(ordering) && n < |ordering| && ordering[n].column != i
    requires ParamsUpTo(ordering, i, d, n, primary, remove, toggle)
    ensures var param := MakeQsParam(DirName(ordering[n].dir), ordering[n].column);
            ParamsUpTo(ordering, i, d, n + 1, primary + [param], remove + [param], toggle + [param])
  {
    var e := ordering[n];
    PrefixStep(ordering, n, i);
    EncodeAppend(Removed(ordering[..n], i), e);
    EncodeAppend(Toggled(ordering[..n], i), e);
    EncodeAppend(PrimaryUpTo(ordering, i, d, n), e);
    if i in Columns(ordering) {
      assert ColumnIndex(ordering, i) != n;
    }
  }

  /** After the loop the lists are the three links' lists, once an unsorted `i` is put in front. */
  lemma LoopExit(ordering: Ordering, i: nat, d: Dir, primary: seq<string>, remove: seq<string>, toggle: seq<string>)
    requires ParamsUpTo(ordering, i, d, |ordering|, primary, remove, toggle)
    ensures remove == Encode(Removed(ordering, i))
    ensures toggle == Encode(Toggled(ordering, i))
    ensures i in Columns(ordering) ==> primary == Encode(MadePrimary(ordering, i, d))
    ensures i !in Columns(ordering) ==> [MakeQsParam(DirName(d), i)] + primary == Encode(MadePrimary(ordering, i, d))
  {
    assert ordering[..|ordering|] == ordering;
    EncodePrepend(OrderEntry(i, d), Removed(ordering, i));
  }

  /** How the three orderings of a prefix grow by one entry. */
  lemma PrefixStep(ordering: Ordering, n: nat, i: nat)
    requires DistinctColumns(ordering) && n < |ordering|
    ensures var e := ordering[n];
            Removed(ordering[..n + 1], i) == Removed(ordering[..n], i) + (if e.column == i then [] else [e])
            && Toggled(ordering[..n + 1], i) == Toggled(ordering[..n], i) + [if e.column == i then OrderEntry(i, Flip(e.dir)) else e]
            && (i in Columns(ordering[..n + 1]) <==> i in Columns(ordering[..n]) || e.column == i)
            && (e.column == i ==> i !in Columns(ordering[..n]))
  {
    var prefix := ordering[..n + 1];
    assert prefix[..n] == ordering[..n];
    assert Columns(prefix) == Columns(ordering[..n]) + [ordering[n].column];
    if ordering[n].column == i {
      forall m | 0 <= m < n
        ensures Columns(ordering[..n])[m] != i
      {
      }
    }
  }

  /**
    The sortable branch of the header loop: the sort state of column `i`,
    then one pass over the ordering that builds the three parameter lists.
   */
  method SortableColumnHeader(fieldName: string, text: string, tooltip: string, i: nat, ordering: Ordering)
    returns (h: Header)
    requires DistinctColumns(ordering)
    ensures h == SortableHeaderOf(fieldName, text, tooltip, i, ordering)
  {
    var thClasses := ["sortable", "column-" + fieldName];
    var orderType: Option<Dir> := None;
    var newOrderType := Asc;
    var sortPriority := 0;
    var sorted := false;
    if i in Columns(ordering) {
      sorted := true;
      var k := ColumnIndex(ordering, i);
      orderType := Some(ordering[k].dir);
      sortPriority := k + 1;
      thClasses := thClasses + ["sorted " + DirName(ordering[k].dir) + "ending"];
      newOrderType := Flip(ordering[k].dir);
    }
    assert SortStateOf(ordering, i) == SortState(sorted, orderType, sortPriority, newOrderType);
    assert thClasses == ThClasses(fieldName, orderType);

    var primary, remove, toggle := OrderParams(ordering, i, newOrderType);
    h := SortableHeader(text, tooltip, sorted, orderType == Some(Asc), sortPriority,
                        OrderQuery(Join(primary)), OrderQuery(Join(remove)), OrderQuery(Join(toggle)),
                        thClasses);
  }

  /** The header generator, one header per `list_display` entry in order. */
  method ExtendedResultHeaders(cl: ChangeList) returns (headers: seq<Header>)
    requires ValidChangeList(cl)
    ensures headers == AllHeaders(cl)
  {
    headers := [];
    for k := 0 to |cl.columns|
      invariant |headers| == k
      invariant forall m :: 0 <= m < k ==> headers[m] == HeaderOf(cl, m)
    {
      var col := cl.columns[k];
      var text := col.text;
      var tooltip := "";
      if col.fieldName in cl.shortenedLabels && cl.shortenedLabels[col.fieldName] != "" {
        tooltip := text;
        text := cl.shortenedLabels[col.fieldName];
      }
      assert text == HeaderText(col, cl.shortenedLabels) && tooltip == HeaderTooltip(col, cl.shortenedLabels);
      var h;
      if col.attr.Some? && col.fieldName == "action_checkbox" {
        h := CheckboxHeader(text, tooltip);
      } else if col.attr.Some? && !HasOrderField(col.attr.value) {
        h := PlainHeader(text, col.fieldName);
      } else {
        h := SortableColumnHeader(col.fieldName, text, tooltip, k, cl.ordering);
      }
      assert h == HeaderOf(cl, k);
      headers := headers + [h];
    }
  }

  /** The indices of the headers that are sortable and sorted. */
  function SortedHeaderIndices(headers: seq<Header>): set<nat>
  {
    set k: nat | k < |headers| && headers[k].SortableAndSorted()
  }

  /**
    `result_list_custom`: the headers, and `num_sorted_fields`, the number
    of headers that are both sortable and sorted.
   */
  method ResultListCustom(cl: ChangeList) returns (headers: seq<Header>, numSortedFields: nat)
    requires ValidChangeList(cl)
    ensures headers == AllHeaders(cl)
    ensures numSortedFields == |SortedHeaderIndices(headers)|
  {
    headers := ExtendedResultHeaders(cl);
    numSortedFields := 0;
    for n := 0 to |headers|
      invariant numSortedFields == |SortedHeaderIndices(headers[..n])|
    {
      SortedHeaderIndicesStep(headers, n);
      var h := headers[n];
      if h.SortableHeader? && h.sorted {
        numSortedFields := numSortedFields + 1;
      }
    }
    assert headers[..|headers|] == headers;
  }

  lemma SortedHeaderIndicesStep(headers: seq<Header>, n: nat)
    requires n < |headers|
    ensures |SortedHeaderIndices(headers[..n + 1])|
              == |SortedHeaderIndices(headers[..n])| + (if headers[n].SortableAndSorted() then 1 else 0)
  {
    var before := SortedHeaderIndices(headers[..n]);
    var after := SortedHeaderIndices(headers[..n + 1]);
    if headers[n].SortableAndSorted() {
      assert after == before + {n};
    } else {
      assert after == before;
    }
  }

  /**
    The action checkbox column and an attribute without
    `admin_order_field` give non-sortable headers; every other column is
    sortable.
   */
  lemma HeaderSortability(cl: ChangeList, k: nat)
    requires k < |cl.columns|
    ensures var col := cl.columns[k];
            HeaderOf(cl, k).SortableHeader? <==>
              col.attr.None? || (col.fieldName != "action_checkbox" && HasOrderField(col.attr.value))
    ensures cl.columns[k].attr.Some? && cl.columns[k].fieldName == "action_checkbox" ==> HeaderOf(cl, k).CheckboxHeader?
  {
  }

  /**
    For a sortable column the header's sort state follows the ordering:
    it is sorted exactly when the column is a key, its priority is then
    the column's 1-based place among the keys (0 when not sorted), and it
    is ascending only for a column sorted ascending.
   */
  lemma SortableHeaderState(cl: ChangeList, k: nat)
    requires k < |cl.columns| && Kind(cl.columns[k]) == SortableColumn
    ensures var h := HeaderOf(cl, k);
            var o := cl.ordering;
            h.SortableHeader?
            && (h.sorted <==> k in Columns(o))
            && (h.sorted ==> 1 <= h.sortPriority <= |o| && o[h.sortPriority - 1].column == k
                             && (h.ascending <==> o[h.sortPriority - 1].dir == Asc))
            && (!h.sorted ==> h.sortPriority == 0 && !h.ascending)
  {
    var col := cl.columns[k];
    assert HeaderOf(cl, k) == SortableHeaderOf(col.fieldName, HeaderText(col, cl.shortenedLabels),
                                               HeaderTooltip(col, cl.shortenedLabels), k, cl.ordering);
  }

  /**
    The three links of a sortable column read back as the ordering with
    the column made primary (in the flipped direction when it is sorted,
    ascending when it is not), with the column removed, and with its
    direction toggled.
   */
  lemma {:induction false} SortableHeaderLinks(cl: ChangeList, k: nat)
    requires k < |cl.columns| && Kind(cl.columns[k]) == SortableColumn
    ensures var h := HeaderOf(cl, k);
            var o := cl.ordering;
            h.SortableHeader?
            && (k in Columns(o) ==>
                  DecodeOrder(h.urlPrimary.order) == Some(MadePrimary(o, k, Flip(o[ColumnIndex(o, k)].dir))))
            && (k !in Columns(o) ==> DecodeOrder(h.urlPrimary.order) == Some(MadePrimary(o, k, Asc)))
            && DecodeOrder(h.urlRemove.order) == Some(Removed(o, k))
            && DecodeOrder(h.urlToggle.order) == Some(Toggled(o, k))
  {
    var col := cl.columns[k];
    var o := cl.ordering;
    var st := SortStateOf(o, k);
    assert HeaderOf(cl, k) == SortableHeaderOf(col.fieldName, HeaderText(col, cl.shortenedLabels),
                                               HeaderTooltip(col, cl.shortenedLabels), k, o);
    DecodeEncodedOrder(MadePrimary(o, k, st.newOrderType));
    DecodeEncodedOrder(Removed(o, k));
    DecodeEncodedOrder(Toggled(o, k));
  }

  /** The distinct values of a sequence. */
  function Elements(s: seq<nat>): set<nat> {
    set c | c in s
  }

  lemma {:induction false} ElementsCard(s: seq<nat>)
    ensures |Elements(s)| <= |s|
  {
    if |s| > 0 {
      ElementsCard(s[1..]);
      assert Elements(s) == {s[0]} + Elements(s[1..]);
    }
  }

  lemma SubsetCard(a: set<nat>, b: set<nat>)
    requires a <= b
    ensures |a| <= |b|
  {
    assert b == a + (b - a);
  }

  /**
    `num_sorted_fields` counts exactly the sortable columns whose index is
    a key of the ordering.
   */
  lemma SortedHeadersAreSortedColumns(cl: ChangeList)
    requires ValidChangeList(cl)
    ensures SortedHeaderIndices(AllHeaders(cl))
              == set k: nat | k < |cl.columns| && Kind(cl.columns[k]) == SortableColumn && k in Columns(cl.ordering)
  {
    var hs := AllHeaders(cl);
    forall k: nat | k < |cl.columns|
      ensures hs[k].SortableAndSorted() <==> Kind(cl.columns[k]) == SortableColumn && k in Columns(cl.ordering)
    {
      if Kind(cl.columns[k]) == SortableColumn {
        SortableHeaderState(cl, k);
      }
    }
  }

  /** So it never exceeds the number of sorted columns. */
  lemma NumSortedFieldsBound(cl: ChangeList)
    requires ValidChangeList(cl)
    ensures |SortedHeaderIndices(AllHeaders(cl))| <= |cl.ordering|
  {
    SortedHeadersAreSortedColumns(cl);
    ElementsCard(Columns(cl.ordering));
    SubsetCard(SortedHeaderIndices(AllHeaders(cl)), Elements(Columns(cl.ordering)));
  }
}
