/**
  The multi-column ordering of an admin change list and the `o=` URL
  parameter that encodes it: `cl.get_ordering_field_columns()` is an
  insertion-ordered dict from column index to `'asc'`/`'desc'`; each
  column header offers three links whose parameter is a rewritten
  ordering, each entry written `n` (ascending) or `-n` (descending) and the
  entries joined with dots.
 */
module Orderings {
  import opened Wrappers
  import opened Text

  datatype Dir = Asc | Desc

  /** One entry of the ordering dict: a column index and its direction. */
  datatype OrderEntry = OrderEntry(column: nat, dir: Dir)

  /** The ordering dict, its entries in insertion order. */
  type Ordering = seq<OrderEntry>

  function DirName(d: Dir): string {
    match d
    case Asc => "asc"
    case Desc => "desc"
  }

  /** `{'asc': 'desc', 'desc': 'asc'}[d]`. */
  function Flip(d: Dir): (r: Dir)
    ensures r != d
  {
    match d
    case Asc => Desc
    case Desc => Asc
  }

  /** The dict's keys, `list(ordering_field_columns)`. */
  function Columns(o: Ordering): (cs: seq<nat>)
    ensures |cs| == |o|
  {
    seq(|o|, m requires 0 <= m < |o| => o[m].column)
  }

  /** Dict keys are distinct. */
  predicate DistinctColumns(o: Ordering) {
    forall a, b :: 0 <= a < b < |o| ==> o[a].column != o[b].column
  }

  /** `list(ordering).index(i)`: the first position whose key is `i`. */
  function ColumnIndex(o: Ordering, i: nat): (k: nat)
    requires i in Columns(o)
    ensures k < |o| && o[k].column == i
    ensures forall m :: 0 <= m < k ==> o[m].column != i
  {
    if o[0].column == i then 0
    else
      assert Columns(o[1..]) == Columns(o)[1..];
      1 + ColumnIndex(o[1..], i)
  }

  /** With distinct keys, the entry of column `i` is the one `ColumnIndex` finds. */
  lemma ColumnIndexUnique(o: Ordering, i: nat, k: nat)
    requires DistinctColumns(o)
    requires k < |o| && o[k].column == i
    ensures i in Columns(o) && ColumnIndex(o, i) == k
  {
    assert Columns(o)[k] == i;
  }

  /** What a header derives from the ordering for column `i`. */
  datatype SortState = SortState(sorted: bool, orderType: Option<Dir>, priority: nat, newOrderType: Dir)

  /**
    Column `i` is sorted exactly when it is a key of the ordering; its
    priority is then its 1-based place among the keys (0 otherwise), and
    the direction a click asks for is the flip of the current one (`asc`
    for a column that is not sorted).
   */
  function SortStateOf(o: Ordering, i: nat): (st: SortState)
    ensures st.sorted <==> i in Columns(o)
    ensures st.sorted ==>
              1 <= st.priority <= |o| && o[st.priority - 1].column == i
              && (forall m :: 0 <= m < st.priority - 1 ==> o[m].column != i)
              && st.orderType == Some(o[st.priority - 1].dir)
              && st.newOrderType == Flip(o[st.priority - 1].dir)
    ensures !st.sorted ==> st.priority == 0 && st.orderType == None && st.newOrderType == Asc
  {
    if i in Columns(o) then
      var k := ColumnIndex(o, i);
      SortState(true, Some(o[k].dir), k + 1, Flip(o[k].dir))
    else
      SortState(false, None, 0, Asc)
  }

  /**
    The `make_qs_param` lambda: column `n` as a URL parameter, with a
    leading `-` exactly when the direction `t` is `'desc'`.
   */
  function MakeQsParam(t: string, n: nat): (p: string)
    ensures |p| > 0 && '.' !in p
    ensures p[0] == '-' <==> t == "desc"
  {
    (if t == "desc" then "-" else "") + NatToString(n)
  }

  function Param(e: OrderEntry): string {
    MakeQsParam(DirName(e.dir), e.column)
  }

  /** The parameter list of an ordering, one entry per dict entry. */
  function Encode(o: Ordering): (ps: seq<string>)
    ensures |ps| == |o|
  {
    seq(|o|, m requires 0 <= m < |o| => Param(o[m]))
  }

  lemma EncodeAppend(o: Ordering, e: OrderEntry)
    ensures Encode(o + [e]) == Encode(o) + [Param(e)]
  {
  }

  lemma EncodePrepend(e: OrderEntry, o: Ordering)
    ensures Encode([e] + o) == [Param(e)] + Encode(o)
  {
  }

  /** The ordering without column `i` (the "remove" link). */
  function Removed(o: Ordering, i: nat): Ordering
  {
    if |o| == 0 then []
    else
      var last := o[|o| - 1];
      Removed(o[..|o| - 1], i) + (if last.column == i then [] else [last])
  }

  /** The ordering with column `i`'s direction flipped in place (the "toggle" link). */
  function Toggled(o: Ordering, i: nat): Ordering
  {
    seq(|o|, m requires 0 <= m < |o| => if o[m].column == i then OrderEntry(i, Flip(o[m].dir)) else o[m])
  }

  /** Column `i` in direction `d` first, then the rest in order (the "primary" link). */
  function MadePrimary(o: Ordering, i: nat, d: Dir): Ordering
  {
    [OrderEntry(i, d)] + Removed(o, i)
  }

  /**
    Removing a column deletes exactly its entry: nothing changes when it
    is not sorted, and otherwise the entries before and after it stay in
    their order with their directions.
   */
  lemma {:induction false} RemovedDeletesEntry(o: Ordering, i: nat)
    requires DistinctColumns(o)
    ensures i !in Columns(o) ==> Removed(o, i) == o
    ensures i in Columns(o) ==> Removed(o, i) == o[..ColumnIndex(o, i)] + o[ColumnIndex(o, i) + 1..]
  {
    if i in Columns(o) {
      RemovedAt(o, i, ColumnIndex(o, i));
    } else {
      forall m | 0 <= m < |o|
        ensures o[m].column != i
      {
        assert Columns(o)[m] == o[m].column;
      }
      RemovedAbsent(o, i);
    }
  }

  lemma {:induction false} RemovedAbsent(o: Ordering, i: nat)
    requires forall m :: 0 <= m < |o| ==> o[m].column != i
    ensures Removed(o, i) == o
  {
    if |o| > 0 {
      RemovedAbsent(o[..|o| - 1], i);
      assert o == o[..|o| - 1] + [o[|o| - 1]];
    }
  }

  lemma {:induction false} RemovedAt(o: Ordering, i: nat, k: nat)
    requires DistinctColumns(o) && k < |o| && o[k].column == i
    ensures Removed(o, i) == o[..k] + o[k + 1..]
  {
    var init := o[..|o| - 1];
    var last := o[|o| - 1];
    if k == |o| - 1 {
      RemovedAbsent(init, i);
      assert o[..k] + o[k + 1..] == init;
    } else {
      RemovedAt(init, i, k);
      assert o[..k] + o[k + 1..] == init[..k] + init[k + 1..] + [last];
    }
  }

  lemma DeletionKeepsDistinct(o: Ordering, k: nat)
    requires DistinctColumns(o) && k < |o|
    ensures DistinctColumns(o[..k] + o[k + 1..])
    ensures o[k].column !in Columns(o[..k] + o[k + 1..])
  {
    var r := o[..k] + o[k + 1..];
    forall a, b | 0 <= a < b < |r|
      ensures r[a].column != r[b].column
    {
      var a' := if a < k then a else a + 1;
      var b' := if b < k then b else b + 1;
      assert r[a] == o[a'] && r[b] == o[b'];
    }
    forall m | 0 <= m < |r|
      ensures Columns(r)[m] != o[k].column
    {
      assert r[m] == o[if m < k then m else m + 1];
    }
  }

  /**
    The "primary" ordering puts column `i` first in direction `d` and keeps
    every other entry in order: `i` occurs exactly once, so the list is as
    long as the ordering when `i` is sorted and one longer when it is not,
    and its keys stay distinct.
   */
  lemma MadePrimaryShape(o: Ordering, i: nat, d: Dir)
    requires DistinctColumns(o)
    ensures MadePrimary(o, i, d)[0] == OrderEntry(i, d)
    ensures MadePrimary(o, i, d)[1..] == Removed(o, i)
    ensures forall m :: 1 <= m < |MadePrimary(o, i, d)| ==> MadePrimary(o, i, d)[m].column != i
    ensures |MadePrimary(o, i, d)| == if i in Columns(o) then |o| else |o| + 1
    ensures DistinctColumns(MadePrimary(o, i, d))
  {
    RemovedDeletesEntry(o, i);
    var r := Removed(o, i);
    if i in Columns(o) {
      DeletionKeepsDistinct(o, ColumnIndex(o, i));
    } else {
      forall m | 0 <= m < |o|
        ensures o[m].column != i
      {
        assert Columns(o)[m] == o[m].column;
      }
    }
    assert MadePrimary(o, i, d)[1..] == r;
  }

  /** Removing a column keeps the keys distinct and leaves that column out. */
  lemma RemovedShape(o: Ordering, i: nat)
    requires DistinctColumns(o)
    ensures DistinctColumns(Removed(o, i))
    ensures i !in Columns(Removed(o, i))
    ensures |Removed(o, i)| == if i in Columns(o) then |o| - 1 else |o|
  {
    MadePrimaryShape(o, i, Asc);
    var p := MadePrimary(o, i, Asc);
    assert Removed(o, i) == p[1..];
    forall m | 0 <= m < |Removed(o, i)|
      ensures Columns(Removed(o, i))[m] != i
    {
      assert p[m + 1].column != i;
    }
  }

  /**
    Toggling flips column `i`'s direction at its own place and changes no
    other entry; for a column that is not sorted it returns the ordering
    itself, which is then also what removing it gives. Toggling twice
    restores the ordering.
   */
  lemma ToggledFlipsInPlace(o: Ordering, i: nat)
    requires DistinctColumns(o)
    ensures Columns(Toggled(o, i)) == Columns(o)
    ensures DistinctColumns(Toggled(o, i))
    ensures i in Columns(o) ==>
              var k := ColumnIndex(o, i);
              Toggled(o, i) == o[k := OrderEntry(i, Flip(o[k].dir))]
    ensures i !in Columns(o) ==> Toggled(o, i) == o && Toggled(o, i) == Removed(o, i)
    ensures Toggled(Toggled(o, i), i) == o
  {
    RemovedDeletesEntry(o, i);
    var t := Toggled(o, i);
    assert Columns(t) == Columns(o);
    if i in Columns(o) {
      var k := ColumnIndex(o, i);
      forall m | 0 <= m < |o| && m != k
        ensures o[m].column != i
      {
      }
      assert t == o[k := OrderEntry(i, Flip(o[k].dir))];
    } else {
      forall m | 0 <= m < |o|
        ensures o[m].column != i
      {
        assert Columns(o)[m] == o[m].column;
      }
      assert t == o;
    }
    forall m | 0 <= m < |o|
      ensures Toggled(t, i)[m] == o[m]
    {
      if o[m].column == i {
        assert Flip(Flip(o[m].dir)) == o[m].dir;
      }
    }
  }

  /** Reads one URL parameter back: `-n` is column `n` descending, `n` ascending. */
  function ParseParam(p: string): Option<OrderEntry>
  {
    if |p| > 0 && p[0] == '-' then
      if IsDigits(p[1..]) then Some(OrderEntry(ParseDigits(p[1..]), Desc)) else None
    else if IsDigits(p) then Some(OrderEntry(ParseDigits(p), Asc))
    else None
  }

  function DecodeParams(ps: seq<string>): Option<Ordering>
  {
    if |ps| == 0 then Some([])
    else
      match (ParseParam(ps[0]), DecodeParams(ps[1..]))
      case (Some(e), Some(rest)) => Some([e] + rest)
      case _ => None
  }

  /** Reads a whole `o=` value back into an ordering. */
  function DecodeOrder(s: string): Option<Ordering>
  {
    if s == "" then Some([]) else DecodeParams(Split(s))
  }

  /** A parameter made by `make_qs_param` reads back as the entry it was made from. */
  lemma ParamRoundTrip(e: OrderEntry)
    ensures ParseParam(Param(e)) == Some(e)
  {
    var digits := NatToString(e.column);
    if e.dir == Desc {
      assert Param(e)[1..] == digits;
    } else {
      assert Param(e) == digits;
    }
  }

  lemma {:induction false} DecodeParamsEncode(o: Ordering)
    ensures DecodeParams(Encode(o)) == Some(o)
  {
    if |o| > 0 {
      ParamRoundTrip(o[0]);
      assert Encode(o)[1..] == Encode(o[1..]);
      DecodeParamsEncode(o[1..]);
      assert [o[0]] + o[1..] == o;
    }
  }

  lemma {:induction false} JoinNonEmpty(parts: seq<string>)
    requires |parts| > 0 && |parts[0]| > 0
    ensures Join(parts) != ""
  {
    if |parts| > 1 {
      assert Join(parts)[0] == parts[0][0];
    }
  }

  /**
    The dot-joined parameter list of any ordering reads back as that
    ordering, so each link's `o=` value says exactly which ordering the
    link asks for.
   */
  lemma DecodeEncodedOrder(o: Ordering)
    ensures DecodeOrder(Join(Encode(o))) == Some(o)
  {
    var ps := Encode(o);
    if |o| > 0 {
      JoinNonEmpty(ps);
      SplitJoin(ps);
      DecodeParamsEncode(o);
    }
  }
}
