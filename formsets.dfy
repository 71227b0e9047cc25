/**
  The `formsetsort` filter used by sortable inlines: the forms of an inline
  formset are reordered so that forms whose position field is set to
  something other than `-1` come first, in non-decreasing position,
  followed by every other form in its original order.
 */
module Formsets {
  import opened Wrappers
  import opened Text

  /**
    One entry of an inline formset, reduced to what the filter reads:
    `item.form[name].data` for each field `name` of its form (`None` when
    the field carries no data).
   */
  datatype InlineForm = InlineForm(form: map<string, Option<string>>)

  /** A position pair as the filter builds it: `(int(position), item)`. */
  type Keyed = (int, InlineForm)

  /** What Python's `int(s)` accepts here: an optional sign and ASCII digits. */
  predicate IsIntLiteral(s: string) {
    |s| > 0 && (if s[0] == '+' || s[0] == '-' then IsDigits(s[1..]) else IsDigits(s))
  }

  function IntValue(s: string): (r: int)
    requires IsIntLiteral(s)
    ensures s[0] == '-' ==> r <= 0
    ensures s[0] != '-' ==> r >= 0
  {
    if s[0] == '-' then -(ParseDigits(s[1..]) as int)
    else if s[0] == '+' then ParseDigits(s[1..])
    else ParseDigits(s)
  }

  /** `int()` reads back the decimal form of a number, with or without a minus sign. */
  lemma IntValueOfDecimal(n: nat)
    ensures IsIntLiteral(NatToString(n)) && IntValue(NatToString(n)) == n
    ensures IsIntLiteral("-" + NatToString(n)) && IntValue("-" + NatToString(n)) == -(n as int)
  {
    var digits := NatToString(n);
    assert ("-" + digits)[1..] == digits;
  }

  /**
    The item's position field is set: its data is present, non-empty and
    not the placeholder `"-1"` that the inline script writes for new rows.
   */
  predicate HasPosition(item: InlineForm, arg: string) {
    arg in item.form && item.form[arg].Some? && item.form[arg].value != "" && item.form[arg].value != "-1"
  }

  /** The form has the field `arg`, and a set position parses as an integer. */
  predicate ReadablePosition(item: InlineForm, arg: string) {
    arg in item.form && (HasPosition(item, arg) ==> IsIntLiteral(item.form[arg].value))
  }

  /** What the filter demands when it sorts: `item.form[arg]` exists and `int()` succeeds. */
  predicate ReadablePositions(formset: seq<InlineForm>, arg: string) {
    forall k :: 0 <= k < |formset| ==> ReadablePosition(formset[k], arg)
  }

  /** The integer position of a positioned item (0 for any other item). */
  function Position(item: InlineForm, arg: string): int
  {
    if HasPosition(item, arg) && IsIntLiteral(item.form[arg].value) then IntValue(item.form[arg].value) else 0
  }

  /** The positioned items, in their original order. */
  function Positioned(formset: seq<InlineForm>, arg: string): (r: seq<InlineForm>)
    ensures |r| <= |formset|
  {
    if |formset| == 0 then []
    else
      var last := formset[|formset| - 1];
      Positioned(formset[..|formset| - 1], arg) + (if HasPosition(last, arg) then [last] else [])
  }

  /** The items without a position, in their original order. */
  function Unpositioned(formset: seq<InlineForm>, arg: string): (r: seq<InlineForm>)
    ensures |r| <= |formset|
  {
    if |formset| == 0 then []
    else
      var last := formset[|formset| - 1];
      Unpositioned(formset[..|formset| - 1], arg) + (if HasPosition(last, arg) then [] else [last])
  }

  /** The pairs the first loop collects: `(position, item)` for each positioned item. */
  function KeyedPositioned(formset: seq<InlineForm>, arg: string): seq<Keyed>
  {
    if |formset| == 0 then []
    else
      var last := formset[|formset| - 1];
      KeyedPositioned(formset[..|formset| - 1], arg)
        + (if HasPosition(last, arg) then [(Position(last, arg), last)] else [])
  }

  /** `[item[1] for item in pairs]`. */
  function Items(pairs: seq<Keyed>): (r: seq<InlineForm>)
    ensures |r| == |pairs|
  {
    seq(|pairs|, m requires 0 <= m < |pairs| => pairs[m].1)
  }

  predicate KeySorted(pairs: seq<Keyed>) {
    forall a, b :: 0 <= a < b < |pairs| ==> pairs[a].0 <= pairs[b].0
  }

  /** Inserts one pair into a list sorted by key, before the first larger-or-equal key. */
  function InsertByKey(x: Keyed, sorted: seq<Keyed>): (r: seq<Keyed>)
    requires KeySorted(sorted)
    ensures KeySorted(r)
    ensures multiset(r) == multiset(sorted) + multiset{x}
  {
    if |sorted| == 0 then [x]
    else if x.0 <= sorted[0].0 then [x] + sorted
    else
      var rest := InsertByKey(x, sorted[1..]);
      assert sorted == [sorted[0]] + sorted[1..];
      LowerBoundKept(sorted[0].0, x, sorted[1..], rest);
      [sorted[0]] + rest
  }

  /** A bound below every key of `s` and below `x` stays below every key of a permutation of `s + [x]`. */
  lemma LowerBoundKept(bound: int, x: Keyed, s: seq<Keyed>, r: seq<Keyed>)
    requires bound <= x.0
    requires forall m :: 0 <= m < |s| ==> bound <= s[m].0
    requires multiset(r) == multiset(s) + multiset{x}
    ensures forall m :: 0 <= m < |r| ==> bound <= r[m].0
  {
    forall m | 0 <= m < |r|
      ensures bound <= r[m].0
    {
      assert r[m] in multiset(r);
      if r[m] != x {
        assert r[m] in multiset(s);
      }
    }
  }

  /** The in-place `sort()` of the pair list, ordered by position. */
  method SortByKey(pairs: seq<Keyed>) returns (sorted: seq<Keyed>)
    ensures KeySorted(sorted)
    ensures multiset(sorted) == multiset(pairs)
  {
    sorted := [];
    for n := 0 to |pairs|
      invariant KeySorted(sorted)
      invariant multiset(sorted) == multiset(pairs[..n])
    {
      assert pairs[..n + 1] == pairs[..n] + [pairs[n]];
      sorted := InsertByKey(pairs[n], sorted);
    }
    assert pairs[..|pairs|] == pairs;
  }

  /**
    The filter. With an empty `arg` the formset is returned as it is;
    otherwise the result is a permutation of the formset whose first
    `|Positioned(formset, arg)|` items are exactly the positioned ones, in
    non-decreasing position, followed by the unpositioned items in their
    original order.
   */
  method FormsetSort(formset: seq<InlineForm>, arg: string) returns (sortedList: seq<InlineForm>)
    requires arg != "" ==> ReadablePositions(formset, arg)
    ensures arg == "" ==> sortedList == formset
    ensures arg != "" ==> |sortedList| == |formset| && multiset(sortedList) == multiset(formset)
    ensures arg != "" ==> forall m :: 0 <= m < |sortedList| ==>
              (HasPosition(sortedList[m], arg) <==> m < |Positioned(formset, arg)|)
    ensures arg != "" ==> forall a, b :: 0 <= a < b < |Positioned(formset, arg)| ==>
              Position(sortedList[a], arg) <= Position(sortedList[b], arg)
    ensures arg != "" ==> multiset(sortedList[..|Positioned(formset, arg)|]) == multiset(Positioned(formset, arg))
    ensures arg != "" ==> sortedList[|Positioned(formset, arg)|..] == Unpositioned(formset, arg)
  {
    if arg != "" {
      var keyed: seq<Keyed> := [];
      for n := 0 to |formset|
        invariant keyed == KeyedPositioned(formset[..n], arg)
      {
        FormsetPrefixStep(formset, arg, n);
        var item := formset[n];
        var position := item.form[arg];
        if position.Some? && position.value != "" && position.value != "-1" {
          keyed := keyed + [(IntValue(position.value), item)];
        }
      }
      assert formset[..|formset|] == formset;
      keyed := SortByKey(keyed);
      sortedList := Items(keyed);
      for n := 0 to |formset|
        invariant sortedList == Items(keyed) + Unpositioned(formset[..n], arg)
      {
        FormsetPrefixStep(formset, arg, n);
        var item := formset[n];
        var position := item.form[arg];
        if position.None? || position.value == "" || position.value == "-1" {
          sortedList := sortedList + [item];
        }
      }
      assert formset[..|formset|] == formset;
      SortedResult(formset, arg, keyed, sortedList);
    } else {
      sortedList := formset;
    }
  }

  /** How the pairs and the unpositioned items of a prefix grow by one item. */
  lemma FormsetPrefixStep(formset: seq<InlineForm>, arg: string, n: nat)
    requires n < |formset| && ReadablePositions(formset, arg)
    ensures var item := formset[n];
            var position := item.form[arg];
            var positioned := position.Some? && position.value != "" && position.value != "-1";
            && KeyedPositioned(formset[..n + 1], arg)
                 == KeyedPositioned(formset[..n], arg) + (if positioned then [(IntValue(position.value), item)] else [])
            && Unpositioned(formset[..n + 1], arg)
                 == Unpositioned(formset[..n], arg) + (if positioned then [] else [item])
  {
    assert formset[..n + 1][..n] == formset[..n];
    assert ReadablePosition(formset[n], arg);
  }

  /**
    The sorted pairs' items followed by the unpositioned items satisfy
    everything the filter promises.
   */
  lemma SortedResult(formset: seq<InlineForm>, arg: string, keyed: seq<Keyed>, r: seq<InlineForm>)
    requires KeySorted(keyed)
    requires multiset(keyed) == multiset(KeyedPositioned(formset, arg))
    requires r == Items(keyed) + Unpositioned(formset, arg)
    ensures |r| == |formset| && multiset(r) == multiset(formset)
    ensures forall m :: 0 <= m < |r| ==> (HasPosition(r[m], arg) <==> m < |Positioned(formset, arg)|)
    ensures forall a, b :: 0 <= a < b < |Positioned(formset, arg)| ==> Position(r[a], arg) <= Position(r[b], arg)
    ensures multiset(r[..|Positioned(formset, arg)|]) == multiset(Positioned(formset, arg))
    ensures r[|Positioned(formset, arg)|..] == Unpositioned(formset, arg)
  {
    SortedPrefixFacts(formset, arg, keyed);
    assert r[..|keyed|] == Items(keyed);
    assert r[|keyed|..] == Unpositioned(formset, arg);
    UnpositionedLacksPosition(formset, arg);
    PartitionIsPermutation(formset, arg);
    assert multiset(r) == multiset(Items(keyed)) + multiset(Unpositioned(formset, arg));
    assert |multiset(r)| == |r| && |multiset(formset)| == |formset|;
  }

  /** What the sorted pair list gives the prefix of the result. */
  lemma SortedPrefixFacts(formset: seq<InlineForm>, arg: string, keyed: seq<Keyed>)
    requires KeySorted(keyed)
    requires multiset(keyed) == multiset(KeyedPositioned(formset, arg))
    ensures multiset(Items(keyed)) == multiset(Positioned(formset, arg))
    ensures |keyed| == |Positioned(formset, arg)|
    ensures forall m :: 0 <= m < |keyed| ==> HasPosition(Items(keyed)[m], arg)
    ensures forall a, b :: 0 <= a < b < |keyed| ==> Position(Items(keyed)[a], arg) <= Position(Items(keyed)[b], arg)
  {
    ItemsPermutation(keyed, KeyedPositioned(formset, arg));
    ItemsOfKeyedPositioned(formset, arg);
    assert |multiset(keyed)| == |keyed|;
    KeyedPositionedFacts(formset, arg);
    forall m | 0 <= m < |keyed|
      ensures keyed[m].0 == Position(keyed[m].1, arg) && HasPosition(keyed[m].1, arg)
    {
      assert keyed[m] in multiset(KeyedPositioned(formset, arg));
    }
  }

  lemma {:induction false} KeyedPositionedFacts(formset: seq<InlineForm>, arg: string)
    ensures forall p :: p in KeyedPositioned(formset, arg) ==> p.0 == Position(p.1, arg) && HasPosition(p.1, arg)
  {
    if |formset| > 0 {
      KeyedPositionedFacts(formset[..|formset| - 1], arg);
    }
  }

  lemma {:induction false} UnpositionedLacksPosition(formset: seq<InlineForm>, arg: string)
    ensures forall x :: x in Unpositioned(formset, arg) ==> !HasPosition(x, arg)
  {
    if |formset| > 0 {
      UnpositionedLacksPosition(formset[..|formset| - 1], arg);
    }
  }

  lemma {:induction false} ItemsOfKeyedPositioned(formset: seq<InlineForm>, arg: string)
    ensures Items(KeyedPositioned(formset, arg)) == Positioned(formset, arg)
  {
    if |formset| > 0 {
      var init := formset[..|formset| - 1];
      var last := formset[|formset| - 1];
      ItemsOfKeyedPositioned(init, arg);
      var tail := if HasPosition(last, arg) then [(Position(last, arg), last)] else [];
      ItemsConcat(KeyedPositioned(init, arg), tail);
    }
  }

  lemma ItemsConcat(u: seq<Keyed>, v: seq<Keyed>)
    ensures Items(u + v) == Items(u) + Items(v)
  {
  }

  /** Projecting the items out of two permuted pair lists gives permuted item lists. */
  lemma {:induction false} ItemsPermutation(a: seq<Keyed>, b: seq<Keyed>)
    requires multiset(a) == multiset(b)
    ensures multiset(Items(a)) == multiset(Items(b))
    decreases |a|
  {
    if |a| == 0 {
      assert |multiset(b)| == |b|;
    } else {
      var x := a[0];
      assert x in multiset(b);
      var j :| 0 <= j < |b| && b[j] == x;
      var rest := b[..j] + b[j + 1..];
      assert b == b[..j] + [x] + b[j + 1..];
      assert a == [x] + a[1..];
      assert multiset(b) == multiset(b[..j]) + multiset{x} + multiset(b[j + 1..]);
      assert multiset(a) == multiset{x} + multiset(a[1..]);
      assert multiset(rest) == multiset(b[..j]) + multiset(b[j + 1..]);
      assert multiset(a[1..]) == multiset(a) - multiset{x};
      assert multiset(rest) == multiset(b) - multiset{x};
      ItemsPermutation(a[1..], rest);
      ItemsConcat([x], a[1..]);
      ItemsConcat(b[..j], b[j + 1..]);
      ItemsConcat(b[..j] + [x], b[j + 1..]);
      ItemsConcat(b[..j], [x]);
    }
  }

  /** Splitting a formset into positioned and unpositioned items loses and adds nothing. */
  lemma {:induction false} PartitionIsPermutation(formset: seq<InlineForm>, arg: string)
    ensures multiset(Positioned(formset, arg)) + multiset(Unpositioned(formset, arg)) == multiset(formset)
  {
    if |formset| > 0 {
      var init := formset[..|formset| - 1];
      var last := formset[|formset| - 1];
      PartitionIsPermutation(init, arg);
      assert formset == init + [last];
      SplitLast(formset, arg);
    }
  }

  /** The last item goes to exactly one of the two sides. */
  lemma SplitLast(formset: seq<InlineForm>, arg: string)
    requires |formset| > 0
    ensures var init := formset[..|formset| - 1];
            var last := formset[|formset| - 1];
            multiset(Positioned(formset, arg)) + multiset(Unpositioned(formset, arg))
              == multiset(Positioned(init, arg)) + multiset(Unpositioned(init, arg)) + multiset{last}
  {
  }
}
