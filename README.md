# grp_tags: sortable inlines and change-list sort headers

A Dafny model of the two routines with real logic in the `grp_tags`
template-tag library of the Grappelli admin theme for Django:

- `formsetsort`, the filter that reorders the forms of a sortable inline:
  forms whose position field is set to something other than `-1` come
  first, in non-decreasing position, and every other form follows in its original order
  (`formsets.dfy`);
- the sort-header computation of `extended_result_headers` and the
  `num_sorted_fields` count of `result_list_custom`. For each
  `list_display` column the model works out whether it is sortable;
  whether it is sorted, its sort priority and direction; and the three
  ordering links "make primary", "remove" and "toggle". The ordering
  (`get_ordering_field_columns()`, an insertion-ordered dict from column
  index to `asc`/`desc`) is a sequence of entries with distinct columns
  (`orderings.dfy`, `result_headers.dfy`);
- the small string helpers `prettylabel` (`labels.dfy`) and
  `make_qs_param` (`orderings.dfy`), with `str(n)`, `'.'.join` and
  `str.replace` written out in `text.dfy`.

The imperative parts keep their form. `formsetsort` is a method: a loop
collects `(position, item)` pairs, the pairs are sorted, and a second
loop appends the unpositioned items. The three parameter lists are built
in one loop over the ordering (`OrderParams`). The header generator
(`ExtendedResultHeaders`) and the sorted-header counter
(`ResultListCustom`) are loops too. Each method is proved against
specification functions. The lemmas beside them prove what the lists
mean. A decoder for the `o=` parameter (`DecodeOrder`) is the partner of
`make_qs_param` and the join: each link's parameter reads back as exactly
the ordering it stands for.

Inputs that come from Django are plain values here:

- `label_for_field`'s text and attribute for each column;
- `list_shortened_labels`;
- the ordering dict.

`cl.get_query_string({ORDER_VAR: o})` is the constructor `OrderQuery(o)`.

On the action checkbox, the code is narrower than the obvious reading.
A column named `action_checkbox` gets the checkbox header only when
`label_for_field` returned an attribute for it (line 243). Django always
returns one, but the model follows the code. So `HeaderSortability`
states the condition with `attr.Some?`.

## Model

| member | source | states |
|---|---|---|
| `Formsets.FormsetSort` | grappelli/templatetags/grp_tags.py:128-147 | with an empty argument the formset is returned unchanged; otherwise the result is a permutation of the formset (same length, same multiset); an item has a position exactly when it lies in the first `|Positioned|` places; that prefix is in non-decreasing integer position and is a permutation of the positioned items; the rest equals the unpositioned items in their original order |
| `Formsets.HasPosition` | grappelli/templatetags/grp_tags.py:137-143 | a form has a position exactly when it has the field and its data is present, non-empty and not `"-1"`; the two loops test this condition and its negation |
| `Formsets.IntValue` | grappelli/templatetags/grp_tags.py:138 | `int()` of an optional sign followed by decimal digits: the value of the digits, negated after a minus; never positive after a minus, never negative otherwise |
| `Formsets.IntValueOfDecimal` | grappelli/templatetags/grp_tags.py:138 | `int()` reads back the decimal form of a natural number, and of its negation with a leading minus |
| `Formsets.KeyedPositioned` | grappelli/templatetags/grp_tags.py:134-138 | the first loop's pair list: `(int(position), item)` for each positioned form, in formset order, one pair per positioned form |
| `Formsets.Items` | grappelli/templatetags/grp_tags.py:140 | `[item[1] for item in sorted_list]`: the forms of the pairs, in pair order, one per pair |
| `Formsets.SortByKey` | grappelli/templatetags/grp_tags.py:139 | the sorted pair list is ordered by position and is a permutation of the pairs collected |
| `Formsets.InsertByKey` | grappelli/templatetags/grp_tags.py:139 | inserting a pair into a list sorted by position keeps it sorted and adds exactly that pair |
| `Formsets.SortedResult` | grappelli/templatetags/grp_tags.py:133-144 | the sorted pairs' items followed by the unpositioned items form a permutation of the formset whose positioned items come first, in non-decreasing position, and whose rest is the unpositioned items in order |
| `Formsets.FormsetPrefixStep` | grappelli/templatetags/grp_tags.py:134-144 | each form of the input adds one pair to the collected pairs when its position is set, and otherwise adds itself to the unpositioned items |
| `Formsets.LowerBoundKept` | grappelli/templatetags/grp_tags.py:139 | a position at or below every collected key stays at or below every key after an insertion |
| `Formsets.SortedPrefixFacts` | grappelli/templatetags/grp_tags.py:135-140 | after sorting, the projected items are a permutation of the positioned items; each of them has a position; their positions never decrease |
| `Formsets.KeyedPositionedFacts` | grappelli/templatetags/grp_tags.py:135-138 | each collected pair carries the integer value of its own item's position, and only positioned items are collected |
| `Formsets.ItemsOfKeyedPositioned` | grappelli/templatetags/grp_tags.py:140 | projecting the items out of the collected pairs gives the positioned items in their original order |
| `Formsets.ItemsPermutation` | grappelli/templatetags/grp_tags.py:139-140 | projecting the items out of two permuted pair lists gives permuted item lists, so the sort loses and duplicates no item |
| `Formsets.UnpositionedLacksPosition` | grappelli/templatetags/grp_tags.py:141-144 | no item appended by the second loop has a position |
| `Formsets.PartitionIsPermutation` | grappelli/templatetags/grp_tags.py:135-144 | the positioned and the unpositioned items together are exactly the formset, as a multiset |
| `Labels.PrettyLabel` | grappelli/templatetags/grp_tags.py:207 | the filter `value.replace(":</label>", "</label>")`; the result is never longer than the label |
| `Text.ReplaceAll` | grappelli/templatetags/grp_tags.py:207 | Python's `str.replace`: every leftmost non-overlapping occurrence of the pattern is replaced; a replacement no longer than the pattern never lengthens the string |
| `Labels.PrettyLabelDropsColonsBeforeClose` | grappelli/templatetags/grp_tags.py:205-207 | `prettylabel` equals the character-by-character reference that drops a colon exactly when `</label>` follows it and keeps every other character |
| `Labels.ColonThenClose` | grappelli/templatetags/grp_tags.py:207 | a colon followed by `</label>` is an occurrence of the pattern the filter replaces |
| `Labels.PrettyLabelWithoutColonClose` | grappelli/templatetags/grp_tags.py:207 | a label without `:</label>` is returned unchanged |
| `Text.ReplaceAllAbsent` | grappelli/templatetags/grp_tags.py:207 | `str.replace` with a pattern that does not occur returns the string unchanged |
| `Text.NatToString` | grappelli/templatetags/grp_tags.py:283 | `str(n)` is a non-empty run of digits whose decimal value is `n`, with a leading zero only for 0 |
| `Text.Join` | grappelli/templatetags/grp_tags.py:309-311 | Python's `'.'.join`: the pieces in order with one dot between neighbours; `Text.SplitJoin` is its inverse |
| `Text.SplitJoin` | grappelli/templatetags/grp_tags.py:309-311 | splitting the dot-joined list on `.` gives the list back when no piece contains a dot |
| `Orderings.MakeQsParam` | grappelli/templatetags/grp_tags.py:283 | the parameter is non-empty, contains no dot, and starts with `-` exactly when the direction is `'desc'` |
| `Orderings.ParamRoundTrip` | grappelli/templatetags/grp_tags.py:283 | a parameter made from a column and direction reads back as that column and direction (`-n` descending, `n` ascending) |
| `Orderings.DecodeParamsEncode` | grappelli/templatetags/grp_tags.py:283-297 | the parameter list of an ordering reads back, entry by entry, as that ordering |
| `Orderings.DecodeEncodedOrder` | grappelli/templatetags/grp_tags.py:283-311 | the dot-joined parameter list of any ordering, the empty one included, decodes to exactly that ordering |
| `Orderings.Flip` | grappelli/templatetags/grp_tags.py:277 | the flip table `{'asc': 'desc', 'desc': 'asc'}`: the new direction always differs from the current one |
| `Orderings.ColumnIndex` | grappelli/templatetags/grp_tags.py:275 | `list(ordering).index(i)` is a position holding column `i` with no earlier position holding it |
| `Orderings.ColumnIndexUnique` | grappelli/templatetags/grp_tags.py:272-275 | with distinct keys, any position holding column `i` is the one the index lookup finds |
| `Orderings.SortStateOf` | grappelli/templatetags/grp_tags.py:267-277 | a column is sorted exactly when it is a key; its priority is then its 1-based place among the keys and 0 otherwise; the current direction is its entry's; the new direction is the flip of the current one when sorted and `asc` when not |
| `Orderings.RemovedDeletesEntry` | grappelli/templatetags/grp_tags.py:285-297 | the "remove" ordering equals the ordering when the column is not sorted; otherwise it is the ordering with exactly that column's entry deleted, the other entries keeping their order and directions |
| `Orderings.RemovedAbsent` | grappelli/templatetags/grp_tags.py:285-297 | when the column is not a key, the "remove" ordering is the ordering itself |
| `Orderings.RemovedAt` | grappelli/templatetags/grp_tags.py:285-297 | when the column is the key at place `k`, the "remove" ordering is the ordering without place `k` |
| `Orderings.RemovedShape` | grappelli/templatetags/grp_tags.py:285-297 | the "remove" ordering has distinct keys, does not hold the column, and is one shorter exactly when the column was sorted |
| `Orderings.DeletionKeepsDistinct` | grappelli/templatetags/grp_tags.py:292 | deleting an entry leaves distinct keys, and the deleted key appears nowhere in what remains |
| `Orderings.ToggledFlipsInPlace` | grappelli/templatetags/grp_tags.py:285-296 | the "toggle" ordering has the same columns in the same order, with only column `i`'s direction flipped at its own place; for an unsorted column it equals the ordering and the "remove" ordering; toggling twice restores the ordering |
| `Orderings.MadePrimaryShape` | grappelli/templatetags/grp_tags.py:285-300 | the "primary" ordering starts with column `i` in the requested direction, continues with the "remove" ordering, holds `i` exactly once and has distinct keys; its length is the ordering's when `i` is sorted and one more when not |
| `ResultHeaders.Kind` | grappelli/templatetags/grp_tags.py:243-265 | the column's branch: the checkbox header for `action_checkbox` with an attribute, a plain header for an attribute without a truthy `admin_order_field`, the sortable header otherwise |
| `ResultHeaders.HeaderText` | grappelli/templatetags/grp_tags.py:238-241 | the header text is the non-empty shortened label when there is one, and the field's label otherwise |
| `ResultHeaders.HeaderTooltip` | grappelli/templatetags/grp_tags.py:238-240 | the tooltip is the full label when a non-empty shortened label replaces it, and empty otherwise |
| `ResultHeaders.ThClasses` | grappelli/templatetags/grp_tags.py:266-276 | the CSS classes `sortable` and `column-<field>`, followed by `sorted ascending` or `sorted descending` when the column is sorted |
| `ResultHeaders.SortableHeaderOf` | grappelli/templatetags/grp_tags.py:265-313 | the header of a sortable column: its sort state, the three links as the dot-joined parameter lists of the "primary", "remove" and "toggle" orderings, and its classes |
| `ResultHeaders.HeaderOf` | grappelli/templatetags/grp_tags.py:236-313 | the header of column `k`: the text and tooltip after shortening, then the checkbox, plain or sortable header its kind selects |
| `ResultHeaders.OrderParams` | grappelli/templatetags/grp_tags.py:279-300 | the loop's three lists are the parameter lists of the "primary", "remove" and "toggle" orderings |
| `ResultHeaders.PrefixStep` | grappelli/templatetags/grp_tags.py:285-297 | how the "remove" and "toggle" orderings and key membership grow by one ordering entry; a key met in the loop has not been met before |
| `ResultHeaders.SortableColumnHeader` | grappelli/templatetags/grp_tags.py:265-313 | the sortable branch yields the header built from the column's sort state, the three links and the CSS classes |
| `ResultHeaders.ExtendedResultHeaders` | grappelli/templatetags/grp_tags.py:231-313 | one header per `list_display` column, in order, each the checkbox, plain or sortable header that the column's kind calls for |
| `ResultHeaders.ResultListCustom` | grappelli/templatetags/grp_tags.py:316-330 | returns the headers and `num_sorted_fields`, the number of headers that are both sortable and sorted |
| `ResultHeaders.SortedHeaderIndicesStep` | grappelli/templatetags/grp_tags.py:323-325 | each header adds one to the count exactly when it is sortable and sorted |
| `ResultHeaders.HeaderSortability` | grappelli/templatetags/grp_tags.py:243-263 | a header is sortable exactly when the column has no attribute, or is not `action_checkbox` and has a truthy `admin_order_field`; an `action_checkbox` attribute gives the checkbox header |
| `ResultHeaders.SortableHeaderState` | grappelli/templatetags/grp_tags.py:265-277 | for a sortable column the header is sorted exactly when the column is a key; its priority then points at the column's entry, and it is ascending exactly when that entry is ascending; an unsorted header has priority 0 and is not ascending |
| `ResultHeaders.SortableHeaderLinks` | grappelli/templatetags/grp_tags.py:279-311 | the "primary" link decodes to the ordering with the column moved first in the flipped direction (`asc` when unsorted); the "remove" and "toggle" links decode to the removed and toggled orderings |
| `ResultHeaders.SortedHeadersAreSortedColumns` | grappelli/templatetags/grp_tags.py:322-325 | the headers counted are exactly the sortable columns whose index is a key of the ordering |
| `ResultHeaders.NumSortedFieldsBound` | grappelli/templatetags/grp_tags.py:322-325 | `num_sorted_fields` never exceeds the number of entries in the ordering |

## Left out

- Template-tag registration, template loading and rendering (`get_template`, `Context`, `render`), and `mark_safe`/`format_html`. The HTML escaping of the field name in a class attribute is not modelled. Classes are kept as a list of class names, and the `class_attrib` string is not built.
- `do_get_generic_objects`, `get_content_types`, `switch_user_dropdown`: database queries, session and request access.
- The JSON getters and `safe_json_else_list_tag`: a library serialiser and a catch-all fallback around one-line dict lookups.
- `admin_list_filter` and `admin_list_filter_custom`: template selection and rendering only.
- The settings passthroughs (`get_admin_title`, `get_admin_url`, `get_lang`, the date and time format getters, `grappelli_admin_title`, `grappelli_clean_input_types`) and `classname`/`classpath`, which rely on runtime class introspection.
- `label_for_field`, `get_ordering_field_columns`, `list_shortened_labels` and `get_query_string` are Django internals. Their results are inputs, and `get_query_string` is the wrapper `OrderQuery`; the other query parameters it would keep are not modelled.
- `result_hidden_fields` and `results` in `result_list_custom`: Django internals. Only the headers and the count are modelled.
- Formsets.FormsetSort: does not fix the order of forms with equal positions. On a tie, Python 2 (which this module targets) compares the form objects themselves in an order the model does not know, and the contract leaves that order open. On Python 3 the comparison of two forms raises `TypeError` instead, which is not modelled.
- Formsets.FormsetSort: requires every form to have the field `arg`; a form without it makes `item.form[arg]` raise `KeyError` (lines 136 and 142), and that error is excluded by the precondition rather than modelled.
- Formsets.FormsetSort: requires a set position to be an optional sign followed by ASCII digits. Python 2's `int()` also accepts surrounding whitespace and, on unicode data, non-ASCII decimal digits, and it raises `ValueError` on anything else. Such data is excluded by the precondition rather than modelled.
- Directions are the two values `Asc`/`Desc`. Django only ever supplies lower-case `asc`/`desc`, so the `.lower()` call and the `KeyError` the flip table would raise on any other value are not modelled.
- `list_display` entries are reduced to a string `fieldName`. Django also allows callables and attribute names resolved at run time; for those, `'column-{0}'.format(field_name)` (line 266) formats the callable itself, which is not modelled.
- `admin_order_field` is an optional string. In Python any truthy object enables sorting.
- The ordering's distinct keys are a precondition (`ValidChangeList`, `DistinctColumns`) because the Python value is a dict.
