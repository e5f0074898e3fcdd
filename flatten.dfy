/** Dictionary flattening (common_core/dicts/flatten.py). A Python dict is
    modelled as its list of items: keys unique, in insertion order. */
module Flatten {
  import opened Wrappers
  import opened Text

  /** A dict value: a leaf, or a nested dict given by its items. */
  datatype Value<L> = Leaf(leaf: L) | Dict(entries: seq<(string, Value<L>)>)

  // ---------------------------------------------------------------------------
  // Python dicts as insertion-ordered item lists.

  function Keys<V>(d: seq<(string, V)>): (r: seq<string>)
    ensures |r| == |d| && forall i :: 0 <= i < |d| ==> r[i] == d[i].0
  {
    seq(|d|, i requires 0 <= i < |d| => d[i].0)
  }

  predicate UniqueKeys<V>(d: seq<(string, V)>)
  {
    forall i, j :: 0 <= i < j < |d| ==> d[i].0 != d[j].0
  }

  /** d[k], None for a missing key. */
  function Lookup<V>(d: seq<(string, V)>, k: string): (r: Option<V>)
    ensures r.None? <==> k !in Keys(d)
  {
    if d == [] then None
    else if d[|d| - 1].0 == k then Some(d[|d| - 1].1)
    else
      var init := d[..|d| - 1];
      assert forall i :: 0 <= i < |init| ==> Keys(init)[i] == Keys(d)[i];
      assert Keys(d) == Keys(init) + [d[|d| - 1].0];
      Lookup(init, k)
  }

  /** d[k] = v: an existing key keeps its position and takes the new value;
      a new key goes at the end. */
  function Store<V>(d: seq<(string, V)>, k: string, v: V): (r: seq<(string, V)>)
    requires UniqueKeys(d)
    ensures UniqueKeys(r)
    ensures Lookup(r, k) == Some(v)
    ensures forall x :: x != k ==> Lookup(r, x) == Lookup(d, x)
    ensures k in Keys(d) ==> Keys(r) == Keys(d)
    ensures k !in Keys(d) ==> Keys(r) == Keys(d) + [k]
    ensures forall p :: p in r ==> p in d || p == (k, v)
  {
    if k in Keys(d) then
      var i :| 0 <= i < |d| && Keys(d)[i] == k;
      var r := d[i := (k, v)];
      assert Keys(r) == Keys(d);
      LookupUpdated(d, i, v);
      assert forall j :: 0 <= j < |r| && j != i ==> r[j] == d[j];
      r
    else
      var r := d + [(k, v)];
      assert r[..|r| - 1] == d;
      assert Keys(r) == Keys(d) + [k];
      r
  }

  /** Replacing the value at position i changes the lookup of that key only. */
  lemma {:induction false} LookupUpdated<V>(d: seq<(string, V)>, i: nat, v: V)
    requires UniqueKeys(d) && i < |d|
    ensures Lookup(d[i := (d[i].0, v)], d[i].0) == Some(v)
    ensures forall x :: x != d[i].0 ==> Lookup(d[i := (d[i].0, v)], x) == Lookup(d, x)
  {
    var r := d[i := (d[i].0, v)];
    if i < |d| - 1 {
      var init := d[..|d| - 1];
      assert r[..|r| - 1] == init[i := (d[i].0, v)];
      assert UniqueKeys(init) by {
        forall a, b | 0 <= a < b < |init| ensures init[a].0 != init[b].0 { assert init[a] == d[a] && init[b] == d[b]; }
      }
      LookupUpdated(init, i, v);
      assert d[|d| - 1].0 != d[i].0;
    }
  }

  /** dict(items): the items stored one after the other. */
  function FromItems<V>(items: seq<(string, V)>): (r: seq<(string, V)>)
    ensures UniqueKeys(r)
  {
    if items == [] then []
    else Store(FromItems(items[..|items| - 1]), items[|items| - 1].0, items[|items| - 1].1)
  }

  /** The value of the last item with key k, None when there is none. */
  function LastValue<V>(items: seq<(string, V)>, k: string): Option<V>
  {
    if items == [] then None
    else if items[|items| - 1].0 == k then Some(items[|items| - 1].1)
    else LastValue(items[..|items| - 1], k)
  }

  /** dict([(k, v)]) */
  lemma FromItemsSingle<V>(k: string, v: V)
    ensures FromItems([(k, v)]) == [(k, v)]
  {
    assert [(k, v)][..0] == [];
  }

  /** In dict(items) the later item for a key wins. */
  lemma {:induction false} FromItemsLastWins<V>(items: seq<(string, V)>, k: string)
    ensures Lookup(FromItems(items), k) == LastValue(items, k)
  {
    if items != [] {
      FromItemsLastWins(items[..|items| - 1], k);
    }
  }

  /** dict(items) has exactly the keys of the items, and every pair it holds
      is one of the items. */
  lemma {:induction false} FromItemsContents<V>(items: seq<(string, V)>)
    ensures forall k :: k in Keys(FromItems(items)) <==> k in Keys(items)
    ensures forall p :: p in FromItems(items) ==> p in items
  {
    if items != [] {
      var init := items[..|items| - 1];
      FromItemsContents(init);
      assert Keys(items) == Keys(init) + [items[|items| - 1].0];
      assert forall p :: p in init ==> p in items;
    }
  }

  // ---------------------------------------------------------------------------
  // flatten_dict

  /** new_key for a key k of the dict being flattened. */
  function NewKey(k: string, keepParent: bool, parentKey: string, separator: string): (r: string)
    ensures keepParent && parentKey != "" ==> r == parentKey + separator + k
    ensures !keepParent || parentKey == "" ==> r == k
  {
    if keepParent then (if parentKey != "" then parentKey + separator + k else k) else k
  }

  /** The items that flatten_dict appends for the entries of d from position i
      on. */
  function FlattenItems<L>(d: seq<(string, Value<L>)>, i: nat, keepParent: bool, parentKey: string, separator: string): seq<(string, L)>
    requires i <= |d|
    decreases Dict(d), |d| - i, 1
  {
    if i == |d| then []
    else EntryItems(d, i, keepParent, parentKey, separator) + FlattenItems(d, i + 1, keepParent, parentKey, separator)
  }

  /** The items for the entry at position i, as written: a nested dict is
      flattened by flatten_dict(v, new_key, separator=separator), which puts
      new_key in the keep_parent slot (a non-empty key is truthy) and leaves
      parent_key empty. */
  function EntryItems<L>(d: seq<(string, Value<L>)>, i: nat, keepParent: bool, parentKey: string, separator: string): seq<(string, L)>
    requires i < |d|
    decreases Dict(d), |d| - i, 0
  {
    var newKey := NewKey(d[i].0, keepParent, parentKey, separator);
    match d[i].1
    case Leaf(x) => [(newKey, x)]
    case Dict(nested) => FromItems(FlattenItems(nested, 0, newKey != "", "", separator))
  }

  /** The dict flatten_dict returns. */
  function Flattened<L>(d: seq<(string, Value<L>)>, keepParent: bool, parentKey: string, separator: string): (r: seq<(string, L)>)
    ensures UniqueKeys(r)
  {
    FromItems(FlattenItems(d, 0, keepParent, parentKey, separator))
  }

  /** flatten_dict: the loop over the items, recursing into nested dicts. */
  method FlattenDict<L>(d: seq<(string, Value<L>)>, keepParent: bool := true, parentKey: string := "", separator: string := "")
    returns (r: seq<(string, L)>)
    ensures r == Flattened(d, keepParent, parentKey, separator)
    decreases Dict(d)
  {
    var items: seq<(string, L)> := [];
    for i := 0 to |d|
      invariant FlattenItems(d, 0, keepParent, parentKey, separator) == items + FlattenItems(d, i, keepParent, parentKey, separator)
    {
      var k := d[i].0;
      var v := d[i].1;
      var newKey := if keepParent then (if parentKey != "" then parentKey + separator + k else k) else k;
      var entry: seq<(string, L)>;
      if v.Dict? {
        entry := FlattenDict(v.entries, newKey != "", separator := separator);
      } else {
        entry := [(newKey, v.leaf)];
      }
      assert newKey == NewKey(k, keepParent, parentKey, separator);
      EntryItemsOf(d, i, keepParent, parentKey, separator);
      FlattenStep(d, i, keepParent, parentKey, separator, items, entry);
      items := items + entry;
    }
    assert items + FlattenItems(d, |d|, keepParent, parentKey, separator) == items;
    r := FromItems(items);
  }

  /** The items of one entry: a leaf under its new key, or the flattened
      nested dict. */
  lemma EntryItemsOf<L>(d: seq<(string, Value<L>)>, i: nat, keepParent: bool, parentKey: string, separator: string)
    requires i < |d|
    ensures var newKey := NewKey(d[i].0, keepParent, parentKey, separator);
      EntryItems(d, i, keepParent, parentKey, separator) ==
        if d[i].1.Dict? then Flattened(d[i].1.entries, newKey != "", "", separator) else [(newKey, d[i].1.leaf)]
  {
  }

  /** One more entry moves from the items still to come to the items built. */
  lemma FlattenStep<L>(d: seq<(string, Value<L>)>, i: nat, keepParent: bool, parentKey: string, separator: string,
                       items: seq<(string, L)>, entry: seq<(string, L)>)
    requires i < |d|
    requires FlattenItems(d, 0, keepParent, parentKey, separator) == items + FlattenItems(d, i, keepParent, parentKey, separator)
    requires entry == EntryItems(d, i, keepParent, parentKey, separator)
    ensures FlattenItems(d, 0, keepParent, parentKey, separator) == (items + entry) + FlattenItems(d, i + 1, keepParent, parentKey, separator)
  {
    var rest := FlattenItems(d, i + 1, keepParent, parentKey, separator);
    assert items + (entry + rest) == (items + entry) + rest;
  }

  /** With no parent key, keep_parent makes no difference: every key is the
      item's own key. */
  lemma {:induction false} FlattenItemsNoParent<L>(d: seq<(string, Value<L>)>, i: nat, keepParent: bool, separator: string)
    requires i <= |d|
    ensures FlattenItems(d, i, keepParent, "", separator) == FlattenItems(d, i, false, "", separator)
    decreases |d| - i
  {
    if i < |d| {
      FlattenItemsNoParent(d, i + 1, keepParent, separator);
    }
  }

  /** A top-level leaf under keep_parent and a non-empty parent key comes out
      as parent_key + separator + k, otherwise as just k. */
  lemma {:induction false} TopLevelLeafKey<L>(d: seq<(string, Value<L>)>, keepParent: bool, parentKey: string, separator: string, i: nat)
    requires i < |d| && d[i].1.Leaf?
    ensures var key := if keepParent && parentKey != "" then parentKey + separator + d[i].0 else d[i].0;
      (key, d[i].1.leaf) in FlattenItems(d, 0, keepParent, parentKey, separator)
  {
    TopLevelLeafFrom(d, keepParent, parentKey, separator, 0, i);
  }

  lemma {:induction false} TopLevelLeafFrom<L>(d: seq<(string, Value<L>)>, keepParent: bool, parentKey: string, separator: string, j: nat, i: nat)
    requires j <= i < |d| && d[i].1.Leaf?
    ensures (NewKey(d[i].0, keepParent, parentKey, separator), d[i].1.leaf) in FlattenItems(d, j, keepParent, parentKey, separator)
    decreases i - j
  {
    if j < i {
      TopLevelLeafFrom(d, keepParent, parentKey, separator, j + 1, i);
    } else {
      assert EntryItems(d, i, keepParent, parentKey, separator) == [(NewKey(d[i].0, keepParent, parentKey, separator), d[i].1.leaf)];
    }
  }

  /** A nested dict's entries are flattened as if there were no parent at all:
      the nested keys are not prefixed with the key of the dict holding them. */
  lemma NestedKeysUnprefixed<L>(d: seq<(string, Value<L>)>, i: nat, keepParent: bool, parentKey: string, separator: string)
    requires i < |d| && d[i].1.Dict?
    ensures FlattenItems(d, i, keepParent, parentKey, separator) ==
      FromItems(FlattenItems(d[i].1.entries, 0, false, "", separator)) + FlattenItems(d, i + 1, keepParent, parentKey, separator)
  {
    FlattenItemsNoParent(d[i].1.entries, 0, NewKey(d[i].0, keepParent, parentKey, separator) != "", separator);
  }

  /** Every leaf of a dict from position i on, at any depth. */
  function LeafValues<L>(d: seq<(string, Value<L>)>, i: nat): set<L>
    requires i <= |d|
    decreases Dict(d), |d| - i
  {
    if i == |d| then {}
    else
      (match d[i].1
       case Leaf(x) => {x}
       case Dict(nested) => LeafValues(nested, 0))
      + LeafValues(d, i + 1)
  }

  /** Every value of the flattened dict is a leaf of the input: nested dicts
      never appear as values (the result type holds leaves only). */
  lemma {:induction false} FlattenedValuesAreLeaves<L>(d: seq<(string, Value<L>)>, i: nat, keepParent: bool, parentKey: string, separator: string)
    requires i <= |d|
    ensures forall p :: p in FlattenItems(d, i, keepParent, parentKey, separator) ==> p.1 in LeafValues(d, i)
    ensures i == 0 ==> forall p :: p in Flattened(d, keepParent, parentKey, separator) ==> p.1 in LeafValues(d, 0)
    decreases Dict(d), |d| - i
  {
    var items := FlattenItems(d, i, keepParent, parentKey, separator);
    if i < |d| {
      FlattenedValuesAreLeaves(d, i + 1, keepParent, parentKey, separator);
      var newKey := NewKey(d[i].0, keepParent, parentKey, separator);
      if d[i].1.Dict? {
        FlattenedValuesAreLeaves(d[i].1.entries, 0, newKey != "", "", separator);
      }
    }
    FromItemsContents(items);
  }

  /** flatten_dict({k: {k2: x}}, separator=sep) as written gives {k2: x}:
      the nested key comes out bare, never as k + sep + k2 (with
      {"a": {"b": 1}} and ".", "b" and not "a.b"). */
  lemma NestedKeyCounterexample<L>(k: string, k2: string, x: L, sep: string)
    requires k != ""
    ensures Flattened([(k, Dict([(k2, Leaf(x))]))], true, "", sep) == [(k2, x)]
    ensures k2 != k + sep + k2
  {
    var inner := [(k2, Leaf(x))];
    var d := [(k, Dict(inner))];
    assert FlattenItems(inner, 1, true, "", sep) == [];
    assert EntryItems(inner, 0, true, "", sep) == [(k2, x)];
    assert FlattenItems(inner, 0, true, "", sep) == [(k2, x)];
    FromItemsSingle(k2, x);
    assert EntryItems(d, 0, true, "", sep) == [(k2, x)];
    assert FlattenItems(d, 1, true, "", sep) == [];
    assert FlattenItems(d, 0, true, "", sep) == [(k2, x)];
    FromItemsSingle(k2, x);
    assert |k + sep + k2| > |k2|;
  }

  // ---------------------------------------------------------------------------
  // The evidently intended recursion: flatten_dict(v, keep_parent, new_key, separator).

  function FlattenItemsIntended<L>(d: seq<(string, Value<L>)>, i: nat, keepParent: bool, parentKey: string, separator: string): seq<(string, L)>
    requires i <= |d|
    decreases Dict(d), |d| - i, 1
  {
    if i == |d| then []
    else EntryItemsIntended(d, i, keepParent, parentKey, separator) + FlattenItemsIntended(d, i + 1, keepParent, parentKey, separator)
  }

  function EntryItemsIntended<L>(d: seq<(string, Value<L>)>, i: nat, keepParent: bool, parentKey: string, separator: string): seq<(string, L)>
    requires i < |d|
    decreases Dict(d), |d| - i, 0
  {
    var newKey := NewKey(d[i].0, keepParent, parentKey, separator);
    match d[i].1
    case Leaf(x) => [(newKey, x)]
    case Dict(nested) => FromItems(FlattenItemsIntended(nested, 0, keepParent, newKey, separator))
  }

  function FlattenedIntended<L>(d: seq<(string, Value<L>)>, keepParent: bool, parentKey: string, separator: string): (r: seq<(string, L)>)
    ensures UniqueKeys(r)
  {
    FromItems(FlattenItemsIntended(d, 0, keepParent, parentKey, separator))
  }

  /** With keep_parent and a parent key, every key of the intended result,
      at any depth, carries the parent key and the separator in front. */
  lemma {:induction false} IntendedKeysPrefixed<L>(d: seq<(string, Value<L>)>, i: nat, parentKey: string, separator: string)
    requires i <= |d| && parentKey != ""
    ensures forall p :: p in FlattenItemsIntended(d, i, true, parentKey, separator) ==> StartsWith(p.0, parentKey + separator)
    ensures i == 0 ==> forall p :: p in FlattenedIntended(d, true, parentKey, separator) ==> StartsWith(p.0, parentKey + separator)
    decreases Dict(d), |d| - i
  {
    var items := FlattenItemsIntended(d, i, true, parentKey, separator);
    var prefix := parentKey + separator;
    if i < |d| {
      IntendedKeysPrefixed(d, i + 1, parentKey, separator);
      var newKey := NewKey(d[i].0, true, parentKey, separator);
      assert newKey == prefix + d[i].0;
      if d[i].1.Dict? {
        var nested := d[i].1.entries;
        IntendedKeysPrefixed(nested, 0, newKey, separator);
        forall p | p in FromItems(FlattenItemsIntended(nested, 0, true, newKey, separator)) ensures StartsWith(p.0, prefix) {
          assert StartsWith(p.0, newKey + separator);
          assert p.0[..|prefix|] == (newKey + separator)[..|prefix|];
        }
      }
    }
    FromItemsContents(items);
  }

  /** The intended recursion gives {k + sep + k2: x} for the same input. */
  lemma IntendedNestedKey<L>(k: string, k2: string, x: L, sep: string)
    requires k != ""
    ensures FlattenedIntended([(k, Dict([(k2, Leaf(x))]))], true, "", sep) == [(k + sep + k2, x)]
  {
    var inner := [(k2, Leaf(x))];
    var d := [(k, Dict(inner))];
    assert NewKey(k2, true, k, sep) == k + sep + k2;
    assert FlattenItemsIntended(inner, 1, true, k, sep) == [];
    assert EntryItemsIntended(inner, 0, true, k, sep) == [(k + sep + k2, x)];
    assert FlattenItemsIntended(inner, 0, true, k, sep) == [(k + sep + k2, x)];
    FromItemsSingle(k + sep + k2, x);
    assert EntryItemsIntended(d, 0, true, "", sep) == [(k + sep + k2, x)];
    assert FlattenItemsIntended(d, 1, true, "", sep) == [];
    assert FlattenItemsIntended(d, 0, true, "", sep) == [(k + sep + k2, x)];
  }

  // ---------------------------------------------------------------------------
  // flatten_querydict

  /** A flattened query value: a single value, or the list as it was. */
  datatype QueryValue = One(value: string) | Many(values: seq<string>)

  function FlattenQueryValue(values: seq<string>): (r: QueryValue)
    ensures r.One? <==> |values| == 1
    ensures r.One? ==> r.value == values[0]
    ensures r.Many? ==> r.values == values
  {
    if |values| == 1 then One(values[0]) else Many(values)
  }

  /** flatten_querydict over QueryDict.lists(). */
  function FlattenQueryDict(q: map<string, seq<string>>): (r: map<string, QueryValue>)
    ensures r.Keys == q.Keys
  {
    map k | k in q :: FlattenQueryValue(q[k])
  }

  function UnflattenQueryValue(v: QueryValue): seq<string>
  {
    match v
    case One(x) => [x]
    case Many(xs) => xs
  }

  /** Nothing is lost: every list, one-element, empty or longer, can be read
      back from the flattened dict. */
  lemma QueryDictRoundTrip(q: map<string, seq<string>>)
    ensures var r := FlattenQueryDict(q);
      forall k :: k in q ==> UnflattenQueryValue(r[k]) == q[k]
  {
    var r := FlattenQueryDict(q);
    forall k | k in q ensures UnflattenQueryValue(r[k]) == q[k] {
      if |q[k]| == 1 { assert q[k] == [q[k][0]]; }
    }
  }
}
