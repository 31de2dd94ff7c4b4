/** The key/value builder: a fluent accumulator of keys and values that are
    paired by position only when `Build` assembles a `Properties`, plus two
    static constructors from a map and from nested row arrays. */
module Utils {
  import opened JavaLang

  // ---------------------------------------------------------------------
  // Properties.put, the one primitive every constructor is made of
  // ---------------------------------------------------------------------

  /** `Properties.put(key, value)`: a null key or value throws, otherwise the
      key is (re)bound. */
  function Put(p: Props, key: Obj, value: Obj): (r: Result<Props>)
    ensures r.Ok? <==> key.Str? && value.Str?
    ensures r.Ok? ==> r.value.Keys == p.Keys + {key.s} && r.value[key.s] == value.s
    ensures r.Ok? ==> forall k :: k in p && k != key.s ==> k in r.value && r.value[k] == p[k]
    ensures r.Throws? ==> r.ex == NullPointerException
  {
    if key.Null? || value.Null? then Throws(NullPointerException) else Ok(p[key.s := value.s])
  }

  /** A run of puts into a fresh `Properties`, in order, stopping at the first
      one that throws. */
  function PutAll(pairs: seq<(Obj, Obj)>): Result<Props>
  {
    if pairs == [] then Ok(map[])
    else
      match PutAll(pairs[..|pairs| - 1])
      case Throws(e) => Throws(e)
      case Ok(p) => Put(p, pairs[|pairs| - 1].0, pairs[|pairs| - 1].1)
  }

  ghost predicate NoNulls(pairs: seq<(Obj, Obj)>) {
    forall i :: 0 <= i < |pairs| ==> pairs[i].0.Str? && pairs[i].1.Str?
  }

  /** No later pair of `pairs` has the key of pair `i`: pair `i` is the one that sticks. */
  ghost predicate LastWithKey(pairs: seq<(Obj, Obj)>, i: int)
    requires 0 <= i < |pairs|
  {
    forall j :: i < j < |pairs| ==> pairs[j].0 != pairs[i].0
  }

  ghost function KeysOf(pairs: seq<(Obj, Obj)>): set<string> {
    set i | 0 <= i < |pairs| && pairs[i].0.Str? :: pairs[i].0.s
  }

  /** A run of puts throws exactly when some key or value is null, and then
      with NullPointerException. */
  lemma {:induction false} PutAllOkIff(pairs: seq<(Obj, Obj)>)
    ensures PutAll(pairs).Ok? <==> NoNulls(pairs)
    ensures PutAll(pairs).Throws? ==> PutAll(pairs).ex == NullPointerException
  {
    if pairs != [] {
      var n := |pairs| - 1;
      var init := pairs[..n];
      PutAllOkIff(init);
      assert forall i :: 0 <= i < n ==> init[i] == pairs[i];
    }
  }

  /** A run of puts without nulls holds exactly the keys put. */
  lemma {:induction false} PutAllKeys(pairs: seq<(Obj, Obj)>)
    requires NoNulls(pairs)
    ensures PutAll(pairs).Ok? && PutAll(pairs).value.Keys == KeysOf(pairs)
  {
    PutAllOkIff(pairs);
    if pairs != [] {
      var n := |pairs| - 1;
      var init := pairs[..n];
      assert forall i :: 0 <= i < n ==> init[i] == pairs[i];
      PutAllKeys(init);
      assert KeysOf(pairs) == KeysOf(init) + {pairs[n].0.s} by {
        forall k | k in KeysOf(pairs) ensures k in KeysOf(init) + {pairs[n].0.s} {
          var i :| 0 <= i < |pairs| && pairs[i].0.Str? && pairs[i].0.s == k;
          if i < n { assert init[i].0.s == k; }
        }
      }
    }
  }

  /** In a run of puts without nulls every key is bound to the value of its last
      put: a later duplicate overwrites an earlier one. */
  lemma {:induction false} PutAllLastWins(pairs: seq<(Obj, Obj)>)
    requires NoNulls(pairs)
    ensures PutAll(pairs).Ok?
    ensures forall i :: 0 <= i < |pairs| && LastWithKey(pairs, i) ==>
      pairs[i].0.s in PutAll(pairs).value && PutAll(pairs).value[pairs[i].0.s] == pairs[i].1.s
  {
    PutAllOkIff(pairs);
    if pairs != [] {
      var n := |pairs| - 1;
      var init := pairs[..n];
      assert forall i :: 0 <= i < n ==> init[i] == pairs[i];
      PutAllLastWins(init);
      forall i | 0 <= i < |pairs| && LastWithKey(pairs, i)
        ensures pairs[i].0.s in PutAll(pairs).value && PutAll(pairs).value[pairs[i].0.s] == pairs[i].1.s
      {
        if i < n {
          assert LastWithKey(init, i);
          assert pairs[n].0 != pairs[i].0;
        }
      }
    }
  }

  /** The meaning of a run of puts, all in one: it throws exactly when some key
      or value is null; otherwise it holds exactly the keys put, each bound to
      the value of its last put. */
  lemma PutAllMeaning(pairs: seq<(Obj, Obj)>)
    ensures PutAll(pairs).Ok? <==> NoNulls(pairs)
    ensures PutAll(pairs).Throws? ==> PutAll(pairs).ex == NullPointerException
    ensures PutAll(pairs).Ok? ==> PutAll(pairs).value.Keys == KeysOf(pairs)
    ensures PutAll(pairs).Ok? ==>
      forall i :: 0 <= i < |pairs| && LastWithKey(pairs, i) ==> PutAll(pairs).value[pairs[i].0.s] == pairs[i].1.s
  {
    PutAllOkIff(pairs);
    if NoNulls(pairs) {
      PutAllKeys(pairs);
      PutAllLastWins(pairs);
    }
  }

  /** Once a run of puts has thrown, putting more pairs after it still throws. */
  lemma {:induction false} PutAllThrowsOnExtension(pairs: seq<(Obj, Obj)>, k: nat)
    requires k <= |pairs| && PutAll(pairs[..k]).Throws?
    ensures PutAll(pairs) == Throws(NullPointerException)
  {
    PutAllOkIff(pairs[..k]);
    PutAllOkIff(pairs);
    var i :| 0 <= i < k && !(pairs[..k][i].0.Str? && pairs[..k][i].1.Str?);
    assert pairs[i] == pairs[..k][i];
  }

  /** Extending a run of puts by one pair is one more put. */
  lemma PutAllSnoc(pairs: seq<(Obj, Obj)>, key: Obj, value: Obj)
    ensures PutAll(pairs + [(key, value)]) ==
      match PutAll(pairs)
      case Throws(e) => Throws(e)
      case Ok(p) => Put(p, key, value)
  {
    assert (pairs + [(key, value)])[..|pairs|] == pairs;
  }

  // ---------------------------------------------------------------------
  // build(): positional pairing of the accumulated lists
  // ---------------------------------------------------------------------

  /** A lazily created list: None until the first element is added. */
  function Elems(list: Option<seq<Obj>>): seq<Obj>
  {
    if list.None? then [] else list.value
  }

  /** The pairs `build` puts: the i-th key with the i-th value, or with null
      when there is no i-th value. */
  function Pairing(keys: seq<Obj>, values: seq<Obj>): seq<(Obj, Obj)>
  {
    seq(|keys|, i requires 0 <= i < |keys| => (keys[i], if |values| - 1 >= i then values[i] else Null))
  }

  /** What `build` produces from the builder's two lists. */
  function Assemble(keys: Option<seq<Obj>>, values: Option<seq<Obj>>): Result<Props>
  {
    if keys.None? || |keys.value| == 0 then Ok(map[])
    else if values.None? then Throws(NullPointerException)  // values.size() on a list never created
    else PutAll(Pairing(keys.value, values.value))
  }

  /** `build` fails exactly when there are keys and some key is null, or some key
      has no value (values never created, or fewer values than keys), or its value
      is null; with no keys it is the empty map whatever the values. */
  lemma AssembleThrowsIff(keys: Option<seq<Obj>>, values: Option<seq<Obj>>)
    ensures |Elems(keys)| == 0 ==> Assemble(keys, values) == Ok(map[])
    ensures Assemble(keys, values).Throws? <==>
      |Elems(keys)| > 0 &&
      (values.None? || |Elems(values)| < |Elems(keys)| ||
       exists i :: 0 <= i < |Elems(keys)| && (Elems(keys)[i].Null? || Elems(values)[i].Null?))
    ensures Assemble(keys, values).Throws? ==> Assemble(keys, values).ex == NullPointerException
  {
    if keys.Some? && |keys.value| > 0 && values.Some? {
      var ks, vs := keys.value, values.value;
      var pairs := Pairing(ks, vs);
      PutAllMeaning(pairs);
      if |vs| < |ks| {
        assert pairs[|vs|].1 == Null;
      }
      if exists i :: 0 <= i < |ks| && (ks[i].Null? || (i < |vs| && vs[i].Null?)) {
        var i :| 0 <= i < |ks| && (ks[i].Null? || (i < |vs| && vs[i].Null?));
        assert !(pairs[i].0.Str? && pairs[i].1.Str?);
      }
    }
  }

  /** With at least as many values as keys and no nulls, `build` maps every key
      to the value at the same position, the last position winning for a
      repeated key, and holds no other key. */
  lemma AssemblePairsByPosition(ks: seq<Obj>, vs: seq<Obj>)
    requires |ks| > 0 && |vs| >= |ks|
    requires forall i :: 0 <= i < |ks| ==> ks[i].Str? && vs[i].Str?
    ensures Assemble(Some(ks), Some(vs)).Ok?
    ensures Assemble(Some(ks), Some(vs)).value.Keys == set i | 0 <= i < |ks| :: ks[i].s
    ensures forall i :: 0 <= i < |ks| && (forall j :: i < j < |ks| ==> ks[j] != ks[i]) ==>
      Assemble(Some(ks), Some(vs)).value[ks[i].s] == vs[i].s
  {
    var pairs := Pairing(ks, vs);
    PutAllMeaning(pairs);
    assert |pairs| == |ks| && forall i :: 0 <= i < |ks| ==> pairs[i] == (ks[i], vs[i]);
    assert KeysOf(pairs) == set i | 0 <= i < |ks| :: ks[i].s;
    forall i | 0 <= i < |ks| && (forall j :: i < j < |ks| ==> ks[j] != ks[i])
      ensures LastWithKey(pairs, i)
    {
    }
  }

  // ---------------------------------------------------------------------
  // The builder object
  // ---------------------------------------------------------------------

  class PropertiesBuilder {
    /** The keys added so far; None until the list is first created. */
    var keys: Option<seq<Obj>>
    /** The values added so far; None until the list is first created. */
    var values: Option<seq<Obj>>

    constructor ()
      ensures keys == None && values == None
    {
      keys := None;
      values := None;
    }

    /** `addKey`: a null key changes nothing; any other key is appended. */
    method AddKey(key: Obj)
      modifies this
      ensures keys == if key.Null? then old(keys) else Some(Elems(old(keys)) + [key])
      ensures values == old(values)
    {
      if key.Str? {
        keys := Some(Elems(keys) + [key]);
      }
    }

    /** `addKeys`, both the varargs and the `List` overload: a null or empty
        batch changes nothing; otherwise every element, nulls included, is
        appended in order. */
    method AddKeys(batch: Option<seq<Obj>>)
      modifies this
      ensures keys == if batch.None? || batch.value == [] then old(keys) else Some(Elems(old(keys)) + batch.value)
      ensures values == old(values)
    {
      if batch.Some? && |batch.value| > 0 {
        keys := Some(Elems(keys) + batch.value);
      }
    }

    /** `addValue`: a null value changes nothing; any other value is appended. */
    method AddValue(value: Obj)
      modifies this
      ensures values == if value.Null? then old(values) else Some(Elems(old(values)) + [value])
      ensures keys == old(keys)
    {
      if value.Str? {
        values := Some(Elems(values) + [value]);
      }
    }

    /** `addValues`, both overloads: like `AddKeys`, on the values. */
    method AddValues(batch: Option<seq<Obj>>)
      modifies this
      ensures values == if batch.None? || batch.value == [] then old(values) else Some(Elems(old(values)) + batch.value)
      ensures keys == old(keys)
    {
      if batch.Some? && |batch.value| > 0 {
        values := Some(Elems(values) + batch.value);
      }
    }

    /** `addKeyValue`: appends the key and the value, nulls included. */
    method AddKeyValue(key: Obj, value: Obj)
      modifies this
      ensures keys == Some(Elems(old(keys)) + [key])
      ensures values == Some(Elems(old(values)) + [value])
    {
      keys := Some(Elems(keys) + [key]);
      values := Some(Elems(values) + [value]);
    }

    /** `addKeysValues(Object[], Object[])`: appends both batches independently,
        whatever their lengths. A null array throws from `Arrays.asList` before
        its list is touched; a null value array throws after the keys went in. */
    method AddKeysValuesArrays(ks: Option<seq<Obj>>, vs: Option<seq<Obj>>) returns (outcome: Outcome)
      modifies this
      ensures outcome == if ks.Some? && vs.Some? then Completes else Raises(NullPointerException)
      ensures keys == if ks.None? then old(keys) else Some(Elems(old(keys)) + ks.value)
      ensures values == if ks.None? || vs.None? then old(values) else Some(Elems(old(values)) + vs.value)
    {
      if ks.None? {
        return Raises(NullPointerException);
      }
      keys := Some(Elems(keys) + ks.value);
      if vs.None? {
        return Raises(NullPointerException);
      }
      values := Some(Elems(values) + vs.value);
      outcome := Completes;
    }

    /** `addKeysValues(List, List)`: as the array form, except that each list is
        created before `addAll` throws on a null batch. */
    method AddKeysValuesLists(ks: Option<seq<Obj>>, vs: Option<seq<Obj>>) returns (outcome: Outcome)
      modifies this
      ensures outcome == if ks.Some? && vs.Some? then Completes else Raises(NullPointerException)
      ensures keys == Some(Elems(old(keys)) + Elems(ks))
      ensures values == if ks.None? then old(values) else Some(Elems(old(values)) + Elems(vs))
    {
      keys := Some(Elems(keys));
      if ks.None? {
        assert Elems(old(keys)) + [] == Elems(old(keys));
        return Raises(NullPointerException);
      }
      keys := Some(keys.value + ks.value);
      values := Some(Elems(values));
      if vs.None? {
        assert Elems(old(values)) + [] == Elems(old(values));
        return Raises(NullPointerException);
      }
      values := Some(values.value + vs.value);
      outcome := Completes;
    }

    /** `clearKeys`: empties the key list if it exists; safe on a fresh builder. */
    method ClearKeys()
      modifies this
      ensures keys == if old(keys).None? then None else Some([])
      ensures values == old(values)
    {
      if keys.Some? {
        keys := Some([]);
      }
    }

    /** `clearvalues`: empties the value list if it exists. */
    method ClearValues()
      modifies this
      ensures values == if old(values).None? then None else Some([])
      ensures keys == old(keys)
    {
      if values.Some? {
        values := Some([]);
      }
    }

    /** `clear`: both of the above. */
    method Clear()
      modifies this
      ensures keys == if old(keys).None? then None else Some([])
      ensures values == if old(values).None? then None else Some([])
    {
      ClearKeys();
      ClearValues();
    }

    /** `build`: puts each key with the value at its position into a fresh
        `Properties`. It reads the builder and changes nothing, so two calls in
        a row give equal results. */
    method Build() returns (r: Result<Props>)
      ensures r == Assemble(keys, values)
    {
      if keys.None? || |keys.value| == 0 {
        return Ok(map[]);
      }
      if values.None? {
        return Throws(NullPointerException);
      }
      var ks, vs := keys.value, values.value;
      ghost var pairs := Pairing(ks, vs);
      var prop: Props := map[];
      var i := 0;
      while i < |ks|
        invariant 0 <= i <= |ks|
        invariant PutAll(pairs[..i]) == Ok(prop)
      {
        var put := Put(prop, ks[i], if |vs| - 1 >= i then vs[i] else Null);
        assert pairs[..i + 1] == pairs[..i] + [pairs[i]];
        PutAllSnoc(pairs[..i], pairs[i].0, pairs[i].1);
        if put.Throws? {
          PutAllThrowsOnExtension(pairs, i + 1);
          return put;
        }
        prop := put.value;
        i := i + 1;
      }
      assert pairs[..i] == pairs;
      r := Ok(prop);
    }
  }

  // ---------------------------------------------------------------------
  // Static constructors
  // ---------------------------------------------------------------------

  /** `createFromMap`: null for a null map; otherwise a `putAll` copy, which
      throws on a null key or value and otherwise holds exactly the entries. */
  function CreateFromMap(m: Option<map<Obj, Obj>>): (r: Result<Option<Props>>)
    ensures m.None? <==> r == Ok(None)
    ensures r.Throws? <==> m.Some? && (Null in m.value.Keys || Null in m.value.Values)
    ensures r.Throws? ==> r.ex == NullPointerException
    ensures r.Ok? && r.value.Some? ==>
      (forall k :: k in r.value.value <==> Str(k) in m.value) &&
      (forall k :: k in r.value.value ==> Str(r.value.value[k]) == m.value[Str(k)])
  {
    if m.None? then Ok(None)
    else if Null in m.value.Keys || Null in m.value.Values then Throws(NullPointerException)
    else
      assert forall o :: o in m.value ==> m.value[o] in m.value.Values;
      assert forall o :: o in m.value ==> m.value[o].Str?;
      Ok(Some(map k | k in StrKeys(m.value) :: m.value[Str(k)].s))
  }

  /** The strings among a map's keys. */
  function StrKeys(m: map<Obj, Obj>): (ks: set<string>)
    ensures forall k :: k in ks <==> Str(k) in m
  {
    set o | o in m.Keys && o.Str? :: o.s
  }

  /** The map a `Properties` is copied from, as `createFromMap` sees it. */
  function AsObjects(p: Props): (m: map<Obj, Obj>)
    ensures Null !in m.Keys && Null !in m.Values
  {
    map k | k in p :: Str(k) := Str(p[k])
  }

  /** `createFromMap` reproduces any `Properties` it is given as a map. */
  lemma CreateFromMapRoundTrip(p: Props)
    ensures CreateFromMap(Some(AsObjects(p))) == Ok(Some(p))
  {
    var r := CreateFromMap(Some(AsObjects(p))).value.value;
    assert forall k :: k in r <==> k in p;
    assert r == p;
  }

  /** One row of `createFromArray`: possibly null, possibly empty. */
  type Row = Option<seq<Obj>>
  /** One `T[][]` argument of `createFromArray`: possibly null. */
  type Group = Option<seq<Row>>

  /** The pair a non-empty row puts: column 0 as key, column 1 as value, or ""
      when column 1 is missing or null. */
  function RowEntry(row: seq<Obj>): (Obj, Obj)
    requires |row| > 0
  {
    (row[0], if |row| >= 2 then (if row[1].Str? then row[1] else Str("")) else Str(""))
  }

  /** The pairs the rows of one group put, in order, null and empty rows skipped. */
  function GroupEntries(rows: seq<Row>): seq<(Obj, Obj)>
  {
    if rows == [] then []
    else
      var last := rows[|rows| - 1];
      GroupEntries(rows[..|rows| - 1]) + (if last.None? || last.value == [] then [] else [RowEntry(last.value)])
  }

  /** The pairs all groups put, in order, null and empty groups skipped. */
  function ArrayEntries(groups: seq<Group>): seq<(Obj, Obj)>
  {
    if groups == [] then []
    else
      var last := groups[|groups| - 1];
      ArrayEntries(groups[..|groups| - 1]) + (if last.None? then [] else GroupEntries(last.value))
  }

  /** The `Properties` created lazily at the first pair: null when there is none. */
  function Lazily(pairs: seq<(Obj, Obj)>): Result<Option<Props>>
  {
    if pairs == [] then Ok(None)
    else
      match PutAll(pairs)
      case Throws(e) => Throws(e)
      case Ok(p) => Ok(Some(p))
  }

  /** What `createFromArray` returns for its varargs argument. */
  function FromArrays(arrays: Option<seq<Group>>): Result<Option<Props>>
  {
    if arrays.None? || |arrays.value| < 1 then Ok(None) else Lazily(ArrayEntries(arrays.value))
  }

  lemma LazilySnoc(pairs: seq<(Obj, Obj)>, e: (Obj, Obj), prop: Option<Props>)
    requires Lazily(pairs) == Ok(prop)
    ensures Lazily(pairs + [e]) ==
      match Put(if prop.None? then map[] else prop.value, e.0, e.1)
      case Throws(x) => Throws(x)
      case Ok(p) => Ok(Some(p))
  {
    PutAllSnoc(pairs, e.0, e.1);
    if pairs == [] {
      assert pairs + [e] == [e];
    }
  }

  lemma {:induction false} GroupEntriesPrefix(rows: seq<Row>, j: nat)
    requires j <= |rows|
    ensures GroupEntries(rows[..j]) <= GroupEntries(rows)
    decreases |rows|
  {
    if j < |rows| {
      var init := rows[..|rows| - 1];
      assert rows[..j] == init[..j];
      GroupEntriesPrefix(init, j);
    } else {
      assert rows[..j] == rows;
    }
  }

  lemma {:induction false} ArrayEntriesPrefix(groups: seq<Group>, i: nat)
    requires i <= |groups|
    ensures ArrayEntries(groups[..i]) <= ArrayEntries(groups)
    decreases |groups|
  {
    if i < |groups| {
      var init := groups[..|groups| - 1];
      assert groups[..i] == init[..i];
      ArrayEntriesPrefix(init, i);
    } else {
      assert groups[..i] == groups;
    }
  }

  lemma LazilyThrowsOnExtension(pairs: seq<(Obj, Obj)>, more: seq<(Obj, Obj)>)
    requires pairs <= more && Lazily(pairs).Throws?
    ensures Lazily(more) == Throws(NullPointerException)
  {
    assert more[..|pairs|] == pairs;
    PutAllThrowsOnExtension(more, |pairs|);
  }

  /** Row `j` of group `i` exists and is not empty: it is the only kind of row
      that puts anything. */
  ghost predicate RowAt(groups: seq<Group>, i: int, j: int) {
    0 <= i < |groups| && groups[i].Some? && 0 <= j < |groups[i].value| &&
    groups[i].value[j].Some? && groups[i].value[j].value != []
  }

  lemma {:induction false} GroupEntriesMembers(rows: seq<Row>)
    ensures forall e :: e in GroupEntries(rows) <==>
      exists j :: 0 <= j < |rows| && rows[j].Some? && rows[j].value != [] && e == RowEntry(rows[j].value)
  {
    if rows != [] {
      var n := |rows| - 1;
      GroupEntriesMembers(rows[..n]);
      assert forall j :: 0 <= j < n ==> rows[..n][j] == rows[j];
    }
  }

  /** The pairs of `createFromArray` are exactly the entries of its non-empty rows. */
  lemma {:induction false} ArrayEntriesMembers(groups: seq<Group>)
    ensures forall e :: e in ArrayEntries(groups) <==>
      exists i, j :: RowAt(groups, i, j) && e == RowEntry(groups[i].value[j].value)
  {
    if groups != [] {
      var n := |groups| - 1;
      var init := groups[..n];
      ArrayEntriesMembers(init);
      assert forall i, j :: RowAt(init, i, j) <==> i < n && RowAt(groups, i, j);
      if groups[n].Some? {
        GroupEntriesMembers(groups[n].value);
      }
    }
  }

  /** `createFromArray` returns null exactly when its argument is null or has
      no non-empty row; it throws exactly when some non-empty row has a null
      key (a missing or null value becomes "" and never throws). */
  lemma FromArraysMeaning(arrays: Option<seq<Group>>)
    ensures FromArrays(arrays) == Ok(None) <==>
      arrays.None? || forall i, j :: !RowAt(arrays.value, i, j)
    ensures FromArrays(arrays).Throws? <==>
      arrays.Some? && exists i, j :: RowAt(arrays.value, i, j) && arrays.value[i].value[j].value[0].Null?
    ensures FromArrays(arrays).Throws? ==> FromArrays(arrays).ex == NullPointerException
  {
    if arrays.Some? {
      var groups := arrays.value;
      var pairs := ArrayEntries(groups);
      ArrayEntriesMembers(groups);
      PutAllOkIff(pairs);
      if exists i, j :: RowAt(groups, i, j) {
        var i, j :| RowAt(groups, i, j);
        assert RowEntry(groups[i].value[j].value) in pairs;
      }
      if exists i, j :: RowAt(groups, i, j) && groups[i].value[j].value[0].Null? {
        var i, j :| RowAt(groups, i, j) && groups[i].value[j].value[0].Null?;
        assert RowEntry(groups[i].value[j].value) in pairs;
      }
      if pairs != [] {
        assert pairs[0] in pairs;
      }
      if !NoNulls(pairs) {
        var k :| 0 <= k < |pairs| && !(pairs[k].0.Str? && pairs[k].1.Str?);
        assert pairs[k] in pairs;
      }
    }
  }

  /** One more group of the outer loop. */
  lemma ArrayEntriesSnoc(groups: seq<Group>, i: nat)
    requires i < |groups|
    ensures ArrayEntries(groups[..i + 1]) ==
      ArrayEntries(groups[..i]) + (if groups[i].None? then [] else GroupEntries(groups[i].value))
    ensures groups[i].None? || groups[i].value == [] ==> ArrayEntries(groups[..i + 1]) == ArrayEntries(groups[..i])
  {
    assert groups[..i + 1][..i] == groups[..i];
    assert ArrayEntries(groups[..i]) + [] == ArrayEntries(groups[..i]);
  }

  /** One more row of the inner loop: a null or empty row puts nothing, any
      other row puts its entry into the `Properties`, created if need be. */
  lemma RowStep(done: seq<(Obj, Obj)>, rows: seq<Row>, j: nat, prop: Option<Props>)
    requires j < |rows| && Lazily(done + GroupEntries(rows[..j])) == Ok(prop)
    ensures rows[j].None? || rows[j].value == [] ==>
      Lazily(done + GroupEntries(rows[..j + 1])) == Ok(prop)
    ensures rows[j].Some? && rows[j].value != [] ==>
      var e := RowEntry(rows[j].value);
      Lazily(done + GroupEntries(rows[..j + 1])) ==
        match Put(if prop.None? then map[] else prop.value, e.0, e.1)
        case Throws(x) => Throws(x)
        case Ok(p) => Ok(Some(p))
  {
    assert rows[..j + 1][..j] == rows[..j];
    if rows[j].Some? && rows[j].value != [] {
      var e := RowEntry(rows[j].value);
      assert done + GroupEntries(rows[..j + 1]) == done + GroupEntries(rows[..j]) + [e];
      LazilySnoc(done + GroupEntries(rows[..j]), e, prop);
    } else {
      assert done + GroupEntries(rows[..j + 1]) == done + GroupEntries(rows[..j]);
    }
  }

  /** A row that throws makes the whole walk throw. */
  lemma RowThrows(groups: seq<Group>, i: nat, j: nat)
    requires i < |groups| && groups[i].Some? && j < |groups[i].value|
    requires Lazily(ArrayEntries(groups[..i]) + GroupEntries(groups[i].value[..j + 1])).Throws?
    ensures Lazily(ArrayEntries(groups)) == Throws(NullPointerException)
  {
    var rows := groups[i].value;
    GroupEntriesPrefix(rows, j + 1);
    ArrayEntriesPrefix(groups, i + 1);
    ArrayEntriesSnoc(groups, i);
    LazilyThrowsOnExtension(ArrayEntries(groups[..i]) + GroupEntries(rows[..j + 1]), ArrayEntries(groups));
  }

  /** `createFromArray`: walks every row of every group in order and puts its
      entry into a `Properties` created at the first non-empty row. */
  method CreateFromArray(arrays: Option<seq<Group>>) returns (r: Result<Option<Props>>)
    ensures r == FromArrays(arrays)
  {
    if arrays.None? || |arrays.value| < 1 {
      return Ok(None);
    }
    var groups := arrays.value;
    var prop: Option<Props> := None;
    for i := 0 to |groups|
      invariant Lazily(ArrayEntries(groups[..i])) == Ok(prop)
    {
      ArrayEntriesSnoc(groups, i);
      if groups[i].None? || |groups[i].value| == 0 {
        continue;
      }
      var rows := groups[i].value;
      ghost var done := ArrayEntries(groups[..i]);
      assert rows[..0] == [] && done + [] == done;
      for j := 0 to |rows|
        invariant Lazily(done + GroupEntries(rows[..j])) == Ok(prop)
      {
        RowStep(done, rows, j, prop);
        if rows[j].None? || |rows[j].value| == 0 {
          continue;
        }
        var row := rows[j].value;
        if prop.None? {
          prop := Some(map[]);
        }
        var key := row[0];
        var value := if |row| >= 2 then (if row[1] != Null then row[1] else Str("")) else Str("");
        var put := Put(prop.value, key, value);
        if put.Throws? {
          RowThrows(groups, i, j);
          return Throws(put.ex);
        }
        prop := Some(put.value);
      }
      assert rows[..|rows|] == rows;
    }
    assert groups[..|groups|] == groups;
    r := Ok(prop);
  }

  // ---------------------------------------------------------------------
  // The same two pairs, fed every way the builder offers
  // ---------------------------------------------------------------------

  lemma PutAllTwoPairs(k1: string, v1: string, k2: string, v2: string)
    ensures PutAll([(Str(k1), Str(v1)), (Str(k2), Str(v2))]) == Ok(map[k1 := v1][k2 := v2])
  {
    var p1, p2 := (Str(k1), Str(v1)), (Str(k2), Str(v2));
    PutAllSnoc([], p1.0, p1.1);
    assert [] + [p1] == [p1];
    PutAllSnoc([p1], p2.0, p2.1);
    assert [p1] + [p2] == [p1, p2];
  }

  lemma AssembleTwoPairs(k1: string, v1: string, k2: string, v2: string)
    ensures Assemble(Some([Str(k1), Str(k2)]), Some([Str(v1), Str(v2)])) == Ok(map[k1 := v1][k2 := v2])
  {
    assert Pairing([Str(k1), Str(k2)], [Str(v1), Str(v2)]) == [(Str(k1), Str(v1)), (Str(k2), Str(v2))];
    PutAllTwoPairs(k1, v1, k2, v2);
  }

  lemma ArrayEntriesTwoRows(k1: string, v1: string, k2: string, v2: string)
    ensures ArrayEntries([Some([Some([Str(k1), Str(v1)]), Some([Str(k2), Str(v2)])])]) ==
      [(Str(k1), Str(v1)), (Str(k2), Str(v2))]
  {
    var groups: seq<Group> := [Some([Some([Str(k1), Str(v1)]), Some([Str(k2), Str(v2)])])];
    var p1, p2 := (Str(k1), Str(v1)), (Str(k2), Str(v2));
    var rows := groups[0].value;
    assert rows[..1][..0] == [] && rows[..|rows| - 1] == rows[..1];
    assert RowEntry(rows[0].value) == p1 && RowEntry(rows[1].value) == p2;
    assert GroupEntries(rows[..1]) == [] + [p1];
    assert GroupEntries(rows) == [p1] + [p2];
    assert groups[..0] == [];
    assert ArrayEntries(groups) == [] + [p1, p2];
  }

  /** Single adds, batch adds, `addKeyValue` and `addKeysValues` in array and
      list form all build the same `Properties` from the same two pairs. */
  method FeedFiveWays(k1: string, v1: string, k2: string, v2: string)
    returns (single: Result<Props>, batch: Result<Props>, pairwise: Result<Props>,
             arrays: Result<Props>, lists: Result<Props>)
    ensures single == Ok(map[k1 := v1][k2 := v2])
    ensures batch == single && pairwise == single && arrays == single && lists == single
  {
    AssembleTwoPairs(k1, v1, k2, v2);

    var b1 := new PropertiesBuilder();
    b1.AddKey(Str(k1));
    b1.AddValue(Str(v1));
    b1.AddKey(Str(k2));
    b1.AddValue(Str(v2));
    assert [] + [Str(k1)] == [Str(k1)] && [Str(k1)] + [Str(k2)] == [Str(k1), Str(k2)];
    assert [] + [Str(v1)] == [Str(v1)] && [Str(v1)] + [Str(v2)] == [Str(v1), Str(v2)];
    assert b1.keys == Some([Str(k1), Str(k2)]) && b1.values == Some([Str(v1), Str(v2)]);
    single := b1.Build();

    var b2 := new PropertiesBuilder();
    b2.AddKeys(Some([Str(k1), Str(k2)]));
    b2.AddValues(Some([Str(v1), Str(v2)]));
    assert [] + [Str(k1), Str(k2)] == [Str(k1), Str(k2)] && [] + [Str(v1), Str(v2)] == [Str(v1), Str(v2)];
    assert b2.keys == Some([Str(k1), Str(k2)]) && b2.values == Some([Str(v1), Str(v2)]);
    batch := b2.Build();

    var b3 := new PropertiesBuilder();
    b3.AddKeyValue(Str(k1), Str(v1));
    b3.AddKeyValue(Str(k2), Str(v2));
    assert b3.keys == Some([Str(k1), Str(k2)]) && b3.values == Some([Str(v1), Str(v2)]);
    pairwise := b3.Build();

    var b4 := new PropertiesBuilder();
    var o4 := b4.AddKeysValuesArrays(Some([Str(k1), Str(k2)]), Some([Str(v1), Str(v2)]));
    assert b4.keys == Some([Str(k1), Str(k2)]) && b4.values == Some([Str(v1), Str(v2)]);
    arrays := b4.Build();

    var b5 := new PropertiesBuilder();
    var o5 := b5.AddKeysValuesLists(Some([Str(k1), Str(k2)]), Some([Str(v1), Str(v2)]));
    assert b5.keys == Some([Str(k1), Str(k2)]) && b5.values == Some([Str(v1), Str(v2)]);
    lists := b5.Build();
  }

  /** A single key with no value ever added makes `build` throw instead of
      producing an empty value; so does a surplus key. */
  method SurplusKeyThrows(k1: string, v1: string, k2: string)
    returns (noValues: Result<Props>, surplus: Result<Props>)
    ensures noValues == Throws(NullPointerException)
    ensures surplus == Throws(NullPointerException)
  {
    var b1 := new PropertiesBuilder();
    b1.AddKey(Str(k1));
    noValues := b1.Build();

    var b2 := new PropertiesBuilder();
    b2.AddKeys(Some([Str(k1), Str(k2)]));
    b2.AddValue(Str(v1));
    surplus := b2.Build();
    AssembleThrowsIff(b2.keys, b2.values);
  }

  /** `createFromMap` and `createFromArray` agree on the same two entries. */
  method StaticConstructorsAgree(k1: string, v1: string, k2: string, v2: string)
    returns (fromMap: Result<Option<Props>>, fromArray: Result<Option<Props>>)
    requires k1 != k2
    ensures fromMap == Ok(Some(map[k1 := v1][k2 := v2]))
    ensures fromArray == fromMap
  {
    fromMap := CreateFromMap(Some(map[Str(k1) := Str(v1), Str(k2) := Str(v2)]));
    var m := fromMap.value.value;
    assert m.Keys == {k1, k2};
    assert m == map[k1 := v1][k2 := v2];
    var groups: seq<Group> := [Some([Some([Str(k1), Str(v1)]), Some([Str(k2), Str(v2)])])];
    fromArray := CreateFromArray(Some(groups));
    ArrayEntriesTwoRows(k1, v1, k2, v2);
    PutAllTwoPairs(k1, v1, k2, v2);
  }
}
