/** Turning a dictionary into a list of name-tagged entries sorted in
    non-increasing order of one numeric field. */
module SortedLists {

  /** A dictionary value: a bare number, or a record of numeric fields. */
  datatype Value = Scalar(x: real) | Record(fields: map<string, real>)

  /** A list element: a record of numeric fields tagged with the key it was stored under. */
  datatype Tagged = Tagged(name: string, fields: map<string, real>)

  /** The list element for one dictionary entry: a bare value is wrapped as a
      record under `defaultValueKey`; either way the element carries the key as its name. */
  function DictToList(key: string, val: Value, defaultValueKey: string): (t: Tagged)
    ensures t.name == key
    ensures val.Scalar? ==> t.fields == map[defaultValueKey := val.x]
    ensures val.Record? ==> t.fields == val.fields
  {
    match val
    case Scalar(x) => Tagged(key, map[defaultValueKey := x])
    case Record(f) => Tagged(key, f)
  }

  /** The sort key of an element: the value of its field `field`, only read where the field is present. */
  function Key(t: Tagged, field: string): real
  {
    if field in t.fields then t.fields[field] else 0.0
  }

  ghost predicate SortedDesc(s: seq<Tagged>, field: string)
  {
    forall i, j :: 0 <= i < j < |s| ==> Key(s[i], field) >= Key(s[j], field)
  }

  /** `order` lists every key of `d` exactly once (a dictionary's iteration order). */
  ghost predicate IsKeyOrder<V>(d: map<string, V>, order: seq<string>)
  {
    && (forall i, j :: 0 <= i < j < |order| ==> order[i] != order[j])
    && (forall k :: k in order <==> k in d)
  }

  /** Every tagged entry of `d` has the field the list is sorted by. */
  ghost predicate HasSortField(d: map<string, Value>, field: string, defaultValueKey: string)
  {
    forall k :: k in d ==> field in DictToList(k, d[k], defaultValueKey).fields
  }

  /** The tagged entries of `d` in the iteration order `order`. */
  function Entries(d: map<string, Value>, order: seq<string>, defaultValueKey: string): (r: seq<Tagged>)
    requires forall k :: k in order ==> k in d
    ensures |r| == |order|
    ensures forall i :: 0 <= i < |order| ==> r[i] == DictToList(order[i], d[order[i]], defaultValueKey)
  {
    seq(|order|, i requires 0 <= i < |order| => DictToList(order[i], d[order[i]], defaultValueKey))
  }

  /** A sequence without repetitions is as long as the set of its elements. */
  lemma {:induction false} DistinctCard(s: seq<string>)
    requires forall i, j :: 0 <= i < j < |s| ==> s[i] != s[j]
    ensures |set k | k in s| == |s|
  {
    if |s| > 0 {
      var t := s[1..];
      DistinctCard(t);
      assert (set k | k in s) == (set k | k in t) + {s[0]};
      assert s[0] !in (set k | k in t);
    }
  }

  /** A sequence has no more distinct elements than positions. */
  lemma {:induction false} SetCardAtMost(s: seq<string>)
    ensures |set k | k in s| <= |s|
  {
    if |s| > 0 {
      var t := s[1..];
      SetCardAtMost(t);
      assert (set k | k in s) == (set k | k in t) + {s[0]};
    }
  }

  /** A sequence with as many distinct elements as positions has no repetitions. */
  lemma {:induction false} FullSetDistinct(s: seq<string>)
    requires |set k | k in s| == |s|
    ensures forall i, j :: 0 <= i < j < |s| ==> s[i] != s[j]
  {
    if |s| > 0 {
      var t := s[1..];
      assert (set k | k in s) == (set k | k in t) + {s[0]};
      SetCardAtMost(t);
      assert s[0] !in t;
      FullSetDistinct(t);
      forall i, j | 0 <= i < j < |s|
        ensures s[i] != s[j]
      {
        if i > 0 {
          assert s[i] == t[i - 1] && s[j] == t[j - 1];
        } else {
          assert s[j] in t;
        }
      }
    }
  }

  /** A list that holds every key of `d`, has only keys of `d` as names and is as
      long as `d` names each key exactly once. */
  lemma NamesDistinct(d: map<string, Value>, r: seq<Tagged>)
    requires |r| == |d|
    requires forall t :: t in r ==> t.name in d
    requires forall k :: k in d ==> exists i :: 0 <= i < |r| && r[i].name == k
    ensures forall i, j :: 0 <= i < j < |r| ==> r[i].name != r[j].name
  {
    var names := seq(|r|, i requires 0 <= i < |r| => r[i].name);
    assert (set k | k in names) == d.Keys by {
      forall k | k in names ensures k in d {
        var i :| 0 <= i < |names| && names[i] == k;
        assert r[i] in r;
      }
      forall k | k in d ensures k in names {
        var i :| 0 <= i < |r| && r[i].name == k;
        assert names[i] == k;
      }
    }
    assert |d.Keys| == |d|;
    FullSetDistinct(names);
    assert forall i :: 0 <= i < |r| ==> names[i] == r[i].name;
  }

  /** Exchanges two neighbouring elements of `a`. */
  method SwapDown(a: array<Tagged>, j: int)
    requires 0 < j < a.Length
    modifies a
    ensures a[j - 1] == old(a[j]) && a[j] == old(a[j - 1])
    ensures forall m :: 0 <= m < a.Length && m != j - 1 && m != j ==> a[m] == old(a[m])
    ensures multiset(a[..]) == multiset(old(a[..]))
  {
    a[j - 1], a[j] := a[j], a[j - 1];
  }

  /** Moves `a[i]` left past every smaller-keyed element of the sorted prefix `a[..i]`. */
  method InsertAt(a: array<Tagged>, i: int, field: string)
    requires 0 < i < a.Length
    requires forall p, q :: 0 <= p < q < i ==> Key(a[p], field) >= Key(a[q], field)
    modifies a
    ensures forall p, q :: 0 <= p < q <= i ==> Key(a[p], field) >= Key(a[q], field)
    ensures multiset(a[..]) == multiset(old(a[..]))
  {
    var j := i;
    while j > 0 && Key(a[j - 1], field) < Key(a[j], field)
      invariant 0 <= j <= i
      invariant forall p, q :: 0 <= p < q <= i && p != j && q != j ==> Key(a[p], field) >= Key(a[q], field)
      invariant forall q :: j < q <= i ==> Key(a[j], field) >= Key(a[q], field)
      invariant multiset(a[..]) == multiset(old(a[..]))
    {
      SwapDown(a, j);
      j := j - 1;
    }
  }

  /** Sorts `a` in place into non-increasing order of `field` (insertion sort). */
  method SortDescending(a: array<Tagged>, field: string)
    modifies a
    ensures SortedDesc(a[..], field)
    ensures multiset(a[..]) == multiset(old(a[..]))
  {
    if a.Length == 0 {
      return;
    }
    var i := 1;
    while i < a.Length
      invariant 1 <= i <= a.Length
      invariant forall p, q :: 0 <= p < q < i ==> Key(a[p], field) >= Key(a[q], field)
      invariant multiset(a[..]) == multiset(old(a[..]))
    {
      InsertAt(a, i, field);
      i := i + 1;
    }
  }

  /** The entries of `d`, tagged with their names, sorted in non-increasing order of `field`. */
  method BuildSortedList(d: map<string, Value>, order: seq<string>, field: string, defaultValueKey: string)
    returns (r: seq<Tagged>)
    requires IsKeyOrder(d, order)
    requires HasSortField(d, field, defaultValueKey)
    ensures multiset(r) == multiset(Entries(d, order, defaultValueKey))
    ensures SortedDesc(r, field)
    ensures |r| == |d|
    ensures forall t :: t in r ==> t.name in d && t == DictToList(t.name, d[t.name], defaultValueKey)
    ensures forall k :: k in d ==> exists i :: 0 <= i < |r| && r[i].name == k
    ensures forall i, j :: 0 <= i < j < |r| ==> r[i].name != r[j].name
  {
    var entries := Entries(d, order, defaultValueKey);
    var a := new Tagged[|entries|](i requires 0 <= i < |entries| => entries[i]);
    assert a[..] == entries;
    SortDescending(a, field);
    r := a[..];
    DistinctCard(order);
    assert (set k | k in order) == d.Keys;
    forall t | t in r
      ensures t.name in d && t == DictToList(t.name, d[t.name], defaultValueKey)
    {
      assert t in multiset(entries);
      var i :| 0 <= i < |entries| && entries[i] == t;
    }
    forall k | k in d
      ensures exists i :: 0 <= i < |r| && r[i].name == k
    {
      var n :| 0 <= n < |order| && order[n] == k;
      assert entries[n] in multiset(r);
      var i :| 0 <= i < |r| && r[i] == entries[n];
    }
    NamesDistinct(d, r);
  }
}
