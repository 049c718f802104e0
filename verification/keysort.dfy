/**
 * The recursive key sort `sort_dict_by_keys` that canonicalises a webhook
 * payload before it is serialised and signed (webhook/views.py:62-71): every
 * dict is rebuilt with its keys in ascending order, every list keeps its
 * order, and scalars are returned as they are.
 */
module KeySort {

  import opened Json

  // ---------------------------------------------------------------------------
  // Python's ordering on str
  // ---------------------------------------------------------------------------

  /** `a < b` on Python strings: lexicographic by code point, a proper prefix first. */
  predicate StrLess(a: string, b: string)
    decreases |a|
  {
    if |a| == 0 then |b| > 0
    else if |b| == 0 then false
    else if a[0] != b[0] then a[0] < b[0]
    else StrLess(a[1..], b[1..])
  }

  lemma {:induction false} StrLessIrreflexive(a: string)
    ensures !StrLess(a, a)
    decreases |a|
  {
    if |a| > 0 {
      StrLessIrreflexive(a[1..]);
    }
  }

  lemma {:induction false} StrLessTransitive(a: string, b: string, c: string)
    requires StrLess(a, b) && StrLess(b, c)
    ensures StrLess(a, c)
    decreases |a|
  {
    if |a| > 0 && a[0] == b[0] && b[0] == c[0] {
      StrLessTransitive(a[1..], b[1..], c[1..]);
    }
  }

  lemma {:induction false} StrLessTotal(a: string, b: string)
    requires a != b
    ensures StrLess(a, b) || StrLess(b, a)
    decreases |a|
  {
    if |a| > 0 && |b| > 0 && a[0] == b[0] {
      assert a == [a[0]] + a[1..] && b == [b[0]] + b[1..];
      StrLessTotal(a[1..], b[1..]);
    }
  }

  lemma StrLessAsymmetric(a: string, b: string)
    requires StrLess(a, b)
    ensures !StrLess(b, a)
  {
    if StrLess(b, a) {
      StrLessTransitive(a, b, a);
      StrLessIrreflexive(a);
    }
  }

  // ---------------------------------------------------------------------------
  // Sorting the entries of one dict by key
  // ---------------------------------------------------------------------------

  /** Keys strictly ascending: the order `sorted(obj.keys())` produces for a dict. */
  predicate StrictlySorted(fields: seq<Field>) {
    forall i, j :: 0 <= i < j < |fields| ==> StrLess(fields[i].key, fields[j].key)
  }

  /** Insert one entry in front of the first entry whose key is not smaller. */
  function Insert(f: Field, fields: seq<Field>): (r: seq<Field>)
    ensures |r| == |fields| + 1
    ensures forall x :: x in r <==> x == f || x in fields
  {
    if |fields| == 0 then [f]
    else if StrLess(fields[0].key, f.key) then [fields[0]] + Insert(f, fields[1..])
    else [f] + fields
  }

  /** The entries of a dict in ascending key order. */
  function SortFields(fields: seq<Field>): (r: seq<Field>)
    ensures |r| == |fields|
    ensures forall x :: x in r <==> x in fields
  {
    if |fields| == 0 then [] else Insert(fields[0], SortFields(fields[1..]))
  }

  lemma {:induction false} InsertSorted(f: Field, fields: seq<Field>)
    requires StrictlySorted(fields)
    requires forall x :: x in fields ==> x.key != f.key
    ensures StrictlySorted(Insert(f, fields))
  {
    if |fields| > 0 {
      var r := Insert(f, fields);
      if StrLess(fields[0].key, f.key) {
        var tail := fields[1..];
        assert forall x :: x in tail ==> x in fields;
        InsertSorted(f, tail);
        forall x | x in Insert(f, tail)
          ensures StrLess(fields[0].key, x.key)
        {
          if x != f {
            var j :| 0 <= j < |tail| && tail[j] == x;
            assert fields[j + 1] == x;
          }
        }
        forall i, j | 0 <= i < j < |r|
          ensures StrLess(r[i].key, r[j].key)
        {
          if i == 0 {
            assert r[j] == Insert(f, tail)[j - 1];
          } else {
            assert r[i] == Insert(f, tail)[i - 1] && r[j] == Insert(f, tail)[j - 1];
          }
        }
      } else {
        StrLessTotal(fields[0].key, f.key);
        forall i, j | 0 <= i < j < |r|
          ensures StrLess(r[i].key, r[j].key)
        {
          if i == 0 && j > 1 {
            StrLessTransitive(f.key, fields[0].key, fields[j - 1].key);
          }
        }
      }
    }
  }

  /** Sorting a dict with unique keys yields strictly ascending keys. */
  lemma {:induction false} SortFieldsSorted(fields: seq<Field>)
    requires UniqueKeys(fields)
    ensures StrictlySorted(SortFields(fields))
  {
    if |fields| > 0 {
      var tail := fields[1..];
      assert UniqueKeys(tail) by {
        forall i, j | 0 <= i < j < |tail| ensures tail[i].key != tail[j].key {
          assert tail[i] == fields[i + 1] && tail[j] == fields[j + 1];
        }
      }
      SortFieldsSorted(tail);
      forall x | x in SortFields(tail) ensures x.key != fields[0].key {
        var j :| 0 <= j < |tail| && tail[j] == x;
        assert fields[j + 1] == x;
      }
      InsertSorted(fields[0], SortFields(tail));
    }
  }

  /** Sorting already sorted entries changes nothing. */
  lemma {:induction false} SortFieldsOfSorted(fields: seq<Field>)
    requires StrictlySorted(fields)
    ensures SortFields(fields) == fields
  {
    if |fields| > 0 {
      var tail := fields[1..];
      assert StrictlySorted(tail) by {
        forall i, j | 0 <= i < j < |tail| ensures StrLess(tail[i].key, tail[j].key) {
          assert tail[i] == fields[i + 1] && tail[j] == fields[j + 1];
        }
      }
      SortFieldsOfSorted(tail);
      if |tail| > 0 {
        StrLessAsymmetric(fields[0].key, fields[1].key);
      }
      assert [fields[0]] + tail == fields;
    }
  }

  lemma TailMember(a: seq<Field>, b: seq<Field>, x: Field)
    requires StrictlySorted(a) && StrictlySorted(b)
    requires |a| > 0 && |b| > 0 && a[0] == b[0]
    requires forall y :: y in a <==> y in b
    requires x in a[1..]
    ensures x in b[1..]
  {
    var i :| 1 <= i < |a| && a[i] == x;
    StrLessIrreflexive(a[0].key);
    assert x != a[0];
    assert x in b;
    var k :| 0 <= k < |b| && b[k] == x;
    assert k != 0;
    assert b[1..][k - 1] == x;
  }

  /** Two strictly sorted entry lists with the same entries are the same list. */
  lemma {:induction false} SortedUnique(a: seq<Field>, b: seq<Field>)
    requires StrictlySorted(a) && StrictlySorted(b)
    requires forall x :: x in a <==> x in b
    ensures a == b
  {
    assert |a| > 0 ==> a[0] in b;
    assert |b| > 0 ==> b[0] in a;
    if |a| > 0 && |b| > 0 {
      if a[0] != b[0] {
        assert a[0] in b;
        var k :| 0 <= k < |b| && b[k] == a[0];
        assert b[0] in a;
        var m :| 0 <= m < |a| && a[m] == b[0];
        StrLessAsymmetric(b[0].key, a[0].key);
        assert false;
      }
      forall x
        ensures x in a[1..] <==> x in b[1..]
      {
        if x in a[1..] {
          TailMember(a, b, x);
        }
        if x in b[1..] {
          TailMember(b, a, x);
        }
      }
      SortedUnique(a[1..], b[1..]);
      assert a == [a[0]] + a[1..] && b == [b[0]] + b[1..];
    }
  }

  // ---------------------------------------------------------------------------
  // sort_dict_by_keys
  // ---------------------------------------------------------------------------

  /** `sort_dict_by_keys(obj)`. */
  function Canon(v: Value): (r: Value)
    // Only dicts are reordered: the kind of every value is kept, and so are
    // the length of a list, the size of a dict and every scalar.
    ensures r.JArray? <==> v.JArray?
    ensures r.JObject? <==> v.JObject?
    ensures v.JArray? ==> |r.items| == |v.items|
    ensures v.JObject? ==> |r.fields| == |v.fields|
    ensures !v.JArray? && !v.JObject? ==> r == v
  {
    match v
    case JArray(items) => JArray(seq(|items|, i requires 0 <= i < |items| => Canon(items[i])))
    case JObject(fields) =>
      JObject(SortFields(seq(|fields|, i requires 0 <= i < |fields| =>
        Field(fields[i].key, Canon(fields[i].value)))))
    case _ => v
  }

  /** The entries of a dict with each value canonicalised, in the original order. */
  function CanonValues(fields: seq<Field>): (r: seq<Field>)
    ensures |r| == |fields|
    ensures forall i :: 0 <= i < |fields| ==> r[i] == Field(fields[i].key, Canon(fields[i].value))
  {
    seq(|fields|, i requires 0 <= i < |fields| => Field(fields[i].key, Canon(fields[i].value)))
  }

  lemma CanonObject(fields: seq<Field>)
    ensures Canon(JObject(fields)) == JObject(SortFields(CanonValues(fields)))
  {
  }

  lemma CanonValuesUniqueKeys(fields: seq<Field>)
    requires UniqueKeys(fields)
    ensures UniqueKeys(CanonValues(fields))
  {
  }

  /** Every dict, at every nesting level, has strictly ascending keys. */
  predicate Canonical(v: Value) {
    match v
    case JArray(items) => forall i :: 0 <= i < |items| ==> Canonical(items[i])
    case JObject(fields) =>
      StrictlySorted(fields) && forall i :: 0 <= i < |fields| ==> Canonical(fields[i].value)
    case _ => true
  }

  /**
   * `a` and `b` are the same JSON document up to the order of dict keys: lists
   * agree element by element; dicts have the same keys, and the values stored
   * under each key agree.
   */
  predicate SameUpToOrder(a: Value, b: Value)
    decreases a
  {
    match a
    case JArray(xs) =>
      && b.JArray?
      && |xs| == |b.items|
      && forall i :: 0 <= i < |xs| ==> SameUpToOrder(xs[i], b.items[i])
    case JObject(fs) =>
      && b.JObject?
      && |fs| == |b.fields|
      && (forall i :: 0 <= i < |fs| ==>
            HasKey(b.fields, fs[i].key)
            && SameUpToOrder(fs[i].value, Lookup(b.fields, fs[i].key).value))
      && (forall j :: 0 <= j < |b.fields| ==> HasKey(fs, b.fields[j].key))
    case _ => a == b
  }

  /** The key sort yields strictly ascending keys at every nesting level. */
  lemma {:induction false} CanonIsCanonical(v: Value)
    requires WellFormed(v)
    ensures Canonical(Canon(v))
    decreases v
  {
    match v
    case JArray(items) =>
      forall i | 0 <= i < |items| ensures Canonical(Canon(items[i])) {
        CanonIsCanonical(items[i]);
      }
    case JObject(fields) =>
      var m := CanonValues(fields);
      CanonObject(fields);
      CanonValuesUniqueKeys(fields);
      SortFieldsSorted(m);
      var r := SortFields(m);
      forall k | 0 <= k < |r| ensures Canonical(r[k].value) {
        assert r[k] in m;
        var i :| 0 <= i < |m| && m[i] == r[k];
        CanonIsCanonical(fields[i].value);
      }
    case _ =>
  }

  /** The key sort keeps every list element and every dict entry, only reordering keys. */
  lemma {:induction false} CanonPreservesContent(v: Value)
    requires WellFormed(v)
    ensures SameUpToOrder(v, Canon(v))
    decreases v
  {
    match v
    case JArray(items) =>
      var c := Canon(v).items;
      forall i | 0 <= i < |items| ensures SameUpToOrder(items[i], c[i]) {
        CanonPreservesContent(items[i]);
      }
    case JObject(fs) =>
      var m := CanonValues(fs);
      CanonObject(fs);
      CanonValuesUniqueKeys(fs);
      SortFieldsSorted(m);
      var r := SortFields(m);
      assert UniqueKeys(r) by {
        forall p, q | 0 <= p < q < |r| ensures r[p].key != r[q].key {
          StrLessIrreflexive(r[p].key);
        }
      }
      forall i | 0 <= i < |fs|
        ensures HasKey(r, fs[i].key) && SameUpToOrder(fs[i].value, Lookup(r, fs[i].key).value)
      {
        CanonPreservesContent(fs[i].value);
        assert m[i] in r;
        var j :| 0 <= j < |r| && r[j] == m[i];
        LookupUnique(r, j);
      }
      forall j | 0 <= j < |r| ensures HasKey(fs, r[j].key) {
        assert r[j] in m;
        var i :| 0 <= i < |m| && m[i] == r[j];
      }
    case _ =>
  }

  /** A document whose dicts are already sorted is returned unchanged. */
  lemma {:induction false} CanonOfCanonical(v: Value)
    requires Canonical(v)
    ensures Canon(v) == v
    decreases v
  {
    match v
    case JArray(items) =>
      forall i | 0 <= i < |items| ensures Canon(items[i]) == items[i] {
        CanonOfCanonical(items[i]);
      }
      assert Canon(v).items == items;
    case JObject(fields) =>
      forall i | 0 <= i < |fields| ensures Canon(fields[i].value) == fields[i].value {
        CanonOfCanonical(fields[i].value);
      }
      assert CanonValues(fields) == fields;
      CanonObject(fields);
      SortFieldsOfSorted(fields);
    case _ =>
  }

  /** `sort_dict_by_keys` is idempotent. */
  lemma CanonIdempotent(v: Value)
    requires WellFormed(v)
    ensures Canon(Canon(v)) == Canon(v)
  {
    CanonIsCanonical(v);
    CanonOfCanonical(Canon(v));
  }

  /**
   * Documents that differ only in the order of dict keys, at any nesting
   * level, sort to the same document.
   */
  lemma {:induction false} CanonRespectsKeyOrder(a: Value, b: Value)
    requires WellFormed(a) && WellFormed(b)
    requires SameUpToOrder(a, b)
    ensures Canon(a) == Canon(b)
    decreases a
  {
    match a
    case JArray(xs) =>
      var ys := b.items;
      forall i | 0 <= i < |xs| ensures Canon(xs[i]) == Canon(ys[i]) {
        CanonRespectsKeyOrder(xs[i], ys[i]);
      }
      assert Canon(a).items == Canon(b).items;
    case JObject(fs) =>
      var gs := b.fields;
      var ma, mb := CanonValues(fs), CanonValues(gs);
      forall x | x in ma ensures x in mb {
        var i :| 0 <= i < |ma| && ma[i] == x;
        var w := Lookup(gs, fs[i].key).value;
        var j :| 0 <= j < |gs| && gs[j] == Field(fs[i].key, w);
        CanonRespectsKeyOrder(fs[i].value, gs[j].value);
        assert mb[j] == x;
      }
      forall x | x in mb ensures x in ma {
        var j :| 0 <= j < |mb| && mb[j] == x;
        var i :| 0 <= i < |fs| && fs[i].key == gs[j].key;
        LookupUnique(gs, j);
        CanonRespectsKeyOrder(fs[i].value, gs[j].value);
        assert ma[i] == x;
      }
      SameValuesSortEqually(fs, gs);
    case _ =>
  }

  /** Listing a dict's entries in another order does not change the sorted dict. */
  lemma PermutedKeysSortEqually(fs: seq<Field>, gs: seq<Field>)
    requires UniqueKeys(fs) && UniqueKeys(gs)
    requires multiset(fs) == multiset(gs)
    ensures Canon(JObject(fs)) == Canon(JObject(gs))
  {
    var ma, mb := CanonValues(fs), CanonValues(gs);
    forall x | x in ma ensures x in mb {
      var i :| 0 <= i < |ma| && ma[i] == x;
      assert fs[i] in multiset(gs);
      var j :| 0 <= j < |gs| && gs[j] == fs[i];
      assert mb[j] == x;
    }
    forall x | x in mb ensures x in ma {
      var j :| 0 <= j < |mb| && mb[j] == x;
      assert gs[j] in multiset(fs);
      var i :| 0 <= i < |fs| && fs[i] == gs[j];
      assert ma[i] == x;
    }
    SameValuesSortEqually(fs, gs);
  }

  /** Dicts whose canonicalised entries coincide as sets sort to the same dict. */
  lemma SameValuesSortEqually(fs: seq<Field>, gs: seq<Field>)
    requires UniqueKeys(fs) && UniqueKeys(gs)
    requires forall x :: x in CanonValues(fs) <==> x in CanonValues(gs)
    ensures Canon(JObject(fs)) == Canon(JObject(gs))
  {
    var ma, mb := CanonValues(fs), CanonValues(gs);
    CanonValuesUniqueKeys(fs);
    CanonValuesUniqueKeys(gs);
    SortFieldsSorted(ma);
    SortFieldsSorted(mb);
    SortedUnique(SortFields(ma), SortFields(mb));
    CanonObject(fs);
    CanonObject(gs);
  }
}
