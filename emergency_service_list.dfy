/** The emergency-service list page: the "Total Services" card, the per-type counts that
    a `reduce` collects into an object, and the cards for the first three of its entries. */
module EmergencyServiceList {
  import opened Js
  import opened Lists

  /** The fields of a service that the summary reads. */
  datatype Service = Service(serviceName: string, serviceType: string)

  function TypesOf(services: seq<Service>): (types: seq<string>)
    ensures |types| == |services|
    ensures forall i :: 0 <= i < |services| ==> types[i] == services[i].serviceType
  {
    seq(|services|, i requires 0 <= i < |services| => services[i].serviceType)
  }

  /** How many times `t` occurs in `types`. */
  function Occurrences(types: seq<string>, t: string): nat
    decreases |types|
  {
    if types == [] then 0
    else Occurrences(types[..|types| - 1], t) + (if types[|types| - 1] == t then 1 else 0)
  }

  /** The distinct types in the order in which each first occurs. */
  function FirstAppearances(types: seq<string>): (keys: seq<string>)
    ensures forall t :: t in keys <==> t in types
    ensures Distinct(keys)
    decreases |types|
  {
    if types == [] then []
    else
      var init, last := types[..|types| - 1], types[|types| - 1];
      assert types == init + [last];
      var keys := FirstAppearances(init);
      if last in keys then keys else keys + [last]
  }

  predicate Distinct(s: seq<string>) {
    forall i, j :: 0 <= i < j < |s| ==> s[i] != s[j]
  }

  /** `x` occurs in `types` before any occurrence of `y`. */
  ghost predicate OccursBefore(types: seq<string>, x: string, y: string) {
    exists a :: 0 <= a < |types| && types[a] == x && forall b :: 0 <= b <= a ==> types[b] != y
  }

  /** The keys come in the order in which the types first occur among the services. */
  lemma {:induction false} FirstAppearanceOrder(types: seq<string>)
    ensures forall i, j :: 0 <= i < j < |FirstAppearances(types)| ==>
              OccursBefore(types, FirstAppearances(types)[i], FirstAppearances(types)[j])
    decreases |types|
  {
    if types != [] {
      var init, last := types[..|types| - 1], types[|types| - 1];
      assert types == init + [last];
      FirstAppearanceOrder(init);
      var prev := FirstAppearances(init);
      var keys := FirstAppearances(types);
      forall i, j | 0 <= i < j < |keys| ensures OccursBefore(types, keys[i], keys[j]) {
        if j < |prev| {
          assert keys[i] == prev[i] && keys[j] == prev[j];
          assert OccursBefore(init, prev[i], prev[j]);
          var a :| 0 <= a < |init| && init[a] == prev[i] && forall b :: 0 <= b <= a ==> init[b] != prev[j];
          assert types[a] == keys[i] && forall b :: 0 <= b <= a ==> types[b] != keys[j];
        } else {
          assert keys[j] == last && last !in init;
          assert keys[i] in init by { assert keys[i] == prev[i]; }
          var a :| 0 <= a < |init| && init[a] == keys[i];
          assert types[a] == keys[i] && forall b :: 0 <= b <= a ==> types[b] != keys[j];
        }
      }
    }
  }

  /** The object the `reduce` builds, as a map: each type present, with its count. */
  function Histogram(types: seq<string>): (h: map<string, nat>)
    ensures forall t :: t in h <==> t in types
  {
    map t | t in types :: Occurrences(types, t)
  }

  /** The `reduce` over the services: one step per service adds one to the count of its
      type, creating the entry (`acc[type] || 0`) the first time. `order` is the order in
      which the object's properties were created. */
  method CountByType(services: seq<Service>) returns (counts: map<string, nat>, order: seq<string>)
    ensures counts == Histogram(TypesOf(services))
    ensures order == FirstAppearances(TypesOf(services))
  {
    ghost var types := TypesOf(services);
    counts := map[];
    order := [];
    var i := 0;
    while i < |services|
      invariant 0 <= i <= |services|
      invariant order == FirstAppearances(types[..i])
      invariant counts == Histogram(types[..i])
    {
      var t := services[i].serviceType;
      Step(types, i);
      if t !in counts {
        order := order + [t];
      }
      counts := Bump(counts, t);
      i := i + 1;
    }
    assert types[..i] == types;
  }

  /** `(acc[type] || 0) + 1` stored back under `type`. */
  function Bump(acc: map<string, nat>, t: string): (r: map<string, nat>)
    ensures r.Keys == acc.Keys + {t}
  {
    acc[t := (if t in acc then acc[t] else 0) + 1]
  }

  /** One step of the `reduce`, for the object and for the order of its keys. */
  lemma Step(types: seq<string>, i: nat)
    requires i < |types|
    ensures Histogram(types[..i + 1]) == Bump(Histogram(types[..i]), types[i])
    ensures FirstAppearances(types[..i + 1]) ==
              var keys := FirstAppearances(types[..i]);
              if types[i] in Histogram(types[..i]) then keys else keys + [types[i]]
  {
    assert types[..i + 1] == types[..i] + [types[i]];
    HistogramStep(types[..i], types[i]);
  }

  lemma HistogramStep(prefix: seq<string>, t: string)
    ensures Histogram(prefix + [t]) == Bump(Histogram(prefix), t)
  {
    var h, h' := Histogram(prefix), Histogram(prefix + [t]);
    assert (prefix + [t])[..|prefix|] == prefix;
    forall u | u in h' ensures u in prefix || u == t {
      assert u in prefix + [t];
    }
    if t !in h {
      OccurrencesAbsent(prefix, t);
    }
  }

  lemma {:induction false} OccurrencesFilter(types: seq<string>, t: string)
    ensures Occurrences(types, t) == |Filter(types, (x: string) => x == t)|
    decreases |types|
  {
    if types != [] {
      OccurrencesFilter(types[..|types| - 1], t);
    }
  }

  /** The value stored for a type is the number of services of that type. */
  lemma CountIsExact(services: seq<Service>, t: string)
    ensures var h := Histogram(TypesOf(services));
      (t in h ==> h[t] == |set i: nat | i < |services| && services[i].serviceType == t|)
  {
    var types := TypesOf(services);
    var p := (x: string) => x == t;
    OccurrencesFilter(types, t);
    FilterLengthCountsPositions(types, p);
    assert Positions(types, p) == set i: nat | i < |services| && services[i].serviceType == t;
  }

  /** Every count is at least one. */
  lemma {:induction false} OccurrencesPositive(types: seq<string>, t: string)
    requires t in types
    ensures Occurrences(types, t) >= 1
    decreases |types|
  {
    var init := types[..|types| - 1];
    if types[|types| - 1] != t {
      assert types == init + [types[|types| - 1]];
      OccurrencesPositive(init, t);
    }
  }

  lemma {:induction false} OccurrencesAbsent(types: seq<string>, t: string)
    requires t !in types
    ensures Occurrences(types, t) == 0
    decreases |types|
  {
    if types != [] {
      var init := types[..|types| - 1];
      assert types == init + [types[|types| - 1]];
      OccurrencesAbsent(init, t);
    }
  }

  /** The keys of the object are exactly the types present, and every value is at least 1. */
  lemma HistogramKeysAndValues(types: seq<string>)
    ensures forall t :: t in Histogram(types) <==> t in types
    ensures forall t :: t in Histogram(types) ==> Histogram(types)[t] >= 1
  {
    forall t | t in types ensures Occurrences(types, t) >= 1 {
      OccurrencesPositive(types, t);
    }
  }

  /** The sum of `Occurrences(types, k)` over `keys`. */
  function SumCounts(keys: seq<string>, types: seq<string>): nat
    decreases |keys|
  {
    if keys == [] then 0
    else SumCounts(keys[..|keys| - 1], types) + Occurrences(types, keys[|keys| - 1])
  }

  lemma {:induction false} SumCountsSnoc(keys: seq<string>, types: seq<string>, x: string)
    requires Distinct(keys)
    ensures SumCounts(keys, types + [x]) == SumCounts(keys, types) + (if x in keys then 1 else 0)
    decreases |keys|
  {
    assert (types + [x])[..|types|] == types;
    if keys != [] {
      var init := keys[..|keys| - 1];
      assert keys == init + [keys[|keys| - 1]];
      SumCountsSnoc(init, types, x);
    }
  }

  /** `emergencyServices.length` */
  function TotalServices(services: seq<Service>): nat {
    |services|
  }

  /** Summed over its keys, the values of the object add up to `totalServices`. */
  lemma HistogramSumIsTotal(services: seq<Service>)
    ensures var types := TypesOf(services);
      && (forall k :: k in FirstAppearances(types) <==> k in Histogram(types))
      && SumCounts(FirstAppearances(types), types) == TotalServices(services)
  {
    SumOverFirstAppearances(TypesOf(services));
  }

  lemma {:induction false} SumOverFirstAppearances(types: seq<string>)
    ensures SumCounts(FirstAppearances(types), types) == |types|
    decreases |types|
  {
    if types != [] {
      var init, last := types[..|types| - 1], types[|types| - 1];
      assert types == init + [last];
      var keys := FirstAppearances(init);
      SumOverFirstAppearances(init);
      SumCountsSnoc(keys, init, last);
      if last !in keys {
        OccurrencesAbsent(init, last);
        assert (keys + [last])[..|keys|] == keys;
      }
    }
  }

  // ---------------------------------------------------------------------------
  // Object.entries(serviceTypes).slice(0, 3)

  /** A property key that is an array index: the canonical decimal text of an integer
      below 2^32 - 1. */
  predicate IsArrayIndex(k: string) {
    |k| >= 1 && AllDigits(k) && (k == "0" || k[0] != '0') && DigitsValue(k) < 4294967295
  }

  function KeyValue(k: string): nat {
    if AllDigits(k) then DigitsValue(k) else 0
  }

  predicate Ascending(s: seq<string>) {
    forall i, j :: 0 <= i < j < |s| ==> KeyValue(s[i]) <= KeyValue(s[j])
  }

  function Insert(k: string, s: seq<string>): (r: seq<string>)
    ensures multiset(r) == multiset(s) + multiset{k}
  {
    if s == [] then [k]
    else if KeyValue(k) <= KeyValue(s[0]) then [k] + s
    else
      assert s == [s[0]] + s[1..];
      [s[0]] + Insert(k, s[1..])
  }

  lemma {:induction false} InsertAscending(k: string, s: seq<string>)
    requires Ascending(s)
    ensures Ascending(Insert(k, s))
    decreases |s|
  {
    if s != [] && KeyValue(k) > KeyValue(s[0]) {
      var rest := Insert(k, s[1..]);
      InsertAscending(k, s[1..]);
      InsertedAtLeast(k, s);
      PrependAscending(s[0], rest);
    }
  }

  lemma InsertedAtLeast(k: string, s: seq<string>)
    requires Ascending(s) && s != [] && KeyValue(k) > KeyValue(s[0])
    ensures forall x :: x in Insert(k, s[1..]) ==> KeyValue(s[0]) <= KeyValue(x)
  {
    var rest := Insert(k, s[1..]);
    forall x | x in rest ensures KeyValue(s[0]) <= KeyValue(x) {
      assert x in multiset(rest);
      assert x == k || x in multiset(s[1..]);
    }
  }

  lemma PrependAscending(x: string, rest: seq<string>)
    requires Ascending(rest)
    requires forall y :: y in rest ==> KeyValue(x) <= KeyValue(y)
    ensures Ascending([x] + rest)
  {
    var r := [x] + rest;
    forall i, j | 0 <= i < j < |r| ensures KeyValue(r[i]) <= KeyValue(r[j]) {
      if i > 0 {
        assert r[i] == rest[i - 1] && r[j] == rest[j - 1];
      } else {
        assert r[j] in rest;
      }
    }
  }

  /** Insertion sort by numeric value. */
  function SortByValue(s: seq<string>): (r: seq<string>)
    ensures multiset(r) == multiset(s)
  {
    if s == [] then []
    else
      assert s == [s[0]] + s[1..];
      Insert(s[0], SortByValue(s[1..]))
  }

  lemma {:induction false} SortAscending(s: seq<string>)
    ensures Ascending(SortByValue(s))
    decreases |s|
  {
    if s != [] {
      SortAscending(s[1..]);
      InsertAscending(s[0], SortByValue(s[1..]));
    }
  }

  /** The order of `Object.entries`: array-index keys first, by increasing value, then the
      other keys in the order they were created. */
  function EntryOrder(order: seq<string>): (entries: seq<string>)
    ensures multiset(entries) == multiset(order)
  {
    var p := (k: string) => IsArrayIndex(k);
    var q := (k: string) => !IsArrayIndex(k);
    FilterSplit(order, p, q);
    SortByValue(Filter(order, p)) + Filter(order, q)
  }

  /** The layout of `Object.entries`: first the array-index keys, in increasing numeric
      order, then every other key in creation order. */
  lemma EntryOrderLayout(order: seq<string>)
    ensures var k := |Filter(order, (x: string) => IsArrayIndex(x))|;
      && k <= |EntryOrder(order)|
      && (forall i :: 0 <= i < k ==> IsArrayIndex(EntryOrder(order)[i]))
      && Ascending(EntryOrder(order)[..k])
      && EntryOrder(order)[k..] == Filter(order, (x: string) => !IsArrayIndex(x))
  {
    var p := (x: string) => IsArrayIndex(x);
    var q := (x: string) => !IsArrayIndex(x);
    var indexKeys := Filter(order, p);
    var sorted := SortByValue(indexKeys);
    SortAscending(indexKeys);
    assert |sorted| == |indexKeys| by {
      assert |multiset(sorted)| == |multiset(indexKeys)|;
    }
    var entries := sorted + Filter(order, q);
    assert EntryOrder(order) == entries;
    assert entries[..|sorted|] == sorted;
    assert entries[|sorted|..] == Filter(order, q);
    forall i | 0 <= i < |sorted| ensures IsArrayIndex(entries[i]) {
      assert sorted[i] in multiset(indexKeys);
      assert sorted[i] in indexKeys;
      assert p(sorted[i]);
    }
  }

  datatype TypeCard = TypeCard(serviceType: string, count: nat)

  /** The cards after "Total Services": the first three entries of the object. */
  function TypeCards(counts: map<string, nat>, order: seq<string>): (cards: seq<TypeCard>)
    requires forall k :: k in order ==> k in counts
    ensures |cards| == if |order| < 3 then |order| else 3
    ensures forall i :: 0 <= i < |cards| ==>
              cards[i].serviceType in order && cards[i].count == counts[cards[i].serviceType]
    ensures |cards| <= |EntryOrder(order)|
    ensures forall i :: 0 <= i < |cards| ==> cards[i].serviceType == EntryOrder(order)[i]
  {
    EntriesFromOrder(order);
    var entries := EntryOrder(order);
    var n := if |entries| < 3 then |entries| else 3;
    seq(n, i requires 0 <= i < n => TypeCard(entries[i], counts[entries[i]]))
  }

  lemma {:induction false} DistinctCardinality(s: seq<string>)
    requires Distinct(s)
    ensures |set x | x in s| == |s|
    decreases |s|
  {
    if s != [] {
      var init, last := s[..|s| - 1], s[|s| - 1];
      assert s == init + [last];
      DistinctCardinality(init);
      assert (set x | x in s) == (set x | x in init) + {last};
    }
  }

  /** `Object.entries` lists each key once, so there are as many entries as keys. */
  lemma EntriesFromOrder(order: seq<string>)
    ensures |EntryOrder(order)| == |order|
    ensures forall k :: k in EntryOrder(order) ==> k in order
  {
    var entries := EntryOrder(order);
    assert |multiset(entries)| == |multiset(order)|;
    forall k | k in entries ensures k in order {
      assert k in multiset(entries);
    }
  }

  /** For the object the `reduce` builds there are min(3, number of distinct types)
      cards, each showing a type and its count, which is at least 1. */
  lemma TypeCardsSummary(types: seq<string>)
    ensures var cards := TypeCards(Histogram(types), FirstAppearances(types));
      && var distinct := |set t | t in types|;
      && |cards| == (if distinct < 3 then distinct else 3)
      && forall i :: 0 <= i < |cards| ==>
           && cards[i].serviceType in types
           && cards[i].count == Occurrences(types, cards[i].serviceType) >= 1
  {
    var keys := FirstAppearances(types);
    DistinctCardinality(keys);
    assert (set t | t in types) == (set t | t in keys);
    HistogramKeysAndValues(types);
  }

  /** When no type looks like an array index, the cards show the types in the order in
      which they first occur among the services. */
  lemma CardsFollowFirstAppearance(types: seq<string>)
    requires forall t :: t in types ==> !IsArrayIndex(t)
    ensures var cards := TypeCards(Histogram(types), FirstAppearances(types));
      forall i :: 0 <= i < |cards| ==> cards[i].serviceType == FirstAppearances(types)[i]
  {
    var keys := FirstAppearances(types);
    NoIndexKeys(keys);
    assert EntryOrder(keys) == keys;
  }

  lemma {:induction false} NoIndexKeys(keys: seq<string>)
    requires forall k :: k in keys ==> !IsArrayIndex(k)
    ensures Filter(keys, (k: string) => IsArrayIndex(k)) == []
    ensures Filter(keys, (k: string) => !IsArrayIndex(k)) == keys
    decreases |keys|
  {
    if keys != [] {
      var init := keys[..|keys| - 1];
      assert keys == init + [keys[|keys| - 1]];
      NoIndexKeys(init);
    }
  }
}
