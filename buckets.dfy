/**
  The table of rates grouped by fixed-rate commitment period, and the loop of
  morgagestats.py that fills it from the feed's entries.

  The script keeps a dictionary from commitment period (0, 3, 5 or 10 years)
  to a pair of lists (nominal rates, effective rates) and appends to it in
  place while it walks the entries. Here the dictionary is a `map` from the
  period to a `Bucket`; the loop is the method CollectRates, specified by the
  fold RatesOf, and RatesOf is tied by lemmas to an independent description:
  the successfully parsed offers, filtered per bucket.
*/
module Buckets {
  import opened Wrappers
  import opened Rates
  import opened Statistics

  /**
    One `entry` element of the feed. Each of the four fields is looked up by
    name and converted to a number; a field that is missing or not numeric is
    None.
  */
  datatype RawEntry = RawEntry(
    nominalRate: Option<real>,
    bindingYears: Option<int>,
    termFee: Option<real>,
    setupFee: Option<real>)

  /** A loan offer whose four fields were all read. */
  datatype Offer = Offer(nominalRate: real, bindingYears: int, termFee: real, setupFee: real)

  /** The two lists kept for one commitment period, in feed order. */
  datatype Bucket = Bucket(nominal: seq<real>, effective: seq<real>)

  /** The script's `rates` dictionary. */
  type Table = map<int, Bucket>

  /** The dictionary's keys, and the order in which it was built (and is iterated). */
  const Keys: set<int> := {0, 3, 5, 10}
  const KeyOrder: seq<int> := [0, 3, 5, 10]

  /** The four field conversions of one entry; the entry is usable only if all four succeed. */
  function Parse(e: RawEntry): (r: Option<Offer>)
    ensures r.Some? <==> e.nominalRate.Some? && e.bindingYears.Some? && e.termFee.Some? && e.setupFee.Some?
    ensures r.Some? ==>
      && r.value.nominalRate == e.nominalRate.value && r.value.bindingYears == e.bindingYears.value
      && r.value.termFee == e.termFee.value && r.value.setupFee == e.setupFee.value
  {
    match (e.nominalRate, e.bindingYears, e.termFee, e.setupFee)
    case (Some(n), Some(y), Some(t), Some(s)) => Some(Offer(n, y, t, s))
    case _ => None
  }

  function NominalOf(o: Offer): real
  {
    o.nominalRate
  }

  /** The effective rate the script computes for an offer, on the default principal. */
  function EffectiveOf(o: Offer): real
  {
    EffectiveRate(o.nominalRate, o.termFee, o.setupFee)
  }

  /**
    The bucket an offer's commitment period is filed under: 3, 5 and 10 keep
    their own bucket; every other value, 0 included, goes to bucket 0.
  */
  function BucketKey(years: int): (k: int)
    ensures k in Keys
    ensures years == 3 || years == 5 || years == 10 ==> k == years
    ensures !(years == 3 || years == 5 || years == 10) ==> k == 0
  {
    if years in Keys then years else 0
  }

  /** The shape the dictionary always has: its four keys, and two lists of equal length under each. */
  ghost predicate WellFormed(t: Table)
  {
    && t.Keys == Keys
    && forall k | k in t :: |t[k].nominal| == |t[k].effective|
  }

  /** The dictionary as the script creates it: four buckets, all lists empty. */
  function InitialTable(): (t: Table)
    ensures WellFormed(t)
    ensures forall k | k in t :: t[k].nominal == [] && t[k].effective == []
  {
    map[0 := Bucket([], []), 3 := Bucket([], []), 5 := Bucket([], []), 10 := Bucket([], [])]
  }

  /**
    One iteration of the loop. An entry with any field unreadable leaves the
    table exactly as it was; otherwise exactly one bucket, the one its period
    is filed under, grows by the offer's nominal rate and its effective rate,
    and every other bucket is unchanged.
  */
  function Absorb(t: Table, e: RawEntry): (r: Table)
    requires WellFormed(t)
    ensures WellFormed(r)
    ensures Parse(e).None? ==> r == t
    ensures Parse(e).Some? ==>
      var o := Parse(e).value;
      forall k | k in r ::
        r[k] == if k == BucketKey(o.bindingYears)
                then Bucket(t[k].nominal + [o.nominalRate], t[k].effective + [EffectiveOf(o)])
                else t[k]
  {
    match Parse(e)
    case None => t
    case Some(o) =>
      var k := BucketKey(o.bindingYears);
      t[k := Bucket(t[k].nominal + [NominalOf(o)], t[k].effective + [EffectiveOf(o)])]
  }

  /** The table after the loop has seen `entries`, in feed order. */
  function RatesOf(entries: seq<RawEntry>): (t: Table)
    ensures WellFormed(t)
  {
    if |entries| == 0 then InitialTable()
    else Absorb(RatesOf(entries[..|entries| - 1]), entries[|entries| - 1])
  }

  /**
    The loop over the feed's entries. The four fields are read first; only if
    all four succeed is the effective rate computed, an unknown period folded
    into 0 and one value appended to each list of that bucket.
  */
  method CollectRates(entries: seq<RawEntry>) returns (rates: Table)
    ensures rates == RatesOf(entries)
  {
    rates := map[0 := Bucket([], []), 3 := Bucket([], []), 5 := Bucket([], []), 10 := Bucket([], [])];
    var i := 0;
    while i < |entries|
      invariant 0 <= i <= |entries|
      invariant rates == RatesOf(entries[..i])
    {
      var entry := entries[i];
      assert entries[..i + 1][..i] == entries[..i];
      if entry.nominalRate.Some? && entry.bindingYears.Some? && entry.termFee.Some? && entry.setupFee.Some? {
        var nominalRate := entry.nominalRate.value;
        var bindingYears := entry.bindingYears.value;
        var termFee := entry.termFee.value;
        var setupFee := entry.setupFee.value;
        var effectiveRate := EffectiveRate(nominalRate, termFee, setupFee);
        if bindingYears !in rates {
          bindingYears := 0;
        }
        ghost var before := rates;
        rates := rates[bindingYears := rates[bindingYears].(nominal := rates[bindingYears].nominal + [nominalRate])];
        rates := rates[bindingYears := rates[bindingYears].(effective := rates[bindingYears].effective + [effectiveRate])];
        assert rates == before[bindingYears := Bucket(before[bindingYears].nominal + [nominalRate], before[bindingYears].effective + [effectiveRate])];
      }
      i := i + 1;
    }
    assert entries[..i] == entries;
  }

  // ---------------------------------------------------------------------
  // The reference description: parsed offers, filtered per bucket.

  /** The offers whose four fields all parsed, in feed order. */
  function Parsed(entries: seq<RawEntry>): seq<Offer>
  {
    if |entries| == 0 then []
    else
      Parsed(entries[..|entries| - 1]) +
      match Parse(entries[|entries| - 1]) case Some(o) => [o] case None => []
  }

  /** The offers filed under bucket k, in order. */
  function InBucket(ps: seq<Offer>, k: int): seq<Offer>
  {
    if |ps| == 0 then []
    else InBucket(ps[..|ps| - 1], k) + if BucketKey(ps[|ps| - 1].bindingYears) == k then [ps[|ps| - 1]] else []
  }

  /** One number per offer. */
  function Values(ps: seq<Offer>, f: Offer -> real): (r: seq<real>)
    ensures |r| == |ps| && forall i :: 0 <= i < |ps| ==> r[i] == f(ps[i])
  {
    seq(|ps|, i requires 0 <= i < |ps| => f(ps[i]))
  }

  lemma {:induction false} ValuesSnoc(ps: seq<Offer>, o: Offer, f: Offer -> real)
    ensures Values(ps + [o], f) == Values(ps, f) + [f(o)]
  {
  }

  lemma {:induction false} InBucketSnoc(ps: seq<Offer>, o: Offer, k: int)
    ensures InBucket(ps + [o], k) == InBucket(ps, k) + if BucketKey(o.bindingYears) == k then [o] else []
  {
    assert (ps + [o])[..|ps|] == ps;
  }

  /** InBucket keeps exactly the offers filed under k. */
  lemma {:induction false} InBucketMembers(ps: seq<Offer>, k: int)
    ensures forall o :: o in InBucket(ps, k) <==> o in ps && BucketKey(o.bindingYears) == k
  {
    if |ps| > 0 {
      var front := ps[..|ps| - 1];
      InBucketMembers(front, k);
      assert ps == front + [ps[|ps| - 1]];
    }
  }

  /** The contents of bucket k as the reference description gives them. */
  function Expected(ps: seq<Offer>, k: int): Bucket
  {
    Bucket(Values(InBucket(ps, k), NominalOf), Values(InBucket(ps, k), EffectiveOf))
  }

  /** One step of the loop keeps bucket k equal to its reference description. */
  lemma {:induction false} ExpectedStep(t: Table, ps: seq<Offer>, e: RawEntry, k: int)
    requires WellFormed(t) && k in Keys && t[k] == Expected(ps, k)
    ensures Absorb(t, e)[k] == Expected(ps + match Parse(e) case Some(o) => [o] case None => [], k)
  {
    match Parse(e)
    case None =>
      assert ps + [] == ps;
    case Some(o) =>
      InBucketSnoc(ps, o, k);
      ValuesSnoc(InBucket(ps, k), o, NominalOf);
      ValuesSnoc(InBucket(ps, k), o, EffectiveOf);
  }

  /**
    Bucket k of the table holds exactly the nominal and the effective rates of
    the parsed offers filed under k, in feed order.
  */
  lemma {:induction false} RatesOfContents(entries: seq<RawEntry>, k: int)
    requires k in Keys
    ensures RatesOf(entries)[k] == Expected(Parsed(entries), k)
  {
    if |entries| > 0 {
      var front := entries[..|entries| - 1];
      RatesOfContents(front, k);
      ExpectedStep(RatesOf(front), Parsed(front), entries[|entries| - 1], k);
    }
  }

  /** An entry that fails to parse leaves the whole table unchanged. */
  lemma {:induction false} SkippedEntryLeavesTable(entries: seq<RawEntry>, e: RawEntry)
    requires Parse(e).None?
    ensures RatesOf(entries + [e]) == RatesOf(entries)
  {
    assert (entries + [e])[..|entries|] == entries;
  }

  /**
    A parsed entry appends its own nominal and effective rate to the bucket
    its period is filed under, and to no other.
  */
  lemma {:induction false} ParsedEntryGrowsOneBucket(entries: seq<RawEntry>, e: RawEntry, k: int)
    requires Parse(e).Some? && k in Keys
    ensures var o := Parse(e).value;
      RatesOf(entries + [e])[k] ==
        if k == BucketKey(o.bindingYears)
        then Bucket(RatesOf(entries)[k].nominal + [o.nominalRate], RatesOf(entries)[k].effective + [EffectiveOf(o)])
        else RatesOf(entries)[k]
  {
    assert (entries + [e])[..|entries|] == entries;
  }

  // ---------------------------------------------------------------------
  // Sizes and the flattened "all loans" lists.

  /** Number of values in each list of bucket k. */
  function Count(t: Table, k: int): nat
    requires WellFormed(t) && k in Keys
  {
    |t[k].nominal|
  }

  /** Lists laid end to end, as the script's nested comprehension `[x for l in lists for x in l]` does. */
  function Flatten(parts: seq<seq<real>>): (r: seq<real>)
    ensures forall x :: x in r <==> exists i :: 0 <= i < |parts| && x in parts[i]
  {
    if |parts| == 0 then [] else Flatten(parts[..|parts| - 1]) + parts[|parts| - 1]
  }

  lemma FlattenFour(a: seq<real>, b: seq<real>, c: seq<real>, d: seq<real>)
    ensures Flatten([a, b, c, d]) == a + b + c + d
  {
    assert [a, b, c, d][..3] == [a, b, c];
    assert [a, b, c][..2] == [a, b];
    assert [a, b][..1] == [a];
    assert [a][..0] == [];
    assert Flatten([a]) == [] + a == a;
    assert Flatten([a, b]) == a + b;
    assert Flatten([a, b, c]) == a + b + c;
  }

  /** All nominal rates, bucket after bucket in the dictionary's order 0, 3, 5, 10. */
  function AllNominal(t: Table): (r: seq<real>)
    requires WellFormed(t)
    ensures |r| == Count(t, 0) + Count(t, 3) + Count(t, 5) + Count(t, 10)
  {
    FlattenFour(t[0].nominal, t[3].nominal, t[5].nominal, t[10].nominal);
    Flatten([t[0].nominal, t[3].nominal, t[5].nominal, t[10].nominal])
  }

  /** All effective rates, in the same bucket order; `AllLoansAligned` shows position i of both lists is the same offer. */
  function AllEffective(t: Table): (r: seq<real>)
    requires WellFormed(t)
    ensures |r| == |AllNominal(t)|
  {
    FlattenFour(t[0].effective, t[3].effective, t[5].effective, t[10].effective);
    Flatten([t[0].effective, t[3].effective, t[5].effective, t[10].effective])
  }

  /** Growing one of the lists by v adds exactly v to the flattened list, as a multiset and to its sum. */
  lemma {:induction false} FlattenGrow(parts: seq<seq<real>>, i: nat, v: real)
    requires i < |parts|
    ensures multiset(Flatten(parts[i := parts[i] + [v]])) == multiset(Flatten(parts)) + multiset{v}
    ensures Sum(Flatten(parts[i := parts[i] + [v]])) == Sum(Flatten(parts)) + v
  {
    var n := |parts|;
    var grown := parts[i := parts[i] + [v]];
    var front := parts[..n - 1];
    assert Sum([v]) == v by {
      assert [v][..0] == [];
    }
    if i == n - 1 {
      assert grown[..n - 1] == front;
      SumConcat(Flatten(front), parts[i] + [v]);
      SumConcat(Flatten(front), parts[i]);
      SumConcat(parts[i], [v]);
    } else {
      assert grown[..n - 1] == front[i := front[i] + [v]];
      FlattenGrow(front, i, v);
      SumConcat(Flatten(grown[..n - 1]), parts[n - 1]);
      SumConcat(Flatten(front), parts[n - 1]);
    }
  }

  /** The per-bucket values of the offers, laid out in the dictionary's order. */
  function Spread(ps: seq<Offer>, f: Offer -> real): seq<real>
  {
    Flatten([Values(InBucket(ps, 0), f), Values(InBucket(ps, 3), f), Values(InBucket(ps, 5), f), Values(InBucket(ps, 10), f)])
  }

  lemma {:induction false} BucketValuesSnoc(ps: seq<Offer>, o: Offer, f: Offer -> real, j: int)
    ensures Values(InBucket(ps + [o], j), f) == Values(InBucket(ps, j), f) + if BucketKey(o.bindingYears) == j then [f(o)] else []
  {
    InBucketSnoc(ps, o, j);
    if BucketKey(o.bindingYears) == j {
      ValuesSnoc(InBucket(ps, j), o, f);
    } else {
      assert InBucket(ps + [o], j) == InBucket(ps, j);
    }
  }

  /** Appending one offer adds its value to exactly one bucket of the layout. */
  lemma {:induction false} SpreadSnoc(ps: seq<Offer>, o: Offer, f: Offer -> real)
    ensures multiset(Spread(ps + [o], f)) == multiset(Spread(ps, f)) + multiset{f(o)}
    ensures Sum(Spread(ps + [o], f)) == Sum(Spread(ps, f)) + f(o)
  {
    var parts := [Values(InBucket(ps, 0), f), Values(InBucket(ps, 3), f), Values(InBucket(ps, 5), f), Values(InBucket(ps, 10), f)];
    var k := BucketKey(o.bindingYears);
    var i := if k == 0 then 0 else if k == 3 then 1 else if k == 5 then 2 else 3;
    BucketValuesSnoc(ps, o, f, 0);
    BucketValuesSnoc(ps, o, f, 3);
    BucketValuesSnoc(ps, o, f, 5);
    BucketValuesSnoc(ps, o, f, 10);
    var grown := [Values(InBucket(ps + [o], 0), f), Values(InBucket(ps + [o], 3), f), Values(InBucket(ps + [o], 5), f), Values(InBucket(ps + [o], 10), f)];
    assert grown == parts[i := parts[i] + [f(o)]] by {
      forall j | 0 <= j < 4
        ensures grown[j] == parts[i := parts[i] + [f(o)]][j]
      {
        assert KeyOrder[j] in Keys;
      }
    }
    FlattenGrow(parts, i, f(o));
  }

  /** Filing the offers into the four buckets neither loses nor duplicates any. */
  lemma {:induction false} PartitionValues(ps: seq<Offer>, f: Offer -> real)
    ensures multiset(Spread(ps, f)) == multiset(Values(ps, f))
    ensures Sum(Spread(ps, f)) == Sum(Values(ps, f))
  {
    if |ps| == 0 {
      FlattenFour([], [], [], []);
    } else {
      var front := ps[..|ps| - 1];
      var o := ps[|ps| - 1];
      assert ps == front + [o];
      PartitionValues(front, f);
      SpreadSnoc(front, o, f);
      ValuesSnoc(front, o, f);
      SumConcat(Values(front, f), [f(o)]);
      assert Sum([f(o)]) == f(o) by {
        assert [f(o)][..0] == [];
      }
    }
  }

  /**
    The "all loans" lists hold every parsed offer's rates exactly once (as
    multisets), so their length is the number of parsed entries and their sums
    are the sums over all parsed offers.
  */
  lemma {:induction false} AllLoansCoverEveryOffer(entries: seq<RawEntry>)
    ensures multiset(AllNominal(RatesOf(entries))) == multiset(Values(Parsed(entries), NominalOf))
    ensures multiset(AllEffective(RatesOf(entries))) == multiset(Values(Parsed(entries), EffectiveOf))
    ensures Sum(AllNominal(RatesOf(entries))) == Sum(Values(Parsed(entries), NominalOf))
    ensures Sum(AllEffective(RatesOf(entries))) == Sum(Values(Parsed(entries), EffectiveOf))
    ensures |AllNominal(RatesOf(entries))| == |AllEffective(RatesOf(entries))| == |Parsed(entries)|
  {
    RatesOfContents(entries, 0);
    RatesOfContents(entries, 3);
    RatesOfContents(entries, 5);
    RatesOfContents(entries, 10);
    PartitionValues(Parsed(entries), NominalOf);
    PartitionValues(Parsed(entries), EffectiveOf);
    assert |multiset(AllNominal(RatesOf(entries)))| == |multiset(Values(Parsed(entries), NominalOf))|;
  }

  /** The parsed offers in the order the all-loans lists hold them: bucket after bucket. */
  function Filed(ps: seq<Offer>): seq<Offer>
  {
    InBucket(ps, 0) + InBucket(ps, 3) + InBucket(ps, 5) + InBucket(ps, 10)
  }

  lemma {:induction false} ValuesConcat(a: seq<Offer>, b: seq<Offer>, f: Offer -> real)
    ensures Values(a + b, f) == Values(a, f) + Values(b, f)
  {
    assert forall i :: 0 <= i < |b| ==> (a + b)[|a| + i] == b[i];
  }

  /**
   * The two all-loans lists are laid out offer by offer in the same order:
   * position i of each holds the rate of the same filed offer.
   */
  lemma {:induction false} AllLoansAligned(entries: seq<RawEntry>)
    ensures AllNominal(RatesOf(entries)) == Values(Filed(Parsed(entries)), NominalOf)
    ensures AllEffective(RatesOf(entries)) == Values(Filed(Parsed(entries)), EffectiveOf)
  {
    var ps := Parsed(entries);
    RatesOfContents(entries, 0);
    RatesOfContents(entries, 3);
    RatesOfContents(entries, 5);
    RatesOfContents(entries, 10);
    var t := RatesOf(entries);
    FlattenFour(t[0].nominal, t[3].nominal, t[5].nominal, t[10].nominal);
    FlattenFour(t[0].effective, t[3].effective, t[5].effective, t[10].effective);
    ValuesConcat(InBucket(ps, 0), InBucket(ps, 3), NominalOf);
    ValuesConcat(InBucket(ps, 0) + InBucket(ps, 3), InBucket(ps, 5), NominalOf);
    ValuesConcat(InBucket(ps, 0) + InBucket(ps, 3) + InBucket(ps, 5), InBucket(ps, 10), NominalOf);
    ValuesConcat(InBucket(ps, 0), InBucket(ps, 3), EffectiveOf);
    ValuesConcat(InBucket(ps, 0) + InBucket(ps, 3), InBucket(ps, 5), EffectiveOf);
    ValuesConcat(InBucket(ps, 0) + InBucket(ps, 3) + InBucket(ps, 5), InBucket(ps, 10), EffectiveOf);
  }

  /** Bucket k is non-empty exactly when some parsed offer is filed under k. */
  lemma {:induction false} BucketNonEmptyIff(entries: seq<RawEntry>, k: int)
    requires k in Keys
    ensures Count(RatesOf(entries), k) > 0 <==> exists o :: o in Parsed(entries) && BucketKey(o.bindingYears) == k
  {
    RatesOfContents(entries, k);
    InBucketMembers(Parsed(entries), k);
    var b := InBucket(Parsed(entries), k);
    if |b| > 0 {
      assert b[0] in b;
    }
  }

  /** Worked example: two offers with a three-year period both land in bucket 3. */
  lemma ThreeYearExample()
    ensures var t := RatesOf([RawEntry(Some(5.0), Some(3), Some(100.0), Some(0.0)),
                              RawEntry(Some(6.0), Some(3), Some(100.0), Some(0.0))]);
      && t[3] == Bucket([5.0, 6.0], [5.06, 6.06])
      && t[0] == t[5] == t[10] == Bucket([], [])
  {
    var e1 := RawEntry(Some(5.0), Some(3), Some(100.0), Some(0.0));
    var e2 := RawEntry(Some(6.0), Some(3), Some(100.0), Some(0.0));
    assert [e1, e2][..1] == [e1];
    assert [e1][..0] == [];
  }

  /** Worked example: an unknown period such as 99 goes to bucket 0 and is not dropped. */
  lemma UnknownPeriodExample()
    ensures RatesOf([RawEntry(Some(4.0), Some(99), Some(0.0), Some(0.0))])[0] == Bucket([4.0], [4.0])
  {
    assert [RawEntry(Some(4.0), Some(99), Some(0.0), Some(0.0))][..0] == [];
  }
}
