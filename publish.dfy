/**
  The averages the script reports and the record it publishes: the means per
  bucket and over all loans, the nine fields of the published record, and the
  run as one function from the parsed feed and the date to the record or the
  error that stops it.
*/
module Publish {
  import opened Wrappers
  import opened Rates
  import opened Statistics
  import opened Buckets
  import opened Dates

  /** Nominal and effective mean of one group of offers. */
  datatype Means = Means(nominal: real, effective: real)

  /** What the script prints: one pair of means per bucket and one over all loans. */
  datatype Averages = Averages(byBucket: map<int, Means>, all: Means)

  /** `statistics.mean` raising on the first empty bucket, which ends the run. */
  datatype Error = EmptyBucket(key: int)

  /**
    The means of lines 71-75 of the script, taken bucket by bucket in the
    order 0, 3, 5, 10 and then over all loans. The run fails exactly when one
    of the four buckets is empty, and the error names the first such bucket.
  */
  function Report(t: Table): (r: Result<Averages, Error>)
    requires WellFormed(t)
    ensures r.Failure? <==> exists k :: k in Keys && Count(t, k) == 0
    ensures r.Failure? ==>
      && r.error.key in Keys && Count(t, r.error.key) == 0
      && forall i, j :: 0 <= i < j < |KeyOrder| && KeyOrder[j] == r.error.key ==> Count(t, KeyOrder[i]) > 0
    ensures r.Success? ==>
      && r.value.byBucket.Keys == Keys
      && (forall k | k in Keys :: r.value.byBucket[k] == Means(Mean(t[k].nominal), Mean(t[k].effective)))
      && r.value.all == Means(Mean(AllNominal(t)), Mean(AllEffective(t)))
  {
    if Count(t, 0) == 0 then Failure(EmptyBucket(0))
    else if Count(t, 3) == 0 then Failure(EmptyBucket(3))
    else if Count(t, 5) == 0 then Failure(EmptyBucket(5))
    else if Count(t, 10) == 0 then Failure(EmptyBucket(10))
    else
      Success(Averages(
        map k | k in Keys :: Means(Mean(t[k].nominal), Mean(t[k].effective)),
        Means(Mean(AllNominal(t)), Mean(AllEffective(t)))))
  }

  /** Where the value of a published field comes from. */
  datatype Statistic = NominalMean | EffectiveMean
  datatype FieldSource =
    | BucketMean(key: int, stat: Statistic)
    | AllLoansMean(stat: Statistic)
    | UpdatedText

  /** A published value: a mean (kept exact; the script prints it with two decimals) or the date text. */
  datatype FieldValue = Number(value: real) | Text(text: string)

  /** Everything the record publishes: both means of buckets 3, 5 and 10 and of all loans, and the date. */
  const Published: set<FieldSource> := {
    BucketMean(3, NominalMean), BucketMean(3, EffectiveMean),
    BucketMean(5, NominalMean), BucketMean(5, EffectiveMean),
    BucketMean(10, NominalMean), BucketMean(10, EffectiveMean),
    AllLoansMean(NominalMean), AllLoansMean(EffectiveMean),
    UpdatedText
  }

  function Pick(m: Means, stat: Statistic): real
  {
    match stat
    case NominalMean => m.nominal
    case EffectiveMean => m.effective
  }

  /** The value a field takes, given the averages and the date text. */
  function FieldValueOf(source: FieldSource, avg: Averages, updated: string): FieldValue
    requires source.BucketMean? ==> source.key in avg.byBucket
  {
    match source
    case BucketMean(k, stat) => Number(Pick(avg.byBucket[k], stat))
    case AllLoansMean(stat) => Number(Pick(avg.all, stat))
    case UpdatedText => Text(updated)
  }

  /**
    The record's field data: exactly the nine field names, each holding the
    statistic the field table assigns to it.
  */
  function Payload(avg: Averages, updated: string): (p: map<string, FieldValue>)
    requires avg.byBucket.Keys == Keys
    ensures p.Keys == Fields.Keys && |p.Keys| == 9
    ensures forall name | name in p :: Fields[name].BucketMean? ==> Fields[name].key != 0
  {
    FieldCount();
    FieldsOmitBucketZero();
    map name | name in Fields :: FieldValueOf(Fields[name], avg, updated)
  }

  /** The nine fields of the published record and what each one holds. */
  const Fields: map<string, FieldSource> := map[
    "fastrente-10-ar-effektiv-rente" := BucketMean(10, EffectiveMean),
    "fastrente-10-ar-rente" := BucketMean(10, NominalMean),
    "fastrente-5-ar-rente" := BucketMean(5, NominalMean),
    "fastrente-3-ar-rente" := BucketMean(3, NominalMean),
    "gjsnitt-nominell-rente" := AllLoansMean(NominalMean),
    "gjsnitt-effektiv-rente" := AllLoansMean(EffectiveMean),
    "fastrente-3-ar-effektiv-rente" := BucketMean(3, EffectiveMean),
    "fastrente-5-ar-effektiv-rente" := BucketMean(5, EffectiveMean),
    "sist-oppdatert" := UpdatedText
  ]

  /**
    The same table read as two parallel lists, in the record's order; FieldLookup
    proves that they agree with Fields. Proofs reason about positions here.
  */
  ghost const FieldNames: seq<string> := [
    "fastrente-10-ar-effektiv-rente", "fastrente-10-ar-rente", "fastrente-5-ar-rente",
    "fastrente-3-ar-rente", "gjsnitt-nominell-rente", "gjsnitt-effektiv-rente",
    "fastrente-3-ar-effektiv-rente", "fastrente-5-ar-effektiv-rente", "sist-oppdatert"
  ]
  ghost const FieldSources: seq<FieldSource> := [
    BucketMean(10, EffectiveMean), BucketMean(10, NominalMean), BucketMean(5, NominalMean),
    BucketMean(3, NominalMean), AllLoansMean(NominalMean), AllLoansMean(EffectiveMean),
    BucketMean(3, EffectiveMean), BucketMean(5, EffectiveMean), UpdatedText
  ]

  /** No two field names share their length and eleventh character, so no two are equal. */
  lemma FieldNamesDistinct(a: int, b: int)
    requires 0 <= a < b < 9
    ensures FieldNames[a] != FieldNames[b]
  {
    var key := seq(9, i requires 0 <= i < 9 => (|FieldNames[i]|, FieldNames[i][10]));
    assert key == [(30, '1'), (21, '1'), (20, '5'), (20, '3'), (22, 'm'), (22, 'f'), (29, '3'), (29, '5'), (14, 't')];
    assert key[a] != key[b];
  }

  /** The name at position i keys the source at position i. */
  lemma FieldAt(i: int)
    requires 0 <= i < 9
    ensures FieldNames[i] in Fields && Fields[FieldNames[i]] == FieldSources[i]
  {
    forall j | i < j < 9
      ensures FieldNames[i] != FieldNames[j]
    {
      FieldNamesDistinct(i, j);
    }
  }

  /** The record lists its nine fields once each, in the order of FieldNames. */
  lemma FieldLookup()
    ensures forall name :: name in Fields <==> name in FieldNames
    ensures forall i | 0 <= i < 9 :: FieldNames[i] in Fields && Fields[FieldNames[i]] == FieldSources[i]
  {
    forall i | 0 <= i < 9
      ensures FieldNames[i] in Fields && Fields[FieldNames[i]] == FieldSources[i]
    {
      FieldAt(i);
    }
  }

  /** A list without repetitions has as many distinct elements as entries. */
  lemma {:induction false} DistinctCount<T>(xs: seq<T>)
    requires forall a, b | 0 <= a < b < |xs| :: xs[a] != xs[b]
    ensures |set x | x in xs| == |xs|
  {
    if |xs| > 0 {
      var front := xs[..|xs| - 1];
      DistinctCount(front);
      assert (set x | x in xs) == (set x | x in front) + {xs[|xs| - 1]};
      assert xs[|xs| - 1] !in front;
    }
  }

  /** The record has nine distinct field names. */
  lemma FieldCount()
    ensures |Fields.Keys| == 9
  {
    FieldLookup();
    forall a, b | 0 <= a < b < 9
      ensures FieldNames[a] != FieldNames[b]
    {
      FieldNamesDistinct(a, b);
    }
    DistinctCount(FieldNames);
    assert Fields.Keys == set x | x in FieldNames;
  }

  /** Every statistic the record publishes comes from one of its fields, and every field publishes one of them. */
  lemma FieldsPublish()
    ensures Fields.Values == Published
  {
    FieldLookup();
    forall s | s in Published
      ensures s in Fields.Values
    {
      assert s in FieldSources;
      var i :| 0 <= i < 9 && FieldSources[i] == s;
      assert Fields[FieldNames[i]] == s;
    }
    forall s | s in Fields.Values
      ensures s in Published
    {
      var n :| n in Fields && Fields[n] == s;
      var i :| 0 <= i < 9 && FieldNames[i] == n;
    }
  }

  /** No statistic is published under two names. */
  lemma FieldsOneToOne()
    ensures forall a, b | a in Fields && b in Fields && a != b :: Fields[a] != Fields[b]
  {
    FieldLookup();
    forall a, b | a in Fields && b in Fields && a != b
      ensures Fields[a] != Fields[b]
    {
      var i :| 0 <= i < 9 && FieldNames[i] == a;
      var j :| 0 <= j < 9 && FieldNames[j] == b;
    }
  }

  /** The means of bucket 0 are not published. */
  lemma FieldsOmitBucketZero()
    ensures forall name | name in Fields :: Fields[name].BucketMean? ==> Fields[name].key != 0
  {
    FieldsPublish();
    forall name | name in Fields
      ensures Fields[name].BucketMean? ==> Fields[name].key != 0
    {
      assert Fields[name] in Published;
    }
  }

  /**
    The whole run on the feed's entries and the clock's date: the table, the
    averages (or the error that stops the run) and the field data.
  */
  function Run(entries: seq<RawEntry>, day: nat, month: int, year: nat): (r: Result<map<string, FieldValue>, Error>)
    requires 1 <= month <= 12
    ensures r.Success? <==> forall k | k in Keys :: Count(RatesOf(entries), k) > 0
    ensures r.Failure? ==> r.error.key in Keys && Count(RatesOf(entries), r.error.key) == 0
    ensures r.Success? ==> r.value.Keys == Fields.Keys
  {
    var avg :- Report(RatesOf(entries));
    Success(Payload(avg, LastUpdated(day, month, year)))
  }

  /** The run publishes exactly when every one of the four buckets received an offer. */
  lemma {:induction false} RunSucceedsIff(entries: seq<RawEntry>, day: nat, month: int, year: nat)
    requires 1 <= month <= 12
    ensures Run(entries, day, month, year).Success? <==>
      forall k | k in Keys :: exists o :: o in Parsed(entries) && BucketKey(o.bindingYears) == k
  {
    AllBucketsFilled(entries);
  }

  lemma AllBucketsFilled(entries: seq<RawEntry>)
    ensures (forall k | k in Keys :: Count(RatesOf(entries), k) > 0) <==>
      forall k | k in Keys :: exists o :: o in Parsed(entries) && BucketKey(o.bindingYears) == k
  {
    BucketNonEmptyIff(entries, 0);
    BucketNonEmptyIff(entries, 3);
    BucketNonEmptyIff(entries, 5);
    BucketNonEmptyIff(entries, 10);
  }

  /** The all-loans and date fields of the record, read from the averages. */
  lemma PayloadAt(avg: Averages, updated: string, name: string)
    requires avg.byBucket.Keys == Keys && name in Fields
    ensures Payload(avg, updated)[name] == FieldValueOf(Fields[name], avg, updated)
  {
  }

  lemma PayloadNamedFields(avg: Averages, updated: string)
    requires avg.byBucket.Keys == Keys
    ensures var p := Payload(avg, updated);
      && p["gjsnitt-nominell-rente"] == Number(avg.all.nominal)
      && p["gjsnitt-effektiv-rente"] == Number(avg.all.effective)
      && p["sist-oppdatert"] == Text(updated)
  {
    FieldLookup();
    assert FieldNames[4] == "gjsnitt-nominell-rente";
    assert FieldNames[5] == "gjsnitt-effektiv-rente";
    assert FieldNames[8] == "sist-oppdatert";
  }

  /**
    A published record carries the nine fields; its all-loans fields are the
    means over every parsed offer, whatever bucket it went to, and its date
    field is the date text.
  */
  lemma {:induction false} RunPublishedFields(entries: seq<RawEntry>, day: nat, month: int, year: nat)
    requires 1 <= month <= 12
    requires Run(entries, day, month, year).Success?
    ensures |Parsed(entries)| > 0
    ensures var p := Run(entries, day, month, year).value;
      && p.Keys == Fields.Keys
      && p["gjsnitt-nominell-rente"] == Number(Mean(Values(Parsed(entries), NominalOf)))
      && p["gjsnitt-effektiv-rente"] == Number(Mean(Values(Parsed(entries), EffectiveOf)))
      && p["sist-oppdatert"] == Text(LastUpdated(day, month, year))
  {
    var t := RatesOf(entries);
    var avg := Report(t).value;
    var updated := LastUpdated(day, month, year);
    assert Run(entries, day, month, year) == Success(Payload(avg, updated));
    AllLoansCoverEveryOffer(entries);
    MeanOfSameSum(AllNominal(t), Values(Parsed(entries), NominalOf));
    MeanOfSameSum(AllEffective(t), Values(Parsed(entries), EffectiveOf));
    PayloadNamedFields(avg, updated);
  }

  /** The list a statistic is the mean of: nominal or effective rates of some offers. */
  function Column(stat: Statistic): Offer -> real
  {
    match stat
    case NominalMean => NominalOf
    case EffectiveMean => EffectiveOf
  }

  /**
    Each per-bucket field of a published record is the mean, over the parsed
    offers filed under that bucket, of the field's rate.
  */
  lemma {:induction false} RunBucketFields(entries: seq<RawEntry>, day: nat, month: int, year: nat)
    requires 1 <= month <= 12
    requires Run(entries, day, month, year).Success?
    ensures var p := Run(entries, day, month, year).value;
      forall name | name in p && Fields[name].BucketMean? ::
        var k := Fields[name].key;
        && k in Keys
        && |InBucket(Parsed(entries), k)| > 0
        && p[name] == Number(Mean(Values(InBucket(Parsed(entries), k), Column(Fields[name].stat))))
  {
    var avg := Report(RatesOf(entries)).value;
    var updated := LastUpdated(day, month, year);
    assert Run(entries, day, month, year) == Success(Payload(avg, updated));
    PayloadBucketFields(entries, avg, updated);
  }

  lemma PayloadBucketFields(entries: seq<RawEntry>, avg: Averages, updated: string)
    requires Report(RatesOf(entries)) == Success(avg)
    ensures var p := Payload(avg, updated);
      forall name | name in p && Fields[name].BucketMean? ::
        var k := Fields[name].key;
        && k in Keys
        && |InBucket(Parsed(entries), k)| > 0
        && p[name] == Number(Mean(Values(InBucket(Parsed(entries), k), Column(Fields[name].stat))))
  {
    forall name | name in Payload(avg, updated) && Fields[name].BucketMean?
      ensures var k := Fields[name].key;
        && k in Keys
        && |InBucket(Parsed(entries), k)| > 0
        && Payload(avg, updated)[name] == Number(Mean(Values(InBucket(Parsed(entries), k), Column(Fields[name].stat))))
    {
      FieldBucketInKeys(name);
      PayloadAt(avg, updated, name);
      BucketMeanValue(entries, avg, updated, Fields[name]);
    }
  }

  lemma FieldBucketInKeys(name: string)
    requires name in Fields && Fields[name].BucketMean?
    ensures Fields[name].key in Keys
  {
    FieldsPublish();
    assert Fields[name] in Published;
  }

  lemma BucketMeanValue(entries: seq<RawEntry>, avg: Averages, updated: string, s: FieldSource)
    requires Report(RatesOf(entries)) == Success(avg)
    requires s.BucketMean? && s.key in Keys
    ensures |InBucket(Parsed(entries), s.key)| > 0
    ensures FieldValueOf(s, avg, updated) == Number(Mean(Values(InBucket(Parsed(entries), s.key), Column(s.stat))))
  {
    var t := RatesOf(entries);
    var k := s.key;
    RatesOfContents(entries, k);
    assert Count(t, k) > 0;
    assert avg.byBucket[k] == Means(Mean(t[k].nominal), Mean(t[k].effective));
    match s.stat
    case NominalMean =>
      assert FieldValueOf(s, avg, updated) == Number(Mean(t[k].nominal));
    case EffectiveMean =>
      assert FieldValueOf(s, avg, updated) == Number(Mean(t[k].effective));
  }

  lemma MeanOfSameSum(a: seq<real>, b: seq<real>)
    requires |a| == |b| > 0 && Sum(a) == Sum(b)
    ensures Mean(a) == Mean(b)
  {
  }

  /**
    When no parsed offer has a negative fee, the effective mean of a bucket is
    never below its nominal mean.
  */
  lemma {:induction false} EffectiveMeanAtLeastNominal(entries: seq<RawEntry>, k: int)
    requires k in Keys && Count(RatesOf(entries), k) > 0
    requires forall o | o in Parsed(entries) :: o.termFee >= 0.0 && o.setupFee >= 0.0
    ensures Mean(RatesOf(entries)[k].nominal) <= Mean(RatesOf(entries)[k].effective)
  {
    RatesOfContents(entries, k);
    InBucketMembers(Parsed(entries), k);
    var b := InBucket(Parsed(entries), k);
    forall i | 0 <= i < |b|
      ensures Values(b, NominalOf)[i] <= Values(b, EffectiveOf)[i]
    {
      assert b[i] in b;
      assert EffectiveOf(b[i]) >= NominalOf(b[i]);
    }
    MeanMonotone(Values(b, NominalOf), Values(b, EffectiveOf));
  }

  /**
    Worked example: two three-year offers at 5 % and 6 %, each with a term fee
    of 100, average 5.5 % nominal and 5.56 % effective.
  */
  lemma ThreeYearMeansExample()
    ensures var t := RatesOf([RawEntry(Some(5.0), Some(3), Some(100.0), Some(0.0)),
                              RawEntry(Some(6.0), Some(3), Some(100.0), Some(0.0))]);
      Mean(t[3].nominal) == 5.5 && Mean(t[3].effective) == 5.56
  {
    ThreeYearExample();
    assert Sum([5.0, 6.0]) == 11.0 by {
      assert [5.0, 6.0][..1] == [5.0];
      assert [5.0][..0] == [];
    }
    assert Sum([5.06, 6.06]) == 11.12 by {
      assert [5.06, 6.06][..1] == [5.06];
      assert [5.06][..0] == [];
    }
  }
}
