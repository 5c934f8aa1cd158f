/**
 `ReportGenerator`: from the analysed detections to the detection summary, the maturity
 distribution (counts, percentages, weighted score), the recommendations read off threshold
 ladders, and the summary over several reports. File metadata, timestamps and the JSON file
 are not modelled.
 */
module ReportGenerator {
  import opened Wrappers
  import opened Rounding
  import opened Detections
  import opened MaturityAnalyzer
  import opened Fractions

  // ---------------------------------------------------------------------------------------
  // Counting, as an insertion-ordered dict

  /** One entry of the counts dict. */
  datatype Bucket = Bucket(key: Key, count: nat)

  /** The counts dict: its entries in insertion order, each key once. */
  type Tally = seq<Bucket>

  const MADURO: Key := Label("maduro")
  const SEMIMADURO: Key := Label("semimaduro")
  const NO_MADURO: Key := Label("no_maduro")
  const UNKNOWN: Key := Label("unknown")

  /** The dict the count starts from: the four labels, each at zero. */
  const INITIAL_TALLY: Tally := [Bucket(MADURO, 0), Bucket(SEMIMADURO, 0), Bucket(NO_MADURO, 0), Bucket(UNKNOWN, 0)]

  predicate DistinctKeys(t: Tally) {
    forall i, j :: 0 <= i < j < |t| ==> t[i].key != t[j].key
  }

  /** Where `k` sits in the dict, or -1. */
  function IndexOf(t: Tally, k: Key): (i: int)
    ensures -1 <= i < |t|
    ensures i >= 0 ==> t[i].key == k
    ensures i == -1 ==> forall j :: 0 <= j < |t| ==> t[j].key != k
  {
    if |t| == 0 then -1
    else if t[|t| - 1].key == k then |t| - 1
    else IndexOf(t[..|t| - 1], k)
  }

  /** `counts.get(k, 0)`. */
  function Lookup(t: Tally, k: Key): nat {
    var i := IndexOf(t, k);
    if i >= 0 then t[i].count else 0
  }

  /** `counts[k] = counts.get(k, 0) + 1`: an existing entry grows, a new key is appended. */
  function Bump(t: Tally, k: Key): (r: Tally)
    ensures |r| >= |t| && forall j :: 0 <= j < |t| ==> r[j].key == t[j].key
    ensures forall j :: 0 <= j < |t| && t[j].key != k ==> r[j] == t[j]
    ensures forall j :: 0 <= j < |t| ==> r[j].count >= t[j].count
    ensures (exists j :: 0 <= j < |t| && t[j].key == k) ==> |r| == |t|
    ensures (forall j :: 0 <= j < |t| ==> t[j].key != k) ==> r == t + [Bucket(k, 1)]
  {
    var i := IndexOf(t, k);
    if i >= 0 then t[i := Bucket(k, t[i].count + 1)] else t + [Bucket(k, 1)]
  }

  /** `sum(counts.values())`. */
  function Total(t: Tally): nat {
    if |t| == 0 then 0 else t[0].count + Total(t[1..])
  }

  lemma {:induction false} TotalAppend(t: Tally, b: Bucket)
    ensures Total(t + [b]) == Total(t) + b.count
  {
    if |t| > 0 {
      assert (t + [b])[1..] == t[1..] + [b];
      TotalAppend(t[1..], b);
    }
  }

  lemma {:induction false} TotalUpdate(t: Tally, i: nat, b: Bucket)
    requires i < |t|
    ensures Total(t[i := b]) == Total(t) - t[i].count + b.count
  {
    if i > 0 {
      assert t[i := b][1..] == t[1..][i - 1 := b];
      TotalUpdate(t[1..], i - 1, b);
    }
  }

  /** In a dict with distinct keys, the index of a present key is its only position. */
  lemma IndexOfDistinct(t: Tally, k: Key, j: nat)
    requires DistinctKeys(t) && j < |t| && t[j].key == k
    ensures IndexOf(t, k) == j
  {
  }

  /** Bumping one key adds one to its count and to the total, and keeps the keys distinct. */
  lemma BumpCounts(t: Tally, k: Key)
    requires DistinctKeys(t)
    ensures DistinctKeys(Bump(t, k))
    ensures |Bump(t, k)| >= |t|
    ensures forall j :: 0 <= j < |t| ==> Bump(t, k)[j].key == t[j].key
    ensures forall k' :: Lookup(Bump(t, k), k') == Lookup(t, k') + (if k' == k then 1 else 0)
    ensures Total(Bump(t, k)) == Total(t) + 1
  {
    var i := IndexOf(t, k);
    var u := Bump(t, k);
    if i >= 0 {
      TotalUpdate(t, i, Bucket(k, t[i].count + 1));
      forall k' ensures Lookup(u, k') == Lookup(t, k') + (if k' == k then 1 else 0) {
        var j := IndexOf(t, k');
        if j >= 0 {
          IndexOfDistinct(u, k', j);
        }
      }
    } else {
      TotalAppend(t, Bucket(k, 1));
      forall k' ensures Lookup(u, k') == Lookup(t, k') + (if k' == k then 1 else 0) {
        var j := IndexOf(t, k');
        if j >= 0 {
          IndexOfDistinct(u, k', j);
        } else if k' == k {
          IndexOfDistinct(u, k', |t|);
        }
      }
    }
  }

  /** How many of the tags read as `k`. */
  function Occurrences(tags: seq<Tag>, k: Key): (n: nat)
    ensures n <= |tags|
  {
    if |tags| == 0 then 0
    else Occurrences(tags[..|tags| - 1], k) + (if KeyOf(tags[|tags| - 1]) == k then 1 else 0)
  }

  /**
   The counting loop of `_analyze_maturity_distribution`: every tag adds one to the entry of
   the value it reads as, so the four labels come first, any other key is there only
   because some tag reads as it, every count is the number of tags reading as its key, and
   the counts add up to the number of tags. `CountPrefixKeys` fixes the order of the other
   keys: the order in which they first appear.
   */
  function CountMaturities(tags: seq<Tag>): (t: Tally)
    ensures DistinctKeys(t)
    ensures |t| >= 4 && forall j :: 0 <= j < 4 ==> t[j].key == INITIAL_TALLY[j].key
    ensures forall j :: 4 <= j < |t| ==> t[j].count > 0
    ensures forall k :: Lookup(t, k) == Occurrences(tags, k)
    ensures Total(t) == |tags|
  {
    if |tags| == 0 then
      assert forall k :: Lookup(INITIAL_TALLY, k) == 0 by {
        forall k ensures Lookup(INITIAL_TALLY, k) == 0 {
          var i := IndexOf(INITIAL_TALLY, k);
          assert i >= 0 ==> INITIAL_TALLY[i].count == 0;
        }
      }
      assert Total(INITIAL_TALLY) == 0 by {
        assert Total(INITIAL_TALLY[3..]) == 0;
        assert Total(INITIAL_TALLY[2..]) == 0;
        assert Total(INITIAL_TALLY[1..]) == 0;
      }
      INITIAL_TALLY
    else
      var prefix := tags[..|tags| - 1];
      var before := CountMaturities(prefix);
      BumpCounts(before, KeyOf(tags[|tags| - 1]));
      Bump(before, KeyOf(tags[|tags| - 1]))
  }

  /**
   The dict counted over a prefix of the tags is a prefix of the whole dict, key by key: a
   key is added when it is first met and keeps its place afterwards. Since every key past
   the four labels has a positive count, those keys stand in the order of their first
   appearance.
   */
  lemma {:induction false} CountPrefixKeys(tags: seq<Tag>, p: nat)
    requires p <= |tags|
    ensures |CountMaturities(tags[..p])| <= |CountMaturities(tags)|
    ensures forall j :: 0 <= j < |CountMaturities(tags[..p])| ==>
      CountMaturities(tags[..p])[j].key == CountMaturities(tags)[j].key
  {
    if p < |tags| {
      var prefix := tags[..|tags| - 1];
      assert tags[..p] == prefix[..p];
      CountPrefixKeys(prefix, p);
    } else {
      assert tags[..p] == tags;
    }
  }

  /** Two different keys are together read off at most as many tags as there are. */
  lemma {:induction false} OccurrencesOfTwo(tags: seq<Tag>, k1: Key, k2: Key)
    requires k1 != k2
    ensures Occurrences(tags, k1) + Occurrences(tags, k2) <= |tags|
  {
    if |tags| > 0 {
      OccurrencesOfTwo(tags[..|tags| - 1], k1, k2);
    }
  }

  /** Replacing one tag moves one count from the old tag's key to the new one's. */
  lemma {:induction false} OccurrencesUpdate(tags: seq<Tag>, i: nat, x: Tag, k: Key)
    requires i < |tags|
    ensures Occurrences(tags[i := x], k)
      == Occurrences(tags, k) - (if KeyOf(tags[i]) == k then 1 else 0) + (if KeyOf(x) == k then 1 else 0)
  {
    var n := |tags|;
    var u := tags[i := x];
    if i == n - 1 {
      assert u[..n - 1] == tags[..n - 1];
    } else {
      assert u[..n - 1] == tags[..n - 1][i := x];
      OccurrencesUpdate(tags[..n - 1], i, x, k);
    }
  }

  // ---------------------------------------------------------------------------------------
  // Percentages and score

  /** One entry of the percentages dict. */
  datatype Share = Share(key: Key, percent: real)

  /** `round((count / total) * 100, 1)`. */
  function PercentOf(count: nat, total: nat): (p: real)
    requires total > 0
    ensures p == RoundTo(100.0 * count as real / total as real, OnePlace)
    ensures count <= total ==> 0.0 <= p <= 100.0
    ensures 100.0 * count as real / total as real - 0.05 <= p <= 100.0 * count as real / total as real + 0.05
  {
    var exact := count as real / total as real * 100.0;
    assert exact == 100.0 * count as real / total as real;
    assert count <= total ==> 0.0 <= RoundTo(exact, OnePlace) <= 100.0 by {
      if count <= total {
        FractionBounds(count as real, total as real);
        RoundToWithin(exact, 0, 100, OnePlace);
      }
    }
    RoundTo(exact, OnePlace)
  }

  /** `0 <= a <= b` gives `0 <= 100 a / b <= 100`. */
  lemma FractionBounds(a: real, b: real)
    requires 0.0 <= a <= b && b > 0.0
    ensures 0.0 <= a / b * 100.0 <= 100.0
  {
    QuotientAtLeast(a, b, 0.0);
    QuotientAtMost(a, b, 1.0);
  }

  /**
   The percentages dict: one entry per count, in the same order, only when something was
   counted; with nothing counted it stays empty rather than holding zeros.
   */
  function Percentages(t: Tally, total: nat): (p: seq<Share>)
    ensures total == 0 ==> p == []
    ensures total > 0 ==> |p| == |t|
    ensures total > 0 ==> forall i :: 0 <= i < |t| ==>
      p[i].key == t[i].key && p[i].percent == PercentOf(t[i].count, total)
  {
    if total == 0 then []
    else seq(|t|, i requires 0 <= i < |t| => Share(t[i].key, PercentOf(t[i].count, total)))
  }

  /** The score before rounding: ripe weighs 1, half-ripe 0.5, everything else 0. */
  function WeightedPercent(ripe: nat, halfRipe: nat, total: nat): (p: real)
    requires total > 0
    ensures p * total as real == 100.0 * ripe as real + 50.0 * halfRipe as real
  {
    var q := (ripe as real * 1.0 + halfRipe as real * 0.5) / total as real;
    assert q * total as real == ripe as real * 1.0 + halfRipe as real * 0.5;
    assert q * 100.0 * total as real == (q * total as real) * 100.0;
    q * 100.0
  }

  /** Raising the weighted count never lowers the unrounded score. */
  lemma WeightedPercentMonotone(m1: nat, s1: nat, m2: nat, s2: nat, total: nat)
    requires total > 0
    requires m1 as real + 0.5 * s1 as real <= m2 as real + 0.5 * s2 as real
    ensures WeightedPercent(m1, s1, total) <= WeightedPercent(m2, s2, total)
  {
    DivideMonotone(m1 as real * 1.0 + s1 as real * 0.5, m2 as real * 1.0 + s2 as real * 0.5, total as real);
  }

  /** Ripe and half-ripe counts that fit in the total give an unrounded score in [0, 100]. */
  lemma WeightedPercentBounds(m: nat, s: nat, total: nat)
    requires total > 0 && m + s <= total
    ensures 0.0 <= WeightedPercent(m, s, total) <= 100.0
  {
    var x := m as real * 1.0 + s as real * 0.5;
    DivideWithin(x, total as real, 0.0, 1.0);
    assert WeightedPercent(m, s, total) == x / total as real * 100.0;
  }

  /**
   `_calculate_maturity_score`: 0 for no detections, else the weighted share of ripe fruit
   in percent, rounded to one decimal. It lies in [0, 100] when the ripe and half-ripe
   counts fit in the total.
   */
  function MaturityScore(counts: Tally, total: nat): (score: real)
    ensures total == 0 ==> score == 0.0
    ensures total > 0 ==>
      score == RoundTo(WeightedPercent(Lookup(counts, MADURO), Lookup(counts, SEMIMADURO), total), OnePlace)
    ensures total > 0 ==>
      WeightedPercent(Lookup(counts, MADURO), Lookup(counts, SEMIMADURO), total) - 0.05 <= score
      <= WeightedPercent(Lookup(counts, MADURO), Lookup(counts, SEMIMADURO), total) + 0.05
    ensures Lookup(counts, MADURO) + Lookup(counts, SEMIMADURO) <= total ==> 0.0 <= score <= 100.0
  {
    if total == 0 then 0.0
    else
      var m, s := Lookup(counts, MADURO), Lookup(counts, SEMIMADURO);
      var weighted := m as real * 1.0 + s as real * 0.5 + Lookup(counts, NO_MADURO) as real * 0.0;
      var exact := weighted / total as real * 100.0;
      assert exact == WeightedPercent(m, s, total);
      assert m + s <= total ==> 0.0 <= RoundTo(exact, OnePlace) <= 100.0 by {
        if m + s <= total {
          WeightedPercentBounds(m, s, total);
          RoundToWithin(exact, 0, 100, OnePlace);
        }
      }
      RoundTo(exact, OnePlace)
  }

  /** With the total fixed, more weighted ripe fruit never gives a lower score. */
  lemma ScoreMonotone(c1: Tally, c2: Tally, total: nat)
    requires Lookup(c1, MADURO) as real + 0.5 * Lookup(c1, SEMIMADURO) as real
          <= Lookup(c2, MADURO) as real + 0.5 * Lookup(c2, SEMIMADURO) as real
    ensures MaturityScore(c1, total) <= MaturityScore(c2, total)
  {
    if total > 0 {
      var m1, s1 := Lookup(c1, MADURO), Lookup(c1, SEMIMADURO);
      var m2, s2 := Lookup(c2, MADURO), Lookup(c2, SEMIMADURO);
      WeightedPercentMonotone(m1, s1, m2, s2, total);
      RoundToMonotone(WeightedPercent(m1, s1, total), WeightedPercent(m2, s2, total), OnePlace);
      assert MaturityScore(c1, total) == RoundTo(WeightedPercent(m1, s1, total), OnePlace);
      assert MaturityScore(c2, total) == RoundTo(WeightedPercent(m2, s2, total), OnePlace);
    }
  }

  /** Ten detections, eight ripe and two half-ripe, score 90.0. */
  lemma ScoreOfEightAndTwo()
    ensures MaturityScore([Bucket(MADURO, 8), Bucket(SEMIMADURO, 2), Bucket(NO_MADURO, 0), Bucket(UNKNOWN, 0)], 10) == 90.0
  {
    var t := [Bucket(MADURO, 8), Bucket(SEMIMADURO, 2), Bucket(NO_MADURO, 0), Bucket(UNKNOWN, 0)];
    assert IndexOf(t[..2], SEMIMADURO) == 1;
    assert IndexOf(t[..1], MADURO) == 0;
    assert IndexOf(t[..3], SEMIMADURO) == 1 && IndexOf(t, SEMIMADURO) == 1;
    assert IndexOf(t[..2], MADURO) == 0 && IndexOf(t[..3], MADURO) == 0 && IndexOf(t, MADURO) == 0;
    RoundToWhole(90, OnePlace);
  }

  // ---------------------------------------------------------------------------------------
  // Distribution

  /** The maturity analysis section of a report. */
  datatype Distribution = Distribution(counts: Tally, percentages: seq<Share>, totalAnalyzed: nat, score: real)

  /** The tags of the analysed detections, as the counting loop reads them. */
  function Tags(dets: seq<Detection>): (tags: seq<Tag>)
    ensures |tags| == |dets|
    ensures forall i :: 0 <= i < |dets| ==> tags[i] == dets[i].maturity
  {
    seq(|dets|, i requires 0 <= i < |dets| => dets[i].maturity)
  }

  /**
   `_analyze_maturity_distribution`: every detection is counted once, under the value its
   'maturity' reads as; each counted key gets its share of the detections in percent, and
   the score weighs the ripe and half-ripe shares and lies in [0, 100].
   */
  function AnalyzeDistribution(dets: seq<Detection>): (d: Distribution)
    ensures d.totalAnalyzed == |dets| == Total(d.counts)
    ensures forall k :: Lookup(d.counts, k) == Occurrences(Tags(dets), k)
    ensures forall i :: 0 <= i < |d.counts| ==> d.counts[i].count == Occurrences(Tags(dets), d.counts[i].key)
    ensures d.totalAnalyzed == 0 <==> d.percentages == []
    ensures |dets| > 0 ==> |d.percentages| == |d.counts|
    ensures |dets| > 0 ==> forall i :: 0 <= i < |d.counts| ==>
      d.percentages[i].key == d.counts[i].key
      && d.percentages[i].percent == PercentOf(Occurrences(Tags(dets), d.counts[i].key), |dets|)
    ensures |dets| == 0 ==> d.score == 0.0
    ensures |dets| > 0 ==>
      d.score == RoundTo(WeightedPercent(Occurrences(Tags(dets), MADURO), Occurrences(Tags(dets), SEMIMADURO), |dets|), OnePlace)
    ensures 0.0 <= d.score <= 100.0
  {
    var counts := CountMaturities(Tags(dets));
    var total := Total(counts);
    OccurrencesOfTwo(Tags(dets), MADURO, SEMIMADURO);
    assert forall i :: 0 <= i < |counts| ==> counts[i].count == Occurrences(Tags(dets), counts[i].key) by {
      forall i | 0 <= i < |counts| ensures counts[i].count == Occurrences(Tags(dets), counts[i].key) {
        IndexOfDistinct(counts, counts[i].key, i);
      }
    }
    Distribution(counts, Percentages(counts, total), total, MaturityScore(counts, total))
  }

  /** Relabelling one detection from anything but ripe or half-ripe as ripe never lowers the score. */
  lemma RipeningRaisesScore(dets: seq<Detection>, i: nat)
    requires i < |dets|
    requires KeyOf(dets[i].maturity) != MADURO && KeyOf(dets[i].maturity) != SEMIMADURO
    ensures AnalyzeDistribution(dets).score
         <= AnalyzeDistribution(dets[i := dets[i].(maturity := Named("maduro"))]).score
  {
    var after := dets[i := dets[i].(maturity := Named("maduro"))];
    assert Tags(after) == Tags(dets)[i := Named("maduro")];
    OccurrencesUpdate(Tags(dets), i, Named("maduro"), MADURO);
    OccurrencesUpdate(Tags(dets), i, Named("maduro"), SEMIMADURO);
    var d1, d2 := AnalyzeDistribution(dets), AnalyzeDistribution(after);
    ScoreMonotone(d1.counts, d2.counts, |dets|);
  }

  // ---------------------------------------------------------------------------------------
  // Recommendation ladders

  /**
   The band a score falls in, counted independently of the ladders: how many of the lower
   bounds 20, 40, 60 and 80 it reaches (0 = do not harvest yet, 4 = harvest now).
   */
  function Band(score: real): (b: nat)
    ensures b <= 4
  {
    (if score >= 20.0 then 1 else 0) + (if score >= 40.0 then 1 else 0)
    + (if score >= 60.0 then 1 else 0) + (if score >= 80.0 then 1 else 0)
  }

  /** The harvest texts, from the lowest band to the highest. */
  const HARVEST_TEXTS: seq<string> := [
    "No cosechar aún - Frutos predominantemente inmaduros",
    "Cosecha en 10-14 días - Mayoría de frutos aún inmaduros",
    "Cosecha en 5-7 días - Proporción moderada de frutos maduros",
    "Cosecha en 2-3 días - Buena proporción de frutos maduros",
    "Cosecha inmediata recomendada - Alta proporción de frutos maduros"]

  /** The timing texts, from the lowest band to the highest. */
  const TIMING_TEXTS: seq<string> := [
    "Esperar - Continuar monitoreo semanal",
    "Paciente - Cosechar dentro de 2 semanas",
    "Moderado - Cosechar dentro de 1 semana",
    "Pronto - Cosechar dentro de 3-5 días",
    "Urgente - Cosechar dentro de 24-48 horas"]

  /** `_get_harvest_recommendation`: thresholds 80, 60, 40, 20 tried from the top. */
  function HarvestRecommendation(score: real): (text: string)
    ensures text == HARVEST_TEXTS[Band(score)]
  {
    if score >= 80.0 then "Cosecha inmediata recomendada - Alta proporción de frutos maduros"
    else if score >= 60.0 then "Cosecha en 2-3 días - Buena proporción de frutos maduros"
    else if score >= 40.0 then "Cosecha en 5-7 días - Proporción moderada de frutos maduros"
    else if score >= 20.0 then "Cosecha en 10-14 días - Mayoría de frutos aún inmaduros"
    else "No cosechar aún - Frutos predominantemente inmaduros"
  }

  /** `_get_timing_recommendation`: the same thresholds as the harvest ladder. */
  function TimingRecommendation(score: real): (text: string)
    ensures text == TIMING_TEXTS[Band(score)]
  {
    if score >= 80.0 then "Urgente - Cosechar dentro de 24-48 horas"
    else if score >= 60.0 then "Pronto - Cosechar dentro de 3-5 días"
    else if score >= 40.0 then "Moderado - Cosechar dentro de 1 semana"
    else if score >= 20.0 then "Paciente - Cosechar dentro de 2 semanas"
    else "Esperar - Continuar monitoreo semanal"
  }

  /** Harvest and timing advice always change together: they draw the same band boundaries. */
  lemma HarvestAndTimingAgree(s1: real, s2: real)
    ensures HarvestRecommendation(s1) == HarvestRecommendation(s2)
        <==> TimingRecommendation(s1) == TimingRecommendation(s2)
  {
    var b1, b2 := Band(s1), Band(s2);
    assert HarvestRecommendation(s1) == HarvestRecommendation(s2) <==> b1 == b2 by {
      if b1 != b2 {
        assert HARVEST_TEXTS[b1] != HARVEST_TEXTS[b2] by { HarvestTextsDistinct(b1, b2); }
      }
    }
    assert TimingRecommendation(s1) == TimingRecommendation(s2) <==> b1 == b2 by {
      if b1 != b2 {
        assert TIMING_TEXTS[b1] != TIMING_TEXTS[b2] by { TimingTextsDistinct(b1, b2); }
      }
    }
  }

  lemma HarvestTextsDistinct(i: nat, j: nat)
    requires i < 5 && j < 5 && i != j
    ensures HARVEST_TEXTS[i] != HARVEST_TEXTS[j]
  {
    assert HARVEST_TEXTS[i][..10] != HARVEST_TEXTS[j][..10] || HARVEST_TEXTS[i][10..] != HARVEST_TEXTS[j][10..];
  }

  lemma TimingTextsDistinct(i: nat, j: nat)
    requires i < 5 && j < 5 && i != j
    ensures TIMING_TEXTS[i] != TIMING_TEXTS[j]
  {
    assert TIMING_TEXTS[i][0] != TIMING_TEXTS[j][0] || TIMING_TEXTS[i][1] != TIMING_TEXTS[j][1];
  }

  /** A higher score never gets a lower band. */
  lemma BandMonotone(s1: real, s2: real)
    requires s1 <= s2
    ensures Band(s1) <= Band(s2)
  {
  }

  /** The next-steps lists, from the lowest of their four bands to the highest. */
  const NEXT_STEPS: seq<seq<string>> := [
    ["Continuar monitoreo semanal", "Evaluar condiciones de cultivo",
     "Verificar nutrición y riego", "Mantener control de plagas"],
    ["Continuar monitoreo cada 2-3 días", "Evaluar condiciones de riego",
     "Verificar nutrición de plantas", "Preparar plan de cosecha"],
    ["Continuar monitoreo diario", "Preparar equipos de cosecha",
     "Evaluar condiciones climáticas", "Planificar logística de cosecha"],
    ["Preparar equipos de cosecha", "Organizar personal de cosecha",
     "Verificar condiciones de almacenamiento", "Programar transporte para venta inmediata"]]

  /**
   `_get_next_steps`: only the bounds 80, 60 and 40, so the two lowest harvest bands share
   one list. Every list has four steps.
   */
  function NextSteps(score: real): (steps: seq<string>)
    ensures |steps| == 4
    ensures steps == NEXT_STEPS[if Band(score) <= 1 then 0 else Band(score) - 1]
  {
    if score >= 80.0 then
      ["Preparar equipos de cosecha", "Organizar personal de cosecha",
       "Verificar condiciones de almacenamiento", "Programar transporte para venta inmediata"]
    else if score >= 60.0 then
      ["Continuar monitoreo diario", "Preparar equipos de cosecha",
       "Evaluar condiciones climáticas", "Planificar logística de cosecha"]
    else if score >= 40.0 then
      ["Continuar monitoreo cada 2-3 días", "Evaluar condiciones de riego",
       "Verificar nutrición de plantas", "Preparar plan de cosecha"]
    else
      ["Continuar monitoreo semanal", "Evaluar condiciones de cultivo",
       "Verificar nutrición y riego", "Mantener control de plagas"]
  }

  /** Scores of 20 to 40 get a harvest band of their own but the same steps as scores below 20. */
  lemma NextStepsMergeLowBands(s1: real, s2: real)
    requires 20.0 <= s1 < 40.0 && s2 < 20.0
    ensures NextSteps(s1) == NextSteps(s2)
    ensures HarvestRecommendation(s1) != HarvestRecommendation(s2)
  {
    HarvestTextsDistinct(1, 0);
  }

  /** The verdict on the share of ripe fruit. */
  const NO_FRUIT := "No se detectaron frutos"

  /**
   `_get_quality_assessment`: nothing counted gives "no fruit detected"; otherwise the share
   of ripe fruit among all counts (unknown and unlabelled included) picks the verdict at
   70, 50 and 30 percent.
   */
  function QualityAssessment(counts: Tally): (text: string)
    ensures Total(counts) == 0 <==> text == NO_FRUIT
    ensures Total(counts) > 0 && 10 * Lookup(counts, MADURO) >= 7 * Total(counts) ==>
      text == "Excelente - Alta calidad de maduración"
    ensures Total(counts) > 0 && 5 * Total(counts) <= 10 * Lookup(counts, MADURO) < 7 * Total(counts) ==>
      text == "Buena - Calidad de maduración aceptable"
    ensures Total(counts) > 0 && 3 * Total(counts) <= 10 * Lookup(counts, MADURO) < 5 * Total(counts) ==>
      text == "Regular - Calidad de maduración moderada"
    ensures Total(counts) > 0 && 10 * Lookup(counts, MADURO) < 3 * Total(counts) ==>
      text == "Baja - Calidad de maduración deficiente"
  {
    var total := Total(counts);
    if total == 0 then NO_FRUIT
    else
      var share := Lookup(counts, MADURO) as real / total as real * 100.0;
      ShareThreshold(Lookup(counts, MADURO), total, 70);
      ShareThreshold(Lookup(counts, MADURO), total, 50);
      ShareThreshold(Lookup(counts, MADURO), total, 30);
      if share >= 70.0 then "Excelente - Alta calidad de maduración"
      else if share >= 50.0 then "Buena - Calidad de maduración aceptable"
      else if share >= 30.0 then "Regular - Calidad de maduración moderada"
      else "Baja - Calidad de maduración deficiente"
  }

  /** `count / total * 100 >= p` is the integer comparison `100 count >= p total`. */
  lemma ShareThreshold(count: nat, total: nat, p: nat)
    requires total > 0
    ensures count as real / total as real * 100.0 >= p as real <==> 100 * count >= p * total
  {
    var q := count as real / total as real;
    assert q * total as real == count as real;
    assert (q * 100.0 >= p as real) <==> (q * 100.0 * total as real >= p as real * total as real) by {
      if q * 100.0 >= p as real {
        assert (q * 100.0 - p as real) * total as real >= 0.0;
      } else {
        assert (p as real - q * 100.0) * total as real > 0.0;
      }
    }
  }

  /** The recommendations section of a report. */
  datatype Recommendations = Recommendations(harvest: string, timing: string, quality: string, nextSteps: seq<string>)

  /** `_generate_recommendations`: the ladders on the score, the quality verdict on the counts. */
  function GenerateRecommendations(d: Distribution): (r: Recommendations)
    ensures r.harvest == HARVEST_TEXTS[Band(d.score)] && r.timing == TIMING_TEXTS[Band(d.score)]
    ensures r.quality == QualityAssessment(d.counts) && r.nextSteps == NextSteps(d.score)
    ensures r.nextSteps == NEXT_STEPS[if Band(d.score) <= 1 then 0 else Band(d.score) - 1]
    ensures |r.nextSteps| == 4
    ensures r.quality == NO_FRUIT <==> Total(d.counts) == 0
  {
    Recommendations(HarvestRecommendation(d.score), TimingRecommendation(d.score),
                    QualityAssessment(d.counts), NextSteps(d.score))
  }

  /**
   The quality verdict and the harvest advice can disagree: ten half-ripe berries score 50
   (harvest in 5-7 days) while their quality is poor, since none is ripe.
   */
  lemma QualityIndependentOfScore()
    ensures var d := AnalyzeDistribution(seq(10, i => HalfRipeDetection()));
      && d.score == 50.0
      && GenerateRecommendations(d).harvest == "Cosecha en 5-7 días - Proporción moderada de frutos maduros"
      && GenerateRecommendations(d).quality == "Baja - Calidad de maduración deficiente"
  {
    var dets := seq(10, i => HalfRipeDetection());
    var d := AnalyzeDistribution(dets);
    assert Occurrences(Tags(dets), SEMIMADURO) == 10 by { AllOccur(Tags(dets), SEMIMADURO); }
    assert Occurrences(Tags(dets), MADURO) == 0 by { NoneOccur(Tags(dets), MADURO); }
    assert WeightedPercent(0, 10, 10) == 50.0;
    RoundToWhole(50, OnePlace);
  }

  function HalfRipeDetection(): Detection {
    Detection([0, 0, 1, 1], Some(0.9), "semimaduro", Some(1), 1.0, Named("semimaduro"), Some(1.0))
  }

  lemma {:induction false} AllOccur(tags: seq<Tag>, k: Key)
    requires forall i :: 0 <= i < |tags| ==> KeyOf(tags[i]) == k
    ensures Occurrences(tags, k) == |tags|
  {
    if |tags| > 0 {
      AllOccur(tags[..|tags| - 1], k);
    }
  }

  lemma {:induction false} NoneOccur(tags: seq<Tag>, k: Key)
    requires forall i :: 0 <= i < |tags| ==> KeyOf(tags[i]) != k
    ensures Occurrences(tags, k) == 0
  {
    if |tags| > 0 {
      NoneOccur(tags[..|tags| - 1], k);
    }
  }

  // ---------------------------------------------------------------------------------------
  // Detection summary

  function Sum(xs: seq<real>): real {
    if |xs| == 0 then 0.0 else Sum(xs[..|xs| - 1]) + xs[|xs| - 1]
  }

  /** `min(xs)`. */
  function Minimum(xs: seq<real>): (m: real)
    requires |xs| > 0
    ensures m in xs && forall i :: 0 <= i < |xs| ==> m <= xs[i]
  {
    if |xs| == 1 then xs[0]
    else
      var rest := Minimum(xs[..|xs| - 1]);
      assert forall i :: 0 <= i < |xs| - 1 ==> xs[i] == xs[..|xs| - 1][i];
      if xs[|xs| - 1] < rest then xs[|xs| - 1] else rest
  }

  /** `max(xs)`. */
  function Maximum(xs: seq<real>): (m: real)
    requires |xs| > 0
    ensures m in xs && forall i :: 0 <= i < |xs| ==> xs[i] <= m
  {
    if |xs| == 1 then xs[0]
    else
      var rest := Maximum(xs[..|xs| - 1]);
      assert forall i :: 0 <= i < |xs| - 1 ==> xs[i] == xs[..|xs| - 1][i];
      if xs[|xs| - 1] > rest then xs[|xs| - 1] else rest
  }

  /** A sum of values all within [lo, hi] lies within [n lo, n hi]. */
  lemma {:induction false} SumBounds(xs: seq<real>, lo: real, hi: real)
    requires forall i :: 0 <= i < |xs| ==> lo <= xs[i] <= hi
    ensures |xs| as real * lo <= Sum(xs) <= |xs| as real * hi
  {
    if |xs| > 0 {
      var init := xs[..|xs| - 1];
      assert forall i :: 0 <= i < |init| ==> init[i] == xs[i];
      SumBounds(init, lo, hi);
    }
  }

  /** The mean of values within [lo, hi] lies within [lo, hi]. */
  lemma MeanBounds(xs: seq<real>, lo: real, hi: real)
    requires |xs| > 0
    requires forall i :: 0 <= i < |xs| ==> lo <= xs[i] <= hi
    ensures lo <= Sum(xs) / |xs| as real <= hi
  {
    SumBounds(xs, lo, hi);
    DivideWithin(Sum(xs), |xs| as real, lo, hi);
  }

  /** The detection summary section of a report. */
  datatype DetectionSummary = DetectionSummary(totalBlueberries: nat, average: real, minimum: real, maximum: real)

  /** Each detection's confidence, a missing one read as 0. */
  function Confidences(dets: seq<Detection>): (cs: seq<real>)
    ensures |cs| == |dets|
    ensures forall i :: 0 <= i < |dets| ==> cs[i] == dets[i].confidence.GetOr(0.0)
  {
    seq(|dets|, i requires 0 <= i < |dets| => dets[i].confidence.GetOr(0.0))
  }

  /**
   `_generate_detection_summary`: the count, and the mean, smallest and largest confidence
   rounded to three decimals; all three are 0 when there is nothing to summarise. The
   rounded extremes bound every rounded confidence and are attained by some detection, and
   the rounded mean stays between them.
   */
  function SummarizeDetections(dets: seq<Detection>): (s: DetectionSummary)
    ensures s.totalBlueberries == |dets|
    ensures |dets| == 0 ==> s.average == 0.0 && s.minimum == 0.0 && s.maximum == 0.0
    ensures |dets| > 0 ==> s.average == RoundTo(Sum(Confidences(dets)) / |dets| as real, ThreePlaces)
    ensures forall i :: 0 <= i < |dets| ==>
      s.minimum <= RoundTo(dets[i].confidence.GetOr(0.0), ThreePlaces) <= s.maximum
    ensures s.minimum <= s.average <= s.maximum
    ensures |dets| > 0 ==> exists i :: 0 <= i < |dets| && s.minimum == RoundTo(dets[i].confidence.GetOr(0.0), ThreePlaces)
    ensures |dets| > 0 ==> exists i :: 0 <= i < |dets| && s.maximum == RoundTo(dets[i].confidence.GetOr(0.0), ThreePlaces)
  {
    if |dets| == 0 then DetectionSummary(0, 0.0, 0.0, 0.0)
    else
      var cs := Confidences(dets);
      var lo, hi := Minimum(cs), Maximum(cs);
      var mean := Sum(cs) / |cs| as real;
      MeanBounds(cs, lo, hi);
      RoundToMonotone(lo, mean, ThreePlaces);
      RoundToMonotone(mean, hi, ThreePlaces);
      assert forall i :: 0 <= i < |dets| ==>
        RoundTo(lo, ThreePlaces) <= RoundTo(cs[i], ThreePlaces) <= RoundTo(hi, ThreePlaces) by {
        forall i | 0 <= i < |dets|
          ensures RoundTo(lo, ThreePlaces) <= RoundTo(cs[i], ThreePlaces) <= RoundTo(hi, ThreePlaces)
        {
          RoundToMonotone(lo, cs[i], ThreePlaces);
          RoundToMonotone(cs[i], hi, ThreePlaces);
        }
      }
      DetectionSummary(|dets|, RoundTo(mean, ThreePlaces), RoundTo(lo, ThreePlaces), RoundTo(hi, ThreePlaces))
  }

  // ---------------------------------------------------------------------------------------
  // One report, and the summary over several

  /** The parts of a report the pipeline computes. */
  datatype Report = Report(detectionSummary: DetectionSummary, maturity: Distribution, recommendations: Recommendations)

  /** `generate_report` without the file information and the technical details. */
  function GenerateReport(analysis: MaturityAnalysis): (r: Report)
    ensures r.detectionSummary.totalBlueberries == r.maturity.totalAnalyzed == |analysis.detections|
    ensures r.maturity == AnalyzeDistribution(analysis.detections)
    ensures r.detectionSummary == SummarizeDetections(analysis.detections)
    ensures r.recommendations == GenerateRecommendations(r.maturity)
  {
    var dist := AnalyzeDistribution(analysis.detections);
    Report(SummarizeDetections(analysis.detections), dist, GenerateRecommendations(dist))
  }

  /**
   With nothing detected the report is well defined: score 0, no percentages at all,
   "do not harvest yet" and "no fruit detected".
   */
  lemma EmptyReport(analysis: MaturityAnalysis)
    requires analysis.detections == []
    ensures var r := GenerateReport(analysis);
      && r.maturity.score == 0.0 && r.maturity.percentages == []
      && r.recommendations.harvest == "No cosechar aún - Frutos predominantemente inmaduros"
      && r.recommendations.timing == "Esperar - Continuar monitoreo semanal"
      && r.recommendations.quality == NO_FRUIT
  {
  }

  /** What the summary reads from each report: its score and its harvest advice, when present. */
  datatype ReportDigest = ReportDigest(score: Option<real>, harvest: Option<string>)

  /** The summary over several reports (its 'quality_trends' is always empty). */
  datatype SummaryReport = SummaryReport(totalImagesAnalyzed: nat, averageMaturityScore: real, harvestRecommendations: seq<string>)

  predicate NoDuplicates(xs: seq<string>) {
    forall i, j :: 0 <= i < j < |xs| ==> xs[i] != xs[j]
  }

  /** `report.get(...).get('harvest_recommendation', '')`. */
  function HarvestOf(r: ReportDigest): string {
    r.harvest.GetOr("")
  }

  /** Each report's score, a missing one read as 0. */
  function Scores(reports: seq<ReportDigest>): (xs: seq<real>)
    ensures |xs| == |reports|
    ensures forall i :: 0 <= i < |reports| ==> xs[i] == reports[i].score.GetOr(0.0)
  {
    seq(|reports|, i requires 0 <= i < |reports| => reports[i].score.GetOr(0.0))
  }

  /**
   `generate_summary_report`: the number of reports, their mean score rounded to one
   decimal (a missing score counts as 0), and each distinct non-empty harvest advice once.
   The source collects the advice in a set; this model lists it in order of first appearance.
   */
  method GenerateSummaryReport(reports: seq<ReportDigest>) returns (s: SummaryReport)
    ensures s.totalImagesAnalyzed == |reports|
    ensures |reports| == 0 ==> s.averageMaturityScore == 0.0
    ensures |reports| > 0 ==> s.averageMaturityScore == RoundTo(Sum(Scores(reports)) / |reports| as real, OnePlace)
    ensures (forall i :: 0 <= i < |reports| ==> 0.0 <= reports[i].score.GetOr(0.0) <= 100.0) ==>
      0.0 <= s.averageMaturityScore <= 100.0
    ensures NoDuplicates(s.harvestRecommendations)
    ensures forall x :: x in s.harvestRecommendations <==>
      x != "" && exists i :: 0 <= i < |reports| && HarvestOf(reports[i]) == x
  {
    var average := 0.0;
    if |reports| > 0 {
      var scores := Scores(reports);
      var mean := Sum(scores) / |scores| as real;
      if forall i :: 0 <= i < |reports| ==> 0.0 <= reports[i].score.GetOr(0.0) <= 100.0 {
        MeanBounds(scores, 0.0, 100.0);
        RoundToWithin(mean, 0, 100, OnePlace);
      }
      average := RoundTo(mean, OnePlace);
    }
    var seen: seq<string> := [];
    var i := 0;
    while i < |reports|
      invariant 0 <= i <= |reports|
      invariant NoDuplicates(seen)
      invariant forall x :: x in seen <==> x != "" && exists j :: 0 <= j < i && HarvestOf(reports[j]) == x
    {
      var advice := HarvestOf(reports[i]);
      if advice != "" && advice !in seen {
        seen := seen + [advice];
      }
      i := i + 1;
    }
    s := SummaryReport(|reports|, average, seen);
  }
}
