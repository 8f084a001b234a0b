/**
 * The trend view of the dashboard (home.py, lines 71-75): the long-format
 * table of (topic, date, distribution) records is narrowed, one boolean
 * mask at a time, to the selected topics, to shares of at least the
 * minimum, and to the selected date interval, both ends included.
 *
 * Dates are day numbers; the user's topic selection and interval, which
 * come from the page's widgets, are plain parameters.
 */
module Trends {
  import opened BooleanIndexing

  /** One row of the long-format table: the share of a week's content given to a topic. */
  datatype Record = Record(topic: string, date: int, distribution: real)

  /** The minimum share the trend view keeps. */
  const MinDist: real := 0.0

  /** One boolean mask of the chain. */
  datatype Mask =
    | TopicIn(options: set<string>)
    | DistributionAtLeast(min: real)
    | DateFrom(start: int)
    | DateUntil(end: int)

  predicate Holds(m: Mask, x: Record)
  {
    match m
    case TopicIn(options) => x.topic in options
    case DistributionAtLeast(min) => x.distribution >= min
    case DateFrom(start) => x.date >= start
    case DateUntil(end) => x.date <= end
  }

  /**
   * The mask `m` as a function value, for `Select`. It is named, rather than
   * written as a lambda at each use, so that every use denotes the same
   * function and the lemmas about `Select` connect; `Selection` and
   * `TestAll` below are named for the same reason.
   */
  function Test(m: Mask): Record -> bool
  {
    x => Holds(m, x)
  }

  /** `frame[mask]` for a single mask. */
  function Apply(df: seq<Record>, m: Mask): seq<Record>
  {
    Select(df, Test(m))
  }

  /** The four conditions together: a record the trend chart shows. */
  predicate InSelection(x: Record, options: set<string>, initS: int, endS: int)
  {
    x.topic in options && x.distribution >= MinDist && initS <= x.date && x.date <= endS
  }

  function Selection(options: set<string>, initS: int, endS: int): Record -> bool
  {
    x => InSelection(x, options, initS, endS)
  }

  /**
   * The records handed to the line chart: the topic mask, then the share
   * mask, then the lower and the upper date bound, each applied to the
   * result of the one before.
   */
  function TrendFilter(raw: seq<Record>, options: set<string>, initS: int, endS: int): (r: seq<Record>)
    ensures forall i :: 0 <= i < |r| ==> r[i] in raw && InSelection(r[i], options, initS, endS)
    ensures forall i :: 0 <= i < |raw| && InSelection(raw[i], options, initS, endS) ==> raw[i] in r
  {
    var byTopic := Apply(raw, TopicIn(options));
    var byShare := Apply(byTopic, DistributionAtLeast(MinDist));
    var fromStart := Apply(byShare, DateFrom(initS));
    Apply(fromStart, DateUntil(endS))
  }

  /** The masks of TrendFilter, in the order the view applies them. */
  function TrendMasks(options: set<string>, initS: int, endS: int): seq<Mask>
  {
    [TopicIn(options), DistributionAtLeast(MinDist), DateFrom(initS), DateUntil(endS)]
  }

  /** A chain of masks, applied first to last. */
  function Chain(df: seq<Record>, ms: seq<Mask>): (r: seq<Record>)
    ensures |r| <= |df|
    ensures forall i :: 0 <= i < |r| ==> r[i] in df && HoldsAll(ms, r[i])
    decreases |ms|
  {
    if ms == [] then df else Chain(Apply(df, ms[0]), ms[1..])
  }

  predicate HoldsAll(ms: seq<Mask>, x: Record)
  {
    forall m :: m in ms ==> Holds(m, x)
  }

  function TestAll(ms: seq<Mask>): Record -> bool
  {
    x => HoldsAll(ms, x)
  }

  /** A chain of masks selects what the conjunction of its masks selects. */
  lemma {:induction false} ChainIsConjunction(df: seq<Record>, ms: seq<Mask>)
    ensures Chain(df, ms) == Select(df, TestAll(ms))
    decreases |ms|
  {
    if ms == [] {
      SelectKeepsAll(df, TestAll(ms));
    } else {
      ChainIsConjunction(Apply(df, ms[0]), ms[1..]);
      forall x
        ensures TestAll(ms)(x) == (Test(ms[0])(x) && TestAll(ms[1..])(x))
      {
        assert ms == [ms[0]] + ms[1..];
      }
      SelectSelect(df, Test(ms[0]), TestAll(ms[1..]), TestAll(ms));
    }
  }

  /** The order of the masks in a chain does not matter, nor does repeating one. */
  lemma ChainOrderIrrelevant(df: seq<Record>, ms1: seq<Mask>, ms2: seq<Mask>)
    requires forall m :: m in ms1 <==> m in ms2
    ensures Chain(df, ms1) == Chain(df, ms2)
  {
    ChainIsConjunction(df, ms1);
    ChainIsConjunction(df, ms2);
    SelectSameMask(df, TestAll(ms1), TestAll(ms2));
  }

  /** Running a chain of masks again on its own output changes nothing. */
  lemma ChainIdempotent(df: seq<Record>, ms: seq<Mask>)
    ensures Chain(Chain(df, ms), ms) == Chain(df, ms)
  {
    ChainIsConjunction(df, ms);
    ChainIsConjunction(Chain(df, ms), ms);
    SelectIdempotent(df, TestAll(ms));
  }

  /** The trend filter is the chain of its four masks. */
  lemma TrendFilterIsChain(raw: seq<Record>, options: set<string>, initS: int, endS: int)
    ensures TrendFilter(raw, options, initS, endS) == Chain(raw, TrendMasks(options, initS, endS))
  {
    var ms := TrendMasks(options, initS, endS);
    var byTopic := Apply(raw, ms[0]);
    var byShare := Apply(byTopic, ms[1]);
    var fromStart := Apply(byShare, ms[2]);
    calc {
      Chain(raw, ms);
      Chain(byTopic, ms[1..]);
      { assert ms[1..][0] == ms[1] && ms[1..][1..] == ms[2..]; }
      Chain(byShare, ms[2..]);
      { assert ms[2..][0] == ms[2] && ms[2..][1..] == ms[3..]; }
      Chain(fromStart, ms[3..]);
      { assert ms[3..][0] == ms[3] && ms[3..][1..] == []; }
      Apply(fromStart, ms[3]);
    }
  }

  /** The chain of four masks equals one conjunctive filter over the raw records. */
  lemma TrendFilterIsConjunctive(raw: seq<Record>, options: set<string>, initS: int, endS: int)
    ensures TrendFilter(raw, options, initS, endS) == Select(raw, Selection(options, initS, endS))
  {
    var ms := TrendMasks(options, initS, endS);
    TrendFilterIsChain(raw, options, initS, endS);
    ChainIsConjunction(raw, ms);
    forall x
      ensures TestAll(ms)(x) == Selection(options, initS, endS)(x)
    {
      assert Holds(ms[0], x) && Holds(ms[1], x) && Holds(ms[2], x) && Holds(ms[3], x)
        <==> InSelection(x, options, initS, endS);
    }
    SelectSameMask(raw, TestAll(ms), Selection(options, initS, endS));
  }

  /** Applying the four masks in any order gives the same records. */
  lemma TrendFilterAnyOrder(raw: seq<Record>, options: set<string>, initS: int, endS: int, ms: seq<Mask>)
    requires multiset(ms) == multiset(TrendMasks(options, initS, endS))
    ensures Chain(raw, ms) == TrendFilter(raw, options, initS, endS)
  {
    var canonical := TrendMasks(options, initS, endS);
    forall m
      ensures m in ms <==> m in canonical
    {
      assert m in ms <==> m in multiset(ms);
      assert m in canonical <==> m in multiset(canonical);
    }
    ChainOrderIrrelevant(raw, ms, canonical);
    TrendFilterIsChain(raw, options, initS, endS);
  }

  /**
   * The trend filter is stable and complete: its output is a subsequence of
   * the raw records, and holds every selected record exactly as often as
   * the raw records do, and no other record.
   */
  lemma TrendFilterStable(raw: seq<Record>, options: set<string>, initS: int, endS: int)
    ensures IsSubseq(TrendFilter(raw, options, initS, endS), raw)
    ensures forall x :: multiset(TrendFilter(raw, options, initS, endS))[x]
                        == if InSelection(x, options, initS, endS) then multiset(raw)[x] else 0
  {
    TrendFilterIsConjunctive(raw, options, initS, endS);
    SelectIsSubseq(raw, Selection(options, initS, endS));
    forall x
      ensures multiset(TrendFilter(raw, options, initS, endS))[x]
              == if InSelection(x, options, initS, endS) then multiset(raw)[x] else 0
    {
      SelectCounts(raw, Selection(options, initS, endS), x);
    }
  }

  /** Conversely, stability and completeness determine the output of the trend filter. */
  lemma TrendFilterCharacterized(raw: seq<Record>, options: set<string>, initS: int, endS: int, t: seq<Record>)
    requires IsSubseq(t, raw)
    requires forall x :: multiset(t)[x] == if InSelection(x, options, initS, endS) then multiset(raw)[x] else 0
    ensures t == TrendFilter(raw, options, initS, endS)
  {
    SelectUnique(raw, Selection(options, initS, endS), t);
    TrendFilterIsConjunctive(raw, options, initS, endS);
  }

  /** Filtering the filtered records again with the same selection changes nothing. */
  lemma TrendFilterIdempotent(raw: seq<Record>, options: set<string>, initS: int, endS: int)
    ensures TrendFilter(TrendFilter(raw, options, initS, endS), options, initS, endS)
            == TrendFilter(raw, options, initS, endS)
  {
    var once := TrendFilter(raw, options, initS, endS);
    TrendFilterIsConjunctive(raw, options, initS, endS);
    TrendFilterIsConjunctive(once, options, initS, endS);
    SelectIdempotent(raw, Selection(options, initS, endS));
  }

  /** An empty topic selection shows nothing. */
  lemma EmptySelectionShowsNothing(raw: seq<Record>, initS: int, endS: int)
    ensures TrendFilter(raw, {}, initS, endS) == []
  {
    TrendFilterIsConjunctive(raw, {}, initS, endS);
    SelectKeepsNone(raw, Selection({}, initS, endS));
  }

  /** An interval whose start lies after its end shows nothing. */
  lemma InvertedIntervalShowsNothing(raw: seq<Record>, options: set<string>, initS: int, endS: int)
    requires initS > endS
    ensures TrendFilter(raw, options, initS, endS) == []
  {
    TrendFilterIsConjunctive(raw, options, initS, endS);
    SelectKeepsNone(raw, Selection(options, initS, endS));
  }

  /** When every record is selected (all topics, the full range), the filter returns the records unchanged, in order. */
  lemma FullSelectionKeepsAll(raw: seq<Record>, options: set<string>, initS: int, endS: int)
    requires forall i :: 0 <= i < |raw| ==> InSelection(raw[i], options, initS, endS)
    ensures TrendFilter(raw, options, initS, endS) == raw
  {
    TrendFilterIsConjunctive(raw, options, initS, endS);
    SelectKeepsAll(raw, Selection(options, initS, endS));
  }

  /**
   * A worked case, dates as day numbers (18628 is 2021-01-01): selecting
   * `vaccine` over one week keeps both of its records and drops `economy`.
   */
  lemma SelectedTopicScenario()
    ensures TrendFilter([Record("vaccine", 18628, 0.6), Record("economy", 18628, 0.4), Record("vaccine", 18635, 0.3)],
                        {"vaccine"}, 18628, 18635)
            == [Record("vaccine", 18628, 0.6), Record("vaccine", 18635, 0.3)]
  {
    var raw := [Record("vaccine", 18628, 0.6), Record("economy", 18628, 0.4), Record("vaccine", 18635, 0.3)];
    var keep := Selection({"vaccine"}, 18628, 18635);
    TrendFilterIsConjunctive(raw, {"vaccine"}, 18628, 18635);
    assert keep(raw[0]) && !keep(raw[1]) && keep(raw[2]);
    assert raw[1..][1..] == [raw[2]];
    assert Select([raw[2]], keep) == [raw[2]];
    assert Select(raw[1..], keep) == [raw[2]];
  }
}
