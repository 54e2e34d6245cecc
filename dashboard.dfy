/**
 * The dashboard's aggregation (src/components/dashboard/Dashboard.jsx,
 * lines 13-97 and 348): counting results per sentiment label, the chart
 * rows, the flattened and truncated keyword lists, the headline numbers, the
 * overall-sentiment insight, and the selected tab. Confidence scores and
 * percentages are floating point and are not modelled.
 */
module Dashboard {
  import opened JsText
  import opened Analysis

  // ---------------------------------------------------------------- sentiment counts

  /** The labels of the results that have a sentiment, in result order. */
  function Labels(results: seq<AnalysisResult>): (r: seq<string>)
    ensures |r| <= |results|
    ensures forall l :: l in r <==> exists i :: 0 <= i < |results| && results[i].sentiment == Some(Sentiment(l))
  {
    if results == [] then []
    else
      var rest := Labels(results[1..]);
      assert forall i :: 0 < i < |results| ==> results[i] == results[1..][i - 1];
      if results[0].sentiment.Some? then [results[0].sentiment.value.labelName] + rest else rest
  }

  /** Labels are taken result by result, in order and with repetition: the list distributes over concatenation. */
  lemma {:induction false} LabelsAppend(x: seq<AnalysisResult>, y: seq<AnalysisResult>)
    ensures Labels(x + y) == Labels(x) + Labels(y)
  {
    if x == [] {
      assert x + y == y;
    } else {
      assert (x + y)[0] == x[0];
      assert (x + y)[1..] == x[1..] + y;
      LabelsAppend(x[1..], y);
    }
  }

  lemma LabelsSingle(result: AnalysisResult)
    ensures Labels([result]) == (if result.sentiment.Some? then [result.sentiment.value.labelName] else [])
  {
    assert [result][1..] == [];
  }

  /** How many results have a sentiment. */
  function WithSentiment(results: seq<AnalysisResult>): nat
  {
    if results == [] then 0 else (if results[0].sentiment.Some? then 1 else 0) + WithSentiment(results[1..])
  }

  lemma {:induction false} LabelsCount(results: seq<AnalysisResult>)
    ensures |Labels(results)| == WithSentiment(results)
  {
    if results != [] {
      LabelsCount(results[1..]);
    }
  }

  /** An object used as a counter, as its entries in insertion order. */
  type Tally = seq<(string, nat)>

  function Keys(t: Tally): (r: seq<string>)
    ensures |r| == |t|
    ensures forall i :: 0 <= i < |t| ==> r[i] == t[i].0
  {
    if t == [] then [] else [t[0].0] + Keys(t[1..])
  }

  /** The sum of the counts. */
  function Total(t: Tally): nat
  {
    if t == [] then 0 else t[0].1 + Total(t[1..])
  }

  /** `acc[key] || 0`: the count under `key`, 0 when absent. */
  function Lookup(t: Tally, key: string): nat
  {
    if t == [] then 0 else if t[0].0 == key then t[0].1 else Lookup(t[1..], key)
  }

  /** `acc[name] = (acc[name] || 0) + 1`: bump an existing key in place, or add it at the end. */
  function Bump(t: Tally, name: string): Tally
  {
    if t == [] then [(name, 1)]
    else if t[0].0 == name then [(name, t[0].1 + 1)] + t[1..]
    else [t[0]] + Bump(t[1..], name)
  }

  /** `analysisResults.reduce(…, {})` over the labels: a left fold of `Bump`. */
  function TallyOf(labels: seq<string>): Tally
  {
    if labels == [] then []
    else Bump(TallyOf(labels[..|labels| - 1]), labels[|labels| - 1])
  }

  /** `sentimentData`. */
  function SentimentData(results: seq<AnalysisResult>): Tally
  {
    TallyOf(Labels(results))
  }

  /** The labels without repeats, each where it first appears. */
  function Dedup(labels: seq<string>): seq<string>
  {
    if labels == [] then []
    else
      var d := Dedup(labels[..|labels| - 1]);
      var x := labels[|labels| - 1];
      if x in d then d else d + [x]
  }

  /** How often `name` occurs. */
  function Count(labels: seq<string>, name: string): nat
  {
    if labels == [] then 0
    else Count(labels[..|labels| - 1], name) + (if labels[|labels| - 1] == name then 1 else 0)
  }

  predicate Distinct(xs: seq<string>)
  {
    forall i, j :: 0 <= i < j < |xs| ==> xs[i] != xs[j]
  }

  lemma {:induction false} BumpSpec(t: Tally, x: string)
    ensures Keys(Bump(t, x)) == if x in Keys(t) then Keys(t) else Keys(t) + [x]
    ensures Total(Bump(t, x)) == Total(t) + 1
    ensures forall k :: Lookup(Bump(t, x), k) == Lookup(t, k) + (if k == x then 1 else 0)
  {
    if t != [] {
      BumpSpec(t[1..], x);
      if t[0].0 != x {
        assert Bump(t, x)[1..] == Bump(t[1..], x);
        assert Keys(t) == [t[0].0] + Keys(t[1..]);
        assert x in Keys(t) <==> x in Keys(t[1..]);
      } else {
        assert Bump(t, x)[1..] == t[1..];
      }
    }
  }

  lemma {:induction false} DedupSpec(labels: seq<string>)
    ensures Distinct(Dedup(labels))
    ensures forall x :: x in Dedup(labels) <==> x in labels
    ensures labels != [] ==> Dedup(labels)[0] == labels[0]
  {
    if labels != [] {
      var p := labels[..|labels| - 1];
      DedupSpec(p);
      assert labels == p + [labels[|labels| - 1]];
      if p != [] {
        assert p[0] == labels[0];
      }
    }
  }

  /**
   * The counter's keys are the distinct labels in order of first appearance,
   * each key holds the number of times its label occurs, and the counts add
   * up to the number of labels.
   */
  lemma {:induction false} TallySpec(labels: seq<string>)
    ensures Keys(TallyOf(labels)) == Dedup(labels)
    ensures forall k :: Lookup(TallyOf(labels), k) == Count(labels, k)
    ensures Total(TallyOf(labels)) == |labels|
  {
    if labels != [] {
      var p := labels[..|labels| - 1];
      var x := labels[|labels| - 1];
      TallySpec(p);
      BumpSpec(TallyOf(p), x);
    }
  }

  /** With distinct keys, each entry's own count is the one `Lookup` finds. */
  lemma {:induction false} LookupAt(t: Tally, i: nat)
    requires i < |t| && Distinct(Keys(t))
    ensures Lookup(t, t[i].0) == t[i].1
  {
    if i > 0 {
      assert Keys(t)[0] != Keys(t)[i];
      assert Distinct(Keys(t[1..])) by {
        forall a, b | 0 <= a < b < |t| - 1
          ensures Keys(t[1..])[a] != Keys(t[1..])[b]
        {
          assert Keys(t)[a + 1] != Keys(t)[b + 1];
        }
      }
      LookupAt(t[1..], i - 1);
    }
  }

  /**
   * `sentimentData`: one entry per distinct label, in order of first
   * appearance, holding that label's number of results; the counts sum to the
   * number of results with a sentiment, so results without one are ignored.
   */
  lemma SentimentDataSpec(results: seq<AnalysisResult>)
    ensures Keys(SentimentData(results)) == Dedup(Labels(results))
    ensures Distinct(Keys(SentimentData(results)))
    ensures forall i :: 0 <= i < |SentimentData(results)| ==>
      SentimentData(results)[i].1 == Count(Labels(results), SentimentData(results)[i].0)
    ensures Total(SentimentData(results)) == WithSentiment(results)
  {
    var ls := Labels(results);
    TallySpec(ls);
    DedupSpec(ls);
    LabelsCount(results);
    forall i | 0 <= i < |SentimentData(results)|
      ensures SentimentData(results)[i].1 == Count(ls, SentimentData(results)[i].0)
    {
      LookupAt(SentimentData(results), i);
    }
  }

  // ---------------------------------------------------------------- chart rows

  /** `name.charAt(0).toUpperCase() + name.slice(1)`, for ASCII letters. */
  function Capitalize(s: string): (r: string)
    ensures |r| == |s|
    ensures s != [] ==> r[0] == UpperChar(s[0]) && r[1..] == s[1..]
  {
    if s == [] then [] else [UpperChar(s[0])] + s[1..]
  }

  /** `sentimentChartData`: the counter's entries with the label capitalised. */
  function ChartData(t: Tally): (r: seq<(string, nat)>)
    ensures |r| == |t|
    ensures forall i :: 0 <= i < |t| ==> r[i] == (Capitalize(t[i].0), t[i].1)
  {
    if t == [] then [] else [(Capitalize(t[0].0), t[0].1)] + ChartData(t[1..])
  }

  // ---------------------------------------------------------------- keywords

  /** `r.keywords || []`. */
  function KeywordsOf(r: AnalysisResult): seq<Keyword>
  {
    if r.keywords.Some? then r.keywords.value else []
  }

  /** `allKeywords`: every result's keywords, in result order. */
  function AllKeywords(results: seq<AnalysisResult>): seq<Keyword>
  {
    if results == [] then [] else KeywordsOf(results[0]) + AllKeywords(results[1..])
  }

  lemma {:induction false} AllKeywordsAppend(a: seq<AnalysisResult>, b: seq<AnalysisResult>)
    ensures AllKeywords(a + b) == AllKeywords(a) + AllKeywords(b)
  {
    if a == [] {
      assert a + b == b;
    } else {
      assert (a + b)[0] == a[0];
      assert (a + b)[1..] == a[1..] + b;
      AllKeywordsAppend(a[1..], b);
    }
  }

  /** A result without keywords contributes nothing; one result contributes exactly its list. */
  lemma AllKeywordsSingle(r: AnalysisResult)
    ensures AllKeywords([r]) == KeywordsOf(r)
    ensures r.keywords.None? ==> AllKeywords([r]) == []
  {
    assert [r][1..] == [];
  }

  /** `allKeywords.slice(0, 10)`: the first keywords in result order, no sorting. */
  function TopKeywords(results: seq<AnalysisResult>): (r: seq<Keyword>)
  {
    var all := AllKeywords(results);
    if |all| <= 10 then all else all[..10]
  }

  lemma TopKeywordsSpec(results: seq<AnalysisResult>)
    ensures var all := AllKeywords(results); var top := TopKeywords(results);
      && |top| == (if |all| < 10 then |all| else 10)
      && top == all[..|top|]
  {
  }

  // ---------------------------------------------------------------- insight and view

  /** `sentimentChartData[0]?.name || 'balanced'`. */
  function OverallSentiment(results: seq<AnalysisResult>): string
  {
    var chart := ChartData(SentimentData(results));
    if |chart| > 0 && chart[0].0 != "" then chart[0].0 else "balanced"
  }

  /**
   * The insight names the first labelled result's label, capitalised, whatever
   * the counts are; with no labelled result (or an empty first label) it says
   * `balanced`.
   */
  lemma OverallSentimentSpec(results: seq<AnalysisResult>)
    ensures Labels(results) == [] ==> OverallSentiment(results) == "balanced"
    ensures Labels(results) != [] ==>
      OverallSentiment(results) == OrElse(Capitalize(Labels(results)[0]), "balanced")
  {
    SentimentDataSpec(results);
    DedupSpec(Labels(results));
  }

  /** What the dashboard shows: the empty state, or the aggregates. */
  datatype View =
    | EmptyState
    | Aggregates(chart: seq<(string, nat)>, topKeywords: seq<Keyword>, totalTexts: nat, keywordsExtracted: nat, overall: string)

  function DashboardView(analysisResults: Option<seq<AnalysisResult>>): View
  {
    if analysisResults.None? || |analysisResults.value| == 0 then EmptyState
    else
      var rs := analysisResults.value;
      Aggregates(ChartData(SentimentData(rs)), TopKeywords(rs), |rs|, |AllKeywords(rs)|, OverallSentiment(rs))
  }

  /**
   * Missing or empty results give the empty state; otherwise the chart counts
   * sum to the results with a sentiment, "Total Texts Analyzed" is the number
   * of results and "Keywords Extracted" the length of the flattened list.
   */
  lemma DashboardViewSpec(analysisResults: Option<seq<AnalysisResult>>)
    ensures DashboardView(analysisResults).EmptyState? <==> analysisResults.None? || analysisResults.value == []
    ensures DashboardView(analysisResults).Aggregates? ==>
      var rs := analysisResults.value; var v := DashboardView(analysisResults);
      && v.totalTexts == |rs|
      && v.keywordsExtracted == |AllKeywords(rs)|
      && |v.chart| == |Dedup(Labels(rs))|
      && Total(SentimentData(rs)) == WithSentiment(rs)
      && |v.topKeywords| <= 10
  {
    if analysisResults.Some? && analysisResults.value != [] {
      SentimentDataSpec(analysisResults.value);
    }
  }

  // ---------------------------------------------------------------- tabs

  const Tabs: seq<string> := ["overview", "sentiment", "keywords", "insights"]

  class DashboardTabs {
    var activeTab: string

    ghost predicate Valid()
      reads this
    {
      activeTab in Tabs
    }

    constructor()
      ensures Valid() && activeTab == "overview"
    {
      activeTab := "overview";
    }

    /** A tab button's click; the buttons are made from `Tabs`. */
    method SelectTab(tab: string)
      requires tab in Tabs
      modifies this
      ensures Valid() && activeTab == tab
    {
      activeTab := tab;
    }
  }
}
