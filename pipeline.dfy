/** The whole of log_parser.py from the lines of a log file to its three
    reports: extraction, the label `map_agent_to_os` gives each record's agent,
    and aggregation. */
module Pipeline {
  import opened Text
  import opened Records
  import opened LongestField
  import opened Aggregate
  import opened Validation
  import opened BotField

  /** Every line the pattern matches with some group yields at least the three
      groups the reports index: `rec[0]`, `rec[1]` and `rec[2]`. A match with no
      group at all is dropped during extraction and needs none. */
  predicate ThreeGroups(lines: seq<string>, matcher: Matcher) {
    forall l :: l in lines && matcher(l).Some? && matcher(l).value != [] ==> |matcher(l).value| >= 3
  }

  /** A record as the reports read it, with the label its agent maps to. */
  function Classify(groups: seq<string>, tokens: seq<string>): Entry
    requires |groups| >= 3
  {
    Entry(Request(groups[0], groups[1], groups[2]), AgentOs(groups[2], tokens))
  }

  function ClassifyAll(recs: seq<seq<string>>, tokens: seq<string>): (r: seq<Entry>)
    requires forall g :: g in recs ==> |g| >= 3
    ensures |r| == |recs|
    ensures forall i :: 0 <= i < |r| ==> r[i].req == Request(recs[i][0], recs[i][1], recs[i][2])
    ensures forall e :: e in r ==> e.os == AgentOs(e.req.agent, tokens)
  {
    if recs == [] then [] else [Classify(recs[0], tokens)] + ClassifyAll(recs[1..], tokens)
  }

  /** The records the three reports of log_parser.py read, one per matched
      line, each labelled by `map_agent_to_os(rec[2], conf['os'])`. */
  function LogParserEntries(lines: seq<string>, matcher: Matcher, tokens: seq<string>): (r: seq<Entry>)
    requires ThreeGroups(lines, matcher)
    ensures |r| == |ExtractRecords(lines, matcher)|
    ensures forall i :: 0 <= i < |r| ==> |ExtractRecords(lines, matcher)[i]| >= 3
    ensures forall i :: 0 <= i < |r| ==>
              var g := ExtractRecords(lines, matcher)[i];
              r[i].req == Request(g[0], g[1], g[2])
    ensures forall e :: e in r ==> e.os == AgentOs(e.req.agent, tokens)
  {
    var recs := ExtractRecords(lines, matcher);
    assert forall i :: 0 <= i < |recs| ==> recs[i] in recs;
    ClassifyAll(recs, tokens)
  }

  /** The reports log_parser.py prints for `lines`. */
  function LogParserReport(lines: seq<string>, matcher: Matcher, tokens: seq<string>): Report
    requires ThreeGroups(lines, matcher)
  {
    Summarize(LogParserEntries(lines, matcher, tokens), LargestN)
  }

  /** A line the pattern does not match, or matches without any group, leaves
      every report unchanged. */
  lemma UnmatchedLineIgnored(a: seq<string>, line: string, b: seq<string>, matcher: Matcher, tokens: seq<string>)
    requires matcher(line).None? || matcher(line) == Some([])
    requires ThreeGroups(a + [line] + b, matcher)
    ensures ThreeGroups(a + b, matcher)
    ensures LogParserReport(a + [line] + b, matcher, tokens) == LogParserReport(a + b, matcher, tokens)
  {
    assert forall l :: l in a + b ==> l in a + [line] + b;
    if matcher(line).None? {
      DropsFailedLine(a, line, b, matcher);
    } else {
      DropsEmptyMatch(a, line, b, matcher);
    }
  }

  /** The request totals add up to the number of records extracted: one per
      line the pattern matched with its groups. */
  lemma TotalsCountMatchedLines(lines: seq<string>, matcher: Matcher, tokens: seq<string>)
    requires ThreeGroups(lines, matcher)
    ensures Total(LogParserReport(lines, matcher, tokens).totals) == |ExtractRecords(lines, matcher)|
  {
    TotalsSum(LogParserEntries(lines, matcher, tokens));
  }

  /** logparser.py: each ratio row of a date carries the label of an accepted
      GET or POST request of that date, and every such label has a row. */
  lemma LogparserRatioLabels(fields: seq<Request>, bots: seq<string>, date: string)
    requires forall i :: 0 <= i < |fields| ==> DateReadable(fields[i].date)
    ensures var ratios := RatioByOs(StoredAll(fields, bots), date);
      forall os :: os in ratios <==>
        exists f :: f in fields && Accepted(f) && f.date == date
                 && (f.httpMethod == "GET" || f.httpMethod == "POST") && BotAwareOs(f.agent, bots) == os
  {
    var es := StoredAll(fields, bots);
    StoredAllSpec(fields, bots);
    RatioByOsSpec(es, date);
    forall os ensures os in RatioByOs(es, date) <==>
        exists f :: f in fields && Accepted(f) && f.date == date
                 && (f.httpMethod == "GET" || f.httpMethod == "POST") && BotAwareOs(f.agent, bots) == os
    {
      CountWhereWitness(es, date, "GET", os);
      CountWhereWitness(es, date, "POST", os);
      if os in RatioByOs(es, date) {
        var e :| e in es && e.req.date == date && (e.req.httpMethod == "GET" || e.req.httpMethod == "POST") && e.os == os;
        StoredEntry(fields, bots, e);
      }
      if exists f :: f in fields && Accepted(f) && f.date == date
                 && (f.httpMethod == "GET" || f.httpMethod == "POST") && BotAwareOs(f.agent, bots) == os {
        var f :| f in fields && Accepted(f) && f.date == date
                 && (f.httpMethod == "GET" || f.httpMethod == "POST") && BotAwareOs(f.agent, bots) == os;
        assert Entry(f, os) in es;
      }
    }
  }

  /** logparser.py: the totals add up to the number of stored requests, and every
      date listed is the date of an accepted request. */
  lemma LogparserTotals(fields: seq<Request>, bots: seq<string>)
    requires forall i :: 0 <= i < |fields| ==> DateReadable(fields[i].date)
    ensures var r := TotalsByDate(StoredAll(fields, bots));
      && Total(r) == |StoredAll(fields, bots)|
      && (forall i :: 0 <= i < |r| ==> exists f :: f in fields && Accepted(f) && f.date == r[i].date)
  {
    var es := StoredAll(fields, bots);
    var r := TotalsByDate(es);
    TotalsSum(es);
    SortedDatesSpec(es);
    forall i | 0 <= i < |r| ensures exists f :: f in fields && Accepted(f) && f.date == r[i].date {
      assert r[i].date == SortedDates(es)[i] && SortedDates(es)[i] in SortedDates(es);
      var e :| e in es && e.req.date == r[i].date;
      StoredEntry(fields, bots, e);
    }
  }
}
