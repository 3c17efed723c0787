/** The three per-date reports both scripts print once every line is read:
    requests per date, the most common agents per date, and the GET/POST ratio
    per operating-system label per date. A `Counter` is a multiset here: looking
    up a key it never saw gives 0, as `Counter` does. */
module Aggregate {
  import opened LexOrder
  import opened Records

  /** `largest_N` of log_parser.py, written as the literal 3 in logparser.py. */
  const LargestN: nat := 3

  /** The records of one date, in their original order. */
  function On(es: seq<Entry>, date: string): seq<Entry> {
    if es == [] then []
    else (if es[0].req.date == date then [es[0]] else []) + On(es[1..], date)
  }

  /** `[rec[0] for rec in records]`. */
  function Dates(es: seq<Entry>): seq<string> {
    if es == [] then [] else [es[0].req.date] + Dates(es[1..])
  }

  /** `[rec[2] for rec in records]`. */
  function Agents(es: seq<Entry>): seq<string> {
    if es == [] then [] else [es[0].req.agent] + Agents(es[1..])
  }

  /** `Counter([rec[0] for rec in records])[date]` is the number of records of
      that date. */
  lemma {:induction false} DateCountIsRecordsOn(es: seq<Entry>, date: string)
    ensures multiset(Dates(es))[date] == |On(es, date)|
  {
    if es != [] {
      DateCountIsRecordsOn(es[1..], date);
      assert Dates(es) == [es[0].req.date] + Dates(es[1..]);
    }
  }

  lemma {:induction false} DatesHold(es: seq<Entry>)
    ensures forall e :: e in es ==> e.req.date in Dates(es)
    ensures forall d :: d in Dates(es) ==> exists e :: e in es && e.req.date == d
  {
    if es != [] {
      DatesHold(es[1..]);
    }
  }

  // ---------------------------------------------------------------------------
  // Total requests by date

  datatype DateCount = DateCount(date: string, count: nat)

  /** One row per date, in the order given, counted by `counter`. */
  function CountRows(dates: seq<string>, counter: multiset<string>): (r: seq<DateCount>)
    ensures |r| == |dates|
    ensures forall i :: 0 <= i < |r| ==> r[i].date == dates[i]
  {
    if dates == [] then []
    else [DateCount(dates[0], counter[dates[0]])] + CountRows(dates[1..], counter)
  }

  /** `sorted(total_req_by_date.keys())`. */
  function SortedDates(es: seq<Entry>): seq<string> {
    SortUnique(Dates(es))
  }

  /** The sorted dates are the dates of the records, each once, ascending. */
  lemma SortedDatesSpec(es: seq<Entry>)
    ensures forall d :: d in SortedDates(es) <==> exists e :: e in es && e.req.date == d
    ensures Ascending(SortedDates(es)) && Distinct(SortedDates(es))
  {
    DatesHold(es);
    AscendingDistinct(SortedDates(es));
  }

  /** `total_req_by_date` listed in the order the report prints it. */
  function TotalsByDate(es: seq<Entry>): seq<DateCount> {
    CountRows(SortedDates(es), multiset(Dates(es)))
  }

  function Total(rows: seq<DateCount>): nat {
    if rows == [] then 0 else rows[0].count + Total(rows[1..])
  }

  lemma {:induction false} TotalOfEmpty(dates: seq<string>)
    ensures Total(CountRows(dates, multiset{})) == 0
  {
    if dates != [] {
      TotalOfEmpty(dates[1..]);
    }
  }

  /** One more occurrence of `x` adds one to the total when `x` has a row. */
  lemma {:induction false} TotalOfOneMore(dates: seq<string>, m: multiset<string>, x: string)
    requires Distinct(dates)
    ensures Total(CountRows(dates, m + multiset{x}))
         == Total(CountRows(dates, m)) + (if x in dates then 1 else 0)
  {
    if dates != [] {
      assert Distinct(dates[1..]);
      TotalOfOneMore(dates[1..], m, x);
      assert x == dates[0] ==> x !in dates[1..];
    }
  }

  /** Rows for distinct dates that cover every value of `xs` add up to `|xs|`. */
  lemma {:induction false} TotalOfAll(dates: seq<string>, xs: seq<string>)
    requires Distinct(dates)
    requires forall x :: x in xs ==> x in dates
    ensures Total(CountRows(dates, multiset(xs))) == |xs|
  {
    if xs == [] {
      TotalOfEmpty(dates);
    } else {
      TotalOfAll(dates, xs[1..]);
      assert xs == [xs[0]] + xs[1..];
      assert multiset(xs) == multiset(xs[1..]) + multiset{xs[0]};
      TotalOfOneMore(dates, multiset(xs[1..]), xs[0]);
    }
  }

  /** Each date of the records appears exactly once, dates ascend in string
      order, each count is the number of records of its date, and the counts add
      up to the number of records. */
  lemma TotalsByDateSpec(es: seq<Entry>)
    ensures var r := TotalsByDate(es);
      && (forall i, j :: 0 <= i < j < |r| ==> Less(r[i].date, r[j].date))
      && (forall e :: e in es ==> exists i :: 0 <= i < |r| && r[i].date == e.req.date)
      && (forall i :: 0 <= i < |r| ==> r[i].count == |On(es, r[i].date)| > 0)
      && Total(r) == |es|
  {
    TotalsCover(es);
    TotalsCount(es);
    TotalsSum(es);
  }

  lemma TotalsSum(es: seq<Entry>)
    ensures Total(TotalsByDate(es)) == |es|
  {
    var ds := SortedDates(es);
    AscendingDistinct(ds);
    assert forall x :: x in Dates(es) ==> x in ds;
    TotalOfAll(ds, Dates(es));
    DatesLength(es);
  }

  lemma {:induction false} DatesLength(es: seq<Entry>)
    ensures |Dates(es)| == |es|
  {
    if es != [] {
      DatesLength(es[1..]);
    }
  }

  lemma TotalsCover(es: seq<Entry>)
    ensures var r := TotalsByDate(es);
      && (forall i, j :: 0 <= i < j < |r| ==> Less(r[i].date, r[j].date))
      && (forall e :: e in es ==> exists i :: 0 <= i < |r| && r[i].date == e.req.date)
  {
    var ds := SortedDates(es);
    var r := TotalsByDate(es);
    DatesHold(es);
    forall e | e in es ensures exists i :: 0 <= i < |r| && r[i].date == e.req.date {
      var i :| 0 <= i < |ds| && ds[i] == e.req.date;
      assert r[i].date == e.req.date;
    }
  }

  lemma TotalsCount(es: seq<Entry>)
    ensures var r := TotalsByDate(es);
      forall i :: 0 <= i < |r| ==> r[i].count == |On(es, r[i].date)| > 0
  {
    var ds := SortedDates(es);
    var r := TotalsByDate(es);
    forall i | 0 <= i < |r| ensures r[i].count == |On(es, r[i].date)| > 0 {
      CountRowAt(ds, multiset(Dates(es)), i);
      DateCountIsRecordsOn(es, r[i].date);
      assert r[i].date in Dates(es);
    }
  }

  lemma {:induction false} CountRowAt(dates: seq<string>, counter: multiset<string>, i: nat)
    requires i < |dates|
    ensures CountRows(dates, counter)[i].count == counter[dates[i]]
  {
    if i > 0 {
      CountRowAt(dates[1..], counter, i - 1);
    }
  }

  // ---------------------------------------------------------------------------
  // Most common agents by date

  datatype AgentCount = AgentCount(agent: string, count: nat)

  /** The values of `xs`, each once, in the order they first occur. */
  function Dedup(xs: seq<string>): (r: seq<string>)
    ensures Distinct(r)
    ensures forall x :: x in r <==> x in xs
  {
    if xs == [] then []
    else
      var d := Dedup(xs[..|xs| - 1]);
      var x := xs[|xs| - 1];
      assert xs == xs[..|xs| - 1] + [x];
      if x in d then d else d + [x]
  }

  /** `Counter(xs).items()` for the keys `keys`. */
  function Tally(keys: seq<string>, counter: multiset<string>): (r: seq<AgentCount>)
    ensures |r| == |keys|
    ensures forall i :: 0 <= i < |r| ==> r[i] == AgentCount(keys[i], counter[keys[i]])
  {
    seq(|keys|, i requires 0 <= i < |keys| => AgentCount(keys[i], counter[keys[i]]))
  }

  predicate NonIncreasing(s: seq<AgentCount>) {
    forall i, j :: 0 <= i < j < |s| ==> s[i].count >= s[j].count
  }

  predicate DistinctAgents(s: seq<AgentCount>) {
    forall i, j :: 0 <= i < j < |s| ==> s[i].agent != s[j].agent
  }

  /** Puts `p` after every entry counted at least as often. */
  function InsertByCount(p: AgentCount, s: seq<AgentCount>): seq<AgentCount> {
    if s == [] || s[0].count < p.count then [p] + s
    else [s[0]] + InsertByCount(p, s[1..])
  }

  /** Inserting adds exactly `p` and keeps the counts non-increasing. */
  lemma {:induction false} InsertByCountSpec(p: AgentCount, s: seq<AgentCount>)
    ensures multiset(InsertByCount(p, s)) == multiset(s) + multiset{p}
    ensures NonIncreasing(s) ==> NonIncreasing(InsertByCount(p, s))
  {
    if !(s == [] || s[0].count < p.count) {
      var t := InsertByCount(p, s[1..]);
      InsertByCountSpec(p, s[1..]);
      assert s == [s[0]] + s[1..];
      if NonIncreasing(s) {
        forall k | 0 <= k < |t| ensures s[0].count >= t[k].count {
          assert t[k] in multiset(t);
          if t[k] != p {
            assert t[k] in multiset(s[1..]);
            var m :| 0 <= m < |s[1..]| && s[1..][m] == t[k];
            assert s[m + 1] == t[k];
          }
        }
      }
    }
  }

  /** Orders entries by count, most frequent first; entries with equal counts
      keep their order. */
  function RankByCount(ps: seq<AgentCount>): seq<AgentCount> {
    if ps == [] then []
    else InsertByCount(ps[|ps| - 1], RankByCount(ps[..|ps| - 1]))
  }

  /** Ranking is a permutation whose counts do not increase. */
  lemma {:induction false} RankByCountSpec(ps: seq<AgentCount>)
    ensures multiset(RankByCount(ps)) == multiset(ps)
    ensures NonIncreasing(RankByCount(ps))
  {
    if ps != [] {
      var init := ps[..|ps| - 1];
      RankByCountSpec(init);
      InsertByCountSpec(ps[|ps| - 1], RankByCount(init));
      assert ps == init + [ps[|ps| - 1]];
    }
  }

  /** A permutation of entries with distinct agents has distinct agents. */
  lemma PermutationKeepsDistinctAgents(a: seq<AgentCount>, b: seq<AgentCount>)
    requires multiset(a) == multiset(b) && DistinctAgents(a)
    ensures DistinctAgents(b)
  {
    forall p, q | p in a && q in a && p.agent == q.agent ensures p == q {
      var i :| 0 <= i < |a| && a[i] == p;
      var j :| 0 <= j < |a| && a[j] == q;
      assert i == j;
    }
    forall i, j | 0 <= i < j < |b| ensures b[i].agent != b[j].agent {
      if b[i] == b[j] {
        assert multiset(b)[b[i]] >= 2 by {
          var rest := b[..i] + b[i + 1..];
          assert b == b[..i] + [b[i]] + b[i + 1..];
          assert b[j] in rest by {
            assert rest[j - 1] == b[j];
          }
          assert multiset(b) == multiset(rest) + multiset{b[i]};
        }
        DistinctOnce(a, b[i]);
      } else {
        assert b[i] in multiset(a) && b[j] in multiset(a);
      }
    }
  }

  /** In a sequence with distinct agents, no entry occurs twice. */
  lemma DistinctOnce(a: seq<AgentCount>, p: AgentCount)
    requires DistinctAgents(a)
    ensures multiset(a)[p] <= 1
  {
    if a != [] {
      var t := a[1..];
      assert a == [a[0]] + t;
      assert DistinctAgents(t);
      DistinctOnce(t, p);
      if a[0] == p {
        assert p !in t by {
          forall k | 0 <= k < |t| ensures t[k] != p {
            assert t[k] == a[k + 1];
          }
        }
      }
    }
  }

  /** `Counter(xs).most_common(n)`. */
  function MostCommon(xs: seq<string>, n: nat): seq<AgentCount> {
    var ranked := RankByCount(Tally(Dedup(xs), multiset(xs)));
    if |ranked| <= n then ranked else ranked[..n]
  }

  predicate Listed(r: seq<AgentCount>, x: string) {
    exists i :: 0 <= i < |r| && r[i].agent == x
  }

  /** The ranked tally of `xs`: one entry per distinct value, with the number of
      times it occurs, counts not increasing. */
  lemma RankedTallySpec(xs: seq<string>)
    ensures var ranked := RankByCount(Tally(Dedup(xs), multiset(xs)));
      && DistinctAgents(ranked)
      && NonIncreasing(ranked)
      && (forall i :: 0 <= i < |ranked| ==>
            ranked[i].agent in xs && ranked[i].count == multiset(xs)[ranked[i].agent])
      && (forall x :: x in xs ==> exists j :: 0 <= j < |ranked| && ranked[j].agent == x)
  {
    var keys := Dedup(xs);
    var tally := Tally(keys, multiset(xs));
    var ranked := RankByCount(tally);
    RankByCountSpec(tally);
    assert DistinctAgents(tally) by {
      forall i, j | 0 <= i < j < |tally| ensures tally[i].agent != tally[j].agent {
        assert keys[i] != keys[j];
      }
    }
    PermutationKeepsDistinctAgents(tally, ranked);
    forall i | 0 <= i < |ranked|
      ensures ranked[i].agent in xs && ranked[i].count == multiset(xs)[ranked[i].agent]
    {
      assert ranked[i] in multiset(tally);
      var k :| 0 <= k < |tally| && tally[k] == ranked[i];
    }
    forall x | x in xs ensures exists j :: 0 <= j < |ranked| && ranked[j].agent == x {
      var k :| 0 <= k < |keys| && keys[k] == x;
      assert tally[k] in multiset(ranked);
      var j :| 0 <= j < |ranked| && ranked[j] == tally[k];
    }
  }

  /** At most `n` entries, distinct agents, counts not increasing, each count the
      number of occurrences of its agent; every agent left out occurs no more
      often than the last one listed, and agents are left out only when `n`
      entries are listed. Which of equally frequent agents is listed first is
      not fixed. */
  lemma MostCommonSpec(xs: seq<string>, n: nat)
    ensures var r := MostCommon(xs, n);
      && |r| <= n
      && (forall i, j :: 0 <= i < j < |r| ==> r[i].agent != r[j].agent)
      && (forall i, j :: 0 <= i < j < |r| ==> r[i].count >= r[j].count)
      && (forall i :: 0 <= i < |r| ==> r[i].agent in xs && r[i].count == multiset(xs)[r[i].agent])
      && (forall x :: x in xs && !Listed(r, x) ==>
            |r| == n && (n > 0 ==> multiset(xs)[x] <= r[n - 1].count))
  {
    var ranked := RankByCount(Tally(Dedup(xs), multiset(xs)));
    var r := MostCommon(xs, n);
    RankedTallySpec(xs);
    assert forall i :: 0 <= i < |r| ==> r[i] == ranked[i];
    forall x | x in xs && !Listed(r, x)
      ensures |r| == n && (n > 0 ==> multiset(xs)[x] <= r[n - 1].count)
    {
      var j :| 0 <= j < |ranked| && ranked[j].agent == x;
      assert j >= |r|;
    }
  }

  /** `Counter([rec[2] for rec in records if rec[0] == date]).most_common(N)`. */
  function TopAgents(es: seq<Entry>, date: string, n: nat): seq<AgentCount> {
    MostCommon(Agents(On(es, date)), n)
  }

  /** Number of records of `date` whose agent is `agent`. */
  function AgentCountOn(es: seq<Entry>, date: string, agent: string): nat {
    if es == [] then 0
    else
      (if es[0].req.date == date && es[0].req.agent == agent then 1 else 0)
      + AgentCountOn(es[1..], date, agent)
  }

  lemma {:induction false} AgentsOnCount(es: seq<Entry>, date: string, agent: string)
    ensures multiset(Agents(On(es, date)))[agent] == AgentCountOn(es, date, agent)
  {
    if es != [] {
      AgentsOnCount(es[1..], date, agent);
      var head := if es[0].req.date == date then [es[0]] else [];
      assert On(es, date) == head + On(es[1..], date);
      AgentsAppend(head, On(es[1..], date));
    }
  }

  lemma {:induction false} AgentsAppend(a: seq<Entry>, b: seq<Entry>)
    ensures Agents(a + b) == Agents(a) + Agents(b)
  {
    if a != [] {
      AgentsAppend(a[1..], b);
      assert (a + b)[1..] == a[1..] + b;
    } else {
      assert a + b == b;
    }
  }

  /** The top agents of one date, stated over that date's records: at most `n`,
      distinct, counts not increasing, each count the number of that date's
      records with that agent, and no agent left out is more frequent than the
      last one listed. */
  lemma TopAgentsSpec(es: seq<Entry>, date: string, n: nat)
    ensures var r := TopAgents(es, date, n);
      && |r| <= n
      && (forall i, j :: 0 <= i < j < |r| ==> r[i].agent != r[j].agent && r[i].count >= r[j].count)
      && (forall i :: 0 <= i < |r| ==> r[i].count == AgentCountOn(es, date, r[i].agent) > 0)
      && (forall a :: AgentCountOn(es, date, a) > 0 && !Listed(r, a) ==>
            |r| == n && (n > 0 ==> AgentCountOn(es, date, a) <= r[n - 1].count))
  {
    var xs := Agents(On(es, date));
    MostCommonSpec(xs, n);
    forall a ensures multiset(xs)[a] == AgentCountOn(es, date, a) {
      AgentsOnCount(es, date, a);
    }
  }

  // ---------------------------------------------------------------------------
  // GET/POST ratio by operating system by date

  /** `get/post` kept exact, or the `infinity` sentinel when there is no POST. */
  datatype Ratio = Infinity | Quotient(gets: nat, posts: nat)

  /** The labels of the records of `date` made with `verb`, in record order. */
  function Labels(es: seq<Entry>, date: string, verb: string): seq<string> {
    if es == [] then []
    else
      (if es[0].req.date == date && es[0].req.httpMethod == verb then [es[0].os] else [])
      + Labels(es[1..], date, verb)
  }

  /** Number of records of `date` made with `verb` and labelled `os`. */
  function CountWhere(es: seq<Entry>, date: string, verb: string, os: string): nat {
    if es == [] then 0
    else
      (if es[0].req.date == date && es[0].req.httpMethod == verb && es[0].os == os then 1 else 0)
      + CountWhere(es[1..], date, verb, os)
  }

  lemma {:induction false} LabelsCount(es: seq<Entry>, date: string, verb: string, os: string)
    ensures multiset(Labels(es, date, verb))[os] == CountWhere(es, date, verb, os)
  {
    if es != [] {
      LabelsCount(es[1..], date, verb, os);
    }
  }

  /** A positive count is witnessed by a record, and a record is counted. */
  lemma {:induction false} CountWhereWitness(es: seq<Entry>, date: string, verb: string, os: string)
    ensures CountWhere(es, date, verb, os) > 0 <==>
      exists e :: e in es && e.req.date == date && e.req.httpMethod == verb && e.os == os
  {
    if es != [] {
      CountWhereWitness(es[1..], date, verb, os);
      assert es == [es[0]] + es[1..];
    }
  }

  /** The ratio rows of one date: `req_get_by_date[os] / req_post_by_date[os]`,
      or `infinity` when the POST count is 0, for every label of the union of
      both counters' keys. */
  function RatioByOs(es: seq<Entry>, date: string): map<string, Ratio> {
    var gets := Labels(es, date, "GET");
    var posts := Labels(es, date, "POST");
    var getCount, postCount := multiset(gets), multiset(posts);
    map os | os in (set g | g in gets) + (set p | p in posts) ::
      if postCount[os] > 0 then Quotient(getCount[os], postCount[os]) else Infinity
  }

  /** A label has a row exactly when some GET or POST record of that date
      carries it; the row is `infinity` exactly when there is no POST, and is
      otherwise the GET count over a POST count that is never 0, so a label seen
      only with POST gets ratio 0. */
  lemma RatioByOsSpec(es: seq<Entry>, date: string)
    ensures var r := RatioByOs(es, date);
      && (forall os :: os in r <==>
            CountWhere(es, date, "GET", os) > 0 || CountWhere(es, date, "POST", os) > 0)
      && (forall os :: os in r ==>
            (r[os] == Infinity <==> CountWhere(es, date, "POST", os) == 0))
      && (forall os :: os in r && CountWhere(es, date, "POST", os) > 0 ==>
            r[os] == Quotient(CountWhere(es, date, "GET", os), CountWhere(es, date, "POST", os)))
      && (forall os :: os in r && r[os].Quotient? ==> r[os].posts > 0)
  {
    var r := RatioByOs(es, date);
    forall os
      ensures multiset(Labels(es, date, "GET"))[os] == CountWhere(es, date, "GET", os)
      ensures multiset(Labels(es, date, "POST"))[os] == CountWhere(es, date, "POST", os)
    {
      LabelsCount(es, date, "GET", os);
      LabelsCount(es, date, "POST", os);
    }
  }

  /** The number `get/post` prints under true division. */
  function Value(q: Ratio): real
    requires q.Quotient? && q.posts > 0
  {
    q.gets as real / q.posts as real
  }

  /** Four GET and two POST requests of one label on one date give 2.0; three
      GET requests and no POST give `infinity`. */
  lemma RatioExamples(date: string, os: string, other: string, agent: string)
    ensures var get := Entry(Request(date, "GET", agent), os);
      var post := Entry(Request(date, "POST", agent), os);
      var r := RatioByOs([get, get, get, get, post, post], date);
      os in r && r[os] == Quotient(4, 2) && Value(r[os]) == 2.0
    ensures var get := Entry(Request(date, "GET", agent), other);
      var r := RatioByOs([get, get, get], date);
      other in r && r[other] == Infinity
  {
    var get := Entry(Request(date, "GET", agent), os);
    var post := Entry(Request(date, "POST", agent), os);
    var es := [get, get, get, get, post, post];
    assert "GET" != "POST" by { assert "GET"[0] != "POST"[0]; }
    assert es == [get] + ([get] + ([get] + ([get] + ([post] + ([post] + [])))));
    CountSteps(post, [], date, "GET", os);
    CountSteps(post, [], date, "POST", os);
    CountSteps(post, [post], date, "GET", os);
    CountSteps(post, [post], date, "POST", os);
    CountSteps(get, [post, post], date, "GET", os);
    CountSteps(get, [post, post], date, "POST", os);
    CountSteps(get, [get, post, post], date, "GET", os);
    CountSteps(get, [get, post, post], date, "POST", os);
    CountSteps(get, [get, get, post, post], date, "GET", os);
    CountSteps(get, [get, get, post, post], date, "POST", os);
    CountSteps(get, [get, get, get, post, post], date, "GET", os);
    CountSteps(get, [get, get, get, post, post], date, "POST", os);
    assert CountWhere(es, date, "GET", os) == 4 && CountWhere(es, date, "POST", os) == 2;
    RatioByOsSpec(es, date);
    var get' := Entry(Request(date, "GET", agent), other);
    var es' := [get', get', get'];
    CountSteps(get', [], date, "POST", other);
    CountSteps(get', [], date, "GET", other);
    CountSteps(get', [get'], date, "POST", other);
    CountSteps(get', [get'], date, "GET", other);
    CountSteps(get', [get', get'], date, "POST", other);
    CountSteps(get', [get', get'], date, "GET", other);
    assert CountWhere(es', date, "GET", other) == 3 && CountWhere(es', date, "POST", other) == 0;
    RatioByOsSpec(es', date);
  }

  /** Counting a sequence one record at a time. */
  lemma {:induction false} CountSteps(e: Entry, es: seq<Entry>, date: string, verb: string, os: string)
    ensures CountWhere([], date, verb, os) == 0
    ensures CountWhere([e] + es, date, verb, os)
         == (if e.req.date == date && e.req.httpMethod == verb && e.os == os then 1 else 0)
            + CountWhere(es, date, verb, os)
  {
  }

  // ---------------------------------------------------------------------------
  // The report

  datatype DateAgents = DateAgents(date: string, top: seq<AgentCount>)
  datatype DateRatios = DateRatios(date: string, ratios: map<string, Ratio>)
  datatype Report = Report(totals: seq<DateCount>, top: seq<DateAgents>, ratios: seq<DateRatios>)

  /** The three views, each listing the dates in `sorted` order. */
  function Summarize(es: seq<Entry>, n: nat): (r: Report)
    ensures |r.top| == |r.totals| && |r.ratios| == |r.totals|
    ensures forall i :: 0 <= i < |r.totals| ==>
              r.top[i].date == r.totals[i].date && r.ratios[i].date == r.totals[i].date
  {
    var ds := SortedDates(es);
    Report(
      TotalsByDate(es),
      seq(|ds|, i requires 0 <= i < |ds| => DateAgents(ds[i], TopAgents(es, ds[i], n))),
      seq(|ds|, i requires 0 <= i < |ds| => DateRatios(ds[i], RatioByOs(es, ds[i]))))
  }
}
