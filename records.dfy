/** Records and their extraction from log lines. The configured regular
    expression is not modelled: it is an opaque matcher that gives the capture
    groups of a line, or nothing when the line does not match. */
module Records {
  import opened Text

  /** The three fields a log line yields: `(date, method, agent)`. */
  datatype Request = Request(date: string, httpMethod: string, agent: string)

  /** A request together with the operating-system label guessed from its agent. */
  datatype Entry = Entry(req: Request, os: string)

  /** `re.search(pattern, line)` followed by `.groups()`: the capture groups in
      the order the pattern declares them, or `None` when nothing matches. */
  type Matcher = string -> Option<seq<string>>

  /** `parse_record`: the match's groups unchanged, or `None` (after a warning,
      which is not modelled) when the pattern does not match. */
  function ParseRecord(line: string, matcher: Matcher): Option<seq<string>> {
    matcher(line)
  }

  /** `filter(None, [parse_record(line, pattern) for line in lines])`: both a
      failed match and an empty group tuple `()` are false, so both are dropped. */
  function ExtractRecords(lines: seq<string>, matcher: Matcher): (r: seq<seq<string>>)
    ensures |r| <= |lines|
    ensures forall g :: g in r ==> g != [] && exists l :: l in lines && matcher(l) == Some(g)
  {
    if lines == [] then []
    else
      var head := match ParseRecord(lines[0], matcher)
        case Some(g) => if g == [] then [] else [g]
        case None => [];
      head + ExtractRecords(lines[1..], matcher)
  }

  /** Extraction works line by line: the records of two blocks of lines are
      the records of the first followed by those of the second. */
  lemma {:induction false} ExtractAppend(a: seq<string>, b: seq<string>, matcher: Matcher)
    ensures ExtractRecords(a + b, matcher) == ExtractRecords(a, matcher) + ExtractRecords(b, matcher)
  {
    if a != [] {
      ExtractAppend(a[1..], b, matcher);
      assert (a + b)[1..] == a[1..] + b;
    } else {
      assert a + b == b;
    }
  }

  /** A line the pattern does not match contributes no record. */
  lemma DropsFailedLine(a: seq<string>, line: string, b: seq<string>, matcher: Matcher)
    requires matcher(line).None?
    ensures ExtractRecords(a + [line] + b, matcher) == ExtractRecords(a + b, matcher)
  {
    ExtractAppend(a + [line], b, matcher);
    ExtractAppend(a, [line], matcher);
    ExtractAppend(a, b, matcher);
  }

  /** A match without capture groups yields `()`, which is dropped as well. */
  lemma DropsEmptyMatch(a: seq<string>, line: string, b: seq<string>, matcher: Matcher)
    requires matcher(line) == Some([])
    ensures ExtractRecords(a + [line] + b, matcher) == ExtractRecords(a + b, matcher)
  {
    ExtractAppend(a + [line], b, matcher);
    ExtractAppend(a, [line], matcher);
    ExtractAppend(a, b, matcher);
  }

  /** A line the pattern matches with at least one group contributes exactly its
      groups, in place. */
  lemma KeepsMatchedLine(a: seq<string>, line: string, b: seq<string>, matcher: Matcher)
    requires matcher(line).Some? && matcher(line).value != []
    ensures ExtractRecords(a + [line] + b, matcher)
         == ExtractRecords(a, matcher) + [matcher(line).value] + ExtractRecords(b, matcher)
  {
    ExtractAppend(a + [line], b, matcher);
    ExtractAppend(a, [line], matcher);
  }
}
