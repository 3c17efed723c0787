/** The per-line step of logparser.py: a validated request is stored with an
    operating-system label taken from a fixed position of its first
    parenthesised comment, or `misc` when there is no comment or the label holds
    a bot token. */
module BotField {
  import opened Text
  import opened Records
  import opened Validation

  const Misc: string := "misc"

  /** `attributes[2]` when there are more than two fields, else `attributes[-1]`. */
  function Position(attributes: seq<string>): (k: nat)
    requires |attributes| >= 1
    ensures k < |attributes|
    ensures k == 2 || (k == |attributes| - 1 && |attributes| <= 2)
  {
    if |attributes| > 2 then 2 else |attributes| - 1
  }

  /** The label of one agent, given the bot tokens; bot tokens are matched
      case-sensitively against the stripped field. */
  function BotAwareOs(agent: string, bots: seq<string>): string {
    match FirstParen(agent)
    case None => Misc
    case Some(comment) =>
      var attributes := Split(comment, ';');
      var os := Strip(attributes[Position(attributes)]);
      if ContainsAny(os, bots) then Misc else os
  }

  /** The first two clauses only spell out the definition case by case: `misc`
      without a comment; with one, the stripped field at the fixed position,
      replaced by `misc` exactly when it holds a bot token. The third says what a
      label can be: `misc`, or a stripped field of the first comment that holds
      no bot token. */
  lemma BotAwareOsSpec(agent: string, bots: seq<string>)
    ensures FirstParen(agent).None? ==> BotAwareOs(agent, bots) == Misc
    ensures FirstParen(agent).Some? ==>
      var attributes := Split(FirstParen(agent).value, ';');
      var candidate := Strip(attributes[Position(attributes)]);
      && (ContainsAny(candidate, bots) ==> BotAwareOs(agent, bots) == Misc)
      && (!ContainsAny(candidate, bots) ==> BotAwareOs(agent, bots) == candidate)
    ensures var r := BotAwareOs(agent, bots);
      r == Misc || (FirstParen(agent).Some? && !ContainsAny(r, bots)
                    && exists i :: 0 <= i < |Split(FirstParen(agent).value, ';')|
                                   && r == Strip(Split(FirstParen(agent).value, ';')[i]))
  {
  }

  /** A stored request passed validation and carries its label. */
  predicate Labelled(e: Entry, bots: seq<string>) {
    Accepted(e.req) && e.os == BotAwareOs(e.req.agent, bots)
  }

  /** The stored form of one request, or nothing when validation refuses it:
      `records.append(field + (os,))` only under `validate_record(field)`. */
  function Stored(field: Request, bots: seq<string>): seq<Entry>
    requires DateReadable(field.date)
  {
    if ValidateRecord(field) then [Entry(field, BotAwareOs(field.agent, bots))] else []
  }

  /** What the loop over `lines` appends, given the groups each line matched. */
  function StoredAll(fields: seq<Request>, bots: seq<string>): (r: seq<Entry>)
    requires forall i :: 0 <= i < |fields| ==> DateReadable(fields[i].date)
    ensures |r| <= |fields|
  {
    if fields == [] then []
    else StoredAll(fields[..|fields| - 1], bots) + Stored(fields[|fields| - 1], bots)
  }

  /** Only requests that pass validation are stored, each with its label, and
      every request that passes is stored. */
  lemma {:induction false} StoredAllSpec(fields: seq<Request>, bots: seq<string>)
    requires forall i :: 0 <= i < |fields| ==> DateReadable(fields[i].date)
    ensures var r := StoredAll(fields, bots);
      && (forall i :: 0 <= i < |r| ==> Labelled(r[i], bots))
      && (forall i :: 0 <= i < |r| ==> r[i].req in fields)
      && (forall f :: f in fields && Accepted(f) ==> Entry(f, BotAwareOs(f.agent, bots)) in r)
  {
    if fields != [] {
      var init, last := fields[..|fields| - 1], fields[|fields| - 1];
      StoredAllSpec(init, bots);
      assert fields == init + [last];
      var r := StoredAll(fields, bots);
      assert r == StoredAll(init, bots) + Stored(last, bots);
      forall f | f in fields && Accepted(f) ensures Entry(f, BotAwareOs(f.agent, bots)) in r {
        if f !in init {
          assert f == last;
        }
      }
    }
  }

  /** Storing works line by line, in line order: the requests of two blocks of
      lines store what the first block stores followed by what the second
      stores, so a request seen on two lines is stored twice. */
  lemma {:induction false} StoredAllAppend(a: seq<Request>, b: seq<Request>, bots: seq<string>)
    requires forall i :: 0 <= i < |a| ==> DateReadable(a[i].date)
    requires forall i :: 0 <= i < |b| ==> DateReadable(b[i].date)
    ensures forall i :: 0 <= i < |a + b| ==> DateReadable((a + b)[i].date)
    ensures StoredAll(a + b, bots) == StoredAll(a, bots) + StoredAll(b, bots)
  {
    if b == [] {
      assert a + b == a;
    } else {
      var init := b[..|b| - 1];
      StoredAllAppend(a, init, bots);
      assert (a + b)[..|a + b| - 1] == a + init;
      assert (a + b)[|a + b| - 1] == b[|b| - 1];
    }
  }

  /** Any one stored entry is an accepted request of the input, with its label. */
  lemma StoredEntry(fields: seq<Request>, bots: seq<string>, e: Entry)
    requires forall i :: 0 <= i < |fields| ==> DateReadable(fields[i].date)
    requires e in StoredAll(fields, bots)
    ensures e.req in fields && Accepted(e.req) && e.os == BotAwareOs(e.req.agent, bots)
  {
    StoredAllSpec(fields, bots);
    var r := StoredAll(fields, bots);
    var k :| 0 <= k < |r| && r[k] == e;
    assert Labelled(r[k], bots) && r[k].req in fields;
  }

  /** The module-level `records` list of logparser.py, which the per-line loop
      appends to. */
  class RecordLog {
    var records: seq<Entry>
    const bots: seq<string>

    ghost predicate Valid()
      reads this
    {
      forall i :: 0 <= i < |records| ==> Labelled(records[i], bots)
    }

    constructor (bots: seq<string>)
      ensures Valid() && records == [] && this.bots == bots
    {
      records := [];
      this.bots := bots;
    }

    /** One line: validate the matched `field`, work out its label and append. */
    method Ingest(field: Request)
      requires Valid() && DateReadable(field.date)
      modifies this
      ensures Valid()
      ensures records == old(records) + Stored(field, bots)
      ensures |records| <= |old(records)| + 1
    {
      if ValidateRecord(field) {
        var os: string;
        var agentAttr := FirstParen(field.agent);
        if agentAttr.Some? {
          var attributes := Split(agentAttr.value, ';');
          os := if |attributes| > 2 then Strip(attributes[2]) else Strip(attributes[|attributes| - 1]);
          if ContainsAny(os, bots) {
            os := Misc;
          }
        } else {
          os := Misc;
        }
        records := records + [Entry(field, os)];
      }
    }

    /** `for line in lines`, given the groups each line matched. */
    method IngestAll(fields: seq<Request>)
      requires Valid()
      requires forall i :: 0 <= i < |fields| ==> DateReadable(fields[i].date)
      modifies this
      ensures Valid()
      ensures records == old(records) + StoredAll(fields, bots)
    {
      for i := 0 to |fields|
        invariant Valid()
        invariant records == old(records) + StoredAll(fields[..i], bots)
      {
        ghost var before := records;
        Ingest(fields[i]);
        ghost var done := fields[..i + 1];
        assert done[..i] == fields[..i] && done[i] == fields[i];
        assert StoredAll(done, bots) == StoredAll(fields[..i], bots) + Stored(fields[i], bots);
        assert records == before + Stored(fields[i], bots);
      }
      assert fields[..|fields|] == fields;
    }
  }
}
