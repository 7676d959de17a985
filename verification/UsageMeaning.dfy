/** What the usage report says of the raw counts the calls came with. */
module UsageMeaning {
  import opened Basics
  import opened UsageTotals

  // ---- one call ----

  predicate IsCount(x: Option<int>) {
    x.Some? && x.value >= 0
  }

  /** A raw count, or nothing. */
  function Raw(x: Option<int>): nat {
    if x.Some? && x.value > 0 then x.value else 0
  }

  /**
   * A call's raw counts are exclusive buckets: input includes the two cache buckets, output includes
   * reasoning, and the total is all of them together. A field is known exactly when its own count is.
   */
  lemma ReadingMeans(c: Call)
    ensures Reading(c, Input) == if IsCount(c.input) then Some(Raw(c.input) + Raw(c.cacheRead) + Raw(c.cacheCreation)) else None
    ensures Reading(c, Output) == if IsCount(c.output) then Some(Raw(c.output) + Raw(c.reasoning)) else None
    ensures Reading(c, Total) ==
            if IsCount(c.input) && IsCount(c.output) then
              Some(Raw(c.input) + Raw(c.cacheRead) + Raw(c.cacheCreation) + Raw(c.output) + Raw(c.reasoning))
            else None
    ensures Reading(c, CacheRead) == if IsCount(c.cacheRead) then Some(Raw(c.cacheRead)) else None
    ensures Reading(c, CacheCreation) == if IsCount(c.cacheCreation) then Some(Raw(c.cacheCreation)) else None
    ensures Reading(c, Reasoning) == if IsCount(c.reasoning) then Some(Raw(c.reasoning)) else None
    ensures ReportsUsage(c) <==>
            IsCount(c.input) || IsCount(c.output) || IsCount(c.total) || IsCount(c.cacheRead) || IsCount(c.cacheCreation) ||
            IsCount(c.reasoning)
    ensures TotalMismatch(c) <==>
            IsCount(c.total) && IsCount(c.input) && IsCount(c.output) &&
            Raw(c.total) !=
            Raw(c.input) + Raw(c.cacheRead) + Raw(c.cacheCreation) + Raw(c.output) + Raw(c.reasoning)
  {
  }

  /** The code points that are white space. */
  const SPACES: set<int> := {
    0x09, 0x0A, 0x0B, 0x0C, 0x0D, 0x1C, 0x1D, 0x1E, 0x1F, 0x20, 0x85, 0xA0, 0x1680, 0x2000, 0x2001, 0x2002, 0x2003, 0x2004,
    0x2005, 0x2006, 0x2007, 0x2008, 0x2009, 0x200A, 0x2028, 0x2029, 0x202F, 0x205F, 0x3000}

  predicate Blank(name: Option<string>) {
    name.None? || forall i :: 0 <= i < |name.value| ==> name.value[i] as int in SPACES
  }

  lemma SpaceMeans(c: char)
    ensures IsSpace(c) <==> c as int in SPACES
  {
  }

  /** A call's group: its names, blank ones counted as absent, the model's second name used when the first is blank. */
  lemma KeyMeans(c: Call)
    ensures KeyOf(c).agent == if Blank(c.agent) then None else c.agent
    ensures KeyOf(c).provider == if Blank(c.provider) then None else c.provider
    ensures KeyOf(c).model == if !Blank(c.model) then c.model else if Blank(c.metadataModel) then None else c.metadataModel
  {
    hide IsSpace;
    NameMeans(c.agent);
    NameMeans(c.provider);
    NameMeans(c.model);
    NameMeans(c.metadataModel);
    hide StringValue;
  }

  lemma NameMeans(name: Option<string>)
    ensures StringValue(name) == if Blank(name) then None else name
  {
    hide IsSpace;
    if name.Some? {
      forall i | 0 <= i < |name.value| ensures IsSpace(name.value[i]) <==> name.value[i] as int in SPACES {
        SpaceMeans(name.value[i]);
      }
    }
  }

  // ---- a run ----

  function RawTotal(q: seq<Call>): nat {
    if q == [] then 0
    else
      Raw(q[0].input) + Raw(q[0].cacheRead) + Raw(q[0].cacheCreation) + Raw(q[0].output) + Raw(q[0].reasoning) +
      RawTotal(q[1..])
  }

  lemma {:induction false} RawTotalSnoc(q: seq<Call>, c: Call)
    ensures RawTotal(q + [c]) ==
            RawTotal(q) + Raw(c.input) + Raw(c.cacheRead) + Raw(c.cacheCreation) + Raw(c.output) + Raw(c.reasoning)
  {
    if q == [] {
      assert [] + [c] == [c] && [c][1..] == [];
    } else {
      assert (q + [c])[1..] == q[1..] + [c];
      RawTotalSnoc(q[1..], c);
    }
  }

  lemma {:induction false} TotalIsRaw(q: seq<Call>)
    requires forall c :: c in q ==> IsCount(c.input) && IsCount(c.output)
    ensures Sum(q, Everything, Tokens(Total)) == RawTotal(q)
  {
    if q != [] {
      var n := |q| - 1;
      assert q == q[..n] + [q[n]];
      TotalIsRaw(q[..n]);
      RawTotalSnoc(q[..n], q[n]);
      ReadingMeans(q[n]);
      hide Reading;
    }
  }

  /**
   * The report of a run conserves tokens: its total is known exactly when there are calls and every one
   * reports input and output, and then it is everything that was billed, each bucket once. Coverage is
   * complete exactly when every call reports something.
   */
  lemma ReportConserves(r: Report, q: seq<Call>)
    requires IsReport(r, q)
    ensures Total in r.totals
    ensures r.totals[Total] ==
            if q != [] && forall c :: c in q ==> IsCount(c.input) && IsCount(c.output) then Some(RawTotal(q)) else None
    ensures r.coverage == Unavailable <==> q == []
    ensures r.coverage == Complete <==> q != [] && forall c :: c in q ==> ReportsUsage(c)
  {
    hide Sum, ReportsUsage, IsReport, TotalFor, RawTotal;
    ReportParts(r, q);
    TotalMeans(q);
    UsageCounted(q);
  }

  lemma ReportParts(r: Report, q: seq<Call>)
    requires IsReport(r, q)
    ensures Total in r.totals && r.totals[Total] == TotalFor(q, Everything, Total)
    ensures r.coverage == CoverageOf(|q|, Sum(q, Everything, UsageReports))
  {
    hide Sum, AreGroups, TotalFor;
  }

  lemma TotalMeans(q: seq<Call>)
    ensures TotalFor(q, Everything, Total) ==
            if q != [] && forall c :: c in q ==> IsCount(c.input) && IsCount(c.output) then Some(RawTotal(q)) else None
  {
    EverythingCounts(q);
    AllReportCounted(q, Everything, Total);
    hide Sum;
    forall c: Call ensures Reading(c, Total).Some? <==> IsCount(c.input) && IsCount(c.output) {
      ReadingMeans(c);
    }
    hide Reading;
    if forall c :: c in q ==> IsCount(c.input) && IsCount(c.output) {
      TotalIsRaw(q);
    }
    assert AllReport(q, Everything, Total) <==> forall c :: c in q ==> Reading(c, Total).Some? by {
      assert forall i :: 0 <= i < |q| ==> q[i] in q;
    }
  }

  lemma {:induction false} EverythingCounts(q: seq<Call>)
    ensures Sum(q, Everything, Calls) == |q|
  {
    if q != [] {
      EverythingCounts(q[..|q| - 1]);
    }
  }

  lemma {:induction false} UsageCounted(q: seq<Call>)
    ensures Sum(q, Everything, UsageReports) <= |q|
    ensures Sum(q, Everything, UsageReports) == |q| <==> forall c :: c in q ==> ReportsUsage(c)
  {
    hide ReportsUsage;
    if q != [] {
      var n := |q| - 1;
      assert q == q[..n] + [q[n]];
      UsageCounted(q[..n]);
    }
  }
}
