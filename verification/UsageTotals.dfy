/** Token usage of a run: the aggregator's loop, what it computes, and the consumer's checks. */
module UsageTotals {
  import opened Basics
  import opened Ordering

  datatype Field = Input | Output | Total | CacheRead | CacheCreation | Reasoning

  const TOKEN_FIELDS := [Input, Output, Total, CacheRead, CacheCreation, Reasoning]

  /** One observed model call. Usage values that are no integers count as absent. */
  datatype Call = Call(
    agent: Option<string>, provider: Option<string>, model: Option<string>, metadataModel: Option<string>,
    input: Option<int>, output: Option<int>, total: Option<int>,
    cacheRead: Option<int>, cacheCreation: Option<int>, reasoning: Option<int>)

  // ---- one call ----

  predicate IsSpace(c: char) {
    var n := c as int;
    9 <= n <= 13 || 28 <= n <= 32 || n == 0x85 || n == 0xA0 || n == 0x1680 || 0x2000 <= n <= 0x200A || n == 0x2028 ||
    n == 0x2029 || n == 0x202F || n == 0x205F || n == 0x3000
  }

  /** A string that is not blank. */
  function StringValue(value: Option<string>): (r: Option<string>)
    ensures r.Some? ==> r.value != ""
  {
    if value.Some? && exists i :: 0 <= i < |value.value| && !IsSpace(value.value[i]) then value else None
  }

  function IntValue(value: Option<int>): Option<nat> {
    if value.Some? && value.value >= 0 then Some(value.value) else None
  }

  function OrZero(value: Option<nat>): nat {
    if value.Some? then value.value else 0
  }

  type Usage = map<Field, nat>

  function InputTokens(c: Call): Option<nat> {
    var ordinary := IntValue(c.input);
    if ordinary.None? then None
    else Some(ordinary.value + OrZero(IntValue(c.cacheRead)) + OrZero(IntValue(c.cacheCreation)))
  }

  function OutputTokens(c: Call): Option<nat> {
    var ordinary := IntValue(c.output);
    if ordinary.None? then None else Some(ordinary.value + OrZero(IntValue(c.reasoning)))
  }

  function DerivedTotal(c: Call): Option<nat> {
    if InputTokens(c).Some? && OutputTokens(c).Some? then Some(InputTokens(c).value + OutputTokens(c).value) else None
  }

  /** The normalised value of a field, if the call reports it. */
  function Reading(c: Call, f: Field): Option<nat> {
    match f
    case Input => InputTokens(c)
    case Output => OutputTokens(c)
    case Total => DerivedTotal(c)
    case CacheRead => IntValue(c.cacheRead)
    case CacheCreation => IntValue(c.cacheCreation)
    case Reasoning => IntValue(c.reasoning)
  }

  predicate ReportsUsage(c: Call) {
    IntValue(c.input).Some? || IntValue(c.output).Some? || IntValue(c.total).Some? || IntValue(c.cacheRead).Some? ||
    IntValue(c.cacheCreation).Some? || IntValue(c.reasoning).Some?
  }

  /** The source's own total contradicts its parts. */
  predicate TotalMismatch(c: Call) {
    IntValue(c.total).Some? && DerivedTotal(c).Some? && IntValue(c.total) != DerivedTotal(c)
  }

  function CallUsage(c: Call): (usage: Option<Usage>)
    ensures usage.Some? ==> forall f :: f in usage.value <==> Reading(c, f).Some?
    ensures usage.Some? ==> forall f :: f in usage.value ==> usage.value[f] == Reading(c, f).value
    ensures usage.None? <==> !ReportsUsage(c)
    ensures usage.None? ==> forall f :: Reading(c, f).None?
  {
    if !ReportsUsage(c) then None
    else
      assert forall f: Field :: f in TOKEN_FIELDS by { EveryField(); }
      Some(map f | f in TOKEN_FIELDS && Reading(c, f).Some? :: Reading(c, f).value)
  }

  lemma EveryField()
    ensures forall f: Field :: f in TOKEN_FIELDS
  {
    forall f: Field ensures f in TOKEN_FIELDS {
      match f
      case Input => assert TOKEN_FIELDS[0] == f;
      case Output => assert TOKEN_FIELDS[1] == f;
      case Total => assert TOKEN_FIELDS[2] == f;
      case CacheRead => assert TOKEN_FIELDS[3] == f;
      case CacheCreation => assert TOKEN_FIELDS[4] == f;
      case Reasoning => assert TOKEN_FIELDS[5] == f;
    }
  }

  datatype GroupKey = GroupKey(agent: Option<string>, provider: Option<string>, model: Option<string>)

  function KeyOf(c: Call): (k: GroupKey)
    ensures Nonblank(k)
  {
    GroupKey(StringValue(c.agent), StringValue(c.provider),
             if StringValue(c.model).Some? then StringValue(c.model) else StringValue(c.metadataModel))
  }

  // ---- sums over calls ----

  /** All calls, or those of one group. */
  datatype Selection = Everything | Only(key: GroupKey)

  predicate Selects(s: Selection, c: Call) {
    s == Everything || KeyOf(c) == s.key
  }

  datatype Measure = Calls | UsageReports | Mismatches | Reports(field: Field) | Tokens(field: Field)

  function Weight(m: Measure, c: Call): nat {
    match m
    case Calls => 1
    case UsageReports => if ReportsUsage(c) then 1 else 0
    case Mismatches => if TotalMismatch(c) then 1 else 0
    case Reports(f) => if Reading(c, f).Some? then 1 else 0
    case Tokens(f) => OrZero(Reading(c, f))
  }

  function Sum(q: seq<Call>, s: Selection, m: Measure): nat {
    if q == [] then 0
    else Sum(q[..|q| - 1], s, m) + if Selects(s, q[|q| - 1]) then Weight(m, q[|q| - 1]) else 0
  }

  lemma SumNext(q: seq<Call>, c: Call, s: Selection, m: Measure)
    ensures Sum(q + [c], s, m) == Sum(q, s, m) + if Selects(s, c) then Weight(m, c) else 0
  {
    assert (q + [c])[..|q|] == q;
  }

  lemma {:induction false} SumConcat(p: seq<Call>, q: seq<Call>, s: Selection, m: Measure)
    ensures Sum(p + q, s, m) == Sum(p, s, m) + Sum(q, s, m)
    decreases |q|
  {
    if q == [] {
      assert p + q == p;
    } else {
      assert (p + q)[..|p + q| - 1] == p + q[..|q| - 1];
      SumConcat(p, q[..|q| - 1], s, m);
    }
  }

  /** Taking one call out, wherever it stands. */
  lemma SumWithout(q: seq<Call>, i: nat, s: Selection, m: Measure)
    requires i < |q|
    ensures Sum(q, s, m) == Sum(q[..i] + q[i + 1..], s, m) + if Selects(s, q[i]) then Weight(m, q[i]) else 0
    ensures multiset(q) == multiset(q[..i] + q[i + 1..]) + multiset{q[i]}
  {
    var a, c, b := q[..i], q[i], q[i + 1..];
    assert q == a + ([c] + b);
    SumConcat(a, b, s, m);
    SumConcat(a, [c] + b, s, m);
    SumConcat([c], b, s, m);
    SumNext([], c, s, m);
    assert [] + [c] == [c];
  }

  /** Sums do not depend on the order of the calls. */
  lemma {:induction false} SumOfMultiset(p: seq<Call>, q: seq<Call>, s: Selection, m: Measure)
    requires multiset(p) == multiset(q)
    ensures Sum(p, s, m) == Sum(q, s, m)
    decreases |p|
  {
    if p == [] {
      assert |multiset(q)| == |q|;
    } else {
      var last := |p| - 1;
      assert p[last] in multiset(q);
      var i :| 0 <= i < |q| && q[i] == p[last];
      var x, y := p[..last] + p[last + 1..], q[..i] + q[i + 1..];
      SumWithout(p, last, s, m);
      SumWithout(q, i, s, m);
      hide Sum;
      assert multiset(x) == multiset(p) - multiset{p[last]} && multiset(y) == multiset(q) - multiset{q[i]};
      SumOfMultiset(x, y, s, m);
    }
  }

  ghost predicate AllReport(q: seq<Call>, s: Selection, f: Field) {
    forall i :: 0 <= i < |q| && Selects(s, q[i]) ==> Reading(q[i], f).Some?
  }

  /** As many reports as calls means that every call reports. */
  lemma {:induction false} AllReportCounted(q: seq<Call>, s: Selection, f: Field)
    ensures Sum(q, s, Reports(f)) <= Sum(q, s, Calls)
    ensures Sum(q, s, Reports(f)) == Sum(q, s, Calls) <==> AllReport(q, s, f)
  {
    hide Reading;
    if q != [] {
      var front := q[..|q| - 1];
      AllReportCounted(front, s, f);
      assert q == front + [q[|q| - 1]];
      assert AllReport(q, s, f) <==>
             AllReport(front, s, f) && (Selects(s, q[|q| - 1]) ==> Reading(q[|q| - 1], f).Some?) by {
        assert forall i :: 0 <= i < |front| ==> front[i] == q[i];
      }
    }
  }

  // ---- totals ----

  type Totals = map<Field, Option<nat>>

  function TotalFor(q: seq<Call>, s: Selection, f: Field): Option<nat> {
    var calls := Sum(q, s, Calls);
    if calls > 0 && Sum(q, s, Reports(f)) == calls then Some(Sum(q, s, Tokens(f))) else None
  }

  ghost predicate AreTotals(totals: Totals, q: seq<Call>, s: Selection) {
    forall f :: f in totals && totals[f] == TotalFor(q, s, f)
  }

  datatype Group = Group(key: GroupKey, calls: nat, usageReports: nat, totals: Totals)

  datatype Coverage = Unavailable | Complete | Partial

  datatype Report = Report(
    calls: nat, usageReports: nat, mismatches: nat, coverage: Coverage, totals: Totals, groups: seq<Group>)

  // ---- the order of groups ----

  ghost predicate Nonblank(k: GroupKey) {
    k.agent != Some("") && k.provider != Some("") && k.model != Some("")
  }

  function Text(value: Option<string>): string {
    if value.Some? then value.value else ""
  }

  /** The order by `(agent or "", provider or "", model or "")`. */
  predicate KeyLess(a: GroupKey, b: GroupKey) {
    TextLess(Text(a.agent), Text(b.agent)) ||
    (Text(a.agent) == Text(b.agent) &&
     (TextLess(Text(a.provider), Text(b.provider)) ||
      (Text(a.provider) == Text(b.provider) && TextLess(Text(a.model), Text(b.model)))))
  }

  /** An absent name never ties with a present one, because no present name is empty. */
  lemma KeyLessTotal(a: GroupKey, b: GroupKey)
    requires Nonblank(a) && Nonblank(b)
    ensures a == b || KeyLess(a, b) || KeyLess(b, a)
    ensures !(KeyLess(a, b) && KeyLess(b, a)) && !KeyLess(a, a)
  {
    hide TextLess;
    TextLessTotal(Text(a.agent), Text(b.agent));
    TextLessTotal(Text(a.provider), Text(b.provider));
    TextLessTotal(Text(a.model), Text(b.model));
    TextLessTotal(Text(a.agent), Text(a.agent));
    TextLessTotal(Text(a.provider), Text(a.provider));
    TextLessTotal(Text(a.model), Text(a.model));
  }

  lemma KeyLessTransitive(a: GroupKey, b: GroupKey, c: GroupKey)
    requires KeyLess(a, b) && KeyLess(b, c)
    ensures KeyLess(a, c)
  {
    hide TextLess;
    if TextLess(Text(a.agent), Text(b.agent)) && TextLess(Text(b.agent), Text(c.agent)) {
      TextLessTransitive(Text(a.agent), Text(b.agent), Text(c.agent));
    }
    if TextLess(Text(a.provider), Text(b.provider)) && TextLess(Text(b.provider), Text(c.provider)) {
      TextLessTransitive(Text(a.provider), Text(b.provider), Text(c.provider));
    }
    if TextLess(Text(a.model), Text(b.model)) && TextLess(Text(b.model), Text(c.model)) {
      TextLessTransitive(Text(a.model), Text(b.model), Text(c.model));
    }
  }

  ghost predicate SortedGroups(groups: seq<Group>) {
    forall i, j :: 0 <= i < j < |groups| ==> KeyLess(groups[i].key, groups[j].key)
  }

  // ---- the report ----

  ghost predicate IsGroup(g: Group, q: seq<Call>) {
    g.calls == Sum(q, Only(g.key), Calls) && g.usageReports == Sum(q, Only(g.key), UsageReports) &&
    AreTotals(g.totals, q, Only(g.key)) && exists c :: c in q && KeyOf(c) == g.key
  }

  ghost predicate AreGroups(groups: seq<Group>, q: seq<Call>) {
    SortedGroups(groups) && (forall i :: 0 <= i < |groups| ==> IsGroup(groups[i], q)) &&
    forall c :: c in q ==> exists i :: 0 <= i < |groups| && groups[i].key == KeyOf(c)
  }

  function CoverageOf(calls: nat, usageReports: nat): Coverage {
    if calls == 0 then Unavailable else if usageReports == calls then Complete else Partial
  }

  ghost predicate IsReport(r: Report, q: seq<Call>) {
    r.calls == |q| && r.usageReports == Sum(q, Everything, UsageReports) && r.mismatches == Sum(q, Everything, Mismatches) &&
    r.coverage == CoverageOf(r.calls, r.usageReports) && AreTotals(r.totals, q, Everything) && AreGroups(r.groups, q)
  }

  // ---- the report is a function of the multiset of calls ----

  lemma SameTotals(t: Totals, u: Totals, p: seq<Call>, q: seq<Call>, s: Selection)
    requires multiset(p) == multiset(q) && AreTotals(t, p, s) && AreTotals(u, q, s)
    ensures t == u
  {
    hide Sum;
    forall f: Field ensures t[f] == u[f] {
      SumOfMultiset(p, q, s, Calls);
      SumOfMultiset(p, q, s, Reports(f));
      SumOfMultiset(p, q, s, Tokens(f));
    }
  }

  lemma SameGroup(g: Group, h: Group, p: seq<Call>, q: seq<Call>)
    requires multiset(p) == multiset(q) && IsGroup(g, p) && IsGroup(h, q) && g.key == h.key
    ensures g == h
  {
    SumOfMultiset(p, q, Only(g.key), Calls);
    SumOfMultiset(p, q, Only(g.key), UsageReports);
    SameTotals(g.totals, h.totals, p, q, Only(g.key));
  }

  lemma GroupsWithin(gs: seq<Group>, hs: seq<Group>, p: seq<Call>, q: seq<Call>)
    requires multiset(p) == multiset(q) && AreGroups(gs, p) && AreGroups(hs, q)
    ensures forall g :: g in gs ==> g in hs
  {
    hide AreGroups, IsGroup;
    SamePermutation(p, q);
    forall g | g in gs ensures g in hs {
      EachIsGroup(gs, g, p);
      GroupFound(g, hs, p, q);
    }
  }

  lemma EachIsGroup(gs: seq<Group>, g: Group, q: seq<Call>)
    requires AreGroups(gs, q) && g in gs
    ensures IsGroup(g, q)
  {
    hide IsGroup, SortedGroups, KeyOf;
  }

  lemma GroupFound(g: Group, hs: seq<Group>, p: seq<Call>, q: seq<Call>)
    requires multiset(p) == multiset(q) && IsGroup(g, p) && AreGroups(hs, q) && forall c :: c in p ==> c in q
    ensures g in hs
  {
    hide AreTotals, KeyOf, SortedGroups, Sum;
    var c :| c in p && KeyOf(c) == g.key;
    var i :| 0 <= i < |hs| && hs[i].key == KeyOf(c);
    SameGroup(g, hs[i], p, q);
  }

  lemma {:induction false} SortedGroupsOnce(gs: seq<Group>, hs: seq<Group>)
    requires SortedGroups(gs) && SortedGroups(hs) && forall g :: g in gs <==> g in hs
    requires forall g :: g in gs ==> Nonblank(g.key)
    ensures gs == hs
  {
    hide KeyLess, Nonblank;
    assert gs != [] ==> gs[0] in hs;
    assert hs != [] ==> hs[0] in gs;
    if gs != [] {
      SameFirstGroup(gs, hs);
      OtherGroups(gs, hs);
      OtherGroups(hs, gs);
      SortedGroupsOnce(gs[1..], hs[1..]);
      assert gs == [gs[0]] + gs[1..] && hs == [hs[0]] + hs[1..];
    }
  }

  lemma SameFirstGroup(gs: seq<Group>, hs: seq<Group>)
    requires SortedGroups(gs) && SortedGroups(hs) && (forall g :: g in gs <==> g in hs) && gs != [] && hs != []
    requires forall g :: g in gs ==> Nonblank(g.key)
    ensures gs[0] == hs[0]
  {
    hide KeyLess, Nonblank;
    assert gs[0] in hs && hs[0] in gs;
    var i :| 0 <= i < |hs| && hs[i] == gs[0];
    var j :| 0 <= j < |gs| && gs[j] == hs[0];
    KeyLessTotal(gs[0].key, hs[0].key);
  }

  lemma OtherGroups(gs: seq<Group>, hs: seq<Group>)
    requires SortedGroups(gs) && (forall g :: g in gs <==> g in hs) && gs != [] && hs != [] && gs[0] == hs[0]
    requires forall g :: g in gs ==> Nonblank(g.key)
    ensures SortedGroups(gs[1..]) && forall g :: g in gs[1..] ==> g in hs[1..]
  {
    hide KeyLess, Nonblank;
    forall g | g in gs[1..] ensures g in hs[1..] {
      var i :| 0 <= i < |gs[1..]| && gs[1..][i] == g;
      assert KeyLess(gs[0].key, gs[i + 1].key) && g in gs;
      KeyLessTotal(gs[0].key, g.key);
      assert g != hs[0] && g in hs;
    }
  }

  /** Whatever order the calls arrive in, the report is the same. */
  lemma OrderDoesNotMatter(p: seq<Call>, q: seq<Call>, r: Report, u: Report)
    requires multiset(p) == multiset(q) && IsReport(r, p) && IsReport(u, q)
    ensures r == u
  {
    SamePermutation(p, q);
    SumOfMultiset(p, q, Everything, UsageReports);
    SumOfMultiset(p, q, Everything, Mismatches);
    SameTotals(r.totals, u.totals, p, q, Everything);
    GroupsWithin(r.groups, u.groups, p, q);
    GroupsWithin(u.groups, r.groups, q, p);
    forall g | g in r.groups ensures Nonblank(g.key) {
      GroupIsNonblank(g, p);
    }
    hide IsGroup, Sum, AreTotals, SortedGroups;
    assert SortedGroups(r.groups) && SortedGroups(u.groups);
    SortedGroupsOnce(r.groups, u.groups);
  }

  lemma GroupIsNonblank(g: Group, q: seq<Call>)
    requires IsGroup(g, q)
    ensures Nonblank(g.key)
  {
    var c :| c in q && KeyOf(c) == g.key;
  }

  // ---- groups add up to the run ----

  function KeySum(keys: seq<GroupKey>, q: seq<Call>, m: Measure): nat {
    if keys == [] then 0 else Sum(q, Only(keys[0]), m) + KeySum(keys[1..], q, m)
  }

  lemma {:induction false} KeySumNext(keys: seq<GroupKey>, q: seq<Call>, c: Call, m: Measure)
    requires Distinct(keys)
    ensures KeySum(keys, q + [c], m) == KeySum(keys, q, m) + if KeyOf(c) in keys then Weight(m, c) else 0
  {
    hide KeyOf, Weight, Sum;
    if keys != [] {
      SumNext(q, c, Only(keys[0]), m);
      KeySumNext(keys[1..], q, c, m);
      assert keys == [keys[0]] + keys[1..];
    }
  }

  lemma {:induction false} KeySumEmpty(keys: seq<GroupKey>, m: Measure)
    ensures KeySum(keys, [], m) == 0
  {
    if keys != [] {
      KeySumEmpty(keys[1..], m);
    }
  }

  lemma {:induction false} KeysCover(keys: seq<GroupKey>, q: seq<Call>, m: Measure)
    requires Distinct(keys) && forall c :: c in q ==> KeyOf(c) in keys
    ensures KeySum(keys, q, m) == Sum(q, Everything, m)
    decreases |q|
  {
    hide KeyOf, Weight;
    if q == [] {
      KeySumEmpty(keys, m);
    } else {
      var front, last := q[..|q| - 1], q[|q| - 1];
      assert q == front + [last];
      KeysCover(keys, front, m);
      KeySumNext(keys, front, last, m);
    }
  }

  function KeysOf(groups: seq<Group>): (keys: seq<GroupKey>)
    ensures |keys| == |groups| && forall i :: 0 <= i < |groups| ==> keys[i] == groups[i].key
  {
    seq(|groups|, i requires 0 <= i < |groups| => groups[i].key)
  }

  lemma GroupKeysCover(groups: seq<Group>, q: seq<Call>)
    requires AreGroups(groups, q)
    ensures Distinct(KeysOf(groups)) && forall c :: c in q ==> KeyOf(c) in KeysOf(groups)
  {
    hide KeyOf, KeyLess, Nonblank;
    var keys := KeysOf(groups);
    forall i, j | 0 <= i < j < |keys| ensures keys[i] != keys[j] {
      GroupIsNonblank(groups[i], q);
      KeyLessTotal(keys[i], keys[i]);
    }
    forall c | c in q ensures KeyOf(c) in keys {
      var i :| 0 <= i < |groups| && groups[i].key == KeyOf(c);
      assert keys[i] == KeyOf(c);
    }
  }

  function CallsOf(groups: seq<Group>): nat {
    if groups == [] then 0 else groups[0].calls + CallsOf(groups[1..])
  }

  function UsageReportsOf(groups: seq<Group>): nat {
    if groups == [] then 0 else groups[0].usageReports + UsageReportsOf(groups[1..])
  }

  lemma {:induction false} CountsAreKeySums(groups: seq<Group>, q: seq<Call>)
    requires forall i :: 0 <= i < |groups| ==> IsGroup(groups[i], q)
    ensures CallsOf(groups) == KeySum(KeysOf(groups), q, Calls)
    ensures UsageReportsOf(groups) == KeySum(KeysOf(groups), q, UsageReports)
  {
    hide AreTotals, KeyOf, Sum;
    if groups != [] {
      CountsAreKeySums(groups[1..], q);
      assert KeysOf(groups)[1..] == KeysOf(groups[1..]);
    }
  }

  lemma {:induction false} CallsAreCounted(q: seq<Call>)
    ensures Sum(q, Everything, Calls) == |q|
  {
    if q != [] {
      CallsAreCounted(q[..|q| - 1]);
    }
  }

  /** The groups' call counts add up to the run's, and so do their usage-report counts. */
  lemma GroupCountsAddUp(r: Report, q: seq<Call>)
    requires IsReport(r, q)
    ensures CallsOf(r.groups) == r.calls && UsageReportsOf(r.groups) == r.usageReports
  {
    GroupKeysCover(r.groups, q);
    CountsAreKeySums(r.groups, q);
    KeysCover(KeysOf(r.groups), q, Calls);
    KeysCover(KeysOf(r.groups), q, UsageReports);
    CallsAreCounted(q);
  }

  /** Every group has a total of the field. */
  predicate AllKnown(groups: seq<Group>, f: Field) {
    forall i :: 0 <= i < |groups| ==> f in groups[i].totals && groups[i].totals[f].Some?
  }

  function TokensOf(groups: seq<Group>, f: Field): nat
    requires AllKnown(groups, f)
  {
    if groups == [] then 0 else groups[0].totals[f].value + TokensOf(groups[1..], f)
  }

  lemma {:induction false} TokensAreKeySums(groups: seq<Group>, q: seq<Call>, f: Field)
    requires AllKnown(groups, f) && forall i :: 0 <= i < |groups| ==> IsGroup(groups[i], q)
    ensures TokensOf(groups, f) == KeySum(KeysOf(groups), q, Tokens(f))
  {
    hide KeyOf, Sum;
    if groups != [] {
      assert AreTotals(groups[0].totals, q, Only(groups[0].key));
      TokensAreKeySums(groups[1..], q, f);
      assert KeysOf(groups)[1..] == KeysOf(groups[1..]);
    }
  }

  lemma {:induction false} SomeCallCounts(q: seq<Call>, s: Selection, c: Call)
    requires c in q && Selects(s, c)
    ensures Sum(q, s, Calls) > 0
  {
    if q[|q| - 1] != c {
      assert c in q[..|q| - 1];
      SomeCallCounts(q[..|q| - 1], s, c);
    }
  }

  lemma GroupTotalIsKnown(g: Group, q: seq<Call>, f: Field)
    requires IsGroup(g, q) && AllReport(q, Everything, f)
    ensures f in g.totals && g.totals[f].Some?
  {
    hide Sum, Reading;
    var c :| c in q && KeyOf(c) == g.key;
    SomeCallCounts(q, Only(g.key), c);
    AllReportCounted(q, Only(g.key), f);
  }

  /** The run has a total of a field exactly when it observed a call and every call reports the field. */
  lemma RunTotalIsComplete(r: Report, q: seq<Call>, f: Field)
    requires IsReport(r, q)
    ensures f in r.totals
    ensures r.totals[f].Some? <==> q != [] && forall c :: c in q ==> Reading(c, f).Some?
  {
    hide Reading, Sum, AreGroups;
    CallsAreCounted(q);
    AllReportCounted(q, Everything, f);
  }

  /** Then every group has a total of the field, and the run's is their sum. */
  lemma RunTotalIsSumOfGroups(r: Report, q: seq<Call>, f: Field)
    requires IsReport(r, q) && f in r.totals && r.totals[f].Some?
    ensures AllKnown(r.groups, f) && r.totals[f].value == TokensOf(r.groups, f)
  {
    hide Reading, KeyOf, Sum, AreGroups, IsGroup, AllKnown;
    AllReportCounted(q, Everything, f);
    GroupTotalsAreKnown(r.groups, q, f);
    EachGroupIsGroup(r.groups, q);
    TokensAreKeySums(r.groups, q, f);
    GroupKeysCover(r.groups, q);
    KeysCover(KeysOf(r.groups), q, Tokens(f));
  }

  lemma EachGroupIsGroup(groups: seq<Group>, q: seq<Call>)
    requires AreGroups(groups, q)
    ensures forall i :: 0 <= i < |groups| ==> IsGroup(groups[i], q)
  {
    hide IsGroup, SortedGroups, KeyOf;
  }

  lemma GroupTotalsAreKnown(groups: seq<Group>, q: seq<Call>, f: Field)
    requires AreGroups(groups, q) && AllReport(q, Everything, f)
    ensures AllKnown(groups, f)
  {
    EachGroupIsGroup(groups, q);
    hide AreGroups, IsGroup, AllReport;
    forall i | 0 <= i < |groups| ensures f in groups[i].totals && groups[i].totals[f].Some? {
      GroupTotalIsKnown(groups[i], q, f);
    }
  }

  // ---- the consumer's checks ----

  const MAX_SAFE_INTEGER := 9007199254740991

  predicate IsSafe(value: Option<nat>) {
    value.Some? ==> value.value <= MAX_SAFE_INTEGER
  }

  predicate HasAllFields(t: Totals) {
    forall f :: f in t
  }

  predicate AllSafe(t: Totals)
    requires HasAllFields(t)
  {
    forall f :: f in t ==> IsSafe(t[f])
  }

  /** The usage checks of a transcript message. */
  predicate ConsumerAccepts(t: Totals)
    requires HasAllFields(t)
  {
    AllSafe(t) &&
    t[Total] == (if t[Input].None? || t[Output].None? then None else Some(t[Input].value + t[Output].value)) &&
    (t[Input].Some? ==> OrZero(t[CacheRead]) + OrZero(t[CacheCreation]) <= t[Input].value) &&
    (t[Output].Some? && t[Reasoning].Some? ==> t[Reasoning].value <= t[Output].value)
  }

  lemma {:induction false} PartsStayWithin(q: seq<Call>, s: Selection)
    ensures AllReport(q, s, Input) ==>
              Sum(q, s, Tokens(CacheRead)) + Sum(q, s, Tokens(CacheCreation)) <= Sum(q, s, Tokens(Input))
    ensures AllReport(q, s, Output) ==> Sum(q, s, Tokens(Reasoning)) <= Sum(q, s, Tokens(Output))
    ensures AllReport(q, s, Input) && AllReport(q, s, Output) ==>
              Sum(q, s, Tokens(Total)) == Sum(q, s, Tokens(Input)) + Sum(q, s, Tokens(Output))
  {
    if q != [] {
      PartsStayWithin(q[..|q| - 1], s);
      assert forall f :: AllReport(q, s, f) ==> AllReport(q[..|q| - 1], s, f);
    }
  }

  lemma TotalReportedWithBoth(q: seq<Call>, s: Selection)
    ensures AllReport(q, s, Total) <==> AllReport(q, s, Input) && AllReport(q, s, Output)
  {
    assert forall c :: Reading(c, Total).Some? <==> Reading(c, Input).Some? && Reading(c, Output).Some?;
    hide Reading;
  }

  /**
   * The totals of a run or of any group pass the consumer's checks exactly when each that is known stays
   * below 2 to the 53rd.
   */
  lemma ConsumerAcceptsSafeTotals(t: Totals, q: seq<Call>, s: Selection)
    requires AreTotals(t, q, s)
    ensures HasAllFields(t)
    ensures ConsumerAccepts(t) <==> forall f :: f in t && t[f].Some? ==> t[f].value < 0x20_0000_0000_0000
  {
    assert HasAllFields(t);
    assert AllSafe(t) <==> forall f :: f in t && t[f].Some? ==> t[f].value < 0x20_0000_0000_0000;
    hide Reading, Sum, AllReport, AllSafe;
    forall f: Field
      ensures Sum(q, s, Reports(f)) == Sum(q, s, Calls) <==> AllReport(q, s, f)
    {
      AllReportCounted(q, s, f);
    }
    PartsStayWithin(q, s);
    TotalReportedWithBoth(q, s);
  }

  /** Beyond safe integers the totals are right but refused. */
  lemma LargeTotalsAreRefused(c: Call, t: Totals)
    requires c.input == Some(MAX_SAFE_INTEGER + 1) && AreTotals(t, [c], Everything)
    ensures HasAllFields(t) && !ConsumerAccepts(t)
  {
    SumNext([], c, Everything, Calls);
    SumNext([], c, Everything, Reports(Input));
    SumNext([], c, Everything, Tokens(Input));
    assert [] + [c] == [c];
    assert t[Input].Some? && t[Input].value >= MAX_SAFE_INTEGER + 1;
  }

  // ---- the aggregator ----

  type Counts = map<Field, nat>

  ghost predicate Counted(counts: Counts, q: seq<Call>, s: Selection, reports: bool) {
    forall f :: f in counts && counts[f] == Sum(q, s, if reports then Reports(f) else Tokens(f))
  }

  datatype Tally = Tally(calls: nat, usageReports: nat, tokens: Counts, reported: Counts)

  ghost predicate Tallied(t: Tally, q: seq<Call>, s: Selection) {
    t.calls == Sum(q, s, Calls) && t.usageReports == Sum(q, s, UsageReports) && Counted(t.tokens, q, s, false) &&
    Counted(t.reported, q, s, true)
  }

  function EmptyTotals(): (r: Counts)
    ensures forall f :: f in r && r[f] == 0
  {
    EveryField();
    map f | f in TOKEN_FIELDS :: 0
  }

  /** `counts` plus the amounts of the fields seen. */
  ghost predicate Added(counts: Counts, before: Counts, usage: Usage, fields: seq<Field>, reports: bool)
    requires forall f :: f in before
  {
    forall f :: f in counts &&
      counts[f] == before[f] + if f in fields && f in usage then if reports then 1 else usage[f] else 0
  }

  method AddUsage(tokens: Counts, reported: Counts, usage: Usage) returns (tokens': Counts, reported': Counts)
    requires forall f :: f in tokens && f in reported
    ensures Added(tokens', tokens, usage, TOKEN_FIELDS, false)
    ensures Added(reported', reported, usage, TOKEN_FIELDS, true)
  {
    tokens', reported' := tokens, reported;
    for i := 0 to |TOKEN_FIELDS|
      invariant Added(tokens', tokens, usage, TOKEN_FIELDS[..i], false)
      invariant Added(reported', reported, usage, TOKEN_FIELDS[..i], true)
    {
      var field := TOKEN_FIELDS[i];
      FieldIsNew(i);
      assert field in tokens' && field in reported';
      if field in usage {
        tokens' := tokens'[field := tokens'[field] + usage[field]];
        reported' := reported'[field := reported'[field] + 1];
      }
    }
    assert TOKEN_FIELDS[..|TOKEN_FIELDS|] == TOKEN_FIELDS;
  }

  lemma FieldIsNew(i: nat)
    requires i < |TOKEN_FIELDS|
    ensures TOKEN_FIELDS[i] !in TOKEN_FIELDS[..i]
    ensures forall f :: f in TOKEN_FIELDS[..i + 1] <==> f in TOKEN_FIELDS[..i] || f == TOKEN_FIELDS[i]
  {
    assert TOKEN_FIELDS[..i + 1] == TOKEN_FIELDS[..i] + [TOKEN_FIELDS[i]];
  }

  /** A partial sum is not a total. */
  function CompleteTotals(tokens: Counts, reported: Counts, calls: nat): (r: Totals)
    requires forall f :: f in tokens && f in reported
    ensures forall f :: f in r && r[f] == if calls > 0 && reported[f] == calls then Some(tokens[f]) else None
  {
    map f | f in tokens :: if calls > 0 && reported[f] == calls then Some(tokens[f]) else None
  }

  /** One call more, selected. */
  method AddCall(t: Tally, c: Call, ghost q: seq<Call>, ghost s: Selection) returns (t': Tally)
    requires Tallied(t, q, s) && Selects(s, c)
    ensures Tallied(t', q + [c], s)
  {
    hide Reading, ReportsUsage, Selects, Sum;
    EveryField();
    var usage := CallUsage(c);
    var tokens, reported := t.tokens, t.reported;
    if usage.Some? {
      tokens, reported := AddUsage(tokens, reported, usage.value);
    }
    CountedNext(t.tokens, tokens, q, c, s, false);
    CountedNext(t.reported, reported, q, c, s, true);
    SumNext(q, c, s, Calls);
    SumNext(q, c, s, UsageReports);
    hide Counted;
    t' := Tally(t.calls + 1, t.usageReports + if usage.Some? then 1 else 0, tokens, reported);
  }

  lemma CountedNext(counts: Counts, counts': Counts, q: seq<Call>, c: Call, s: Selection, reports: bool)
    requires Counted(counts, q, s, reports) && Selects(s, c)
    requires forall f :: f in counts' && counts'[f] == counts[f] + Weight(if reports then Reports(f) else Tokens(f), c)
    ensures Counted(counts', q + [c], s, reports)
  {
    hide Reading, Selects, Sum;
    forall f: Field ensures counts'[f] == Sum(q + [c], s, if reports then Reports(f) else Tokens(f)) {
      SumNext(q, c, s, if reports then Reports(f) else Tokens(f));
    }
  }

  lemma EmptyTally(s: Selection)
    ensures Tallied(Tally(0, 0, EmptyTotals(), EmptyTotals()), [], s)
  {
  }

  /** A call of another group changes nothing. */
  lemma OtherCall(t: Tally, q: seq<Call>, c: Call, s: Selection)
    requires Tallied(t, q, s) && !Selects(s, c)
    ensures Tallied(t, q + [c], s)
  {
    hide Reading, ReportsUsage, Selects;
    forall m: Measure ensures Sum(q + [c], s, m) == Sum(q, s, m) {
      SumNext(q, c, s, m);
    }
    hide Sum;
  }

  lemma NoCallYet(q: seq<Call>, k: GroupKey)
    requires forall c :: c in q ==> KeyOf(c) != k
    ensures Tallied(Tally(0, 0, EmptyTotals(), EmptyTotals()), q, Only(k))
  {
    forall m: Measure ensures Sum(q, Only(k), m) == 0 {
      NoneSelected(q, k, m);
    }
  }

  lemma {:induction false} NoneSelected(q: seq<Call>, k: GroupKey, m: Measure)
    requires forall c :: c in q ==> KeyOf(c) != k
    ensures Sum(q, Only(k), m) == 0
  {
    hide KeyOf, Weight;
    if q != [] {
      NoneSelected(q[..|q| - 1], k, m);
    }
  }

  ghost predicate GroupsTallied(groups: map<GroupKey, Tally>, q: seq<Call>) {
    (forall k :: k in groups <==> exists c :: c in q && KeyOf(c) == k) &&
    forall k :: k in groups ==> Tallied(groups[k], q, Only(k))
  }

  method CountGroup(groups: map<GroupKey, Tally>, c: Call, ghost q: seq<Call>) returns (groups': map<GroupKey, Tally>)
    requires GroupsTallied(groups, q)
    ensures GroupsTallied(groups', q + [c])
  {
    hide Tallied, KeyOf;
    var k := KeyOf(c);
    if k !in groups {
      NoCallYet(q, k);
    }
    var group := if k in groups then groups[k] else Tally(0, 0, EmptyTotals(), EmptyTotals());
    group := AddCall(group, c, q, Only(k));
    groups' := groups[k := group];
    forall other | other in groups && other != k ensures Tallied(groups[other], q + [c], Only(other)) {
      OtherCall(groups[other], q, c, Only(other));
    }
    forall other ensures other in groups' <==> exists d :: d in q + [c] && KeyOf(d) == other {
      if other == k {
        assert c in q + [c];
      }
      if other in groups {
        var d :| d in q && KeyOf(d) == other;
        assert d in q + [c];
      }
    }
  }

  lemma {:induction false} LeastKeyExists(keys: set<GroupKey>)
    requires keys != {} && forall k :: k in keys ==> Nonblank(k)
    ensures exists k :: k in keys && forall other :: other in keys && other != k ==> KeyLess(k, other)
  {
    hide KeyLess, Nonblank;
    var x :| x in keys;
    if keys == {x} {
      assert x in keys && forall other :: other in keys && other != x ==> KeyLess(x, other);
    } else {
      var rest := keys - {x};
      assert keys == rest + {x};
      LeastKeyExists(rest);
      var k :| k in rest && forall other :: other in rest && other != k ==> KeyLess(k, other);
      KeyLessTotal(k, x);
      if KeyLess(k, x) {
        assert forall other :: other in keys && other != k ==> KeyLess(k, other);
      } else {
        forall other | other in keys && other != x ensures KeyLess(x, other) {
          if other != k {
            KeyLessTransitive(x, k, other);
          }
        }
        assert x in keys && forall other :: other in keys && other != x ==> KeyLess(x, other);
      }
    }
  }

  ghost predicate AllNonblank(keys: set<GroupKey>) {
    forall k :: k in keys ==> Nonblank(k)
  }

  /** The groups in the order of their names. */
  method SortGroups(groups: map<GroupKey, Group>) returns (sorted: seq<Group>)
    requires AllNonblank(groups.Keys) && forall k :: k in groups ==> groups[k].key == k
    ensures SortedGroups(sorted)
    ensures forall g :: g in sorted <==> g.key in groups && groups[g.key] == g
  {
    hide KeyLess, Nonblank;
    sorted := [];
    var left := groups.Keys;
    while left != {}
      invariant left <= groups.Keys && SortedGroups(sorted)
      invariant forall g :: g in sorted <==> g.key in groups.Keys - left && groups[g.key] == g
      invariant forall g, k :: g in sorted && k in left ==> KeyLess(g.key, k)
      decreases |left|
    {
      LeastKeyExists(left);
      var k :| k in left && forall other :: other in left && other != k ==> KeyLess(k, other);
      sorted := sorted + [groups[k]];
      left := left - {k};
    }
  }

  lemma FinishedGroup(t: Tally, q: seq<Call>, k: GroupKey)
    requires Tallied(t, q, Only(k)) && HasCounts(t) && exists c :: c in q && KeyOf(c) == k
    ensures IsGroup(FinishGroup(k, t), q)
  {
    hide Sum, KeyOf;
  }

  method AggregateRun(calls: seq<Call>) returns (r: Report)
    ensures IsReport(r, calls)
  {
    hide Tallied, KeyOf, GroupsTallied, TotalMismatch, Sum, Nonblank;
    var run := Tally(0, 0, EmptyTotals(), EmptyTotals());
    var mismatches: nat := 0;
    var groups: map<GroupKey, Tally> := map[];
    EmptyTally(Everything);
    NothingCounted();
    for i := 0 to |calls|
      invariant Tallied(run, calls[..i], Everything) && GroupsTallied(groups, calls[..i])
      invariant mismatches == Sum(calls[..i], Everything, Mismatches)
    {
      var call := calls[i];
      assert calls[..i + 1] == calls[..i] + [call];
      SumNext(calls[..i], call, Everything, Mismatches);
      run := AddCall(run, call, calls[..i], Everything);
      if TotalMismatch(call) {
        mismatches := mismatches + 1;
      }
      groups := CountGroup(groups, call, calls[..i]);
    }
    assert calls[..|calls|] == calls;
    var sorted := FinishGroups(groups, calls);
    r := FinishRun(run, mismatches, sorted, calls);
  }

  lemma NothingCounted()
    ensures GroupsTallied(map[], []) && Sum([], Everything, Mismatches) == 0
  {
  }

  method FinishGroups(groups: map<GroupKey, Tally>, ghost calls: seq<Call>) returns (sorted: seq<Group>)
    requires GroupsTallied(groups, calls)
    ensures AreGroups(sorted, calls)
  {
    hide Tallied, KeyLess, IsGroup;
    forall k | k in groups
      ensures Nonblank(k) && HasCounts(groups[k]) && IsGroup(FinishGroup(k, groups[k]), calls)
    {
      var c :| c in calls && KeyOf(c) == k;
      TallyHasCounts(groups[k], calls, Only(k));
      FinishedGroup(groups[k], calls, k);
    }
    hide KeyOf, Nonblank, FinishGroup, HasCounts;
    var finished := map k | k in groups :: FinishGroup(k, groups[k]);
    sorted := SortGroups(finished);
    SortedAreGroups(sorted, finished, calls);
  }

  lemma SortedAreGroups(sorted: seq<Group>, groups: map<GroupKey, Group>, q: seq<Call>)
    requires SortedGroups(sorted) && forall g :: g in sorted <==> g.key in groups && groups[g.key] == g
    requires forall k :: k in groups ==> groups[k].key == k && IsGroup(groups[k], q)
    requires forall c :: c in q ==> KeyOf(c) in groups
    ensures AreGroups(sorted, q)
  {
    hide KeyOf, KeyLess, IsGroup, SortedGroups;
    forall i | 0 <= i < |sorted| ensures IsGroup(sorted[i], q) {
      assert sorted[i] in sorted;
    }
    forall c | c in q ensures exists i :: 0 <= i < |sorted| && sorted[i].key == KeyOf(c) {
      assert groups[KeyOf(c)] in sorted;
    }
  }

  predicate HasCounts(t: Tally) {
    forall f :: f in t.tokens && f in t.reported
  }

  function FinishGroup(k: GroupKey, t: Tally): (g: Group)
    requires HasCounts(t)
    ensures g.key == k
  {
    Group(k, t.calls, t.usageReports, CompleteTotals(t.tokens, t.reported, t.calls))
  }

  lemma TallyHasCounts(t: Tally, q: seq<Call>, s: Selection)
    requires Tallied(t, q, s)
    ensures HasCounts(t)
  {
  }

  method FinishRun(run: Tally, mismatches: nat, groups: seq<Group>, ghost calls: seq<Call>) returns (r: Report)
    requires Tallied(run, calls, Everything) && mismatches == Sum(calls, Everything, Mismatches) && AreGroups(groups, calls)
    ensures IsReport(r, calls)
  {
    CallsAreCounted(calls);
    hide Sum, AreGroups;
    r := Report(run.calls, run.usageReports, mismatches, CoverageOf(run.calls, run.usageReports),
                CompleteTotals(run.tokens, run.reported, run.calls), groups);
  }
}
