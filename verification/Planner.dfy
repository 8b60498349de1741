/** The REST and connection planner of one exchange: admit, reserve, allocate, and retry with one
    instrument or one market fewer until the plan fits. */
module Planner {
  import opened Workload
  import opened Fractions
  import opened Capacity
  import opened Intervals
  import Ordering
  import Reservation
  import Texts

  /** A REST endpoint workload that a market offers at one snapshot depth. */
  datatype Work = Work(endpoint: nat, depth: nat, cost: Fraction, jobsPerInstrument: nat)

  /** A prepared market: its selected instruments and its endpoint workloads. */
  datatype Draft = Draft(selected: seq<nat>, perConnection: nat, works: seq<Work>)

  datatype Network = Network(
    egresses: seq<Reservation.Egress>,
    quotaGroups: seq<nat>,
    budgets: map<(nat, nat), Fraction>,
    maximumNs: nat)

  ghost predicate ValidWork(w: Work) {
    w.cost.Valid() && 0 < w.cost.numerator && 0 < w.jobsPerInstrument
  }

  ghost predicate ValidDraft(catalog: Catalog, m: Market, d: Draft) {
    && 0 < d.perConnection
    && (forall i, j :: 0 <= i < j < |d.selected| ==> d.selected[i] != d.selected[j])
    && (forall k :: k in d.selected ==> (m, k) in catalog && catalog[(m, k)].candidate.key == k
                                        && 0 < catalog[(m, k)].books.requestedNs)
    && (forall w :: w in d.works ==> ValidWork(w))
  }

  ghost predicate ValidDrafts(catalog: Catalog, drafts: map<Market, Draft>) {
    forall m :: m in drafts ==> ValidDraft(catalog, m, drafts[m])
  }

  ghost predicate ValidNetwork(n: Network) {
    forall key :: key in n.budgets ==> n.budgets[key].Valid() && 0 <= n.budgets[key].numerator
  }

  // ----- Cohorts ----------------------------------------------------------------------------

  datatype Cohort = Cohort(endpoint: nat, demand: IntervalDemand)

  /** What the instruments of one cohort have in common. */
  datatype Setting = Setting(endpoint: nat, market: Market, depth: nat, requestedNs: nat, failPolicy: bool, cost: Fraction,
                             jobsPerInstrument: nat)

  function SettingOf(c: Cohort): Setting {
    Setting(c.endpoint, c.demand.market, c.demand.depth, c.demand.requestedNs, c.demand.failPolicy, c.demand.cost,
            c.demand.jobsPerInstrument)
  }

  function SettingFor(m: Market, w: Work, b: Books): Setting {
    Setting(w.endpoint, m, b.depth, b.requestedNs, b.failPolicy, w.cost, w.jobsPerInstrument)
  }

  /** Adds an instrument to the cohort of its workload and book settings, or opens that cohort. */
  function AddToCohort(cohorts: seq<Cohort>, m: Market, w: Work, b: Books, key: nat): seq<Cohort> {
    if cohorts == [] then
      [Cohort(w.endpoint, IntervalDemand(m, b.depth, [key], b.requestedNs, b.failPolicy, w.jobsPerInstrument, w.cost))]
    else if SettingOf(cohorts[0]) == SettingFor(m, w, b) then
      [cohorts[0].(demand := cohorts[0].demand.(keys := cohorts[0].demand.keys + [key]))] + cohorts[1..]
    else [cohorts[0]] + AddToCohort(cohorts[1..], m, w, b, key)
  }

  /** How often an instrument is polled under a setting. */
  function Polls(cohorts: seq<Cohort>, setting: Setting, key: nat): nat {
    if cohorts == [] then 0
    else (if SettingOf(cohorts[0]) == setting then multiset(cohorts[0].demand.keys)[key] else 0) + Polls(cohorts[1..], setting, key)
  }

  ghost predicate HasSetting(cohorts: seq<Cohort>, setting: Setting) {
    exists c :: c in cohorts && SettingOf(c) == setting
  }

  /** No setting has two cohorts, and no cohort is empty. */
  ghost predicate ProperCohorts(cohorts: seq<Cohort>) {
    && (forall i, j :: 0 <= i < j < |cohorts| ==> SettingOf(cohorts[i]) != SettingOf(cohorts[j]))
    && forall c :: c in cohorts ==> c.demand.Valid()
  }

  ghost predicate ValidCohorts(cohorts: seq<Cohort>) {
    forall c :: c in cohorts ==> c.demand.Valid()
  }

  /** The instrument is polled on the endpoint. */
  ghost predicate InCohorts(cohorts: seq<Cohort>, endpoint: nat, m: Market, key: nat) {
    exists c :: c in cohorts && c.endpoint == endpoint && c.demand.market == m && key in c.demand.keys
  }

  lemma {:induction false} AddToCohortPolls(cohorts: seq<Cohort>, m: Market, w: Work, b: Books, key: nat, setting: Setting, k: nat)
    ensures Polls(AddToCohort(cohorts, m, w, b, key), setting, k)
         == Polls(cohorts, setting, k) + if setting == SettingFor(m, w, b) && k == key then 1 else 0
  {
    var after := AddToCohort(cohorts, m, w, b, key);
    if cohorts == [] {
      assert after[1..] == [];
    } else {
      assert after == [after[0]] + after[1..];
      if SettingOf(cohorts[0]) != SettingFor(m, w, b) {
        AddToCohortPolls(cohorts[1..], m, w, b, key, setting, k);
      }
    }
  }

  lemma {:induction false} AddToCohortSettings(cohorts: seq<Cohort>, m: Market, w: Work, b: Books, key: nat, setting: Setting)
    ensures HasSetting(AddToCohort(cohorts, m, w, b, key), setting) <==> HasSetting(cohorts, setting) || setting == SettingFor(m, w, b)
  {
    var after := AddToCohort(cohorts, m, w, b, key);
    if cohorts == [] {
      assert after[0] in after;
    } else {
      assert cohorts == [cohorts[0]] + cohorts[1..] && after == [after[0]] + after[1..];
      HasSettingCons(cohorts[0], cohorts[1..], setting);
      HasSettingCons(after[0], after[1..], setting);
      if SettingOf(cohorts[0]) != SettingFor(m, w, b) {
        AddToCohortSettings(cohorts[1..], m, w, b, key, setting);
      }
    }
  }

  lemma HasSettingCons(c: Cohort, rest: seq<Cohort>, setting: Setting)
    ensures HasSetting([c] + rest, setting) <==> SettingOf(c) == setting || HasSetting(rest, setting)
  {
    assert c in [c] + rest;
  }

  lemma ProperCons(c: Cohort, rest: seq<Cohort>)
    requires ProperCohorts(rest) && c.demand.Valid() && !HasSetting(rest, SettingOf(c))
    ensures ProperCohorts([c] + rest)
  {
    forall j | 0 <= j < |rest| ensures SettingOf(rest[j]) != SettingOf(c) {
      assert rest[j] in rest;
    }
  }

  lemma ProperTail(cohorts: seq<Cohort>)
    requires ProperCohorts(cohorts) && cohorts != []
    ensures ProperCohorts(cohorts[1..]) && cohorts[0].demand.Valid() && !HasSetting(cohorts[1..], SettingOf(cohorts[0]))
  {
    assert cohorts[0] in cohorts;
  }

  lemma {:induction false} AddToCohortProper(cohorts: seq<Cohort>, m: Market, w: Work, b: Books, key: nat)
    requires ProperCohorts(cohorts) && ValidWork(w) && 0 < b.requestedNs
    ensures ProperCohorts(AddToCohort(cohorts, m, w, b, key))
  {
    if cohorts != [] {
      ProperTail(cohorts);
      if SettingOf(cohorts[0]) == SettingFor(m, w, b) {
        ProperCons(cohorts[0].(demand := cohorts[0].demand.(keys := cohorts[0].demand.keys + [key])), cohorts[1..]);
      } else {
        AddToCohortProper(cohorts[1..], m, w, b, key);
        AddToCohortSettings(cohorts[1..], m, w, b, key, SettingOf(cohorts[0]));
        ProperCons(cohorts[0], AddToCohort(cohorts[1..], m, w, b, key));
      }
    }
  }

  /** How many workloads of a market ask for an instrument with these book settings under a setting. */
  function Wanted(works: seq<Work>, m: Market, b: Books, setting: Setting): nat {
    if works == [] then 0
    else
      var last := works[|works| - 1];
      Wanted(works[..|works| - 1], m, b, setting) + if last.depth == b.depth && SettingFor(m, last, b) == setting then 1 else 0
  }

  lemma {:induction false} WantedWork(works: seq<Work>, m: Market, b: Books, setting: Setting)
    ensures 0 < Wanted(works, m, b, setting) <==> exists w :: w in works && w.depth == b.depth && SettingFor(m, w, b) == setting
  {
    if works != [] {
      WantedWork(works[..|works| - 1], m, b, setting);
      assert works == works[..|works| - 1] + [works[|works| - 1]];
    }
  }

  lemma NothingWanted(works: seq<Work>, m: Market, b: Books)
    ensures forall setting :: Wanted(works[..0], m, b, setting) == 0
  {
  }

  /** Adds one instrument to the cohorts of every matching workload. */
  method AddInstrument(cohorts: seq<Cohort>, m: Market, works: seq<Work>, b: Books, key: nat)
    returns (after: seq<Cohort>, matched: bool)
    requires ProperCohorts(cohorts) && 0 < b.requestedNs
    requires forall w :: w in works ==> ValidWork(w)
    ensures ProperCohorts(after)
    ensures matched <==> exists w :: w in works && w.depth == b.depth
    ensures forall setting, k: nat ::
              Polls(after, setting, k) == Polls(cohorts, setting, k) + if k == key then Wanted(works, m, b, setting) else 0
  {
    hide Polls, AddToCohort, ProperCohorts;
    after, matched := cohorts, false;
    NothingWanted(works, m, b);
    for i := 0 to |works|
      invariant ProperCohorts(after)
      invariant matched <==> exists w :: w in works[..i] && w.depth == b.depth
      invariant forall setting, k: nat ::
                  Polls(after, setting, k) == Polls(cohorts, setting, k) + if k == key then Wanted(works[..i], m, b, setting) else 0
    {
      assert works[..i + 1] == works[..i] + [works[i]];
      assert works[..i + 1][..i] == works[..i];
      if works[i].depth == b.depth {
        forall setting, k: nat ensures Polls(AddToCohort(after, m, works[i], b, key), setting, k)
          == Polls(after, setting, k) + if setting == SettingFor(m, works[i], b) && k == key then 1 else 0
        {
          AddToCohortPolls(after, m, works[i], b, key, setting, k);
        }
        AddToCohortProper(after, m, works[i], b, key);
        after := AddToCohort(after, m, works[i], b, key);
        matched := true;
      }
    }
    assert works[..|works|] == works;
  }

  /** The market offers an enabled snapshot of the instrument on the endpoint. */
  ghost predicate Offered(catalog: Catalog, m: Market, works: seq<Work>, k: nat, e: nat) {
    && (m, k) in catalog && catalog[(m, k)].books.enabled
    && exists w :: w in works && w.depth == catalog[(m, k)].books.depth && w.endpoint == e
  }

  /** How often a market has an instrument polled under a setting: once for every workload that asks for it. */
  function MarketPolls(catalog: Catalog, m: Market, works: seq<Work>, admitted: seq<nat>, setting: Setting, k: nat): nat {
    if k in admitted && (m, k) in catalog && catalog[(m, k)].books.enabled then Wanted(works, m, catalog[(m, k)].books, setting)
    else 0
  }

  /** The cohorts hold exactly the admitted instruments of the listed markets, each once for every workload of its
      market that offers its enabled snapshot, and with the settings of that workload. */
  ghost predicate CohortsOf(catalog: Catalog, drafts: map<Market, Draft>, admitted: map<Market, seq<nat>>,
                            markets: seq<Market>, cohorts: seq<Cohort>) {
    && ProperCohorts(cohorts)
    && forall setting, k: nat :: Polls(cohorts, setting, k)
         == if setting.market in markets && setting.market in drafts && setting.market in admitted then
              MarketPolls(catalog, setting.market, drafts[setting.market].works, admitted[setting.market], setting, k)
            else 0
  }

  lemma {:induction false} PolledUnder(cohorts: seq<Cohort>, e: nat, m: Market, k: nat)
    ensures InCohorts(cohorts, e, m, k) <==>
              exists setting: Setting :: setting.endpoint == e && setting.market == m && 0 < Polls(cohorts, setting, k)
  {
    if cohorts != [] {
      var c, rest := cohorts[0], cohorts[1..];
      PolledUnder(rest, e, m, k);
      assert cohorts == [c] + rest;
      InCohortsCons(c, rest, e, m, k);
      hide InCohorts;
      assert Polls(cohorts, SettingOf(c), k) == multiset(c.demand.keys)[k] + Polls(rest, SettingOf(c), k);
      if setting: Setting :| setting.endpoint == e && setting.market == m && 0 < Polls(rest, setting, k) {
        assert 0 < Polls(cohorts, setting, k);
      }
      if setting: Setting :| setting.endpoint == e && setting.market == m && 0 < Polls(cohorts, setting, k) {
        assert 0 < Polls(rest, setting, k) || (SettingOf(c) == setting && k in c.demand.keys);
      }
    }
  }

  lemma InCohortsCons(c: Cohort, rest: seq<Cohort>, e: nat, m: Market, k: nat)
    ensures InCohorts([c] + rest, e, m, k)
       <==> (c.endpoint == e && c.demand.market == m && k in c.demand.keys) || InCohorts(rest, e, m, k)
  {
    assert c in [c] + rest;
  }

  /** An instrument is polled on an endpoint exactly when it is admitted and its market offers it there. */
  lemma CohortsPollOffered(catalog: Catalog, drafts: map<Market, Draft>, admitted: map<Market, seq<nat>>, markets: seq<Market>,
                           cohorts: seq<Cohort>, e: nat, m: Market, k: nat)
    requires CohortsOf(catalog, drafts, admitted, markets, cohorts)
    ensures InCohorts(cohorts, e, m, k) <==>
              m in markets && m in drafts && m in admitted && k in admitted[m] && Offered(catalog, m, drafts[m].works, k, e)
  {
    hide InCohorts, Polls, Wanted, ProperCohorts;
    PolledUnder(cohorts, e, m, k);
    if InCohorts(cohorts, e, m, k) {
      var setting: Setting :| setting.endpoint == e && setting.market == m && 0 < Polls(cohorts, setting, k);
      assert 0 < MarketPolls(catalog, m, drafts[m].works, admitted[m], setting, k);
      WantedWork(drafts[m].works, m, catalog[(m, k)].books, setting);
    }
    if m in markets && m in drafts && m in admitted && k in admitted[m] && Offered(catalog, m, drafts[m].works, k, e) {
      var b := catalog[(m, k)].books;
      var w :| w in drafts[m].works && w.depth == b.depth && w.endpoint == e;
      WantedWork(drafts[m].works, m, b, SettingFor(m, w, b));
      assert 0 < Polls(cohorts, SettingFor(m, w, b), k);
    }
  }

  /** What puts an instrument into a cohort, field by field: it is admitted, its snapshots are enabled with the depth,
      interval and policy of the cohort, and its market offers a workload of that depth with the endpoint, the cost
      and the jobs of the cohort. */
  ghost predicate BelongsTo(catalog: Catalog, works: seq<Work>, admitted: seq<nat>, e: nat, d: IntervalDemand, k: nat) {
    && k in admitted && (d.market, k) in catalog
    && var b := catalog[(d.market, k)].books;
       && b.enabled && b.depth == d.depth && b.requestedNs == d.requestedNs && b.failPolicy == d.failPolicy
       && exists w :: w in works && w.endpoint == e && w.depth == d.depth && w.cost == d.cost && w.jobsPerInstrument == d.jobsPerInstrument
  }

  /** A cohort holds exactly the instruments that belong to it. */
  lemma CohortHoldsItsOwn(catalog: Catalog, drafts: map<Market, Draft>, admitted: map<Market, seq<nat>>, markets: seq<Market>,
                          cohorts: seq<Cohort>, c: Cohort, k: nat)
    requires CohortsOf(catalog, drafts, admitted, markets, cohorts) && c in cohorts
    ensures k in c.demand.keys <==>
              var m := c.demand.market;
              && m in markets && m in drafts && m in admitted
              && BelongsTo(catalog, drafts[m].works, admitted[m], c.endpoint, c.demand, k)
  {
    var m := c.demand.market;
    PollsOfCohort(cohorts, c, k);
    assert k in c.demand.keys <==> k in multiset(c.demand.keys);
    if m in drafts && (m, k) in catalog { WantedWork(drafts[m].works, m, catalog[(m, k)].books, SettingOf(c)); }
    hide Polls, Wanted, ProperCohorts;
  }

  lemma {:induction false} PollsOfCohort(cohorts: seq<Cohort>, c: Cohort, k: nat)
    requires ProperCohorts(cohorts) && c in cohorts
    ensures Polls(cohorts, SettingOf(c), k) == multiset(c.demand.keys)[k]
  {
    ProperTail(cohorts);
    assert cohorts == [cohorts[0]] + cohorts[1..];
    if c == cohorts[0] {
      NoSettingNoPolls(cohorts[1..], SettingOf(c), k);
    } else {
      assert c in cohorts[1..];
      PollsOfCohort(cohorts[1..], c, k);
    }
  }

  lemma {:induction false} NoSettingNoPolls(cohorts: seq<Cohort>, setting: Setting, k: nat)
    requires !HasSetting(cohorts, setting)
    ensures Polls(cohorts, setting, k) == 0
  {
    if cohorts != [] {
      assert cohorts[0] in cohorts;
      NoSettingNoPolls(cohorts[1..], setting, k);
    }
  }

  /** Every admitted instrument with enabled snapshots has a cohort for each workload of its depth. */
  lemma WorkHasItsCohort(catalog: Catalog, drafts: map<Market, Draft>, admitted: map<Market, seq<nat>>, markets: seq<Market>,
                         cohorts: seq<Cohort>, m: Market, k: nat, w: Work)
    requires CohortsOf(catalog, drafts, admitted, markets, cohorts)
    requires m in markets && m in drafts && m in admitted && k in admitted[m] && w in drafts[m].works
    requires (m, k) in catalog && catalog[(m, k)].books.enabled && w.depth == catalog[(m, k)].books.depth
    ensures var b := catalog[(m, k)].books;
            exists c :: c in cohorts && k in c.demand.keys && c.endpoint == w.endpoint && c.demand.market == m
                        && c.demand.depth == b.depth && c.demand.requestedNs == b.requestedNs && c.demand.failPolicy == b.failPolicy
                        && c.demand.cost == w.cost && c.demand.jobsPerInstrument == w.jobsPerInstrument
  {
    var b := catalog[(m, k)].books;
    WantedWork(drafts[m].works, m, b, SettingFor(m, w, b));
    assert 0 < Polls(cohorts, SettingFor(m, w, b), k);
    PolledHasCohort(cohorts, SettingFor(m, w, b), k);
  }

  lemma {:induction false} PolledHasCohort(cohorts: seq<Cohort>, setting: Setting, k: nat)
    requires 0 < Polls(cohorts, setting, k)
    ensures exists c :: c in cohorts && SettingOf(c) == setting && k in c.demand.keys
  {
    if SettingOf(cohorts[0]) == setting && k in cohorts[0].demand.keys {
      assert cohorts[0] in cohorts;
    } else {
      PolledHasCohort(cohorts[1..], setting, k);
    }
  }

  /** An admitted instrument has an enabled snapshot that no workload of its market matches. */
  ghost predicate WorkMissing(catalog: Catalog, m: Market, works: seq<Work>, admitted: seq<nat>) {
    exists k :: k in admitted && (m, k) in catalog && catalog[(m, k)].books.enabled
                && forall w :: w in works ==> w.depth != catalog[(m, k)].books.depth
  }

  ghost predicate NoRepeats(keys: seq<nat>) {
    forall i, j :: 0 <= i < j < |keys| ==> keys[i] != keys[j]
  }

  ghost predicate Prepared(catalog: Catalog, drafts: map<Market, Draft>, admitted: map<Market, seq<nat>>, markets: seq<Market>) {
    && ValidDrafts(catalog, drafts)
    && forall m :: m in markets ==>
         m in drafts && m in admitted && NoRepeats(admitted[m]) && forall k :: k in admitted[m] ==> k in drafts[m].selected
  }

  lemma NextIsNew(keys: seq<nat>, j: nat)
    requires NoRepeats(keys) && j < |keys|
    ensures keys[j] !in keys[..j] && keys[..j + 1] == keys[..j] + [keys[j]] && keys[j] in keys
  {
  }

  /** Adds one market's admitted instruments to the cohorts. */
  method AddMarket(catalog: Catalog, m: Market, d: Draft, admitted: seq<nat>, cohorts: seq<Cohort>)
    returns (after: seq<Cohort>, complete: bool)
    requires ProperCohorts(cohorts) && ValidDraft(catalog, m, d) && NoRepeats(admitted)
    requires forall k :: k in admitted ==> k in d.selected
    ensures complete <==> !WorkMissing(catalog, m, d.works, admitted)
    ensures complete ==> ProperCohorts(after)
    ensures complete ==>
              forall setting, k: nat ::
                Polls(after, setting, k) == Polls(cohorts, setting, k) + MarketPolls(catalog, m, d.works, admitted, setting, k)
  {
    hide Polls, Wanted, ProperCohorts, NoRepeats;
    after, complete := cohorts, true;
    for j := 0 to |admitted|
      invariant ProperCohorts(after) && !WorkMissing(catalog, m, d.works, admitted[..j])
      invariant forall setting, k: nat ::
                  Polls(after, setting, k) == Polls(cohorts, setting, k) + MarketPolls(catalog, m, d.works, admitted[..j], setting, k)
    {
      NextIsNew(admitted, j);
      var books := catalog[(m, admitted[j])].books;
      if books.enabled {
        var matched;
        after, matched := AddInstrument(after, m, d.works, books, admitted[j]);
        if !matched {
          assert WorkMissing(catalog, m, d.works, admitted);
          return after, false;
        }
      }
    }
    assert admitted[..|admitted|] == admitted;
  }

  lemma WantedByMarket(works: seq<Work>, m: Market, b: Books, setting: Setting)
    requires setting.market != m
    ensures Wanted(works, m, b, setting) == 0
  {
    WantedWork(works, m, b, setting);
  }

  lemma MarketJoins(catalog: Catalog, drafts: map<Market, Draft>, admitted: map<Market, seq<nat>>, markets: seq<Market>, m: Market,
                    cohorts: seq<Cohort>, after: seq<Cohort>)
    requires CohortsOf(catalog, drafts, admitted, markets, cohorts) && ProperCohorts(after)
    requires m !in markets && m in drafts && m in admitted
    requires forall setting, k: nat ::
               Polls(after, setting, k) == Polls(cohorts, setting, k) + MarketPolls(catalog, m, drafts[m].works, admitted[m], setting, k)
    ensures CohortsOf(catalog, drafts, admitted, markets + [m], after)
  {
    hide Polls, Wanted, ProperCohorts;
    forall setting: Setting, k: nat | setting.market != m
      ensures MarketPolls(catalog, m, drafts[m].works, admitted[m], setting, k) == 0
    {
      if (m, k) in catalog { WantedByMarket(drafts[m].works, m, catalog[(m, k)].books, setting); }
    }
    hide MarketPolls;
  }

  /** Groups the admitted instruments of all markets; a market whose enabled snapshot has no
      matching workload stops the grouping. */
  method BuildCohorts(catalog: Catalog, drafts: map<Market, Draft>, admitted: map<Market, seq<nat>>, markets: seq<Market>)
    returns (cohorts: seq<Cohort>, unmatched: Option<Market>)
    requires Prepared(catalog, drafts, admitted, markets)
    requires forall i, j :: 0 <= i < j < |markets| ==> markets[i] != markets[j]
    ensures unmatched.None? ==> CohortsOf(catalog, drafts, admitted, markets, cohorts)
    ensures unmatched.Some? ==> unmatched.value in markets
                                && WorkMissing(catalog, unmatched.value, drafts[unmatched.value].works, admitted[unmatched.value])
    ensures unmatched.None? ==> forall m :: m in markets ==> !WorkMissing(catalog, m, drafts[m].works, admitted[m])
  {
    hide WorkMissing, Polls, MarketPolls, ProperCohorts, CohortsOf, NoRepeats, ValidDraft;
    cohorts, unmatched := [], None;
    NoCohorts(catalog, drafts, admitted);
    for i := 0 to |markets|
      invariant CohortsOf(catalog, drafts, admitted, markets[..i], cohorts)
      invariant forall m :: m in markets[..i] ==> !WorkMissing(catalog, m, drafts[m].works, admitted[m])
    {
      var m := markets[i];
      assert m in markets && m !in markets[..i] && markets[..i + 1] == markets[..i] + [m];
      CohortsAreProper(catalog, drafts, admitted, markets[..i], cohorts);
      var after, complete := AddMarket(catalog, m, drafts[m], admitted[m], cohorts);
      if !complete {
        return after, Some(m);
      }
      MarketJoins(catalog, drafts, admitted, markets[..i], m, cohorts, after);
      cohorts := after;
    }
    assert markets[..|markets|] == markets;
  }

  lemma NoCohorts(catalog: Catalog, drafts: map<Market, Draft>, admitted: map<Market, seq<nat>>)
    ensures CohortsOf(catalog, drafts, admitted, [], [])
  {
  }

  lemma CohortsAreProper(catalog: Catalog, drafts: map<Market, Draft>, admitted: map<Market, seq<nat>>, markets: seq<Market>,
                         cohorts: seq<Cohort>)
    requires CohortsOf(catalog, drafts, admitted, markets, cohorts)
    ensures ProperCohorts(cohorts) && ValidCohorts(cohorts)
  {
  }

  // ----- Endpoints -----------------------------------------------------------------------------

  function InsertEndpoint(e: nat, endpoints: seq<nat>): seq<nat> {
    if endpoints == [] || e < endpoints[0] then [e] + endpoints
    else if e == endpoints[0] then endpoints
    else [endpoints[0]] + InsertEndpoint(e, endpoints[1..])
  }

  lemma {:induction false} InsertEndpointMembers(e: nat, endpoints: seq<nat>)
    ensures forall x :: x in InsertEndpoint(e, endpoints) <==> x == e || x in endpoints
  {
    if endpoints == [] || e <= endpoints[0] {
    } else {
      InsertEndpointMembers(e, endpoints[1..]);
    }
  }

  /** The endpoints in use, in name order. */
  function EndpointsOf(cohorts: seq<Cohort>): seq<nat> {
    if cohorts == [] then [] else InsertEndpoint(cohorts[0].endpoint, EndpointsOf(cohorts[1..]))
  }

  lemma {:induction false} EndpointsOfMembers(cohorts: seq<Cohort>)
    ensures forall c :: c in cohorts ==> c.endpoint in EndpointsOf(cohorts)
    ensures forall e :: e in EndpointsOf(cohorts) ==> DemandsAt(cohorts, e) != []
  {
    if cohorts != [] {
      EndpointsOfMembers(cohorts[1..]);
      InsertEndpointMembers(cohorts[0].endpoint, EndpointsOf(cohorts[1..]));
    }
  }

  ghost predicate Ascend(endpoints: seq<nat>) {
    forall i, j :: 0 <= i < j < |endpoints| ==> endpoints[i] < endpoints[j]
  }

  lemma {:induction false} InsertEndpointAscends(e: nat, endpoints: seq<nat>)
    requires Ascend(endpoints)
    ensures Ascend(InsertEndpoint(e, endpoints))
  {
    if endpoints != [] && endpoints[0] < e {
      InsertEndpointAscends(e, endpoints[1..]);
      InsertEndpointMembers(e, endpoints[1..]);
      var rest := InsertEndpoint(e, endpoints[1..]);
      forall k | 0 <= k < |rest| ensures endpoints[0] < rest[k] { assert rest[k] in rest; }
    }
  }

  lemma {:induction false} EndpointsAscend(cohorts: seq<Cohort>)
    ensures Ascend(EndpointsOf(cohorts))
  {
    if cohorts != [] {
      EndpointsAscend(cohorts[1..]);
      InsertEndpointAscends(cohorts[0].endpoint, EndpointsOf(cohorts[1..]));
    }
  }

  /** The endpoints in use that come before one of them in name order are the ones listed before it. */
  lemma EarlierEndpoints(cohorts: seq<Cohort>, i: nat)
    requires i < |EndpointsOf(cohorts)|
    ensures forall e: nat :: e < EndpointsOf(cohorts)[i] && DemandsAt(cohorts, e) != [] ==> e in EndpointsOf(cohorts)[..i]
  {
    var endpoints := EndpointsOf(cohorts);
    EndpointsAscend(cohorts);
    EndpointsOfMembers(cohorts);
    forall e: nat | e < endpoints[i] && DemandsAt(cohorts, e) != [] ensures e in endpoints[..i] {
      DemandsAtMembers(cohorts, e);
      assert DemandsAt(cohorts, e)[0] in DemandsAt(cohorts, e);
      assert e in endpoints;
    }
  }

  function DemandsAt(cohorts: seq<Cohort>, e: nat): seq<IntervalDemand> {
    if cohorts == [] then []
    else (if cohorts[0].endpoint == e then [cohorts[0].demand] else []) + DemandsAt(cohorts[1..], e)
  }

  lemma {:induction false} DemandsAtMembers(cohorts: seq<Cohort>, e: nat)
    ensures forall d :: d in DemandsAt(cohorts, e) <==> Cohort(e, d) in cohorts
  {
    if cohorts != [] { DemandsAtMembers(cohorts[1..], e); }
  }

  lemma DemandsAtValid(cohorts: seq<Cohort>, e: nat)
    requires ValidCohorts(cohorts)
    ensures ValidDemandsAt(DemandsAt(cohorts, e))
  {
    var demands := DemandsAt(cohorts, e);
    DemandsAtMembers(cohorts, e);
    forall i | 0 <= i < |demands| ensures demands[i].Valid() {
      assert demands[i] in demands;
    }
  }

  lemma PolledIsInCohorts(cohorts: seq<Cohort>, e: nat, m: Market, k: nat)
    ensures Polled(DemandsAt(cohorts, e), m, k) <==> InCohorts(cohorts, e, m, k)
  {
    var demands := DemandsAt(cohorts, e);
    DemandsAtMembers(cohorts, e);
    if Polled(demands, m, k) {
      var i :| 0 <= i < |demands| && demands[i].market == m && k in demands[i].keys;
      assert Cohort(e, demands[i]) in cohorts by { assert demands[i] in demands; }
    }
    if InCohorts(cohorts, e, m, k) {
      var c :| c in cohorts && c.endpoint == e && c.demand.market == m && k in c.demand.keys;
      assert c == Cohort(e, c.demand);
      assert c.demand in demands;
    }
  }

  lemma MarketsAreCohortMarkets(cohorts: seq<Cohort>, e: nat, m: Market)
    requires ValidCohorts(cohorts) && m in MarketsOf(DemandsAt(cohorts, e))
    ensures exists k: nat :: InCohorts(cohorts, e, m, k)
  {
    DemandsAtMembers(cohorts, e);
    var d :| d in DemandsAt(cohorts, e) && d.market == m;
    assert Cohort(e, d) in cohorts;
    assert d.keys[0] in d.keys;
    assert InCohorts(cohorts, e, m, d.keys[0]);
  }

  /** The endpoint's token rate summed over the quota groups, if every group has a budget. */
  method AvailableRate(n: Network, e: nat) returns (r: Option<Fraction>)
    requires ValidNetwork(n)
    ensures r.None? <==> exists g :: g in n.quotaGroups && (g, e) !in n.budgets
    ensures r.Some? ==> r.value.Valid() && 0 <= r.value.numerator && r.value.Value() == BudgetOf(n, n.quotaGroups, e)
  {
    var total := FromInt(0);
    for i := 0 to |n.quotaGroups|
      invariant forall g :: g in n.quotaGroups[..i] ==> (g, e) in n.budgets
      invariant total.Valid() && 0 <= total.numerator && total.Value() == BudgetOf(n, n.quotaGroups[..i], e)
    {
      var g := n.quotaGroups[i];
      assert g in n.quotaGroups;
      if (g, e) !in n.budgets {
        return None;
      }
      assert n.quotaGroups[..i + 1] == n.quotaGroups[..i] + [g];
      BudgetSnoc(n, n.quotaGroups[..i], g, e);
      SignOfValue(total);
      SignOfValue(n.budgets[(g, e)]);
      total := Add(total, n.budgets[(g, e)]);
      SignOfValue(total);
    }
    assert n.quotaGroups[..|n.quotaGroups|] == n.quotaGroups;
    r := Some(total);
  }

  ghost function BudgetOf(n: Network, groups: seq<nat>, e: nat): real
    requires ValidNetwork(n)
  {
    if groups == [] then 0.0
    else (if (groups[0], e) in n.budgets then n.budgets[(groups[0], e)].Value() else 0.0) + BudgetOf(n, groups[1..], e)
  }

  lemma {:induction false} BudgetSnoc(n: Network, groups: seq<nat>, g: nat, e: nat)
    requires ValidNetwork(n) && (g, e) in n.budgets
    ensures BudgetOf(n, groups + [g], e) == BudgetOf(n, groups, e) + n.budgets[(g, e)].Value()
  {
    if groups == [] {
      assert groups + [g] == [g];
    } else {
      BudgetSnoc(n, groups[1..], g, e);
      assert (groups + [g])[1..] == groups[1..] + [g];
    }
  }

  datatype FailureCode = EndpointWorkUnavailable | EndpointBudgetUnavailable | CapacityFailure

  datatype Allocation =
    | Allocated(cohorts: seq<Cohort>, plans: map<nat, seq<int>>)
    | Reduced(market: Market, key: nat, reason: Reason)
    | AllocationFails(code: FailureCode, markets: set<Market>)

  /** The intervals planned for one endpoint fit its token rate. */
  ghost predicate PlanFits(n: Network, cohorts: seq<Cohort>, e: nat, intervals: seq<int>)
    requires ValidNetwork(n) && ValidCohorts(cohorts)
  {
    DemandsAtValid(cohorts, e);
    exists available: Fraction ::
      && available.Valid() && available.Value() == BudgetOf(n, n.quotaGroups, e)
      && EndpointPlan(DemandsAt(cohorts, e), available, n.maximumNs, intervals)
  }

  lemma PlanFitsBy(n: Network, cohorts: seq<Cohort>, e: nat, available: Fraction, intervals: seq<int>)
    requires ValidNetwork(n) && ValidCohorts(cohorts)
    requires available.Valid() && available.Value() == BudgetOf(n, n.quotaGroups, e)
    requires ValidDemandsAt(DemandsAt(cohorts, e))
    requires EndpointPlan(DemandsAt(cohorts, e), available, n.maximumNs, intervals)
    ensures PlanFits(n, cohorts, e, intervals)
  {
    hide EndpointPlan, BudgetOf;
  }

  /** The markets polled through an endpoint are markets of the cohorts. */
  ghost predicate CohortMarkets(cohorts: seq<Cohort>, e: nat, failed: set<Market>) {
    forall m :: m in failed ==> exists k: nat :: InCohorts(cohorts, e, m, k)
  }

  ghost predicate BudgetMissing(n: Network, e: nat) {
    exists g :: g in n.quotaGroups && (g, e) !in n.budgets
  }

  /** What the demands of an endpoint come to at its available rate. */
  ghost predicate EndpointOutcome(catalog: Catalog, n: Network, cohorts: seq<Cohort>, e: nat, r: EndpointResult)
    requires ValidNetwork(n) && ValidCohorts(cohorts)
  {
    DemandsAtValid(cohorts, e);
    && !BudgetMissing(n, e)
    && exists available: Fraction ::
         && available.Valid() && available.Value() == BudgetOf(n, n.quotaGroups, e)
         && EndpointResultOf(catalog, DemandsAt(cohorts, e), available, n.maximumNs, r)
  }

  lemma EndpointOutcomeBy(catalog: Catalog, n: Network, cohorts: seq<Cohort>, e: nat, available: Fraction, r: EndpointResult)
    requires ValidNetwork(n) && ValidCohorts(cohorts) && !BudgetMissing(n, e)
    requires available.Valid() && available.Value() == BudgetOf(n, n.quotaGroups, e)
    requires ValidDemandsAt(DemandsAt(cohorts, e))
    requires EndpointResultOf(catalog, DemandsAt(cohorts, e), available, n.maximumNs, r)
    ensures EndpointOutcome(catalog, n, cohorts, e, r)
  {
    hide EndpointResultOf, BudgetOf;
  }

  /** What gives way belongs to the cohorts of the endpoint. */
  ghost predicate WithinCohorts(catalog: Catalog, cohorts: seq<Cohort>, e: nat, r: EndpointResult) {
    && (r.ReduceRest? ==> InCohorts(cohorts, e, r.market, r.key) && Evictable(catalog, r.market, r.key))
    && (r.EndpointFails? ==> r.markets != {} && CohortMarkets(cohorts, e, r.markets))
  }

  lemma WithinDemands(catalog: Catalog, cohorts: seq<Cohort>, e: nat, r: EndpointResult)
    requires ValidCohorts(cohorts) && Within(catalog, DemandsAt(cohorts, e), r)
    ensures WithinCohorts(catalog, cohorts, e, r)
  {
    if r.ReduceRest? { PolledIsInCohorts(cohorts, e, r.market, r.key); }
    if r.EndpointFails? {
      forall m | m in r.markets ensures exists k: nat :: InCohorts(cohorts, e, m, k) {
        MarketsAreCohortMarkets(cohorts, e, m);
      }
    }
  }

  lemma AllMarketsPolled(cohorts: seq<Cohort>, e: nat)
    requires ValidCohorts(cohorts) && DemandsAt(cohorts, e) != []
    ensures MarketsOf(DemandsAt(cohorts, e)) != {} && CohortMarkets(cohorts, e, MarketsOf(DemandsAt(cohorts, e)))
  {
    assert DemandsAt(cohorts, e)[0].market in MarketsOf(DemandsAt(cohorts, e));
    forall m | m in MarketsOf(DemandsAt(cohorts, e)) ensures exists k: nat :: InCohorts(cohorts, e, m, k) {
      MarketsAreCohortMarkets(cohorts, e, m);
    }
  }

  /** The budget of one endpoint and the intervals of its demands; nothing when a quota group has no budget. */
  method PlanEndpoint(catalog: Catalog, cohorts: seq<Cohort>, e: nat, n: Network) returns (planned: Option<EndpointResult>)
    requires ValidCohorts(cohorts) && ValidNetwork(n) && DemandsAt(cohorts, e) != []
    ensures planned.None? <==> BudgetMissing(n, e)
    ensures planned.Some? ==> EndpointOutcome(catalog, n, cohorts, e, planned.value)
                              && WithinCohorts(catalog, cohorts, e, planned.value)
    ensures planned.Some? && planned.value.Intervals? ==> PlanFits(n, cohorts, e, planned.value.effective)
  {
    hide PlanFits, EndpointPlan, EndpointOutcome, EndpointResultOf, Within, WithinCohorts, BudgetOf;
    var demands := DemandsAt(cohorts, e);
    DemandsAtValid(cohorts, e);
    var available := AvailableRate(n, e);
    if available.None? {
      return None;
    }
    var r := AllocateEndpoint(catalog, demands, available.value, n.maximumNs);
    WithinDemands(catalog, cohorts, e, r);
    EndpointOutcomeBy(catalog, n, cohorts, e, available.value, r);
    if r.Intervals? { PlanFitsBy(n, cohorts, e, available.value, r.effective); }
    planned := Some(r);
  }

  /** Every endpoint in use that comes before this one in name order is planned. */
  ghost predicate EarlierPlanned(catalog: Catalog, n: Network, cohorts: seq<Cohort>, e: nat)
    requires ValidNetwork(n) && ValidCohorts(cohorts)
  {
    forall e': nat :: e' < e && DemandsAt(cohorts, e') != [] ==> EndpointPlanned(catalog, n, cohorts, e')
  }

  ghost predicate EndpointPlanned(catalog: Catalog, n: Network, cohorts: seq<Cohort>, e: nat)
    requires ValidNetwork(n) && ValidCohorts(cohorts)
  {
    exists intervals :: EndpointOutcome(catalog, n, cohorts, e, Intervals(intervals))
  }

  /** Why the allocation fails markets: one offers no workload for an admitted instrument or, at the first endpoint
      that cannot be planned, some quota group has no budget and these are the markets it polls, or the demands
      do not fit, nothing may give way, and these are the markets whose demands fail. */
  ghost predicate AllocationGround(catalog: Catalog, drafts: map<Market, Draft>, admitted: map<Market, seq<nat>>,
                                   markets: seq<Market>, n: Network, dropped: set<Market>, code: FailureCode)
    requires ValidNetwork(n)
  {
    match code
    case EndpointWorkUnavailable =>
      exists m :: dropped == {m} && m in markets && m in drafts && m in admitted && WorkMissing(catalog, m, drafts[m].works, admitted[m])
    case EndpointBudgetUnavailable =>
      exists cohorts, e: nat ::
        CohortsOf(catalog, drafts, admitted, markets, cohorts) && EarlierPlanned(catalog, n, cohorts, e)
        && BudgetMissing(n, e) && dropped == MarketsOf(DemandsAt(cohorts, e))
    case CapacityFailure =>
      exists cohorts, e: nat ::
        CohortsOf(catalog, drafts, admitted, markets, cohorts) && EarlierPlanned(catalog, n, cohorts, e)
        && EndpointOutcome(catalog, n, cohorts, e, EndpointFails(dropped))
  }

  /** Why the allocation rejects an instrument: it gives way first among the demands of the first endpoint where
      they do not fit. */
  ghost predicate ReductionGround(catalog: Catalog, drafts: map<Market, Draft>, admitted: map<Market, seq<nat>>,
                                  markets: seq<Market>, n: Network, m: Market, k: nat, reason: Reason)
    requires ValidNetwork(n)
  {
    exists cohorts, e: nat ::
      CohortsOf(catalog, drafts, admitted, markets, cohorts) && EarlierPlanned(catalog, n, cohorts, e)
      && EndpointOutcome(catalog, n, cohorts, e, ReduceRest(m, k, reason))
  }

  lemma PlannedBy(catalog: Catalog, n: Network, cohorts: seq<Cohort>, e: nat, intervals: seq<int>)
    requires ValidNetwork(n) && ValidCohorts(cohorts) && EndpointOutcome(catalog, n, cohorts, e, Intervals(intervals))
    ensures EndpointPlanned(catalog, n, cohorts, e)
  {
    hide EndpointOutcome;
  }

  lemma CohortMembers(catalog: Catalog, drafts: map<Market, Draft>, admitted: map<Market, seq<nat>>, markets: seq<Market>,
                      cohorts: seq<Cohort>, e: nat, m: Market, k: nat)
    requires CohortsOf(catalog, drafts, admitted, markets, cohorts) && InCohorts(cohorts, e, m, k)
    ensures m in markets && m in admitted && k in admitted[m]
  {
    hide CohortsOf, InCohorts;
    CohortsPollOffered(catalog, drafts, admitted, markets, cohorts, e, m, k);
  }

  lemma FailedMarketsPlanned(catalog: Catalog, drafts: map<Market, Draft>, admitted: map<Market, seq<nat>>, markets: seq<Market>,
                             cohorts: seq<Cohort>, e: nat, failed: set<Market>)
    requires CohortsOf(catalog, drafts, admitted, markets, cohorts) && CohortMarkets(cohorts, e, failed)
    ensures forall m :: m in failed ==> m in markets
  {
    hide InCohorts, CohortsOf;
    forall m | m in failed ensures m in markets {
      var k: nat :| InCohorts(cohorts, e, m, k);
      CohortMembers(catalog, drafts, admitted, markets, cohorts, e, m, k);
    }
  }

  /** Plans every endpoint in use. */
  method AllocateIntervals(catalog: Catalog, drafts: map<Market, Draft>, admitted: map<Market, seq<nat>>,
                           markets: seq<Market>, n: Network)
    returns (r: Allocation)
    requires Prepared(catalog, drafts, admitted, markets) && ValidNetwork(n)
    requires forall i, j :: 0 <= i < j < |markets| ==> markets[i] != markets[j]
    ensures r.Allocated? ==>
      && CohortsOf(catalog, drafts, admitted, markets, r.cohorts)
      && (forall c :: c in r.cohorts ==> c.endpoint in r.plans)
      && (forall e :: e in r.plans ==> PlanFits(n, r.cohorts, e, r.plans[e]))
    ensures r.Reduced? ==>
      && r.market in markets && r.key in admitted[r.market] && Evictable(catalog, r.market, r.key)
      && ReductionGround(catalog, drafts, admitted, markets, n, r.market, r.key, r.reason)
    ensures r.AllocationFails? ==>
      && r.markets != {}
      && (forall m :: m in r.markets ==> m in markets)
      && AllocationGround(catalog, drafts, admitted, markets, n, r.markets, r.code)
  {
    hide PlanFits, Evictable, InCohorts, DemandsAt, EndpointsOf, EndpointOutcome, BudgetMissing, CohortMarkets, EndpointPlanned;
    var cohorts, unmatched := BuildCohorts(catalog, drafts, admitted, markets);
    if unmatched.Some? {
      assert unmatched.value in {unmatched.value};
      return AllocationFails(EndpointWorkUnavailable, {unmatched.value});
    }
    hide CohortsOf, WorkMissing, Offered;
    CohortsAreProper(catalog, drafts, admitted, markets, cohorts);
    hide ValidCohorts;
    var endpoints := EndpointsOf(cohorts);
    EndpointsOfMembers(cohorts);
    var plans: map<nat, seq<int>> := map[];
    for i := 0 to |endpoints|
      invariant forall e :: e in endpoints[..i] ==> e in plans
      invariant forall e :: e in plans ==> PlanFits(n, cohorts, e, plans[e])
      invariant forall e :: e in endpoints[..i] ==> EndpointPlanned(catalog, n, cohorts, e)
    {
      var e := endpoints[i];
      assert e in endpoints;
      EarlierEndpoints(cohorts, i);
      assert EarlierPlanned(catalog, n, cohorts, e);
      var planned := PlanEndpoint(catalog, cohorts, e, n);
      if planned.None? {
        AllMarketsPolled(cohorts, e);
        var failed := MarketsOf(DemandsAt(cohorts, e));
        FailedMarketsPlanned(catalog, drafts, admitted, markets, cohorts, e, failed);
        return AllocationFails(EndpointBudgetUnavailable, failed);
      }
      match planned.value {
        case ReduceRest(m, k, reason) =>
          CohortMembers(catalog, drafts, admitted, markets, cohorts, e, m, k);
          return Reduced(m, k, reason);
        case EndpointFails(failed) =>
          FailedMarketsPlanned(catalog, drafts, admitted, markets, cohorts, e, failed);
          return AllocationFails(CapacityFailure, failed);
        case Intervals(effective) =>
          PlannedBy(catalog, n, cohorts, e, effective);
          plans := plans[e := effective];
      }
    }
    assert endpoints[..|endpoints|] == endpoints;
    r := Allocated(cohorts, plans);
  }

  // ----- The retry loop ---------------------------------------------------------------------

  /** The markets in scope order, which is the order of their names. */
  function InOrder(active: set<Market>): (markets: seq<Market>)
    ensures forall m :: m in markets <==> m in active
    ensures forall i, j :: 0 <= i < j < |markets| ==> markets[i] != markets[j]
  {
    var perpetual := if Perpetual in active then [Perpetual] else [];
    var markets := perpetual + (if Spot in active then [Spot] else []);
    assert forall m :: m in perpetual <==> m == Perpetual && Perpetual in active;
    markets
  }

  lemma MarketsInNameOrder(active: set<Market>, i: nat, j: nat)
    requires i < j < |InOrder(active)|
    ensures Texts.MarketText(InOrder(active)[i])[0] < Texts.MarketText(InOrder(active)[j])[0]
  {
  }

  type Rejections = map<(Market, nat), Reason>

  /** The candidates of a market that are not REST-rejected. */
  function Remaining(catalog: Catalog, m: Market, selected: seq<nat>, rejections: Rejections): seq<Candidate>
    requires forall k :: k in selected ==> (m, k) in catalog
  {
    if selected == [] then []
    else (if (m, selected[0]) in rejections then [] else [catalog[(m, selected[0])].candidate])
         + Remaining(catalog, m, selected[1..], rejections)
  }

  lemma {:induction false} RemainingFacts(catalog: Catalog, m: Market, selected: seq<nat>, rejections: Rejections)
    requires forall k :: k in selected ==> (m, k) in catalog && catalog[(m, k)].candidate.key == k
    requires forall i, j :: 0 <= i < j < |selected| ==> selected[i] != selected[j]
    ensures DistinctKeys(Remaining(catalog, m, selected, rejections))
    ensures forall c :: c in Remaining(catalog, m, selected, rejections) <==>
              c.key in selected && (m, c.key) !in rejections && c == catalog[(m, c.key)].candidate
  {
    if selected != [] {
      RemainingFacts(catalog, m, selected[1..], rejections);
      var rest := Remaining(catalog, m, selected[1..], rejections);
      assert forall k :: k in selected[1..] ==> k != selected[0];
      forall i | 0 <= i < |rest| ensures rest[i].key != selected[0] {
        assert rest[i] in rest;
      }
    }
  }

  function KeysOf(candidates: seq<Candidate>): (keys: seq<nat>)
    ensures |keys| == |candidates|
  {
    if candidates == [] then [] else [candidates[0].key] + KeysOf(candidates[1..])
  }

  lemma {:induction false} KeysOfMembers(candidates: seq<Candidate>)
    ensures forall k :: k in KeysOf(candidates) <==> exists c :: c in candidates && c.key == k
  {
    if candidates != [] { KeysOfMembers(candidates[1..]); }
  }

  function FailKeys(catalog: Catalog, m: Market, selected: seq<nat>): set<nat>
    requires forall k :: k in selected ==> (m, k) in catalog
  {
    set k | k in selected && catalog[(m, k)].capacityFail
  }

  function DemandOf(catalog: Catalog, m: Market, d: Draft, rejections: Rejections): Demand
    requires forall k :: k in d.selected ==> (m, k) in catalog
  {
    Demand(m, Remaining(catalog, m, d.selected, rejections), d.perConnection, FailKeys(catalog, m, d.selected))
  }

  function DemandsOf(catalog: Catalog, drafts: map<Market, Draft>, markets: seq<Market>, rejections: Rejections): (r: seq<Demand>)
    requires forall m :: m in markets ==> m in drafts && forall k :: k in drafts[m].selected ==> (m, k) in catalog
    ensures |r| == |markets|
    ensures forall i :: 0 <= i < |markets| ==> r[i] == DemandOf(catalog, markets[i], drafts[markets[i]], rejections)
  {
    if markets == [] then []
    else
      assert markets[0] in markets;
      [DemandOf(catalog, markets[0], drafts[markets[0]], rejections)] + DemandsOf(catalog, drafts, markets[1..], rejections)
  }

  lemma DemandsOfValid(catalog: Catalog, drafts: map<Market, Draft>, markets: seq<Market>, rejections: Rejections)
    requires ValidDrafts(catalog, drafts) && forall m :: m in markets ==> m in drafts
    requires forall i, j :: 0 <= i < j < |markets| ==> markets[i] != markets[j]
    ensures ValidDemands(DemandsOf(catalog, drafts, markets, rejections))
  {
    var demands := DemandsOf(catalog, drafts, markets, rejections);
    forall i | 0 <= i < |demands| ensures 0 < demands[i].perConnection && DistinctKeys(demands[i].candidates) {
      assert markets[i] in markets;
      RemainingFacts(catalog, markets[i], drafts[markets[i]].selected, rejections);
    }
  }

  /** What the active markets ask for, in scope order. */
  function ActiveDemands(catalog: Catalog, drafts: map<Market, Draft>, active: set<Market>, rejections: Rejections): (r: seq<Demand>)
    requires ValidDrafts(catalog, drafts) && active <= drafts.Keys
    ensures |r| == |InOrder(active)| && ValidDemands(r)
    ensures forall i :: 0 <= i < |r| ==>
              InOrder(active)[i] in drafts && ValidDraft(catalog, InOrder(active)[i], drafts[InOrder(active)[i]])
              && r[i] == DemandOf(catalog, InOrder(active)[i], drafts[InOrder(active)[i]], rejections)
  {
    DemandsOfValid(catalog, drafts, InOrder(active), rejections);
    assert forall i :: 0 <= i < |InOrder(active)| ==> InOrder(active)[i] in InOrder(active);
    DemandsOf(catalog, drafts, InOrder(active), rejections)
  }

  /** The state of one market in a finished plan. */
  datatype MarketReport = MarketReport(admitted: seq<nat>, capacityRejected: seq<nat>, slots: seq<Reservation.Slot>)

  /** Every selected instrument is in exactly one of the three states, and only instruments that
      are neither fixed nor under a fail policy are ever turned away. */
  ghost predicate Accounted(catalog: Catalog, m: Market, selected: seq<nat>, report: MarketReport, rejections: Rejections) {
    forall k: nat ::
      && (k in selected ==>
            || (k in report.admitted && k !in report.capacityRejected && (m, k) !in rejections)
            || (k !in report.admitted && k in report.capacityRejected && (m, k) !in rejections && Evictable(catalog, m, k))
            || (k !in report.admitted && k !in report.capacityRejected && (m, k) in rejections && Evictable(catalog, m, k)))
      && (k in report.admitted || k in report.capacityRejected || (m, k) in rejections ==> k in selected)
  }

  /** Accounting turns away no fixed instrument and none under a fail policy, and admits none that was turned away. */
  lemma AccountedMeans(catalog: Catalog, m: Market, selected: seq<nat>, report: MarketReport, rejections: Rejections, k: nat)
    requires Accounted(catalog, m, selected, report, rejections) && k in selected
    ensures (if k in report.admitted then 1 else 0) + (if k in report.capacityRejected then 1 else 0)
            + (if (m, k) in rejections then 1 else 0) == 1
    ensures k !in report.admitted ==>
              (m, k) in catalog && catalog[(m, k)].candidate.priority != Fixed && !catalog[(m, k)].capacityFail
  {
  }

  /** An admission of the remaining candidates accounts for every selected instrument. */
  lemma AdmissionAccounts(catalog: Catalog, m: Market, d: Draft, rejections: Rejections, connections: nat,
                          a: Admission, slots: seq<Reservation.Slot>)
    requires ValidDraft(catalog, m, d)
    requires MarketAdmitted(DemandOf(catalog, m, d, rejections), connections, a)
    requires forall k :: (m, k) in rejections ==> k in d.selected && Evictable(catalog, m, k)
    ensures Accounted(catalog, m, d.selected, MarketReport(KeysOf(a.admitted), KeysOf(a.rejected), slots), rejections)
  {
    RemainingFacts(catalog, m, d.selected, rejections);
    AdmissionCovers(DemandOf(catalog, m, d, rejections).candidates, connections * d.perConnection, a);
    KeysOfMembers(a.admitted);
    KeysOfMembers(a.rejected);
    var candidates := Remaining(catalog, m, d.selected, rejections);
    forall k: nat | k in d.selected && (m, k) !in rejections
      ensures k in KeysOf(a.admitted) || (k in KeysOf(a.rejected) && Evictable(catalog, m, k))
    {
      var c := catalog[(m, k)].candidate;
      assert c in candidates;
      assert c in a.admitted || c in a.rejected;
    }
    forall k: nat | k in KeysOf(a.rejected) ensures k !in KeysOf(a.admitted) && k in d.selected && (m, k) !in rejections {
      var c :| c in a.rejected && c.key == k;
      assert c in candidates;
    }
    forall k: nat | k in KeysOf(a.admitted) ensures k in d.selected && (m, k) !in rejections {
      var c :| c in a.admitted && c.key == k;
      assert c in candidates;
    }
  }

  /** The (market, instrument) pairs that can still be REST-rejected. */
  ghost function Pairs(drafts: map<Market, Draft>, active: set<Market>): set<(Market, nat)>
    requires active <= drafts.Keys
  {
    set m, k | m in active && k in drafts[m].selected :: (m, k)
  }

  datatype Composition = Composition(
    reports: map<Market, MarketReport>,
    rejections: Rejections,
    cohorts: seq<Cohort>,
    plans: map<nat, seq<int>>,
    failures: seq<(Market, FailureCode)>)

  lemma AdmittedFit(d: Demand, connections: nat, a: Admission)
    requires MarketAdmitted(d, connections, a)
    ensures |KeysOf(a.admitted)| <= connections * d.perConnection
  {
    KeysOfMembers(a.admitted);
  }

  lemma KeyAt(candidates: seq<Candidate>, i: nat)
    requires i < |candidates|
    ensures KeysOf(candidates)[i] == candidates[i].key
  {
    if i > 0 { KeyAt(candidates[1..], i - 1); }
  }

  /** No instrument is admitted twice. */
  lemma AdmittedOnce(d: Demand, connections: nat, a: Admission)
    requires DistinctKeys(d.candidates) && MarketAdmitted(d, connections, a)
    ensures NoRepeats(KeysOf(a.admitted))
  {
    forall i, j | 0 <= i < j < |KeysOf(a.admitted)| ensures KeysOf(a.admitted)[i] != KeysOf(a.admitted)[j] {
      KeyAt(a.admitted, i);
      KeyAt(a.admitted, j);
      var c, c' := a.admitted[i], a.admitted[j];
      DistinctOnce(d.candidates, c);
      AdmissionCovers(d.candidates, connections * d.perConnection, a);
      assert c in a.admitted && c' in a.admitted;
      if c == c' { AppearsTwice(a.admitted, i, j); }
    }
  }

  lemma AppearsTwice(s: seq<Candidate>, i: nat, j: nat)
    requires i < j < |s| && s[i] == s[j]
    ensures multiset(s)[s[i]] >= 2
  {
    assert s == s[..j] + s[j..];
    assert s[i] in s[..j] && s[i] in s[j..];
  }

  /** The report accounts for every selected instrument, its connections carry the admitted ones, and
      exactly those that do not fit are turned away, in eviction order. */
  ghost predicate ReportFits(catalog: Catalog, m: Market, d: Draft, report: MarketReport, rejections: Rejections)
    requires ValidDraft(catalog, m, d)
  {
    && Accounted(catalog, m, d.selected, report, rejections)
    && NoRepeats(report.admitted) && |report.admitted| <= |report.slots| * d.perConnection
    && report.capacityRejected ==
         KeysOf(Evicted(Remaining(catalog, m, d.selected, rejections), |report.slots| * d.perConnection))
  }

  lemma ReportFitsOne(catalog: Catalog, m: Market, d: Draft, rejections: Rejections, connections: nat,
                      a: Admission, slots: seq<Reservation.Slot>)
    requires ValidDraft(catalog, m, d) && |slots| == connections
    requires MarketAdmitted(DemandOf(catalog, m, d, rejections), connections, a)
    requires forall k :: (m, k) in rejections ==> k in d.selected && Evictable(catalog, m, k)
    ensures ReportFits(catalog, m, d, MarketReport(KeysOf(a.admitted), KeysOf(a.rejected), slots), rejections)
  {
    AdmissionAccounts(catalog, m, d, rejections, connections, a, slots);
    AdmittedFit(DemandOf(catalog, m, d, rejections), connections, a);
    RemainingFacts(catalog, m, d.selected, rejections);
    AdmittedOnce(DemandOf(catalog, m, d, rejections), connections, a);
  }

  /** Only evictable instruments of active markets are rejected. */
  ghost predicate Rejectable(catalog: Catalog, drafts: map<Market, Draft>, active: set<Market>, rejections: Rejections)
    requires active <= drafts.Keys
  {
    forall m, k :: (m, k) in rejections ==> m in active && k in drafts[m].selected && Evictable(catalog, m, k)
  }

  /** The reports of the admitted markets. */
  method BuildReports(catalog: Catalog, drafts: map<Market, Draft>, markets: seq<Market>, rejections: Rejections,
                      e: ExchangeAdmission, slots: seq<seq<Reservation.Slot>>)
    returns (reports: map<Market, MarketReport>)
    requires ValidDrafts(catalog, drafts) && forall m :: m in markets ==> m in drafts
    requires forall i, j :: 0 <= i < j < |markets| ==> markets[i] != markets[j]
    requires |e.connections| == |markets| && |e.admissions| == |markets| && |slots| == |markets|
    requires forall i :: 0 <= i < |markets| ==>
               && MarketAdmitted(DemandOf(catalog, markets[i], drafts[markets[i]], rejections), e.connections[i], e.admissions[i])
               && |slots[i]| == e.connections[i]
    requires forall m, k :: (m, k) in rejections && m in markets ==> k in drafts[m].selected && Evictable(catalog, m, k)
    ensures forall m :: m in reports <==> m in markets
    ensures forall m :: m in reports ==> ReportFits(catalog, m, drafts[m], reports[m], rejections)
    ensures forall i :: 0 <= i < |markets| ==> markets[i] in reports && reports[markets[i]].slots == slots[i]
  {
    hide ReportFits, MarketAdmitted, KeysOf, Evictable, ValidDraft, DemandOf;
    reports := map[];
    for i := 0 to |markets|
      invariant forall m :: m in reports <==> m in markets[..i]
      invariant forall m :: m in reports ==> ReportFits(catalog, m, drafts[m], reports[m], rejections)
      invariant forall j :: 0 <= j < i ==> markets[j] in reports && reports[markets[j]].slots == slots[j]
    {
      var m, a := markets[i], e.admissions[i];
      assert m in markets && markets[..i + 1] == markets[..i] + [m];
      ReportFitsOne(catalog, m, drafts[m], rejections, e.connections[i], a, slots[i]);
      reports := reports[m := MarketReport(KeysOf(a.admitted), KeysOf(a.rejected), slots[i])];
    }
    assert markets[..|markets|] == markets;
  }

  // ----- What one attempt comes to ------------------------------------------------------------

  /** The connections of the reports, market after market. */
  ghost function SlotLists(markets: seq<Market>, reports: map<Market, MarketReport>): (lists: seq<seq<Reservation.Slot>>)
    requires forall m :: m in markets ==> m in reports
    ensures |lists| == |markets| && forall i :: 0 <= i < |markets| ==> lists[i] == reports[markets[i]].slots
  {
    seq(|markets|, i requires 0 <= i < |markets| => assert markets[i] in markets; reports[markets[i]].slots)
  }

  ghost function Lengths(lists: seq<seq<Reservation.Slot>>): (lengths: seq<nat>)
    ensures |lengths| == |lists| && forall i :: 0 <= i < |lists| ==> lengths[i] == |lists[i]|
  {
    seq(|lists|, i requires 0 <= i < |lists| => |lists[i]|)
  }

  function AdmittedOf(reports: map<Market, MarketReport>): map<Market, seq<nat>> {
    map m | m in reports :: reports[m].admitted
  }

  /** The reports of the active markets: each accounts for its instruments, the connections are shared by
      rank, and no physical connection is granted twice. */
  ghost predicate ReportsOf(catalog: Catalog, drafts: map<Market, Draft>, n: Network, active: set<Market>,
                            rejections: Rejections, reports: map<Market, MarketReport>)
    requires ValidDrafts(catalog, drafts) && active <= drafts.Keys
  {
    var markets := InOrder(active);
    && reports.Keys == active
    && (forall m :: m in active ==> ReportFits(catalog, m, drafts[m], reports[m], rejections))
    && Ordering.Flatten(SlotLists(markets, reports)) <= Reservation.AllSlots(n.egresses)
    && SharesOf(ActiveDemands(catalog, drafts, active, rejections), Sum(Reservation.Limits(n.egresses)),
                Lengths(SlotLists(markets, reports)))
  }

  /** The connections cannot carry the active markets because of this one. */
  ghost predicate ScopeGround(catalog: Catalog, drafts: map<Market, Draft>, n: Network, active: set<Market>,
                              rejections: Rejections, m: Market)
    requires ValidDrafts(catalog, drafts) && active <= drafts.Keys
  {
    exists k: nat ::
      && k < |InOrder(active)| && InOrder(active)[k] == m
      && ScopeFailsAt(ActiveDemands(catalog, drafts, active, rejections), Sum(Reservation.Limits(n.egresses)), k)
  }

  /** A share turns away a fail-policy candidate exactly when one of the market's instruments that is under a fail
      policy and not rejected is among the first to go at that share. */
  lemma RefusesFailPolicyMeans(catalog: Catalog, m: Market, d: Draft, rejections: Rejections, share: nat)
    requires ValidDraft(catalog, m, d)
    ensures RefusesFailPolicy(DemandOf(catalog, m, d, rejections), share) <==>
              exists key :: && key in d.selected && (m, key) !in rejections && catalog[(m, key)].capacityFail
                            && catalog[(m, key)].candidate in Evicted(Remaining(catalog, m, d.selected, rejections), share * d.perConnection)
  {
    var demand := DemandOf(catalog, m, d, rejections);
    EvictedAreCandidates(demand.candidates, share * d.perConnection);
    RemainingOf(catalog, m, d, rejections);
    hide Evicted, Remaining;
    if key :| && key in d.selected && (m, key) !in rejections && catalog[(m, key)].capacityFail
              && catalog[(m, key)].candidate in Evicted(Remaining(catalog, m, d.selected, rejections), share * d.perConnection) {
      assert key in demand.failKeys && catalog[(m, key)].candidate.key == key;
    }
  }

  lemma RemainingOf(catalog: Catalog, m: Market, d: Draft, rejections: Rejections)
    requires ValidDraft(catalog, m, d)
    ensures forall c :: c in Remaining(catalog, m, d.selected, rejections) <==>
              c.key in d.selected && (m, c.key) !in rejections && c == catalog[(m, c.key)].candidate
  {
    RemainingFacts(catalog, m, d.selected, rejections);
  }

  lemma EvictedAreCandidates(candidates: seq<Candidate>, slots: nat)
    ensures forall c :: c in Evicted(candidates, slots) ==> c in candidates
  {
    SortByIsSorted(ByEviction, NotFixed(candidates));
    SameMembers(SortBy(ByEviction, NotFixed(candidates)), NotFixed(candidates));
    NotFixedFacts(candidates);
  }

  /** A market needs connections for fixed candidates exactly when it has a fixed instrument that is not rejected. */
  lemma FixedNeedMeans(catalog: Catalog, m: Market, d: Draft, rejections: Rejections)
    requires ValidDraft(catalog, m, d)
    ensures 0 < FixedNeed(DemandOf(catalog, m, d, rejections)) <==>
              exists key :: key in d.selected && (m, key) !in rejections && catalog[(m, key)].candidate.priority == Fixed
  {
    var demand := DemandOf(catalog, m, d, rejections);
    RemainingOf(catalog, m, d, rejections);
    NoFixedNoCount(demand.candidates);
    FixedWithinNeed(demand);
    FixedNeedFits(demand, if FixedCount(demand.candidates) == 0 then 0 else FixedNeed(demand));
    if key :| key in d.selected && (m, key) !in rejections && catalog[(m, key)].candidate.priority == Fixed {
      assert catalog[(m, key)].candidate in demand.candidates;
    }
  }

  lemma {:induction false} NoFixedNoCount(candidates: seq<Candidate>)
    ensures 0 < FixedCount(candidates) <==> exists c :: c in candidates && c.priority == Fixed
  {
    if candidates != [] {
      NoFixedNoCount(candidates[1..]);
      assert candidates == [candidates[0]] + candidates[1..];
    }
  }

  /** A plan of the active markets. Its cohorts poll exactly the admitted instruments of these markets, and
      every endpoint in use has intervals inside its budget. */
  ghost predicate PlanComplete(catalog: Catalog, drafts: map<Market, Draft>, n: Network, active: set<Market>,
                               rejections: Rejections, reports: map<Market, MarketReport>,
                               cohorts: seq<Cohort>, plans: map<nat, seq<int>>)
    requires ValidNetwork(n) && active <= drafts.Keys && ValidDrafts(catalog, drafts)
  {
    && ReportsOf(catalog, drafts, n, active, rejections, reports)
    && CohortsOf(catalog, drafts, AdmittedOf(reports), InOrder(active), cohorts)
    && (forall c :: c in cohorts ==> c.endpoint in plans)
    && (forall e :: e in plans ==> PlanFits(n, cohorts, e, plans[e]))
  }

  /** In a plan, two shards never share a physical connection, whether of one market or of two. */
  lemma PlanShardsDisjoint(catalog: Catalog, drafts: map<Market, Draft>, n: Network, active: set<Market>, rejections: Rejections,
                           reports: map<Market, MarketReport>, m: Market, m': Market,
                           a: Reservation.PackedShard, b: Reservation.PackedShard)
    requires ValidDrafts(catalog, drafts) && active <= drafts.Keys
    requires ReportsOf(catalog, drafts, n, active, rejections, reports)
    requires m in active && m' in active && (m, a) != (m', b)
    requires a.index < |Reservation.PhysicalIndices(reports[m].slots, a.egress)|
    requires b.index < |Reservation.PhysicalIndices(reports[m'].slots, b.egress)|
    ensures Reservation.ReportSlot(reports[m].slots, a) != Reservation.ReportSlot(reports[m'].slots, b)
  {
    hide ReportFits, SharesOf;
    var markets := InOrder(active);
    var i :| 0 <= i < |markets| && markets[i] == m;
    var j :| 0 <= j < |markets| && markets[j] == m';
    var lists := SlotLists(markets, reports);
    Reservation.ReportShardsDisjoint(n.egresses, |Ordering.Flatten(lists)|, lists, i, j, a, b);
  }

  lemma AdmissionParts(demands: seq<Demand>, available: nat, e: ExchangeAdmission)
    requires ValidDemands(demands) && ExchangeAdmissionOf(demands, available, e)
    ensures |e.connections| == |demands| == |e.admissions| && SharesOf(demands, available, e.connections)
    ensures Sum(e.connections) <= available
    ensures forall k :: 0 <= k < |demands| ==> MarketAdmitted(demands[k], e.connections[k], e.admissions[k])
  {
    hide SharesOf, MarketAdmitted, Sum, ValidDemands;
  }

  lemma ReportsTogether(catalog: Catalog, drafts: map<Market, Draft>, n: Network, active: set<Market>, rejections: Rejections,
                        reports: map<Market, MarketReport>, connections: seq<nat>, slots: seq<seq<Reservation.Slot>>)
    requires ValidDrafts(catalog, drafts) && active <= drafts.Keys && reports.Keys == active
    requires forall m :: m in active ==> ReportFits(catalog, m, drafts[m], reports[m], rejections)
    requires |slots| == |connections| == |InOrder(active)|
    requires forall i :: 0 <= i < |slots| ==> |slots[i]| == connections[i] && reports[InOrder(active)[i]].slots == slots[i]
    requires Ordering.Flatten(slots) <= Reservation.AllSlots(n.egresses)
    requires SharesOf(ActiveDemands(catalog, drafts, active, rejections), Sum(Reservation.Limits(n.egresses)), connections)
    ensures ReportsOf(catalog, drafts, n, active, rejections, reports)
  {
    hide SharesOf, ReportFits, Sum, ValidDemands, ValidDraft, DemandOf, Reservation.AllSlots;
    assert SlotLists(InOrder(active), reports) == slots;
    assert Lengths(slots) == connections;
  }

  /** The reports of an admission. Its shares never exceed the healthy connections, so the reservation cannot run out. */
  method ReserveAndReport(catalog: Catalog, drafts: map<Market, Draft>, n: Network, active: set<Market>, rejections: Rejections,
                          admission: ExchangeAdmission)
    returns (reports: map<Market, MarketReport>)
    requires ValidDrafts(catalog, drafts) && active <= drafts.Keys
    requires Rejectable(catalog, drafts, active, rejections)
    requires ExchangeAdmissionOf(ActiveDemands(catalog, drafts, active, rejections), Sum(Reservation.Limits(n.egresses)), admission)
    ensures ReportsOf(catalog, drafts, n, active, rejections, reports)
  {
    hide Evictable, ReportFits, MarketAdmitted, Sum, ExchangeAdmissionOf, SharesOf, ReportsOf, DemandOf, ValidDemands, ActiveDemands;
    hide Reservation.AllSlots;
    var markets := InOrder(active);
    AdmissionParts(ActiveDemands(catalog, drafts, active, rejections), Sum(Reservation.Limits(n.egresses)), admission);
    var reserved := Reservation.ReserveConnections(n.egresses, admission.connections);
    reports := BuildReports(catalog, drafts, markets, rejections, admission, reserved.value);
    ReportsTogether(catalog, drafts, n, active, rejections, reports, admission.connections, reserved.value);
  }

  /** Admission and reservation over the active markets: either one market cannot be carried, or every
      market has its report. */
  method AdmitAndReserve(catalog: Catalog, drafts: map<Market, Draft>, n: Network, active: set<Market>, rejections: Rejections)
    returns (failed: Option<Market>, reports: map<Market, MarketReport>)
    requires ValidDrafts(catalog, drafts) && active <= drafts.Keys
    requires Rejectable(catalog, drafts, active, rejections)
    ensures failed.Some? ==> failed.value in active && ScopeGround(catalog, drafts, n, active, rejections, failed.value)
    ensures failed.None? ==> ReportsOf(catalog, drafts, n, active, rejections, reports)
                             && forall m :: !ScopeGround(catalog, drafts, n, active, rejections, m)
  {
    hide Evictable, ScopeFailsAt, Sum, ExchangeAdmissionOf, ReportsOf, ValidDemands, ActiveDemands;
    var demands := ActiveDemands(catalog, drafts, active, rejections);
    var admission := AdmitExchangeCapacity(demands, Sum(Reservation.Limits(n.egresses)));
    if admission.ScopeFails? {
      return Some(admission.market), map[];
    }
    reports := ReserveAndReport(catalog, drafts, n, active, rejections, admission.value);
    failed := None;
  }

  /** One attempt either finishes the plan, rejects one instrument, or drops markets. */
  datatype Attempt =
    | Finished(reports: map<Market, MarketReport>, cohorts: seq<Cohort>, plans: map<nat, seq<int>>)
    | RejectInstrument(market: Market, key: nat, reason: Reason)
    | DropMarkets(markets: set<Market>, code: FailureCode)

  /** Why an attempt drops markets: the connections cannot carry one of them, or the allocation fails them. */
  ghost predicate DropGround(catalog: Catalog, drafts: map<Market, Draft>, n: Network, active: set<Market>,
                             rejections: Rejections, dropped: set<Market>, code: FailureCode)
    requires ValidNetwork(n) && ValidDrafts(catalog, drafts) && active <= drafts.Keys
  {
    || (code == CapacityFailure && exists m :: dropped == {m} && ScopeGround(catalog, drafts, n, active, rejections, m))
    || exists reports ::
         && ReportsOf(catalog, drafts, n, active, rejections, reports)
         && AllocationGround(catalog, drafts, AdmittedOf(reports), InOrder(active), n, dropped, code)
  }

  /** Why an attempt rejects an instrument: it gives way first on an endpoint whose demands do not fit. */
  ghost predicate RejectGround(catalog: Catalog, drafts: map<Market, Draft>, n: Network, active: set<Market>,
                               rejections: Rejections, m: Market, k: nat, reason: Reason)
    requires ValidNetwork(n) && ValidDrafts(catalog, drafts) && active <= drafts.Keys
  {
    exists reports ::
      && ReportsOf(catalog, drafts, n, active, rejections, reports)
      && ReductionGround(catalog, drafts, AdmittedOf(reports), InOrder(active), n, m, k, reason)
  }

  /** What a fitting report admits, it admits once, and only selected instruments nobody rejected. */
  lemma ReportIsFree(catalog: Catalog, m: Market, d: Draft, report: MarketReport, rejections: Rejections)
    requires ValidDraft(catalog, m, d) && ReportFits(catalog, m, d, report, rejections)
    ensures NoRepeats(report.admitted)
    ensures forall k :: k in report.admitted ==> k in d.selected && (m, k) !in rejections
  {
    hide ValidDraft, Remaining, Evicted, KeysOf, NoRepeats;
  }

  lemma ReportsAreFree(catalog: Catalog, drafts: map<Market, Draft>, n: Network, active: set<Market>,
                       rejections: Rejections, reports: map<Market, MarketReport>)
    requires ValidDrafts(catalog, drafts) && active <= drafts.Keys
    requires ReportsOf(catalog, drafts, n, active, rejections, reports)
    ensures Prepared(catalog, drafts, AdmittedOf(reports), InOrder(active))
    ensures forall m, k :: m in active && k in AdmittedOf(reports)[m] ==> k in drafts[m].selected && (m, k) !in rejections
  {
    hide SharesOf, SlotLists, ReportFits, ValidDraft, NoRepeats, ActiveDemands, Reservation.AllSlots;
    forall m | m in active
      ensures NoRepeats(reports[m].admitted)
      ensures forall k :: k in reports[m].admitted ==> k in drafts[m].selected && (m, k) !in rejections
    {
      ReportIsFree(catalog, m, drafts[m], reports[m], rejections);
    }
  }

  /** One pass of the loop over the active markets. */
  method AttemptPlan(catalog: Catalog, drafts: map<Market, Draft>, n: Network, active: set<Market>, rejections: Rejections)
    returns (r: Attempt)
    requires ValidDrafts(catalog, drafts) && ValidNetwork(n)
    requires active != {} && active <= drafts.Keys
    requires Rejectable(catalog, drafts, active, rejections)
    ensures r.Finished? ==> PlanComplete(catalog, drafts, n, active, rejections, r.reports, r.cohorts, r.plans)
    ensures r.RejectInstrument? ==>
      && r.market in active && r.key in drafts[r.market].selected
      && (r.market, r.key) !in rejections && Evictable(catalog, r.market, r.key)
      && RejectGround(catalog, drafts, n, active, rejections, r.market, r.key, r.reason)
    ensures r.DropMarkets? ==>
      && r.markets != {} && r.markets <= active
      && DropGround(catalog, drafts, n, active, rejections, r.markets, r.code)
  {
    hide ReportsOf, PlanFits, Evictable, ScopeGround, AllocationGround, ReductionGround, CohortsOf, ValidNetwork, ValidDrafts,
         Prepared;
    var failed, reports := AdmitAndReserve(catalog, drafts, n, active, rejections);
    if failed.Some? {
      assert failed.value in {failed.value};
      return DropMarkets({failed.value}, CapacityFailure);
    }
    ReportsAreFree(catalog, drafts, n, active, rejections, reports);
    var allocation := AllocateIntervals(catalog, drafts, AdmittedOf(reports), InOrder(active), n);
    match allocation {
      case Reduced(market, key, reason) =>
        r := RejectInstrument(market, key, reason);
      case AllocationFails(code, dropped) =>
        r := DropMarkets(dropped, code);
      case Allocated(cohorts, plans) =>
        r := Finished(reports, cohorts, plans);
    }
  }

  /** The market is among the failures. */
  ghost predicate Failed(failures: seq<(Market, FailureCode)>, m: Market) {
    exists i :: 0 <= i < |failures| && failures[i].0 == m
  }

  lemma NothingIsComplete(catalog: Catalog, drafts: map<Market, Draft>, n: Network)
    requires ValidNetwork(n) && ValidDrafts(catalog, drafts)
    ensures PlanComplete(catalog, drafts, n, {}, map[], map[], [], map[])
  {
    hide ValidDrafts, ReportsOf, PlanFits;
    NothingIsReported(catalog, drafts, n);
    assert ProperCohorts([]);
  }

  lemma NothingIsReported(catalog: Catalog, drafts: map<Market, Draft>, n: Network)
    requires ValidDrafts(catalog, drafts)
    ensures ReportsOf(catalog, drafts, n, {}, map[], map[])
  {
    hide ValidDrafts, ReportFits, SharesOf, ActiveDemands, DemandOf, Sum, ValidDemands, Reservation.AllSlots;
    assert InOrder({}) == [];
    assert SlotLists([], map[]) == [];
    NoMarketsShare(Sum(Reservation.Limits(n.egresses)));
  }

  lemma NoMarketsShare(total: nat)
    ensures ValidDemands([]) && SharesOf([], total, [])
  {
    assert FixedNeeds([]) == [];
  }

  // ----- Runs of the retry loop -----------------------------------------------------------------

  /** How far a composition has come. */
  datatype Progress = Progress(active: set<Market>, rejections: Rejections, failures: seq<(Market, FailureCode)>)

  /** The failures with one more per dropped market. */
  function WithFailures(failures: seq<(Market, FailureCode)>, markets: seq<Market>, code: FailureCode)
    : seq<(Market, FailureCode)>
  {
    if markets == [] then failures
    else WithFailures(failures, markets[..|markets| - 1], code) + [(markets[|markets| - 1], code)]
  }

  /** A justified step: one more instrument is rejected, or markets are dropped and every rejection forgotten. */
  ghost predicate Advances(catalog: Catalog, drafts: map<Market, Draft>, n: Network, s: Progress, t: Progress)
    requires ValidNetwork(n) && ValidDrafts(catalog, drafts) && s.active <= drafts.Keys
  {
    || (exists m, k: nat, reason ::
          && m in s.active && (m, k) !in s.rejections && Evictable(catalog, m, k)
          && RejectGround(catalog, drafts, n, s.active, s.rejections, m, k, reason)
          && t == s.(rejections := s.rejections[(m, k) := reason]))
    || (exists dropped: set<Market>, code ::
          && dropped != {} && dropped <= s.active
          && DropGround(catalog, drafts, n, s.active, s.rejections, dropped, code)
          && t == Progress(s.active - dropped, map[], WithFailures(s.failures, InOrder(dropped), code)))
  }

  /** A run starts with every drafted market, no rejection and no failure, and takes only justified steps. */
  ghost predicate IsRun(catalog: Catalog, drafts: map<Market, Draft>, n: Network, run: seq<Progress>)
    requires ValidNetwork(n) && ValidDrafts(catalog, drafts)
  {
    && run != [] && run[0] == Progress(drafts.Keys, map[], [])
    && (forall i :: 0 <= i < |run| ==> run[i].active <= drafts.Keys)
    && forall i :: 0 < i < |run| ==> Advances(catalog, drafts, n, run[i - 1], run[i])
  }

  /** Some run has come this far. */
  ghost predicate Reached(catalog: Catalog, drafts: map<Market, Draft>, n: Network, s: Progress)
    requires ValidNetwork(n) && ValidDrafts(catalog, drafts)
  {
    exists run :: IsRun(catalog, drafts, n, run) && run[|run| - 1] == s
  }

  lemma ReachesNext(catalog: Catalog, drafts: map<Market, Draft>, n: Network, s: Progress, t: Progress)
    requires ValidNetwork(n) && ValidDrafts(catalog, drafts) && Reached(catalog, drafts, n, s)
    requires t.active <= drafts.Keys && s.active <= drafts.Keys && Advances(catalog, drafts, n, s, t)
    ensures Reached(catalog, drafts, n, t)
  {
    hide Advances;
    var run :| IsRun(catalog, drafts, n, run) && run[|run| - 1] == s;
    RunGrows(catalog, drafts, n, run, t);
  }

  lemma RunGrows(catalog: Catalog, drafts: map<Market, Draft>, n: Network, run: seq<Progress>, t: Progress)
    requires ValidNetwork(n) && ValidDrafts(catalog, drafts) && IsRun(catalog, drafts, n, run) && t.active <= drafts.Keys
    requires Advances(catalog, drafts, n, run[|run| - 1], t)
    ensures IsRun(catalog, drafts, n, run + [t]) && (run + [t])[|run|] == t
  {
    hide Advances;
  }

  lemma RejectionAdvances(catalog: Catalog, drafts: map<Market, Draft>, n: Network, s: Progress, m: Market, k: nat, reason: Reason)
    requires ValidNetwork(n) && ValidDrafts(catalog, drafts) && s.active <= drafts.Keys
    requires m in s.active && (m, k) !in s.rejections && Evictable(catalog, m, k)
    requires RejectGround(catalog, drafts, n, s.active, s.rejections, m, k, reason)
    ensures Advances(catalog, drafts, n, s, s.(rejections := s.rejections[(m, k) := reason]))
  {
    hide RejectGround, DropGround;
  }

  lemma DropAdvances(catalog: Catalog, drafts: map<Market, Draft>, n: Network, s: Progress, dropped: set<Market>, code: FailureCode)
    requires ValidNetwork(n) && ValidDrafts(catalog, drafts) && s.active <= drafts.Keys
    requires dropped != {} && dropped <= s.active
    requires DropGround(catalog, drafts, n, s.active, s.rejections, dropped, code)
    ensures Advances(catalog, drafts, n, s, Progress(s.active - dropped, map[], WithFailures(s.failures, InOrder(dropped), code)))
  {
    hide RejectGround, DropGround;
  }

  lemma {:induction false} WithFailuresMembers(failures: seq<(Market, FailureCode)>, markets: seq<Market>, code: FailureCode)
    ensures forall m, c :: (m, c) in WithFailures(failures, markets, code) <==> (m, c) in failures || (m in markets && c == code)
  {
    if markets != [] {
      WithFailuresMembers(failures, markets[..|markets| - 1], code);
      assert markets == markets[..|markets| - 1] + [markets[|markets| - 1]];
    }
  }

  /** This step drops the market, among others, on a ground of this code. */
  ghost predicate DropsFor(catalog: Catalog, drafts: map<Market, Draft>, n: Network, s: Progress, t: Progress, m: Market,
                           code: FailureCode)
    requires ValidNetwork(n) && ValidDrafts(catalog, drafts) && s.active <= drafts.Keys
  {
    exists dropped: set<Market> ::
      && m in dropped && dropped <= s.active && t.active == s.active - dropped && t.rejections == map[]
      && DropGround(catalog, drafts, n, s.active, s.rejections, dropped, code)
  }

  /** The failures that a drop of the markets adds, one by one. */
  ghost predicate Records(s: Progress, t: Progress, dropped: set<Market>, code: FailureCode) {
    forall m, c :: (m, c) in t.failures <==> (m, c) in s.failures || (m in dropped && c == code)
  }

  /** One step records no failure and drops no market, or records exactly the markets it drops, with the code of its
      ground. */
  lemma StepRecords(catalog: Catalog, drafts: map<Market, Draft>, n: Network, s: Progress, t: Progress)
    requires ValidNetwork(n) && ValidDrafts(catalog, drafts) && s.active <= drafts.Keys && Advances(catalog, drafts, n, s, t)
    ensures || (t.active == s.active && t.failures == s.failures)
            || exists dropped: set<Market>, code ::
                 && dropped <= s.active && t.active == s.active - dropped && t.rejections == map[]
                 && DropGround(catalog, drafts, n, s.active, s.rejections, dropped, code)
                 && Records(s, t, dropped, code)
  {
    hide DropGround, RejectGround, WithFailures;
    if !(t.active == s.active && t.failures == s.failures) {
      var dropped: set<Market>, code :|
        && dropped != {} && dropped <= s.active && DropGround(catalog, drafts, n, s.active, s.rejections, dropped, code)
        && t == Progress(s.active - dropped, map[], WithFailures(s.failures, InOrder(dropped), code));
      WithFailuresMembers(s.failures, InOrder(dropped), code);
      assert Records(s, t, dropped, code);
    }
  }

  lemma NewFailureDrops(catalog: Catalog, drafts: map<Market, Draft>, n: Network, s: Progress, t: Progress, m: Market, code: FailureCode)
    requires ValidNetwork(n) && ValidDrafts(catalog, drafts) && s.active <= drafts.Keys && Advances(catalog, drafts, n, s, t)
    ensures (m, code) in t.failures ==> (m, code) in s.failures || DropsFor(catalog, drafts, n, s, t, m, code)
  {
    hide DropGround, Advances;
    StepRecords(catalog, drafts, n, s, t);
  }

  lemma DroppedHasFailure(catalog: Catalog, drafts: map<Market, Draft>, n: Network, s: Progress, t: Progress, m: Market)
    requires ValidNetwork(n) && ValidDrafts(catalog, drafts) && s.active <= drafts.Keys && Advances(catalog, drafts, n, s, t)
    ensures (exists code :: (m, code) in s.failures) || (m in s.active && m !in t.active) ==> exists code :: (m, code) in t.failures
  {
    hide DropGround, Advances;
    StepRecords(catalog, drafts, n, s, t);
    if !(t.active == s.active && t.failures == s.failures) {
      var dropped: set<Market>, code :|
        && dropped <= s.active && t.active == s.active - dropped && t.rejections == map[]
        && DropGround(catalog, drafts, n, s.active, s.rejections, dropped, code)
        && Records(s, t, dropped, code);
      if m in dropped { assert (m, code) in t.failures; }
      if other :| (m, other) in s.failures { assert (m, other) in t.failures; }
    }
  }

  /** In every run, each recorded failure has the code of the step that dropped its market, and each market that is
      no longer active has a failure recorded. */
  lemma {:induction false} FailuresHaveTheirSteps(catalog: Catalog, drafts: map<Market, Draft>, n: Network, run: seq<Progress>)
    requires ValidNetwork(n) && ValidDrafts(catalog, drafts) && IsRun(catalog, drafts, n, run)
    ensures forall m, code :: (m, code) in run[|run| - 1].failures ==> SomeStepDrops(catalog, drafts, n, run, m, code)
    ensures forall m :: m in drafts && m !in run[|run| - 1].active ==> exists code :: (m, code) in run[|run| - 1].failures
  {
    hide IsRun, Advances, SomeStepDrops;
    var last := |run| - 1;
    RunStart(catalog, drafts, n, run);
    if last > 0 {
      RunShrinks(catalog, drafts, n, run);
      FailuresHaveTheirSteps(catalog, drafts, n, run[..last]);
      forall m, code | (m, code) in run[last].failures ensures SomeStepDrops(catalog, drafts, n, run, m, code) {
        NewFailureDrops(catalog, drafts, n, run[last - 1], run[last], m, code);
        StepIsIn(catalog, drafts, n, run, m, code);
      }
      forall m | m in drafts && m !in run[last].active ensures exists code :: (m, code) in run[last].failures {
        DroppedHasFailure(catalog, drafts, n, run[last - 1], run[last], m);
      }
    }
  }

  /** Some step of the run drops the market on a ground of this code. */
  ghost predicate SomeStepDrops(catalog: Catalog, drafts: map<Market, Draft>, n: Network, run: seq<Progress>, m: Market,
                                code: FailureCode)
    requires ValidNetwork(n) && ValidDrafts(catalog, drafts) && IsRun(catalog, drafts, n, run)
  {
    exists i :: 0 <= i < |run| - 1 && DropsFor(catalog, drafts, n, run[i], run[i + 1], m, code)
  }

  lemma StepIsIn(catalog: Catalog, drafts: map<Market, Draft>, n: Network, run: seq<Progress>, m: Market, code: FailureCode)
    requires ValidNetwork(n) && ValidDrafts(catalog, drafts) && IsRun(catalog, drafts, n, run) && 1 < |run|
    requires IsRun(catalog, drafts, n, run[..|run| - 1])
    requires || SomeStepDrops(catalog, drafts, n, run[..|run| - 1], m, code)
             || DropsFor(catalog, drafts, n, run[|run| - 2], run[|run| - 1], m, code)
    ensures SomeStepDrops(catalog, drafts, n, run, m, code)
  {
    hide Advances, DropsFor;
    var before := run[..|run| - 1];
    if SomeStepDrops(catalog, drafts, n, before, m, code) {
      var i :| 0 <= i < |before| - 1 && DropsFor(catalog, drafts, n, before[i], before[i + 1], m, code);
      assert DropsFor(catalog, drafts, n, run[i], run[i + 1], m, code);
    } else {
      var i := |run| - 2;
      assert DropsFor(catalog, drafts, n, run[i], run[i + 1], m, code);
    }
  }

  lemma RunStart(catalog: Catalog, drafts: map<Market, Draft>, n: Network, run: seq<Progress>)
    requires ValidNetwork(n) && ValidDrafts(catalog, drafts) && IsRun(catalog, drafts, n, run)
    ensures run != [] && run[0] == Progress(drafts.Keys, map[], [])
    ensures forall i :: 0 <= i < |run| ==> run[i].active <= drafts.Keys
  {
  }

  lemma RunShrinks(catalog: Catalog, drafts: map<Market, Draft>, n: Network, run: seq<Progress>)
    requires ValidNetwork(n) && ValidDrafts(catalog, drafts) && IsRun(catalog, drafts, n, run) && 1 < |run|
    ensures run[|run| - 2].active <= drafts.Keys
    ensures IsRun(catalog, drafts, n, run[..|run| - 1]) && Advances(catalog, drafts, n, run[|run| - 2], run[|run| - 1])
  {
    hide Advances;
  }

  /** Every drafted market is either active or failed. */
  ghost predicate Settled(drafts: map<Market, Draft>, active: set<Market>, failures: seq<(Market, FailureCode)>) {
    && (forall m :: m in drafts <==> m in active || Failed(failures, m))
    && (forall m :: m in active ==> !Failed(failures, m))
  }

  lemma DropSettles(drafts: map<Market, Draft>, active: set<Market>, dropped: set<Market>, before: seq<(Market, FailureCode)>,
                    after: seq<(Market, FailureCode)>)
    requires Settled(drafts, active, before) && dropped <= active
    requires forall m :: Failed(after, m) <==> Failed(before, m) || m in dropped
    ensures Settled(drafts, active - dropped, after)
  {
    hide Failed;
  }

  lemma RejectionKeeps(catalog: Catalog, drafts: map<Market, Draft>, active: set<Market>, rejections: Rejections,
                       m: Market, k: nat, reason: Reason)
    requires active <= drafts.Keys && Rejectable(catalog, drafts, active, rejections)
    requires m in active && k in drafts[m].selected && Evictable(catalog, m, k)
    ensures Rejectable(catalog, drafts, active, rejections[(m, k) := reason])
  {
    hide Evictable;
  }

  lemma NothingRejected(catalog: Catalog, drafts: map<Market, Draft>, active: set<Market>)
    requires active <= drafts.Keys
    ensures Rejectable(catalog, drafts, active, map[])
  {
  }

  /** Retries until the plan of the remaining markets fits. Each retry rejects an instrument that was not
      yet rejected or drops a market, so the loop ends; no retry is taken without its ground. Every
      drafted market is either planned or failed, and the planned ones are completely accounted for. */
  method ComposeExchange(catalog: Catalog, drafts: map<Market, Draft>, n: Network) returns (r: Composition)
    requires ValidDrafts(catalog, drafts) && ValidNetwork(n)
    ensures r.reports.Keys <= drafts.Keys
    ensures PlanComplete(catalog, drafts, n, r.reports.Keys, r.rejections, r.reports, r.cohorts, r.plans)
    ensures Reached(catalog, drafts, n, Progress(r.reports.Keys, r.rejections, r.failures))
    ensures forall m :: m in drafts <==> m in r.reports || Failed(r.failures, m)
    ensures forall m :: m in r.reports ==> !Failed(r.failures, m)
  {
    hide Evictable, Settled, Rejectable, ValidDrafts, ValidNetwork, Reached, Advances, PlanComplete, RejectGround, DropGround, Pairs, WithFailures;
    var active := drafts.Keys;
    var rejections: Rejections := map[];
    var failures: seq<(Market, FailureCode)> := [];
    AllActive(drafts);
    NothingRejected(catalog, drafts, active);
    RunStarts(catalog, drafts, n);
    while active != {}
      invariant active <= drafts.Keys
      invariant Rejectable(catalog, drafts, active, rejections)
      invariant Settled(drafts, active, failures)
      invariant Reached(catalog, drafts, n, Progress(active, rejections, failures))
      decreases |active|, |Pairs(drafts, active) - rejections.Keys|
    {
      ghost var before := Progress(active, rejections, failures);
      var attempt := AttemptPlan(catalog, drafts, n, active, rejections);
      match attempt {
        case Finished(reports, cohorts, plans) =>
          FinishedReports(catalog, drafts, n, active, rejections, reports, cohorts, plans);
          SettledMarkets(drafts, active, failures);
          return Composition(reports, rejections, cohorts, plans, failures);
        case RejectInstrument(market, key, reason) =>
          RejectionAdvances(catalog, drafts, n, before, market, key, reason);
          RejectionKeeps(catalog, drafts, active, rejections, market, key, reason);
          FewerPairs(drafts, active, rejections, market, key, reason);
          rejections := rejections[(market, key) := reason];
        case DropMarkets(dropped, code) =>
          DropAdvances(catalog, drafts, n, before, dropped, code);
          failures := RecordFailures(failures, InOrder(dropped), code);
          DropSettles(drafts, active, dropped, before.failures, failures);
          SmallerActive(active, dropped);
          active := active - dropped;
          rejections := map[];
          NothingRejected(catalog, drafts, active);
      }
      ReachesNext(catalog, drafts, n, before, Progress(active, rejections, failures));
    }
    NothingIsComplete(catalog, drafts, n);
    NoRejections(catalog, drafts, rejections);
    SettledMarkets(drafts, {}, failures);
    r := Composition(map[], map[], [], map[], failures);
  }

  lemma AllActive(drafts: map<Market, Draft>)
    ensures Settled(drafts, drafts.Keys, [])
  {
  }

  lemma SettledMarkets(drafts: map<Market, Draft>, active: set<Market>, failures: seq<(Market, FailureCode)>)
    requires Settled(drafts, active, failures)
    ensures forall m :: m in drafts <==> m in active || Failed(failures, m)
    ensures forall m :: m in active ==> !Failed(failures, m)
  {
  }

  lemma NoRejections(catalog: Catalog, drafts: map<Market, Draft>, rejections: Rejections)
    requires Rejectable(catalog, drafts, {}, rejections)
    ensures rejections == map[]
  {
    forall pair ensures pair !in rejections { assert pair == (pair.0, pair.1); }
  }

  lemma RunStarts(catalog: Catalog, drafts: map<Market, Draft>, n: Network)
    requires ValidNetwork(n) && ValidDrafts(catalog, drafts)
    ensures Reached(catalog, drafts, n, Progress(drafts.Keys, map[], []))
  {
    var run := [Progress(drafts.Keys, map[], [])];
    assert IsRun(catalog, drafts, n, run) && run[|run| - 1] == run[0];
  }

  lemma FinishedReports(catalog: Catalog, drafts: map<Market, Draft>, n: Network, active: set<Market>, rejections: Rejections,
                        reports: map<Market, MarketReport>, cohorts: seq<Cohort>, plans: map<nat, seq<int>>)
    requires ValidNetwork(n) && ValidDrafts(catalog, drafts) && active <= drafts.Keys
    requires PlanComplete(catalog, drafts, n, active, rejections, reports, cohorts, plans)
    ensures reports.Keys == active
  {
  }

  lemma FewerPairs(drafts: map<Market, Draft>, active: set<Market>, rejections: Rejections, m: Market, k: nat, reason: Reason)
    requires active <= drafts.Keys && m in active && k in drafts[m].selected && (m, k) !in rejections
    ensures |Pairs(drafts, active) - rejections[(m, k) := reason].Keys| < |Pairs(drafts, active) - rejections.Keys|
  {
    var pairs := Pairs(drafts, active);
    assert (m, k) in pairs;
    hide Pairs;
    assert pairs - rejections[(m, k) := reason].Keys == (pairs - rejections.Keys) - {(m, k)};
  }

  lemma SmallerActive(active: set<Market>, affected: set<Market>)
    requires affected != {} && affected <= active
    ensures |active - affected| < |active|
  {
    assert |active| == |active - affected| + |affected|;
  }

  /** Appends one failure per dropped market. */
  method RecordFailures(failures: seq<(Market, FailureCode)>, markets: seq<Market>, code: FailureCode)
    returns (after: seq<(Market, FailureCode)>)
    ensures after == WithFailures(failures, markets, code)
    ensures forall m :: Failed(after, m) <==> Failed(failures, m) || m in markets
  {
    after := failures;
    for i := 0 to |markets|
      invariant after == WithFailures(failures, markets[..i], code)
      invariant forall m :: Failed(after, m) <==> Failed(failures, m) || m in markets[..i]
    {
      assert markets[..i + 1] == markets[..i] + [markets[i]];
      assert markets[..i + 1][..i] == markets[..i];
      FailedSnoc(after, markets[i], code);
      after := after + [(markets[i], code)];
    }
    assert markets[..|markets|] == markets;
  }

  lemma FailedSnoc(failures: seq<(Market, FailureCode)>, last: Market, code: FailureCode)
    ensures forall m :: Failed(failures + [(last, code)], m) <==> Failed(failures, m) || m == last
  {
    var after := failures + [(last, code)];
    assert after[|failures|].0 == last;
    forall m | Failed(failures, m) ensures Failed(after, m) {
      var i :| 0 <= i < |failures| && failures[i].0 == m;
      assert after[i].0 == m;
    }
  }
}
