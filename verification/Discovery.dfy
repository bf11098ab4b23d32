/** Shared discovery against per-wallet filtering: one wallet-independent pass drops
    a market only when the filter of every active template would drop it too. */
module Discovery {
  import opened Wrappers

  /** The settings the shared pass looks at; templates equal in these are collapsed. */
  datatype Gate = Gate(included: set<string>, includeOther: bool, minReward: real,
                       minDays: Option<int>, maxDays: Option<int>, sizes: set<int>,
                       skipNew: bool, newHours: real, skipCategories: set<string>, skipOther: bool)

  datatype Template = Template(gate: Gate, minCents: real, maxCents: real)

  /** `rate` is the reward of the batch endpoint and `precise` the one fetched for the
      market alone; `daysLeft` and `age` are missing when their dates do not parse. */
  datatype Market = Market(id: string, tags: set<string>, rate: real, precise: Option<real>,
                           daysLeft: Option<int>, age: Option<real>, size: int, cents: seq<real>)

  // ---------------------------------------------------------------- categories

  predicate MarketInCategories(tags: set<string>, slugs: set<string>, includeUntagged: bool) {
    slugs * tags != {} || (includeUntagged && tags == {})
  }

  method IncludedUnion(templates: seq<Template>) returns (out: set<string>)
    ensures forall c :: c in out <==> exists t :: t in templates && c in t.gate.included
  {
    out := {};
    for i := 0 to |templates|
      invariant forall c :: c in out <==> exists t :: t in templates[..i] && c in t.gate.included
    {
      assert templates[..i + 1] == templates[..i] + [templates[i]];
      out := out + templates[i].gate.included;
    }
    assert templates[..|templates|] == templates;
  }

  predicate AnyIncludeOther(templates: seq<Template>) {
    exists t :: t in templates && t.gate.includeOther
  }

  // ---------------------------------------------------------------- one template's view

  function NewHours(g: Gate): real { if g.newHours > 0.0 then g.newHours else 0.0 }

  predicate Wanted(g: Gate, tags: set<string>) { MarketInCategories(tags, g.included, g.includeOther) }

  /** The template shields markets with these tags while they are new. */
  predicate Shields(g: Gate, tags: set<string>) {
    && g.skipNew
    && MarketInCategories(tags, g.skipCategories * g.included, g.skipOther && g.includeOther)
  }

  predicate TooNewFor(g: Gate, m: Market) {
    Shields(g, m.tags) && NewHours(g) != 0.0 && m.age.Some? && m.age.value < NewHours(g)
  }

  predicate InWindow(days: int, g: Gate) {
    && (g.minDays.Some? ==> days >= g.minDays.value)
    && (g.maxDays.Some? ==> days <= g.maxDays.value)
  }

  predicate InPriceBand(m: Market, t: Template) {
    exists c :: c in m.cents && t.minCents <= c <= t.maxCents
  }

  function Reward(m: Market): real { if m.precise.Some? then m.precise.value else m.rate }

  /** Whether a template's own filter lets a market through. */
  predicate Passes(t: Template, m: Market, cooling: set<string>) {
    var g := t.gate;
    && Wanted(g, m.tags)
    && m.rate >= g.minReward && Reward(m) >= g.minReward
    && (m.daysLeft.Some? ==> InWindow(m.daysLeft.value, g))
    && !TooNewFor(g, m)
    && m.id !in cooling
    && m.size in g.sizes
    && InPriceBand(m, t)
  }

  /** A market carries the tag of some wanted category, or has none and those are wanted. */
  ghost predicate InSome(tags: set<string>, wanted: set<string>, untagged: bool) {
    (exists c :: c in tags && c in wanted) || (tags == {} && untagged)
  }

  /** The filter in the reported figures: a wanted category, both rewards at least the
      least one, days left inside the bounds that are set, not younger than the protection
      of a category that is both wanted and shielded, not cooling down, an accepted size
      and some price inside the band. */
  lemma {:induction false} PassesInFigures(t: Template, m: Market, cooling: set<string>)
    ensures Passes(t, m, cooling)
       <==> && InSome(m.tags, t.gate.included, t.gate.includeOther)
            && m.rate >= t.gate.minReward && (m.precise.Some? ==> m.precise.value >= t.gate.minReward)
            && (m.daysLeft.Some? && t.gate.minDays.Some? ==> t.gate.minDays.value <= m.daysLeft.value)
            && (m.daysLeft.Some? && t.gate.maxDays.Some? ==> m.daysLeft.value <= t.gate.maxDays.value)
            && !(t.gate.skipNew && m.age.Some? && t.gate.newHours > 0.0 && m.age.value < t.gate.newHours
                 && InSome(m.tags, t.gate.skipCategories * t.gate.included, t.gate.skipOther && t.gate.includeOther))
            && m.id !in cooling && m.size in t.gate.sizes
            && exists c :: c in m.cents && t.minCents <= c && c <= t.maxCents
  {
    CategoriesInTags(m.tags, t.gate.included, t.gate.includeOther);
    CategoriesInTags(m.tags, t.gate.skipCategories * t.gate.included, t.gate.skipOther && t.gate.includeOther);
  }

  lemma {:induction false} CategoriesInTags(tags: set<string>, slugs: set<string>, untagged: bool)
    ensures MarketInCategories(tags, slugs, untagged) <==> InSome(tags, slugs, untagged)
  {
    if slugs * tags != {} {
      var c :| c in slugs * tags;
      assert c in tags && c in slugs;
    }
    forall c | c in tags && c in slugs ensures c in slugs * tags {}
  }

  /** The markets that pass, in the order of the pool. */
  function Survivors(pool: seq<Market>, t: Template, cooling: set<string>): seq<Market> {
    if pool == [] then []
    else
      var n := |pool| - 1;
      Survivors(pool[..n], t, cooling) + if Passes(t, pool[n], cooling) then [pool[n]] else []
  }

  method PrefilterForTemplate(pool: seq<Market>, t: Template, cooling: set<string>) returns (kept: seq<Market>)
    ensures kept == Survivors(pool, t, cooling)
  {
    var g := t.gate;
    kept := [];
    for i := 0 to |pool|
      invariant kept == Survivors(pool[..i], t, cooling)
    {
      assert pool[..i + 1][..i] == pool[..i];
      var m := pool[i];
      if !MarketInCategories(m.tags, g.included, g.includeOther) {
        continue;
      }
      if m.rate < g.minReward || Reward(m) < g.minReward {
        continue;
      }
      if m.daysLeft.Some? && !InWindow(m.daysLeft.value, g) {
        continue;
      }
      if g.skipNew && NewHours(g) != 0.0
         && MarketInCategories(m.tags, g.skipCategories * g.included, g.skipOther && g.includeOther)
      {
        if m.age.Some? && m.age.value < NewHours(g) {
          continue;
        }
      }
      if m.id in cooling || m.size !in g.sizes || !InPriceBand(m, t) {
        continue;
      }
      kept := kept + [m];
    }
    assert pool[..|pool|] == pool;
  }

  // ---------------------------------------------------------------- the shared pass

  /** The age below which every template agrees a market is too new, or zero. */
  ghost predicate Loosest(hours: real, templates: seq<Template>, tags: set<string>) {
    if templates != [] && forall t | t in templates :: Shields(t.gate, tags) then
      && (exists t :: t in templates && hours == NewHours(t.gate))
      && forall t | t in templates :: hours <= NewHours(t.gate)
    else hours == 0.0
  }

  method LoosestNewMarketHours(templates: seq<Template>, tags: set<string>) returns (hours: real)
    ensures Loosest(hours, templates, tags)
  {
    hours := 0.0;
    for i := 0 to |templates|
      invariant forall t | t in templates[..i] :: Shields(t.gate, tags)
      invariant Loosest(hours, templates[..i], tags)
    {
      var g := templates[i].gate;
      if !g.skipNew || !MarketInCategories(tags, g.skipCategories * g.included, g.skipOther && g.includeOther) {
        assert templates[i] in templates && !Shields(g, tags);
        return 0.0;
      }
      assert templates[..i + 1] == templates[..i] + [templates[i]];
      hours := if i == 0 || NewHours(g) < hours then NewHours(g) else hours;
    }
    assert templates[..|templates|] == templates;
  }

  method MinFloor(templates: seq<Template>) returns (floor: real)
    ensures templates == [] ==> floor == 0.0
    ensures templates != [] ==> exists t :: t in templates && floor == t.gate.minReward
    ensures forall t | t in templates :: floor <= t.gate.minReward
  {
    floor := 0.0;
    for i := 0 to |templates|
      invariant i == 0 ==> floor == 0.0
      invariant i > 0 ==> exists t :: t in templates[..i] && floor == t.gate.minReward
      invariant forall t | t in templates[..i] :: floor <= t.gate.minReward
    {
      assert templates[..i + 1] == templates[..i] + [templates[i]];
      var r := templates[i].gate.minReward;
      floor := if i == 0 || r < floor then r else floor;
    }
    assert templates[..|templates|] == templates;
  }

  /** Each of the three shared checks drops a market exactly when all templates agree
      on that check. */
  ghost predicate Dropped(templates: seq<Template>, m: Market) {
    || (forall t | t in templates :: !Wanted(t.gate, m.tags))
    || (templates != [] && forall t | t in templates :: m.rate < t.gate.minReward)
    || (templates != [] && forall t | t in templates :: TooNewFor(t.gate, m))
  }

  /** Splits what survives into the markets whose own reward is fetched and the rest. */
  method DiscoverCandidates(pool: seq<Market>, templates: seq<Template>, blacklist: set<string>)
    returns (priced: seq<Market>, extra: seq<Market>)
    ensures forall m :: m in priced <==> Kept(pool, templates, blacklist, m) && Promising(templates, m)
    ensures forall m :: m in extra <==> Kept(pool, templates, blacklist, m) && !Promising(templates, m)
  {
    var union := IncludedUnion(templates);
    var incOther := AnyIncludeOther(templates);
    var floor := MinFloor(templates);
    priced, extra := [], [];
    for i := 0 to |pool|
      invariant forall m :: m in priced <==> Kept(pool[..i], templates, blacklist, m) && ShouldPrice(templates, m)
      invariant forall m :: m in extra <==> Kept(pool[..i], templates, blacklist, m) && !ShouldPrice(templates, m)
    {
      assert pool[..i + 1] == pool[..i] + [pool[i]];
      var m := pool[i];
      var hours := LoosestNewMarketHours(templates, m.tags);
      UnionWants(templates, union, m.tags);
      FloorDrops(templates, floor, m.rate);
      LoosestDrops(templates, hours, m);
      if m.id in blacklist || !MarketInCategories(m.tags, union, incOther) || m.rate < floor {
        continue;
      }
      if hours != 0.0 && m.age.Some? && m.age.value < hours {
        continue;
      }
      if ShouldPrice(templates, m) {
        priced := priced + [m];
      } else {
        extra := extra + [m];
      }
    }
    assert pool[..|pool|] == pool;
  }

  ghost predicate Kept(pool: seq<Market>, templates: seq<Template>, blacklist: set<string>, m: Market) {
    m in pool && m.id !in blacklist && !Dropped(templates, m)
  }

  /** Some template accepts the size, or none restricts it; and where the days left are
      known, some template accepts those. */
  ghost predicate Promising(templates: seq<Template>, m: Market) {
    && ((exists t :: t in templates && m.size in t.gate.sizes) || !(exists t :: t in templates && t.gate.sizes != {}))
    && (m.daysLeft.None?
        || exists t :: t in templates
                       && (t.gate.minDays.None? || t.gate.minDays.value <= m.daysLeft.value)
                       && (t.gate.maxDays.None? || m.daysLeft.value <= t.gate.maxDays.value))
  }

  /** Which markets have their own reward fetched. */
  predicate ShouldPrice(templates: seq<Template>, m: Market) {
    && ((forall t | t in templates :: t.gate.sizes == {}) || exists t :: t in templates && m.size in t.gate.sizes)
    && (m.daysLeft.Some? ==> exists t :: t in templates && InWindow(m.daysLeft.value, t.gate))
  }

  lemma {:induction false} UnionWants(templates: seq<Template>, union: set<string>, tags: set<string>)
    requires forall c :: c in union <==> exists t :: t in templates && c in t.gate.included
    ensures MarketInCategories(tags, union, AnyIncludeOther(templates))
            <==> exists t :: t in templates && Wanted(t.gate, tags)
  {
    if union * tags != {} {
      var c :| c in union * tags;
      var t :| t in templates && c in t.gate.included;
      assert c in t.gate.included * tags;
      assert Wanted(t.gate, tags);
    }
    if AnyIncludeOther(templates) && tags == {} {
      var t :| t in templates && t.gate.includeOther;
      assert Wanted(t.gate, tags);
    }
    if exists t :: t in templates && Wanted(t.gate, tags) {
      var t :| t in templates && Wanted(t.gate, tags);
      if t.gate.included * tags != {} {
        var c :| c in t.gate.included * tags;
        assert c in union * tags;
      }
    }
  }

  lemma {:induction false} FloorDrops(templates: seq<Template>, floor: real, rate: real)
    requires templates == [] ==> floor == 0.0
    requires templates != [] ==> exists t :: t in templates && floor == t.gate.minReward
    requires forall t | t in templates :: floor <= t.gate.minReward
    ensures templates != [] ==> (rate < floor <==> forall t | t in templates :: rate < t.gate.minReward)
  {
  }

  lemma {:induction false} LoosestDrops(templates: seq<Template>, hours: real, m: Market)
    requires Loosest(hours, templates, m.tags)
    ensures hours != 0.0 && m.age.Some? && m.age.value < hours
            <==> templates != [] && forall t | t in templates :: TooNewFor(t.gate, m)
  {
    if templates != [] && forall t | t in templates :: Shields(t.gate, m.tags) {
      var t :| t in templates && hours == NewHours(t.gate);
      assert TooNewFor(t.gate, m) ==> hours != 0.0;
    } else if templates != [] {
      var t :| t in templates && !Shields(t.gate, m.tags);
      assert !TooNewFor(t.gate, m);
    }
  }

  // ---------------------------------------------------------------- the relations that matter

  /** A market the shared pass drops at some moment would be dropped at that moment by
      the filter of every active template, whatever reward is fetched for it later and
      whatever is cooling down. */
  lemma {:induction false} SharedDropIsSafe(templates: seq<Template>, t: Template, m: Market, precise: Option<real>,
                                            cooling: set<string>)
    requires t in templates && Dropped(templates, m)
    ensures !Passes(t, m.(precise := precise), cooling)
  {
    assert TooNewFor(t.gate, m.(precise := precise)) == TooNewFor(t.gate, m);
  }

  /** The shared pass keeps more than the union of the filters: a market may fail one
      template by category and the other by reward. */
  lemma {:induction false} SharedPassIsCoarse() returns (a: Template, b: Template, m: Market)
    ensures !Dropped([a, b], m)
    ensures forall cooling :: !Passes(a, m, cooling) && !Passes(b, m, cooling)
  {
    var g := Gate({"sports"}, false, 100.0, None, None, {50}, false, 0.0, {}, false);
    a, b := Template(g, 0.0, 100.0), Template(g.(included := {"politics"}, minReward := 1.0), 0.0, 100.0);
    m := Market("m", {"sports"}, 10.0, None, None, None, 50, [50.0]);
    assert "sports" in a.gate.included * m.tags;
    assert Wanted(a.gate, m.tags) && !Wanted(b.gate, m.tags);
    assert a in [a, b] && b in [a, b] && !(m.rate < b.gate.minReward) && !TooNewFor(a.gate, m);
  }

  /** A market that passes some template never relies on the batch reward. */
  lemma {:induction false} SurvivorsArePriced(templates: seq<Template>, t: Template, m: Market, cooling: set<string>)
    requires t in templates && Passes(t, m, cooling)
    ensures ShouldPrice(templates, m)
  {
    assert m.size in t.gate.sizes;
  }

  /** Whatever some active template lets through is found by the shared pass, with its
      own reward fetched, also after the templates have been collapsed. */
  lemma {:induction false} NothingEligibleIsLost(pool: seq<Market>, templates: seq<Template>, collapsed: seq<Template>,
                                                 blacklist: set<string>, t: Template, m: Market, precise: Option<real>,
                                                 cooling: set<string>)
    requires SameGates(templates, collapsed) && t in templates
    requires m in pool && m.id !in blacklist && Passes(t, m.(precise := precise), cooling)
    ensures Kept(pool, collapsed, blacklist, m) && ShouldPrice(collapsed, m)
  {
    if Dropped(templates, m) { SharedDropIsSafe(templates, t, m, precise, cooling); }
    SurvivorsArePriced(templates, t, m.(precise := precise), cooling);
    CollapsingIsInvisible(templates, collapsed, m);
  }

  /** Slugs whose markets are looked up, hence the only tags a market can carry. */
  ghost function SlugsNeeded(templates: seq<Template>, union: set<string>, catalog: set<string>): set<string> {
    if AnyIncludeOther(templates) then catalog else union * catalog
  }

  /** Looking up only the slugs the templates name never changes a template's verdict:
      it is the same as if the market carried all its catalogue tags. */
  lemma {:induction false} PartialTagsSameVerdict(templates: seq<Template>, union: set<string>, catalog: set<string>,
                                                  t: Template, m: Market, cooling: set<string>)
    requires t in templates && m.tags <= catalog
    requires forall c :: c in union <==> exists u :: u in templates && c in u.gate.included
    ensures Passes(t, m.(tags := m.tags * SlugsNeeded(templates, union, catalog)), cooling) <==> Passes(t, m, cooling)
  {
    var g, tags := t.gate, m.tags * SlugsNeeded(templates, union, catalog);
    if AnyIncludeOther(templates) {
      assert tags == m.tags;
    } else {
      assert !g.includeOther;
      assert g.included * tags == g.included * m.tags;
      assert g.skipCategories * g.included * tags == g.skipCategories * g.included * m.tags;
      assert Wanted(g, tags) == Wanted(g, m.tags) && Shields(g, tags) == Shields(g, m.tags);
    }
  }

  // ---------------------------------------------------------------- collapsing templates

  ghost predicate GateIn(templates: seq<Template>, g: Gate) {
    exists t :: t in templates && t.gate == g
  }

  /** The same gates occur in both lists. */
  ghost predicate SameGates(a: seq<Template>, b: seq<Template>) {
    forall g :: GateIn(a, g) <==> GateIn(b, g)
  }

  /** Keeps one template per gate, the last one, in the place of the first. */
  method ActiveTemplates(templates: seq<Template>) returns (out: seq<Template>)
    ensures SameGates(templates, out)
    ensures forall i, j | 0 <= i < j < |out| :: out[i].gate != out[j].gate
  {
    out := [];
    for i := 0 to |templates|
      invariant SameGates(templates[..i], out)
      invariant forall k, j | 0 <= k < j < |out| :: out[k].gate != out[j].gate
    {
      var t := templates[i];
      var j := 0;
      while j < |out| && out[j].gate != t.gate
        invariant j <= |out| && forall k | 0 <= k < j :: out[k].gate != t.gate
      {
        j := j + 1;
      }
      assert templates[..i + 1] == templates[..i] + [t];
      GateInAppend(templates[..i], t);
      if j < |out| {
        GateInReplace(out, t, j);
        out := out[j := t];
      } else {
        GateInAppend(out, t);
        out := out + [t];
      }
    }
    assert templates[..|templates|] == templates;
  }

  lemma {:induction false} GateInAppend(a: seq<Template>, t: Template)
    ensures forall g :: GateIn(a + [t], g) <==> GateIn(a, g) || g == t.gate
  {
    assert t in a + [t];
    forall g | GateIn(a, g) ensures GateIn(a + [t], g) {
      var u :| u in a && u.gate == g;
      assert u in a + [t];
    }
  }

  lemma {:induction false} GateInReplace(a: seq<Template>, t: Template, j: nat)
    requires j < |a| && a[j].gate == t.gate
    ensures forall g :: GateIn(a[j := t], g) <==> GateIn(a, g)
    ensures GateIn(a, t.gate)
  {
    var b := a[j := t];
    assert a[j] in a && b[j] in b;
    forall g ensures GateIn(b, g) <==> GateIn(a, g) {
      if GateIn(a, g) {
        var u :| u in a && u.gate == g;
        var k :| 0 <= k < |a| && a[k] == u;
        assert b[k] in b && b[k].gate == g;
      }
      if GateIn(b, g) {
        var u :| u in b && u.gate == g;
        var k :| 0 <= k < |b| && b[k] == u;
        assert a[k] in a && a[k].gate == g;
      }
    }
  }

  /** Collapsing templates changes neither what the shared pass drops nor what it prices. */
  lemma {:induction false} CollapsingIsInvisible(a: seq<Template>, b: seq<Template>, m: Market)
    requires SameGates(a, b)
    ensures Dropped(a, m) <==> Dropped(b, m)
    ensures ShouldPrice(a, m) <==> ShouldPrice(b, m)
  {
    CollapsedOneWay(a, b, m);
    CollapsedOneWay(b, a, m);
  }

  lemma {:induction false} Counterpart(a: seq<Template>, b: seq<Template>, t: Template) returns (u: Template)
    requires SameGates(a, b) && t in b
    ensures u in a && u.gate == t.gate
  {
    assert GateIn(b, t.gate);
    u :| u in a && u.gate == t.gate;
  }

  lemma {:induction false} CollapsedOneWay(a: seq<Template>, b: seq<Template>, m: Market)
    requires SameGates(a, b)
    ensures Dropped(a, m) ==> Dropped(b, m)
    ensures ShouldPrice(a, m) ==> ShouldPrice(b, m)
  {
    forall t | t in b
      ensures (forall u | u in a :: !Wanted(u.gate, m.tags)) ==> !Wanted(t.gate, m.tags)
      ensures (forall u | u in a :: m.rate < u.gate.minReward) ==> m.rate < t.gate.minReward
      ensures (forall u | u in a :: TooNewFor(u.gate, m)) ==> TooNewFor(t.gate, m)
      ensures (forall u | u in a :: u.gate.sizes == {}) ==> t.gate.sizes == {}
    {
      var u := Counterpart(a, b, t);
    }
    forall t | t in a
      ensures m.size in t.gate.sizes ==> exists u :: u in b && m.size in u.gate.sizes
      ensures m.daysLeft.Some? && InWindow(m.daysLeft.value, t.gate)
              ==> exists u :: u in b && InWindow(m.daysLeft.value, u.gate)
    {
      var u := Counterpart(b, a, t);
    }
    if a != [] { var u := Counterpart(b, a, a[0]); }
  }
}
