/** Two helpers of the client: the German relative-time label of a post or
    comment, and the grouping of academic modules by their type. */
module Utils {
  import opened Text

  const MsPerMinute: int := 1000 * 60
  const MsPerHour: int := 1000 * 60 * 60
  const MsPerDay: int := 1000 * 60 * 60 * 24

  /** The bucket a time difference falls into. */
  datatype Age = JustNow | MinutesAgo(minutes: nat) | HoursAgo(hours: nat) | OneDayAgo | DaysAgo(days: nat)

  /** Buckets the difference `diffMs` between now and a timestamp, in
      milliseconds (negative for a timestamp in the future). Minutes, hours
      and days are all floor divisions of that one difference; `/` with a
      positive divisor is `Math.floor` of the quotient. */
  function AgeOf(diffMs: int): (a: Age)
    ensures a.JustNow? <==> diffMs / MsPerMinute < 1
    ensures a.MinutesAgo? ==> a.minutes == diffMs / MsPerMinute && 1 <= a.minutes <= 59
    ensures a.HoursAgo? ==> diffMs / MsPerMinute >= 60 && a.hours == diffMs / MsPerHour && 1 <= a.hours <= 23
    ensures a.OneDayAgo? <==> diffMs / MsPerHour >= 24 && diffMs / MsPerDay == 1
    ensures a.DaysAgo? ==> diffMs / MsPerHour >= 24 && a.days == diffMs / MsPerDay && a.days >= 2
  {
    var minutes := diffMs / MsPerMinute;
    var hours := diffMs / MsPerHour;
    var days := diffMs / MsPerDay;
    if minutes < 1 then JustNow
    else if minutes < 60 then MinutesAgo(minutes)
    else if hours < 24 then
      assert hours >= 1 by { HoursFromMinutes(diffMs); }
      HoursAgo(hours)
    else if days == 1 then OneDayAgo
    else
      assert days >= 1 by { DaysFromHours(diffMs); }
      DaysAgo(days)
  }

  /** Sixty whole minutes make at least one whole hour. */
  lemma HoursFromMinutes(diffMs: int)
    requires diffMs / MsPerMinute >= 60
    ensures diffMs / MsPerHour >= 1
  {
    assert diffMs >= 60 * MsPerMinute;
  }

  /** Twenty-four whole hours make at least one whole day. */
  lemma DaysFromHours(diffMs: int)
    requires diffMs / MsPerHour >= 24
    ensures diffMs / MsPerDay >= 1
  {
    assert diffMs >= 24 * MsPerHour;
  }

  /** The text shown for a bucket. */
  function Label(a: Age): string {
    match a
    case JustNow => "Gerade eben"
    case MinutesAgo(m) => DecimalString(m) + " Minuten zuvor"
    case HoursAgo(h) => DecimalString(h) + " Stunden zuvor"
    case OneDayAgo => "1 Tag zuvor"
    case DaysAgo(d) => DecimalString(d) + " Tage zuvor"
  }

  /** `formatTimestamp`, given the already computed difference. Stated on
      the difference itself: under a minute is "just now", then whole
      minutes below an hour, whole hours below a day, "one day" below two
      days, and whole days from there on. */
  function FormatTimestamp(diffMs: int): (text: string)
    ensures diffMs < MsPerMinute ==> text == "Gerade eben"
    ensures MsPerMinute <= diffMs < MsPerHour ==> text == DecimalString(diffMs / MsPerMinute) + " Minuten zuvor"
    ensures MsPerHour <= diffMs < MsPerDay ==> text == DecimalString(diffMs / MsPerHour) + " Stunden zuvor"
    ensures MsPerDay <= diffMs < 2 * MsPerDay ==> text == "1 Tag zuvor"
    ensures 2 * MsPerDay <= diffMs ==> text == DecimalString(diffMs / MsPerDay) + " Tage zuvor"
  {
    FloorBelow(diffMs, MsPerMinute, 1);
    FloorBelow(diffMs, MsPerMinute, 60);
    FloorBelow(diffMs, MsPerHour, 24);
    FloorBelow(diffMs, MsPerDay, 1);
    FloorBelow(diffMs, MsPerDay, 2);
    Label(AgeOf(diffMs))
  }

  /** A floor quotient is below `k` exactly when the dividend is below `k`
      divisors. */
  lemma FloorBelow(x: int, d: int, k: int)
    requires d > 0
    ensures x / d < k <==> x < k * d
  {
    var q, r := x / d, x % d;
    assert x == d * q + r && 0 <= r < d;
    MulStep(d, k, q);
    MulStep(d, q, k - 1);
  }

  /** Different buckets never show the same text. */
  lemma LabelInjective(a: Age, b: Age)
    requires Label(a) == Label(b)
    ensures a == b
  {
    if a.JustNow? != b.JustNow? {
      LabelStartsWithDigit(if a.JustNow? then b else a);
    } else if a.MinutesAgo? && b.MinutesAgo? {
      SuffixStrip(DecimalString(a.minutes), DecimalString(b.minutes), " Minuten zuvor");
      DecimalInjective(a.minutes, b.minutes);
    } else if a.HoursAgo? && b.HoursAgo? {
      SuffixStrip(DecimalString(a.hours), DecimalString(b.hours), " Stunden zuvor");
      DecimalInjective(a.hours, b.hours);
    } else if a.DaysAgo? && b.DaysAgo? {
      SuffixStrip(DecimalString(a.days), DecimalString(b.days), " Tage zuvor");
      DecimalInjective(a.days, b.days);
    } else if !a.JustNow? {
      LabelShape(a);
      LabelShape(b);
    }
  }

  lemma LabelStartsWithDigit(a: Age)
    requires !a.JustNow?
    ensures '0' <= Label(a)[0] <= '9'
  {
  }

  lemma SuffixStrip(x: string, y: string, suffix: string)
    requires x + suffix == y + suffix
    ensures x == y
  {
    assert x == (x + suffix)[..|x|];
    assert y == (y + suffix)[..|y|];
  }

  /** The length and the character eleven places from the end, which tell
      apart the buckets other than "just now". */
  lemma LabelShape(a: Age)
    requires !a.JustNow?
    ensures a.OneDayAgo? <==> |Label(a)| == 11
    ensures !a.OneDayAgo? ==> |Label(a)| >= 12
    ensures !a.OneDayAgo? ==>
      Label(a)[|Label(a)| - 11] == (if a.MinutesAgo? then 'n' else if a.HoursAgo? then 'u' else ' ')
  {
  }

  /** Position of a bucket on the time line, shortest first. */
  function Rank(a: Age): nat {
    match a
    case JustNow => 0
    case MinutesAgo(_) => 1
    case HoursAgo(_) => 2
    case OneDayAgo => 3
    case DaysAgo(_) => 4
  }

  /** How far back the bucket reaches, in its own unit. */
  function Count(a: Age): nat {
    match a
    case JustNow => 0
    case MinutesAgo(m) => m
    case HoursAgo(h) => h
    case OneDayAgo => 1
    case DaysAgo(d) => d
  }

  lemma FloorDivMonotone(x: int, y: int, d: int)
    requires x <= y && d > 0
    ensures x / d <= y / d
  {
    var q1, q2 := x / d, y / d;
    assert x == d * q1 + x % d && 0 <= x % d;
    assert y == d * q2 + y % d && y % d < d;
    MulStep(d, q1, q2);
  }

  lemma MulStep(d: int, a: int, b: int)
    requires d > 0
    ensures a >= b + 1 ==> d * a >= d * b + d
  {
    var k := a - b - 1;
    assert d * a == d * b + d + d * k;
    assert k >= 0 ==> d * k >= 0;
  }

  /** An older timestamp never gets a younger label: the bucket moves forward
      and, within a bucket, the number shown never shrinks. */
  lemma AgeMonotone(d1: int, d2: int)
    requires d1 <= d2
    ensures Rank(AgeOf(d1)) <= Rank(AgeOf(d2))
    ensures Rank(AgeOf(d1)) == Rank(AgeOf(d2)) ==> Count(AgeOf(d1)) <= Count(AgeOf(d2))
  {
    FloorDivMonotone(d1, d2, MsPerMinute);
    FloorDivMonotone(d1, d2, MsPerHour);
    FloorDivMonotone(d1, d2, MsPerDay);
  }

  /** A module of the catalogue. The `type` the grouping reads is not declared
      on the client's module record, so it is added here as `moduleType`. */
  datatype Module = Module(id: string, name: string, moduleType: string)

  /** The modules of one type, in input order. */
  function OfType(ms: seq<Module>, t: string): seq<Module>
    decreases |ms|
  {
    if ms == [] then []
    else OfType(ms[..|ms| - 1], t) + (if ms[|ms| - 1].moduleType == t then [ms[|ms| - 1]] else [])
  }

  /** A module is in the group of `t` exactly when it is an input module of
      type `t`. */
  lemma {:induction false} OfTypeMembers(ms: seq<Module>, t: string)
    ensures forall m <- OfType(ms, t) :: m in ms && m.moduleType == t
    ensures forall m <- ms :: m.moduleType == t ==> m in OfType(ms, t)
    decreases |ms|
  {
    if ms != [] {
      var init, last := ms[..|ms| - 1], ms[|ms| - 1];
      assert ms == init + [last];
      OfTypeMembers(init, t);
    }
  }

  function Types(ms: seq<Module>): set<string> {
    set m <- ms :: m.moduleType
  }

  /** One step of the reduce: create the group if it is missing, then push. */
  function AddToGroup(groups: map<string, seq<Module>>, m: Module): map<string, seq<Module>> {
    if m.moduleType in groups then groups[m.moduleType := groups[m.moduleType] + [m]]
    else groups[m.moduleType := [m]]
  }

  /** The accumulator of the reduce after the modules `ms`, starting from the
      empty object. */
  function Grouping(ms: seq<Module>): map<string, seq<Module>>
    decreases |ms|
  {
    if ms == [] then map[]
    else AddToGroup(Grouping(ms[..|ms| - 1]), ms[|ms| - 1])
  }

  lemma OfTypeSnoc(ms: seq<Module>, m: Module, t: string)
    ensures OfType(ms + [m], t) == OfType(ms, t) + (if m.moduleType == t then [m] else [])
  {
    assert (ms + [m])[..|ms + [m]| - 1] == ms;
  }

  lemma TypesSnoc(ms: seq<Module>, m: Module)
    ensures Types(ms + [m]) == Types(ms) + {m.moduleType}
  {
    var ms' := ms + [m];
    forall t | t in Types(ms') ensures t in Types(ms) + {m.moduleType} {
      var x :| x in ms' && x.moduleType == t;
      if x != m { assert x in ms; }
    }
    forall t | t in Types(ms) ensures t in Types(ms') {
      var x :| x in ms && x.moduleType == t;
      assert x in ms';
    }
  }

  lemma OfTypeAbsent(ms: seq<Module>, t: string)
    ensures t !in Types(ms) ==> OfType(ms, t) == []
  {
    if OfType(ms, t) != [] {
      OfTypeMembers(ms, t);
      var x := OfType(ms, t)[0];
      assert x in ms && x.moduleType == t;
    }
  }

  /** The reduce builds, for each type, the group of exactly the modules of
      that type in input order, and has a group for exactly the types that
      occur. */
  lemma {:induction false} GroupingAt(ms: seq<Module>, t: string)
    ensures t in Grouping(ms) <==> t in Types(ms)
    ensures t in Grouping(ms) ==> Grouping(ms)[t] == OfType(ms, t)
    decreases |ms|
  {
    if ms == [] {
      assert Types(ms) == {};
    } else {
      var init, m := ms[..|ms| - 1], ms[|ms| - 1];
      assert ms == init + [m];
      GroupingAt(init, t);
      TypesSnoc(init, m);
      OfTypeSnoc(init, m, t);
      OfTypeAbsent(init, t);
    }
  }

  /** The keys are exactly the types that occur; each group holds the modules
      of its type in input order, and none is empty. */
  lemma GroupingKeys(ms: seq<Module>)
    ensures Grouping(ms).Keys == Types(ms)
    ensures forall t <- Grouping(ms) :: Grouping(ms)[t] == OfType(ms, t) && Grouping(ms)[t] != []
  {
    forall t ensures t in Grouping(ms) <==> t in Types(ms) {
      GroupingAt(ms, t);
    }
    forall t <- Grouping(ms) ensures Grouping(ms)[t] == OfType(ms, t) && Grouping(ms)[t] != [] {
      GroupingAt(ms, t);
      var m :| m in ms && m.moduleType == t;
      OfTypeMembers(ms, t);
    }
  }

  /** Creating a missing group as `[]` and then pushing is one `AddToGroup`. */
  lemma PushAfterCreate(before: map<string, seq<Module>>, m: Module, after: map<string, seq<Module>>)
    requires after == before[m.moduleType := (if m.moduleType in before then before[m.moduleType] else []) + [m]]
    ensures after == AddToGroup(before, m)
  {
    if m.moduleType !in before {
      assert [] + [m] == [m];
    }
  }

  /** One iteration of the reduce extends the accumulator by the next module. */
  lemma ReduceStep(ms: seq<Module>, i: nat, before: map<string, seq<Module>>, after: map<string, seq<Module>>)
    requires i < |ms|
    requires before == Grouping(ms[..i])
    requires after == before[ms[i].moduleType := (if ms[i].moduleType in before then before[ms[i].moduleType] else []) + [ms[i]]]
    ensures after == Grouping(ms[..i + 1])
  {
    PushAfterCreate(before, ms[i], after);
    assert ms[..i + 1][..i] == ms[..i];
  }

  /** `groupModulesByType`: a reduce over the modules that creates a group on
      first sight of a type and pushes each module onto its own group. The
      result has a group for exactly the types that occur, holding that
      type's modules in input order. */
  method GroupModulesByType(modules: seq<Module>) returns (groups: map<string, seq<Module>>)
    ensures groups == Grouping(modules)
    ensures groups.Keys == Types(modules)
    ensures forall t <- groups :: groups[t] == OfType(modules, t)
  {
    groups := map[];
    var i := 0;
    while i < |modules|
      invariant 0 <= i <= |modules|
      invariant groups == Grouping(modules[..i])
    {
      var m := modules[i];
      ghost var before := groups;
      var group := if m.moduleType in groups then groups[m.moduleType] else [];
      groups := groups[m.moduleType := group + [m]];
      ReduceStep(modules, i, before, groups);
      i := i + 1;
    }
    assert modules[..i] == modules;
    GroupingKeys(modules);
  }

  /** Every module sits in the group of its own type, and a group holds
      nothing else. */
  lemma GroupingPlacesEachModule(ms: seq<Module>)
    ensures forall m <- ms :: m.moduleType in Grouping(ms) && m in Grouping(ms)[m.moduleType]
    ensures forall t <- Grouping(ms) :: forall m <- Grouping(ms)[t] :: m in ms && m.moduleType == t
  {
    GroupingKeys(ms);
    forall t | t in Types(ms) {
      OfTypeMembers(ms, t);
    }
  }

  /** Sum of the group sizes. */
  ghost function TotalSize(g: map<string, seq<Module>>): nat
    decreases |g.Keys|
  {
    if g == map[] then 0
    else
      var k :| k in g;
      assert |(g - {k}).Keys| < |g.Keys| by { assert (g - {k}).Keys == g.Keys - {k}; }
      |g[k]| + TotalSize(g - {k})
  }

  /** The sum does not depend on which key is taken first. */
  lemma {:induction false} TotalSizeSplit(g: map<string, seq<Module>>, k: string)
    requires k in g
    ensures TotalSize(g) == |g[k]| + TotalSize(g - {k})
    decreases |g.Keys|
  {
    var k' :| k' in g && TotalSize(g) == |g[k']| + TotalSize(g - {k'});
    if k' != k {
      assert (g - {k'}).Keys == g.Keys - {k'};
      assert (g - {k}).Keys == g.Keys - {k};
      TotalSizeSplit(g - {k'}, k);
      TotalSizeSplit(g - {k}, k');
      assert g - {k'} - {k} == g - {k} - {k'};
    }
  }

  lemma TotalSizeAdd(g: map<string, seq<Module>>, m: Module)
    ensures TotalSize(AddToGroup(g, m)) == TotalSize(g) + 1
  {
    var t := m.moduleType;
    var g' := AddToGroup(g, m);
    TotalSizeSplit(g', t);
    if t in g {
      assert g' - {t} == g - {t};
      TotalSizeSplit(g, t);
    } else {
      assert g' - {t} == g;
    }
  }

  /** The group sizes add up to the number of modules. */
  lemma {:induction false} GroupingTotal(ms: seq<Module>)
    ensures TotalSize(Grouping(ms)) == |ms|
    decreases |ms|
  {
    if ms != [] {
      var init := ms[..|ms| - 1];
      GroupingTotal(init);
      TotalSizeAdd(Grouping(init), ms[|ms| - 1]);
    }
  }
}
