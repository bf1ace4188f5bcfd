/** The three aggregators of the issue queries: counts by type and state, counts by type,
    and monthly counts by type for one project. Each builds its query, fetches every
    match page by page, and folds the matches into nested count maps. The tracker is a
    function from a query to its full list of matches, which the fetcher pages through. */
module Aggregation {
  import opened Wrappers
  import opened Strings
  import opened Dates
  import opened PeriodUtils
  import opened Issues
  import opened QueryBuilder
  import opened IssueFetcher
  import opened Tally
  import opened Sorting

  const NO_SUBTASKS_CLAUSE := "has: -{subtask of}"

  /** `f"{proj_clause} {created_clause} {no_subtasks_clause}".strip()`. */
  function CountsQuery(active: seq<string>, createdClause: string): string {
    Strip(ProjectsOrClause(active) + " " + createdClause + " " + NO_SUBTASKS_CLAUSE)
  }

  /** The query of the two period aggregators, or the period filter's error. */
  function PeriodCountsQuery(active: seq<string>, periodKey: string, today: Date): (r: Result<string, PeriodError>)
    requires ValidDate(today)
    ensures r.Err? <==> CreatedFilter(periodKey, today).Err?
    ensures r.Err? ==> r.error == CreatedFilter(periodKey, today).error
    ensures r.Ok? ==> r.value == CountsQuery(active, CreatedFilter(periodKey, today).value)
  {
    match CreatedFilter(periodKey, today)
    case Err(e) => Err(e)
    case Ok(created) => Ok(CountsQuery(active, created))
  }

  /** A project clause that names a code starts with its first term. */
  lemma {:induction false} ClauseStart(projects: seq<string>)
    ensures NonEmptyCodes(projects) != [] ==> ProjectsOrClause(projects)[0] == 'p'
  {
    if projects != [] {
      if projects[0] == [] {
        ClauseSkip(projects);
        ClauseStart(projects[1..]);
      } else {
        ClauseCons(projects);
      }
    }
  }

  /** A single leading space is all Strip removes from a stripped text behind it. */
  lemma StripLeadingSpace(x: string)
    requires x != [] && IsStripped(x)
    ensures Strip(" " + x) == x
  {
    assert (" " + x)[1..] == x;
    assert LStrip(" " + x) == x;
  }

  /** The outer `strip()` removes nothing but the space left by an empty project clause:
      the query is the project clause (when some code is active), the created clause and
      the subtask exclusion, separated by single spaces. */
  lemma CountsQueryShape(active: seq<string>, createdClause: string)
    requires createdClause != [] && !IsSpace(createdClause[0])
    ensures CountsQuery(active, createdClause) ==
      if NonEmptyCodes(active) == [] then createdClause + " " + NO_SUBTASKS_CLAUSE
      else ProjectsOrClause(active) + " " + createdClause + " " + NO_SUBTASKS_CLAUSE
  {
    var p := ProjectsOrClause(active);
    var tail := createdClause + " " + NO_SUBTASKS_CLAUSE;
    assert tail[|tail| - 1] == '}';
    assert p + " " + createdClause + " " + NO_SUBTASKS_CLAUSE == p + " " + tail;
    if NonEmptyCodes(active) == [] {
      assert p + " " + tail == " " + tail;
      StripLeadingSpace(tail);
    } else {
      ClauseStart(active);
      var s := p + " " + tail;
      assert s[0] == p[0] && s[|s| - 1] == '}';
      StripOfStripped(s);
    }
  }

  /** For a period key that resolves, the query is the project clause (when some code is
      active), the `created` filter of the resolved range and the subtask exclusion,
      separated by single spaces. */
  lemma PeriodCountsQueryShape(active: seq<string>, periodKey: string, today: Date)
    requires ValidDate(today)
    ensures PeriodCountsQuery(active, periodKey, today).Ok? ==>
      PeriodCountsQuery(active, periodKey, today).value ==
        if NonEmptyCodes(active) == [] then CreatedFilter(periodKey, today).value + " " + NO_SUBTASKS_CLAUSE
        else ProjectsOrClause(active) + " " + CreatedFilter(periodKey, today).value + " " + NO_SUBTASKS_CLAUSE
  {
    if CreatedFilter(periodKey, today).Ok? {
      var (start, end) := GetPeriodRange(periodKey, today).value;
      assert CreatedFilter(periodKey, today).value == RangeFragment("created", start, end);
      CountsQueryShape(active, CreatedFilter(periodKey, today).value);
    }
  }

  /** What the loops decide about one issue: its type (or "Unspecified") is excluded, or
      it is kept with its type and state, without a project or with one. */
  datatype Class =
    | Excluded
    | Unassigned(itype: string, state: string)
    | Assigned(project: string, itype: string, state: string)

  /** The tests of the loop bodies, in their order: the exclusion test on the type, then
      the project test. */
  function Classify(excluded: set<string>): Issue -> Class {
    i =>
      var t := TypeOrUnspecified(i);
      if IsExcluded(t, excluded) then Excluded
      else if ProjectOf(i) == [] then Unassigned(t, StateOrUnspecified(i))
      else Assigned(ProjectOf(i), t, StateOrUnspecified(i))
  }

  /** A type that the exclusion list lets through. */
  function Allowed(excluded: set<string>): string -> bool {
    t => !IsExcluded(t, excluded)
  }

  lemma ClassifyAllowed(excluded: set<string>, i: Issue)
    ensures !Classify(excluded)(i).Excluded? ==> Allowed(excluded)(Classify(excluded)(i).itype)
    ensures !Classify(excluded)(i).Excluded? ==>
      Classify(excluded)(i).itype == TypeOrUnspecified(i) && Classify(excluded)(i).state == StateOrUnspecified(i)
    ensures Classify(excluded)(i).Assigned? <==> Allowed(excluded)(TypeOrUnspecified(i)) && ProjectOf(i) != []
    ensures Classify(excluded)(i).Assigned? ==> Classify(excluded)(i).project == ProjectOf(i)
  {
  }

  function Kept(cls: Issue -> Class): Issue -> bool {
    i => !cls(i).Excluded?
  }

  function Counted(cls: Issue -> Class): Issue -> bool {
    i => cls(i).Assigned?
  }

  function NoProject(cls: Issue -> Class): Issue -> bool {
    i => cls(i).Unassigned?
  }

  function InProject(cls: Issue -> Class): string -> Issue -> bool {
    p => i => cls(i).Assigned? && cls(i).project == p
  }

  /** The project an issue is counted under ("" for one that is not counted). */
  function ProjectKey(cls: Issue -> Class): Issue -> string {
    i => if cls(i).Assigned? then cls(i).project else ""
  }

  function OfTypeState(cls: Issue -> Class, t: string, s: string): Issue -> bool {
    i => cls(i).Assigned? && cls(i).itype == t && cls(i).state == s
  }

  function InProjectTypeState(cls: Issue -> Class, t: string, s: string): string -> Issue -> bool {
    p => i => cls(i) == Assigned(p, t, s)
  }

  function OfType(cls: Issue -> Class, t: string): Issue -> bool {
    i => cls(i).Assigned? && cls(i).itype == t
  }

  function InProjectType(cls: Issue -> Class, t: string): string -> Issue -> bool {
    p => i => cls(i).Assigned? && cls(i).project == p && cls(i).itype == t
  }

  /** A kept issue of type `t`, with or without a project. */
  function KeptOfType(cls: Issue -> Class, t: string): Issue -> bool {
    i => !cls(i).Excluded? && cls(i).itype == t
  }

  /** Every active project is a key from the start; any other key is the project of a
      counted issue. */
  ghost predicate ProjectKeys(keys: set<string>, issues: seq<Issue>, active: seq<string>, cls: Issue -> Class) {
    forall p :: p in keys <==> p in active || Count(issues, InProject(cls)(p)) > 0
  }

  lemma KeysStep(keys: set<string>, xs: seq<Issue>, x: Issue, active: seq<string>, cls: Issue -> Class)
    requires ProjectKeys(keys, xs, active, cls)
    ensures cls(x).Assigned? ==> ProjectKeys(keys + {cls(x).project}, xs + [x], active, cls)
    ensures !cls(x).Assigned? ==> ProjectKeys(keys, xs + [x], active, cls)
  {
    forall p ensures Count(xs + [x], InProject(cls)(p)) == Count(xs, InProject(cls)(p)) + (if InProject(cls)(p)(x) then 1 else 0) {
      CountSnoc(xs, x, InProject(cls)(p));
    }
  }

  /** `{p: {} for p in ACTIVE_PROJECTS}`. */
  function StartingMap<V>(active: seq<string>, empty: V): (r: map<string, V>)
    ensures r.Keys == set p | p in active
    ensures forall p :: p in r ==> r[p] == empty
  {
    map p | p in active :: empty
  }

  lemma KeysInit(active: seq<string>, cls: Issue -> Class)
    ensures ProjectKeys(set p | p in active, [], active, cls)
  {
  }

  /** Keys appear only for positive counts, and no excluded type is a key. */
  ghost predicate TypesShape1(m: map<string, nat>, excluded: set<string>) {
    Positive1(m) && forall t :: t in m ==> Allowed(excluded)(t)
  }

  ghost predicate TypesShape2(m: map<string, map<string, nat>>, excluded: set<string>) {
    Positive2(m) && forall t :: t in m ==> Allowed(excluded)(t)
  }

  lemma Shape1Step(m: map<string, nat>, t: string, excluded: set<string>)
    requires TypesShape1(m, excluded) && Allowed(excluded)(t)
    ensures TypesShape1(Inc1(m, t), excluded)
  {
    var r := Inc1(m, t);
    forall u | u in r ensures Allowed(excluded)(u) {
      if u != t {
        assert u in m;
      }
    }
  }

  lemma Shape2Step(m: map<string, map<string, nat>>, t: string, s: string, excluded: set<string>)
    requires TypesShape2(m, excluded) && Allowed(excluded)(t)
    ensures TypesShape2(Inc2(m, t, s), excluded)
  {
    var r := Inc2(m, t, s);
    forall u | u in r ensures Allowed(excluded)(u) {
      if u != t {
        assert u in m;
      }
    }
  }

  // ---------------------------------------------------------------------------------
  // get_task_counts_by_type_and_state

  /** The result of `get_task_counts_by_type_and_state`; the `debug` entry is spread into
      `query`, `raw` and `afterExclude`. */
  datatype TypeStateCounts = TypeStateCounts(
    perProject: map<string, map<string, map<string, nat>>>,
    overall: map<string, map<string, nat>>,
    query: string, raw: nat, afterExclude: nat)

  /** The counters: `raw` counts every issue, `after_exclude` the counted ones, which are
      also all the leaves of `overall` added up. */
  ghost predicate TypeStateCounters(c: TypeStateCounts, issues: seq<Issue>, cls: Issue -> Class) {
    && c.raw == |issues|
    && c.afterExclude == Count(issues, Counted(cls))
    && c.afterExclude == Total2(c.overall)
  }

  ghost predicate OverallTallies(overall: map<string, map<string, nat>>, issues: seq<Issue>, cls: Issue -> Class) {
    forall t, s :: Get2(overall, t, s) == Count(issues, OfTypeState(cls, t, s))
  }

  ghost predicate PerProjectTallies(perProject: map<string, map<string, map<string, nat>>>, issues: seq<Issue>, cls: Issue -> Class) {
    forall p, t, s :: Get3(perProject, p, t, s) == Count(issues, InProjectTypeState(cls, t, s)(p))
  }

  ghost predicate TypeStateShape(c: TypeStateCounts, excluded: set<string>) {
    && TypesShape2(c.overall, excluded)
    && (forall p :: p in c.perProject ==> TypesShape2(c.perProject[p], excluded))
  }

  /** What the fold over `issues` computes under the classification `cls`: every count is
      the number of matching issues, keys appear only for positive counts (apart from the
      active projects, present from the start), and no excluded type is a key. */
  ghost predicate TypeStateTallied(c: TypeStateCounts, issues: seq<Issue>, active: seq<string>, cls: Issue -> Class, excluded: set<string>) {
    && TypeStateCounters(c, issues, cls)
    && OverallTallies(c.overall, issues, cls)
    && PerProjectTallies(c.perProject, issues, cls)
    && ProjectKeys(c.perProject.Keys, issues, active, cls)
    && TypeStateShape(c, excluded)
  }

  /** The same, for the classification the source's loop applies. */
  ghost predicate TypeStateTallies(c: TypeStateCounts, issues: seq<Issue>, active: seq<string>, excluded: set<string>) {
    TypeStateTallied(c, issues, active, Classify(excluded), excluded)
  }

  lemma TypeStateInit(active: seq<string>, cls: Issue -> Class, excluded: set<string>, query: string)
    ensures TypeStateTallied(TypeStateCounts(StartingMap(active, map[]), map[], query, 0, 0), [], active, cls, excluded)
  {
    KeysInit(active, cls);
  }

  /** An issue that is excluded or has no project only raises `raw`. */
  lemma TypeStateSkip(c: TypeStateCounts, xs: seq<Issue>, x: Issue, active: seq<string>, cls: Issue -> Class, excluded: set<string>)
    requires TypeStateTallied(c, xs, active, cls, excluded)
    requires !cls(x).Assigned?
    ensures TypeStateTallied(c.(raw := c.raw + 1), xs + [x], active, cls, excluded)
  {
    CountSnoc(xs, x, Counted(cls));
    forall t, s ensures Get2(c.overall, t, s) == Count(xs + [x], OfTypeState(cls, t, s)) {
      CountSnoc(xs, x, OfTypeState(cls, t, s));
    }
    forall p, t, s ensures Get3(c.perProject, p, t, s) == Count(xs + [x], InProjectTypeState(cls, t, s)(p)) {
      CountSnoc(xs, x, InProjectTypeState(cls, t, s)(p));
    }
    KeysStep(c.perProject.Keys, xs, x, active, cls);
  }

  /** A counted issue raises `raw`, `after_exclude` and its own leaf in both maps. */
  lemma TypeStateCount(c: TypeStateCounts, xs: seq<Issue>, x: Issue, active: seq<string>, cls: Issue -> Class, excluded: set<string>,
                       p: string, t: string, s: string)
    requires TypeStateTallied(c, xs, active, cls, excluded)
    requires cls(x) == Assigned(p, t, s) && Allowed(excluded)(t)
    ensures TypeStateTallied(TypeStateCounts(Inc3(c.perProject, p, t, s), Inc2(c.overall, t, s), c.query, c.raw + 1, c.afterExclude + 1),
                             xs + [x], active, cls, excluded)
  {
    CountSnoc(xs, x, Counted(cls));
    OverallStep(c.overall, xs, x, cls, t, s);
    PerProjectStep(c.perProject, xs, x, cls, p, t, s);
    KeysStep(c.perProject.Keys, xs, x, active, cls);
    TypeStateShapeStep(c, p, t, s, excluded);
  }

  lemma OverallStep(overall: map<string, map<string, nat>>, xs: seq<Issue>, x: Issue, cls: Issue -> Class, t: string, s: string)
    requires OverallTallies(overall, xs, cls) && cls(x).Assigned? && cls(x).itype == t && cls(x).state == s
    ensures OverallTallies(Inc2(overall, t, s), xs + [x], cls)
  {
    var r := Inc2(overall, t, s);
    forall t', s' ensures Get2(r, t', s') == Count(xs + [x], OfTypeState(cls, t', s')) {
      CountSnoc(xs, x, OfTypeState(cls, t', s'));
    }
  }

  lemma PerProjectStep(perProject: map<string, map<string, map<string, nat>>>, xs: seq<Issue>, x: Issue, cls: Issue -> Class,
                       p: string, t: string, s: string)
    requires PerProjectTallies(perProject, xs, cls) && cls(x) == Assigned(p, t, s)
    ensures PerProjectTallies(Inc3(perProject, p, t, s), xs + [x], cls)
  {
    var r := Inc3(perProject, p, t, s);
    forall p', t', s' ensures Get3(r, p', t', s') == Count(xs + [x], InProjectTypeState(cls, t', s')(p')) {
      CountSnoc(xs, x, InProjectTypeState(cls, t', s')(p'));
    }
  }

  lemma TypeStateShapeStep(c: TypeStateCounts, p: string, t: string, s: string, excluded: set<string>)
    requires TypeStateShape(c, excluded) && Allowed(excluded)(t)
    ensures TypeStateShape(TypeStateCounts(Inc3(c.perProject, p, t, s), Inc2(c.overall, t, s), c.query, c.raw + 1, c.afterExclude + 1), excluded)
  {
    Shape2Step(c.overall, t, s, excluded);
    PerProjectShapeStep(c.perProject, p, t, s, excluded);
  }

  lemma PerProjectShapeStep(m3: map<string, map<string, map<string, nat>>>, p: string, t: string, s: string, excluded: set<string>)
    requires forall q :: q in m3 ==> TypesShape2(m3[q], excluded)
    requires Allowed(excluded)(t)
    ensures var r := Inc3(m3, p, t, s); forall q :: q in r ==> TypesShape2(r[q], excluded)
  {
    var inner := Inner(m3, p);
    assert TypesShape2(inner, excluded);
    Shape2Step(inner, t, s, excluded);
    var r := m3[p := Inc2(inner, t, s)];
    assert forall q :: q in r ==> TypesShape2(r[q], excluded);
    assert Inc3(m3, p, t, s) == r;
  }

  /** One issue of the loop under the classification `cls`. */
  function TypeStateStep(c: TypeStateCounts, k: Class): TypeStateCounts {
    match k
    case Assigned(p, t, s) =>
      c.(perProject := Inc3(c.perProject, p, t, s), overall := Inc2(c.overall, t, s), raw := c.raw + 1, afterExclude := c.afterExclude + 1)
    case _ => c.(raw := c.raw + 1)
  }

  /** The counts after the loop has seen `issues`, starting from every active project
      with no counts. */
  function FoldTypeState(issues: seq<Issue>, active: seq<string>, cls: Issue -> Class, query: string): TypeStateCounts {
    if issues == [] then TypeStateCounts(StartingMap(active, map[]), map[], query, 0, 0)
    else TypeStateStep(FoldTypeState(issues[..|issues| - 1], active, cls, query), cls(issues[|issues| - 1]))
  }

  /** The fold computes the tallies: the property the loop is proved to keep. */
  lemma {:induction false} FoldTypeStateTallied(issues: seq<Issue>, active: seq<string>, cls: Issue -> Class, excluded: set<string>, query: string)
    requires forall j :: 0 <= j < |issues| && !cls(issues[j]).Excluded? ==> Allowed(excluded)(cls(issues[j]).itype)
    ensures FoldTypeState(issues, active, cls, query).query == query
    ensures TypeStateTallied(FoldTypeState(issues, active, cls, query), issues, active, cls, excluded)
  {
    if issues == [] {
      TypeStateInit(active, cls, excluded, query);
    } else {
      var xs := issues[..|issues| - 1];
      var x := issues[|issues| - 1];
      assert issues == xs + [x];
      forall j | 0 <= j < |xs| && !cls(xs[j]).Excluded? ensures Allowed(excluded)(cls(xs[j]).itype) {
        assert xs[j] == issues[j];
      }
      FoldTypeStateTallied(xs, active, cls, excluded, query);
      var c := FoldTypeState(xs, active, cls, query);
      match cls(x)
      case Assigned(p, t, s) =>
        TypeStateCount(c, xs, x, active, cls, excluded, p, t, s);
      case _ =>
        TypeStateSkip(c, xs, x, active, cls, excluded);
    }
  }

  /** The classification never keeps an excluded type. */
  lemma ClassifyKeepsAllowed(issues: seq<Issue>, excluded: set<string>)
    ensures forall j :: 0 <= j < |issues| && !Classify(excluded)(issues[j]).Excluded? ==>
      Allowed(excluded)(Classify(excluded)(issues[j]).itype)
  {
  }

  /** The fold under the source's classification. */
  lemma FoldTypeStateTallies(issues: seq<Issue>, active: seq<string>, excluded: set<string>, query: string)
    ensures FoldTypeState(issues, active, Classify(excluded), query).query == query
    ensures TypeStateTallies(FoldTypeState(issues, active, Classify(excluded), query), issues, active, excluded)
  {
    ClassifyKeepsAllowed(issues, excluded);
    FoldTypeStateTallied(issues, active, Classify(excluded), excluded, query);
  }

  /** The loop of `get_task_counts_by_type_and_state` over the fetched issues, with the
      per-issue tests (type, exclusion, project, state) given by `cls`. */
  method TallyTypeState(issues: seq<Issue>, active: seq<string>, cls: Issue -> Class, query: string)
    returns (c: TypeStateCounts)
    ensures c == FoldTypeState(issues, active, cls, query)
  {
    c := TypeStateCounts(StartingMap(active, map[]), map[], query, 0, 0);
    var i := 0;
    while i < |issues|
      invariant 0 <= i <= |issues|
      invariant c == FoldTypeState(issues[..i], active, cls, query)
    {
      var issue := issues[i];
      assert issues[..i + 1][..i] == issues[..i];
      assert FoldTypeState(issues[..i + 1], active, cls, query) == TypeStateStep(c, cls(issue));
      match cls(issue) {
        case Assigned(proj, itype, istate) =>
          c := c.(perProject := Inc3(c.perProject, proj, itype, istate), overall := Inc2(c.overall, itype, istate),
                  raw := c.raw + 1, afterExclude := c.afterExclude + 1);
        case _ =>
          c := c.(raw := c.raw + 1);
      }
      i := i + 1;
    }
    assert issues[..i] == issues;
  }

  /** `get_task_counts_by_type_and_state(period_key)` with the configured project and type
      lists, `date.today()` and the tracker passed in. No active project gives the empty
      result before the period key is even looked at; otherwise an unknown key or an
      unrepresentable date fails as the period filter does. */
  method CountsByTypeAndState(configProjects: seq<string>, configTypes: seq<string>, periodKey: string, today: Date,
                              search: string -> seq<Issue>)
    returns (r: Result<TypeStateCounts, PeriodError>)
    requires ValidDate(today)
    ensures var active := NormalizeActiveProjects(configProjects);
      active == [] ==> r == Ok(TypeStateCounts(map[], map[], "", 0, 0))
    ensures var (active, q) := (NormalizeActiveProjects(configProjects), PeriodCountsQuery(NormalizeActiveProjects(configProjects), periodKey, today));
      active != [] ==>
        && (r.Err? <==> q.Err?)
        && (r.Err? ==> r.error == q.error)
        && (r.Ok? ==> r.value.query == q.value &&
                      TypeStateTallies(r.value, search(q.value), active, NormalizeExcludedTypes(configTypes)))
  {
    var active := NormalizeActiveProjects(configProjects);
    var excluded := NormalizeExcludedTypes(configTypes);
    if active == [] {
      return Ok(TypeStateCounts(map[], map[], "", 0, 0));
    }
    var query := PeriodCountsQuery(active, periodKey, today);
    if query.Err? {
      return Err(query.error);
    }
    var issues, _ := IterIssues(search(query.value), PAGE_SIZE);
    var c := TallyTypeState(issues, active, Classify(excluded), query.value);
    FoldTypeStateTallies(issues, active, excluded, query.value);
    return Ok(c);
  }

  /** Sum over the listed projects of one per-project leaf. */
  function SumOverProjects3(perProject: map<string, map<string, map<string, nat>>>, ps: seq<string>, t: string, s: string): nat {
    if ps == [] then 0 else Get3(perProject, ps[0], t, s) + SumOverProjects3(perProject, ps[1..], t, s)
  }

  lemma {:induction false} SumCountsPerProject3(c: TypeStateCounts, issues: seq<Issue>, cls: Issue -> Class, ps: seq<string>, t: string, s: string)
    requires PerProjectTallies(c.perProject, issues, cls)
    ensures SumCounts(ps, issues, InProjectTypeState(cls, t, s)) == SumOverProjects3(c.perProject, ps, t, s)
  {
    if ps != [] {
      SumCountsPerProject3(c, issues, cls, ps[1..], t, s);
    }
  }

  /** `overall[t][s]` is the sum over the projects of `per_project[p][t][s]`, for any
      duplicate-free list of projects that includes every key of `per_project`. */
  lemma OverallIsSumOfProjects(c: TypeStateCounts, issues: seq<Issue>, active: seq<string>, excluded: set<string>,
                               ps: seq<string>, t: string, s: string)
    requires TypeStateTallies(c, issues, active, excluded)
    requires Distinct(ps) && forall p :: p in c.perProject ==> p in ps
    ensures Get2(c.overall, t, s) == SumOverProjects3(c.perProject, ps, t, s)
  {
    var cls := Classify(excluded);
    forall j | 0 <= j < |issues| && OfTypeState(cls, t, s)(issues[j]) ensures ProjectKey(cls)(issues[j]) in ps {
      CountPositive(issues, InProject(cls)(cls(issues[j]).project), j);
    }
    CountByKey(ps, issues, InProjectTypeState(cls, t, s), OfTypeState(cls, t, s), ProjectKey(cls));
    SumCountsPerProject3(c, issues, cls, ps, t, s);
  }

  // ---------------------------------------------------------------------------------
  // get_task_counts_by_type

  /** The result of `get_task_counts_by_type`. */
  datatype TypeCounts = TypeCounts(
    perProject: map<string, map<string, nat>>,
    overall: map<string, nat>,
    query: string, raw: nat, afterExclude: nat)

  /** `raw` counts every issue; `after_exclude` every kept one, including the ones without
      a project that reach no map, so it is the sum of `overall` plus those. */
  ghost predicate TypeCounters(c: TypeCounts, issues: seq<Issue>, cls: Issue -> Class) {
    && c.raw == |issues|
    && c.afterExclude == Count(issues, Kept(cls))
    && Total(c.overall) == Count(issues, Counted(cls))
    && c.afterExclude == Total(c.overall) + Count(issues, NoProject(cls))
  }

  ghost predicate OverallTypeTallies(overall: map<string, nat>, issues: seq<Issue>, cls: Issue -> Class) {
    forall t :: Get(overall, t) == Count(issues, OfType(cls, t))
  }

  ghost predicate PerProjectTypeTallies(perProject: map<string, map<string, nat>>, issues: seq<Issue>, cls: Issue -> Class) {
    forall p, t :: Get2(perProject, p, t) == Count(issues, InProjectType(cls, t)(p))
  }

  ghost predicate TypeShape(c: TypeCounts, excluded: set<string>) {
    && TypesShape1(c.overall, excluded)
    && (forall p :: p in c.perProject ==> TypesShape1(c.perProject[p], excluded))
  }

  ghost predicate TypeTallied(c: TypeCounts, issues: seq<Issue>, active: seq<string>, cls: Issue -> Class, excluded: set<string>) {
    && TypeCounters(c, issues, cls)
    && OverallTypeTallies(c.overall, issues, cls)
    && PerProjectTypeTallies(c.perProject, issues, cls)
    && ProjectKeys(c.perProject.Keys, issues, active, cls)
    && TypeShape(c, excluded)
  }

  ghost predicate TypeTallies(c: TypeCounts, issues: seq<Issue>, active: seq<string>, excluded: set<string>) {
    TypeTallied(c, issues, active, Classify(excluded), excluded)
  }

  /** One issue of the loop of `get_task_counts_by_type`: `after_exclude` grows before the
      project test. */
  function TypeStep(c: TypeCounts, k: Class): TypeCounts {
    match k
    case Excluded => c.(raw := c.raw + 1)
    case Unassigned(_, _) => c.(raw := c.raw + 1, afterExclude := c.afterExclude + 1)
    case Assigned(p, t, _) =>
      c.(perProject := Inc2(c.perProject, p, t), overall := Inc1(c.overall, t), raw := c.raw + 1, afterExclude := c.afterExclude + 1)
  }

  function FoldType(issues: seq<Issue>, active: seq<string>, cls: Issue -> Class, query: string): TypeCounts {
    if issues == [] then TypeCounts(StartingMap(active, map[]), map[], query, 0, 0)
    else TypeStep(FoldType(issues[..|issues| - 1], active, cls, query), cls(issues[|issues| - 1]))
  }

  lemma TypeInit(active: seq<string>, cls: Issue -> Class, excluded: set<string>, query: string)
    ensures TypeTallied(TypeCounts(StartingMap(active, map[]), map[], query, 0, 0), [], active, cls, excluded)
  {
    KeysInit(active, cls);
  }

  lemma TypeCountersStep(c: TypeCounts, xs: seq<Issue>, x: Issue, cls: Issue -> Class)
    requires TypeCounters(c, xs, cls)
    ensures TypeCounters(TypeStep(c, cls(x)), xs + [x], cls)
  {
    CountSnoc(xs, x, Kept(cls));
    CountSnoc(xs, x, Counted(cls));
    CountSnoc(xs, x, NoProject(cls));
  }

  lemma OverallTypeStep(c: TypeCounts, xs: seq<Issue>, x: Issue, cls: Issue -> Class)
    requires OverallTypeTallies(c.overall, xs, cls)
    ensures OverallTypeTallies(TypeStep(c, cls(x)).overall, xs + [x], cls)
  {
    var r := TypeStep(c, cls(x)).overall;
    forall t ensures Get(r, t) == Count(xs + [x], OfType(cls, t)) {
      CountSnoc(xs, x, OfType(cls, t));
    }
  }

  lemma PerProjectTypeStep(c: TypeCounts, xs: seq<Issue>, x: Issue, cls: Issue -> Class)
    requires PerProjectTypeTallies(c.perProject, xs, cls)
    ensures PerProjectTypeTallies(TypeStep(c, cls(x)).perProject, xs + [x], cls)
  {
    var k := cls(x);
    if k.Assigned? {
      PerProjectTypeAssigned(c.perProject, xs, x, cls, k.project, k.itype);
    } else {
      PerProjectTypeOther(c.perProject, xs, x, cls);
    }
  }

  lemma PerProjectTypeAssigned(perProject: map<string, map<string, nat>>, xs: seq<Issue>, x: Issue, cls: Issue -> Class,
                               p: string, t: string)
    requires PerProjectTypeTallies(perProject, xs, cls)
    requires cls(x).Assigned? && cls(x).project == p && cls(x).itype == t
    ensures PerProjectTypeTallies(Inc2(perProject, p, t), xs + [x], cls)
  {
    var r := Inc2(perProject, p, t);
    forall p', t' ensures Get2(r, p', t') == Count(xs + [x], InProjectType(cls, t')(p')) {
      CountSnoc(xs, x, InProjectType(cls, t')(p'));
    }
  }

  lemma PerProjectTypeOther(perProject: map<string, map<string, nat>>, xs: seq<Issue>, x: Issue, cls: Issue -> Class)
    requires PerProjectTypeTallies(perProject, xs, cls)
    requires !cls(x).Assigned?
    ensures PerProjectTypeTallies(perProject, xs + [x], cls)
  {
    forall p, t ensures Get2(perProject, p, t) == Count(xs + [x], InProjectType(cls, t)(p)) {
      CountSnoc(xs, x, InProjectType(cls, t)(p));
    }
  }

  lemma TypeShapeStep(c: TypeCounts, k: Class, excluded: set<string>)
    requires TypeShape(c, excluded)
    requires !k.Excluded? ==> Allowed(excluded)(k.itype)
    ensures TypeShape(TypeStep(c, k), excluded)
  {
    if k.Assigned? {
      var (p, t) := (k.project, k.itype);
      Shape1Step(c.overall, t, excluded);
      Shape1Step(Inner(c.perProject, p), t, excluded);
      var per := Inc2(c.perProject, p, t);
      forall q | q in per ensures TypesShape1(per[q], excluded) {
        if q != p {
          assert per[q] == c.perProject[q];
        }
      }
    }
  }

  lemma {:induction false} FoldTypeTallied(issues: seq<Issue>, active: seq<string>, cls: Issue -> Class, excluded: set<string>, query: string)
    requires forall j :: 0 <= j < |issues| && !cls(issues[j]).Excluded? ==> Allowed(excluded)(cls(issues[j]).itype)
    ensures FoldType(issues, active, cls, query).query == query
    ensures TypeTallied(FoldType(issues, active, cls, query), issues, active, cls, excluded)
  {
    if issues == [] {
      TypeInit(active, cls, excluded, query);
    } else {
      var xs := issues[..|issues| - 1];
      var x := issues[|issues| - 1];
      assert issues == xs + [x];
      forall j | 0 <= j < |xs| && !cls(xs[j]).Excluded? ensures Allowed(excluded)(cls(xs[j]).itype) {
        assert xs[j] == issues[j];
      }
      FoldTypeTallied(xs, active, cls, excluded, query);
      var c := FoldType(xs, active, cls, query);
      TypeCountersStep(c, xs, x, cls);
      OverallTypeStep(c, xs, x, cls);
      PerProjectTypeStep(c, xs, x, cls);
      KeysStep(c.perProject.Keys, xs, x, active, cls);
      TypeShapeStep(c, cls(x), excluded);
    }
  }

  lemma FoldTypeTallies(issues: seq<Issue>, active: seq<string>, excluded: set<string>, query: string)
    ensures FoldType(issues, active, Classify(excluded), query).query == query
    ensures TypeTallies(FoldType(issues, active, Classify(excluded), query), issues, active, excluded)
  {
    ClassifyKeepsAllowed(issues, excluded);
    FoldTypeTallied(issues, active, Classify(excluded), excluded, query);
  }

  /** The loop of `get_task_counts_by_type` over the fetched issues. */
  method TallyType(issues: seq<Issue>, active: seq<string>, cls: Issue -> Class, query: string)
    returns (c: TypeCounts)
    ensures c == FoldType(issues, active, cls, query)
  {
    c := TypeCounts(StartingMap(active, map[]), map[], query, 0, 0);
    var i := 0;
    while i < |issues|
      invariant 0 <= i <= |issues|
      invariant c == FoldType(issues[..i], active, cls, query)
    {
      var issue := issues[i];
      assert issues[..i + 1][..i] == issues[..i];
      assert FoldType(issues[..i + 1], active, cls, query) == TypeStep(c, cls(issue));
      match cls(issue) {
        case Excluded =>
          c := c.(raw := c.raw + 1);
        case Unassigned(_, _) =>
          c := c.(raw := c.raw + 1, afterExclude := c.afterExclude + 1);
        case Assigned(proj, itype, _) =>
          c := c.(perProject := Inc2(c.perProject, proj, itype), overall := Inc1(c.overall, itype),
                  raw := c.raw + 1, afterExclude := c.afterExclude + 1);
      }
      i := i + 1;
    }
    assert issues[..i] == issues;
  }

  /** `get_task_counts_by_type(period_key)`, with the same inputs and the same early
      return and failure cases as the type-and-state counts. */
  method CountsByType(configProjects: seq<string>, configTypes: seq<string>, periodKey: string, today: Date,
                      search: string -> seq<Issue>)
    returns (r: Result<TypeCounts, PeriodError>)
    requires ValidDate(today)
    ensures var active := NormalizeActiveProjects(configProjects);
      active == [] ==> r == Ok(TypeCounts(map[], map[], "", 0, 0))
    ensures var (active, q) := (NormalizeActiveProjects(configProjects), PeriodCountsQuery(NormalizeActiveProjects(configProjects), periodKey, today));
      active != [] ==>
        && (r.Err? <==> q.Err?)
        && (r.Err? ==> r.error == q.error)
        && (r.Ok? ==> r.value.query == q.value &&
                      TypeTallies(r.value, search(q.value), active, NormalizeExcludedTypes(configTypes)))
  {
    var active := NormalizeActiveProjects(configProjects);
    var excluded := NormalizeExcludedTypes(configTypes);
    if active == [] {
      return Ok(TypeCounts(map[], map[], "", 0, 0));
    }
    var query := PeriodCountsQuery(active, periodKey, today);
    if query.Err? {
      return Err(query.error);
    }
    var issues, _ := IterIssues(search(query.value), PAGE_SIZE);
    var c := TallyType(issues, active, Classify(excluded), query.value);
    FoldTypeTallies(issues, active, excluded, query.value);
    return Ok(c);
  }

  function SumOverProjects2(perProject: map<string, map<string, nat>>, ps: seq<string>, t: string): nat {
    if ps == [] then 0 else Get2(perProject, ps[0], t) + SumOverProjects2(perProject, ps[1..], t)
  }

  lemma {:induction false} SumCountsPerProject2(c: TypeCounts, issues: seq<Issue>, cls: Issue -> Class, ps: seq<string>, t: string)
    requires PerProjectTypeTallies(c.perProject, issues, cls)
    ensures SumCounts(ps, issues, InProjectType(cls, t)) == SumOverProjects2(c.perProject, ps, t)
  {
    if ps != [] {
      SumCountsPerProject2(c, issues, cls, ps[1..], t);
    }
  }

  /** `overall[t]` is the sum over the projects of `per_project[p][t]`. */
  lemma OverallTypeIsSumOfProjects(c: TypeCounts, issues: seq<Issue>, active: seq<string>, excluded: set<string>,
                                   ps: seq<string>, t: string)
    requires TypeTallies(c, issues, active, excluded)
    requires Distinct(ps) && forall p :: p in c.perProject ==> p in ps
    ensures Get(c.overall, t) == SumOverProjects2(c.perProject, ps, t)
  {
    var cls := Classify(excluded);
    forall j | 0 <= j < |issues| && OfType(cls, t)(issues[j]) ensures ProjectKey(cls)(issues[j]) in ps {
      CountPositive(issues, InProject(cls)(cls(issues[j]).project), j);
    }
    CountByKey(ps, issues, InProjectType(cls, t), OfType(cls, t), ProjectKey(cls));
    SumCountsPerProject2(c, issues, cls, ps, t);
  }

  // ---------------------------------------------------------------------------------
  // get_monthly_task_counts_by_type

  /** `f"{year}-{m:02d}"`. */
  function MonthKey(year: nat, m: nat): string {
    DecimalString(year) + "-" + PadDigits(m, 2)
  }

  /** The months shown for `year`: up to the current month in the current year, all
      twelve otherwise. */
  function MonthsShown(year: int, today: Date): (n: int)
    requires ValidDate(today)
    ensures 1 <= n <= 12
  {
    if year == today.year then today.month else 12
  }

  /** The query for one month: the project, the whole month on `created`, no subtasks. */
  function MonthQuery(project: string, year: int, m: int): string
    requires MIN_YEAR <= year <= MAX_YEAR && 1 <= m <= 12
  {
    Strip("project: {" + project + "} " + RangeFragment("created", Date(year, m, 1), Date(year, m, DaysInMonth(year, m)))
          + " " + NO_SUBTASKS_CLAUSE)
  }

  /** One month's `per_type`: the number of kept issues of each type, and no other key. */
  ghost predicate MonthTallied(perType: map<string, nat>, issues: seq<Issue>, cls: Issue -> Class, excluded: set<string>) {
    && (forall t :: Get(perType, t) == Count(issues, KeptOfType(cls, t)))
    && TypesShape1(perType, excluded)
  }

  ghost predicate MonthTallies(perType: map<string, nat>, issues: seq<Issue>, excluded: set<string>) {
    MonthTallied(perType, issues, Classify(excluded), excluded)
  }

  /** The inner loop of the monthly counts: no project test here. */
  function FoldMonth(issues: seq<Issue>, cls: Issue -> Class): map<string, nat> {
    if issues == [] then map[]
    else
      var perType := FoldMonth(issues[..|issues| - 1], cls);
      var k := cls(issues[|issues| - 1]);
      if k.Excluded? then perType else Inc1(perType, k.itype)
  }

  lemma {:induction false} FoldMonthTallied(issues: seq<Issue>, cls: Issue -> Class, excluded: set<string>)
    requires forall j :: 0 <= j < |issues| && !cls(issues[j]).Excluded? ==> Allowed(excluded)(cls(issues[j]).itype)
    ensures MonthTallied(FoldMonth(issues, cls), issues, cls, excluded)
  {
    if issues != [] {
      var xs := issues[..|issues| - 1];
      var x := issues[|issues| - 1];
      assert issues == xs + [x];
      forall j | 0 <= j < |xs| && !cls(xs[j]).Excluded? ensures Allowed(excluded)(cls(xs[j]).itype) {
        assert xs[j] == issues[j];
      }
      FoldMonthTallied(xs, cls, excluded);
      var m := FoldMonth(xs, cls);
      forall t ensures Get(FoldMonth(issues, cls), t) == Count(issues, KeptOfType(cls, t)) {
        CountSnoc(xs, x, KeptOfType(cls, t));
      }
      if !cls(x).Excluded? {
        Shape1Step(m, cls(x).itype, excluded);
      }
    }
  }

  lemma FoldMonthTallies(issues: seq<Issue>, excluded: set<string>)
    ensures MonthTallies(FoldMonth(issues, Classify(excluded)), issues, excluded)
  {
    ClassifyKeepsAllowed(issues, excluded);
    FoldMonthTallied(issues, Classify(excluded), excluded);
  }

  /** `for issue in ...: if excluded: continue; per_type[itype] = per_type.get(itype, 0) + 1`. */
  method TallyMonth(issues: seq<Issue>, cls: Issue -> Class) returns (perType: map<string, nat>)
    ensures perType == FoldMonth(issues, cls)
  {
    perType := map[];
    var i := 0;
    while i < |issues|
      invariant 0 <= i <= |issues|
      invariant perType == FoldMonth(issues[..i], cls)
    {
      var issue := issues[i];
      assert issues[..i + 1][..i] == issues[..i];
      var k := cls(issue);
      if !k.Excluded? {
        perType := Inc1(perType, k.itype);
      }
      i := i + 1;
    }
    assert issues[..i] == issues;
  }

  /** Entry `m - 1` of the result: month `m`'s key and its per-type counts. */
  ghost predicate MonthEntry(e: (string, map<string, nat>), project: string, year: int, m: int,
                             search: string -> seq<Issue>, excluded: set<string>) {
    && MIN_YEAR <= year <= MAX_YEAR && 1 <= m <= 12
    && e.0 == MonthKey(year, m)
    && MonthTallies(e.1, search(MonthQuery(project, year, m)), excluded)
  }

  /** `get_monthly_task_counts_by_type(project, year)` with `date.today()`, the configured
      excluded types and the tracker passed in. The result dictionary, whose keys come in
      month order, is a sequence of (month key, per-type counts) pairs. An empty project
      gives no months; a year that `date` cannot represent fails in the first month. */
  method MonthlyCountsByType(project: string, year: int, today: Date, configTypes: seq<string>, search: string -> seq<Issue>)
    returns (r: Result<seq<(string, map<string, nat>)>, PeriodError>)
    requires ValidDate(today)
    ensures project == [] ==> r == Ok([])
    ensures project != [] ==> (r.Err? <==> !(MIN_YEAR <= year <= MAX_YEAR))
    ensures r.Err? ==> r.error == DateOutOfRange
    ensures project != [] && r.Ok? ==>
      && |r.value| == MonthsShown(year, today)
      && forall k :: 0 <= k < |r.value| ==> MonthEntry(r.value[k], project, year, k + 1, search, NormalizeExcludedTypes(configTypes))
  {
    if project == [] {
      return Ok([]);
    }
    var excluded := NormalizeExcludedTypes(configTypes);
    var months := MonthsShown(year, today);
    var out: seq<(string, map<string, nat>)> := [];
    var m := 1;
    while m <= months
      invariant 1 <= m <= months + 1
      invariant |out| == m - 1
      invariant m > 1 ==> MIN_YEAR <= year <= MAX_YEAR
      invariant forall k :: 0 <= k < |out| ==> MonthEntry(out[k], project, year, k + 1, search, excluded)
    {
      var start := MakeDate(year, m, 1);
      if start.None? {
        return Err(DateOutOfRange);
      }
      var query := MonthQuery(project, year, m);
      var issues, _ := IterIssues(search(query), PAGE_SIZE);
      var perType := TallyMonth(issues, Classify(excluded));
      FoldMonthTallies(issues, excluded);
      var entry := (MonthKey(year, m), perType);
      assert MonthEntry(entry, project, year, m, search, excluded);
      ghost var before := out;
      out := out + [entry];
      forall k | 0 <= k < |out| ensures MonthEntry(out[k], project, year, k + 1, search, excluded) {
        if k < |before| {
          assert out[k] == before[k];
        }
      }
      m := m + 1;
    }
    return Ok(out);
  }

  /** The month keys are all different and come in increasing string order. */
  lemma MonthKeysOrdered(year: nat, m1: nat, m2: nat)
    requires 1 <= m1 < m2 <= 12
    ensures LexLess(MonthKey(year, m1), MonthKey(year, m2))
  {
    var pre := DecimalString(year) + "-";
    assert MonthKey(year, m1) == pre + PadDigits(m1, 2);
    assert MonthKey(year, m2) == pre + PadDigits(m2, 2);
    LexLessCommonPrefix(pre, PadDigits(m1, 2), PadDigits(m2, 2));
    var a := PadDigits(m1, 2);
    var b := PadDigits(m2, 2);
    assert a == [DigitChar(m1 / 10 % 10), DigitChar(m1 % 10)];
    assert b == [DigitChar(m2 / 10 % 10), DigitChar(m2 % 10)];
    assert a[1..] == [DigitChar(m1 % 10)] && b[1..] == [DigitChar(m2 % 10)];
  }

  lemma {:induction false} LexLessCommonPrefix(pre: string, a: string, b: string)
    ensures LexLess(pre + a, pre + b) == LexLess(a, b)
  {
    if pre != [] {
      assert (pre + a)[0] == pre[0] == (pre + b)[0];
      assert (pre + a)[1..] == pre[1..] + a;
      assert (pre + b)[1..] == pre[1..] + b;
      LexLessCommonPrefix(pre[1..], a, b);
    } else {
      assert pre + a == a && pre + b == b;
    }
  }
}
