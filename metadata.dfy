/** The metadata helpers: a time-to-live cache around the tracker calls, the project
    synonym table, the assignee login table built over paged user listings, and the
    custom-field bundle lookups behind the Type and State value lists.
    Every tracker response is a parameter; the clock is an integer tick count. */
module Metadata {
  import opened Wrappers
  import opened Strings
  import opened Sorting
  import opened Scan
  import opened IssueFetcher

  // ---------------------------------------------------------------------------------
  // ttl_cache

  /** `(args, tuple(sorted(kwargs.items())))`: the positional arguments and the keyword
      arguments ordered by name. */
  datatype CallKey<A> = CallKey(args: seq<A>, kwargs: seq<(string, A)>)

  function KwName<A>(kv: (string, A)): string {
    kv.0
  }

  /** Keyword arguments never repeat a name. */
  predicate DistinctNames<A>(kwargs: seq<(string, A)>) {
    forall i, j :: 0 <= i < j < |kwargs| ==> kwargs[i].0 != kwargs[j].0
  }

  /** The cache key of a call. With distinct names, sorting the `(name, value)` pairs is
      sorting by name. */
  function MakeKey<A>(args: seq<A>, kwargs: seq<(string, A)>): (k: CallKey<A>)
    ensures k.args == args
    ensures multiset(k.kwargs) == multiset(kwargs)
    ensures SortedBy(k.kwargs, KwName)
  {
    SortByCorrect(kwargs, KwName);
    CallKey(args, SortBy(kwargs, KwName))
  }

  /** The order in which keyword arguments are written does not change the key. */
  lemma KeywordOrderIrrelevant<A>(args: seq<A>, kw1: seq<(string, A)>, kw2: seq<(string, A)>)
    requires DistinctNames(kw1)
    requires multiset(kw1) == multiset(kw2)
    ensures MakeKey(args, kw1) == MakeKey(args, kw2)
  {
    assert KeysDistinct(multiset(kw1), KwName) by {
      forall x, y | x in multiset(kw1) && y in multiset(kw1) && x != y
        ensures KwName(x) != KwName(y)
      {
        var i :| 0 <= i < |kw1| && kw1[i] == x;
        var j :| 0 <= j < |kw1| && kw1[j] == y;
        assert i != j;
        if i < j {
          assert kw1[i].0 != kw1[j].0;
        } else {
          assert kw1[j].0 != kw1[i].0;
        }
      }
    }
    SortByPermutation(kw1, kw2, KwName);
  }

  /** The state `ttl_cache(ttl)` keeps for one decorated function: the `_cache` dict from
      call keys to the time of the call and the value it returned. */
  class TtlCache<A(==), V> {
    const ttl: int
    var entries: map<CallKey<A>, (int, V)>

    constructor (ttl: int)
      ensures this.ttl == ttl
      ensures entries == map[]
    {
      this.ttl := ttl;
      entries := map[];
    }

    /** A stored entry younger than the lifetime answers the call. */
    predicate Fresh(key: CallKey<A>, now: int)
      reads this
    {
      key in entries && now - entries[key].0 < ttl
    }

    /** One call of the wrapper at time `now`. `func` is the decorated function; the call
        reports whether it was invoked. A fresh entry is returned as stored and nothing
        changes; otherwise `func` runs once and its value is stored with the call time,
        replacing an expired entry. */
    method Call(args: seq<A>, kwargs: seq<(string, A)>, now: int, func: (seq<A>, seq<(string, A)>) -> V)
      returns (value: V, invoked: bool)
      requires DistinctNames(kwargs)
      modifies this
      ensures invoked <==> !old(Fresh(MakeKey(args, kwargs), now))
      ensures !invoked ==> value == old(entries)[MakeKey(args, kwargs)].1 && entries == old(entries)
      ensures invoked ==> value == func(args, kwargs) && entries == old(entries)[MakeKey(args, kwargs) := (now, value)]
    {
      var key := MakeKey(args, kwargs);
      if key in entries {
        var (ts, stored) := entries[key];
        if now - ts < ttl {
          return stored, false;
        }
      }
      value := func(args, kwargs);
      entries := entries[key := (now, value)];
      invoked := true;
    }

    /** `cache_clear`: forgets every entry, so the next call of any key invokes. */
    method CacheClear()
      modifies this
      ensures entries == map[]
      ensures forall key, now :: !Fresh(key, now)
    {
      entries := map[];
    }
  }

  // ---------------------------------------------------------------------------------
  // fetch_projects

  /** A project record of `/api/admin/projects`; "" for a missing or null field. */
  datatype ProjectRecord = ProjectRecord(shortName: string, name: string)

  /** Whether two positions of `xs` hold the same element. */
  predicate NoDuplicates(xs: seq<string>) {
    forall i, j :: 0 <= i < j < |xs| ==> xs[i] != xs[j]
  }

  /** The list comprehension that keeps an element unless it is in `seen` or came
      earlier. */
  function DedupFrom(xs: seq<string>, seen: set<string>): (r: seq<string>)
    ensures forall x :: x in r <==> x in xs && x !in seen
    ensures NoDuplicates(r)
    ensures |r| <= |xs|
    decreases |xs|
  {
    if xs == [] then []
    else if xs[0] in seen then DedupFrom(xs[1..], seen)
    else [xs[0]] + DedupFrom(xs[1..], seen + {xs[0]})
  }

  function Dedup(xs: seq<string>): (r: seq<string>)
    ensures forall x :: x in r <==> x in xs
    ensures NoDuplicates(r)
  {
    DedupFrom(xs, {})
  }

  /** Position of the first occurrence of `x` in `xs`. */
  function FirstIndex(xs: seq<string>, x: string): (i: nat)
    requires x in xs
    ensures i < |xs| && xs[i] == x
    ensures forall j :: 0 <= j < i ==> xs[j] != x
  {
    if xs[0] == x then 0 else 1 + FirstIndex(xs[1..], x)
  }

  /** Deduplication keeps elements in the order of their first occurrence. */
  lemma {:induction false} DedupFromOrder(xs: seq<string>, seen: set<string>, i: int, j: int)
    requires 0 <= i < j < |DedupFrom(xs, seen)|
    ensures FirstIndex(xs, DedupFrom(xs, seen)[i]) < FirstIndex(xs, DedupFrom(xs, seen)[j])
    decreases |xs|
  {
    var r := DedupFrom(xs, seen);
    if xs[0] in seen {
      var rest := DedupFrom(xs[1..], seen);
      assert r == rest;
      assert r[i] != xs[0] && r[j] != xs[0];
      DedupFromOrder(xs[1..], seen, i, j);
    } else {
      var rest := DedupFrom(xs[1..], seen + {xs[0]});
      assert r == [xs[0]] + rest;
      assert r[j] == rest[j - 1] && r[j] != xs[0];
      if i > 0 {
        assert r[i] == rest[i - 1] && r[i] != xs[0];
        DedupFromOrder(xs[1..], seen + {xs[0]}, i - 1, j - 1);
      }
    }
  }

  lemma DedupOrder(xs: seq<string>, i: int, j: int)
    requires 0 <= i < j < |Dedup(xs)|
    ensures FirstIndex(xs, Dedup(xs)[i]) < FirstIndex(xs, Dedup(xs)[j])
  {
    DedupFromOrder(xs, {}, i, j);
  }

  /** The words of the lower-cased, trimmed name once every "argaam" is removed. `split()`
      never yields an empty word, so the source's `if tok` filter drops nothing. */
  function NameTokens(n: string): (r: seq<string>)
    ensures forall t :: t in r ==> IsWord(t)
  {
    SplitIsWords(ReplaceAll(n, "argaam", ""));
    Split(ReplaceAll(n, "argaam", ""))
  }

  /** A name made of words joined by single spaces, without "argaam", has those words as
      its tokens. */
  lemma NameTokensOfWords(words: seq<string>)
    requires forall i :: 0 <= i < |words| ==> IsWord(words[i])
    requires !Contains(Join(" ", words), "argaam")
    ensures NameTokens(Join(" ", words)) == words
  {
    ReplaceAbsent(Join(" ", words), "argaam", "");
    SplitJoin(words);
  }

  /** The synonym list before deduplication: the lower-cased short name, then (when the
      record has a name) the lower-cased, trimmed name and its tokens. A name of spaces is
      truthy, so it contributes "". */
  function RawSynonyms(p: ProjectRecord): (r: seq<string>)
    ensures r != [] && r[0] == Lower(p.shortName)
  {
    var n := Strip(Lower(p.name));
    [Lower(p.shortName)] + (if p.name != [] then [n] + NameTokens(n) else [])
  }

  function Synonyms(p: ProjectRecord): seq<string> {
    Dedup(RawSynonyms(p))
  }

  /** Deduplication keeps the first element in front. */
  lemma DedupHead(xs: seq<string>)
    requires xs != []
    ensures Dedup(xs) != [] && Dedup(xs)[0] == xs[0]
  {
    assert xs[0] !in {};
  }

  /** A synonym list starts with the short name in lower case, has no duplicates, holds
      exactly the raw synonyms, and keeps them in the order they first appear. */
  lemma SynonymsShape(p: ProjectRecord)
    ensures Synonyms(p) != [] && Synonyms(p)[0] == Lower(p.shortName)
    ensures NoDuplicates(Synonyms(p))
    ensures forall x :: x in Synonyms(p) <==> x in RawSynonyms(p)
    ensures forall i, j :: 0 <= i < j < |Synonyms(p)| ==>
      FirstIndex(RawSynonyms(p), Synonyms(p)[i]) < FirstIndex(RawSynonyms(p), Synonyms(p)[j])
  {
    var raw := RawSynonyms(p);
    DedupHead(raw);
    forall i, j | 0 <= i < j < |Dedup(raw)|
      ensures FirstIndex(raw, Dedup(raw)[i]) < FirstIndex(raw, Dedup(raw)[j])
    {
      DedupOrder(raw, i, j);
    }
  }

  /** One loop step of `fetch_projects`: a record with a short name (re)places its entry. */
  function AddProject(m: map<string, seq<string>>, p: ProjectRecord): map<string, seq<string>> {
    if p.shortName == [] then m else m[p.shortName := Synonyms(p)]
  }

  function FoldProjects(ps: seq<ProjectRecord>): map<string, seq<string>> {
    if ps == [] then map[] else AddProject(FoldProjects(ps[..|ps| - 1]), ps[|ps| - 1])
  }

  /** `fetch_projects` over the listing `projects`. */
  method FetchProjects(projects: seq<ProjectRecord>) returns (projectMap: map<string, seq<string>>)
    ensures projectMap == FoldProjects(projects)
  {
    projectMap := map[];
    var i := 0;
    while i < |projects|
      invariant 0 <= i <= |projects|
      invariant projectMap == FoldProjects(projects[..i])
    {
      assert projects[..i + 1][..i] == projects[..i];
      var p := projects[i];
      if p.shortName != [] {
        projectMap := projectMap[p.shortName := Synonyms(p)];
      }
      i := i + 1;
    }
    assert projects[..|projects|] == projects;
  }

  /** The table has one entry per short name that occurs, and records without one are
      skipped. */
  lemma {:induction false} FoldProjectsKeys(ps: seq<ProjectRecord>)
    ensures FoldProjects(ps).Keys == ShortNames(ps)
  {
    if ps != [] {
      var init := ps[..|ps| - 1];
      var last := ps[|ps| - 1];
      FoldProjectsKeys(init);
      AddProjectKeys(FoldProjects(init), last);
      KeysOfSnoc(init, last);
      assert ps == init + [last];
    }
  }

  function ShortNames(ps: seq<ProjectRecord>): set<string> {
    set p | p in ps && p.shortName != [] :: p.shortName
  }

  function ShortNameOf(p: ProjectRecord): set<string> {
    if p.shortName == [] then {} else {p.shortName}
  }

  lemma AddProjectKeys(m: map<string, seq<string>>, p: ProjectRecord)
    ensures AddProject(m, p).Keys == m.Keys + ShortNameOf(p)
  {
  }

  lemma KeysOfSnoc(init: seq<ProjectRecord>, last: ProjectRecord)
    ensures ShortNames(init + [last]) == ShortNames(init) + ShortNameOf(last)
  {
    var ps := init + [last];
    forall n | n in ShortNames(ps) ensures n in ShortNames(init) + ShortNameOf(last) {
      var p :| p in ps && p.shortName != [] && p.shortName == n;
      if p != last {
        assert p in init;
      }
    }
    forall n | n in ShortNames(init) ensures n in ShortNames(ps) {
      var p :| p in init && p.shortName != [] && p.shortName == n;
      assert p in ps;
    }
  }

  /** A short name's entry is the synonym list of the last record carrying it. */
  lemma {:induction false} FoldProjectsLast(ps: seq<ProjectRecord>, i: int)
    requires 0 <= i < |ps| && ps[i].shortName != []
    requires forall j :: i < j < |ps| ==> ps[j].shortName != ps[i].shortName
    ensures ps[i].shortName in FoldProjects(ps)
    ensures FoldProjects(ps)[ps[i].shortName] == Synonyms(ps[i])
  {
    var init := ps[..|ps| - 1];
    if i < |ps| - 1 {
      assert init[i] == ps[i];
      FoldProjectsLast(init, i);
    }
  }

  // ---------------------------------------------------------------------------------
  // fetch_assignees

  /** A user record of `/api/users`; "" for a missing or null field. */
  datatype User = User(login: string, name: string)

  /** The page size `fetch_assignees` requests. */
  const USER_PAGE_SIZE := 100

  predicate HasLogin(u: User) {
    Strip(u.login) != []
  }

  function LoginKey(u: User): string {
    Lower(Strip(u.login))
  }

  function NameKey(u: User): string {
    Lower(Strip(u.name))
  }

  /** Whether the user adds a name entry besides the login entry. */
  predicate HasNameEntry(u: User) {
    HasLogin(u) && Strip(u.name) != [] && NameKey(u) != LoginKey(u)
  }

  /** The keys one user contributes: the lower-cased login, and the lower-cased name
      when it is present and differs from it; None for a user without a login. */
  datatype UserKeys = UserKeys(login: string, name: Option<string>)

  function KeysOf(u: User): Option<UserKeys> {
    if !HasLogin(u) then None
    else
      var lwr := LoginKey(u);
      Some(UserKeys(lwr, if Strip(u.name) != [] && NameKey(u) != lwr then Some(NameKey(u)) else None))
  }

  /** A user has keys exactly when the login is not blank; the name key, when there is
      one, differs from the login key. */
  lemma KeysOfFacts(u: User)
    ensures KeysOf(u).Some? <==> HasLogin(u)
    ensures KeysOf(u).Some? ==> KeysOf(u).value.login == LoginKey(u)
    ensures KeysOf(u).Some? ==> (KeysOf(u).value.name.Some? <==> HasNameEntry(u))
    ensures KeysOf(u).Some? && KeysOf(u).value.name.Some? ==>
      KeysOf(u).value.name.value == NameKey(u) != KeysOf(u).value.login
  {
  }

  predicate KeysWrite(e: Option<UserKeys>, k: string) {
    e.Some? && (e.value.login == k || e.value.name == Some(k))
  }

  /** The table updates for one user's keys: login first, then the name. */
  function AddKeys(m: map<string, string>, e: Option<UserKeys>): map<string, string> {
    match e
    case None => m
    case Some(UserKeys(login, name)) =>
      var m1 := m[login := login];
      if name.Some? then m1[name.value := login] else m1
  }

  /** One user's updates add exactly the keys it writes, leave every other entry alone,
      map the login to itself unless the name entry overwrites it, and map the name to
      the login. */
  lemma AddKeysFacts(m: map<string, string>, e: Option<UserKeys>)
    ensures forall k :: k in AddKeys(m, e) <==> k in m || KeysWrite(e, k)
    ensures forall k :: k in m && !KeysWrite(e, k) ==> AddKeys(m, e)[k] == m[k]
    ensures e.Some? && e.value.name != Some(e.value.login) ==>
      e.value.login in AddKeys(m, e) && AddKeys(m, e)[e.value.login] == e.value.login
    ensures e.Some? && e.value.name.Some? ==>
      e.value.name.value in AddKeys(m, e) && AddKeys(m, e)[e.value.name.value] == e.value.login
  {
  }

  /** The table after processing `us` in order, each user's keys given by `keys`; the
      source's keys are `KeysOf`. */
  function AddUsers(m: map<string, string>, us: seq<User>, keys: User -> Option<UserKeys>): map<string, string> {
    if us == [] then m else AddKeys(AddUsers(m, us[..|us| - 1], keys), keys(us[|us| - 1]))
  }

  lemma AddUsersSnoc(m: map<string, string>, us: seq<User>, u: User, keys: User -> Option<UserKeys>)
    ensures AddUsers(m, us + [u], keys) == AddKeys(AddUsers(m, us, keys), keys(u))
  {
    assert (us + [u])[..|us|] == us;
  }

  lemma {:induction false} AddUsersAppend(m: map<string, string>, a: seq<User>, b: seq<User>, keys: User -> Option<UserKeys>)
    ensures AddUsers(m, a + b, keys) == AddUsers(AddUsers(m, a, keys), b, keys)
    decreases |b|
  {
    if b == [] {
      assert a + b == a;
    } else {
      var b0 := b[..|b| - 1];
      assert (a + b)[..|a + b| - 1] == a + b0;
      assert (a + b)[|a + b| - 1] == b[|b| - 1];
      AddUsersAppend(m, a, b0, keys);
    }
  }

  /** The keys of the table are exactly the keys some user writes. */
  lemma {:induction false} AssigneeKeys(us: seq<User>, keys: User -> Option<UserKeys>)
    ensures forall k :: k in AddUsers(map[], us, keys) <==> exists u :: u in us && KeysWrite(keys(u), k)
  {
    if us != [] {
      var init := us[..|us| - 1];
      var last := us[|us| - 1];
      AssigneeKeys(init, keys);
      assert us == init + [last];
      var prev := AddUsers(map[], init, keys);
      assert AddUsers(map[], us, keys) == AddKeys(prev, keys(last));
      AddKeysFacts(prev, keys(last));
      forall k ensures k in AddUsers(map[], us, keys) <==> exists u :: u in us && KeysWrite(keys(u), k) {
        if k in AddUsers(map[], us, keys) && !KeysWrite(keys(last), k) {
          assert k in prev;
          var u :| u in init && KeysWrite(keys(u), k);
          assert u in us;
        }
        if (exists u :: u in us && KeysWrite(keys(u), k)) && !KeysWrite(keys(last), k) {
          var u :| u in us && KeysWrite(keys(u), k);
          assert u in init;
        }
      }
    }
  }

  /** Every value of the table is the login key of some user. */
  lemma {:induction false} AssigneeValues(us: seq<User>, keys: User -> Option<UserKeys>)
    ensures forall k :: k in AddUsers(map[], us, keys) ==>
      exists u :: u in us && keys(u).Some? && AddUsers(map[], us, keys)[k] == keys(u).value.login
  {
    if us != [] {
      var init := us[..|us| - 1];
      var last := us[|us| - 1];
      AssigneeValues(init, keys);
      assert us == init + [last];
      var r := AddUsers(map[], us, keys);
      var prev := AddUsers(map[], init, keys);
      assert r == AddKeys(prev, keys(last));
      AddKeysFacts(prev, keys(last));
      forall k | k in r
        ensures exists u :: u in us && keys(u).Some? && r[k] == keys(u).value.login
      {
        if KeysWrite(keys(last), k) {
          assert r[k] == keys(last).value.login;
        } else {
          assert k in prev && r[k] == prev[k];
          var u :| u in init && keys(u).Some? && prev[k] == keys(u).value.login;
          assert u in us;
        }
      }
    }
  }

  /** A login key maps to itself unless some user's name key equals it. */
  lemma {:induction false} AssigneeLoginSelf(us: seq<User>, u: User, keys: User -> Option<UserKeys>)
    requires u in us && keys(u).Some?
    requires forall w :: w in us && keys(w).Some? ==> keys(w).value.name != Some(keys(u).value.login)
    ensures keys(u).value.login in AddUsers(map[], us, keys)
    ensures AddUsers(map[], us, keys)[keys(u).value.login] == keys(u).value.login
  {
    var init := us[..|us| - 1];
    var last := us[|us| - 1];
    assert us == init + [last];
    var prev := AddUsers(map[], init, keys);
    AddKeysFacts(prev, keys(last));
    if u in init {
      AssigneeLoginSelf(init, u, keys);
    }
  }

  /** A user's name key maps to their login key unless a later user writes it. */
  lemma {:induction false} AssigneeNameMaps(us: seq<User>, i: int, keys: User -> Option<UserKeys>)
    requires 0 <= i < |us| && keys(us[i]).Some? && keys(us[i]).value.name.Some?
    requires forall j :: i < j < |us| ==> !KeysWrite(keys(us[j]), keys(us[i]).value.name.value)
    ensures keys(us[i]).value.name.value in AddUsers(map[], us, keys)
    ensures AddUsers(map[], us, keys)[keys(us[i]).value.name.value] == keys(us[i]).value.login
  {
    var init := us[..|us| - 1];
    AddKeysFacts(AddUsers(map[], init, keys), keys(us[|us| - 1]));
    if i < |us| - 1 {
      assert init[i] == us[i];
      AssigneeNameMaps(init, i, keys);
    }
  }

  /** For the source's keys: a user with a login has it, lower-cased, mapped to itself,
      provided no user's name lower-cases to that login. */
  lemma LoginMapsToItself(us: seq<User>, u: User)
    requires u in us && HasLogin(u)
    requires forall w :: w in us && HasNameEntry(w) ==> NameKey(w) != LoginKey(u)
    ensures LoginKey(u) in AddUsers(map[], us, KeysOf)
    ensures AddUsers(map[], us, KeysOf)[LoginKey(u)] == LoginKey(u)
  {
    KeysOfFacts(u);
    forall w | w in us && KeysOf(w).Some?
      ensures KeysOf(w).value.name != Some(KeysOf(u).value.login)
    {
      KeysOfFacts(w);
    }
    AssigneeLoginSelf(us, u, KeysOf);
  }

  /** For the source's keys: a user's lower-cased name, when present and different from
      the lower-cased login, maps to that login unless a later user writes that key. */
  lemma NameMapsToLogin(us: seq<User>, i: int)
    requires 0 <= i < |us| && HasNameEntry(us[i])
    requires forall j :: i < j < |us| ==> !KeysWrite(KeysOf(us[j]), NameKey(us[i]))
    ensures NameKey(us[i]) in AddUsers(map[], us, KeysOf)
    ensures AddUsers(map[], us, KeysOf)[NameKey(us[i])] == LoginKey(us[i])
  {
    KeysOfFacts(us[i]);
    AssigneeNameMaps(us, i, KeysOf);
  }

  /** The loop body of `fetch_assignees` for one user, whose keys `keys` computes (the
      source's are `KeysOf`): the login entry is stored before the name entry. */
  method StoreUser(mapping: map<string, string>, user: User, keys: User -> Option<UserKeys>) returns (r: map<string, string>)
    ensures r == AddKeys(mapping, keys(user))
  {
    r := mapping;
    match keys(user) {
      case None =>
      case Some(UserKeys(lwrLogin, nameKey)) =>
        r := r[lwrLogin := lwrLogin];
        if nameKey.Some? {
          r := r[nameKey.value := lwrLogin];
        }
    }
  }

  /** The inner `for user in users` loop over one page. */
  method AddPage(m: map<string, string>, users: seq<User>, keys: User -> Option<UserKeys>) returns (r: map<string, string>)
    ensures r == AddUsers(m, users, keys)
  {
    r := m;
    var j := 0;
    while j < |users|
      invariant 0 <= j <= |users|
      invariant r == AddUsers(m, users[..j], keys)
    {
      r := StoreUser(r, users[j], keys);
      AddUsersSnoc(m, users[..j], users[j], keys);
      assert users[..j + 1] == users[..j] + [users[j]];
      j := j + 1;
    }
    assert users[..|users|] == users;
  }

  /** Pages of 100 needed to reach `maxUsers`. */
  function PagesFor(maxUsers: int): nat {
    if maxUsers <= 0 then 0 else (maxUsers + USER_PAGE_SIZE - 1) / USER_PAGE_SIZE
  }

  /** How many users `fetch_assignees(maxUsers)` reads from a listing of `n`: whole pages
      until `maxUsers` is reached or the listing runs out. */
  function UsersFetched(n: nat, maxUsers: int): (r: nat)
    ensures r <= n
    ensures maxUsers <= 0 ==> r == 0
    ensures maxUsers > 0 ==> r >= (if n < maxUsers then n else maxUsers)
    ensures maxUsers > 0 ==> r < maxUsers + USER_PAGE_SIZE
  {
    var cap := PagesFor(maxUsers) * USER_PAGE_SIZE;
    if n <= cap then n else cap
  }

  /** How many requests `fetch_assignees(maxUsers)` makes: one per page read, plus the
      empty page that ends a listing whose pages are all full. */
  function UserPagesRequested(n: nat, maxUsers: int): nat {
    var more := n / USER_PAGE_SIZE + 1;
    if PagesFor(maxUsers) <= more then PagesFor(maxUsers) else more
  }

  /** `fetch_assignees(maxUsers)` over the user listing `backing`: requests `$skip` =
      page * 100, and stops on an empty page, on a short page, or once `maxUsers` users
      have been read. The table is the one built from exactly the users read. */
  method FetchAssignees(backing: seq<User>, maxUsers: int) returns (mapping: map<string, string>, skips: seq<nat>)
    ensures mapping == AddUsers(map[], backing[..UsersFetched(|backing|, maxUsers)], KeysOf)
    ensures |skips| == UserPagesRequested(|backing|, maxUsers)
    ensures forall i :: 0 <= i < |skips| ==> skips[i] == i * 100
  {
    mapping, skips := ReadUserPages(backing, maxUsers, KeysOf);
  }

  /** The paging loop of `fetch_assignees`, with the per-user keys given by `keys`. */
  method ReadUserPages(backing: seq<User>, maxUsers: int, keys: User -> Option<UserKeys>)
    returns (mapping: map<string, string>, skips: seq<nat>)
    ensures mapping == AddUsers(map[], backing[..UsersFetched(|backing|, maxUsers)], keys)
    ensures |skips| == UserPagesRequested(|backing|, maxUsers)
    ensures forall i :: 0 <= i < |skips| ==> skips[i] == i * 100
  {
    mapping := map[];
    skips := [];
    var page: nat := 0;
    var pageSize := USER_PAGE_SIZE;
    var totalFetched := 0;
    ghost var reachedLimit := true;
    while totalFetched < maxUsers
      invariant reachedLimit
      invariant totalFetched == page * 100 <= |backing|
      invariant page == 0 || (page - 1) * 100 < maxUsers
      invariant |skips| == page
      invariant forall i :: 0 <= i < |skips| ==> skips[i] == i * 100
      invariant mapping == AddUsers(map[], backing[..totalFetched], keys)
      decreases |backing| - totalFetched
    {
      var users := Page(backing, page * pageSize, pageSize);
      skips := skips + [page * pageSize];
      if users == [] {
        EmptyPageExit(page, |backing|, maxUsers);
        assert totalFetched == UsersFetched(|backing|, maxUsers);
        reachedLimit := false;
        break;
      }
      PageStep(backing, totalFetched, users, keys);
      ghost var read := backing[..totalFetched + |users|];
      mapping := AddPage(mapping, users, keys);
      assert mapping == AddUsers(map[], read, keys);
      var fetched := |users|;
      totalFetched := totalFetched + fetched;
      assert read == backing[..totalFetched];
      if fetched < pageSize {
        ShortPageExit(page, |backing|, maxUsers);
        assert totalFetched == UsersFetched(|backing|, maxUsers);
        reachedLimit := false;
        break;
      }
      page := page + 1;
    }
    if reachedLimit {
      LimitExit(page, |backing|, maxUsers);
      assert totalFetched == UsersFetched(|backing|, maxUsers);
    }
  }

  /** Reading one more non-empty page extends the table by that page's users. */
  lemma PageStep(backing: seq<User>, total: nat, users: seq<User>, keys: User -> Option<UserKeys>)
    requires total <= |backing| && users == Page(backing, total, 100) && users != []
    ensures total + |users| <= |backing|
    ensures AddUsers(map[], backing[..total + |users|], keys) == AddUsers(AddUsers(map[], backing[..total], keys), users, keys)
  {
    assert backing[..total + |users|] == backing[..total] + users;
    AddUsersAppend(map[], backing[..total], users, keys);
  }

  /** The loop ends because `maxUsers` users have been read in whole pages. */
  lemma LimitExit(page: nat, n: nat, maxUsers: int)
    requires page * 100 <= n && page * 100 >= maxUsers
    requires page == 0 || (page - 1) * 100 < maxUsers
    ensures page * 100 == UsersFetched(n, maxUsers)
    ensures page == UserPagesRequested(n, maxUsers)
  {
  }

  /** The loop ends on an empty page at offset page * 100, the end of the listing. */
  lemma EmptyPageExit(page: nat, n: nat, maxUsers: int)
    requires page * 100 == n && n < maxUsers
    ensures n == UsersFetched(n, maxUsers)
    ensures page + 1 == UserPagesRequested(n, maxUsers)
  {
  }

  /** The loop ends on a short page, the last one of the listing. */
  lemma ShortPageExit(page: nat, n: nat, maxUsers: int)
    requires page * 100 < n < page * 100 + 100
    requires page * 100 < maxUsers
    ensures n == UsersFetched(n, maxUsers)
    ensures page + 1 == UserPagesRequested(n, maxUsers)
  {
  }

  // ---------------------------------------------------------------------------------
  // Custom-field bundles

  /** An entry of `/api/admin/projects/{id}/customFields`: the field's name ("" when
      missing) and its bundle's id (None when the bundle or its id is missing). */
  datatype ProjectField = ProjectField(fieldName: string, bundleId: Option<string>)

  /** A value of a bundle: its `name`, None when the key is absent. */
  datatype BundleValue = BundleValue(name: Option<string>)

  function FieldNamed(fieldName: string): ProjectField -> bool {
    (f: ProjectField) => Lower(f.fieldName) == Lower(fieldName)
  }

  function BundleIdOf(f: ProjectField): Option<string> {
    f.bundleId
  }

  /** `_find_bundle_id_for_field` over the project's fields. */
  function FindBundleIdForField(fields: seq<ProjectField>, fieldName: string): (r: Option<string>)
    ensures r.Some? ==> exists i :: 0 <= i < |fields| && FieldNamed(fieldName)(fields[i]) && fields[i].bundleId == r
  {
    FirstHit(fields, FieldNamed(fieldName), BundleIdOf, None)
  }

  /** The first field whose name matches, in any case, decides the result, even when it
      has no bundle id. */
  lemma FindBundleIdFirstMatch(fields: seq<ProjectField>, fieldName: string, i: int)
    requires 0 <= i < |fields| && Lower(fields[i].fieldName) == Lower(fieldName)
    requires forall j :: 0 <= j < i ==> Lower(fields[j].fieldName) != Lower(fieldName)
    ensures FindBundleIdForField(fields, fieldName) == fields[i].bundleId
  {
    assert IsFirstHit(fields, FieldNamed(fieldName), i);
    FirstHitAt(fields, FieldNamed(fieldName), BundleIdOf, None, i);
  }

  lemma FindBundleIdNoMatch(fields: seq<ProjectField>, fieldName: string)
    requires forall j :: 0 <= j < |fields| ==> Lower(fields[j].fieldName) != Lower(fieldName)
    ensures FindBundleIdForField(fields, fieldName) == None
  {
    assert forall j :: 0 <= j < |fields| ==> !FieldNamed(fieldName)(fields[j]);
    FirstHitNone(fields, FieldNamed(fieldName), BundleIdOf, None);
  }

  /** `[v["name"] for v in values if "name" in v]`. */
  function NamedValues(values: seq<BundleValue>): (r: seq<string>)
    ensures |r| <= |values|
    ensures forall x :: x in r <==> BundleValue(Some(x)) in values
  {
    if values == [] then []
    else
      var rest := NamedValues(values[1..]);
      assert forall x :: BundleValue(Some(x)) in values[1..] ==> BundleValue(Some(x)) in values;
      match values[0].name
      case None => rest
      case Some(n) => [n] + rest
  }

  /** Filtering keeps the bundle's order: the values of two concatenated parts are those
      of the first part followed by those of the second. */
  lemma {:induction false} NamedValuesAppend(a: seq<BundleValue>, b: seq<BundleValue>)
    ensures NamedValues(a + b) == NamedValues(a) + NamedValues(b)
  {
    if a != [] {
      assert (a + b)[0] == a[0];
      assert (a + b)[1..] == a[1..] + b;
      NamedValuesAppend(a[1..], b);
    } else {
      assert a + b == b;
    }
  }

  function Identity(s: string): string {
    s
  }

  /** `_get_enum_bundle_values`: the named values, sorted. */
  function EnumBundleValues(values: seq<BundleValue>): (r: seq<string>)
    ensures SortedBy(r, Identity)
    ensures multiset(r) == multiset(NamedValues(values))
  {
    SortByCorrect(NamedValues(values), Identity);
    SortBy(NamedValues(values), Identity)
  }

  /** `_get_state_bundle_values`: the named values in bundle order. */
  function StateBundleValues(values: seq<BundleValue>): seq<string> {
    NamedValues(values)
  }

  /** `fetch_task_types(project)`: `fields` is the project's custom-field listing and
      `enumBundles` the enum bundle endpoint. Without a bundle id the list is empty. */
  function FetchTaskTypes(fields: seq<ProjectField>, enumBundles: string -> seq<BundleValue>): (r: seq<string>)
    ensures SortedBy(r, Identity)
    ensures var id := FindBundleIdForField(fields, "Type");
      if id.None? || id.value == [] then r == [] else multiset(r) == multiset(NamedValues(enumBundles(id.value)))
  {
    var id := FindBundleIdForField(fields, "Type");
    if id.None? || id.value == [] then [] else EnumBundleValues(enumBundles(id.value))
  }

  /** `fetch_task_states(project)`, over the state bundle endpoint. */
  function FetchTaskStates(fields: seq<ProjectField>, stateBundles: string -> seq<BundleValue>): (r: seq<string>)
    ensures var id := FindBundleIdForField(fields, "State");
      if id.None? || id.value == [] then r == [] else r == StateBundleValues(stateBundles(id.value))
  {
    var id := FindBundleIdForField(fields, "State");
    if id.None? || id.value == [] then [] else StateBundleValues(stateBundles(id.value))
  }

  /** A project with no field named Type, in any case, has no type list. */
  lemma NoTypeFieldNoTypes(fields: seq<ProjectField>, enumBundles: string -> seq<BundleValue>)
    requires forall j :: 0 <= j < |fields| ==> Lower(fields[j].fieldName) != Lower("Type")
    ensures FetchTaskTypes(fields, enumBundles) == []
  {
    FindBundleIdNoMatch(fields, "Type");
  }

  lemma NoStateFieldNoStates(fields: seq<ProjectField>, stateBundles: string -> seq<BundleValue>)
    requires forall j :: 0 <= j < |fields| ==> Lower(fields[j].fieldName) != Lower("State")
    ensures FetchTaskStates(fields, stateBundles) == []
  {
    FindBundleIdNoMatch(fields, "State");
  }
}
