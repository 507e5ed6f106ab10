/** Cached role and permission checks, src/common/services/role.service.ts, on top of the
    two-level cache. The repository answer is the reference. */
module Roles {
  import opened Basics
  import Store = TwoLevelCache

  const CACHE_TTL := 300

  datatype Role = Role(id: string, name: string, permissions: set<string>)

  /** The users' roles, and the role table by name. */
  datatype Repo = Repo(users: map<string, seq<Role>>, roles: map<string, Role>)

  predicate HasRoleIn(repo: Repo, userId: string, roleName: string) {
    userId in repo.users && exists r :: r in repo.users[userId] && r.name == roleName
  }

  predicate HasPermissionIn(repo: Repo, userId: string, permission: string) {
    userId in repo.users && exists r :: r in repo.users[userId] && permission in r.permissions
  }

  /** What a lookup asks: a role or a permission of a user. */
  datatype Query = RoleQuery(userId: string, name: string) | PermissionQuery(userId: string, name: string)

  predicate Holds(repo: Repo, q: Query) {
    match q
    case RoleQuery(u, r) => HasRoleIn(repo, u, r)
    case PermissionQuery(u, p) => HasPermissionIn(repo, u, p)
  }

  // ---------- cache keys ----------

  function Prefix(userId: string): string {
    "user:" + userId + ":"
  }

  /** What stands between the user and the name in a key. */
  function Kind(q: Query): string {
    if q.RoleQuery? then "role:" else "permission:"
  }

  function KeyOf(q: Query): string {
    Prefix(q.userId) + Kind(q) + q.name
  }

  /** The keys that the pattern for all entries of a user matches. */
  function Matching(keys: set<string>, userId: string): set<string> {
    set k | k in keys && Prefix(userId) <= k
  }

  /** Followed by a colon, the second id begins with the first and a kind. */
  predicate Nests(u: string, v: string) {
    u + ":role:" <= v + ":" || u + ":permission:" <= v + ":"
  }

  /** No id nests in another. Ids without a colon are one case of this. */
  ghost predicate Separate(ids: iset<string>) {
    forall u, v :: u in ids && v in ids ==> !Nests(u, v)
  }

  lemma PlainIsSeparate(ids: iset<string>)
    requires forall u :: u in ids ==> ':' !in u
    ensures Separate(ids)
  {
    forall u, v | u in ids && v in ids
      ensures !Nests(u, v)
    {
      NothingNestsIn(u, v);
    }
  }

  lemma NothingNestsIn(u: string, v: string)
    requires ':' !in v
    ensures !Nests(u, v)
  {
    assert (u + ":role:")[|u|] == (u + ":permission:")[|u|] == ':';
    if |u| < |v| {
      assert (v + ":")[|u|] == v[|u|];
    }
  }

  lemma KeyParts(q: Query)
    ensures var key, n := KeyOf(q), 5 + |q.userId|;
      && |key| == n + 1 + |Kind(q)| + |q.name|
      && key[5..n] == q.userId && key[n + 1 + |Kind(q)|..] == q.name
      && key[n + 1] == Kind(q)[0]
  {
    var a, b := Prefix(q.userId), Kind(q);
    assert KeyOf(q)[..|a| + |b|] == a + b;
    assert a[5..5 + |q.userId|] == q.userId;
  }

  lemma PrefixesOfOne(a: string, restOfA: string, b: string, restOfB: string)
    requires a + restOfA == b + restOfB && |a| <= |b|
    ensures a <= b
  {
    assert a == (a + restOfA)[..|a|] == (b + restOfB)[..|a|] == b[..|a|];
  }

  lemma StripFront(p: string, a: string, b: string)
    requires p + a <= p + b
    ensures a <= b
  {
    assert a == (p + a)[|p|..] && (p + b)[|p|..] == b;
  }

  /** Within a kind the only colon is the last character. */
  lemma NoColonInKind(q: Query, k: nat)
    requires 5 + |q.userId| < k < |Prefix(q.userId) + Kind(q)| - 1
    ensures (Prefix(q.userId) + Kind(q))[k] != ':'
  {
  }

  lemma FrontOfKey(u: string, kind: string)
    ensures Prefix(u) + kind == "user:" + (u + (":" + kind))
    ensures Prefix(u) == "user:" + (u + ":")
  {
  }

  lemma KindWithColons(u: string)
    ensures u + (":" + "role:") == u + ":role:" && u + (":" + "permission:") == u + ":permission:"
  {
  }

  lemma ShorterUserNests(q: Query, q': Query)
    requires KeyOf(q) == KeyOf(q') && |q.userId| < |q'.userId|
    ensures Nests(q.userId, q'.userId)
  {
    hide Kind, Prefix;
    var a, b := Prefix(q.userId) + Kind(q), Prefix(q'.userId);
    assert KeyOf(q) == a + q.name;
    assert KeyOf(q') == b + (Kind(q') + q'.name);
    PrefixLength(q.userId);
    PrefixLength(q'.userId);
    if |a| <= |b| {
      PrefixesOfOne(a, q.name, b, Kind(q') + q'.name);
      FrontOfKey(q.userId, Kind(q));
      FrontOfKey(q'.userId, "");
      StripFront("user:", q.userId + (":" + Kind(q)), q'.userId + ":");
      KindWithColons(q.userId);
      KindIsOneOfTwo(q);
    } else {
      PrefixesOfOne(b, Kind(q') + q'.name, a, q.name);
      NoColonInKind(q, |b| - 1);
    }
  }

  lemma PrefixLength(u: string)
    ensures |Prefix(u)| == |u| + 6 && Prefix(u)[|u| + 5] == ':'
  {
  }

  lemma KindIsOneOfTwo(q: Query)
    ensures Kind(q) in {"role:", "permission:"}
  {
  }

  /** Every query of separate ids has a key of its own. */
  lemma KeysAreDistinct(ids: iset<string>, q: Query, q': Query)
    requires Separate(ids) && q.userId in ids && q'.userId in ids && KeyOf(q) == KeyOf(q')
    ensures q == q'
  {
    hide KeyOf;
    if |q.userId| < |q'.userId| {
      ShorterUserNests(q, q');
    } else if |q'.userId| < |q.userId| {
      ShorterUserNests(q', q);
    } else {
      KeyParts(q);
      KeyParts(q');
      assert KeyOf(q)[5 + |q.userId| + 1] == Kind(q)[0] && KeyOf(q')[5 + |q'.userId| + 1] == Kind(q')[0];
    }
  }

  // ---------- the service, step by step ----------

  datatype Service = Service(repo: Repo, cache: Store.Cache)

  /** An answer as the cache stores it. */
  function Show(b: bool): string {
    if b then "true" else "false"
  }

  const ORDINARY := Store.Read(false, false, Store.ReadsFine)

  function Check(s: Service, q: Query, now: int): (Service, bool) {
    var (cache, cached) := Store.GetIn(s.cache, KeyOf(q), ORDINARY, now);
    if cached.Some? then (s.(cache := cache), cached.value == "true")
    else
      var answer := Holds(s.repo, q);
      (s.(cache := Store.SetIn(cache, KeyOf(q), Show(answer), Some(CACHE_TTL), Store.BOTH, Store.NoFault, now)), answer)
  }

  /** One check after the other, up to the first that holds. */
  function CheckAny(s: Service, queries: seq<Query>, now: int): (Service, bool)
    decreases |queries|
  {
    if queries == [] then (s, false)
    else
      var (s', has) := Check(s, queries[0], now);
      if has then (s', true) else CheckAny(s', queries[1..], now)
  }

  function RoleQueries(userId: string, names: seq<string>): (queries: seq<Query>)
    ensures |queries| == |names| && forall i :: 0 <= i < |names| ==> queries[i] == RoleQuery(userId, names[i])
  {
    seq(|names|, i requires 0 <= i < |names| => RoleQuery(userId, names[i]))
  }

  function PermissionQueries(userId: string, names: seq<string>): (queries: seq<Query>)
    ensures |queries| == |names| && forall i :: 0 <= i < |names| ==> queries[i] == PermissionQuery(userId, names[i])
  {
    seq(|names|, i requires 0 <= i < |names| => PermissionQuery(userId, names[i]))
  }

  function ClearUserCache(c: Store.Cache, userId: string): Store.Cache {
    Store.Drop(c, Matching(c.memory.Keys + c.redis.Keys, userId))
  }

  datatype Failure = UserNotFound | RoleNotFound

  function Assign(s: Service, userId: string, roleName: string): (Service, Option<Failure>) {
    if userId !in s.repo.users then (s, Some(UserNotFound))
    else if roleName !in s.repo.roles then (s, Some(RoleNotFound))
    else
      var role, held := s.repo.roles[roleName], s.repo.users[userId];
      if exists r :: r in held && r.id == role.id then (s, None)
      else (Service(s.repo.(users := s.repo.users[userId := held + [role]]), ClearUserCache(s.cache, userId)), None)
  }

  function Without(roles: seq<Role>, roleName: string): seq<Role> {
    if roles == [] then []
    else
      var n := |roles| - 1;
      Without(roles[..n], roleName) + (if roles[n].name != roleName then [roles[n]] else [])
  }

  function Remove(s: Service, userId: string, roleName: string): (Service, Option<Failure>) {
    if userId !in s.repo.users then (s, Some(UserNotFound))
    else (Service(s.repo.(users := s.repo.users[userId := Without(s.repo.users[userId], roleName)]),
                  ClearUserCache(s.cache, userId)), None)
  }

  datatype Op = DoLookup(q: Query) | DoAssign(userId: string, role: string) | DoRemove(userId: string, role: string)
  datatype Step = Step(at: int, op: Op)

  function Apply(s: Service, step: Step): Service {
    match step.op
    case DoLookup(q) => Check(s, q, step.at).0
    case DoAssign(u, r) => Assign(s, u, r).0
    case DoRemove(u, r) => Remove(s, u, r).0
  }

  function After(repo: Repo, steps: seq<Step>): Service {
    if steps == [] then Service(repo, Store.EMPTY)
    else Apply(After(repo, steps[..|steps| - 1]), steps[|steps| - 1])
  }

  // ---------- cached answers are repository answers ----------

  ghost predicate LevelAgrees(repo: Repo, level: map<string, Store.Entry>, ids: iset<string>) {
    forall q: Query :: q.userId in ids && KeyOf(q) in level ==> level[KeyOf(q)].value == Show(Holds(repo, q))
  }

  ghost predicate Agrees(s: Service, ids: iset<string>) {
    LevelAgrees(s.repo, s.cache.memory, ids) && LevelAgrees(s.repo, s.cache.redis, ids)
  }

  lemma LookupAgrees(s: Service, ids: iset<string>, q: Query, now: int)
    requires Separate(ids) && Agrees(s, ids) && q.userId in ids
    ensures Check(s, q, now).1 == Holds(s.repo, q)
    ensures Agrees(Check(s, q, now).0, ids) && Check(s, q, now).0.repo == s.repo
  {
    hide KeyOf, Holds, Separate;
    forall q': Query | q'.userId in ids && KeyOf(q') == KeyOf(q)
      ensures q' == q
    {
      KeysAreDistinct(ids, q', q);
    }
  }

  /** A change to one user's roles, followed by clearing that user's keys. */
  lemma ChangeAgrees(s: Service, ids: iset<string>, userId: string, roles: seq<Role>)
    requires Agrees(s, ids)
    ensures Agrees(Service(s.repo.(users := s.repo.users[userId := roles]), ClearUserCache(s.cache, userId)), ids)
  {
    hide KeyOf, Prefix;
    var repo' := s.repo.(users := s.repo.users[userId := roles]);
    var cache' := ClearUserCache(s.cache, userId);
    forall q: Query
      ensures q.userId == userId ==> KeyOf(q) !in cache'.memory && KeyOf(q) !in cache'.redis
      ensures q.userId != userId ==> Holds(repo', q) == Holds(s.repo, q)
    {
      KeyHasPrefix(q);
    }
  }

  lemma KeyHasPrefix(q: Query)
    ensures Prefix(q.userId) <= KeyOf(q)
  {
  }

  /** The users of a run. */
  ghost predicate StepsOf(steps: seq<Step>, ids: iset<string>) {
    forall i :: 0 <= i < |steps| ==>
      match steps[i].op
      case DoLookup(q) => q.userId in ids
      case DoAssign(u, _) => u in ids
      case DoRemove(u, _) => u in ids
  }

  lemma {:induction false} CacheAgrees(repo: Repo, steps: seq<Step>, ids: iset<string>)
    requires Separate(ids) && StepsOf(steps, ids)
    ensures Agrees(After(repo, steps), ids)
  {
    hide Agrees, Separate;
    if steps == [] {
      EmptyAgrees(repo, ids);
    } else {
      var n := |steps| - 1;
      var s, op := After(repo, steps[..n]), steps[n].op;
      CacheAgrees(repo, steps[..n], ids);
      match op
      case DoLookup(q) => LookupAgrees(s, ids, q, steps[n].at);
      case DoAssign(u, r) =>
        if u in s.repo.users && r in s.repo.roles {
          ChangeAgrees(s, ids, u, s.repo.users[u] + [s.repo.roles[r]]);
        }
      case DoRemove(u, r) =>
        if u in s.repo.users {
          ChangeAgrees(s, ids, u, Without(s.repo.users[u], r));
        }
    }
  }

  lemma EmptyAgrees(repo: Repo, ids: iset<string>)
    ensures Agrees(Service(repo, Store.EMPTY), ids)
  {
  }

  /** The cached check answers exactly what the repository says at that moment. */
  ghost predicate CurrentAfter(repo: Repo, steps: seq<Step>, q: Query, now: int) {
    Check(After(repo, steps), q, now).1 == Holds(After(repo, steps).repo, q)
  }

  /** After any run of lookups, assignments and removals for separate ids, cached checks are
      current at any later time. */
  lemma LookupsAreCurrent(repo: Repo, steps: seq<Step>, ids: iset<string>, q: Query, now: int)
    requires Separate(ids) && StepsOf(steps, ids) && q.userId in ids
    ensures CurrentAfter(repo, steps, q, now)
  {
    CacheAgrees(repo, steps, ids);
    LookupAgrees(After(repo, steps), ids, q, now);
  }

  lemma Regroup(a: string, b: string, c: string, d: string)
    ensures a + (b + c) + d == a + b + (c + d)
  {
  }

  /** A query of v and one of u with the same key, when u nests in v. */
  lemma SharedKey(u: string, v: string) returns (mine: Query, other: Query)
    requires Nests(u, v)
    ensures mine == RoleQuery(v, "x") && other.userId == u && KeyOf(mine) == KeyOf(other)
  {
    hide Prefix;
    mine := RoleQuery(v, "x");
    var kind := if u + ":role:" <= v + ":" then "role:" else "permission:";
    KindWithColons(u);
    var front := u + (":" + kind);
    var rest := (v + ":")[|front|..];
    assert v + ":" == front + rest;
    var name := rest + "role:x";
    other := if u + ":role:" <= v + ":" then RoleQuery(u, name) else PermissionQuery(u, name);
    FrontOfKey(u, kind);
    FrontOfKey(v, kind);
    Regroup("user:", front, rest, "role:x");
    assert KeyOf(other) == "user:" + front + name;
    assert KeyOf(mine) == Prefix(v) + "role:" + "x" == Prefix(v) + "role:x";
  }

  /** v has a role, u does not: u's cached answer is taken for v's. */
  lemma NestedIdGetsWrongAnswer(u: string, v: string) returns (repo: Repo, steps: seq<Step>, q: Query)
    requires Nests(u, v)
    ensures q.userId == v && StepsOf(steps, iset{u, v}) && !CurrentAfter(repo, steps, q, 0)
  {
    var other;
    q, other := SharedKey(u, v);
    var role := Role("r", "x", {});
    repo := Repo(map[v := [role]], map[]);
    steps := [Step(0, DoLookup(other))];
    assert |u| < |v|;
    assert !Holds(repo, other);
    assert role in repo.users[v] && Holds(repo, q);
    assert steps[..0] == [];
    assert After(repo, steps) == Check(Service(repo, Store.EMPTY), other, 0).0;
  }

  /** Cached checks for a set of user ids are current after every run exactly when no id, followed
      by a colon, begins with another one and ":role:" or ":permission:". */
  lemma LookupsAreCurrentExactly(ids: iset<string>)
    ensures (forall repo, steps, q: Query, now ::
               StepsOf(steps, ids) && q.userId in ids ==> CurrentAfter(repo, steps, q, now))
            <==> Separate(ids)
  {
    if Separate(ids) {
      forall repo, steps, q: Query, now | StepsOf(steps, ids) && q.userId in ids
        ensures CurrentAfter(repo, steps, q, now)
      {
        LookupsAreCurrent(repo, steps, ids, q, now);
      }
    } else {
      var u, v :| u in ids && v in ids && Nests(u, v);
      var repo, steps, q := NestedIdGetsWrongAnswer(u, v);
      assert StepsOf(steps, ids);
    }
  }

  /** So a check answers whether the user is known and one of the user's roles has the name, or
      grants the permission; nobody else has anything. */
  lemma AnswersAreRoles(repo: Repo, steps: seq<Step>, ids: iset<string>, userId: string, name: string, now: int)
    requires Separate(ids) && StepsOf(steps, ids) && userId in ids
    ensures var s := After(repo, steps);
      var held := if userId in s.repo.users then s.repo.users[userId] else [];
      && (Check(s, RoleQuery(userId, name), now).1 <==> exists i :: 0 <= i < |held| && held[i].name == name)
      && (Check(s, PermissionQuery(userId, name), now).1
          <==> exists i :: 0 <= i < |held| && name in held[i].permissions)
  {
    LookupsAreCurrent(repo, steps, ids, RoleQuery(userId, name), now);
    LookupsAreCurrent(repo, steps, ids, PermissionQuery(userId, name), now);
  }

  /** The step clears the entry of the query: it changes a user to whom its key belongs. */
  predicate Clears(step: Step, q: Query) {
    match step.op
    case DoLookup(_) => false
    case DoAssign(u, _) => Prefix(u) <= KeyOf(q)
    case DoRemove(u, _) => Prefix(u) <= KeyOf(q)
  }

  /** The answer of a check that had to ask the repository is the one that is served for five
      minutes, whatever happens meanwhile, unless the roles of the user change. */
  lemma {:induction false} AnswerIsServed(repo: Repo, steps: seq<Step>, i: nat, q: Query, now: int)
    requires i < |steps| && steps[i].op == DoLookup(q)
    requires Store.GetIn(After(repo, steps[..i]).cache, KeyOf(q), ORDINARY, steps[i].at).1.None?
    requires forall j :: i < j < |steps| ==> !Clears(steps[j], q) && steps[j].at < steps[i].at + 300000
    requires now < steps[i].at + 300000
    ensures Store.GetIn(After(repo, steps).cache, KeyOf(q), ORDINARY, now).1
            == Some(Show(Holds(After(repo, steps[..i]).repo, q)))
  {
    EntryStays(repo, steps, i, q);
  }

  lemma {:induction false} EntryStays(repo: Repo, steps: seq<Step>, i: nat, q: Query)
    requires i < |steps| && steps[i].op == DoLookup(q)
    requires Store.GetIn(After(repo, steps[..i]).cache, KeyOf(q), ORDINARY, steps[i].at).1.None?
    requires forall j :: i < j < |steps| ==> !Clears(steps[j], q) && steps[j].at < steps[i].at + 300000
    ensures Lookup(After(repo, steps).cache.redis, KeyOf(q))
            == Some(Store.Entry(Show(Holds(After(repo, steps[..i]).repo, q)), steps[i].at + 300000))
  {
    hide KeyOf, Holds, Clears, Apply, Store.GetIn;
    var n := |steps| - 1;
    if i < n {
      assert steps[..n][..i] == steps[..i];
      EntryStays(repo, steps[..n], i, q);
      StepKeepsEntry(After(repo, steps[..n]), steps[n], q);
    } else {
      MissIsStored(After(repo, steps[..n]), q, steps[n].at);
    }
  }

  lemma MissIsStored(s: Service, q: Query, now: int)
    requires Store.GetIn(s.cache, KeyOf(q), ORDINARY, now).1.None?
    ensures Lookup(Apply(s, Step(now, DoLookup(q))).cache.redis, KeyOf(q))
            == Some(Store.Entry(Show(Holds(s.repo, q)), now + 300000))
  {
    hide KeyOf, Holds;
  }

  lemma StepKeepsEntry(s: Service, step: Step, q: Query)
    requires KeyOf(q) in s.cache.redis && step.at < s.cache.redis[KeyOf(q)].expiresAt && !Clears(step, q)
    ensures Lookup(Apply(s, step).cache.redis, KeyOf(q)) == Lookup(s.cache.redis, KeyOf(q))
  {
    hide KeyOf, Holds, Prefix;
  }

  lemma {:induction false} AnyAgrees(s: Service, ids: iset<string>, queries: seq<Query>, now: int)
    requires Separate(ids) && Agrees(s, ids) && forall i :: 0 <= i < |queries| ==> queries[i].userId in ids
    ensures CheckAny(s, queries, now).1 <==> exists i :: 0 <= i < |queries| && Holds(s.repo, queries[i])
    decreases |queries|
  {
    hide Agrees, Holds, Check, Separate;
    if queries != [] {
      LookupAgrees(s, ids, queries[0], now);
      AnyAgrees(Check(s, queries[0], now).0, ids, queries[1..], now);
      assert queries == [queries[0]] + queries[1..];
    }
  }

  /** hasAnyRole and hasAnyPermission are the existential over the repository, in every
      reachable state. */
  lemma AnyIsExistential(repo: Repo, steps: seq<Step>, ids: iset<string>, queries: seq<Query>, now: int)
    requires Separate(ids) && StepsOf(steps, ids) && forall i :: 0 <= i < |queries| ==> queries[i].userId in ids
    ensures CheckAny(After(repo, steps), queries, now).1
            <==> exists i :: 0 <= i < |queries| && Holds(After(repo, steps).repo, queries[i])
  {
    CacheAgrees(repo, steps, ids);
    AnyAgrees(After(repo, steps), ids, queries, now);
  }

  /** The roles or permissions after the first one held are not looked up. */
  lemma {:induction false} LookupsStop(s: Service, ids: iset<string>, queries: seq<Query>, k: nat, now: int)
    requires Separate(ids) && Agrees(s, ids) && forall i :: 0 <= i < |queries| ==> queries[i].userId in ids
    requires k < |queries| && Holds(s.repo, queries[k])
    ensures CheckAny(s, queries, now) == CheckAny(s, queries[..k + 1], now)
    decreases k
  {
    hide Agrees, Holds, Check, Separate;
    LookupAgrees(s, ids, queries[0], now);
    assert queries[..k + 1][1..] == queries[1..][..k];
    if k > 0 {
      LookupsStop(Check(s, queries[0], now).0, ids, queries[1..], k - 1, now);
    }
  }

  // ---------- what assignments and removals mean ----------

  /** What a refused change says of the repository; it leaves everything as it is. */
  lemma RefusalsExactly(s: Service, userId: string, roleName: string)
    ensures var added, removed := Assign(s, userId, roleName), Remove(s, userId, roleName);
      && (userId !in s.repo.users ==> added == removed == (s, Some(UserNotFound)))
      && (userId in s.repo.users ==> removed.1 == None)
      && (userId in s.repo.users && roleName !in s.repo.roles ==> added == (s, Some(RoleNotFound)))
      && (userId in s.repo.users && roleName in s.repo.roles ==> added.1 == None)
  {
  }

  lemma {:induction false} WithoutRole(roles: seq<Role>, roleName: string)
    ensures forall r :: r in Without(roles, roleName) <==> r in roles && r.name != roleName
  {
    if roles != [] {
      var n := |roles| - 1;
      WithoutRole(roles[..n], roleName);
      assert roles == roles[..n] + [roles[n]];
    }
  }

  /** Removing takes away the role of that name and no other, from that user and no other; a
      permission stays exactly when one of the remaining roles grants it. */
  lemma RemovalIsExact(s: Service, userId: string, roleName: string, q: Query)
    requires userId in s.repo.users
    ensures var s' := Remove(s, userId, roleName).0;
      && (q.userId != userId ==> Holds(s'.repo, q) == Holds(s.repo, q))
      && (q.RoleQuery? && q.userId == userId ==>
            (Holds(s'.repo, q) <==> Holds(s.repo, q) && q.name != roleName))
      && (q.PermissionQuery? && q.userId == userId ==>
            (Holds(s'.repo, q) <==>
               exists r :: r in s.repo.users[userId] && r.name != roleName && q.name in r.permissions))
  {
    WithoutRole(s.repo.users[userId], roleName);
  }

  /** The role table lists each role under its own name, and names of one id agree. */
  ghost predicate Consistent(repo: Repo) {
    && (forall n :: n in repo.roles ==> repo.roles[n].name == n)
    && (forall u, r, n :: u in repo.users && r in repo.users[u] && n in repo.roles && r.id == repo.roles[n].id
          ==> r == repo.roles[n])
  }

  /** Assigning grants the role and its permissions, and nothing else. */
  lemma AssignmentIsExact(s: Service, userId: string, roleName: string, q: Query)
    requires Consistent(s.repo) && userId in s.repo.users && roleName in s.repo.roles
    ensures var s' := Assign(s, userId, roleName).0;
      Holds(s'.repo, q) <==>
        || Holds(s.repo, q)
        || (q.userId == userId
            && if q.RoleQuery? then q.name == roleName else q.name in s.repo.roles[roleName].permissions)
  {
    var role, held := s.repo.roles[roleName], s.repo.users[userId];
    if forall r :: r in held ==> r.id != role.id {
      var more := held + [role];
      assert forall r :: r in more <==> r in held || r == role;
    }
  }

  /** A role is held once: whoever holds one of its id keeps the list, and the cached answers. */
  lemma AssignedOnce(s: Service, userId: string, roleName: string)
    requires userId in s.repo.users && roleName in s.repo.roles
    ensures var role, held := s.repo.roles[roleName], s.repo.users[userId];
      var s' := Assign(s, userId, roleName).0;
      && (s' == s <== exists i :: 0 <= i < |held| && held[i].id == role.id)
      && ((forall i :: 0 <= i < |held| ==> held[i].id != role.id) ==> s'.repo.users[userId] == held + [role])
      && Assign(s', userId, roleName).0 == s'
  {
    var role, held := s.repo.roles[roleName], s.repo.users[userId];
    if forall r :: r in held ==> r.id != role.id {
      assert (held + [role])[|held|] == role;
    }
  }

  /** The id of a role is the key of its table. */
  ghost predicate Keyed(repo: Repo) {
    forall m, n :: m in repo.roles && n in repo.roles && repo.roles[m].id == repo.roles[n].id ==> m == n
  }

  lemma UpdateKeepsConsistent(repo: Repo, userId: string, roles: seq<Role>)
    requires Consistent(repo)
    requires forall r, n :: r in roles && n in repo.roles && r.id == repo.roles[n].id ==> r == repo.roles[n]
    ensures Consistent(repo.(users := repo.users[userId := roles]))
  {
  }

  lemma StepKeepsConsistent(s: Service, step: Step)
    requires Consistent(s.repo) && Keyed(s.repo)
    ensures Consistent(Apply(s, step).repo) && Apply(s, step).repo.roles == s.repo.roles
  {
    match step.op
    case DoLookup(q) =>
    case DoAssign(u, name) =>
      if u in s.repo.users && name in s.repo.roles {
        var held, role := s.repo.users[u], s.repo.roles[name];
        UpdateKeepsConsistent(s.repo, u, held + [role]);
      }
    case DoRemove(u, name) =>
      if u in s.repo.users {
        WithoutRole(s.repo.users[u], name);
        UpdateKeepsConsistent(s.repo, u, Without(s.repo.users[u], name));
      }
  }

  /** A consistent repository stays consistent, so an assignment is exact after every run. */
  lemma {:induction false} StaysConsistent(repo: Repo, steps: seq<Step>)
    requires Consistent(repo) && Keyed(repo)
    ensures Consistent(After(repo, steps).repo) && After(repo, steps).repo.roles == repo.roles
  {
    hide Consistent, Apply;
    if steps != [] {
      var n := |steps| - 1;
      StaysConsistent(repo, steps[..n]);
      StepKeepsConsistent(After(repo, steps[..n]), steps[n]);
    }
  }

  // ---------- the class ----------

  class RoleService {
    var repo: Repo
    const cacheService: Store.CacheService

    constructor (repo: Repo, cacheService: Store.CacheService)
      ensures this.repo == repo && this.cacheService == cacheService
    {
      this.repo := repo;
      this.cacheService := cacheService;
    }

    ghost function Current(): Service
      reads this, cacheService
    {
      Service(repo, cacheService.Contents())
    }

    method HasRole(userId: string, roleName: string, now: int) returns (answer: bool)
      modifies cacheService
      ensures (Current(), answer) == Check(old(Current()), RoleQuery(userId, roleName), now)
    {
      var key := "user:" + userId + ":" + "role:" + roleName;
      assert key == KeyOf(RoleQuery(userId, roleName));
      var cached := cacheService.Get(key, ORDINARY, now);
      if cached.Some? {
        return cached.value == "true";
      }
      answer := HasRoleIn(repo, userId, roleName);
      cacheService.Set(key, Show(answer), Some(CACHE_TTL), Store.BOTH, Store.NoFault, now);
    }

    method HasPermission(userId: string, permission: string, now: int) returns (answer: bool)
      modifies cacheService
      ensures (Current(), answer) == Check(old(Current()), PermissionQuery(userId, permission), now)
    {
      var key := "user:" + userId + ":" + "permission:" + permission;
      assert key == KeyOf(PermissionQuery(userId, permission));
      var cached := cacheService.Get(key, ORDINARY, now);
      if cached.Some? {
        return cached.value == "true";
      }
      answer := HasPermissionIn(repo, userId, permission);
      cacheService.Set(key, Show(answer), Some(CACHE_TTL), Store.BOTH, Store.NoFault, now);
    }

    method HasAnyRole(userId: string, roleNames: seq<string>, now: int) returns (answer: bool)
      modifies cacheService
      ensures (Current(), answer) == CheckAny(old(Current()), RoleQueries(userId, roleNames), now)
    {
      hide Check;
      ghost var queries := RoleQueries(userId, roleNames);
      for i := 0 to |roleNames|
        invariant CheckAny(old(Current()), queries, now) == CheckAny(Current(), queries[i..], now)
      {
        assert queries[i..][1..] == queries[i + 1..];
        var has := HasRole(userId, roleNames[i], now);
        if has {
          return true;
        }
      }
      answer := false;
    }

    method HasAnyPermission(userId: string, permissions: seq<string>, now: int) returns (answer: bool)
      modifies cacheService
      ensures (Current(), answer) == CheckAny(old(Current()), PermissionQueries(userId, permissions), now)
    {
      hide Check;
      ghost var queries := PermissionQueries(userId, permissions);
      for i := 0 to |permissions|
        invariant CheckAny(old(Current()), queries, now) == CheckAny(Current(), queries[i..], now)
      {
        assert queries[i..][1..] == queries[i + 1..];
        var has := HasPermission(userId, permissions[i], now);
        if has {
          return true;
        }
      }
      answer := false;
    }

    method AssignRole(userId: string, roleName: string) returns (failure: Option<Failure>)
      modifies this, cacheService
      ensures (Current(), failure) == Assign(old(Current()), userId, roleName)
    {
      if userId !in repo.users { return Some(UserNotFound); }
      if roleName !in repo.roles { return Some(RoleNotFound); }
      var role, held := repo.roles[roleName], repo.users[userId];
      if !exists r :: r in held && r.id == role.id {
        repo := repo.(users := repo.users[userId := held + [role]]);
        ClearCache(userId);
      }
      failure := None;
    }

    method RemoveRole(userId: string, roleName: string) returns (failure: Option<Failure>)
      modifies this, cacheService
      ensures (Current(), failure) == Remove(old(Current()), userId, roleName)
    {
      if userId !in repo.users { return Some(UserNotFound); }
      var kept := [];
      var roles := repo.users[userId];
      for i := 0 to |roles|
        invariant kept == Without(roles[..i], roleName)
      {
        assert roles[..i + 1][..i] == roles[..i];
        if roles[i].name != roleName {
          kept := kept + [roles[i]];
        }
      }
      assert roles[..|roles|] == roles;
      repo := repo.(users := repo.users[userId := kept]);
      ClearCache(userId);
      failure := None;
    }

    method ClearCache(userId: string)
      modifies cacheService
      ensures cacheService.Contents() == ClearUserCache(old(cacheService.Contents()), userId)
    {
      cacheService.InvalidatePattern(Matching(cacheService.memory.Keys + cacheService.redis.Keys, userId));
    }
  }
}
