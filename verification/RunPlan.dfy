/** Grouping the instances by conversation, and phase 0 of a run: resolving each conversation's
    space and minting its key, serially and in key order. */
module RunPlan {
  import opened Wrappers
  import opened KeyOrder
  import opened SpaceManifest

  datatype Instance = Instance(questionId: string, conversationId: Option<string>, question: string, answer: string)

  function KeyOf(inst: Instance): string {
    match inst.conversationId
    case Some(id) => id
    case None => inst.questionId
  }

  // ---- grouping ----

  function Push(groups: map<string, seq<nat>>, key: string, idx: nat): map<string, seq<nat>> {
    groups[key := (if key in groups then groups[key] else []) + [idx]]
  }

  function Groups(instances: seq<Instance>): map<string, seq<nat>> {
    if instances == [] then map[]
    else
      var n := |instances| - 1;
      Push(Groups(instances[..n]), KeyOf(instances[n]), n)
  }

  method GroupInstances(instances: seq<Instance>) returns (groups: map<string, seq<nat>>)
    ensures groups == Groups(instances)
  {
    groups := map[];
    for i := 0 to |instances|
      invariant groups == Groups(instances[..i])
    {
      assert instances[..i + 1][..i] == instances[..i];
      groups := Push(groups, KeyOf(instances[i]), i);
    }
    assert instances[..|instances|] == instances;
  }

  ghost predicate Increasing(s: seq<nat>) {
    forall i, j :: 0 <= i < j < |s| ==> s[i] < s[j]
  }

  /** The indices of one conversation's instances, in instance order. */
  function Members(instances: seq<Instance>, key: string): seq<nat> {
    if instances == [] then []
    else
      var n := |instances| - 1;
      Members(instances[..n], key) + (if KeyOf(instances[n]) == key then [n] else [])
  }

  lemma {:induction false} GroupIsMembers(instances: seq<Instance>, key: string)
    ensures key in Groups(instances) <==> Members(instances, key) != []
    ensures key in Groups(instances) ==> Groups(instances)[key] == Members(instances, key)
  {
    if instances != [] {
      GroupIsMembers(instances[..|instances| - 1], key);
    }
  }

  lemma {:induction false} MembersExactly(instances: seq<Instance>, key: string)
    ensures forall i :: i in Members(instances, key) <==> 0 <= i < |instances| && KeyOf(instances[i]) == key
    ensures Increasing(Members(instances, key))
  {
    if instances != [] {
      var n := |instances| - 1;
      var init := instances[..n];
      MembersExactly(init, key);
      var m := Members(init, key);
      assert forall i :: 0 <= i < |m| ==> m[i] in m;
      assert forall i :: 0 <= i < n ==> init[i] == instances[i];
    }
  }

  /** The groups partition the instances: an index is listed under its own conversation's key and
      under no other, and every group is non-empty and in instance order. */
  lemma GroupsPartition(instances: seq<Instance>, key: string)
    ensures key in Groups(instances) <==> exists i :: 0 <= i < |instances| && KeyOf(instances[i]) == key
    ensures key in Groups(instances) ==>
              && Groups(instances)[key] != [] && Increasing(Groups(instances)[key])
              && forall i :: i in Groups(instances)[key] <==> 0 <= i < |instances| && KeyOf(instances[i]) == key
  {
    GroupIsMembers(instances, key);
    MembersExactly(instances, key);
    var m := Members(instances, key);
    if m != [] {
      assert m[0] in m;
    }
    if i :| 0 <= i < |instances| && KeyOf(instances[i]) == key {
      assert i in m;
    }
  }

  /** The groups in terms of the instances: those with the conversation id, and, where an instance has
      none, the one with that question id. */
  lemma GroupsByConversation(instances: seq<Instance>, key: string)
    ensures key in Groups(instances) ==>
              forall i :: i in Groups(instances)[key] <==>
                0 <= i < |instances| &&
                (instances[i].conversationId == Some(key) ||
                 (instances[i].conversationId == None && instances[i].questionId == key))
    ensures forall i :: 0 <= i < |instances| && instances[i].conversationId == Some(key) ==> key in Groups(instances)
    ensures forall i ::
              (0 <= i < |instances| && instances[i].conversationId == None && instances[i].questionId == key) ==>
                key in Groups(instances)
  {
    GroupsPartition(instances, key);
  }

  // ---- phase 0 ----

  /** What the admin plane answers to its `n`-th mint request, and the `n`-th id drawn. */
  datatype Admin = Admin(mint: (nat, Uuid) -> Option<string>, newId: nat -> Uuid)

  /** `readOnly` holds a loaded manifest's spaces; `persist` asks for one to be recorded. */
  datatype Mode = Mode(readOnly: Option<map<string, string>>, persist: bool)

  datatype PlannedRow = Planned(convKey: string, idxs: seq<nat>, space: Option<(Uuid, string)>, reason: string)

  type Planned = p: PlannedRow | p.idxs != [] witness PlannedRow.Planned("", [0], None, "")

  const NO_SPACE := "read-only: no persisted space for conversation"
  const MINT_FAILED := "data-plane key mint failed"

  datatype Plan = Plan(planned: seq<Planned>, tokens: map<Uuid, string>, calls: nat, granted: seq<Uuid>,
    saved: map<string, string>)

  function MintOrCachedStep(admin: Admin, p: Plan, id: Uuid): (Plan, Option<string>) {
    if id in p.tokens then (p, Some(p.tokens[id]))
    else
      match admin.mint(p.calls, id)
      case None => (p.(calls := p.calls + 1), None)
      case Some(token) =>
        (p.(calls := p.calls + 1, tokens := p.tokens[id := token], granted := p.granted + [id]), Some(token))
  }

  /** The space conversation number `i` is to use. */
  function Resolve(mode: Mode, admin: Admin, key: string, i: nat): Option<Uuid> {
    match mode.readOnly
    case Some(spaces) => Lookup(spaces, key)
    case None => Some(admin.newId(i + 1))
  }

  function PlanStep(mode: Mode, admin: Admin, p: Plan, key: string, idxs: seq<nat>): (q: Plan)
    requires idxs != []
    ensures |q.planned| == |p.planned| + 1 && q.planned[..|p.planned|] == p.planned
    ensures q.planned[|p.planned|].convKey == key && q.planned[|p.planned|].idxs == idxs
  {
    match Resolve(mode, admin, key, |p.planned|)
    case None => p.(planned := p.planned + [PlannedRow.Planned(key, idxs, None, NO_SPACE)])
    case Some(id) =>
      var (q, minted) := MintOrCachedStep(admin, p, id);
      match minted
      case None => q.(planned := q.planned + [PlannedRow.Planned(key, idxs, None, MINT_FAILED)])
      case Some(token) =>
        q.(planned := q.planned + [PlannedRow.Planned(key, idxs, Some((id, token)), "")],
           saved := if mode.readOnly.None? && mode.persist then q.saved[key := HexText(id)] else q.saved)
  }

  /** The preflight mint has used call 0 and id 0. */
  const BLANK := Plan([], map[], 1, [], map[])

  ghost predicate Covers(groups: map<string, seq<nat>>, keys: seq<string>) {
    forall k :: k in keys ==> k in groups && groups[k] != []
  }

  function PlanAll(mode: Mode, admin: Admin, groups: map<string, seq<nat>>, keys: seq<string>): (p: Plan)
    requires Covers(groups, keys)
    ensures |p.planned| == |keys|
    ensures forall i :: 0 <= i < |keys| ==> p.planned[i].convKey == keys[i] && p.planned[i].idxs == groups[keys[i]]
  {
    if keys == [] then BLANK
    else
      var n := |keys| - 1;
      PlanStep(mode, admin, PlanAll(mode, admin, groups, keys[..n]), keys[n], groups[keys[n]])
  }

  /** Every planned token is the cached one, and the cache is exactly the successful mints,
      none of them repeated. */
  ghost predicate CacheInv(p: Plan) {
    && (forall pl :: pl in p.planned && pl.space.Some? ==>
       pl.space.value.0 in p.tokens && p.tokens[pl.space.value.0] == pl.space.value.1)
    && (forall id :: id in p.tokens <==> id in p.granted)
    && (forall i, j :: 0 <= i < j < |p.granted| ==> p.granted[i] != p.granted[j])
  }

  lemma MintKeepsCache(admin: Admin, p: Plan, id: Uuid)
    requires CacheInv(p)
    ensures var (q, minted) := MintOrCachedStep(admin, p, id);
            && CacheInv(q) && q.planned == p.planned && q.saved == p.saved
            && (minted.Some? ==> id in q.tokens && q.tokens[id] == minted.value)
  {
  }

  lemma StepKeepsCache(mode: Mode, admin: Admin, p: Plan, key: string, idxs: seq<nat>)
    requires idxs != [] && CacheInv(p)
    ensures CacheInv(PlanStep(mode, admin, p, key, idxs))
  {
    var found := Resolve(mode, admin, key, |p.planned|);
    if found.Some? {
      MintKeepsCache(admin, p, found.value);
    }
  }

  lemma {:induction false} CacheHolds(mode: Mode, admin: Admin, groups: map<string, seq<nat>>, keys: seq<string>)
    requires Covers(groups, keys)
    ensures CacheInv(PlanAll(mode, admin, groups, keys))
  {
    if keys != [] {
      var n := |keys| - 1;
      CacheHolds(mode, admin, groups, keys[..n]);
      StepKeepsCache(mode, admin, PlanAll(mode, admin, groups, keys[..n]), keys[n], groups[keys[n]]);
    }
  }

  function SpaceOf(pl: Planned): Option<Uuid> {
    if pl.space.Some? then Some(pl.space.value.0) else None
  }

  ghost predicate NewKey(p: Plan, key: string) {
    forall i :: 0 <= i < |p.planned| ==> p.planned[i].convKey != key
  }

  /** A conversation planned by an ingesting, persisting run is in the manifest exactly when it
      obtained a space, and then under that space. */
  ghost predicate SavedInv(p: Plan) {
    && (forall i :: 0 <= i < |p.planned| ==> Lookup(p.saved, p.planned[i].convKey) == SpaceOf(p.planned[i]))
    && (forall key :: NewKey(p, key) ==> key !in p.saved)
  }

  /** What a step does to the manifest. */
  lemma StepSaves(mode: Mode, admin: Admin, p: Plan, key: string, idxs: seq<nat>)
    requires idxs != [] && mode.readOnly.None? && mode.persist
    ensures var q := PlanStep(mode, admin, p, key, idxs);
            var found := SpaceOf(q.planned[|p.planned|]);
            q.saved == if found.Some? then p.saved[key := HexText(found.value)] else p.saved
  {
  }

  lemma LookupAfter(spaces: map<string, string>, key: string, id: Uuid, k: string)
    ensures Lookup(spaces[key := HexText(id)], k) == if k == key then Some(id) else Lookup(spaces, k)
  {
    HexRoundTrip(id);
  }

  lemma StepKeepsSaved(mode: Mode, admin: Admin, p: Plan, key: string, idxs: seq<nat>)
    requires idxs != [] && mode.readOnly.None? && mode.persist
    requires SavedInv(p) && NewKey(p, key)
    ensures SavedInv(PlanStep(mode, admin, p, key, idxs))
  {
    var q, n := PlanStep(mode, admin, p, key, idxs), |p.planned|;
    var found := SpaceOf(q.planned[n]);
    StepSaves(mode, admin, p, key, idxs);
    forall i | 0 <= i < |q.planned| ensures Lookup(q.saved, q.planned[i].convKey) == SpaceOf(q.planned[i]) {
      var k := q.planned[i].convKey;
      assert i < n ==> q.planned[i] == q.planned[..n][i];
      if found.Some? {
        LookupAfter(p.saved, key, found.value, k);
      }
    }
    forall k | NewKey(q, k) ensures k !in q.saved {
      assert q.planned[n].convKey == key;
      assert forall i :: 0 <= i < n ==> q.planned[..n][i] == q.planned[i];
      assert NewKey(p, k);
    }
  }

  lemma {:induction false} SavedMatchesPlanned(mode: Mode, admin: Admin, groups: map<string, seq<nat>>,
                                               keys: seq<string>)
    requires Covers(groups, keys) && StrictlyOrdered(keys)
    requires mode.readOnly.None? && mode.persist
    ensures SavedInv(PlanAll(mode, admin, groups, keys))
  {
    if keys != [] {
      var n := |keys| - 1;
      SavedMatchesPlanned(mode, admin, groups, keys[..n]);
      StepKeepsSaved(mode, admin, PlanAll(mode, admin, groups, keys[..n]), keys[n], groups[keys[n]]);
    }
  }

  /** Ingest once, read many: a later read-only run over the persisted manifest, against whatever
      its own admin plane answers, gives a conversation the space it was ingested under or none;
      and a conversation that was never given a space is reported as having none. */
  lemma ReadOnlyFindsTheSameSpace(mode: Mode, admin: Admin, admin': Admin, groups: map<string, seq<nat>>,
                                  keys: seq<string>, i: nat)
    requires Covers(groups, keys) && StrictlyOrdered(keys) && i < |keys|
    requires mode.readOnly.None? && mode.persist
    ensures var first := PlanAll(mode, admin, groups, keys);
            var later := PlanAll(Mode(Some(first.saved), false), admin', groups, keys);
            && (first.planned[i].space.None? ==> later.planned[i].space.None? && later.planned[i].reason == NO_SPACE)
            && (first.planned[i].space.Some? && later.planned[i].space.Some? ==>
                  later.planned[i].space.value.0 == first.planned[i].space.value.0)
            && (first.planned[i].space.Some? && later.planned[i].space.None? ==> later.planned[i].reason == MINT_FAILED)
  {
    var first := PlanAll(mode, admin, groups, keys);
    SavedMatchesPlanned(mode, admin, groups, keys);
    PlannedAt(Mode(Some(first.saved), false), admin', groups, keys, i);
  }

  ghost predicate FollowsResolve(found: Option<Uuid>, pl: Planned) {
    match found
    case None => pl.space.None? && pl.reason == "read-only: no persisted space for conversation"
    case Some(id) => if pl.space.Some? then pl.space.value.0 == id else pl.reason == "data-plane key mint failed"
  }

  lemma StepFollowsResolve(mode: Mode, admin: Admin, p: Plan, key: string, idxs: seq<nat>)
    requires idxs != []
    ensures FollowsResolve(Resolve(mode, admin, key, |p.planned|),
            PlanStep(mode, admin, p, key, idxs).planned[|p.planned|])
  {
  }

  lemma StepExtends(mode: Mode, admin: Admin, p: Plan, key: string, idxs: seq<nat>, i: nat)
    requires idxs != [] && i < |p.planned|
    ensures PlanStep(mode, admin, p, key, idxs).planned[i] == p.planned[i]
  {
    var q := PlanStep(mode, admin, p, key, idxs);
    assert q.planned[..|p.planned|][i] == q.planned[i];
  }

  lemma PlanKeeps(mode: Mode, admin: Admin, groups: map<string, seq<nat>>, keys: seq<string>, i: nat)
    requires Covers(groups, keys) && i < |keys| - 1
    ensures PlanAll(mode, admin, groups, keys).planned[i]
         == PlanAll(mode, admin, groups, keys[..|keys| - 1]).planned[i]
  {
    var n := |keys| - 1;
    StepExtends(mode, admin, PlanAll(mode, admin, groups, keys[..n]), keys[n], groups[keys[n]], i);
  }

  lemma PlannedLast(mode: Mode, admin: Admin, groups: map<string, seq<nat>>, keys: seq<string>)
    requires Covers(groups, keys) && keys != []
    ensures var n := |keys| - 1;
            FollowsResolve(Resolve(mode, admin, keys[n], n), PlanAll(mode, admin, groups, keys).planned[n])
  {
    var n := |keys| - 1;
    StepFollowsResolve(mode, admin, PlanAll(mode, admin, groups, keys[..n]), keys[n], groups[keys[n]]);
  }

  lemma {:induction false} PlannedAt(mode: Mode, admin: Admin, groups: map<string, seq<nat>>, keys: seq<string>, i: nat)
    requires Covers(groups, keys) && i < |keys|
    ensures FollowsResolve(Resolve(mode, admin, keys[i], i), PlanAll(mode, admin, groups, keys).planned[i])
  {
    if i == |keys| - 1 {
      PlannedLast(mode, admin, groups, keys);
    } else {
      PlannedAt(mode, admin, groups, keys[..|keys| - 1], i);
      PlanKeeps(mode, admin, groups, keys, i);
    }
  }

  lemma StepGrants(mode: Mode, admin: Admin, p: Plan, key: string, idxs: seq<nat>)
    requires idxs != [] && mode.readOnly.None?
    requires forall n, id :: admin.mint(n, id).Some?
    ensures SpaceOf(PlanStep(mode, admin, p, key, idxs).planned[|p.planned|]) == Some(admin.newId(|p.planned| + 1))
  {
  }

  lemma GrantedLast(mode: Mode, admin: Admin, groups: map<string, seq<nat>>, keys: seq<string>)
    requires Covers(groups, keys) && keys != [] && mode.readOnly.None?
    requires forall n, id :: admin.mint(n, id).Some?
    ensures SpaceOf(PlanAll(mode, admin, groups, keys).planned[|keys| - 1]) == Some(admin.newId(|keys|))
  {
    var n := |keys| - 1;
    StepGrants(mode, admin, PlanAll(mode, admin, groups, keys[..n]), keys[n], groups[keys[n]]);
  }

  /** An admin plane that grants every key gives each conversation of an ingesting run its new space. */
  lemma {:induction false} GrantedAt(mode: Mode, admin: Admin, groups: map<string, seq<nat>>, keys: seq<string>, i: nat)
    requires Covers(groups, keys) && i < |keys| && mode.readOnly.None?
    requires forall n, id :: admin.mint(n, id).Some?
    ensures SpaceOf(PlanAll(mode, admin, groups, keys).planned[i]) == Some(admin.newId(i + 1))
  {
    if i == |keys| - 1 {
      GrantedLast(mode, admin, groups, keys);
    } else {
      GrantedAt(mode, admin, groups, keys[..|keys| - 1], i);
      PlanKeeps(mode, admin, groups, keys, i);
    }
  }

  /** After `n` conversations of an ingesting run: one mint for each, with that conversation's new id. */
  ghost predicate OneMintEach(admin: Admin, p: Plan, n: nat) {
    && p.calls == n + 1 && |p.planned| == n
    && (forall id :: id in p.tokens ==> exists i :: 1 <= i <= n && id == admin.newId(i))
    && (forall i :: 0 <= i < n ==>
          match admin.mint(i + 1, admin.newId(i + 1))
          case None => p.planned[i].space == None && p.planned[i].reason == "data-plane key mint failed"
          case Some(token) => p.planned[i].space == Some((admin.newId(i + 1), token)))
  }

  lemma StepMintsOne(mode: Mode, admin: Admin, p: Plan, key: string, idxs: seq<nat>)
    requires idxs != [] && mode.readOnly.None? && OneMintEach(admin, p, |p.planned|)
    requires forall i, j :: 0 <= i < j ==> admin.newId(i) != admin.newId(j)
    ensures OneMintEach(admin, PlanStep(mode, admin, p, key, idxs), |p.planned| + 1)
  {
    var n, q := |p.planned|, PlanStep(mode, admin, p, key, idxs);
    assert admin.newId(n + 1) !in p.tokens;
    forall i | 0 <= i < n ensures q.planned[i] == p.planned[i] {
      StepExtends(mode, admin, p, key, idxs, i);
    }
  }

  /** An ingesting run whose new ids differ makes one mint a conversation, in key order after the
      preflight, and uses exactly what that mint answers. */
  lemma {:induction false} PlanMintsOneEach(mode: Mode, admin: Admin, groups: map<string, seq<nat>>, keys: seq<string>)
    requires Covers(groups, keys) && mode.readOnly.None?
    requires forall i, j :: 0 <= i < j ==> admin.newId(i) != admin.newId(j)
    ensures OneMintEach(admin, PlanAll(mode, admin, groups, keys), |keys|)
  {
    if keys != [] {
      var n := |keys| - 1;
      PlanMintsOneEach(mode, admin, groups, keys[..n]);
      StepMintsOne(mode, admin, PlanAll(mode, admin, groups, keys[..n]), keys[n], groups[keys[n]]);
    }
  }

  /** The admin-plane client: each call consumes the next answer. */
  class KeyMinter {
    const admin: Admin
    var calls: nat
    ghost var granted: seq<Uuid>

    constructor (admin: Admin)
      ensures this.admin == admin && calls == 0 && granted == []
    {
      this.admin := admin;
      calls := 0;
      granted := [];
    }

    method Mint(space: Uuid) returns (r: Option<string>)
      modifies this
      ensures r == admin.mint(old(calls), space) && calls == old(calls) + 1
      ensures granted == if r.Some? then old(granted) + [space] else old(granted)
    {
      r := admin.mint(calls, space);
      calls := calls + 1;
      if r.Some? {
        granted := granted + [space];
      }
    }
  }

  class TokenCache {
    var tokens: map<Uuid, string>

    constructor ()
      ensures tokens == map[]
    {
      tokens := map[];
    }

    method MintOrCached(minter: KeyMinter, space: Uuid) returns (r: Option<string>)
      modifies this, minter
      ensures r.Some? ==> space in tokens && tokens[space] == r.value
      ensures space in old(tokens) ==> minter.calls == old(minter.calls) && r.Some?
      ensures var before := Plan([], old(tokens), old(minter.calls), old(minter.granted), map[]);
              MintOrCachedStep(minter.admin, before, space) ==
                (Plan([], tokens, minter.calls, minter.granted, map[]), r)
    {
      if space in tokens {
        return Some(tokens[space]);
      }
      r := minter.Mint(space);
      if r.Some? {
        tokens := tokens[space := r.value];
      }
    }
  }

  /** One conversation of phase 0; `before` is what was planned ahead of it. */
  method PlanConversation(mode: Mode, minter: KeyMinter, cache: TokenCache, manifest: Manifest, key: string,
                          idxs: seq<nat>, ghost before: seq<Planned>, i: nat)
    returns (pl: Planned)
    requires idxs != [] && i == |before|
    modifies minter, cache, manifest
    ensures PlanStep(mode, minter.admin,
            Plan(before, old(cache.tokens), old(minter.calls), old(minter.granted), old(manifest.spaces)), key, idxs)
         == Plan(before + [pl], cache.tokens, minter.calls, minter.granted, manifest.spaces)
  {
    var found;
    if mode.readOnly.Some? {
      found := Lookup(mode.readOnly.value, key);
    } else {
      found := Some(minter.admin.newId(i + 1));
    }
    if found.None? {
      return PlannedRow.Planned(key, idxs, None, NO_SPACE);
    }
    var token := cache.MintOrCached(minter, found.value);
    if token.None? {
      return PlannedRow.Planned(key, idxs, None, MINT_FAILED);
    }
    if mode.readOnly.None? && mode.persist {
      manifest.Record(key, found.value);
    }
    return PlannedRow.Planned(key, idxs, Some((found.value, token.value)), "");
  }

  lemma PlanAllNext(mode: Mode, admin: Admin, groups: map<string, seq<nat>>, keys: seq<string>, i: nat)
    requires Covers(groups, keys) && i < |keys|
    ensures PlanAll(mode, admin, groups, keys[..i + 1])
         == PlanStep(mode, admin, PlanAll(mode, admin, groups, keys[..i]), keys[i], groups[keys[i]])
  {
    assert keys[..i + 1][..i] == keys[..i];
  }

  /** Phase 0: plans the conversations in key order and leaves the tokens in the cache. */
  method PlanConversations(mode: Mode, minter: KeyMinter, cache: TokenCache, manifest: Manifest,
                           groups: map<string, seq<nat>>, keys: seq<string>)
    returns (planned: seq<Planned>)
    requires Covers(groups, keys)
    requires minter.calls == 1 && minter.granted == [] && cache.tokens == map[] && manifest.spaces == map[]
    modifies minter, cache, manifest
    ensures PlanAll(mode, minter.admin, groups, keys) ==
            Plan(planned, cache.tokens, minter.calls, minter.granted, manifest.spaces)
  {
    planned := [];
    assert keys[..|keys|] == keys;
    for i := 0 to |keys|
      invariant PlanAll(mode, minter.admin, groups, keys[..i]) ==
                Plan(planned, cache.tokens, minter.calls, minter.granted, manifest.spaces)
    {
      PlanAllNext(mode, minter.admin, groups, keys, i);
      var pl := PlanConversation(mode, minter, cache, manifest, keys[i], groups[keys[i]], planned, i);
      planned := planned + [pl];
    }
  }
}
