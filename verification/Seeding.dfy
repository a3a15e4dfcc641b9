/**
Seeding the production benchmark (distributed.rs, schemes.rs and seed.rs of
benchmarks/prod-server/src): which worker takes which users, which scheme each user
gets, and which generated account each user is given.
*/
module Seeding {
  import opened Wrappers
  import opened Signers

  const U32_BOUND: nat := 0x1_0000_0000

  type U32 = x: int | 0 <= x < U32_BOUND
  type U8 = x: int | 0 <= x < 256

  // ----- shards -----

  datatype Shard = Shard(index: U32, count: U32)

  /** `ExecutionShard::new`. */
  function NewShard(index: U32, count: U32): Option<Shard> {
    if count == 0 || index >= count then None else Some(Shard(index, count))
  }

  /** `assigned_user_ids`. */
  function Assigned(s: Shard, total: nat): seq<nat>
    requires s.count > 0
  {
    if total == 0 then []
    else Assigned(s, total - 1) + if (total - 1) % s.count == s.index then [total - 1] else []
  }

  lemma {:induction false} AssignedAre(s: Shard, total: nat)
    requires s.count > 0
    ensures forall user: nat :: user in Assigned(s, total) <==> user < total && user % s.count == s.index
    ensures forall i, j | 0 <= i < j < |Assigned(s, total)| :: Assigned(s, total)[i] < Assigned(s, total)[j]
    decreases total
  {
    if total > 0 {
      AssignedAre(s, total - 1);
      var before := Assigned(s, total - 1);
      assert forall i | 0 <= i < |before| :: before[i] in before;
    }
  }

  /** For every number of users and shards, each user is in exactly one shard's list. */
  lemma ShardsPartition(count: U32, total: nat, user: nat)
    requires count > 0
    ensures user < total ==>
              var home: U32 := user % count;
              NewShard(home, count).Some? && user in Assigned(Shard(home, count), total)
    ensures forall index: U32 | NewShard(index, count).Some? && user in Assigned(Shard(index, count), total) ::
              user < total && index == user % count
  {
    hide Assigned;
    var home: U32 := user % count;
    AssignedAre(Shard(home, count), total);
    forall index: U32 | NewShard(index, count).Some? && user in Assigned(Shard(index, count), total)
      ensures user < total && index == user % count
    {
      AssignedAre(Shard(index, count), total);
    }
  }

  // ----- schemes -----

  function CountOf(plan: seq<Scheme>, scheme: Scheme): nat {
    if plan == [] then 0
    else CountOf(plan[..|plan| - 1], scheme) + if plan[|plan| - 1] == scheme then 1 else 0
  }

  lemma CountSnoc(plan: seq<Scheme>, last: Scheme, scheme: Scheme)
    ensures CountOf(plan + [last], scheme) == CountOf(plan, scheme) + if last == scheme then 1 else 0
  {
    assert (plan + [last])[..|plan|] == plan;
  }

  /** Whether the product of users and percentage fits in 32 bits. */
  predicate Fits(users: U32, percent: U8) {
    users * percent < U32_BOUND
  }

  function Share(users: U32, percent: U8): nat {
    users * percent / 100
  }

  /** The share as computed: the product wraps. */
  function WrappedShare(users: U32, percent: U8): nat {
    users * percent % U32_BOUND / 100
  }

  lemma ShareFits(users: U32, percent: U8)
    ensures Fits(users, percent) ==> WrappedShare(users, percent) == Share(users, percent)
    ensures users == 0 ==> Fits(users, percent) && Share(users, percent) == 0
  {
    Reduced(users * percent);
    if users == 0 {
      assert users * percent == 0;
    }
  }

  lemma Reduced(n: nat)
    ensures n % U32_BOUND <= n
    ensures n < U32_BOUND ==> n % U32_BOUND == n
  {
  }

  /** The share exceeds the users and nothing corrects it. */
  predicate Overshoots(users: U32, falconPercent: U8, ecdsaPercent: U8) {
    WrappedShare(users, falconPercent) > users && (ecdsaPercent == 0 || users == 1)
  }

  /** No distribution that adds up to 100, as the configuration demands, overshoots. */
  lemma HundredNeverOvershoots(users: U32, falconPercent: U8, ecdsaPercent: U8)
    requires falconPercent + ecdsaPercent == 100
    ensures !Overshoots(users, falconPercent, ecdsaPercent)
  {
    PercentBound(users, falconPercent);
    Reduced(users * falconPercent);
  }

  /** A distribution of 200 and 0 always does, while the product fits. */
  lemma DoubleOvershoots(users: U32)
    requires 0 < users * 200 < U32_BOUND
    ensures Overshoots(users, 200, 0) && WrappedShare(users, 200) == 2 * users
  {
    Reduced(users * 200);
    assert users * 200 == 2 * users * 100;
  }

  lemma PercentBound(x: nat, percent: nat)
    requires percent <= 100
    ensures 0 <= x * percent <= 100 * x
  {
    var rest: nat := 100 - percent;
    assert 100 * x == x * percent + x * rest;
  }

  /** `saturating_sub`. */
  function SaturatingSub(x: nat, y: nat): nat {
    if y > x then 0 else x - y
  }

  /** The counts of `build_scheme_plan`: the rounded-down share, corrected so that a
      scheme with a positive percentage is not left out. They add up to the users
      unless the share overshoots. */
  method SplitUsers(users: U32, falconPercent: U8, ecdsaPercent: U8) returns (falcon: nat, ecdsa: nat)
    ensures falcon + ecdsa == if Overshoots(users, falconPercent, ecdsaPercent) then WrappedShare(users, falconPercent) else users
    ensures users >= 2 && falconPercent > 0 ==> falcon > 0
    ensures users >= 2 && ecdsaPercent > 0 ==> ecdsa > 0
    ensures
      var share := Share(users, falconPercent);
      Fits(users, falconPercent) && (falconPercent > 0 ==> share > 0) && (ecdsaPercent > 0 ==> share < users) ==>
        falcon == share
  {
    hide Share, Fits, WrappedShare;
    ShareFits(users, falconPercent);
    if users == 0 {
      return 0, 0;
    }
    falcon := WrappedShare(users, falconPercent);
    ecdsa := SaturatingSub(users, falcon);
    if falconPercent > 0 && falcon == 0 {
      falcon := 1;
      ecdsa := SaturatingSub(users, falcon);
    }
    if ecdsaPercent > 0 && ecdsa == 0 && users > 1 {
      ecdsa := 1;
      falcon := SaturatingSub(users, ecdsa);
    }
  }

  /** `build_scheme_plan`, for every distribution: one entry per user unless the share
      overshoots and, from two users on, every scheme with a positive percentage. */
  method BuildSchemePlan(users: U32, falconPercent: U8, ecdsaPercent: U8) returns (plan: seq<Scheme>)
    ensures |plan| == if Overshoots(users, falconPercent, ecdsaPercent) then WrappedShare(users, falconPercent) else users
    ensures CountOf(plan, Falcon) + CountOf(plan, Ecdsa) == |plan|
    ensures users >= 2 && falconPercent > 0 ==> CountOf(plan, Falcon) > 0
    ensures users >= 2 && ecdsaPercent > 0 ==> CountOf(plan, Ecdsa) > 0
    ensures
      var share := Share(users, falconPercent);
      Fits(users, falconPercent) && (falconPercent > 0 ==> share > 0) && (ecdsaPercent > 0 ==> share < users) ==>
        CountOf(plan, Falcon) == share
  {
    hide Share, Fits, WrappedShare;
    var falcon, ecdsa := SplitUsers(users, falconPercent, ecdsaPercent);
    plan := [];
    for i := 0 to falcon
      invariant |plan| == i && CountOf(plan, Falcon) == i && CountOf(plan, Ecdsa) == 0
    {
      CountSnoc(plan, Falcon, Falcon);
      CountSnoc(plan, Falcon, Ecdsa);
      plan := plan + [Falcon];
    }
    for i := 0 to ecdsa
      invariant |plan| == falcon + i && CountOf(plan, Falcon) == falcon && CountOf(plan, Ecdsa) == i
    {
      CountSnoc(plan, Ecdsa, Falcon);
      CountSnoc(plan, Ecdsa, Ecdsa);
      plan := plan + [Ecdsa];
    }
    // The source pads a plan shorter than the users here; the counts never leave one.
    assert |plan| >= users;
  }

  // ----- seeds -----

  datatype User = User(id: nat, scheme: Scheme)

  type Seed = string

  /** `shard_user_plan`. */
  method ShardUserPlan(schemes: seq<Scheme>, s: Shard, users: U32) returns (plan: seq<User>)
    requires s.count > 0 && |schemes| == users
    ensures |plan| == |Assigned(s, users)|
    ensures forall i | 0 <= i < |plan| :: plan[i].id == Assigned(s, users)[i] && plan[i].id < users && plan[i].scheme == schemes[plan[i].id]
  {
    var ids := Assigned(s, users);
    AssignedAre(s, users);
    hide Assigned;
    plan := [];
    for i := 0 to |ids|
      invariant |plan| == i
      invariant forall j | 0 <= j < i :: plan[j].id == ids[j] && plan[j].id < users && plan[j].scheme == schemes[plan[j].id]
    {
      assert ids[i] in ids;
      plan := plan + [User(ids[i], schemes[ids[i]])];
    }
  }

  /** How many of the first `n` users have the scheme. */
  function Before(plan: seq<User>, n: nat, scheme: Scheme): nat
    requires n <= |plan|
  {
    if n == 0 then 0 else Before(plan, n - 1, scheme) + if plan[n - 1].scheme == scheme then 1 else 0
  }

  /** `count_required_entries`. */
  method CountRequiredEntries(plan: seq<User>) returns (counts: map<Scheme, nat>)
    ensures forall scheme :: (scheme in counts <==> Before(plan, |plan|, scheme) > 0)
    ensures forall scheme | scheme in counts :: counts[scheme] == Before(plan, |plan|, scheme)
  {
    counts := map[];
    for i := 0 to |plan|
      invariant forall scheme :: (scheme in counts <==> Before(plan, i, scheme) > 0)
      invariant forall scheme | scheme in counts :: counts[scheme] == Before(plan, i, scheme)
    {
      var scheme := plan[i].scheme;
      var count := if scheme in counts then counts[scheme] else 0;
      counts := counts[scheme := count + 1];
    }
  }

  function Available(entries: map<Scheme, seq<Seed>>, scheme: Scheme): nat {
    if scheme in entries then |entries[scheme]| else 0
  }

  /** How far a scheme's iterator has advanced. */
  function Position(next: map<Scheme, nat>, scheme: Scheme): nat {
    if scheme in next then next[scheme] else 0
  }

  /** The seed user `i` should get: the next unused one of its scheme. */
  predicate GetsNext(plan: seq<User>, entries: map<Scheme, seq<Seed>>, i: nat, given: (nat, Seed))
    requires i < |plan|
  {
    var scheme := plan[i].scheme;
    && Before(plan, i, scheme) < Available(entries, scheme)
    && given == (plan[i].id, entries[scheme][Before(plan, i, scheme)])
  }

  /** `assign_seed_entries`, with one position per scheme for its iterators. It
      succeeds exactly when there are enough seeds of each scheme. */
  method AssignSeedEntries(plan: seq<User>, entries: map<Scheme, seq<Seed>>) returns (r: Option<seq<(nat, Seed)>>)
    ensures r.Some? <==> forall scheme :: Before(plan, |plan|, scheme) <= Available(entries, scheme)
    ensures r.Some? ==> |r.value| == |plan| && forall i | 0 <= i < |plan| :: GetsNext(plan, entries, i, r.value[i])
  {
    var next: map<Scheme, nat> := map[];
    var assignments: seq<(nat, Seed)> := [];
    for i := 0 to |plan|
      invariant |assignments| == i
      invariant forall scheme :: Position(next, scheme) == Before(plan, i, scheme)
      invariant forall j | 0 <= j < i :: GetsNext(plan, entries, j, assignments[j])
      invariant forall scheme :: Before(plan, i, scheme) <= Available(entries, scheme)
    {
      var scheme := plan[i].scheme;
      var position := Position(next, scheme);
      if scheme !in entries || position >= |entries[scheme]| {
        BeforeGrows(plan, i + 1, |plan|, scheme);
        return None;
      }
      assignments := assignments + [(plan[i].id, entries[scheme][position])];
      next := next[scheme := position + 1];
    }
    return Some(assignments);
  }

  lemma {:induction false} BeforeGrows(plan: seq<User>, m: nat, n: nat, scheme: Scheme)
    requires m <= n <= |plan|
    ensures Before(plan, m, scheme) <= Before(plan, n, scheme)
    decreases n
  {
    if m < n {
      BeforeGrows(plan, m, n - 1, scheme);
    }
  }

  /** No two users get the same position of the same scheme, so no seed is used twice. */
  lemma SeedsAreUsedOnce(plan: seq<User>, i: nat, j: nat)
    requires i < j < |plan| && plan[i].scheme == plan[j].scheme
    ensures Before(plan, i, plan[i].scheme) < Before(plan, j, plan[j].scheme)
  {
    var scheme := plan[i].scheme;
    assert Before(plan, i + 1, scheme) == Before(plan, i, scheme) + 1;
    hide Before;
    BeforeGrows(plan, i + 1, j, scheme);
  }

  /** And every one of exactly the counted seeds is used. */
  lemma {:induction false} SeedsAreAllUsed(plan: seq<User>, n: nat, scheme: Scheme, k: nat) returns (i: nat)
    requires n <= |plan| && k < Before(plan, n, scheme)
    ensures i < n && plan[i].scheme == scheme && Before(plan, i, scheme) == k
    decreases n
  {
    if k == Before(plan, n - 1, scheme) {
      i := n - 1;
    } else {
      i := SeedsAreAllUsed(plan, n - 1, scheme, k);
    }
  }

  /** A worker's seeding: with as many seeds as were counted, assignment succeeds. */
  method SeedUsers(plan: seq<User>, generate: (Scheme, nat) -> Seed) returns (r: Option<seq<(nat, Seed)>>)
    ensures r.Some? && |r.value| == |plan|
    ensures forall i | 0 <= i < |plan| :: r.value[i] == (plan[i].id, generate(plan[i].scheme, Before(plan, i, plan[i].scheme)))
  {
    var counts := CountRequiredEntries(plan);
    var falcon := if Falcon in counts then counts[Falcon] else 0;
    var ecdsa := if Ecdsa in counts then counts[Ecdsa] else 0;
    var entries: map<Scheme, seq<Seed>> := map[Falcon := seq(falcon, (k: nat) => generate(Falcon, k)), Ecdsa := seq(ecdsa, (k: nat) => generate(Ecdsa, k))];
    forall scheme: Scheme
      ensures Available(entries, scheme) == Before(plan, |plan|, scheme)
    {
      assert scheme == Falcon || scheme == Ecdsa;
    }
    r := AssignSeedEntries(plan, entries);
    forall i | 0 <= i < |plan|
      ensures r.value[i] == (plan[i].id, generate(plan[i].scheme, Before(plan, i, plan[i].scheme)))
    {
      assert GetsNext(plan, entries, i, r.value[i]);
    }
  }
}
