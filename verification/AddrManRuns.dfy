/** Whole histories of an address manager: every finite sequence of public operations. */
module AddrManRuns {
  import opened Prelude
  import opened AddrTypes
  import opened AddrManSpec
  import opened AddrManInvariant
  import opened AddrManOps

  /** A public operation together with the clock readings and random choices it meets. */
  datatype Op =
    | AddOp(items: seq<AddItem>, source: NetAddr, penalty: int)
    | GoodOp(a: Service, time: int)
    | AttemptOp(a: Service, countFailure: bool, time: int)
    | ConnectedOp(a: Service, time: int)
    | SetServicesOp(a: Service, services: bv64)
    | GetAddrOp(draws: seq<int>)
    | ResolveCollisionsOp(visits: seq<Visit>)
    | SelectTriedCollisionOp(pick: int)

  /** The clock is past the epoch. */
  ghost predicate Timely(op: Op) {
    match op
    case GoodOp(_, time) => time > 0
    case AttemptOp(_, _, time) => time > 0
    case ResolveCollisionsOp(visits) => forall k | 0 <= k < |visits| :: visits[k].now > 0
    case _ => true
  }

  function Apply(env: Env, s: State, op: Op): State {
    match op
    case AddOp(items, source, penalty) => Add(env, s, items, source, penalty).0
    case GoodOp(a, time) => Good(env, s, a, true, time).0
    case AttemptOp(a, countFailure, time) => Attempt(s, a, countFailure, time)
    case ConnectedOp(a, time) => Connected(s, a, time)
    case SetServicesOp(a, services) => SetServices(s, a, services)
    case GetAddrOp(draws) => Shuffle(s, draws)
    case ResolveCollisionsOp(visits) => Resolve(env, s, visits)
    case SelectTriedCollisionOp(pick) => SelectCollision(env, s, pick).0
  }

  function Run(env: Env, s: State, ops: seq<Op>): State
    decreases |ops|
  {
    if ops == [] then s else Apply(env, Run(env, s, ops[..|ops| - 1]), ops[|ops| - 1])
  }

  /** Every stored address is routable, hence valid. */
  ghost predicate AllRoutable(env: Env, s: State) {
    forall id | id in s.info :: IsRoutable(env, s.info[id].addr.service.ip)
  }

  /**
    What a later state owes an earlier one: occupied tried slots are still
    occupied, and an id handed out before still names the same address or is gone.
   */
  ghost predicate Later(s: State, t: State) {
    && t.key == s.key
    && s.idCount <= t.idCount
    && s.triedTab.Keys <= t.triedTab.Keys
    && (forall id | id in t.info && id < s.idCount ::
          id in s.info && t.info[id].addr.service == s.info[id].addr.service)
  }

  lemma EvolvesIsLater(env: Env, s: State, t: State, promoted: set<int>)
    requires Evolves(env, s, t, promoted)
    ensures Later(s, t) && (AllRoutable(env, s) ==> AllRoutable(env, t))
  {
  }

  /** One operation. */
  lemma ApplyKeeps(env: Env, s: State, op: Op)
    requires Valid(env, s) && Timely(op)
    ensures Valid(env, Apply(env, s, op)) && Later(s, Apply(env, s, op))
    ensures AllRoutable(env, s) ==> AllRoutable(env, Apply(env, s, op))
  {
    hide Valid, Evolves, Later, AllRoutable, Add, Good, Attempt, Connected, SetServices, Shuffle, Resolve,
         SelectCollision;
    var t := Apply(env, s, op);
    match op
    case AddOp(items, source, penalty) =>
      AddKeeps(env, s, items, source, penalty);
      EvolvesIsLater(env, s, t, {});
    case GoodOp(a, time) =>
      GoodKeeps(env, s, a, true, time);
      if Find(s, a).Some? {
        EvolvesIsLater(env, s, t, {Find(s, a).value});
      } else {
        EvolvesIsLater(env, s, t, {});
      }
    case AttemptOp(a, countFailure, time) =>
      AttemptKeeps(env, s, a, countFailure, time);
      EvolvesIsLater(env, s, t, {});
    case ConnectedOp(a, time) =>
      ConnectedKeeps(env, s, a, time);
      EvolvesIsLater(env, s, t, {});
    case SetServicesOp(a, services) =>
      SetServicesKeeps(env, s, a, services);
      EvolvesIsLater(env, s, t, {});
    case GetAddrOp(draws) =>
      ShuffleKeeps(env, s, draws);
      EvolvesIsLater(env, s, t, {});
    case ResolveCollisionsOp(visits) =>
      ResolveKeeps(env, s, visits);
      EvolvesIsLater(env, s, t, VisitIds(visits));
    case SelectTriedCollisionOp(pick) =>
      SelectCollisionKeeps(env, s, pick);
      EvolvesIsLater(env, s, t, {});
  }

  lemma LaterTrans(s: State, t: State, u: State)
    requires Later(s, t) && Later(t, u)
    ensures Later(s, u)
  {
  }

  /** Every reachable state satisfies the whole cross-index invariant. */
  lemma {:induction false} RunKeeps(env: Env, s: State, ops: seq<Op>)
    requires Valid(env, s) && forall k | 0 <= k < |ops| :: Timely(ops[k])
    ensures Valid(env, Run(env, s, ops)) && Later(s, Run(env, s, ops))
    ensures AllRoutable(env, s) ==> AllRoutable(env, Run(env, s, ops))
    decreases |ops|
  {
    hide Valid, Later, AllRoutable, Apply, Timely;
    if ops == [] {
      LaterRefl(s);
    } else {
      var n := |ops| - 1;
      RunKeeps(env, s, ops[..n]);
      ApplyKeeps(env, Run(env, s, ops[..n]), ops[n]);
      LaterTrans(s, Run(env, s, ops[..n]), Run(env, s, ops));
    }
  }

  lemma LaterRefl(s: State)
    ensures Later(s, s)
  {
  }

  /** From the constructor on: consistent, bounded collisions, only routable addresses. */
  lemma ReachableValid(env: Env, key: Key, ops: seq<Op>)
    requires key != 0 && forall k | 0 <= k < |ops| :: Timely(ops[k])
    ensures Valid(env, Run(env, Initial(key), ops)) && AllRoutable(env, Run(env, Initial(key), ops))
  {
    hide Valid;
    InitialValid(env, key);
    RunKeeps(env, Initial(key), ops);
  }

  lemma {:induction false} RunSplit(env: Env, s: State, ops: seq<Op>, m: nat)
    requires m <= |ops|
    ensures Run(env, s, ops) == Run(env, Run(env, s, ops[..m]), ops[m..])
    decreases |ops|
  {
    if m == |ops| {
      assert ops[..m] == ops && ops[m..] == [];
    } else {
      var n := |ops| - 1;
      RunSplit(env, s, ops[..n], m);
      assert ops[..n][..m] == ops[..m] && ops[..n][m..] == ops[m..][..|ops[m..]| - 1];
    }
  }

  /** Between any two moments of a history, from whatever valid manager, nothing in Later is ever undone. */
  lemma HistoryNeverUndone(env: Env, s: State, ops: seq<Op>, m: nat)
    requires Valid(env, s) && m <= |ops| && forall k | 0 <= k < |ops| :: Timely(ops[k])
    ensures Later(Run(env, s, ops[..m]), Run(env, s, ops))
  {
    hide Valid, Later, Apply, Timely;
    RunKeeps(env, s, ops[..m]);
    RunSplit(env, s, ops, m);
    RunKeeps(env, Run(env, s, ops[..m]), ops[m..]);
  }

  /** In any state of such a history, every collision that can be drawn leads to a real tried entry. */
  lemma DrawnCollisionIsTried(env: Env, s: State, ops: seq<Op>, pick: int)
    requires Valid(env, s) && forall k | 0 <= k < |ops| :: Timely(ops[k])
    ensures var t := Run(env, s, ops);
            && |t.collisions| <= SET_TRIED_COLLISION_SIZE
            && (pick in t.collisions && pick in t.info ==>
                  && TriedSlotOf(env, t, pick) in t.triedTab
                  && var other := t.triedTab[TriedSlotOf(env, t, pick)];
                     && other in t.info && t.info[other].inTried
                     && SelectCollision(env, t, pick).1 == Some(t.info[other]))
  {
    hide Inv, Run, SelectCollision;
    RunKeeps(env, s, ops);
    SelectCollisionKeeps(env, Run(env, s, ops), pick);
  }
}
