/** Whole lives of an address manager: public operations with restarts from files in between. */
module AddrManLives {
  import opened Prelude
  import opened AddrTypes
  import opened AddrManSpec
  import opened AddrManInvariant
  import opened AddrManOps
  import opened AddrManRuns
  import opened AddrManCheck
  import opened AddrManLoaded
  import Disk = AddrManDisk

  /** A public operation, or a restart that loads a file; `order` is the order in which loading visits the entries. */
  datatype Event = Do(op: Op) | Reload(f: Disk.File, order: seq<int>)

  ghost function After(env: Env, s: State, e: Event): State {
    match e
    case Do(op) => Apply(env, s, op)
    case Reload(f, order) => Disk.Unserialize(env, f, order).1
  }

  ghost function Live(env: Env, s: State, events: seq<Event>): State
    decreases |events|
  {
    if events == [] then s else After(env, Live(env, s, events[..|events| - 1]), events[|events| - 1])
  }

  /** Operations meet a positive clock, and every file that is loaded is accepted, whatever it holds. */
  ghost predicate Accepted(env: Env, e: Event) {
    match e
    case Do(op) => Timely(op)
    case Reload(f, order) => Disk.Framed(f) && Disk.Unserialize(env, f, order).0.Loaded?
  }

  ghost predicate AllAccepted(env: Env, events: seq<Event>) {
    forall k | 0 <= k < |events| :: Accepted(env, events[k])
  }

  lemma EventKeeps(env: Env, s: State, e: Event)
    requires Valid(env, s) && Accepted(env, e)
    ensures Valid(env, After(env, s, e))
  {
    hide Valid, Later, AllRoutable, Apply, Disk.Unserialize, Disk.Framed;
    match e
    case Do(op) => ApplyKeeps(env, s, op);
    case Reload(f, order) => LoadedIsValid(env, f, order);
  }

  /**
    From the constructor on, through any operations and any restarts from accepted files, the manager satisfies the
    cross-index invariant and passes its own check.
   */
  lemma {:induction false} EveryLifePasses(env: Env, key: Key, events: seq<Event>)
    requires key != 0 && AllAccepted(env, events)
    ensures var t := Live(env, Initial(key), events); Valid(env, t) && CheckOk(env, t)
    decreases |events|
  {
    hide Inv, CollisionsOk, After, Accepted, CheckOk;
    var s := Initial(key);
    if events == [] {
      InitialValid(env, key);
    } else {
      var n := |events| - 1;
      EveryLifePasses(env, key, events[..n]);
      EventKeeps(env, Live(env, s, events[..n]), events[n]);
    }
    ConsistentPasses(env, Live(env, s, events));
  }

  // ----- restarts from the manager's own file -----

  /** The manager's own file, written in some order of its entries. */
  ghost predicate IsOwnFile(env: Env, s: State, f: Disk.File) {
    exists order :: Disk.Enumerates(order, s.info) && f == Disk.Serialize(env, s, order)
  }

  /** Operations meet a positive clock, and every restart loads what the manager has just saved. */
  ghost predicate OwnEvent(env: Env, s: State, e: Event) {
    match e
    case Do(op) => Timely(op)
    case Reload(f, order) => IsOwnFile(env, s, f)
  }

  ghost predicate OwnLife(env: Env, s: State, events: seq<Event>) {
    forall k | 0 <= k < |events| :: OwnEvent(env, Live(env, s, events[..k]), events[k])
  }

  /** t is s as it comes back from its own file. */
  ghost predicate Returned(s: State, t: State) {
    exists list :: Disk.SameManager(s, t, list)
  }

  /** A manager that is saved and loaded with the same grouping comes back complete. */
  lemma RestartKeepsEverything(env: Env, s: State, f: Disk.File, order: seq<int>)
    requires Valid(env, s) && AllRoutable(env, s) && IsOwnFile(env, s, f)
    ensures var (status, t) := Disk.Unserialize(env, f, order);
            && Disk.Framed(f) && status == Disk.Loaded
            && Valid(env, t) && AllRoutable(env, t) && Returned(s, t)
            && t.key == s.key && t.triedTab.Keys == s.triedTab.Keys && |t.info| == |s.info|
  {
    hide Inv, CollisionsOk, Disk.Unserialize, Disk.Serialize, Disk.SameManager, Disk.Listed, Disk.Enumerates,
         Disk.Framed;
    var written :| Disk.Enumerates(written, s.info) && f == Disk.Serialize(env, s, written);
    RoutableIsValid(env, s);
    Disk.RoundTrip(env, s, written, order);
    LoadedIsValid(env, f, order);
    var list := Disk.Listed(s.info, written, false) + Disk.Listed(s.info, written, true);
    SameFacts(env, s, Disk.Unserialize(env, f, order).1, list);
  }

  lemma RoutableIsValid(env: Env, s: State)
    requires AllRoutable(env, s)
    ensures Disk.AllValid(env, s)
  {
  }

  lemma SameFacts(env: Env, s: State, t: State, list: seq<int>)
    requires Disk.SameManager(s, t, list) && AllRoutable(env, s)
    ensures t.key == s.key && t.triedTab.Keys == s.triedTab.Keys && AllRoutable(env, t) && |t.info| == |s.info|
  {
    hide IsRoutable, Disk.Enumerates;
    forall id | id in t.info ensures IsRoutable(env, t.info[id].addr.service.ip) {
      var j := list[id];
      assert Disk.SameEntry(t.info[id], s.info[j]);
      assert IsRoutable(env, s.info[j].addr.service.ip);
    }
    SameSize(s, t, list);
  }

  lemma SameSize(s: State, t: State, list: seq<int>)
    requires Disk.Enumerates(list, s.info) && forall k :: k in t.info <==> 0 <= k < |list|
    ensures |t.info| == |s.info|
  {
    DistinctSize(list);
    forall id ensures id in Members(list) <==> id in s.info { Disk.Lists(list, s.info, id); }
    SameInts(Members(list), s.info.Keys);
    assert |s.info| == |s.info.Keys|;
    var places := seq(|list|, k => k);
    DistinctSize(places);
    forall k ensures k in places <==> k in t.info {
      if 0 <= k < |list| { assert places[k] == k; }
    }
    SameInts(Members(places), t.info.Keys);
    assert |t.info| == |t.info.Keys|;
  }

  lemma OwnEventKeeps(env: Env, s: State, e: Event)
    requires Valid(env, s) && AllRoutable(env, s) && OwnEvent(env, s, e)
    ensures Accepted(env, e)
    ensures var t := After(env, s, e);
            Valid(env, t) && AllRoutable(env, t) && t.key == s.key && s.triedTab.Keys <= t.triedTab.Keys
  {
    hide Valid, AllRoutable, Apply, Disk.Unserialize, Disk.Framed, IsOwnFile, Returned;
    match e
    case Do(op) => ApplyKeeps(env, s, op);
    case Reload(f, order) => RestartKeepsEverything(env, s, f, order);
  }

  /**
    A life in which every restart loads the manager's own file: every such restart succeeds, only routable addresses
    are stored, the key stays, and a tried slot once occupied is occupied ever after, across restarts as well.
   */
  lemma {:induction false} OwnLifeKeeps(env: Env, s: State, events: seq<Event>, m: nat)
    requires Valid(env, s) && AllRoutable(env, s) && OwnLife(env, s, events) && m <= |events|
    ensures AllAccepted(env, events)
    ensures var t := Live(env, s, events);
            && Valid(env, t) && AllRoutable(env, t)
            && Live(env, s, events[..m]).key == t.key
            && Live(env, s, events[..m]).triedTab.Keys <= t.triedTab.Keys
    decreases |events|
  {
    hide Valid, AllRoutable, After, OwnEvent, Accepted;
    assert events[..|events|] == events;
    if events != [] {
      var n := |events| - 1;
      OwnPrefix(env, s, events, n);
      OwnLifeKeeps(env, s, events[..n], if m <= n then m else n);
      assert OwnEvent(env, Live(env, s, events[..n]), events[n]);
      OwnEventKeeps(env, Live(env, s, events[..n]), events[n]);
      if m <= n { assert events[..n][..m] == events[..m]; }
      forall k | 0 <= k < |events| ensures Accepted(env, events[k]) {
        if k < n { assert Accepted(env, events[..n][k]); }
      }
    }
  }

  lemma OwnPrefix(env: Env, s: State, events: seq<Event>, n: nat)
    requires OwnLife(env, s, events) && n <= |events|
    ensures OwnLife(env, s, events[..n])
  {
    hide OwnEvent, Live;
    forall k | 0 <= k < n ensures OwnEvent(env, Live(env, s, events[..n][..k]), events[..n][k]) {
      assert events[..n][..k] == events[..k];
      assert OwnEvent(env, Live(env, s, events[..k]), events[k]);
    }
  }

  /** After every history of public operations the manager's own consistency check passes. */
  lemma EveryHistoryPasses(env: Env, key: Key, ops: seq<Op>)
    requires key != 0 && forall k | 0 <= k < |ops| :: Timely(ops[k])
    ensures CheckOk(env, Run(env, Initial(key), ops))
  {
    hide Run, Inv, CheckOk, CollisionsOk;
    ReachableValid(env, key, ops);
    ConsistentPasses(env, Run(env, Initial(key), ops));
  }
}
