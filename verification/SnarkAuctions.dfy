/**
 * The clock-driven auction (auction_house/src/snark_auction.rs) and the settlement gated on its last phase
 * (snark_house.rs). The clock is what the caller reads at each operation: the time elapsed since the start.
 */
module SnarkAuctions {
  import opened Outcomes
  import opened Sums
  import Settlement

  datatype Phase = BidCollection | BidSelfOpening | BidForceOpening | Complete

  /** Phase durations, and the verdicts of the proofs of commitments and openings. */
  datatype Rules<!C> = Rules(collect: nat, selfOpen: nat, proven: (C, int) -> bool, opens: (C, int, int) -> bool)

  datatype Bids<C> = Bids(comms: map<int, C>, known: set<C>, openings: map<int, int>)

  function PhaseAt<C>(p: Rules<C>, s: Bids<C>, now: nat): Phase
  {
    if now < p.collect then BidCollection
    else if |s.comms| == |s.openings| then Complete
    else if now < p.collect + p.selfOpen then BidSelfOpening
    else BidForceOpening
  }

  function Rank(phase: Phase): nat
  {
    match phase
    case BidCollection => 0
    case BidSelfOpening => 1
    case BidForceOpening => 2
    case Complete => 3
  }

  datatype Op<C> = PlaceBid(c: C, proof: int) | OpenSelf(bid: int, evidence: int, id: int) | OpenForce(bid: int, evidence: int, id: int)

  function AcceptBid<C(==)>(p: Rules<C>, s: Bids<C>, now: nat, c: C, proof: int): Reply<Bids<C>>
  {
    if PhaseAt(p, s, now) != BidCollection || c in s.known || !p.proven(c, proof) then Refused
    else Accepted(Bids(s.comms[|s.known| := c], s.known + {c}, s.openings))
  }

  function AcceptOpening<C>(p: Rules<C>, s: Bids<C>, bid: int, evidence: int, id: int): Reply<Bids<C>>
  {
    if id in s.openings || id !in s.comms || !p.opens(s.comms[id], bid, evidence) then Refused
    else Accepted(s.(openings := s.openings[id := bid]))
  }

  function Apply<C(==)>(p: Rules<C>, s: Bids<C>, now: nat, op: Op<C>): Reply<Bids<C>>
  {
    match op
    case PlaceBid(c, proof) => AcceptBid(p, s, now, c, proof)
    case OpenSelf(bid, e, id) =>
      if PhaseAt(p, s, now) == BidSelfOpening then AcceptOpening(p, s, bid, e, id) else Refused
    case OpenForce(bid, e, id) =>
      if PhaseAt(p, s, now) == BidForceOpening then AcceptOpening(p, s, bid, e, id) else Refused
  }

  // ---------------------------------------------------------------- invariant

  /** Commitments are numbered densely and differ; only accepted ones are opened, to what they were proven to hold. */
  ghost predicate Consistent<C>(p: Rules<C>, s: Bids<C>)
  {
    && (forall id :: id in s.comms <==> 0 <= id < |s.known|)
    && (forall id :: id in s.comms ==> s.comms[id] in s.known)
    && (forall i, j :: i in s.comms && j in s.comms && i != j ==> s.comms[i] != s.comms[j])
    && s.openings.Keys <= s.comms.Keys
    && (forall id :: id in s.openings ==> exists e :: p.opens(s.comms[id], s.openings[id], e))
  }

  lemma ApplyKeeps<C>(p: Rules<C>, s: Bids<C>, now: nat, op: Op<C>)
    requires Consistent(p, s) && Apply(p, s, now, op).Accepted?
    ensures Consistent(p, Apply(p, s, now, op).value)
  {
    hide Consistent, PhaseAt, AcceptBid, AcceptOpening;
    match op
    case PlaceBid(c, proof) => PlacingKeeps(p, s, now, c, proof);
    case OpenSelf(bid, e, id) => OpeningKeeps(p, s, bid, e, id);
    case OpenForce(bid, e, id) => OpeningKeeps(p, s, bid, e, id);
  }

  lemma PlacingKeeps<C>(p: Rules<C>, s: Bids<C>, now: nat, c: C, proof: int)
    requires Consistent(p, s) && AcceptBid(p, s, now, c, proof).Accepted?
    ensures Consistent(p, AcceptBid(p, s, now, c, proof).value)
  {
    hide PhaseAt;
    assert |AcceptBid(p, s, now, c, proof).value.known| == |s.known| + 1;
  }

  lemma OpeningKeeps<C>(p: Rules<C>, s: Bids<C>, bid: int, e: int, id: int)
    requires Consistent(p, s) && AcceptOpening(p, s, bid, e, id).Accepted?
    ensures Consistent(p, AcceptOpening(p, s, bid, e, id).value)
  {
    var s' := AcceptOpening(p, s, bid, e, id).value;
    assert p.opens(s'.comms[id], s'.openings[id], e);
  }

  /** Counting is enough: the numbers of commitments and openings agree exactly when every bid is opened. */
  lemma CountDecidesComplete<C>(p: Rules<C>, s: Bids<C>)
    requires Consistent(p, s)
    ensures |s.comms| == |s.openings| <==> forall id :: id in s.comms ==> id in s.openings
    ensures |s.openings| <= |s.comms|
  {
    Settlement.SubsetCard(s.openings.Keys, s.comms.Keys);
    if forall id :: id in s.comms ==> id in s.openings {
      assert s.openings.Keys == s.comms.Keys;
    }
  }

  // --------------------------------------------------------------------- runs

  /** A history of operations with the clock reading at each. */
  type History<C> = seq<(nat, Op<C>)>

  /** The clock never goes back, from `start` through the history to `end`. */
  predicate Clocked<C>(ops: History<C>, start: nat, end: nat)
  {
    if ops == [] then start <= end else start <= ops[0].0 && Clocked(ops[1..], ops[0].0, end)
  }

  /** The state after a history; a refused operation changes nothing. */
  function After<C(==)>(p: Rules<C>, s: Bids<C>, ops: History<C>): Bids<C>
    decreases |ops|
  {
    if ops == [] then s
    else
      match Apply(p, s, ops[0].0, ops[0].1)
      case Accepted(next) => After(p, next, ops[1..])
      case _ => After(p, s, ops[1..])
  }

  function Step<C(==)>(p: Rules<C>, s: Bids<C>, now: nat, op: Op<C>): Bids<C>
  {
    match Apply(p, s, now, op) case Accepted(next) => next case _ => s
  }

  /** One operation: the phase does not move back, later bids stay out, and nothing follows completion. */
  lemma StepForward<C>(p: Rules<C>, s: Bids<C>, now: nat, op: Op<C>, later: nat)
    requires Consistent(p, s) && now <= later
    ensures var s' := Step(p, s, now, op);
      && Consistent(p, s')
      && Rank(PhaseAt(p, s, now)) <= Rank(PhaseAt(p, s', later))
      && (p.collect <= now ==> s'.comms == s.comms && s'.known == s.known)
      && (PhaseAt(p, s, now) == Complete ==> s' == s)
      && s.comms.Keys <= s'.comms.Keys && (forall id :: id in s.openings ==> id in s'.openings && s'.openings[id] == s.openings[id])
  {
    hide Consistent;
    if Apply(p, s, now, op).Accepted? {
      ApplyKeeps(p, s, now, op);
    }
    BidKept(p, s, now, op);
  }

  lemma BidKept<C>(p: Rules<C>, s: Bids<C>, now: nat, op: Op<C>)
    requires Consistent(p, s)
    ensures s.comms.Keys <= Step(p, s, now, op).comms.Keys
  {
  }

  /**
   * Over any history on a clock that never goes back: the phase never goes back, commitments are frozen once
   * collection is over, openings are never withdrawn or changed, and Complete is final.
   */
  lemma {:induction false} PhasesMoveForward<C>(p: Rules<C>, s: Bids<C>, ops: History<C>, now: nat, later: nat)
    requires Consistent(p, s) && Clocked(ops, now, later)
    ensures var s' := After(p, s, ops);
      && Consistent(p, s')
      && Rank(PhaseAt(p, s, now)) <= Rank(PhaseAt(p, s', later))
      && (p.collect <= now ==> s'.comms == s.comms)
      && (PhaseAt(p, s, now) == Complete ==> s' == s)
      && (forall id :: id in s.openings ==> id in s'.openings && s'.openings[id] == s.openings[id])
    ensures now <= later
    decreases |ops|
  {
    hide Consistent;
    if ops == [] {
      WaitForward(p, s, now, later);
    } else {
      var t := ops[0].0;
      WaitForward(p, s, now, t);
      StepForward(p, s, t, ops[0].1, t);
      PhasesMoveForward(p, Step(p, s, t, ops[0].1), ops[1..], t, later);
      assert After(p, s, ops) == After(p, Step(p, s, t, ops[0].1), ops[1..]);
    }
  }

  lemma WaitForward<C>(p: Rules<C>, s: Bids<C>, now: nat, later: nat)
    requires now <= later
    ensures Rank(PhaseAt(p, s, now)) <= Rank(PhaseAt(p, s, later))
  {
  }

  function NewAuction<C>(): Bids<C>
  {
    Bids(map[], {}, map[])
  }

  /** In every reachable state the last phase means that the collection is over and every accepted bid is opened. */
  lemma CompleteMeansAllOpened<C>(p: Rules<C>, ops: History<C>, now: nat)
    requires Clocked(ops, 0, now)
    ensures var s := After(p, NewAuction(), ops);
      PhaseAt(p, s, now) == Complete <==> p.collect <= now && forall id :: id in s.comms ==> id in s.openings
  {
    PhasesMoveForward(p, NewAuction(), ops, 0, now);
    CountDecidesComplete(p, After(p, NewAuction(), ops));
  }

  // ---------------------------------------------------------------- the timetable

  lemma UnopenedNotComplete<C>(p: Rules<C>, s: Bids<C>, id: int)
    requires Consistent(p, s) && id in s.comms && id !in s.openings
    ensures |s.comms| != |s.openings|
  {
    CountDecidesComplete(p, s);
  }

  /**
   * When each operation is taken, in every reachable state: a new, proven bid before the collection ends; a valid
   * opening of an accepted, unopened bid as a self-opening for as long as self-opening lasts after that; and as a
   * forced opening from then on. Each records exactly what it says.
   */
  lemma Timetable<C>(p: Rules<C>, ops: History<C>, now: nat, c: C, proof: int, bid: int, evidence: int, id: int)
    requires Clocked(ops, 0, now)
    ensures var s := After(p, NewAuction(), ops);
      && (Apply(p, s, now, PlaceBid(c, proof)).Accepted? <==> now < p.collect && c !in s.comms.Values && p.proven(c, proof))
      && (Apply(p, s, now, PlaceBid(c, proof)).Accepted? ==>
            Apply(p, s, now, PlaceBid(c, proof)).value == Bids(s.comms[|s.comms| := c], s.known + {c}, s.openings))
      && var valid := id in s.comms && id !in s.openings && p.opens(s.comms[id], bid, evidence);
      && (Apply(p, s, now, OpenSelf(bid, evidence, id)).Accepted? <==> valid && p.collect <= now < p.collect + p.selfOpen)
      && (Apply(p, s, now, OpenForce(bid, evidence, id)).Accepted? <==> valid && p.collect + p.selfOpen <= now)
      && (forall op :: op in {OpenSelf(bid, evidence, id), OpenForce(bid, evidence, id)} && Apply(p, s, now, op).Accepted? ==>
            Apply(p, s, now, op).value == s.(openings := s.openings[id := bid]))
  {
    var s := After(p, NewAuction(), ops);
    PhasesMoveForward(p, NewAuction(), ops, 0, now);
    KnownAreAccepted(p, ops, now);
    if id in s.comms && id !in s.openings {
      UnopenedNotComplete(p, s, id);
    }
    hide Consistent, After;
  }

  /** In every reachable state the set of commitments is the set of numbered ones. */
  lemma {:induction false} KnownIsNumbered<C>(p: Rules<C>, s: Bids<C>, ops: History<C>)
    requires Consistent(p, s) && s.known == s.comms.Values && |s.known| == |s.comms|
    ensures var s' := After(p, s, ops); s'.known == s'.comms.Values && |s'.known| == |s'.comms|
    decreases |ops|
  {
    if ops != [] {
      var (now, op) := ops[0];
      var s' := Step(p, s, now, op);
      KnownStep(p, s, now, op);
      KnownIsNumbered(p, s', ops[1..]);
    }
  }

  lemma KnownStep<C>(p: Rules<C>, s: Bids<C>, now: nat, op: Op<C>)
    requires Consistent(p, s) && s.known == s.comms.Values && |s.known| == |s.comms|
    ensures var s' := Step(p, s, now, op); Consistent(p, s') && s'.known == s'.comms.Values && |s'.known| == |s'.comms|
  {
    hide *;
    StepForward(p, s, now, op, now);
    KnownAfter(p, s, now, op);
  }

  lemma KnownAfter<C>(p: Rules<C>, s: Bids<C>, now: nat, op: Op<C>)
    requires Consistent(p, s) && s.known == s.comms.Values && |s.known| == |s.comms|
    ensures var s' := Step(p, s, now, op); s'.known == s'.comms.Values && |s'.known| == |s'.comms|
  {
    hide PhaseAt;
    if op.PlaceBid? && Apply(p, s, now, op).Accepted? {
      var n := |s.known|;
      MapGrows(s.comms, n, op.c);
      ValuesGrow(s.comms, n, op.c);
    }
  }

  lemma ValuesGrow<K, V>(m: map<K, V>, key: K, value: V)
    requires key !in m
    ensures m[key := value].Values == m.Values + {value}
  {
    var m' := m[key := value];
    forall v | v in m.Values ensures v in m'.Values {
      var k :| k in m && m[k] == v;
      assert m'[k] == v;
    }
    assert m'[key] == value;
  }

  lemma KnownAreAccepted<C>(p: Rules<C>, ops: History<C>, now: nat)
    requires Clocked(ops, 0, now)
    ensures var s := After(p, NewAuction(), ops); s.known == s.comms.Values && |s.known| == |s.comms|
  {
    var none: Bids<C> := NewAuction();
    assert none.comms.Values == {};
    KnownIsNumbered(p, none, ops);
  }

  // ------------------------------------------------------------------ the object

  class SnarkAuction<C(==)> {
    const rules: Rules<C>
    var comms: map<int, C>
    var known: set<C>
    var openings: map<int, int>

    function Value(): Bids<C>
      reads this
    {
      Bids(comms, known, openings)
    }

    constructor (rules: Rules<C>)
      ensures this.rules == rules && Value() == NewAuction()
    {
      this.rules := rules;
      comms, known, openings := map[], {}, map[];
    }

    /** The number given to the bid, or nothing if it is refused. */
    method AcceptBid(now: nat, c: C, proof: int) returns (id: Option<int>)
      modifies this
      ensures match Apply(rules, old(Value()), now, PlaceBid(c, proof))
              case Accepted(s) => Value() == s && id == Some(|old(known)|)
              case _ => Value() == old(Value()) && id == None
      ensures id.Some? ==> now < rules.collect
    {
      if PhaseAt(rules, Value(), now) != BidCollection {
        return None;
      } else if c in known {
        return None;
      } else if !rules.proven(c, proof) {
        return None;
      }
      comms := comms[|known| := c];
      known := known + {c};
      return Some(|known| - 1);
    }

    method Open(bid: int, evidence: int, id: int) returns (ok: bool)
      modifies this
      ensures match AcceptOpening(rules, old(Value()), bid, evidence, id)
              case Accepted(s) => Value() == s && ok
              case _ => Value() == old(Value()) && !ok
    {
      if id in openings || id !in comms {
        return false;
      }
      if !rules.opens(comms[id], bid, evidence) {
        return false;
      }
      openings := openings[id := bid];
      return true;
    }

    method AcceptSelfOpening(now: nat, bid: int, evidence: int, id: int) returns (ok: bool)
      modifies this
      ensures match Apply(rules, old(Value()), now, OpenSelf(bid, evidence, id))
              case Accepted(s) => Value() == s && ok
              case _ => Value() == old(Value()) && !ok
      ensures ok ==> rules.collect <= now < rules.collect + rules.selfOpen
    {
      if PhaseAt(rules, Value(), now) != BidSelfOpening {
        return false;
      }
      ok := Open(bid, evidence, id);
    }

    method AcceptForceOpening(now: nat, bid: int, evidence: int, id: int) returns (ok: bool)
      modifies this
      ensures match Apply(rules, old(Value()), now, OpenForce(bid, evidence, id))
              case Accepted(s) => Value() == s && ok
              case _ => Value() == old(Value()) && !ok
      ensures ok ==> rules.collect + rules.selfOpen <= now
    {
      if PhaseAt(rules, Value(), now) != BidForceOpening {
        return false;
      }
      ok := Open(bid, evidence, id);
    }
  }

  lemma CompleteOpens<C>(p: Rules<C>, s: Bids<C>, now: nat, id: int)
    requires Consistent(p, s) && PhaseAt(p, s, now) == Complete && id in s.comms
    ensures id in s.openings
  {
    CountDecidesComplete(p, s);
  }

  /** What each bidder's bid was opened to. */
  function OpenedTo(bids: map<int, int>, openings: map<int, int>): map<int, int>
    requires forall u :: u in bids ==> bids[u] in openings
  {
    map u | u in bids :: openings[bids[u]]
  }

  /**
   * The price and the winners of an auction whose bidders `holders` hold accepted bids. Outside the last phase it
   * is refused; in it every lookup succeeds, and only too few bids stop the program.
   */
  method CompleteKPlusOnePriceAuction<C>(auction: SnarkAuction<C>, now: nat, holders: map<int, int>, k: nat) returns (r: Reply<Settlement.Sale>)
    requires Consistent(auction.rules, auction.Value())
    requires forall u :: u in holders ==> holders[u] in auction.comms
    ensures r.Refused? <==> PhaseAt(auction.rules, auction.Value(), now) != Complete
    ensures r.Stopped? <==> PhaseAt(auction.rules, auction.Value(), now) == Complete && |holders| <= k
    ensures r.Accepted? ==>
      && (forall u :: u in holders ==> holders[u] in auction.openings)
      && Settlement.Admissible(OpenedTo(holders, auction.openings), k, r.value.price, set w | w in r.value.winners)
  {
    hide Consistent, Settlement.Admissible;
    if PhaseAt(auction.rules, auction.Value(), now) != Complete {
      return Refused;
    }
    forall u | u in holders ensures holders[u] in auction.openings {
      CompleteOpens(auction.rules, auction.Value(), now, holders[u]);
    }
    var bids := CollectOpened(holders, auction.openings);
    assert bids.Keys == holders.Keys;
    var sale := Settlement.KPlusOnePrice(bids, k);
    match sale {
      case Panic => return Stopped;
      case Done(x) => return Accepted(x);
    }
  }

  method CollectOpened(holders: map<int, int>, openings: map<int, int>) returns (bids: map<int, int>)
    requires forall u :: u in holders ==> holders[u] in openings
    ensures bids == OpenedTo(holders, openings)
  {
    bids := map[];
    var left := holders.Keys;
    while left != {}
      invariant left <= holders.Keys
      invariant bids == map u | u in holders.Keys - left :: openings[holders[u]]
      decreases |left|
    {
      ghost var member := Member(left);
      var u :| u in left;
      bids := bids[u := openings[holders[u]]];
      left := left - {u};
    }
  }
}
