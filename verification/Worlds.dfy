/**
 * The server's world (_wsl_sync/house.rs, main.rs): the auction house together with the indices the server keeps
 * beside it because the house's own are private.
 */
module Worlds {
  import opened Outcomes
  import opened Ledger
  import opened LedgerSafety
  import Settlement
  import opened Sums
  import opened Clients

  /** The house, the server's indices, every client's private state, and the opening each client keeps for a bid. */
  datatype World = World(
    ledger: State,
    bidsPer: map<int, int>,
    bidIndex: map<(int, int), int>,
    revealed: map<int, set<int>>,
    privates: map<int, Private>,
    evidence: map<(int, int), int>)

  /** What a forced opening needs, read under the lock before the long computation. */
  datatype Job = Job(comm: Comm, stored: int, id: int)

  function BidsIn(w: World, a: int): int
  {
    if a in w.bidsPer then w.bidsPer[a] else 0
  }

  function RevealedIn(w: World, a: int): set<int>
  {
    if a in w.revealed then w.revealed[a] else {}
  }

  predicate Revealed(w: World, a: int, u: int)
  {
    (a, u) in w.bidIndex && w.bidIndex[(a, u)] in RevealedIn(w, a)
  }

  function Reveal(w: World, a: int, id: int): World
  {
    w.(revealed := w.revealed[a := RevealedIn(w, a) + {id}])
  }

  function Kept(w: World, a: int, u: int): int
  {
    if (a, u) in w.evidence then w.evidence[(a, u)] else 0
  }

  // ------------------------------------------------------- steps under the world lock

  /** The world once client `u` has confirmed; a confirmation that is an error changes nothing more. */
  function WithClient(w: World, u: int, change: Change): Reply<World>
  {
    match change
    case Stopped => Stopped
    case Refused => Accepted(w)
    case Accepted(c) => Accepted(w.(privates := w.privates[u := c]))
  }

  /** The client proposes, the house takes the bid, the client confirms, and the server indexes it. */
  function PlaceBid(k: Setup, t: int -> Terms, w: World, a: int, u: int, bid: int, r: int, puzzle: int, bp: int, lp: int, evidence: int): Reply<World>
    requires k.p > 0
  {
    if u !in w.privates then Refused
    else
      match ProposeBid(k, t(a), w.privates[u], bid, r, puzzle)
      case Stopped => Stopped
      case Refused => Refused
      case Accepted(q) =>
        match Step(k, t, w.ledger, DoBid(a, u, q.comm, bp, lp))
        case Stopped => Stopped
        case Refused => Refused
        case Accepted(l) =>
          WithClient(w.(ledger := l, bidsPer := w.bidsPer[a := BidsIn(w, a) + 1], bidIndex := w.bidIndex[(a, u) := BidsIn(w, a)],
                        evidence := w.evidence[(a, u) := evidence]),
                     u, ConfirmBid(k, t(a), w.privates[u], a, bid, Scalar(k, r), q.comm))
  }

  predicate HasBid(w: World, a: int, u: int)
  {
    u in w.privates && a in w.privates[u].bids
  }

  function RunSelfOpen(k: Setup, t: int -> Terms, w: World, a: int, u: int, bid: int): Reply<World>
    requires k.p > 0
  {
    if !HasBid(w, a, u) || w.privates[u].bids[a].bid != bid then Refused
    else
      match Step(k, t, w.ledger, DoSelfOpen(a, u, bid, Kept(w, a, u)))
      case Stopped => Stopped
      case Refused => Refused
      case Accepted(l) =>
        var w' := w.(ledger := l);
        WithClient(if (a, u) in w.bidIndex then Reveal(w', a, w.bidIndex[(a, u)]) else w',
                   u, ConfirmCredit(w.privates[u], t(a).selfOpen + t(a).forceOpen))
  }

  function Prepare(w: World, a: int, u: int): Option<Job>
  {
    if HasBid(w, a, u) && (a, u) in w.bidIndex
    then Some(Job(w.privates[u].bids[a].comm, w.privates[u].bids[a].bid, w.bidIndex[(a, u)]))
    else None
  }

  /** Books an opening the house has accepted, with the credit to the client if the server knows one. */
  function Booked(t: int -> Terms, w: World, l: State, a: int, u: int, id: int): Reply<World>
  {
    var w' := Reveal(w.(ledger := l), a, id);
    if u in w.privates then WithClient(w', u, ConfirmCredit(w.privates[u], t(a).forceOpen)) else Accepted(w')
  }

  /** Books a forced opening; one that finds the bid revealed already has nothing to do. */
  function ForceSettle(k: Setup, t: int -> Terms, w: World, a: int, u: int, job: Job, bid: int, evidence: int): Reply<World>
    requires k.p > 0
  {
    if job.id in RevealedIn(w, a) then Accepted(w)
    else if bid != job.stored then Refused
    else
      match Step(k, t, w.ledger, DoForceOpen(a, u, job.id, Some(bid), evidence))
      case Stopped => Stopped
      case Refused => Refused
      case Accepted(l) => Booked(t, w, l, a, u, job.id)
  }

  /** The trapdoor opening runs in one piece under the lock; the house alone refuses a second opening. */
  function ForceCheating(k: Setup, t: int -> Terms, w: World, a: int, u: int, plain: Option<(int, int)>): Reply<World>
    requires k.p > 0
  {
    match Prepare(w, a, u)
    case None => Refused
    case Some(job) =>
      match plain
      case None => Refused
      case Some((bid, evidence)) =>
        if bid != job.stored then Refused
        else
          match Step(k, t, w.ledger, DoForceOpen(a, u, job.id, Some(bid), evidence))
          case Stopped => Stopped
          case Refused => Refused
          case Accepted(l) => Booked(t, w, l, a, u, job.id)
  }

  /** A bidder's confirmation of a settlement. */
  function Confirmed(k: Setup, c: Private, a: int, price: int, won: bool): Change
    requires k.p > 0
  {
    if won then ConfirmWin(k, c, a, price) else ConfirmLoss(k, c, a)
  }

  predicate AllConfirm(k: Setup, w: World, a: int, price: int, winners: set<int>)
    requires k.p > 0
  {
    forall key :: key in w.bidIndex && key.0 == a ==>
      key.1 in w.privates && Confirmed(k, w.privates[key.1], a, price, key.1 in winners).Accepted?
  }

  /** The clients' side of a settlement: every bidder of the auction confirms having won or lost. */
  function Finalized(k: Setup, w: World, a: int, price: int, winners: set<int>): World
    requires k.p > 0 && AllConfirm(k, w, a, price, winners)
  {
    w.(privates := map u | u in w.privates ::
      if (a, u) in w.bidIndex then Confirmed(k, w.privates[u], a, price, u in winners).value else w.privates[u])
  }

  /** The bids of an auction that nobody has revealed, by bidder. */
  function PendingReveals(w: World, a: int): map<int, int>
  {
    map key | key in w.bidIndex && key.0 == a && w.bidIndex[key] !in RevealedIn(w, a) :: key.1 := w.bidIndex[key]
  }

  /** A confirmation that fails counts as a stop here; `RoundConfirms` shows that none does. */
  function FinalizedOrStopped(k: Setup, w: World, a: int, price: int, winners: set<int>): Reply<World>
    requires k.p > 0
  {
    if AllConfirm(k, w, a, price, winners) then Accepted(Finalized(k, w, a, price, winners)) else Stopped
  }

  /** Ends a round: settles if more bids are revealed than there are winners, else leaves the auction unsettled. */
  function CloseRound(k: Setup, t: int -> Terms, w: World, a: int, n: nat, price: int, winners: set<int>): Reply<World>
    requires k.p > 0
  {
    if |RevealedIn(w, a)| == 0 || |RevealedIn(w, a)| <= n then Accepted(w)
    else
      match Step(k, t, w.ledger, DoSettle(a, n, price, winners))
      case Stopped => Stopped
      case Refused => FinalizedOrStopped(k, w, a, 0, {})
      case Accepted(l) => FinalizedOrStopped(k, w.(ledger := l), a, price, winners)
  }

  /** Opens an account with its initial deposit; the server unwraps both answers of the house. */
  function Enroll(k: Setup, t: int -> Terms, w: World, init: nat): Reply<World>
    requires k.p > 0
  {
    var u := w.ledger.house.ctrAccount;
    match Step(k, t, w.ledger, DoNewAccount)
    case Accepted(l) =>
      (match Step(k, t, l, DoDeposit(u, init))
       case Accepted(l') => WithClient(w.(ledger := l'), u, ConfirmCredit(Fresh(), init))
       case _ => Stopped)
    case _ => Stopped
  }

  /** The house takes the money before the server looks for the client. */
  function TakeDeposit(k: Setup, t: int -> Terms, w: World, u: int, amt: nat): Reply<World>
    requires k.p > 0
  {
    match Step(k, t, w.ledger, DoDeposit(u, amt))
    case Stopped => Stopped
    case Refused => Refused
    case Accepted(l) =>
      if u in w.privates then WithClient(w.(ledger := l), u, ConfirmCredit(w.privates[u], amt)) else Accepted(w.(ledger := l))
  }

  function PayOut(k: Setup, t: int -> Terms, w: World, u: int, amt: nat, proof: int): Reply<World>
    requires k.p > 0
  {
    if u !in w.privates then Refused
    else
      match ProposeWithdrawal(k, w.privates[u], amt)
      case Stopped => Stopped
      case Refused => Refused
      case Accepted(_) =>
        match Step(k, t, w.ledger, DoWithdraw(u, amt, proof))
        case Stopped => Stopped
        case Refused => Refused
        case Accepted(l) => WithClient(w.(ledger := l), u, ConfirmWithdrawal(w.privates[u], amt))
  }

  function OpenAuction(k: Setup, t: int -> Terms, w: World): Reply<World>
    requires k.p > 0
  {
    match Step(k, t, w.ledger, DoNewAuction)
    case Stopped => Stopped
    case Refused => Refused
    case Accepted(l) => Accepted(w.(ledger := l))
  }

  // ----------------------------------------------------------- the shadow invariant

  function Rooms(w: World): map<int, Room>
  {
    w.ledger.house.rooms
  }

  /** The indices say of an auction what the house's hidden state says. */
  ghost predicate ShadowsAt(w: World, a: int)
  {
    && (forall u :: (a, u) in w.bidIndex <==> a in Rooms(w) && u in Rooms(w)[a].bids)
    && (forall u :: (a, u) in w.bidIndex ==> w.bidIndex[(a, u)] == Rooms(w)[a].bids[u])
    && BidsIn(w, a) == (if a in Rooms(w) then |Rooms(w)[a].bids| else 0)
    && RevealedIn(w, a) == (if a in Rooms(w) then Rooms(w)[a].auction.openings.Keys else {})
    && (a in Rooms(w) ==> ToValues(Rooms(w)[a].auction))
  }

  ghost predicate Shadows(w: World)
  {
    forall a :: ShadowsAt(w, a)
  }

  /** Two worlds agree on everything about one auction. */
  ghost predicate SameAt(w: World, w': World, a: int)
  {
    && (forall u :: (a, u) in w.bidIndex <==> (a, u) in w'.bidIndex)
    && (forall u :: (a, u) in w.bidIndex ==> w'.bidIndex[(a, u)] == w.bidIndex[(a, u)])
    && BidsIn(w, a) == BidsIn(w', a) && RevealedIn(w, a) == RevealedIn(w', a)
    && (a in Rooms(w) <==> a in Rooms(w')) && (a in Rooms(w) ==> Rooms(w)[a] == Rooms(w')[a])
  }

  lemma SameShadows(w: World, w': World, a: int)
    requires SameAt(w, w', a) && ShadowsAt(w, a)
    ensures ShadowsAt(w', a)
  {
    hide ToValues;
  }

  ghost predicate ToValues(x: Auction)
  {
    forall id :: id in x.openings ==> x.openings[id].Some?
  }

  /** Index entries stay, and revealed bids stay revealed. */
  ghost predicate Extends(w: World, w': World)
  {
    && (forall key :: key in w.bidIndex ==> key in w'.bidIndex && w'.bidIndex[key] == w.bidIndex[key])
    && (forall a :: RevealedIn(w, a) <= RevealedIn(w', a))
  }

  /** The bids whose reveal is new. */
  ghost predicate NewlyRevealed(w: World, w': World, a: int, u: int)
  {
    forall b, v :: Revealed(w', b, v) <==> Revealed(w, b, v) || (b == a && v == u)
  }

  lemma PlaceBidShadows(k: Setup, t: int -> Terms, w: World, a: int, u: int, bid: int, r: int, puzzle: int, bp: int, lp: int, evidence: int)
    requires k.p > 0 && Sound(k, w.ledger) && Shadows(w) && PlaceBid(k, t, w, a, u, bid, r, puzzle, bp, lp, evidence).Accepted?
    ensures var w' := PlaceBid(k, t, w, a, u, bid, r, puzzle, bp, lp, evidence).value;
      Shadows(w') && Extends(w, w') && forall b, v :: Revealed(w', b, v) <==> Revealed(w, b, v)
  {
    hide Sound, Step, ProposeBid, ConfirmBid, Scalar, Shadows, Extends, Revealed, BidsIn;
    var w' := PlaceBid(k, t, w, a, u, bid, r, puzzle, bp, lp, evidence).value;
    var c := ProposeBid(k, t(a), w.privates[u], bid, r, puzzle).value.comm;
    BidRoom(k, t, w.ledger, w'.ledger, a, u, c, bp, lp);
    BidShadowed(w, w', a, u, c);
  }

  /** The rooms after an accepted bid. */
  lemma BidRoom(k: Setup, t: int -> Terms, s: State, s': State, a: int, u: int, c: Comm, bp: int, lp: int)
    requires k.p > 0 && Sound(k, s) && Step(k, t, s, DoBid(a, u, c, bp, lp)) == Accepted(s')
    ensures a in s.house.rooms && u !in s.house.rooms[a].bids
    ensures s'.house.rooms == s.house.rooms[a := WithBid(s.house.rooms[a], u, c)]
    ensures |s.house.rooms[a].bids| !in s.house.rooms[a].auction.openings
  {
    hide Sound, Bid, BidRemainder, Plus, AcceptBid, Numbered, Held;
    assert Bid(k, t(a), s.house, a, u, c, bp, lp) == Accepted(s'.house);
    BidUnfolds(k, t(a), s.house, a, u, c, bp, lp);
    RoomAt(k, s, a);
    AccountAt(k, s, u);
    AcceptKeepsIndex(s.house.rooms[a], s'.house.rooms[a], c, u, s.house.ctrAccount);
  }

  lemma BidShadowed(w: World, w': World, a: int, u: int, c: Comm)
    requires Shadows(w) && a in Rooms(w) && u !in Rooms(w)[a].bids
    requires Rooms(w') == Rooms(w)[a := WithBid(Rooms(w)[a], u, c)]
    requires w'.bidsPer == w.bidsPer[a := BidsIn(w, a) + 1] && w'.bidIndex == w.bidIndex[(a, u) := BidsIn(w, a)] && w'.revealed == w.revealed
    requires |Rooms(w)[a].bids| !in Rooms(w)[a].auction.openings
    ensures Shadows(w') && Extends(w, w') && forall b, v :: Revealed(w', b, v) <==> Revealed(w, b, v)
  {
    assert ShadowsAt(w, a);
    assert (a, u) !in w.bidIndex;
    NewBidShadowed(w, w', a, u, c);
    forall b ensures ShadowsAt(w', b) {
      assert ShadowsAt(w, b);
      if b != a {
        OtherAuction(w, w', a, u, c, b);
        hide ShadowsAt;
        SameShadows(w, w', b);
      }
    }
    hide Shadows, ShadowsAt, Rooms;
    NewBidExtends(w, w', a, u);
  }

  lemma NewBidExtends(w: World, w': World, a: int, u: int)
    requires (a, u) !in w.bidIndex && w'.bidIndex == w.bidIndex[(a, u) := BidsIn(w, a)] && w'.revealed == w.revealed
    requires BidsIn(w, a) !in RevealedIn(w, a)
    ensures Extends(w, w') && forall b, v :: Revealed(w', b, v) <==> Revealed(w, b, v)
  {
  }

  lemma OtherAuction(w: World, w': World, a: int, u: int, c: Comm, b: int)
    requires a in Rooms(w) && b != a
    requires Rooms(w') == Rooms(w)[a := WithBid(Rooms(w)[a], u, c)]
    requires w'.bidsPer == w.bidsPer[a := BidsIn(w, a) + 1] && w'.bidIndex == w.bidIndex[(a, u) := BidsIn(w, a)] && w'.revealed == w.revealed
    ensures SameAt(w, w', b)
  {
  }

  lemma NewBidShadowed(w: World, w': World, a: int, u: int, c: Comm)
    requires ShadowsAt(w, a) && a in Rooms(w) && u !in Rooms(w)[a].bids
    requires Rooms(w') == Rooms(w)[a := WithBid(Rooms(w)[a], u, c)]
    requires w'.bidsPer == w.bidsPer[a := BidsIn(w, a) + 1] && w'.bidIndex == w.bidIndex[(a, u) := BidsIn(w, a)] && w'.revealed == w.revealed
    ensures ShadowsAt(w', a)
  {
    hide BidsIn, RevealedIn, Rooms, ToValues;
    var r, r' := Rooms(w)[a], Rooms(w')[a];
    SumsAt(w, w', a, u);
    assert r' == WithBid(r, u, c);
    MapGrows(r.bids, u, |r.bids|);
    IndexGrows(w.bidIndex, w'.bidIndex, r.bids, r'.bids, a, u, |r.bids|);
    SameOpenings(r.auction, r'.auction);
  }

  lemma SumsAt(w: World, w': World, a: int, u: int)
    requires w'.bidsPer == w.bidsPer[a := BidsIn(w, a) + 1] && w'.revealed == w.revealed
    ensures BidsIn(w', a) == BidsIn(w, a) + 1 && RevealedIn(w', a) == RevealedIn(w, a)
  {
  }

  lemma SameOpenings(x: Auction, x': Auction)
    requires x'.openings == x.openings
    ensures ToValues(x') == ToValues(x)
  {
  }

  lemma IndexGrows(index: map<(int, int), int>, index': map<(int, int), int>, bids: map<int, int>, bids': map<int, int>, a: int, u: int, n: int)
    requires forall v :: (a, v) in index <==> v in bids
    requires forall v :: (a, v) in index ==> index[(a, v)] == bids[v]
    requires index' == index[(a, u) := n] && bids' == bids[u := n]
    ensures forall v :: (a, v) in index' <==> v in bids'
    ensures forall v :: (a, v) in index' ==> index'[(a, v)] == bids'[v]
  {
  }

  // ------------------------------------------------------------------- openings

  function WithOpening(r: Room, id: int, bid: int): Room
  {
    r.(auction := r.auction.(openings := r.auction.openings[id := Some(bid)]))
  }

  lemma SelfOpenRoom(k: Setup, t: int -> Terms, s: State, s': State, a: int, u: int, bid: int, e: int)
    requires k.p > 0 && Step(k, t, s, DoSelfOpen(a, u, bid, e)) == Accepted(s')
    ensures a in s.house.rooms && u in s.house.rooms[a].bids
    ensures s'.house.rooms == s.house.rooms[a := WithOpening(s.house.rooms[a], s.house.rooms[a].bids[u], bid)]
    ensures s.house.rooms[a].bids[u] !in s.house.rooms[a].auction.openings
  {
  }

  lemma ForceOpenRoom(k: Setup, t: int -> Terms, s: State, s': State, a: int, u: int, id: int, bid: int, e: int)
    requires k.p > 0 && Step(k, t, s, DoForceOpen(a, u, id, Some(bid), e)) == Accepted(s')
    ensures a in s.house.rooms
    ensures s'.house.rooms == s.house.rooms[a := WithOpening(s.house.rooms[a], id, bid)]
    ensures id !in s.house.rooms[a].auction.openings
  {
  }

  lemma RevealShadowed(w: World, w': World, a: int, id: int, bid: int)
    requires Shadows(w) && a in Rooms(w)
    requires Rooms(w') == Rooms(w)[a := WithOpening(Rooms(w)[a], id, bid)]
    requires w'.bidsPer == w.bidsPer && w'.bidIndex == w.bidIndex && w'.revealed == w.revealed[a := RevealedIn(w, a) + {id}]
    ensures Shadows(w') && Extends(w, w')
  {
    hide ShadowsAt, SameAt, Rooms, RevealedIn, WithOpening;
    assert ShadowsAt(w, a);
    OpenedShadowed(w, w', a, id, bid);
    forall b ensures ShadowsAt(w', b) {
      assert ShadowsAt(w, b);
      if b != a {
        OtherRoom(w, w', a, id, bid, b);
        SameShadows(w, w', b);
      }
    }
    RevealExtends(w, w', a, id);
  }

  lemma OtherRoom(w: World, w': World, a: int, id: int, bid: int, b: int)
    requires a in Rooms(w) && b != a
    requires Rooms(w') == Rooms(w)[a := WithOpening(Rooms(w)[a], id, bid)]
    requires w'.bidsPer == w.bidsPer && w'.bidIndex == w.bidIndex && w'.revealed == w.revealed[a := RevealedIn(w, a) + {id}]
    ensures SameAt(w, w', b)
  {
  }

  lemma RevealExtends(w: World, w': World, a: int, id: int)
    requires w'.bidIndex == w.bidIndex && w'.revealed == w.revealed[a := RevealedIn(w, a) + {id}]
    ensures Extends(w, w')
  {
  }

  lemma OpenedShadowed(w: World, w': World, a: int, id: int, bid: int)
    requires ShadowsAt(w, a) && a in Rooms(w)
    requires Rooms(w') == Rooms(w)[a := WithOpening(Rooms(w)[a], id, bid)]
    requires w'.bidsPer == w.bidsPer && w'.bidIndex == w.bidIndex && w'.revealed == w.revealed[a := RevealedIn(w, a) + {id}]
    ensures ShadowsAt(w', a)
  {
    hide BidsIn, Rooms, RevealedIn, ToValues;
    var r, r' := Rooms(w)[a], Rooms(w')[a];
    assert r' == WithOpening(r, id, bid) && r'.bids == r.bids;
    OpeningMore(r.auction, r'.auction, id, bid);
    RevealedMore(w, w', a, id);
  }

  lemma OpeningMore(x: Auction, x': Auction, id: int, bid: int)
    requires x'.openings == x.openings[id := Some(bid)] && ToValues(x)
    ensures x'.openings.Keys == x.openings.Keys + {id} && ToValues(x')
  {
  }

  lemma RevealedMore(w: World, w': World, a: int, id: int)
    requires w'.bidsPer == w.bidsPer && w'.revealed == w.revealed[a := RevealedIn(w, a) + {id}]
    ensures RevealedIn(w', a) == RevealedIn(w, a) + {id} && BidsIn(w', a) == BidsIn(w, a)
  {
  }

  /** A bid number names one bidder, so revealing it reveals one bid. */
  lemma RevealsOne(k: Setup, w: World, w': World, a: int, u: int)
    requires k.p > 0 && Sound(k, w.ledger) && Shadows(w) && (a, u) in w.bidIndex
    requires w'.bidIndex == w.bidIndex && w'.revealed == w.revealed[a := RevealedIn(w, a) + {w.bidIndex[(a, u)]}]
    ensures NewlyRevealed(w, w', a, u)
  {
    assert ShadowsAt(w, a);
    RoomAt(k, w.ledger, a);
    assert Held(Rooms(w)[a], w.ledger.house.ctrAccount);
    hide Sound, Bound, Numbered;
    forall b, v ensures Revealed(w', b, v) <==> Revealed(w, b, v) || (b == a && v == u) {
      assert ShadowsAt(w, b);
    }
  }

  /** Revealing through a self-opening reveals exactly that bid, not revealed before. */
  lemma SelfOpenReveals(k: Setup, t: int -> Terms, w: World, a: int, u: int, bid: int)
    requires k.p > 0 && Sound(k, w.ledger) && Shadows(w) && RunSelfOpen(k, t, w, a, u, bid).Accepted?
    ensures var w' := RunSelfOpen(k, t, w, a, u, bid).value;
      Shadows(w') && Extends(w, w') && (a, u) in w.bidIndex && !Revealed(w, a, u) && NewlyRevealed(w, w', a, u)
  {
    hide Sound, Shadows, Extends, NewlyRevealed, Step, ConfirmCredit;
    var w' := RunSelfOpen(k, t, w, a, u, bid).value;
    SelfOpenRoom(k, t, w.ledger, w'.ledger, a, u, bid, Kept(w, a, u));
    ShadowedBidder(w, a, u);
    RevealShadowed(w, w', a, w.bidIndex[(a, u)], bid);
    RevealsOne(k, w, w', a, u);
  }

  lemma ShadowedBidder(w: World, a: int, u: int)
    requires Shadows(w)
    ensures (a, u) in w.bidIndex <==> a in Rooms(w) && u in Rooms(w)[a].bids
    ensures (a, u) in w.bidIndex ==> w.bidIndex[(a, u)] == Rooms(w)[a].bids[u]
    ensures (a, u) in w.bidIndex ==> (Revealed(w, a, u) <==> w.bidIndex[(a, u)] in Rooms(w)[a].auction.openings)
    ensures a in Rooms(w) ==> RevealedIn(w, a) == Rooms(w)[a].auction.openings.Keys
  {
    assert ShadowsAt(w, a);
  }

  /** Booking a forced opening leaves an already revealed bid alone, and otherwise reveals exactly the bid named. */
  lemma ForceSettleReveals(k: Setup, t: int -> Terms, w: World, a: int, u: int, job: Job, bid: int, e: int)
    requires k.p > 0 && Sound(k, w.ledger) && Shadows(w) && (a, u) in w.bidIndex && job.id == w.bidIndex[(a, u)]
    requires ForceSettle(k, t, w, a, u, job, bid, e).Accepted?
    ensures var w' := ForceSettle(k, t, w, a, u, job, bid, e).value;
      Shadows(w') && Extends(w, w') && NewlyRevealed(w, w', a, u) && (Revealed(w, a, u) <==> w' == w)
  {
    hide Sound, Shadows, Step, NewlyRevealed, Extends, ConfirmCredit;
    var w' := ForceSettle(k, t, w, a, u, job, bid, e).value;
    ShadowedBidder(w, a, u);
    if !Revealed(w, a, u) {
      ForceOpenRoom(k, t, w.ledger, w'.ledger, a, u, job.id, bid, e);
      RevealShadowed(w, w', a, job.id, bid);
      RevealsOne(k, w, w', a, u);
      NowRevealed(w, w', a, u);
    } else {
      NothingNew(w, a, u);
    }
  }

  lemma NowRevealed(w: World, w': World, a: int, u: int)
    requires NewlyRevealed(w, w', a, u)
    ensures Revealed(w', a, u)
  {
  }

  lemma NothingNew(w: World, a: int, u: int)
    requires Revealed(w, a, u)
    ensures Extends(w, w) && NewlyRevealed(w, w, a, u)
  {
  }

  lemma CheatingReveals(k: Setup, t: int -> Terms, w: World, a: int, u: int, plain: Option<(int, int)>)
    requires k.p > 0 && Sound(k, w.ledger) && Shadows(w) && ForceCheating(k, t, w, a, u, plain).Accepted?
    ensures var w' := ForceCheating(k, t, w, a, u, plain).value;
      Shadows(w') && Extends(w, w') && (a, u) in w.bidIndex && !Revealed(w, a, u) && NewlyRevealed(w, w', a, u)
  {
    hide Sound, Shadows, Step, NewlyRevealed, Extends, ConfirmCredit;
    var w' := ForceCheating(k, t, w, a, u, plain).value;
    var id, bid, e := w.bidIndex[(a, u)], plain.value.0, plain.value.1;
    ShadowedBidder(w, a, u);
    ForceOpenRoom(k, t, w.ledger, w'.ledger, a, u, id, bid, e);
    RevealShadowed(w, w', a, id, bid);
    RevealsOne(k, w, w', a, u);
  }

  // ------------------------------------------------------------------- settlement

  lemma PendingMeansUnopened(w: World, a: int)
    requires Shadows(w) && a in Rooms(w)
    ensures PendingReveals(w, a) == map[] <==> AllOpened(Rooms(w)[a])
  {
    assert ShadowsAt(w, a);
    if AllOpened(Rooms(w)[a]) {
      forall u ensures u !in PendingReveals(w, a) {
        ShadowedBidder(w, a, u);
      }
    } else {
      var u :| u in Rooms(w)[a].bids && Rooms(w)[a].bids[u] !in Rooms(w)[a].auction.openings;
      ShadowedBidder(w, a, u);
      assert u in PendingReveals(w, a);
    }
  }

  /** The revealed bids are the bids a settlement sees. */
  lemma RevealedAreOpened(k: Setup, w: World, a: int)
    requires k.p > 0 && Sound(k, w.ledger) && Shadows(w) && a in Rooms(w) && AllOpened(Rooms(w)[a])
    ensures |OpenedBids(Rooms(w)[a])| == |RevealedIn(w, a)|
  {
    hide Sound, Bound, Numbered, Held, OpenedBids, AllOpened;
    var r := Rooms(w)[a];
    RoomAt(k, w.ledger, a);
    assert ShadowsAt(w, a);
    OpenedToValues(r);
    EveryNumberHeld(r, w.ledger.house.ctrAccount);
    HeldValues(r, w.ledger.house.ctrAccount);
    OpenedNumbers(k, w, a);
  }

  lemma OpenedToValue(x: Auction, id: int)
    requires ToValues(x) && id in x.openings
    ensures x.openings[id].Some?
  {
  }

  lemma OpenedToValues(r: Room)
    requires AllOpened(r) && ToValues(r.auction)
    ensures |OpenedBids(r)| == |r.bids|
  {
    forall u: int ensures u in OpenedBids(r) <==> u in r.bids {
      if u in r.bids {
        OpenedToValue(r.auction, r.bids[u]);
      }
    }
    SameSize(OpenedBids(r), r.bids);
  }

  lemma OpenedNumbers(k: Setup, w: World, a: int)
    requires k.p > 0 && Sound(k, w.ledger) && a in Rooms(w) && AllOpened(Rooms(w)[a])
    requires forall id :: id in Rooms(w)[a].auction.comms ==> id in Rooms(w)[a].bids.Values
    ensures Rooms(w)[a].auction.openings.Keys == Rooms(w)[a].bids.Values
  {
    var r := Rooms(w)[a];
    RoomAt(k, w.ledger, a);
    hide Sound, Numbered, Held;
    assert forall id :: id in r.auction.openings ==> id in r.auction.comms;
    forall id | id in r.bids.Values ensures id in r.auction.openings {
      var u := KeyFor(r.bids, id);
    }
    forall id | id in r.auction.openings ensures id in r.bids.Values {
    }
    assert r.auction.openings.Keys <= r.bids.Values;
    assert r.bids.Values <= r.auction.openings.Keys;
  }

  /** As many distinct numbers as bidders: a map that never repeats a value has as many values as keys. */
  lemma {:induction false} ValuesCard(m: map<int, int>)
    requires forall u, v :: u in m && v in m && u != v ==> m[u] != m[v]
    ensures |m.Values| == |m.Keys|
    decreases |m|
  {
    if m.Keys == {} {
      assert m.Values == {};
    } else {
      var u := Member(m.Keys);
      var rest := m - {u};
      ValuesCard(rest);
      assert m.Keys == rest.Keys + {u};
      assert m.Values == rest.Values + {m[u]};
    }
  }

  lemma EveryNumberHeld(r: Room, n: int)
    requires Indexed(r, n)
    ensures forall id :: id in r.auction.comms ==> id in r.bids.Values
  {
    HeldValues(r, n);
    NumbersFit(r);
    hide Held, Numbered;
    Settlement.SubsetCard(r.bids.Values, r.auction.comms.Keys);
  }

  lemma NumbersFit(r: Room)
    requires Numbered(r.auction)
    ensures |r.auction.comms.Keys| <= |r.auction.known|
  {
    FewBidders(r.auction.comms.Keys, |r.auction.known|);
  }

  lemma HeldValues(r: Room, n: int)
    requires Indexed(r, n)
    ensures |r.bids.Values| == |r.bids| && r.bids.Values <= r.auction.comms.Keys
  {
    ValuesCard(r.bids);
    forall id | id in r.bids.Values ensures id in r.auction.comms {
      var u := KeyFor(r.bids, id);
    }
  }

  /** A first settlement stops exactly when a bid is still unrevealed, provided enough are. */
  lemma SettlingStops(k: Setup, t: int -> Terms, w: World, a: int, n: nat, price: int, winners: set<int>)
    requires Lawful(k) && k.p > 0 && Sound(k, w.ledger) && Shadows(w) && Proper(k, w.ledger, DoSettle(a, n, price, winners))
    requires |RevealedIn(w, a)| > n
    ensures Step(k, t, w.ledger, DoSettle(a, n, price, winners)).Stopped? <==> PendingReveals(w, a) != map[]
    ensures PendingReveals(w, a) == map[] ==> a in Rooms(w) && Settle(k, w.ledger.house, a, n, price, winners).Accepted?
    ensures PendingReveals(w, a) == map[] ==> Settlement.Admissible(OpenedBids(Rooms(w)[a]), n, price, winners)
  {
    hide Sound, Lawful, Shadows, ShadowsAt, AllOpened, OpenedBids, PendingReveals, Chargeable, Charged, Settlement.Admissible;
    SomethingRevealed(w, a);
    PendingMeansUnopened(w, a);
    if AllOpened(Rooms(w)[a]) {
      RevealedAreOpened(k, w, a);
      SaleChargeable(k, w.ledger, a, n, price, winners);
    }
  }

  lemma SomethingRevealed(w: World, a: int)
    requires Shadows(w) && |RevealedIn(w, a)| > 0
    ensures a in Rooms(w)
  {
    assert ShadowsAt(w, a);
  }

  // -------------------------------------------- the other steps under the world lock

  lemma ClosingKeepsShadows(k: Setup, t: int -> Terms, w: World, a: int, n: nat, price: int, winners: set<int>)
    requires k.p > 0 && Shadows(w) && CloseRound(k, t, w, a, n, price, winners).Accepted?
    ensures var w' := CloseRound(k, t, w, a, n, price, winners).value;
      Shadows(w') && Extends(w, w') && forall b, v :: Revealed(w', b, v) <==> Revealed(w, b, v)
  {
    hide AllOpened, OpenedBids, Chargeable, AllConfirm, Confirmed, Shadows, Extends, Revealed;
    var w' := CloseRound(k, t, w, a, n, price, winners).value;
    assert Rooms(w') == Rooms(w);
    SameEverywhere(w, w');
  }

  lemma SameEverywhere(w: World, w': World)
    requires Shadows(w) && Rooms(w') == Rooms(w) && w'.bidsPer == w.bidsPer && w'.bidIndex == w.bidIndex && w'.revealed == w.revealed
    ensures Shadows(w') && Extends(w, w') && forall b, v :: Revealed(w', b, v) <==> Revealed(w, b, v)
  {
    forall b ensures ShadowsAt(w', b) {
      assert ShadowsAt(w, b);
      hide ShadowsAt;
      SameShadows(w, w', b);
    }
  }

  /** New accounts, and money moving in or out, leave the auctions alone. */
  lemma EnrollKeepsShadows(k: Setup, t: int -> Terms, w: World, init: nat)
    requires k.p > 0 && Shadows(w) && Enroll(k, t, w, init).Accepted?
    ensures var w' := Enroll(k, t, w, init).value;
      Shadows(w') && Extends(w, w') && forall b, v :: Revealed(w', b, v) <==> Revealed(w, b, v)
  {
    hide Remainder, Shadows, Extends, Revealed, ConfirmCredit, ConfirmWithdrawal, ProposeWithdrawal;
    SameEverywhere(w, Enroll(k, t, w, init).value);
  }

  lemma DepositKeepsShadows(k: Setup, t: int -> Terms, w: World, u: int, amt: nat)
    requires k.p > 0 && Shadows(w) && TakeDeposit(k, t, w, u, amt).Accepted?
    ensures var w' := TakeDeposit(k, t, w, u, amt).value;
      Shadows(w') && Extends(w, w') && forall b, v :: Revealed(w', b, v) <==> Revealed(w, b, v)
  {
    hide Remainder, Shadows, Extends, Revealed, ConfirmCredit, ConfirmWithdrawal, ProposeWithdrawal;
    SameEverywhere(w, TakeDeposit(k, t, w, u, amt).value);
  }

  lemma PayOutKeepsShadows(k: Setup, t: int -> Terms, w: World, u: int, amt: nat, proof: int)
    requires k.p > 0 && Shadows(w) && PayOut(k, t, w, u, amt, proof).Accepted?
    ensures var w' := PayOut(k, t, w, u, amt, proof).value;
      Shadows(w') && Extends(w, w') && forall b, v :: Revealed(w', b, v) <==> Revealed(w, b, v)
  {
    hide Remainder, Shadows, Extends, Revealed, ConfirmCredit, ConfirmWithdrawal, ProposeWithdrawal;
    SameEverywhere(w, PayOut(k, t, w, u, amt, proof).value);
  }

  lemma AuctionKeepsShadows(k: Setup, t: int -> Terms, w: World)
    requires k.p > 0 && Sound(k, w.ledger) && Shadows(w) && OpenAuction(k, t, w).Accepted?
    ensures var w' := OpenAuction(k, t, w).value;
      Shadows(w') && Extends(w, w') && forall b, v :: Revealed(w', b, v) <==> Revealed(w, b, v)
  {
    hide Shadows, Sound, Extends, Revealed;
    NewRoomShadowed(k, w, OpenAuction(k, t, w).value);
  }

  lemma NewRoomShadowed(k: Setup, w: World, w': World)
    requires k.p > 0 && Sound(k, w.ledger) && Shadows(w) && NewAuction(w.ledger.house) == Accepted(w'.ledger.house)
    requires w'.bidsPer == w.bidsPer && w'.bidIndex == w.bidIndex && w'.revealed == w.revealed
    ensures Shadows(w') && Extends(w, w') && forall b, v :: Revealed(w', b, v) <==> Revealed(w, b, v)
  {
    hide Sound, ShadowsAt, SameAt;
    var n := w.ledger.house.ctrAuction;
    NoRoomYet(k, w);
    assert Rooms(w') == Rooms(w)[n := Room(Auction(map[], {}, map[]), map[])];
    forall b ensures ShadowsAt(w', b) {
      assert ShadowsAt(w, b);
      if b == n {
        EmptyRoomShadowed(w, w', n);
      } else {
        UntouchedRoom(w, w', n, b);
        SameShadows(w, w', b);
      }
    }
  }

  lemma EmptyRoomShadowed(w: World, w': World, n: int)
    requires ShadowsAt(w, n) && n !in Rooms(w) && n in Rooms(w') && Rooms(w')[n] == Room(Auction(map[], {}, map[]), map[])
    requires w'.bidsPer == w.bidsPer && w'.bidIndex == w.bidIndex && w'.revealed == w.revealed
    ensures ShadowsAt(w', n)
  {
    hide Rooms;
  }

  lemma UntouchedRoom(w: World, w': World, n: int, b: int)
    requires n != b && Rooms(w') == Rooms(w)[n := Room(Auction(map[], {}, map[]), map[])]
    requires w'.bidsPer == w.bidsPer && w'.bidIndex == w.bidIndex && w'.revealed == w.revealed
    ensures SameAt(w, w', b)
  {
    hide Rooms;
  }

  lemma NoRoomYet(k: Setup, w: World)
    requires k.p > 0 && Sound(k, w.ledger)
    ensures w.ledger.house.ctrAuction !in Rooms(w)
  {
  }

  // ------------------------------------------------- every step is a step of the house

  /** Each step on the world is at most one operation of the house, so it keeps the house sound. */
  lemma WorldStepSound(k: Setup, t: int -> Terms, w: World, w': World, op: Op)
    requires Lawful(k) && k.p > 0 && Fair(t) && Sound(k, w.ledger) && Proper(k, w.ledger, op)
    requires w'.ledger == w.ledger || Step(k, t, w.ledger, op) == Accepted(w'.ledger)
    ensures Sound(k, w'.ledger)
  {
    hide Sound, Lawful, Step, Proper;
    if w'.ledger != w.ledger {
      StepKeepsSound(k, t, w.ledger, op);
    }
  }
}
