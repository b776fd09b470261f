/** When the server takes a request, in every safe world, told by the house's state (_wsl_sync/main.rs, house.rs). */
module WorldAnswers {
  import opened Outcomes
  import opened Ledger
  import opened LedgerSafety
  import opened Clients
  import opened Worlds
  import opened WorldClients
  import opened RevealRuns

  /** The invariant of the world in every reachable state. */
  ghost predicate Settled(k: Setup, w: World)
    requires k.p > 0
  {
    Sound(k, w.ledger) && Shadows(w) && ClientsAgree(k, w)
  }

  function Opening(w: World, a: int, u: int): int
  {
    if (a, u) in w.evidence then w.evidence[(a, u)] else 0
  }

  /**
   * When a self-opening is taken: for an active, unrevealed bid, asked for with its committed amount, if the opening
   * kept with it verifies and the balance can hold both rewards.
   */
  lemma SelfOpenAnswers(k: Setup, t: int -> Terms, w: World, a: int, u: int, bid: int)
    requires k.p > 0 && Settled(k, w)
    ensures RunSelfOpen(k, t, w, a, u, bid).Accepted? <==>
      && Active(w.ledger, u, a) && !Revealed(w, a, u) && bid == HouseComm(w.ledger, u, a).ped.value
      && k.opens(HouseComm(w.ledger, u, a), Some(bid), Opening(w, a, u)) == Done(true)
      && u in w.ledger.house.accounts && w.ledger.house.accounts[u].balance + t(a).selfOpen + t(a).forceOpen < WORD
  {
    hide Sound, Shadows, ClientsAgree, SelfOpen, Summed;
    AgreeAt(k, w, u);
    ShadowedBidder(w, a, u);
    SelfOpenTaken(k, t(a), w.ledger.house, a, u, bid, Opening(w, a, u));
    if Active(w.ledger, u, a) {
      BidderHasAccount(k, w.ledger, a, u);
    }
  }

  /**
   * When an honest bid is taken: by a known account in a known auction without a bid of its own, if rewards, bid and
   * committed bids together are within the balance, both proofs verify, and the commitment is new.
   */
  lemma PlaceBidAnswers(k: Setup, t: int -> Terms, w: World, a: int, u: int, bid: int, r: int, puzzle: int, bp: int, lp: int, evidence: int)
    requires Lawful(k) && k.p > 0 && Fair(t) && Settled(k, w) && Small(bid)
    ensures u in w.ledger.house.accounts ==> 0 <= w.ledger.house.ctrAuction
    ensures PlaceBid(k, t, w, a, u, bid, r, puzzle, bp, lp, evidence).Accepted? <==>
      && u in w.ledger.house.accounts && a in Rooms(w) && u !in Rooms(w)[a].bids
      && Committed(w.ledger, u) + bid + t(a).selfOpen + t(a).forceOpen <= w.ledger.house.accounts[u].balance
      && k.verifies(Commit(k, bid, r), bp)
      && k.verifies(BidRemainder(k, w.ledger.house.accounts[u].balance - t(a).selfOpen - t(a).forceOpen, Commit(k, bid, r), w.ledger.house.accounts[u].active), lp)
      && Comm(Commit(k, bid, r), puzzle) !in Rooms(w)[a].auction.known
    ensures PlaceBid(k, t, w, a, u, bid, r, puzzle, bp, lp, evidence).Accepted? ==>
      var w' := PlaceBid(k, t, w, a, u, bid, r, puzzle, bp, lp, evidence).value;
      && Active(w'.ledger, u, a) && HouseComm(w'.ledger, u, a) == Comm(Commit(k, bid, r), puzzle)
      && Opening(w', a, u) == evidence && !Revealed(w', a, u)
      && u in w'.ledger.house.accounts && w'.ledger.house.accounts[u].balance == w.ledger.house.accounts[u].balance - t(a).selfOpen - t(a).forceOpen
  {
    if u in w.ledger.house.accounts {
      BidByAccount(k, t, w, a, u, bid, r, puzzle, bp, lp, evidence);
    } else {
      NoAccount(k, w, u);
    }
  }

  /** When the house takes a bid. */
  lemma BidTaken(k: Setup, t: Terms, h: House, a: int, u: int, c: Comm, bp: int, lp: int)
    requires k.p > 0
    ensures Bid(k, t, h, a, u, c, bp, lp).Accepted? <==>
      && u in h.accounts && a in h.rooms && u !in h.rooms[a].bids && k.verifies(c.ped, bp)
      && t.selfOpen + t.forceOpen <= h.accounts[u].balance
      && k.verifies(BidRemainder(k, h.accounts[u].balance - t.selfOpen - t.forceOpen, c.ped, h.accounts[u].active), lp)
      && c !in h.rooms[a].auction.known
  {
    hide BidRemainder, Plus;
  }

  lemma NoAccount(k: Setup, w: World, u: int)
    requires k.p > 0 && ClientsAgree(k, w) && u !in w.ledger.house.accounts
    ensures u !in w.privates
  {
    AgreeAt(k, w, u);
  }

  lemma BidByAccount(k: Setup, t: int -> Terms, w: World, a: int, u: int, bid: int, r: int, puzzle: int, bp: int, lp: int, evidence: int)
    requires Lawful(k) && k.p > 0 && Fair(t) && Settled(k, w) && Small(bid) && u in w.ledger.house.accounts
    ensures 0 <= w.ledger.house.ctrAuction
    ensures PlaceBid(k, t, w, a, u, bid, r, puzzle, bp, lp, evidence).Accepted? <==>
      && a in Rooms(w) && u !in Rooms(w)[a].bids
      && Committed(w.ledger, u) + bid + t(a).selfOpen + t(a).forceOpen <= w.ledger.house.accounts[u].balance
      && k.verifies(Commit(k, bid, r), bp)
      && k.verifies(BidRemainder(k, w.ledger.house.accounts[u].balance - t(a).selfOpen - t(a).forceOpen, Commit(k, bid, r), w.ledger.house.accounts[u].active), lp)
      && Comm(Commit(k, bid, r), puzzle) !in Rooms(w)[a].auction.known
    ensures PlaceBid(k, t, w, a, u, bid, r, puzzle, bp, lp, evidence).Accepted? ==>
      var w' := PlaceBid(k, t, w, a, u, bid, r, puzzle, bp, lp, evidence).value;
      && Active(w'.ledger, u, a) && HouseComm(w'.ledger, u, a) == Comm(Commit(k, bid, r), puzzle)
      && Opening(w', a, u) == evidence && !Revealed(w', a, u)
      && u in w'.ledger.house.accounts && w'.ledger.house.accounts[u].balance == w.ledger.house.accounts[u].balance - t(a).selfOpen - t(a).forceOpen
  {
    hide Lawful, Fair, Sound, Shadows, ClientsAgree, Mirrors, Committed, Commit, Scalar, BidRemainder, Plus, Bid, Revealed, Active, HouseComm;
    AgreeAt(k, w, u);
    var c := w.privates[u];
    MirroredAccount(k, w.ledger, u, c);
    SolventAt(k, w.ledger, u);
    var comm := Comm(Commit(k, bid, r), puzzle);
    BidTaken(k, t(a), w.ledger.house, a, u, comm, bp, lp);
    BidReward(k, t, a);
    if PlaceBid(k, t, w, a, u, bid, r, puzzle, bp, lp, evidence).Accepted? {
      var w' := PlaceBid(k, t, w, a, u, bid, r, puzzle, bp, lp, evidence).value;
      var l := Step(k, t, w.ledger, DoBid(a, u, comm, bp, lp)).value;
      BidUnfolds(k, t(a), w.ledger.house, a, u, comm, bp, lp);
      OwnBidView(k, w.ledger, l, u, a, comm);
      ActiveSame(l, w'.ledger, u, a);
      PlaceBidShadows(k, t, w, a, u, bid, r, puzzle, bp, lp, evidence);
      NotThereBefore(w, a, u);
    }
  }

  lemma BidReward(k: Setup, t: int -> Terms, a: int)
    requires Fair(t)
    ensures 0 <= t(a).selfOpen && 0 <= t(a).forceOpen
  {
  }

  lemma ActiveSame(s: State, s': State, u: int, a: int)
    requires s == s'
    ensures Active(s, u, a) == Active(s', u, a) && (Active(s, u, a) ==> HouseComm(s, u, a) == HouseComm(s', u, a))
  {
  }

  lemma NotThereBefore(w: World, a: int, u: int)
    requires Shadows(w) && a in Rooms(w) && u !in Rooms(w)[a].bids
    ensures !Revealed(w, a, u)
  {
    ShadowedBidder(w, a, u);
  }

  /** A bid can be opened by its bidder as soon as it is placed, and the rewards come back. */
  lemma PlacedThenOpened(k: Setup, t: int -> Terms, w: World, a: int, u: int, bid: int, r: int, puzzle: int, bp: int, lp: int, evidence: int)
    requires Lawful(k) && k.p > 0 && Fair(t) && Settled(k, w) && Small(bid) && u in w.ledger.house.accounts
    requires PlaceBid(k, t, w, a, u, bid, r, puzzle, bp, lp, evidence).Accepted?
    requires k.opens(Comm(Commit(k, bid, r), puzzle), Some(bid), evidence) == Done(true)
    ensures var w' := PlaceBid(k, t, w, a, u, bid, r, puzzle, bp, lp, evidence).value;
      && RunSelfOpen(k, t, w', a, u, bid).Accepted?
      && var w'' := RunSelfOpen(k, t, w', a, u, bid).value;
      Revealed(w'', a, u) && u in w''.ledger.house.accounts && w''.ledger.house.accounts[u].balance == w.ledger.house.accounts[u].balance
  {
    hide Lawful, Fair, Sound, Shadows, ClientsAgree, PlaceBid, RunSelfOpen, Active, HouseComm, Revealed, Opening, Committed, BidRemainder;
    var w' := PlaceBid(k, t, w, a, u, bid, r, puzzle, bp, lp, evidence).value;
    PlaceBidAnswers(k, t, w, a, u, bid, r, puzzle, bp, lp, evidence);
    PlacedSettled(k, t, w, a, u, bid, r, puzzle, bp, lp, evidence);
    ProposedComm(k, bid, r);
    SolventAt(k, w.ledger, u);
    SelfOpenAnswers(k, t, w', a, u, bid);
    SelfOpenReveals(k, t, w', a, u, bid);
    NowRevealed(w', RunSelfOpen(k, t, w', a, u, bid).value, a, u);
    SelfOpenPays(k, t, w', a, u, bid);
  }

  lemma SelfOpenPays(k: Setup, t: int -> Terms, w: World, a: int, u: int, bid: int)
    requires k.p > 0 && u in w.ledger.house.accounts && RunSelfOpen(k, t, w, a, u, bid).Accepted?
    ensures var w' := RunSelfOpen(k, t, w, a, u, bid).value;
      u in w'.ledger.house.accounts && w'.ledger.house.accounts[u].balance == w.ledger.house.accounts[u].balance + t(a).selfOpen + t(a).forceOpen
  {
    hide SelfOpen, ConfirmCredit;
    SelfOpenTaken(k, t(a), w.ledger.house, a, u, bid, Kept(w, a, u));
  }

  lemma PlacedSettled(k: Setup, t: int -> Terms, w: World, a: int, u: int, bid: int, r: int, puzzle: int, bp: int, lp: int, evidence: int)
    requires Lawful(k) && k.p > 0 && Fair(t) && Settled(k, w) && Small(bid)
    requires PlaceBid(k, t, w, a, u, bid, r, puzzle, bp, lp, evidence).Accepted?
    ensures Settled(k, PlaceBid(k, t, w, a, u, bid, r, puzzle, bp, lp, evidence).value)
  {
    hide Lawful, Fair, Sound, Shadows, ClientsAgree, ProposeBid, Step, ConfirmBid, Extends, Revealed;
    PlaceBidShadows(k, t, w, a, u, bid, r, puzzle, bp, lp, evidence);
    PlacedClients(k, t, w, a, u, bid, r, puzzle, bp, lp, evidence);
    PlacedSound(k, t, w, a, u, bid, r, puzzle, bp, lp, evidence);
  }

  lemma PlacedSound(k: Setup, t: int -> Terms, w: World, a: int, u: int, bid: int, r: int, puzzle: int, bp: int, lp: int, evidence: int)
    requires Lawful(k) && k.p > 0 && Fair(t) && Sound(k, w.ledger) && Small(bid)
    requires PlaceBid(k, t, w, a, u, bid, r, puzzle, bp, lp, evidence).Accepted?
    ensures Sound(k, PlaceBid(k, t, w, a, u, bid, r, puzzle, bp, lp, evidence).value.ledger)
  {
    hide Lawful, Fair, Sound, Step, ConfirmBid, Commit, Scalar, BidRemainder;
    ProposedComm(k, bid, r);
    WorldStepSound(k, t, w, PlaceBid(k, t, w, a, u, bid, r, puzzle, bp, lp, evidence).value,
      DoBid(a, u, ProposeBid(k, t(a), w.privates[u], bid, r, puzzle).value.comm, bp, lp));
  }

  /** Deposits are taken for every account whose balance can hold them. */
  lemma DepositAnswers(k: Setup, t: int -> Terms, w: World, u: int, amt: nat)
    requires k.p > 0 && Settled(k, w)
    ensures TakeDeposit(k, t, w, u, amt).Accepted? <==> u in w.ledger.house.accounts && w.ledger.house.accounts[u].balance + amt < WORD
    ensures TakeDeposit(k, t, w, u, amt).Refused? <==> u !in w.ledger.house.accounts
  {
    hide Sound, Shadows, ClientsAgree, Mirrors;
    AgreeAt(k, w, u);
    if u in w.ledger.house.accounts {
      MirroredBalance(k, w, u);
    }
  }

  /** Withdrawals are paid exactly when the balance above the committed bids covers them and the proof verifies. */
  lemma PayOutAnswers(k: Setup, t: int -> Terms, w: World, u: int, amt: nat, proof: int)
    requires k.p > 0 && Settled(k, w)
    ensures u in w.ledger.house.accounts ==> 0 <= w.ledger.house.ctrAuction
    ensures PayOut(k, t, w, u, amt, proof).Accepted? <==>
      && u in w.ledger.house.accounts && Committed(w.ledger, u) + amt <= w.ledger.house.accounts[u].balance
      && k.verifies(Remainder(k, w.ledger.house.accounts[u].balance - amt, w.ledger.house.accounts[u].active), proof)
  {
    hide Sound, Shadows, ClientsAgree, Mirrors, Committed, Remainder, Scalar;
    AgreeAt(k, w, u);
    if u in w.ledger.house.accounts {
      MirroredAccount(k, w.ledger, u, w.privates[u]);
    }
  }

  // ---------------------------------------------------- forced openings and round ends

  /** An opening to a bid that the house takes for the number it has under a bidder, with a reward that fits. */
  ghost predicate Openable(k: Setup, t: int -> Terms, w: World, a: int, u: int, bid: int, e: int)
    requires Active(w.ledger, u, a)
  {
    && bid == HouseComm(w.ledger, u, a).ped.value && k.opens(HouseComm(w.ledger, u, a), Some(bid), e) == Done(true)
    && u in w.ledger.house.accounts && w.ledger.house.accounts[u].balance + t(a).forceOpen < WORD
  }

  /** When a prepared forced opening is booked: if the bid is revealed already, or the house takes it. */
  lemma BookingAnswers(k: Setup, t: int -> Terms, w: World, a: int, u: int, bid: int, e: int)
    requires k.p > 0 && Settled(k, w) && Active(w.ledger, u, a)
    ensures Prepare(w, a, u).Some?
    ensures ForceSettle(k, t, w, a, u, Prepare(w, a, u).value, bid, e).Accepted? <==> Revealed(w, a, u) || Openable(k, t, w, a, u, bid, e)
  {
    hide Sound, Shadows, ClientsAgree, Mirrors, ForceOpen;
    PreparedIsHouses(k, w, a, u);
    AgreeAt(k, w, u);
    ShadowedBidder(w, a, u);
    ForceOpenTaken(k, t(a), w.ledger.house, a, u, Prepare(w, a, u).value.id, Some(bid), e);
    BidderHasAccount(k, w.ledger, a, u);
    MirroredBalance(k, w, u);
  }

  /** When a trapdoor opening is taken: for an active, unrevealed bid whose opening the house takes. */
  lemma CheatAnswers(k: Setup, t: int -> Terms, w: World, a: int, u: int, plain: Option<(int, int)>)
    requires k.p > 0 && Settled(k, w)
    ensures ForceCheating(k, t, w, a, u, plain).Accepted? <==>
      Active(w.ledger, u, a) && !Revealed(w, a, u) && plain.Some? && Openable(k, t, w, a, u, plain.value.0, plain.value.1)
  {
    hide Sound, Shadows, ClientsAgree, Mirrors, ForceOpen;
    PreparedIsHouses(k, w, a, u);
    if Active(w.ledger, u, a) && plain.Some? {
      AgreeAt(k, w, u);
      ShadowedBidder(w, a, u);
      ForceOpenTaken(k, t(a), w.ledger.house, a, u, Prepare(w, a, u).value.id, Some(plain.value.0), plain.value.1);
      BidderHasAccount(k, w.ledger, a, u);
      MirroredBalance(k, w, u);
    }
  }

  /** What ending a round with nothing pending does to one account, at the house and at its client. */
  ghost predicate SettledFor(w: World, w': World, a: int, price: int, winners: set<int>, u: int)
    requires u in w.ledger.house.accounts
  {
    var due := if u in winners then price else 0;
    && u in w'.ledger.house.accounts && w'.ledger.house.accounts[u].balance == w.ledger.house.accounts[u].balance - due
    && u in w.privates && u in w'.privates && w'.privates[u].balance == w.privates[u].balance - due
    && w'.privates[u].bids == w.privates[u].bids - {a} && !Active(w'.ledger, u, a)
  }

  /** With more bids revealed than there are winners and none pending, the winners pay and no bid of the auction stays active. */
  lemma RoundSettles(k: Setup, t: int -> Terms, w: World, a: int, n: nat, price: int, winners: set<int>)
    requires Lawful(k) && k.p > 0 && Fair(t) && Settled(k, w) && Proper(k, w.ledger, DoSettle(a, n, price, winners))
    requires |RevealedIn(w, a)| > n && PendingReveals(w, a) == map[]
    ensures var r := CloseRound(k, t, w, a, n, price, winners);
      && r.Accepted? && r.value.bidIndex == w.bidIndex && r.value.revealed == w.revealed
      && (forall u :: u in w.ledger.house.accounts ==> SettledFor(w, r.value, a, price, winners, u))
  {
    hide Lawful, Fair, Sound, Shadows, ClientsAgree, Step, Proper, AllConfirm, Finalized, RevealedIn, PendingReveals;
    ClosingStops(k, t, w, a, n, price, winners);
    var op := DoSettle(a, n, price, winners);
    SomethingRevealed(w, a);
    NotRefused(k, t, w.ledger, a, n, price, winners);
    var l := Step(k, t, w.ledger, op).value;
    WinnersHoldBids(k, t, w, a, n, price, winners);
    FinalizedKeeps(k, w.(ledger := l), a, price, winners);
    forall u | u in w.ledger.house.accounts ensures SettledFor(w, CloseRound(k, t, w, a, n, price, winners).value, a, price, winners, u) {
      SettlesOne(k, t, w, l, a, n, price, winners, u);
    }
  }

  lemma FinalizedKeeps(k: Setup, w: World, a: int, price: int, winners: set<int>)
    requires k.p > 0 && AllConfirm(k, w, a, price, winners)
    ensures var w' := Finalized(k, w, a, price, winners); w'.ledger == w.ledger && w'.bidIndex == w.bidIndex && w'.revealed == w.revealed
  {
  }

  lemma SettlesOne(k: Setup, t: int -> Terms, w: World, l: State, a: int, n: nat, price: int, winners: set<int>, u: int)
    requires k.p > 0 && Settled(k, w) && Step(k, t, w.ledger, DoSettle(a, n, price, winners)) == Accepted(l)
    requires AllConfirm(k, w.(ledger := l), a, price, winners) && u in w.ledger.house.accounts
    requires forall v :: v in winners ==> (a, v) in w.bidIndex
    ensures SettledFor(w, Finalized(k, w.(ledger := l), a, price, winners), a, price, winners, u)
  {
    hide Sound, Shadows, Minus, Scalar, Plus, Summed, AllOpened, OpenedBids;
    ShadowedBidder(w, a, u);
    AgreeAt(k, w, u);
    assert (a, u) !in w.bidIndex ==> a !in w.privates[u].bids;
  }
}
