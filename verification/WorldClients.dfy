/** Every client in the server's world mirrors its account at the house, whatever step the server takes. */
module WorldClients {
  import Arithmetic
  import opened Outcomes
  import opened Sums
  import opened Ledger
  import opened LedgerSafety
  import opened Clients
  import opened Worlds
  import Settlement

  /** The server has a client for every account of the house, and each mirrors it. */
  ghost predicate ClientsAgree(k: Setup, w: World)
    requires k.p > 0
  {
    && (forall u :: u in w.privates <==> u in w.ledger.house.accounts)
    && (forall u :: u in w.privates ==> Mirrors(k, w.ledger, u, w.privates[u]))
  }

  lemma AgreeAt(k: Setup, w: World, u: int)
    requires k.p > 0 && ClientsAgree(k, w)
    ensures u in w.privates <==> u in w.ledger.house.accounts
    ensures u in w.privates ==> Mirrors(k, w.ledger, u, w.privates[u])
  {
  }

  /** Operations other than opening an account keep the set of accounts. */
  lemma SameAccounts(k: Setup, t: int -> Terms, s: State, op: Op)
    requires k.p > 0 && Step(k, t, s, op).Accepted? && !op.DoNewAccount?
    ensures Step(k, t, s, op).value.house.accounts.Keys == s.house.accounts.Keys
  {
    hide AllOpened, OpenedBids, Plus, Minus, BidRemainder, Remainder;
    if op.DoBid? {
      BidUnfolds(k, t(op.a), s.house, op.a, op.u, op.c, op.bidProof, op.balanceProof);
    }
  }

  /** If every client reacts to an operation as its confirmation prescribes, all mirrors are kept. */
  lemma StepClients(k: Setup, t: int -> Terms, w: World, w': World, op: Op)
    requires Lawful(k) && k.p > 0 && Fair(t) && Sound(k, w.ledger) && ClientsAgree(k, w) && Proper(k, w.ledger, op)
    requires !op.DoNewAccount? && Step(k, t, w.ledger, op) == Accepted(w'.ledger)
    requires forall u :: u in w'.privates <==> u in w.privates
    requires forall u :: u in w.privates && React(k, t, w.ledger.house, op, u, w.privates[u]).Accepted? ==>
      w'.privates[u] == React(k, t, w.ledger.house, op, u, w.privates[u]).value
    ensures ClientsAgree(k, w')
  {
    hide Lawful, Fair, Sound, Proper, Step, React, Mirrors;
    SameAccounts(k, t, w.ledger, op);
    forall u | u in w'.privates ensures Mirrors(k, w'.ledger, u, w'.privates[u]) {
      StepKeepsMirror(k, t, w.ledger, op, u, w.privates[u]);
    }
  }

  /** The same when the operation concerns one client and the server confirms for it. */
  lemma OneClient(k: Setup, t: int -> Terms, w: World, mid: World, w': World, op: Op, u: int, change: Change)
    requires Lawful(k) && k.p > 0 && Fair(t) && Sound(k, w.ledger) && ClientsAgree(k, w) && Proper(k, w.ledger, op)
    requires !op.DoNewAccount? && !op.DoSettle? && Step(k, t, w.ledger, op) == Accepted(mid.ledger) && mid.privates == w.privates
    requires WithClient(mid, u, change) == Accepted(w')
    requires u in w.privates && React(k, t, w.ledger.house, op, u, w.privates[u]) == change
    requires forall v :: v in w.privates && v != u ==> React(k, t, w.ledger.house, op, v, w.privates[v]) == Accepted(w.privates[v])
    ensures ClientsAgree(k, w') && change.Accepted?
  {
    hide Lawful, Fair, Sound, Proper, Step, React, Mirrors;
    StepKeepsMirror(k, t, w.ledger, op, u, w.privates[u]) by { AgreeAt(k, w, u); }
    StepClients(k, t, w, w', op);
  }

  lemma PlacedClients(k: Setup, t: int -> Terms, w: World, a: int, u: int, bid: int, r: int, puzzle: int, bp: int, lp: int, evidence: int)
    requires Lawful(k) && k.p > 0 && Fair(t) && Sound(k, w.ledger) && ClientsAgree(k, w) && Small(bid)
    requires PlaceBid(k, t, w, a, u, bid, r, puzzle, bp, lp, evidence).Accepted?
    ensures ClientsAgree(k, PlaceBid(k, t, w, a, u, bid, r, puzzle, bp, lp, evidence).value)
  {
    hide Lawful, Fair, Sound, Step, ClientsAgree, ConfirmBid, Commit, Scalar, BidRemainder;
    var c := w.privates[u];
    var q := ProposeBid(k, t(a), c, bid, r, puzzle).value;
    var op := DoBid(a, u, q.comm, bp, lp);
    var l := Step(k, t, w.ledger, op).value;
    var mid := w.(ledger := l, bidsPer := w.bidsPer[a := BidsIn(w, a) + 1], bidIndex := w.bidIndex[(a, u) := BidsIn(w, a)],
                  evidence := w.evidence[(a, u) := evidence]);
    ProposedComm(k, bid, r);
    OneClient(k, t, w, mid, PlaceBid(k, t, w, a, u, bid, r, puzzle, bp, lp, evidence).value, op, u,
      ConfirmBid(k, t(a), c, a, bid, Scalar(k, r), q.comm));
  }

  /** A proposed commitment holds the bid and the blinding it was made with. */
  lemma ProposedComm(k: Setup, bid: int, r: int)
    requires Lawful(k) && k.p > 0 && Small(bid)
    ensures Commit(k, bid, r).value == bid && Commit(k, bid, r).blinding == Scalar(k, r) && Canonical(k, Commit(k, bid, r))
  {
    LawfulOrder(k);
    Arithmetic.DivModUnique(bid, 0, k.p, bid);
  }

  lemma SelfOpenedClients(k: Setup, t: int -> Terms, w: World, a: int, u: int, bid: int)
    requires Lawful(k) && k.p > 0 && Fair(t) && Sound(k, w.ledger) && ClientsAgree(k, w) && RunSelfOpen(k, t, w, a, u, bid).Accepted?
    ensures ClientsAgree(k, RunSelfOpen(k, t, w, a, u, bid).value)
  {
    hide Lawful, Fair, Sound, Step, ClientsAgree, ConfirmCredit;
    var op := DoSelfOpen(a, u, bid, Kept(w, a, u));
    var after := w.(ledger := Step(k, t, w.ledger, op).value);
    var mid := if (a, u) in w.bidIndex then Reveal(after, a, w.bidIndex[(a, u)]) else after;
    OneClient(k, t, w, mid, RunSelfOpen(k, t, w, a, u, bid).value, op, u, ConfirmCredit(w.privates[u], t(a).selfOpen + t(a).forceOpen));
  }

  /** The account that a forced opening credits is one of the house's. */
  lemma CreditedAccount(k: Setup, t: int -> Terms, s: State, a: int, u: int, id: int, bid: int, e: int)
    requires k.p > 0 && Step(k, t, s, DoForceOpen(a, u, id, Some(bid), e)).Accepted?
    ensures u in s.house.accounts
  {
  }

  lemma BookedClients(k: Setup, t: int -> Terms, w: World, a: int, u: int, id: int, bid: int, e: int)
    requires Lawful(k) && k.p > 0 && Fair(t) && Sound(k, w.ledger) && ClientsAgree(k, w)
    requires Step(k, t, w.ledger, DoForceOpen(a, u, id, Some(bid), e)).Accepted?
    requires Booked(t, w, Step(k, t, w.ledger, DoForceOpen(a, u, id, Some(bid), e)).value, a, u, id).Accepted?
    ensures ClientsAgree(k, Booked(t, w, Step(k, t, w.ledger, DoForceOpen(a, u, id, Some(bid), e)).value, a, u, id).value)
  {
    hide Lawful, Fair, Sound, Step, ClientsAgree, ConfirmCredit;
    var op := DoForceOpen(a, u, id, Some(bid), e);
    var l := Step(k, t, w.ledger, op).value;
    CreditedAccount(k, t, w.ledger, a, u, id, bid, e);
    AgreeAt(k, w, u);
    OneClient(k, t, w, Reveal(w.(ledger := l), a, id), Booked(t, w, l, a, u, id).value, op, u, ConfirmCredit(w.privates[u], t(a).forceOpen));
  }

  lemma ForcedClients(k: Setup, t: int -> Terms, w: World, a: int, u: int, job: Job, bid: int, e: int)
    requires Lawful(k) && k.p > 0 && Fair(t) && Sound(k, w.ledger) && ClientsAgree(k, w)
    requires ForceSettle(k, t, w, a, u, job, bid, e).Accepted?
    ensures ClientsAgree(k, ForceSettle(k, t, w, a, u, job, bid, e).value)
  {
    hide Lawful, Fair, Sound, Step, ClientsAgree, Booked;
    if job.id !in RevealedIn(w, a) {
      BookedClients(k, t, w, a, u, job.id, bid, e);
    }
  }

  lemma CheatedClients(k: Setup, t: int -> Terms, w: World, a: int, u: int, plain: Option<(int, int)>)
    requires Lawful(k) && k.p > 0 && Fair(t) && Sound(k, w.ledger) && ClientsAgree(k, w)
    requires ForceCheating(k, t, w, a, u, plain).Accepted?
    ensures ClientsAgree(k, ForceCheating(k, t, w, a, u, plain).value)
  {
    hide Lawful, Fair, Sound, Step, ClientsAgree, Booked, Prepare;
    BookedClients(k, t, w, a, u, Prepare(w, a, u).value.id, plain.value.0, plain.value.1);
  }

  lemma DepositedClients(k: Setup, t: int -> Terms, w: World, u: int, amt: nat)
    requires Lawful(k) && k.p > 0 && Fair(t) && Sound(k, w.ledger) && ClientsAgree(k, w) && TakeDeposit(k, t, w, u, amt).Accepted?
    ensures ClientsAgree(k, TakeDeposit(k, t, w, u, amt).value)
  {
    hide Lawful, Fair, Sound, Step, ClientsAgree, ConfirmCredit;
    var op := DoDeposit(u, amt);
    DepositedAccount(k, t, w.ledger, u, amt);
    AgreeAt(k, w, u);
    OneClient(k, t, w, w.(ledger := Step(k, t, w.ledger, op).value), TakeDeposit(k, t, w, u, amt).value, op, u, ConfirmCredit(w.privates[u], amt));
  }

  lemma DepositedAccount(k: Setup, t: int -> Terms, s: State, u: int, amt: nat)
    requires k.p > 0 && Step(k, t, s, DoDeposit(u, amt)).Accepted?
    ensures u in s.house.accounts
  {
  }

  lemma PaidClients(k: Setup, t: int -> Terms, w: World, u: int, amt: nat, proof: int)
    requires Lawful(k) && k.p > 0 && Fair(t) && Sound(k, w.ledger) && ClientsAgree(k, w) && PayOut(k, t, w, u, amt, proof).Accepted?
    ensures ClientsAgree(k, PayOut(k, t, w, u, amt, proof).value)
  {
    hide Lawful, Fair, Sound, Step, ClientsAgree, ConfirmWithdrawal, ProposeWithdrawal;
    var op := DoWithdraw(u, amt, proof);
    OneClient(k, t, w, w.(ledger := Step(k, t, w.ledger, op).value), PayOut(k, t, w, u, amt, proof).value, op, u, ConfirmWithdrawal(w.privates[u], amt));
  }

  lemma AuctionClients(k: Setup, t: int -> Terms, w: World)
    requires Lawful(k) && k.p > 0 && Fair(t) && Sound(k, w.ledger) && ClientsAgree(k, w) && OpenAuction(k, t, w).Accepted?
    ensures ClientsAgree(k, OpenAuction(k, t, w).value)
  {
    hide Lawful, Fair, Sound, Step, ClientsAgree;
    StepClients(k, t, w, OpenAuction(k, t, w).value, DoNewAuction);
  }

  /** A new account comes with a fresh client, which the deposit then credits. */
  lemma EnrolledClients(k: Setup, t: int -> Terms, w: World, init: nat)
    requires Lawful(k) && k.p > 0 && Fair(t) && Sound(k, w.ledger) && ClientsAgree(k, w) && Enroll(k, t, w, init).Accepted?
    ensures ClientsAgree(k, Enroll(k, t, w, init).value)
  {
    hide Lawful, Fair, Sound, Step, ClientsAgree;
    var u := w.ledger.house.ctrAccount;
    var l := Step(k, t, w.ledger, DoNewAccount).value;
    var mid := w.(ledger := l, privates := w.privates[u := Fresh()]);
    NewcomerAgrees(k, t, w, mid);
    StepKeepsSound(k, t, w.ledger, DoNewAccount);
    var op := DoDeposit(u, init);
    var l' := Step(k, t, l, op).value;
    assert ConfirmCredit(Fresh(), init).Accepted?;
    assert mid.privates[u := ConfirmCredit(Fresh(), init).value] == w.privates[u := ConfirmCredit(Fresh(), init).value];
    OneClient(k, t, mid, mid.(ledger := l'), Enroll(k, t, w, init).value, op, u, ConfirmCredit(Fresh(), init));
  }

  lemma NewcomerAgrees(k: Setup, t: int -> Terms, w: World, mid: World)
    requires Lawful(k) && k.p > 0 && Fair(t) && Sound(k, w.ledger) && ClientsAgree(k, w)
    requires Step(k, t, w.ledger, DoNewAccount) == Accepted(mid.ledger)
    requires mid.privates == w.privates[w.ledger.house.ctrAccount := Fresh()]
    ensures ClientsAgree(k, mid)
  {
    var n := w.ledger.house.ctrAccount;
    assert mid.ledger.house.accounts.Keys == w.ledger.house.accounts.Keys + {n};
    hide Lawful, Fair, Sound, Mirrors;
    NewcomerMirrored(k, w.ledger, mid.ledger, n);
    forall u | u in mid.privates ensures Mirrors(k, mid.ledger, u, mid.privates[u]) {
      if u != n {
        StepKeepsMirror(k, t, w.ledger, DoNewAccount, u, w.privates[u]);
      }
    }
  }

  // ----------------------------------------------------------------- settlement

  /** No confirmation of an admissible first settlement fails. */
  lemma RoundConfirms(k: Setup, t: int -> Terms, w: World, a: int, n: nat, price: int, winners: set<int>)
    requires Lawful(k) && k.p > 0 && Fair(t) && Sound(k, w.ledger) && Shadows(w) && ClientsAgree(k, w)
    requires Proper(k, w.ledger, DoSettle(a, n, price, winners)) && Step(k, t, w.ledger, DoSettle(a, n, price, winners)).Accepted?
    ensures AllConfirm(k, w, a, price, winners)
  {
    hide Lawful, Fair, Sound, Step, Proper, ClientsAgree, Shadows, ConfirmWin, ConfirmLoss;
    var op := DoSettle(a, n, price, winners);
    forall u | (a, u) in w.bidIndex ensures u in w.privates && Confirmed(k, w.privates[u], a, price, u in winners).Accepted? {
      ShadowedBidder(w, a, u);
      BidderHasAccount(k, w.ledger, a, u);
      AgreeAt(k, w, u);
      StepKeepsMirror(k, t, w.ledger, op, u, w.privates[u]);
    }
  }

  lemma BidderHasAccount(k: Setup, s: State, a: int, u: int)
    requires k.p > 0 && Sound(k, s) && a in s.house.rooms && u in s.house.rooms[a].bids
    ensures u in s.house.accounts
  {
    RoomAt(k, s, a);
    assert Held(s.house.rooms[a], s.house.ctrAccount);
  }

  lemma FinalizedClients(k: Setup, t: int -> Terms, w: World, mid: World, a: int, n: nat, price: int, winners: set<int>)
    requires Lawful(k) && k.p > 0 && Fair(t) && Sound(k, w.ledger) && Shadows(w) && ClientsAgree(k, w)
    requires Proper(k, w.ledger, DoSettle(a, n, price, winners)) && Step(k, t, w.ledger, DoSettle(a, n, price, winners)) == Accepted(mid.ledger)
    requires mid == w.(ledger := mid.ledger) && AllConfirm(k, mid, a, price, winners)
    ensures ClientsAgree(k, Finalized(k, mid, a, price, winners))
  {
    WinnersHoldBids(k, t, w, a, n, price, winners);
    hide Lawful, Fair, Sound, Step, Proper, ClientsAgree, Shadows, ConfirmWin, ConfirmLoss;
    var op := DoSettle(a, n, price, winners);
    var w' := Finalized(k, mid, a, price, winners);
    forall u | u in w.privates && React(k, t, w.ledger.house, op, u, w.privates[u]).Accepted?
      ensures w'.privates[u] == React(k, t, w.ledger.house, op, u, w.privates[u]).value
    {
      ShadowedBidder(w, a, u);
    }
    StepClients(k, t, w, w', op);
  }

  lemma WinnersHoldBids(k: Setup, t: int -> Terms, w: World, a: int, n: nat, price: int, winners: set<int>)
    requires k.p > 0 && Shadows(w)
    requires Proper(k, w.ledger, DoSettle(a, n, price, winners)) && Step(k, t, w.ledger, DoSettle(a, n, price, winners)).Accepted?
    ensures forall u :: u in winners ==> (a, u) in w.bidIndex
  {
    hide Shadows, Chargeable, Charged;
    forall u | u in winners ensures (a, u) in w.bidIndex {
      WinnersBid(w.ledger, a, n, price, winners, u);
      ShadowedBidder(w, a, u);
    }
  }

  lemma ClosedClients(k: Setup, t: int -> Terms, w: World, a: int, n: nat, price: int, winners: set<int>)
    requires Lawful(k) && k.p > 0 && Fair(t) && Sound(k, w.ledger) && Shadows(w) && ClientsAgree(k, w)
    requires Proper(k, w.ledger, DoSettle(a, n, price, winners)) && CloseRound(k, t, w, a, n, price, winners).Accepted?
    ensures ClientsAgree(k, CloseRound(k, t, w, a, n, price, winners).value)
  {
    hide Lawful, Fair, Sound, Step, Proper, ClientsAgree, Shadows, Finalized, AllConfirm;
    if |RevealedIn(w, a)| > n {
      SomethingRevealed(w, a);
      NotRefused(k, t, w.ledger, a, n, price, winners);
      FinalizedClients(k, t, w, w.(ledger := Step(k, t, w.ledger, DoSettle(a, n, price, winners)).value), a, n, price, winners);
    }
  }

  lemma NotRefused(k: Setup, t: int -> Terms, s: State, a: int, n: nat, price: int, winners: set<int>)
    requires k.p > 0 && a in s.house.rooms
    ensures !Step(k, t, s, DoSettle(a, n, price, winners)).Refused?
  {
  }

  /**
   * Ending a round whose auction is not yet settled stops the program exactly when enough bids are revealed to settle
   * while some bid is still unrevealed; with nothing pending, house and clients all go through.
   */
  lemma ClosingStops(k: Setup, t: int -> Terms, w: World, a: int, n: nat, price: int, winners: set<int>)
    requires Lawful(k) && k.p > 0 && Fair(t) && Sound(k, w.ledger) && Shadows(w) && ClientsAgree(k, w)
    requires Proper(k, w.ledger, DoSettle(a, n, price, winners))
    ensures CloseRound(k, t, w, a, n, price, winners).Stopped? <==> |RevealedIn(w, a)| > n && PendingReveals(w, a) != map[]
    ensures CloseRound(k, t, w, a, n, price, winners).Accepted? <==> |RevealedIn(w, a)| <= n || PendingReveals(w, a) == map[]
  {
    hide Lawful, Fair, Sound, Step, Proper, ClientsAgree, Shadows, PendingReveals, Finalized, AllConfirm;
    if |RevealedIn(w, a)| > n {
      SettlingStops(k, t, w, a, n, price, winners);
      SomethingRevealed(w, a);
      NotRefused(k, t, w.ledger, a, n, price, winners);
      if PendingReveals(w, a) == map[] {
        RoundConfirms(k, t, w, a, n, price, winners);
        SameConfirmations(k, w, w.(ledger := Step(k, t, w.ledger, DoSettle(a, n, price, winners)).value), a, price, winners);
      }
    }
  }

  lemma SameConfirmations(k: Setup, w: World, w': World, a: int, price: int, winners: set<int>)
    requires k.p > 0 && w'.bidIndex == w.bidIndex && w'.privates == w.privates
    ensures AllConfirm(k, w', a, price, winners) == AllConfirm(k, w, a, price, winners)
  {
  }

  // ------------------------------------------------------------ what clients hold

  /**
   * A forced opening can be prepared exactly for an active bid, and works on the commitment, the amount and the number
   * that the house has for it.
   */
  lemma PreparedIsHouses(k: Setup, w: World, a: int, u: int)
    requires k.p > 0 && Sound(k, w.ledger) && Shadows(w) && ClientsAgree(k, w)
    ensures var job := Prepare(w, a, u);
      && (job.Some? <==> Active(w.ledger, u, a))
      && (job.Some? ==>
            && job.value.comm == HouseComm(w.ledger, u, a)
            && job.value.stored == HouseComm(w.ledger, u, a).ped.value
            && job.value.id == Rooms(w)[a].bids[u])
  {
    hide Sound, Shadows, Summed;
    ShadowedBidder(w, a, u);
    AgreeAt(k, w, u);
    if Active(w.ledger, u, a) {
      BidderHasAccount(k, w.ledger, a, u);
    }
  }

  /** The amount held back for a client's active bids. */
  ghost function Frozen(w: World, u: int): int
    requires w.ledger.house.ctrAuction >= 0
  {
    if u in w.privates then SumTo((a: int) => BidIn(w.privates[u], a), w.ledger.house.ctrAuction) else 0
  }

  /** What the server shows of an account: the house's balance, of which exactly the committed bids are frozen. */
  lemma BalancesShown(k: Setup, w: World, u: int)
    requires k.p > 0 && Sound(k, w.ledger) && ClientsAgree(k, w) && u in w.ledger.house.accounts
    ensures w.ledger.house.ctrAuction >= 0 && u in w.privates
    ensures w.privates[u].balance == w.ledger.house.accounts[u].balance
    ensures Frozen(w, u) == w.privates[u].sum == Committed(w.ledger, u) <= w.privates[u].balance
    ensures forall a :: a in w.privates[u].bids ==> 0 <= a < w.ledger.house.ctrAuction
  {
    AgreeAt(k, w, u);
    MirroredAccount(k, w.ledger, u, w.privates[u]);
    BidsAreNumbered(k, w.ledger, u, w.privates[u]);
  }

  lemma BidsAreNumbered(k: Setup, s: State, u: int, c: Private)
    requires k.p > 0 && Sound(k, s) && Mirrors(k, s, u, c)
    ensures forall a :: a in c.bids ==> 0 <= a < s.house.ctrAuction
  {
    forall a | a in c.bids ensures 0 <= a < s.house.ctrAuction {
      AuctionInRange(k, s, a);
    }
  }
}
