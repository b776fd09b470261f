/** The client's private mirror of its account (auction_house/src/house.rs, AccountPrivateState) and its agreement with the house. */
module Clients {
  import opened Arithmetic
  import opened Outcomes
  import opened Sums
  import opened Ledger
  import opened LedgerSafety
  import Settlement

  datatype ActiveBid = ActiveBid(bid: int, opening: int, comm: Comm)

  datatype Private = Private(balance: int, active: Ped, bids: map<int, ActiveBid>, sum: int, opening: int)

  /** A change of the private state: stopped by arithmetic, an error, or the new state. */
  type Change = Reply<Private>

  function Fresh(): Private
  {
    Private(0, Ped(0, 0), map[], 0, 0)
  }

  /** The Pedersen commitment to a value under a blinding. */
  function Commit(k: Setup, value: int, blinding: int): Ped
    requires k.p > 0
  {
    Ped(value % k.p, blinding % k.p)
  }

  /** Addition in the scalar field. */
  function Scalar(k: Setup, x: int): int
    requires k.p > 0
  {
    x % k.p
  }

  // ------------------------------------------------------------ proposals

  /** What the client offers with a bid: the statement it proves of the remaining balance, by value and blinding. */
  datatype Proposal = Proposal(comm: Comm, left: Ped, leftOpening: Ped)

  /** The client proves knowledge of `leftOpening`, an integer value and a blinding, for the commitment `left`. */
  function ProposeBid(k: Setup, t: Terms, c: Private, bid: int, r: int, puzzle: int): Reply<Proposal>
    requires k.p > 0
  {
    if c.sum + bid + t.selfOpen + t.forceOpen >= WORD then Stopped
    else if c.sum + bid + t.selfOpen + t.forceOpen > c.balance then Refused
    else
      var left := c.balance - t.selfOpen - t.forceOpen;
      Accepted(Proposal(Comm(Commit(k, bid, r), puzzle),
                        BidRemainder(k, left, Commit(k, bid, r), c.active),
                        Ped(left - bid - c.sum, Scalar(k, 0 - r - c.opening))))
  }

  function ProposeWithdrawal(k: Setup, c: Private, amt: int): Reply<(Ped, Ped)>
    requires k.p > 0
  {
    if c.balance < amt then Stopped
    else if c.sum > c.balance - amt then Refused
    else Accepted((Remainder(k, c.balance - amt, c.active), Ped(c.balance - amt - c.sum, Scalar(k, 0 - c.opening))))
  }

  // --------------------------------------------------------- confirmations

  function ConfirmCredit(c: Private, amount: int): Change
  {
    if c.balance + amount >= WORD then Stopped else Accepted(c.(balance := c.balance + amount))
  }

  function ConfirmWithdrawal(c: Private, amt: int): Change
  {
    if c.balance < amt then Stopped else Accepted(c.(balance := c.balance - amt))
  }

  function ConfirmBid(k: Setup, t: Terms, c: Private, a: int, bid: int, opening: int, comm: Comm): Change
    requires k.p > 0
  {
    if c.balance < t.selfOpen + t.forceOpen || c.sum + bid >= WORD then Stopped
    else
      Accepted(Private(c.balance - (t.selfOpen + t.forceOpen), Plus(k, c.active, comm.ped),
                       c.bids[a := ActiveBid(bid, opening, comm)], c.sum + bid, Scalar(k, c.opening + opening)))
  }

  function ConfirmLoss(k: Setup, c: Private, a: int): Change
    requires k.p > 0
  {
    if a !in c.bids then Refused
    else if c.sum < c.bids[a].bid then Stopped
    else
      Accepted(Private(c.balance, Minus(k, c.active, c.bids[a].comm.ped), c.bids - {a},
                       c.sum - c.bids[a].bid, Scalar(k, c.opening - c.bids[a].opening)))
  }

  function ConfirmWin(k: Setup, c: Private, a: int, price: int): Change
    requires k.p > 0
  {
    if a !in c.bids then Refused
    else if c.balance < price then Stopped
    else ConfirmLoss(k, c.(balance := c.balance - price), a)
  }

  /** The confirmation with which client `u` follows an operation the house has accepted. */
  function React(k: Setup, t: int -> Terms, h: House, op: Op, u: int, c: Private): Change
    requires k.p > 0
  {
    match op
    case DoDeposit(v, amt) => if v == u then ConfirmCredit(c, amt) else Accepted(c)
    case DoWithdraw(v, amt, _) => if v == u then ConfirmWithdrawal(c, amt) else Accepted(c)
    case DoBid(a, v, comm, _, _) =>
      if v == u then ConfirmBid(k, t(a), c, a, comm.ped.value, comm.ped.blinding, comm) else Accepted(c)
    case DoSelfOpen(a, v, _, _) => if v == u then ConfirmCredit(c, t(a).selfOpen + t(a).forceOpen) else Accepted(c)
    case DoForceOpen(a, v, _, _, _) => if v == u then ConfirmCredit(c, t(a).forceOpen) else Accepted(c)
    case DoSettle(a, _, price, winners) =>
      if u in winners then ConfirmWin(k, c, a, price)
      else if a in h.rooms && u in h.rooms[a].bids then ConfirmLoss(k, c, a)
      else Accepted(c)
    case _ => Accepted(c)
  }

  // ------------------------------------------------------ the mirror relation

  predicate Active(s: State, u: int, a: int)
  {
    a in s.house.rooms && u in s.house.rooms[a].bids && !(a in s.books.released && u in s.books.released[a])
      && s.house.rooms[a].bids[u] in s.house.rooms[a].auction.comms
  }

  function HouseComm(s: State, u: int, a: int): Comm
    requires Active(s, u, a)
  {
    s.house.rooms[a].auction.comms[s.house.rooms[a].bids[u]]
  }

  function BidIn(c: Private, a: int): int
  {
    if a in c.bids then c.bids[a].bid else 0
  }

  function OpeningIn(c: Private, a: int): int
  {
    if a in c.bids then c.bids[a].opening else 0
  }

  /** The client's active bids are its unsettled bids at the house, with their values and openings. */
  ghost predicate SameBids(s: State, u: int, c: Private)
  {
    && (forall a :: a in c.bids <==> Active(s, u, a))
    && (forall a :: a in c.bids ==> c.bids[a] == ActiveBid(HouseComm(s, u, a).ped.value, HouseComm(s, u, a).ped.blinding, HouseComm(s, u, a)))
  }

  /** Both running sums are taken over the active bids, and the hidden total commits to them. */
  ghost predicate Summed(k: Setup, c: Private, n: int)
    requires k.p > 0 && n >= 0
  {
    && c.sum == SumTo((a: int) => BidIn(c, a), n)
    && c.opening == Scalar(k, SumTo((a: int) => OpeningIn(c, a), n))
    && c.active == Commit(k, c.sum, c.opening)
  }

  ghost predicate Mirrors(k: Setup, s: State, u: int, c: Private)
    requires k.p > 0
  {
    && u in s.house.accounts && s.house.ctrAuction >= 0
    && s.house.accounts[u] == Account(c.balance, c.active)
    && SameBids(s, u, c)
    && Summed(k, c, s.house.ctrAuction)
  }

  /** The client's sum is the sum the house's hidden total stands for. */
  lemma MirrorSum(k: Setup, s: State, u: int, c: Private)
    requires k.p > 0 && Mirrors(k, s, u, c)
    ensures c.sum == Committed(s, u)
  {
    forall a ensures BidIn(c, a) == Owed(s, u, a) {
    }
    SumSame((a: int) => BidIn(c, a), (a: int) => Owed(s, u, a), s.house.ctrAuction);
  }

  // --------------------------------------------- honest proposals meet the checks

  lemma MinusResidue(x: int, y: int, p: int)
    requires p > 0
    ensures (x % p - y % p) % p == (x % p - y) % p == (x - y) % p
  {
    CongMod(x, p);
    CongMod(y, p);
    CongAdd(x % p, x, y % p, y, p);
    CongAdd(x % p, x, y, y, p);
  }

  lemma PlusResidue(x: int, y: int, p: int)
    requires p > 0
    ensures (x % p + y % p) % p == (x % p + y) % p == (x + y) % p
  {
    CongMod(x, p);
    CongMod(y, p);
    CongAdd(x % p, x, y % p, y, p);
    CongAdd(x % p, x, y, y, p);
  }

  /** Commitments add and subtract like what they commit to. */
  lemma Homomorphic(k: Setup, v: int, r: int, w: int, q: int)
    requires k.p > 0
    ensures Minus(k, Commit(k, v, r), Commit(k, w, q)) == Commit(k, v - w, r - q)
    ensures Plus(k, Commit(k, v, r), Commit(k, w, q)) == Commit(k, v + w, r + q)
    ensures Commit(k, v, Scalar(k, r)) == Commit(k, v, r)
    ensures Ped(v % k.p, 0) == Commit(k, v, 0)
  {
    MinusResidue(v, w, k.p);
    MinusResidue(r, q, k.p);
    PlusResidue(v, w, k.p);
    PlusResidue(r, q, k.p);
    MinusResidue(r, 0, k.p);
    DivModUnique(0, 0, k.p, 0);
  }

  lemma BidStatement(k: Setup, left: int, bid: int, r: int, sum: int, opening: int)
    requires k.p > 0
    ensures BidRemainder(k, left, Commit(k, bid, r), Commit(k, sum, opening)) == Commit(k, left - bid - sum, 0 - r - opening)
  {
    hide Commit, Minus;
    Homomorphic(k, left, 0, bid, r);
    Homomorphic(k, left - bid, 0 - r, sum, opening);
  }

  lemma WithdrawalStatement(k: Setup, left: int, sum: int, opening: int)
    requires k.p > 0
    ensures Remainder(k, left, Commit(k, sum, opening)) == Commit(k, left - sum, 0 - opening)
  {
    hide Commit, Minus;
    Homomorphic(k, left, 0, sum, opening);
  }

  /** A range proof can be made for every small value whose commitment one can open. */
  ghost predicate Complete(k: Setup, prove: Ped -> int)
    requires k.p > 0
  {
    forall opening: Ped :: Small(opening.value) ==> k.verifies(Commit(k, opening.value, opening.blinding), prove(opening))
  }

  lemma Proved(k: Setup, prove: Ped -> int, opening: Ped)
    requires k.p > 0 && Complete(k, prove) && Small(opening.value)
    ensures k.verifies(Commit(k, opening.value, opening.blinding), prove(opening))
  {
  }

  /** What the mirror relation says of the account. */
  lemma MirroredAccount(k: Setup, s: State, u: int, c: Private)
    requires k.p > 0 && Sound(k, s) && Mirrors(k, s, u, c)
    ensures u in s.house.accounts && s.house.accounts[u] == Account(c.balance, c.active)
    ensures c.active == Commit(k, c.sum, c.opening)
    ensures s.house.ctrAuction >= 0 && c.sum == Committed(s, u) && 0 <= c.sum <= c.balance < WORD
  {
    MirrorSum(k, s, u, c);
    SolventAt(k, s, u);
  }

  /**
   * Whatever bid an honest client proposes, the opening it proves its statement with is an opening of the
   * very commitment the house computes, and the client proposes exactly when the house's inequality holds.
   */
  lemma BidProposalMeetsHouse(k: Setup, t: Terms, s: State, u: int, c: Private, bid: int, r: int, puzzle: int)
    requires k.p > 0 && Sound(k, s) && Mirrors(k, s, u, c) && u in s.house.accounts
    requires Small(bid) && 0 <= t.selfOpen && 0 <= t.forceOpen
    ensures s.house.ctrAuction >= 0
    ensures var reply := ProposeBid(k, t, c, bid, r, puzzle);
      && (reply.Accepted? <==> Committed(s, u) + bid + t.selfOpen + t.forceOpen <= s.house.accounts[u].balance)
      && (reply.Accepted? ==>
            var q := reply.value;
            && q.comm.ped == Commit(k, bid, r)
            && q.left == BidRemainder(k, s.house.accounts[u].balance - t.selfOpen - t.forceOpen, q.comm.ped, s.house.accounts[u].active)
            && q.left == Commit(k, q.leftOpening.value, q.leftOpening.blinding)
            && Small(q.leftOpening.value))
  {
    hide Sound, Committed, BidRemainder, Commit, Scalar, Mirrors;
    MirroredAccount(k, s, u, c);
    SolventAt(k, s, u);
    var left := c.balance - t.selfOpen - t.forceOpen;
    BidStatement(k, left, bid, r, c.sum, c.opening);
    Homomorphic(k, left - bid - c.sum, 0 - r - c.opening, 0, 0);
  }

  /** The house accepts every honest bid, from a client that has none in this auction, unless the commitment repeats one. */
  lemma HonestBidAccepted(k: Setup, t: Terms, s: State, u: int, c: Private, a: int, bid: int, r: int, puzzle: int, prove: Ped -> int)
    requires k.p > 0 && Sound(k, s) && Mirrors(k, s, u, c) && u in s.house.accounts && Complete(k, prove)
    requires Small(bid) && 0 <= t.selfOpen && 0 <= t.forceOpen && a in s.house.rooms && u !in s.house.rooms[a].bids
    requires ProposeBid(k, t, c, bid, r, puzzle).Accepted?
    ensures var q := ProposeBid(k, t, c, bid, r, puzzle).value;
      Bid(k, t, s.house, a, u, q.comm, prove(Ped(bid, r)), prove(q.leftOpening)).Accepted? <==> q.comm !in s.house.rooms[a].auction.known
  {
    hide Sound, Committed, BidRemainder, Commit, Scalar, Mirrors, Complete, Plus;
    MirroredAccount(k, s, u, c);
    BidProposalMeetsHouse(k, t, s, u, c, bid, r, puzzle);
    var q := ProposeBid(k, t, c, bid, r, puzzle).value;
    Proved(k, prove, Ped(bid, r));
    Proved(k, prove, q.leftOpening);
  }

  /** The same for withdrawals: the client proposes, and the house then accepts, exactly what the balance above active bids covers. */
  lemma HonestWithdrawal(k: Setup, s: State, u: int, c: Private, amt: nat, prove: Ped -> int)
    requires k.p > 0 && Sound(k, s) && Mirrors(k, s, u, c) && u in s.house.accounts && Complete(k, prove)
    ensures s.house.ctrAuction >= 0
    ensures var reply := ProposeWithdrawal(k, c, amt);
      && (reply.Accepted? <==> Committed(s, u) + amt <= s.house.accounts[u].balance)
      && (reply.Accepted? ==> Withdraw(k, s.house, u, amt, prove(reply.value.1)).Accepted?)
  {
    hide Sound, Committed, Remainder, Commit, Scalar, Mirrors, Complete;
    MirroredAccount(k, s, u, c);
    var left := c.balance - amt;
    WithdrawalStatement(k, left, c.sum, c.opening);
    Homomorphic(k, left - c.sum, 0 - c.opening, 0, 0);
    if c.sum <= left {
      Proved(k, prove, Ped(left - c.sum, Scalar(k, 0 - c.opening)));
    }
  }

  // ----------------------------------------------- the mirror is kept by every step

  /** The two states show `u` the same active bids. */
  ghost predicate SameView(s: State, s': State, u: int)
  {
    forall a :: Active(s, u, a) == Active(s', u, a) && (Active(s, u, a) ==> HouseComm(s, u, a) == HouseComm(s', u, a))
  }

  lemma MirrorFrame(k: Setup, s: State, s': State, u: int, c: Private, balance: int)
    requires k.p > 0 && Mirrors(k, s, u, c) && SameView(s, s', u)
    requires s'.house.ctrAuction == s.house.ctrAuction && u in s'.house.accounts
    requires s'.house.accounts[u] == Account(balance, c.active)
    ensures Mirrors(k, s', u, c.(balance := balance))
  {
    var c' := c.(balance := balance);
    hide Active, HouseComm;
    SumSame((a: int) => BidIn(c, a), (a: int) => BidIn(c', a), s.house.ctrAuction);
    SumSame((a: int) => OpeningIn(c, a), (a: int) => OpeningIn(c', a), s.house.ctrAuction);
  }

  lemma MirrorNewAuction(k: Setup, s: State, s': State, u: int, c: Private)
    requires k.p > 0 && Sound(k, s) && Mirrors(k, s, u, c) && NewAuction(s.house) == Accepted(s'.house) && s'.books == s.books
    ensures Mirrors(k, s', u, c)
  {
    hide Sound, Summed;
    ShapedAt(k, s);
    NewAuctionView(k, s, s', u);
    NotActive(s, u, s.house.ctrAuction);
    SummedMore(k, c, s.house.ctrAuction);
  }

  lemma NewAuctionView(k: Setup, s: State, s': State, u: int)
    requires k.p > 0 && Shaped(s.house) && NewAuction(s.house) == Accepted(s'.house) && s'.books == s.books
    ensures SameView(s, s', u)
  {
    hide Indexed;
  }

  lemma NotActive(s: State, u: int, n: int)
    requires Shaped(s.house) && n == s.house.ctrAuction
    ensures !Active(s, u, n)
  {
    hide Indexed;
  }

  lemma SummedMore(k: Setup, c: Private, n: int)
    requires k.p > 0 && n >= 0 && n !in c.bids && Summed(k, c, n)
    ensures Summed(k, c, n + 1)
  {
    assert BidIn(c, n) == OpeningIn(c, n) == 0;
  }

  /** Adding or dropping one active bid moves both sums and the commitment together. */
  lemma SummedChange(k: Setup, c: Private, c': Private, n: int, a: int, bid: int, opening: int)
    requires k.p > 0 && 0 <= a < n && Summed(k, c, n)
    requires forall b :: b != a ==> BidIn(c', b) == BidIn(c, b) && OpeningIn(c', b) == OpeningIn(c, b)
    requires BidIn(c', a) - BidIn(c, a) == bid && OpeningIn(c', a) - OpeningIn(c, a) == opening
    requires c'.sum == c.sum + bid && c'.opening == Scalar(k, c.opening + opening)
    requires c'.active == Commit(k, c.sum + bid, c.opening + opening)
    ensures Summed(k, c', n)
  {
    hide BidIn, OpeningIn, Commit, Scalar;
    SumChange((b: int) => BidIn(c, b), (b: int) => BidIn(c', b), n, a);
    SumChange((b: int) => OpeningIn(c, b), (b: int) => OpeningIn(c', b), n, a);
    var total := SumTo((b: int) => OpeningIn(c, b), n);
    ScalarTwice(k, total, opening);
    Homomorphic(k, c.sum + bid, c.opening + opening, 0, 0);
  }

  lemma ScalarTwice(k: Setup, x: int, y: int)
    requires k.p > 0
    ensures Scalar(k, Scalar(k, x) + y) == Scalar(k, x + y)
  {
    PlusResidue(x, y, k.p);
  }

  /** A group element commits to its own coordinates. */
  lemma CanonicalCommit(k: Setup, c: Ped)
    requires k.p > 0 && Canonical(k, c)
    ensures c == Commit(k, c.value, c.blinding)
  {
    DivModUnique(c.value, 0, k.p, c.value);
    DivModUnique(c.blinding, 0, k.p, c.blinding);
  }

  lemma BidConfirmed(k: Setup, t: Terms, c: Private, a: int, comm: Comm, n: int)
    requires k.p > 0 && 0 <= a < n && Summed(k, c, n) && a !in c.bids && Canonical(k, comm.ped)
    requires ConfirmBid(k, t, c, a, comm.ped.value, comm.ped.blinding, comm).Accepted?
    ensures Summed(k, ConfirmBid(k, t, c, a, comm.ped.value, comm.ped.blinding, comm).value, n)
  {
    hide Plus, Commit, Scalar;
    var c' := ConfirmBid(k, t, c, a, comm.ped.value, comm.ped.blinding, comm).value;
    CanonicalCommit(k, comm.ped);
    Homomorphic(k, c.sum, c.opening, comm.ped.value, comm.ped.blinding);
    SummedChange(k, c, c', n, a, comm.ped.value, comm.ped.blinding);
  }

  lemma LossConfirmed(k: Setup, c: Private, a: int, n: int)
    requires k.p > 0 && 0 <= a < n && Summed(k, c, n) && a in c.bids
    requires Canonical(k, c.bids[a].comm.ped)
    requires c.bids[a] == ActiveBid(c.bids[a].comm.ped.value, c.bids[a].comm.ped.blinding, c.bids[a].comm)
    requires ConfirmLoss(k, c, a).Accepted?
    ensures Summed(k, ConfirmLoss(k, c, a).value, n)
  {
    hide Minus, Commit, Scalar;
    var c' := ConfirmLoss(k, c, a).value;
    var ped := c.bids[a].comm.ped;
    CanonicalCommit(k, ped);
    Homomorphic(k, c.sum, c.opening, ped.value, ped.blinding);
    SummedChange(k, c, c', n, a, 0 - ped.value, 0 - ped.blinding);
  }

  lemma MirrorBid(k: Setup, t: Terms, s: State, s': State, u: int, c: Private, a: int, comm: Comm, bp: int, lp: int)
    requires Lawful(k) && k.p > 0 && Sound(k, s) && Mirrors(k, s, u, c) && Canonical(k, comm.ped)
    requires 0 <= t.selfOpen && 0 <= t.forceOpen
    requires Bid(k, t, s.house, a, u, comm, bp, lp) == Accepted(s'.house) && s'.books == s.books
    ensures var r := ConfirmBid(k, t, c, a, comm.ped.value, comm.ped.blinding, comm); r.Accepted? && Mirrors(k, s', u, r.value)
  {
    hide Sound, Lawful, Summed, Plus, Commit, Scalar, BidRemainder, Bid, Committed, Shaped;
    MirroredAccount(k, s, u, c);
    BidUnfolds(k, t, s.house, a, u, comm, bp, lp);
    AcceptedBidFits(k, t, s, a, u, comm, bp, lp);
    AuctionInRange(k, s, a);
    OwnBidView(k, s, s', u, a, comm);
    assert a !in c.bids;
    BidConfirmed(k, t, c, a, comm, s.house.ctrAuction);
  }

  /** After an accepted bid the bidder sees one more active bid, everybody else what they saw before. */
  lemma OwnBidView(k: Setup, s: State, s': State, u: int, a: int, comm: Comm)
    requires k.p > 0 && Sound(k, s) && a in s.house.rooms && u in s.house.accounts && u !in s.house.rooms[a].bids && s'.books == s.books
    requires AcceptBid(s.house.rooms[a].auction, comm).Accepted?
    requires var (x, id) := AcceptBid(s.house.rooms[a].auction, comm).value;
      s'.house.rooms == s.house.rooms[a := Room(x, s.house.rooms[a].bids[u := id % WORD])]
    ensures Active(s', u, a) && HouseComm(s', u, a) == comm
    ensures forall b :: b != a ==> Active(s, u, b) == Active(s', u, b) && (Active(s, u, b) ==> HouseComm(s, u, b) == HouseComm(s', u, b))
    ensures !Active(s, u, a)
    ensures forall v :: v != u ==> SameView(s, s', v)
  {
    hide Sound, Active, HouseComm, SameView;
    RoomAt(k, s, a);
    AccountAt(k, s, u);
    if a in s.books.released {
      ReleasedAt(k, s, a);
    }
    AcceptKeepsIndex(s.house.rooms[a], s'.house.rooms[a], comm, u, s.house.ctrAccount);
    assert s'.house.rooms[a] == WithBid(s.house.rooms[a], u, comm);
    hide AcceptBid, Indexed;
    NewBidView(s, s', u, a, comm);
  }

  lemma NewBidView(s: State, s': State, u: int, a: int, comm: Comm)
    requires a in s.house.rooms && u !in s.house.rooms[a].bids && s'.books == s.books
    requires a in s.books.released ==> u !in s.books.released[a]
    requires |s.house.rooms[a].bids| !in s.house.rooms[a].auction.comms
    requires s'.house.rooms == s.house.rooms[a := WithBid(s.house.rooms[a], u, comm)]
    requires forall v :: v in s.house.rooms[a].bids ==> s.house.rooms[a].bids[v] in s.house.rooms[a].auction.comms
    ensures Active(s', u, a) && HouseComm(s', u, a) == comm
    ensures forall b :: b != a ==> Active(s, u, b) == Active(s', u, b) && (Active(s, u, b) ==> HouseComm(s, u, b) == HouseComm(s', u, b))
    ensures !Active(s, u, a)
    ensures forall v :: v != u ==> SameView(s, s', v)
  {
  }

  /** A settlement takes exactly one active bid from each bidder of the auction. */
  lemma SettledView(s: State, s': State, a: int, u: int)
    requires a in s.house.rooms && s'.house.rooms == s.house.rooms && a !in s.books.released
    requires s'.books.released == s.books.released[a := s.house.rooms[a].bids.Keys]
    ensures !Active(s', u, a)
    ensures forall b :: b != a ==> Active(s, u, b) == Active(s', u, b) && (Active(s, u, b) ==> HouseComm(s, u, b) == HouseComm(s', u, b))
    ensures u !in s.house.rooms[a].bids ==> SameView(s, s', u)
  {
  }

  lemma MirrorSettle(k: Setup, t: int -> Terms, s: State, s': State, u: int, c: Private, a: int, n: nat, price: int, winners: set<int>)
    requires Lawful(k) && k.p > 0 && Sound(k, s) && Mirrors(k, s, u, c) && a !in s.books.released
    requires a in s.house.rooms && AllOpened(s.house.rooms[a])
    requires Settlement.Admissible(OpenedBids(s.house.rooms[a]), n, price, winners)
    requires Settle(k, s.house, a, n, price, winners) == Accepted(s'.house)
    requires s'.books.released == s.books.released[a := s.house.rooms[a].bids.Keys]
    ensures var r := React(k, t, s.house, DoSettle(a, n, price, winners), u, c); r.Accepted? && Mirrors(k, s', u, r.value)
  {
    hide Sound, Lawful, Summed, Minus, Commit, Scalar, Settlement.Admissible, AllOpened, OpenedBids, Committed, Owed, Active, Mirrors,
      ConfirmLoss;
    MirroredAccount(k, s, u, c);
    SaleChargeable(k, s, a, n, price, winners);
    SettledView(s, s', a, u);
    WinnersBid(s, a, n, price, winners, u);
    if u in s.house.rooms[a].bids {
      SeenBid(k, s, a, u);
      MirrorReleased(k, s, s', u, c, a, if u in winners then price else 0);
      assert c == c.(balance := c.balance - 0);
    } else {
      MirrorFrame(k, s, s', u, c, c.balance);
      assert c == c.(balance := c.balance);
    }
  }

  /** A bidder of the settled auction drops its bid after paying `paid`. */
  lemma MirrorReleased(k: Setup, s: State, s': State, u: int, c: Private, a: int, paid: int)
    requires k.p > 0 && Sound(k, s) && Mirrors(k, s, u, c) && a in s.house.rooms && u in s.house.rooms[a].bids && a !in s.books.released
    requires s'.house.ctrAuction == s.house.ctrAuction && u in s.house.accounts && u in s'.house.accounts
    requires s.house.rooms[a].bids[u] in s.house.rooms[a].auction.comms
    requires s'.house.accounts[u] == Account(c.balance - paid, Minus(k, c.active, s.house.rooms[a].auction.comms[s.house.rooms[a].bids[u]].ped))
    requires !Active(s', u, a)
    requires forall b :: b != a ==> Active(s, u, b) == Active(s', u, b) && (Active(s, u, b) ==> HouseComm(s, u, b) == HouseComm(s', u, b))
    ensures a in c.bids
    ensures var r := ConfirmLoss(k, c.(balance := c.balance - paid), a); r.Accepted? && Mirrors(k, s', u, r.value)
  {
    RoomAt(k, s, a);
    ActiveBidder(s, a, u);
    AuctionInRange(k, s, a);
    MoreThanOwn(k, s, u, c, a);
    hide Indexed, Sound, Summed, Minus, Commit, Scalar, Committed, Owed, Active;
    BoundAt(k, s.house.rooms[a].auction, s.house.rooms[a].bids[u]);
    var after := c.(balance := c.balance - paid);
    SummedSame(k, c, after, s.house.ctrAuction);
    LossConfirmed(k, after, a, s.house.ctrAuction);
  }

  lemma WinnersBid(s: State, a: int, n: nat, price: int, winners: set<int>, u: int)
    requires a in s.house.rooms && AllOpened(s.house.rooms[a])
    requires Settlement.Admissible(OpenedBids(s.house.rooms[a]), n, price, winners)
    ensures u in winners ==> u in s.house.rooms[a].bids
  {
    Settlement.WinnersPayLosersDont(OpenedBids(s.house.rooms[a]), n, price, winners);
  }

  lemma ActiveBidder(s: State, a: int, u: int)
    requires a in s.house.rooms && u in s.house.rooms[a].bids && a !in s.books.released
    requires s.house.rooms[a].bids[u] in s.house.rooms[a].auction.comms
    ensures Active(s, u, a) && HouseComm(s, u, a) == s.house.rooms[a].auction.comms[s.house.rooms[a].bids[u]]
  {
  }

  lemma SummedSame(k: Setup, c: Private, c': Private, n: int)
    requires k.p > 0 && n >= 0 && Summed(k, c, n) && c' == c.(balance := c'.balance)
    ensures Summed(k, c', n)
  {
    SumSame((b: int) => BidIn(c, b), (b: int) => BidIn(c', b), n);
    SumSame((b: int) => OpeningIn(c, b), (b: int) => OpeningIn(c', b), n);
  }

  lemma MoreThanOwn(k: Setup, s: State, u: int, c: Private, a: int)
    requires k.p > 0 && Sound(k, s) && Mirrors(k, s, u, c) && Active(s, u, a)
    ensures a in c.bids && 0 <= c.bids[a].bid <= c.sum
  {
    MirrorSum(k, s, u, c);
    AuctionInRange(k, s, a);
    OwedBelowCommitted(k, s, u, a);
    assert c.bids[a].bid == Owed(s, u, a);
  }

  /** Operations that only move the account's balance, or touch other accounts, leave the view of the bids as it is. */
  lemma OpeningView(s: State, s': State, a: int, x: Auction, u: int)
    requires a in s.house.rooms && s'.books.released == s.books.released
    requires s'.house.rooms == s.house.rooms[a := s.house.rooms[a].(auction := x)] && x.comms == s.house.rooms[a].auction.comms
    ensures SameView(s, s', u)
  {
  }

  lemma MirrorOpening(k: Setup, s: State, s': State, u: int, c: Private, a: int, v: int, id: int, bid: Option<int>, o: int, reward: int)
    requires Lawful(k) && k.p > 0 && Sound(k, s) && Mirrors(k, s, u, c) && a in s.house.rooms && v in s.house.accounts
    requires AcceptOpening(k, s.house.rooms[a].auction, id, bid, o).Accepted?
    requires Reward(s.house, a, v, AcceptOpening(k, s.house.rooms[a].auction, id, bid, o).value, reward) == Accepted(s'.house)
    requires s'.books.released == s.books.released
    ensures v == u ==> ConfirmCredit(c, reward).Accepted? && Mirrors(k, s', u, ConfirmCredit(c, reward).value)
    ensures v != u ==> Mirrors(k, s', u, c)
  {
    hide Sound, Lawful, Summed, SameBids, AcceptOpening;
    MirroredAccount(k, s, u, c);
    AcceptedOpeningBinds(k, s, a, id, bid, o);
    OpeningView(s, s', a, AcceptOpening(k, s.house.rooms[a].auction, id, bid, o).value, u);
    MirrorFrame(k, s, s', u, c, if v == u then c.balance + reward else c.balance);
  }

  /** Every accepted operation can be confirmed, and the confirmation restores the mirror. */
  lemma StepKeepsMirror(k: Setup, t: int -> Terms, s: State, op: Op, u: int, c: Private)
    requires Lawful(k) && k.p > 0 && Fair(t) && Sound(k, s) && Mirrors(k, s, u, c)
    requires Proper(k, s, op) && Step(k, t, s, op).Accepted?
    ensures React(k, t, s.house, op, u, c).Accepted?
    ensures Mirrors(k, Step(k, t, s, op).value, u, React(k, t, s.house, op, u, c).value)
  {
    hide Sound, Lawful, Mirrors, NewAuction, Bid, AcceptOpening, Reward, Remainder, AllOpened, OpenedBids, Settlement.Admissible,
      ConfirmBid, ConfirmLoss, ConfirmWin, SameView;
    var s' := Step(k, t, s, op).value;
    assert Perform(k, t, s.house, op) == Accepted(s'.house);
    match op
    case DoNewAccount =>
      OldAccount(k, s, u, c);
      SameRooms(s, s', u);
      MirrorFrame(k, s, s', u, c, c.balance);
    case DoNewAuction => MirrorNewAuction(k, s, s', u, c);
    case DoDeposit(v, amt) => MirrorTransfer(k, s, s', u, c, v, amt);
    case DoWithdraw(v, amt, _) => MirrorTransfer(k, s, s', u, c, v, 0 - amt);
    case DoBid(a, v, comm, bp, lp) =>
      if v == u {
        MirrorBid(k, t(a), s, s', u, c, a, comm, bp, lp);
      } else {
        MirrorOtherBid(k, t(a), s, s', u, c, a, v, comm, bp, lp);
      }
    case DoSelfOpen(a, v, bid, o) =>
      MirrorOpening(k, s, s', u, c, a, v, s.house.rooms[a].bids[v], Some(bid), o, t(a).selfOpen + t(a).forceOpen);
    case DoForceOpen(a, v, id, bid, o) => MirrorOpening(k, s, s', u, c, a, v, id, bid, o, t(a).forceOpen);
    case DoSettle(a, n, price, winners) => MirrorSettle(k, t, s, s', u, c, a, n, price, winners);
  }

  lemma SameRooms(s: State, s': State, u: int)
    requires s'.house.rooms == s.house.rooms && s'.books.released == s.books.released
    ensures SameView(s, s', u)
  {
  }

  lemma OldAccount(k: Setup, s: State, u: int, c: Private)
    requires k.p > 0 && Sound(k, s) && Mirrors(k, s, u, c)
    ensures u in s.house.accounts && u != s.house.ctrAccount && s.house.accounts[u] == Account(c.balance, c.active)
  {
  }

  lemma MirrorTransfer(k: Setup, s: State, s': State, u: int, c: Private, v: int, change: int)
    requires k.p > 0 && Sound(k, s) && Mirrors(k, s, u, c) && v in s.house.accounts
    requires s'.house == WithBalance(s.house, v, s.house.accounts[v].balance + change)
    requires s'.books.released == s.books.released
    ensures v == u ==> Mirrors(k, s', u, c.(balance := c.balance + change)) && s'.house.accounts[u].balance == c.balance + change
    ensures v != u ==> Mirrors(k, s', u, c)
  {
    OldAccount(k, s, u, c);
    SameRooms(s, s', u);
    MirrorFrame(k, s, s', u, c, if v == u then c.balance + change else c.balance);
  }

  lemma MirrorOtherBid(k: Setup, t: Terms, s: State, s': State, u: int, c: Private, a: int, v: int, comm: Comm, bp: int, lp: int)
    requires k.p > 0 && Sound(k, s) && Mirrors(k, s, u, c) && v != u
    requires Bid(k, t, s.house, a, v, comm, bp, lp) == Accepted(s'.house) && s'.books == s.books
    ensures Mirrors(k, s', u, c)
  {
    hide Sound, Bid, SameView, Mirrors;
    OldAccount(k, s, u, c);
    BidUnfolds(k, t, s.house, a, v, comm, bp, lp);
    OwnBidView(k, s, s', v, a, comm);
    MirrorFrame(k, s, s', u, c, c.balance);
  }

  // ------------------------------------------------------------------ joint runs

  /**
   * A run of the house together with the client of account `u`, who starts fresh when the account is opened
   * and confirms every accepted operation.
   */
  ghost predicate JointRun(k: Setup, t: int -> Terms, ops: seq<Op>, s: State, u: int, c: Private)
    requires k.p > 0
    decreases |ops|
  {
    ops != [] &&
    var op := ops[|ops| - 1];
    || (op.DoNewAccount? && c == Fresh()
        && exists before: State :: Run(k, t, ops[..|ops| - 1], before) && before.house.ctrAccount == u && Step(k, t, before, op) == Accepted(s))
    || exists before: State, was: Private :: JointRun(k, t, ops[..|ops| - 1], before, u, was) && JointStep(k, t, before, was, op, u, s, c)
  }

  ghost predicate JointStep(k: Setup, t: int -> Terms, before: State, was: Private, op: Op, u: int, s: State, c: Private)
    requires k.p > 0
  {
    && Proper(k, before, op)
    && match Step(k, t, before, op)
       case Stopped => false
       case Refused => s == before && c == was
       case Accepted(next) => s == next && React(k, t, before.house, op, u, was) == Accepted(c)
  }

  /** In every joint run the client's state mirrors the house's account, and no confirmation ever fails. */
  lemma {:induction false} JointRunsMirror(k: Setup, t: int -> Terms, ops: seq<Op>, s: State, u: int, c: Private)
    requires Lawful(k) && k.p > 0 && Fair(t) && JointRun(k, t, ops, s, u, c)
    ensures Run(k, t, ops, s) && Sound(k, s) && Mirrors(k, s, u, c)
    ensures forall op :: Proper(k, s, op) && Step(k, t, s, op).Accepted? ==> React(k, t, s.house, op, u, c).Accepted?
    decreases |ops|
  {
    hide Sound, Lawful, Mirrors, Proper, Step, React;
    var op := ops[|ops| - 1];
    if before: State :| op.DoNewAccount? && c == Fresh() && Run(k, t, ops[..|ops| - 1], before) && before.house.ctrAccount == u
                        && Step(k, t, before, op) == Accepted(s) {
      FreshRun(k, t, ops, before, s, u);
    } else {
      var before: State, was: Private :| JointRun(k, t, ops[..|ops| - 1], before, u, was) && JointStep(k, t, before, was, op, u, s, c);
      JointRunsMirror(k, t, ops[..|ops| - 1], before, u, was);
      if Step(k, t, before, op).Accepted? {
        StepKeepsSound(k, t, before, op);
        StepKeepsMirror(k, t, before, op, u, was);
      }
    }
    forall next | Proper(k, s, next) && Step(k, t, s, next).Accepted? ensures React(k, t, s.house, next, u, c).Accepted? {
      StepKeepsMirror(k, t, s, next, u, c);
    }
  }

  lemma FreshRun(k: Setup, t: int -> Terms, ops: seq<Op>, before: State, s: State, u: int)
    requires Lawful(k) && k.p > 0 && Fair(t) && ops != [] && ops[|ops| - 1] == DoNewAccount
    requires Run(k, t, ops[..|ops| - 1], before) && before.house.ctrAccount == u && Step(k, t, before, DoNewAccount) == Accepted(s)
    ensures Run(k, t, ops, s) && Sound(k, s) && Mirrors(k, s, u, Fresh())
  {
    hide Sound, Lawful;
    assert Run(k, t, ops, s) by {
      assert Proper(k, before, DoNewAccount);
    }
    RunsAreSound(k, t, ops[..|ops| - 1], before);
    StepKeepsSound(k, t, before, DoNewAccount);
    hide Run;
    NewcomerMirrored(k, before, s, u);
  }

  lemma NewcomerMirrored(k: Setup, before: State, s: State, u: int)
    requires k.p > 0 && Sound(k, before) && before.house.ctrAccount == u
    requires NewAccount(before.house) == Accepted(s.house) && s.books == before.books
    ensures Mirrors(k, s, u, Fresh())
  {
    var c := Fresh();
    forall a ensures !Active(s, u, a) {
    }
    SumZero((a: int) => BidIn(c, a), s.house.ctrAuction);
    SumZero((a: int) => OpeningIn(c, a), s.house.ctrAuction);
    DivModUnique(0, 0, k.p, 0);
  }
}
