/** Conservation of money over whole runs of the house with fixed rewards per auction. */
module LedgerMoney {
  import opened Arithmetic
  import opened Outcomes
  import opened Sums
  import opened Ledger
  import opened LedgerSafety
  import Settlement

  function Balance(h: House, u: int): int
  {
    if u in h.accounts then h.accounts[u].balance else 0
  }

  ghost function Balances(h: House): int
    requires h.ctrAccount >= 0
  {
    SumTo((u: int) => Balance(h, u), h.ctrAccount)
  }

  /** Both rewards for every bid not yet opened, and the self-opening reward of every bid that was forced open. */
  function Withheld(t: Terms, unopened: int, forced: int): int
  {
    (t.selfOpen + t.forceOpen) * unopened + t.selfOpen * forced
  }

  function Unopened(x: Auction): int
  {
    |x.comms| - |x.openings|
  }

  function ForcedIn(b: Books, a: int): int
  {
    b.forced[a]
  }

  /** The rewards an auction holds back. */
  function Held(t: int -> Terms, s: State, a: int): int
  {
    if a in s.house.rooms then Withheld(t(a), Unopened(s.house.rooms[a].auction), ForcedIn(s.books, a)) else 0
  }

  ghost function Escrow(t: int -> Terms, s: State): int
    requires s.house.ctrAuction >= 0
  {
    SumTo((a: int) => Held(t, s, a), s.house.ctrAuction)
  }

  /** Money in minus money out is what the accounts hold, what is held back for rewards, and what winners paid. */
  ghost predicate Conserved(t: int -> Terms, s: State)
    requires s.house.ctrAccount >= 0 && s.house.ctrAuction >= 0
  {
    s.books.deposited - s.books.withdrawn == Balances(s.house) + Escrow(t, s) + s.books.paid
  }

  // --------------------------------------------------- how the two sums change

  lemma BalancesChange(h: House, h': House, u: int)
    requires 0 <= u < h.ctrAccount == h'.ctrAccount
    requires forall v :: v != u ==> Balance(h, v) == Balance(h', v)
    ensures Balances(h') == Balances(h) + Balance(h', u) - Balance(h, u)
  {
    hide Balance;
    SumChange((v: int) => Balance(h, v), (v: int) => Balance(h', v), h.ctrAccount, u);
  }

  lemma BalancesSame(h: House, h': House)
    requires 0 <= h.ctrAccount == h'.ctrAccount && h.accounts == h'.accounts
    ensures Balances(h') == Balances(h)
  {
    SumSame((v: int) => Balance(h, v), (v: int) => Balance(h', v), h.ctrAccount);
  }

  lemma EscrowChange(t: int -> Terms, s: State, s': State, a: int)
    requires 0 <= a < s.house.ctrAuction == s'.house.ctrAuction
    requires forall b :: b != a ==> Held(t, s, b) == Held(t, s', b)
    ensures Escrow(t, s') == Escrow(t, s) + Held(t, s', a) - Held(t, s, a)
  {
    hide Held;
    SumChange((b: int) => Held(t, s, b), (b: int) => Held(t, s', b), s.house.ctrAuction, a);
  }

  lemma EscrowSame(t: int -> Terms, s: State, s': State)
    requires 0 <= s.house.ctrAuction == s'.house.ctrAuction
    requires s.house.rooms == s'.house.rooms && s.books.forced == s'.books.forced
    ensures Escrow(t, s') == Escrow(t, s)
  {
    SumSame((b: int) => Held(t, s, b), (b: int) => Held(t, s', b), s.house.ctrAuction);
  }

  // ------------------------------------------------------- each step conserves

  lemma NewAccountConserves(t: int -> Terms, s: State, s': State)
    requires Shaped(s.house) && Conserved(t, s) && NewAccount(s.house) == Accepted(s'.house) && s'.books == s.books
    ensures s'.house.ctrAccount >= 0 && s'.house.ctrAuction >= 0 && Conserved(t, s')
  {
    hide Escrow, Balances;
    NewcomerAddsNothing(s.house, s'.house);
    EscrowSame(t, s, s');
  }

  lemma NewcomerAddsNothing(h: House, h': House)
    requires 0 <= h.ctrAccount && NewAccount(h) == Accepted(h')
    ensures h'.ctrAccount >= 0 && Balances(h') == Balances(h)
  {
    SumSame((v: int) => Balance(h, v), (v: int) => Balance(h', v), h.ctrAccount);
  }

  lemma NewAuctionConserves(t: int -> Terms, s: State, s': State)
    requires Shaped(s.house) && Conserved(t, s) && NewAuction(s.house) == Accepted(s'.house) && s'.books == s.books
    requires s.house.ctrAuction !in s.books.forced
    ensures s'.house.ctrAccount >= 0 && s'.house.ctrAuction >= 0 && Conserved(t, s')
  {
    hide Indexed, Withheld;
    BalancesSame(s.house, s'.house);
    EscrowGrows(t, s, s');
  }

  lemma EscrowGrows(t: int -> Terms, s: State, s': State)
    requires s.house.ctrAuction >= 0 && s'.house.ctrAuction == s.house.ctrAuction + 1 && s'.books == s.books
    requires s.house.ctrAuction !in s.books.forced
    requires s'.house.rooms == s.house.rooms[s.house.ctrAuction := Room(Auction(map[], {}, map[]), map[])]
    ensures Escrow(t, s') == Escrow(t, s)
  {
    hide Held;
    var n := s.house.ctrAuction;
    var f, f' := (a: int) => Held(t, s, a), (a: int) => Held(t, s', a);
    forall a | 0 <= a < n ensures f(a) == f'(a) {
      HeldFrame(t, s, s', a);
    }
    SumSame(f, f', n);
    HeldEmpty(t, s', n);
    assert f'(n) == 0;
    assert SumTo(f', n + 1) == SumTo(f', n) + f'(n);
  }

  lemma HeldFrame(t: int -> Terms, s: State, s': State, a: int)
    requires a in s.house.rooms <==> a in s'.house.rooms
    requires a in s.house.rooms ==> s.house.rooms[a] == s'.house.rooms[a]
    requires ForcedIn(s.books, a) == ForcedIn(s'.books, a)
    ensures Held(t, s, a) == Held(t, s', a)
  {
  }

  lemma HeldEmpty(t: int -> Terms, s: State, n: int)
    requires n in s.house.rooms && s.house.rooms[n].auction == Auction(map[], {}, map[]) && n !in s.books.forced
    ensures Held(t, s, n) == 0
  {
    assert Unopened(s.house.rooms[n].auction) == 0 && ForcedIn(s.books, n) == 0;
    WithheldChange(t(n), 0, 0);
  }

  lemma TransferConserves(t: int -> Terms, s: State, s': State, u: int, change: int)
    requires Shaped(s.house) && Conserved(t, s) && u in s.house.accounts
    requires s'.house == WithBalance(s.house, u, s.house.accounts[u].balance + change)
    requires s'.books.deposited - s'.books.withdrawn == s.books.deposited - s.books.withdrawn + change
    requires s'.books.paid == s.books.paid && s'.books.forced == s.books.forced
    ensures Conserved(t, s')
  {
    BalancesChange(s.house, s'.house, u);
    EscrowSame(t, s, s');
  }

  /** An operation on one auction and one account that moves money between balance and escrow. */
  lemma EscrowConserves(t: int -> Terms, s: State, s': State, a: int, u: int)
    requires Shaped(s.house) && Conserved(t, s) && u in s.house.accounts && a in s.house.rooms
    requires u in s'.house.accounts && a in s'.house.rooms
    requires s'.house.accounts == s.house.accounts[u := s'.house.accounts[u]]
    requires s'.house.rooms == s.house.rooms[a := s'.house.rooms[a]]
    requires s'.house.ctrAccount == s.house.ctrAccount && s'.house.ctrAuction == s.house.ctrAuction
    requires forall b :: b != a ==> ForcedIn(s'.books, b) == ForcedIn(s.books, b)
    requires s'.books.(forced := s.books.forced, released := s.books.released) == s.books
    requires Balance(s'.house, u) + Held(t, s', a) == Balance(s.house, u) + Held(t, s, a)
    ensures Conserved(t, s')
  {
    hide Withheld, Unopened, ForcedIn, Indexed;
    forall b | b != a ensures Held(t, s, b) == Held(t, s', b) {
    }
    hide Held;
    BalancesChange(s.house, s'.house, u);
    EscrowChange(t, s, s', a);
  }

  lemma WithheldChange(t: Terms, unopened: int, forced: int)
    ensures Withheld(t, unopened + 1, forced) == Withheld(t, unopened, forced) + t.selfOpen + t.forceOpen
    ensures Withheld(t, unopened - 1, forced) == Withheld(t, unopened, forced) - t.selfOpen - t.forceOpen
    ensures Withheld(t, unopened - 1, forced + 1) == Withheld(t, unopened, forced) - t.forceOpen
    ensures Withheld(t, 0, 0) == 0
  {
  }

  lemma BidConserves(k: Setup, t: int -> Terms, s: State, s': State, a: int, u: int, c: Comm, bp: int, lp: int)
    requires k.p > 0 && Sound(k, s) && Shaped(s.house) && Conserved(t, s)
    requires Bid(k, t(a), s.house, a, u, c, bp, lp) == Accepted(s'.house) && s'.books == s.books
    ensures s'.house.ctrAccount >= 0 && s'.house.ctrAuction >= 0 && Conserved(t, s')
  {
    hide *;
    BidUnfolds(k, t(a), s.house, a, u, c, bp, lp);
    RoomAt(k, s, a);
    var x := s.house.rooms[a].auction;
    WithheldChange(t(a), Unopened(x), ForcedIn(s.books, a));
    BidUnopened(x, c);
    HeldOf(t, s, a);
    HeldOf(t, s', a);
    BalanceOf(s.house, u);
    BalanceOf(s'.house, u);
    ShapedCounters(s.house);
    EscrowConserves(t, s, s', a, u);
  }

  lemma BidUnopened(x: Auction, c: Comm)
    requires |x.known| !in x.comms && AcceptBid(x, c).Accepted?
    ensures Unopened(AcceptBid(x, c).value.0) == Unopened(x) + 1
  {
    MapGrows(x.comms, |x.known|, c);
  }

  lemma OpeningUnopened(x: Auction, x': Auction, id: int, bid: Option<int>)
    requires id !in x.openings && x' == x.(openings := x.openings[id := bid])
    ensures Unopened(x') == Unopened(x) - 1
  {
    MapGrows(x.openings, id, bid);
  }

  lemma HeldOf(t: int -> Terms, s: State, a: int)
    requires a in s.house.rooms
    ensures Held(t, s, a) == Withheld(t(a), Unopened(s.house.rooms[a].auction), ForcedIn(s.books, a))
  {
  }

  lemma BalanceOf(h: House, u: int)
    requires u in h.accounts
    ensures Balance(h, u) == h.accounts[u].balance
  {
  }

  /** An accepted opening moves the reward from escrow to the rewarded account. */
  lemma OpeningConserves(k: Setup, t: int -> Terms, s: State, s': State, a: int, u: int, id: int, bid: Option<int>, o: int, forced: bool)
    requires Lawful(k) && k.p > 0 && Sound(k, s) && Shaped(s.house) && Conserved(t, s)
    requires u in s.house.accounts && a in s.house.rooms
    requires AcceptOpening(k, s.house.rooms[a].auction, id, bid, o).Accepted?
    requires var x' := AcceptOpening(k, s.house.rooms[a].auction, id, bid, o).value;
      Reward(s.house, a, u, x', if forced then t(a).forceOpen else t(a).selfOpen + t(a).forceOpen) == Accepted(s'.house)
    requires s'.books == if forced then s.books.(forced := s.books.forced + multiset{a}) else s.books
    ensures s'.house.ctrAccount >= 0 && s'.house.ctrAuction >= 0 && Conserved(t, s')
  {
    hide Sound, Conserved, AcceptOpening, Shaped, Lawful, Held, Withheld, Unopened;
    AcceptedOpeningBinds(k, s, a, id, bid, o);
    ShapedCounters(s.house);
    var x := s.house.rooms[a].auction;
    WithheldChange(t(a), Unopened(x), ForcedIn(s.books, a));
    OpeningUnopened(x, s'.house.rooms[a].auction, id, bid);
    HeldOf(t, s, a);
    HeldOf(t, s', a);
    EscrowConserves(t, s, s', a, u);
  }

  /** A settlement moves the price from each winner's balance to what has been paid. */
  lemma SettleConserves(k: Setup, t: int -> Terms, s: State, s': State, a: int, n: nat, price: int, winners: set<int>)
    requires k.p > 0 && Shaped(s.house) && Conserved(t, s) && |winners| == n
    requires Settle(k, s.house, a, n, price, winners) == Accepted(s'.house)
    requires s'.books.(paid := s.books.paid, released := s.books.released) == s.books
    requires s'.books.paid == s.books.paid + price * n
    ensures s'.house.ctrAccount >= 0 && s'.house.ctrAuction >= 0 && Conserved(t, s')
  {
    hide OpenedBids, AllOpened, Indexed, Held;
    hide Withheld, Unopened;
    EscrowSame(t, s, s');
    var f, f' := (u: int) => Balance(s.house, u), (u: int) => Balance(s'.house, u);
    forall u | u in winners ensures 0 <= u < s.house.ctrAccount {
      assert u in s.house.accounts;
    }
    SumCharge(f, f', s.house.ctrAccount, winners, price);
  }

  lemma ShapedCounters(h: House)
    requires Shaped(h)
    ensures h.ctrAccount >= 0 && h.ctrAuction >= 0
  {
  }

  // ------------------------------------------------------------------ whole runs

  /** Only auctions the house has are recorded as having forced openings. */
  ghost predicate ForcedKnown(s: State)
  {
    forall a :: a in s.books.forced ==> a in s.house.rooms
  }

  ghost predicate Balanced(k: Setup, t: int -> Terms, s: State)
    requires k.p > 0
  {
    Sound(k, s) && ForcedKnown(s) && Conserved(t, s)
  }

  lemma ForcedStaysKnown(k: Setup, t: int -> Terms, s: State, op: Op)
    requires k.p > 0 && ForcedKnown(s) && Step(k, t, s, op).Accepted?
    ensures ForcedKnown(Step(k, t, s, op).value)
  {
    hide AllOpened, OpenedBids, Plus, Minus, BidRemainder, Remainder;
    var s' := Step(k, t, s, op).value;
    assert s.house.rooms.Keys <= s'.house.rooms.Keys by {
      if op.DoBid? {
        BidUnfolds(k, t(op.a), s.house, op.a, op.u, op.c, op.bidProof, op.balanceProof);
      }
    }
  }

  lemma StepConserves(k: Setup, t: int -> Terms, s: State, op: Op)
    requires Lawful(k) && k.p > 0 && Fair(t) && Balanced(k, t, s) && Proper(k, s, op) && Step(k, t, s, op).Accepted?
    ensures Balanced(k, t, Step(k, t, s, op).value)
  {
    ShapedAt(k, s);
    hide Sound, Lawful, Proper, Perform, ForcedKnown, Conserved;
    StepKeepsSound(k, t, s, op);
    ForcedStaysKnown(k, t, s, op);
    MoneyConserved(k, t, s, op);
  }

  lemma MoneyConserved(k: Setup, t: int -> Terms, s: State, op: Op)
    requires Lawful(k) && k.p > 0 && Sound(k, s) && Shaped(s.house) && ForcedKnown(s) && Conserved(t, s)
    requires Proper(k, s, op) && Step(k, t, s, op).Accepted?
    ensures var s' := Step(k, t, s, op).value; s'.house.ctrAccount >= 0 && s'.house.ctrAuction >= 0 && Conserved(t, s')
  {
    hide Sound, Lawful, Conserved, Shaped, NewAccount, NewAuction, Bid, AcceptOpening, AllOpened, OpenedBids, Settle, Remainder;
    var s' := Step(k, t, s, op).value;
    ShapedCounters(s.house);
    assert Perform(k, t, s.house, op) == Accepted(s'.house);
    match op
    case DoNewAccount => NewAccountConserves(t, s, s');
    case DoNewAuction =>
      NoSuchAuction(s.house);
      NewAuctionConserves(t, s, s');
    case DoDeposit(u, amt) => TransferConserves(t, s, s', u, amt);
    case DoWithdraw(u, amt, proof) => TransferConserves(t, s, s', u, 0 - amt);
    case DoBid(a, u, c, bp, lp) => BidConserves(k, t, s, s', a, u, c, bp, lp);
    case DoSelfOpen(a, u, bid, o) => OpeningConserves(k, t, s, s', a, u, s.house.rooms[a].bids[u], Some(bid), o, false);
    case DoForceOpen(a, u, id, bid, o) => OpeningConserves(k, t, s, s', a, u, id, bid, o, true);
    case DoSettle(a, n, price, winners) =>
      SaleOf(k, s, a, n, price, winners);
      SettleConserves(k, t, s, s', a, n, price, winners);
  }

  lemma NoSuchAuction(h: House)
    requires Shaped(h)
    ensures h.ctrAuction !in h.rooms
  {
  }

  lemma SaleOf(k: Setup, s: State, a: int, n: nat, price: int, winners: set<int>)
    requires k.p > 0 && Proper(k, s, DoSettle(a, n, price, winners)) && Settle(k, s.house, a, n, price, winners).Accepted?
    ensures |winners| == n
  {
  }

  /**
   * Over every run: deposits less withdrawals equal the balances, the rewards held back for unopened and
   * force-opened bids, and the price of every settlement once per winner.
   */
  lemma {:induction false} RunsConserve(k: Setup, t: int -> Terms, ops: seq<Op>, s: State)
    requires Lawful(k) && k.p > 0 && Fair(t) && Run(k, t, ops, s)
    ensures Balanced(k, t, s)
    decreases |ops|
  {
    if ops != [] {
      var op := ops[|ops| - 1];
      var before: State :| Run(k, t, ops[..|ops| - 1], before) && Proper(k, before, op)
        && match Step(k, t, before, op) { case Stopped => false case Refused => s == before case Accepted(next) => s == next };
      RunsConserve(k, t, ops[..|ops| - 1], before);
      if Step(k, t, before, op).Accepted? {
        StepConserves(k, t, before, op);
      }
    }
  }
}
