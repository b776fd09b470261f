/**
 * The auction house as a ledger of accounts with hidden active bids (auction_house/src/house.rs, auction.rs).
 * A Pedersen commitment is the pair of its value and blinding modulo the group order.
 */
module Ledger {
  import opened Arithmetic
  import opened Outcomes
  import opened Sums
  import Settlement

  const WORD: int := 0x1_0000_0000

  datatype Ped = Ped(value: int, blinding: int)

  /** A bid commitment: its Pedersen part and whatever else tells timed commitments apart. */
  datatype Comm = Comm(ped: Ped, puzzle: int)

  /** Group order and the verdicts of the range proofs and timed commitments. */
  datatype Setup = Setup(p: int, verifies: (Ped, int) -> bool, opens: (Comm, Option<int>, int) -> Outcome<bool>)

  predicate Small(x: int)
  {
    0 <= x < WORD
  }

  /** Range proofs are sound for 32 bits; an accepted opening to a bid is an opening of the Pedersen part. */
  ghost predicate Lawful(k: Setup)
  {
    && 4 * WORD <= k.p
    && (forall c: Ped, pf: int :: k.verifies(c, pf) ==> Small(c.value % k.p))
    && (forall c: Comm, b: int, o: int :: k.opens(c, Some(b), o) == Done(true) ==> Small(b) && c.ped.value % k.p == b)
  }

  predicate Canonical(k: Setup, c: Ped)
    requires k.p > 0
  {
    0 <= c.value < k.p && 0 <= c.blinding < k.p
  }

  function Plus(k: Setup, a: Ped, b: Ped): Ped
    requires k.p > 0
  {
    Ped((a.value + b.value) % k.p, (a.blinding + b.blinding) % k.p)
  }

  function Minus(k: Setup, a: Ped, b: Ped): Ped
    requires k.p > 0
  {
    Ped((a.value - b.value) % k.p, (a.blinding - b.blinding) % k.p)
  }

  // ------------------------------------------------------------------ the state

  datatype Account = Account(balance: int, active: Ped)

  datatype Auction = Auction(comms: map<int, Comm>, known: set<Comm>, openings: map<int, Option<int>>)

  /** An auction and who holds which bid in it. */
  datatype Room = Room(auction: Auction, bids: map<int, int>)

  datatype House = House(accounts: map<int, Account>, rooms: map<int, Room>, ctrAccount: int, ctrAuction: int)

  datatype Terms = Terms(selfOpen: int, forceOpen: int)

  function Empty(): House
  {
    House(map[], map[], 0, 0)
  }

  // ------------------------------------------------------------- the operations

  function NewAccount(h: House): Reply<House>
  {
    if h.ctrAccount + 1 >= WORD then Stopped
    else Accepted(h.(accounts := h.accounts[h.ctrAccount := Account(0, Ped(0, 0))], ctrAccount := h.ctrAccount + 1))
  }

  function NewAuction(h: House): Reply<House>
  {
    if h.ctrAuction + 1 >= WORD then Stopped
    else Accepted(h.(rooms := h.rooms[h.ctrAuction := Room(Auction(map[], {}, map[]), map[])], ctrAuction := h.ctrAuction + 1))
  }

  function WithBalance(h: House, u: int, balance: int): House
    requires u in h.accounts
  {
    h.(accounts := h.accounts[u := h.accounts[u].(balance := balance)])
  }

  function Deposit(h: House, u: int, amt: int): Reply<House>
  {
    if u !in h.accounts then Refused
    else if h.accounts[u].balance + amt >= WORD then Stopped
    else Accepted(WithBalance(h, u, h.accounts[u].balance + amt))
  }

  /** The commitment to what an account would have left above its active bids. */
  function Remainder(k: Setup, balance: int, active: Ped): Ped
    requires k.p > 0
  {
    Minus(k, Ped(balance % k.p, 0), active)
  }

  function Withdraw(k: Setup, h: House, u: int, amt: int, proof: int): Reply<House>
    requires k.p > 0
  {
    if u !in h.accounts then Refused
    else
      var acct := h.accounts[u];
      if acct.balance < amt then Stopped
      else if !k.verifies(Remainder(k, acct.balance - amt, acct.active), proof) then Refused
      else Accepted(WithBalance(h, u, acct.balance - amt))
  }

  /** The auction takes a commitment it has not seen and numbers it. */
  function AcceptBid(x: Auction, c: Comm): Reply<(Auction, int)>
  {
    if c in x.known then Refused
    else
      var known := x.known + {c};
      Accepted((Auction(x.comms[|x.known| := c], known, x.openings), |known| - 1))
  }

  /** What is left after the rewards and the new bid, above the other active bids. */
  function BidRemainder(k: Setup, balance: int, c: Ped, active: Ped): Ped
    requires k.p > 0
  {
    Minus(k, Minus(k, Ped(balance % k.p, 0), c), active)
  }

  function Bid(k: Setup, t: Terms, h: House, a: int, u: int, c: Comm, bidProof: int, balanceProof: int): Reply<House>
    requires k.p > 0
  {
    if u !in h.accounts || a !in h.rooms || u in h.rooms[a].bids then Refused
    else if !k.verifies(c.ped, bidProof) then Refused
    else
      var acct, room := h.accounts[u], h.rooms[a];
      if acct.balance < t.selfOpen + t.forceOpen then Stopped
      else
        var left := acct.balance - t.selfOpen - t.forceOpen;
        if !k.verifies(BidRemainder(k, left, c.ped, acct.active), balanceProof) then Refused
        else
          match AcceptBid(room.auction, c)
          case Accepted((auction, id)) =>
            Accepted(h.(rooms := h.rooms[a := Room(auction, room.bids[u := id % WORD])],
                        accounts := h.accounts[u := Account(left, Plus(k, acct.active, c.ped))]))
          case _ => Refused
  }

  function AcceptOpening(k: Setup, x: Auction, id: int, bid: Option<int>, o: int): Reply<Auction>
  {
    if id in x.openings || id !in x.comms then Refused
    else
      match k.opens(x.comms[id], bid, o)
      case Panic => Stopped
      case Done(false) => Refused
      case Done(true) => Accepted(x.(openings := x.openings[id := bid]))
  }

  function Reward(h: House, a: int, u: int, auction: Auction, amount: int): Reply<House>
    requires u in h.accounts && a in h.rooms
  {
    if h.accounts[u].balance + amount >= WORD then Stopped
    else
      var h' := h.(rooms := h.rooms[a := h.rooms[a].(auction := auction)]);
      Accepted(WithBalance(h', u, h.accounts[u].balance + amount))
  }

  function SelfOpen(k: Setup, t: Terms, h: House, a: int, u: int, bid: int, o: int): Reply<House>
  {
    if u !in h.accounts || a !in h.rooms || u !in h.rooms[a].bids then Refused
    else
      match AcceptOpening(k, h.rooms[a].auction, h.rooms[a].bids[u], Some(bid), o)
      case Stopped => Stopped
      case Refused => Refused
      case Accepted(auction) => Reward(h, a, u, auction, t.selfOpen + t.forceOpen)
  }

  /** The caller names the bid and the rewarded account independently. */
  function ForceOpen(k: Setup, t: Terms, h: House, a: int, u: int, id: int, bid: Option<int>, o: int): Reply<House>
  {
    if u !in h.accounts || a !in h.rooms then Refused
    else
      match AcceptOpening(k, h.rooms[a].auction, id, bid, o)
      case Stopped => Stopped
      case Refused => Refused
      case Accepted(auction) => Reward(h, a, u, auction, t.forceOpen)
  }

  /** Every bid has been opened, to a value or to nothing. */
  predicate AllOpened(r: Room)
  {
    forall u :: u in r.bids ==> r.bids[u] in r.auction.openings
  }

  function OpenedBids(r: Room): map<int, int>
    requires AllOpened(r)
  {
    map u | u in r.bids && r.auction.openings[r.bids[u]].Some? :: r.auction.openings[r.bids[u]].value
  }

  /** The lookups of the two updating loops of a settlement succeed and no balance goes below zero. */
  predicate Chargeable(h: House, r: Room, price: int, winners: set<int>)
  {
    && (forall u :: u in r.bids ==> r.bids[u] in r.auction.comms && u in h.accounts)
    && (forall u :: u in winners ==> u in h.accounts && price <= h.accounts[u].balance)
  }

  /** Takes the settled bids out of the active ones and charges the winners. */
  function Charged(k: Setup, h: House, r: Room, price: int, winners: set<int>): House
    requires k.p > 0 && Chargeable(h, r, price, winners)
  {
    h.(accounts := map u | u in h.accounts ::
      Account(h.accounts[u].balance - (if u in winners then price else 0),
              if u in r.bids then Minus(k, h.accounts[u].active, r.auction.comms[r.bids[u]].ped) else h.accounts[u].active))
  }

  function Settle(k: Setup, h: House, a: int, n: nat, price: int, winners: set<int>): Reply<House>
    requires k.p > 0
  {
    if a !in h.rooms then Refused
    else if !AllOpened(h.rooms[a]) || |OpenedBids(h.rooms[a])| <= n || !Chargeable(h, h.rooms[a], price, winners) then Stopped
    else Accepted(Charged(k, h, h.rooms[a], price, winners))
  }

  // --------------------------------------------------------------------- runs

  datatype Op =
    | DoNewAccount
    | DoNewAuction
    | DoDeposit(u: int, amt: nat)
    | DoWithdraw(u: int, amt: nat, proof: int)
    | DoBid(a: int, u: int, c: Comm, bidProof: int, balanceProof: int)
    | DoSelfOpen(a: int, u: int, bid: int, o: int)
    | DoForceOpen(a: int, u: int, id: int, claimed: Option<int>, o: int)
    | DoSettle(a: int, n: nat, price: int, winners: set<int>)

  /**
   * What a run has done so far: money in, money out, money paid by winners, how many bids of each auction were
   * forced open, and for each settled auction the bidders whose bids it took out of the active ones.
   */
  datatype Books = Books(deposited: int, withdrawn: int, paid: int, forced: multiset<int>, released: map<int, set<int>>)

  datatype State = State(house: House, books: Books)

  function Perform(k: Setup, t: int -> Terms, h: House, op: Op): Reply<House>
    requires k.p > 0
  {
    match op
    case DoNewAccount => NewAccount(h)
    case DoNewAuction => NewAuction(h)
    case DoDeposit(u, amt) => Deposit(h, u, amt)
    case DoWithdraw(u, amt, proof) => Withdraw(k, h, u, amt, proof)
    case DoBid(a, u, c, bp, lp) => Bid(k, t(a), h, a, u, c, bp, lp)
    case DoSelfOpen(a, u, bid, o) => SelfOpen(k, t(a), h, a, u, bid, o)
    case DoForceOpen(a, u, id, bid, o) => ForceOpen(k, t(a), h, a, u, id, bid, o)
    case DoSettle(a, n, price, winners) => Settle(k, h, a, n, price, winners)
  }

  /** The books after an accepted operation. */
  function Record(b: Books, h: House, op: Op): Books
  {
    match op
    case DoDeposit(u, amt) => b.(deposited := b.deposited + amt)
    case DoWithdraw(u, amt, _) => b.(withdrawn := b.withdrawn + amt)
    case DoForceOpen(a, _, _, _, _) => b.(forced := b.forced + multiset{a})
    case DoSettle(a, n, price, _) =>
      b.(paid := b.paid + price * n, released := b.released[a := if a in h.rooms then h.rooms[a].bids.Keys else {}])
    case _ => b
  }

  function Step(k: Setup, t: int -> Terms, s: State, op: Op): Reply<State>
    requires k.p > 0
  {
    match Perform(k, t, s.house, op)
    case Stopped => Stopped
    case Refused => Refused
    case Accepted(h) => Accepted(State(h, Record(s.books, s.house, op)))
  }

  /**
   * Commitments are group elements, so given by residues; an auction is settled at most once, and its sale is
   * one that the (k+1)-price selection can produce.
   */
  ghost predicate Proper(k: Setup, s: State, op: Op)
    requires k.p > 0
  {
    match op
    case DoBid(_, _, c, _, _) => Canonical(k, c.ped)
    case DoSettle(a, n, price, winners) =>
      && a !in s.books.released
      && (a in s.house.rooms && AllOpened(s.house.rooms[a]) && n < |OpenedBids(s.house.rooms[a])| ==>
            Settlement.Admissible(OpenedBids(s.house.rooms[a]), n, price, winners))
    case _ => true
  }

  function Start(): State
  {
    State(Empty(), Books(0, 0, 0, multiset{}, map[]))
  }

  /** `s` is a state of some run of proper operations; a refused operation leaves the state as it is. */
  ghost predicate Run(k: Setup, t: int -> Terms, ops: seq<Op>, s: State)
    requires k.p > 0
    decreases |ops|
  {
    if ops == [] then s == Start()
    else
      var op := ops[|ops| - 1];
      exists before: State ::
        && Run(k, t, ops[..|ops| - 1], before) && Proper(k, before, op)
        && match Step(k, t, before, op)
           case Stopped => false
           case Refused => s == before
           case Accepted(next) => s == next
  }
}
