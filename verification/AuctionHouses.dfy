/** The auction house object, whose methods update its fields as auction_house/src/house.rs does, proved against the ledger. */
module AuctionHouses {
  import opened Outcomes
  import opened Sums
  import opened Ledger
  import Settlement

  /** How a method's answer and the state it leaves relate to the ledger's reply: an error leaves no trace. */
  predicate Answers(reply: Reply<House>, r: Outcome<bool>, before: House, after: House)
  {
    match reply
    case Stopped => r == Panic
    case Refused => r == Done(false) && after == before
    case Accepted(h) => r == Done(true) && after == h
  }

  function WinnerSet(winners: seq<int>): set<int>
  {
    set u | u in winners
  }

  /** The accounts after the bids of the bidders in `done` are taken out of their active ones. */
  function Released(k: Setup, accounts: map<int, Account>, room: Room, done: set<int>): map<int, Account>
    requires k.p > 0 && done <= room.bids.Keys && forall u :: u in done ==> room.bids[u] in room.auction.comms
  {
    map u | u in accounts ::
      if u in done then accounts[u].(active := Minus(k, accounts[u].active, room.auction.comms[room.bids[u]].ped)) else accounts[u]
  }

  function Paid(accounts: map<int, Account>, winners: set<int>, price: int): map<int, Account>
  {
    map u | u in accounts :: if u in winners then accounts[u].(balance := accounts[u].balance - price) else accounts[u]
  }

  lemma SettledState(k: Setup, h: House, h': House, room: Room, price: int, winners: set<int>)
    requires k.p > 0 && Chargeable(h, room, price, winners)
    requires h' == h.(accounts := Paid(Released(k, h.accounts, room, room.bids.Keys), winners, price))
    ensures h' == Charged(k, h, room, price, winners)
  {
    hide Minus;
    var x, y := h'.accounts, Charged(k, h, room, price, winners).accounts;
    assert x.Keys == h.accounts.Keys == y.Keys;
    forall u | u in x ensures x[u] == y[u] {
      assert h.accounts[u] == Account(h.accounts[u].balance, h.accounts[u].active);
    }
    assert x == y;
  }

  class AuctionHouse {
    const k: Setup
    var accounts: map<int, Account>
    var rooms: map<int, Room>
    var ctrAccount: int
    var ctrAuction: int

    function Value(): House
      reads this
    {
      House(accounts, rooms, ctrAccount, ctrAuction)
    }

    constructor (k: Setup)
      ensures this.k == k && Value() == Start().house
    {
      this.k := k;
      accounts, rooms, ctrAccount, ctrAuction := map[], map[], 0, 0;
    }

    method OpenAccount() returns (r: Outcome<bool>)
      modifies this
      ensures Answers(NewAccount(old(Value())), r, old(Value()), Value())
    {
      accounts := accounts[ctrAccount := Account(0, Ped(0, 0))];
      if ctrAccount + 1 >= WORD {
        return Panic;
      }
      ctrAccount := ctrAccount + 1;
      return Done(true);
    }

    method OpenAuction() returns (r: Outcome<bool>)
      modifies this
      ensures Answers(NewAuction(old(Value())), r, old(Value()), Value())
    {
      rooms := rooms[ctrAuction := Room(Auction(map[], {}, map[]), map[])];
      if ctrAuction + 1 >= WORD {
        return Panic;
      }
      ctrAuction := ctrAuction + 1;
      return Done(true);
    }

    method AccountDeposit(u: int, amt: nat) returns (r: Outcome<bool>)
      modifies this
      ensures Answers(Deposit(old(Value()), u, amt), r, old(Value()), Value())
    {
      if u !in accounts {
        return Done(false);
      }
      var summary := accounts[u];
      if summary.balance + amt >= WORD {
        return Panic;
      }
      accounts := accounts[u := summary.(balance := summary.balance + amt)];
      return Done(true);
    }

    method AccountWithdrawal(u: int, amt: nat, proof: int) returns (r: Outcome<bool>)
      requires k.p > 0
      modifies this
      ensures Answers(Withdraw(k, old(Value()), u, amt, proof), r, old(Value()), Value())
    {
      if u !in accounts {
        return Done(false);
      }
      var summary := accounts[u];
      if summary.balance < amt {
        return Panic;
      }
      var balance := summary.balance - amt;
      if !k.verifies(Remainder(k, balance, summary.active), proof) {
        return Done(false);
      }
      accounts := accounts[u := summary.(balance := balance)];
      return Done(true);
    }

    method AccountBid(t: Terms, a: int, u: int, c: Comm, bidProof: int, balanceProof: int) returns (r: Outcome<bool>)
      requires k.p > 0
      modifies this
      ensures Answers(Bid(k, t, old(Value()), a, u, c, bidProof, balanceProof), r, old(Value()), Value())
    {
      hide BidRemainder, Plus;
      if u !in accounts || a !in rooms {
        return Done(false);
      }
      var summary, room := accounts[u], rooms[a];
      if u in room.bids || !k.verifies(c.ped, bidProof) {
        return Done(false);
      }
      if summary.balance < t.selfOpen + t.forceOpen {
        return Panic;
      }
      var left := summary.balance - t.selfOpen - t.forceOpen;
      if !k.verifies(BidRemainder(k, left, c.ped, summary.active), balanceProof) {
        return Done(false);
      }
      var x := room.auction;
      if c in x.known {
        return Done(false);
      }
      var number := |x.known|;
      x := x.(comms := x.comms[number := c]);
      x := x.(known := x.known + {c});
      rooms := rooms[a := Room(x, room.bids[u := (|x.known| - 1) % WORD])];
      summary := summary.(balance := left);
      accounts := accounts[u := summary.(active := Plus(k, summary.active, c.ped))];
      return Done(true);
    }

    /** Records an opening the auction accepts and credits the reward. */
    method Opened(a: int, u: int, id: int, bid: Option<int>, o: int, reward: int) returns (r: Outcome<bool>)
      requires u in accounts && a in rooms
      modifies this
      ensures match AcceptOpening(k, old(rooms)[a].auction, id, bid, o)
              case Stopped => r == Panic
              case Refused => r == Done(false) && Value() == old(Value())
              case Accepted(x) => Answers(Reward(old(Value()), a, u, x, reward), r, old(Value()), Value())
    {
      var x := rooms[a].auction;
      if id in x.openings || id !in x.comms {
        return Done(false);
      }
      match k.opens(x.comms[id], bid, o) {
        case Panic => return Panic;
        case Done(false) => return Done(false);
        case Done(true) =>
      }
      rooms := rooms[a := rooms[a].(auction := x.(openings := x.openings[id := bid]))];
      if accounts[u].balance + reward >= WORD {
        return Panic;
      }
      accounts := accounts[u := accounts[u].(balance := accounts[u].balance + reward)];
      return Done(true);
    }

    method AccountSelfOpen(t: Terms, a: int, u: int, bid: int, o: int) returns (r: Outcome<bool>)
      modifies this
      ensures Answers(SelfOpen(k, t, old(Value()), a, u, bid, o), r, old(Value()), Value())
    {
      hide AcceptOpening, Reward;
      if u !in accounts || a !in rooms || u !in rooms[a].bids {
        return Done(false);
      }
      r := Opened(a, u, rooms[a].bids[u], Some(bid), o, t.selfOpen + t.forceOpen);
    }

    method AccountForceOpen(t: Terms, a: int, u: int, id: int, bid: Option<int>, o: int) returns (r: Outcome<bool>)
      modifies this
      ensures Answers(ForceOpen(k, t, old(Value()), a, u, id, bid, o), r, old(Value()), Value())
    {
      hide AcceptOpening, Reward;
      if u !in accounts || a !in rooms {
        return Done(false);
      }
      r := Opened(a, u, id, bid, o, t.forceOpen);
    }

    /** The bids with a value; an unopened bid stops the program. */
    method CollectBids(room: Room) returns (r: Outcome<map<int, int>>)
      ensures r.Panic? <==> !AllOpened(room)
      ensures r.Done? ==> r.value == OpenedBids(room)
    {
      var bids: map<int, int> := map[];
      var left := room.bids.Keys;
      while left != {}
        invariant left <= room.bids.Keys
        invariant forall u :: u in room.bids.Keys - left ==> room.bids[u] in room.auction.openings
        invariant bids == map u | u in room.bids.Keys - left && room.auction.openings[room.bids[u]].Some?
                            :: room.auction.openings[room.bids[u]].value
        decreases |left|
      {
        ghost var member := Member(left);
        var u :| u in left;
        if room.bids[u] !in room.auction.openings {
          return Panic;
        }
        match room.auction.openings[room.bids[u]] {
          case Some(bid) => bids := bids[u := bid];
          case None =>
        }
        left := left - {u};
      }
      return Done(bids);
    }

    /** Takes every bid of the auction out of its bidder's active ones. */
    method ReleaseBids(room: Room) returns (ok: bool)
      requires k.p > 0
      modifies this
      ensures rooms == old(rooms) && ctrAccount == old(ctrAccount) && ctrAuction == old(ctrAuction)
      ensures ok <==> forall u :: u in room.bids ==> room.bids[u] in room.auction.comms && u in old(accounts)
      ensures ok ==> accounts == Released(k, old(accounts), room, room.bids.Keys)
    {
      hide Minus;
      var left := room.bids.Keys;
      assert accounts == Released(k, accounts, room, {});
      while left != {}
        invariant left <= room.bids.Keys
        invariant rooms == old(rooms) && ctrAccount == old(ctrAccount) && ctrAuction == old(ctrAuction)
        invariant forall u :: u in room.bids.Keys - left ==> room.bids[u] in room.auction.comms && u in old(accounts)
        invariant accounts == Released(k, old(accounts), room, room.bids.Keys - left)
        decreases |left|
      {
        ghost var member := Member(left);
        var u :| u in left;
        if room.bids[u] !in room.auction.comms || u !in accounts {
          return false;
        }
        var c := room.auction.comms[room.bids[u]];
        accounts := accounts[u := accounts[u].(active := Minus(k, accounts[u].active, c.ped))];
        left := left - {u};
      }
      assert room.bids.Keys - left == room.bids.Keys;
      return true;
    }

    method ChargeWinners(winners: seq<int>, price: int) returns (ok: bool)
      requires forall i, j :: 0 <= i < j < |winners| ==> winners[i] != winners[j]
      modifies this
      ensures rooms == old(rooms) && ctrAccount == old(ctrAccount) && ctrAuction == old(ctrAuction)
      ensures ok <==> forall u :: u in winners ==> u in old(accounts) && price <= old(accounts)[u].balance
      ensures ok ==> accounts == Paid(old(accounts), WinnerSet(winners), price)
    {
      assert accounts == Paid(accounts, {}, price);
      var i := 0;
      while i < |winners|
        invariant 0 <= i <= |winners|
        invariant rooms == old(rooms) && ctrAccount == old(ctrAccount) && ctrAuction == old(ctrAuction)
        invariant forall u :: u in winners[..i] ==> u in old(accounts) && price <= old(accounts)[u].balance
        invariant accounts == Paid(old(accounts), WinnerSet(winners[..i]), price)
      {
        var u := winners[i];
        assert u !in winners[..i];
        assert u in winners;
        if u !in accounts || accounts[u].balance < price {
          return false;
        }
        accounts := accounts[u := accounts[u].(balance := accounts[u].balance - price)];
        assert winners[..i + 1] == winners[..i] + [u];
        i := i + 1;
      }
      assert winners[..i] == winners;
      return true;
    }

    /**
     * Settles an auction; `None` means there is no such auction. A missing opening, too few bids with a value,
     * or a winner who cannot pay stops the program.
     */
    method CompleteKPlusOnePriceAuction(a: int, n: nat) returns (r: Outcome<Option<Settlement.Sale>>)
      requires k.p > 0
      modifies this
      ensures a !in old(rooms) <==> r == Done(None)
      ensures r == Done(None) ==> Value() == old(Value())
      ensures r.Done? && r.value.Some? ==>
        && AllOpened(old(rooms)[a]) && |r.value.value.winners| == n
        && Settlement.Admissible(OpenedBids(old(rooms)[a]), n, r.value.value.price, WinnerSet(r.value.value.winners))
        && Settle(k, old(Value()), a, n, r.value.value.price, WinnerSet(r.value.value.winners)) == Accepted(Value())
      ensures r.Panic? && AllOpened(old(rooms)[a]) && n < |OpenedBids(old(rooms)[a])| ==>
        exists price, winners :: Settlement.Admissible(OpenedBids(old(rooms)[a]), n, price, winners)
                                 && !Chargeable(old(Value()), old(rooms)[a], price, winners)
    {
      hide Settlement.Admissible, AllOpened, OpenedBids, Minus;
      if a !in rooms {
        return Done(None);
      }
      var room := rooms[a];
      var bids := CollectBids(room);
      if bids.Panic? {
        return Panic;
      }
      var sale := Settlement.KPlusOnePrice(bids.value, n);
      if sale.Panic? {
        return Panic;
      }
      var price, winners := sale.value.price, sale.value.winners;
      var released := ReleaseBids(room);
      if !released {
        assert !Chargeable(old(Value()), room, price, WinnerSet(winners));
        return Panic;
      }
      var charged := ChargeWinners(winners, price);
      if !charged {
        assert !Chargeable(old(Value()), room, price, WinnerSet(winners));
        return Panic;
      }
      SettledState(k, old(Value()), Value(), room, price, WinnerSet(winners));
      return Done(Some(sale.value));
    }
  }
}
