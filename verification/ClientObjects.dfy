/** The client object of auction_house/src/house.rs, whose confirmations update its fields, proved against the client's private state. */
module ClientObjects {
  import opened Outcomes
  import opened Ledger
  import opened Clients

  predicate Answers(change: Change, r: Outcome<bool>, before: Private, after: Private)
  {
    match change
    case Stopped => r == Panic
    case Refused => r == Done(false) && after == before
    case Accepted(c) => r == Done(true) && after == c
  }

  class AccountPrivateState {
    const k: Setup
    var balance: int
    var commActiveBids: Ped
    var activeBids: map<int, ActiveBid>
    var sumActiveBids: int
    var openingActiveBids: int

    function Value(): Private
      reads this
    {
      Private(balance, commActiveBids, activeBids, sumActiveBids, openingActiveBids)
    }

    constructor (k: Setup)
      ensures this.k == k && Value() == Fresh()
    {
      this.k := k;
      balance, commActiveBids, activeBids, sumActiveBids, openingActiveBids := 0, Ped(0, 0), map[], 0, 0;
    }

    method Credit(amount: int) returns (r: Outcome<bool>)
      modifies this
      ensures Answers(ConfirmCredit(old(Value()), amount), r, old(Value()), Value())
    {
      if balance + amount >= WORD {
        return Panic;
      }
      balance := balance + amount;
      return Done(true);
    }

    method ConfirmWithdrawal(amt: int) returns (r: Outcome<bool>)
      modifies this
      ensures Answers(Clients.ConfirmWithdrawal(old(Value()), amt), r, old(Value()), Value())
    {
      if balance < amt {
        return Panic;
      }
      balance := balance - amt;
      return Done(true);
    }

    method ConfirmBid(t: Terms, a: int, bid: int, opening: int, comm: Comm) returns (r: Outcome<bool>)
      requires k.p > 0
      modifies this
      ensures Answers(Clients.ConfirmBid(k, t, old(Value()), a, bid, opening, comm), r, old(Value()), Value())
    {
      if balance < t.selfOpen + t.forceOpen {
        return Panic;
      }
      balance := balance - (t.selfOpen + t.forceOpen);
      if sumActiveBids + bid >= WORD {
        return Panic;
      }
      sumActiveBids := sumActiveBids + bid;
      openingActiveBids := Scalar(k, openingActiveBids + opening);
      commActiveBids := Plus(k, commActiveBids, comm.ped);
      activeBids := activeBids[a := ActiveBid(bid, opening, comm)];
      return Done(true);
    }

    method ConfirmAuctionLoss(a: int) returns (r: Outcome<bool>)
      requires k.p > 0
      modifies this
      ensures Answers(ConfirmLoss(k, old(Value()), a), r, old(Value()), Value())
    {
      if a !in activeBids {
        return Done(false);
      }
      var entry := activeBids[a];
      if sumActiveBids < entry.bid {
        return Panic;
      }
      sumActiveBids := sumActiveBids - entry.bid;
      openingActiveBids := Scalar(k, openingActiveBids - entry.opening);
      commActiveBids := Minus(k, commActiveBids, entry.comm.ped);
      activeBids := activeBids - {a};
      return Done(true);
    }

    method ConfirmAuctionWin(a: int, price: int) returns (r: Outcome<bool>)
      requires k.p > 0
      modifies this
      ensures Answers(ConfirmWin(k, old(Value()), a, price), r, old(Value()), Value())
    {
      if a !in activeBids {
        return Done(false);
      }
      if balance < price {
        return Panic;
      }
      balance := balance - price;
      r := ConfirmAuctionLoss(a);
    }
  }
}
