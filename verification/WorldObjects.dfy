/** The server's world object (_wsl_sync/house.rs and the parts of main.rs that run under its lock), proved against `Worlds`. */
module WorldObjects {
  import opened Outcomes
  import opened Sums
  import opened Ledger
  import opened Clients
  import opened Worlds
  import opened WorldClients
  import LedgerSafety
  import AuctionHouses

  predicate Answers(reply: Reply<World>, r: Outcome<bool>, before: World, after: World)
  {
    match reply
    case Stopped => r == Panic
    case Refused => r == Done(false) && after == before
    case Accepted(w) => r == Done(true) && after == w
  }

  function PendingAmong(w: World, a: int, keys: set<(int, int)>): map<int, int>
  {
    map key | key in w.bidIndex && key in keys && key.0 == a && w.bidIndex[key] !in RevealedIn(w, a) :: key.1 := w.bidIndex[key]
  }

  lemma PendingAll(w: World, a: int)
    ensures PendingAmong(w, a, w.bidIndex.Keys) == PendingReveals(w, a)
  {
  }

  lemma PendingStep(w: World, a: int, done: set<(int, int)>, key: (int, int))
    requires key in w.bidIndex && key !in done
    ensures PendingAmong(w, a, done + {key})
         == if key.0 == a && w.bidIndex[key] !in RevealedIn(w, a) then PendingAmong(w, a, done)[key.1 := w.bidIndex[key]]
            else PendingAmong(w, a, done)
  {
  }

  /** The bidders of the auction among `keys` can confirm. */
  ghost predicate AllAmong(k: Setup, w: World, a: int, price: int, winners: set<int>, keys: set<(int, int)>)
    requires k.p > 0
  {
    forall key :: key in keys && key.0 == a ==> key.1 in w.privates && Confirmed(k, w.privates[key.1], a, price, key.1 in winners).Accepted?
  }

  /** The clients after the bidders among `keys` have confirmed. */
  ghost function FinalizedAmong(k: Setup, w: World, a: int, price: int, winners: set<int>, keys: set<(int, int)>): map<int, Private>
    requires k.p > 0 && AllAmong(k, w, a, price, winners, keys)
  {
    map u | u in w.privates :: if (a, u) in keys then Confirmed(k, w.privates[u], a, price, u in winners).value else w.privates[u]
  }

  lemma NobodyConfirmed(k: Setup, w: World, a: int, price: int, winners: set<int>)
    requires k.p > 0
    ensures AllAmong(k, w, a, price, winners, {}) && FinalizedAmong(k, w, a, price, winners, {}) == w.privates
  {
  }

  /** A bidder not yet reached has its old private state, and confirming it extends what is done. */
  lemma UnconfirmedYet(k: Setup, w: World, a: int, price: int, winners: set<int>, done: set<(int, int)>, key: (int, int))
    requires k.p > 0 && AllAmong(k, w, a, price, winners, done) && key !in done && key in w.bidIndex
    ensures var now := FinalizedAmong(k, w, a, price, winners, done);
      && (key.1 in now <==> key.1 in w.privates)
      && (key.0 == a && key.1 in w.privates ==> now[key.1] == w.privates[key.1])
      && (key.0 == a && AllConfirm(k, w, a, price, winners) ==>
            key.1 in w.privates && Confirmed(k, w.privates[key.1], a, price, key.1 in winners).Accepted?)
      && (key.0 != a ==> AllAmong(k, w, a, price, winners, done + {key}) && FinalizedAmong(k, w, a, price, winners, done + {key}) == now)
      && (key.0 == a && key.1 in w.privates && Confirmed(k, w.privates[key.1], a, price, key.1 in winners).Accepted? ==>
            && AllAmong(k, w, a, price, winners, done + {key})
            && FinalizedAmong(k, w, a, price, winners, done + {key})
               == now[key.1 := Confirmed(k, w.privates[key.1], a, price, key.1 in winners).value])
  {
    hide Confirmed;
  }

  lemma EverybodyConfirmed(k: Setup, w: World, a: int, price: int, winners: set<int>)
    requires k.p > 0 && AllAmong(k, w, a, price, winners, w.bidIndex.Keys)
    ensures AllConfirm(k, w, a, price, winners)
    ensures w.(privates := FinalizedAmong(k, w, a, price, winners, w.bidIndex.Keys)) == Finalized(k, w, a, price, winners)
  {
    hide Confirmed;
  }

  /** A client's bid in an auction, if it is among those counted. */
  function Counted(c: Private, done: set<int>, a: int): int
  {
    if a in c.bids && a in done then c.bids[a].bid else 0
  }

  lemma CountOne(c: Private, done: set<int>, a: int, n: nat)
    requires a in c.bids && a !in done && 0 <= a < n
    ensures SumTo((b: int) => Counted(c, done + {a}, b), n) == SumTo((b: int) => Counted(c, done, b), n) + c.bids[a].bid
  {
    SumChange((b: int) => Counted(c, done, b), (b: int) => Counted(c, done + {a}, b), n, a);
  }

  lemma AllCounted(c: Private, done: set<int>, n: nat)
    requires done == c.bids.Keys
    ensures SumTo((a: int) => Counted(c, done, a), n) == SumTo((a: int) => BidIn(c, a), n)
  {
    SumSame((a: int) => Counted(c, done, a), (a: int) => BidIn(c, a), n);
  }

  lemma NothingCounted(c: Private, n: nat)
    ensures SumTo((a: int) => Counted(c, c.bids.Keys - c.bids.Keys, a), n) == 0
  {
    SumZero((a: int) => Counted(c, c.bids.Keys - c.bids.Keys, a), n);
  }

  class WorldObject {
    const k: Setup
    const terms: int -> Terms
    const house: AuctionHouses.AuctionHouse
    var bidsPer: map<int, int>
    var bidIndex: map<(int, int), int>
    var revealed: map<int, set<int>>
    var privates: map<int, Private>
    var evidence: map<(int, int), int>
    ghost var books: Books

    ghost predicate Valid()
    {
      house.k == k && k.p > 0
    }

    ghost function Value(): World
      reads this, house
    {
      World(State(house.Value(), books), bidsPer, bidIndex, revealed, privates, evidence)
    }

    constructor (k: Setup, terms: int -> Terms)
      requires k.p > 0
      ensures Valid() && this.k == k && this.terms == terms && fresh(house)
      ensures Value() == World(Start(), map[], map[], map[], map[], map[])
    {
      this.k, this.terms := k, terms;
      var h := new AuctionHouses.AuctionHouse(k);
      house := h;
      bidsPer, bidIndex, revealed, privates, evidence := map[], map[], map[], map[], map[];
      books := Start().books;
    }

    method InsertRevealed(a: int, id: int)
      modifies this
      ensures Value() == Reveal(old(Value()), a, id)
    {
      if a !in revealed {
        revealed := revealed[a := {}];
      }
      revealed := revealed[a := revealed[a] + {id}];
    }

    /** Stores what a client has confirmed. */
    method StoreClient(u: int, change: Change) returns (r: Outcome<bool>)
      modifies this
      ensures Answers(WithClient(old(Value()), u, change), r, old(Value()), Value())
    {
      match change {
        case Stopped => return Panic;
        case Refused => return Done(true);
        case Accepted(c) =>
          privates := privates[u := c];
          return Done(true);
      }
    }

    method CreateAccount(init: nat) returns (r: Outcome<bool>)
      requires Valid()
      modifies this, house
      ensures Answers(Enroll(k, terms, old(Value()), init), r, old(Value()), Value())
    {
      hide NewAccount, Deposit;
      var u := house.ctrAccount;
      var started := house.OpenAccount();
      if started != Done(true) {
        return Panic;
      }
      var paid := house.AccountDeposit(u, init);
      if paid != Done(true) {
        return Panic;
      }
      books := books.(deposited := books.deposited + init);
      r := StoreClient(u, ConfirmCredit(Fresh(), init));
    }

    method DepositTo(u: int, amt: nat) returns (r: Outcome<bool>)
      requires Valid()
      modifies this, house
      ensures Answers(TakeDeposit(k, terms, old(Value()), u, amt), r, old(Value()), Value())
    {
      hide Deposit;
      r := house.AccountDeposit(u, amt);
      if r == Done(true) {
        books := books.(deposited := books.deposited + amt);
        if u in privates {
          r := StoreClient(u, ConfirmCredit(privates[u], amt));
        }
      }
    }

    method WithdrawFrom(u: int, amt: nat, proof: int) returns (r: Outcome<bool>)
      requires Valid()
      modifies this, house
      ensures Answers(PayOut(k, terms, old(Value()), u, amt, proof), r, old(Value()), Value())
    {
      hide Withdraw, Remainder, Scalar;
      if u !in privates {
        return Done(false);
      }
      var mine := privates[u];
      match ProposeWithdrawal(k, mine, amt) {
        case Stopped => return Panic;
        case Refused => return Done(false);
        case Accepted(_) =>
      }
      r := house.AccountWithdrawal(u, amt, proof);
      if r == Done(true) {
        books := books.(withdrawn := books.withdrawn + amt);
        r := StoreClient(u, ConfirmWithdrawal(mine, amt));
      }
    }

    method PlaceBid(a: int, u: int, bid: int, r: int, puzzle: int, bp: int, lp: int, proof: int) returns (answer: Outcome<bool>)
      requires Valid()
      modifies this, house
      ensures Answers(Worlds.PlaceBid(k, terms, old(Value()), a, u, bid, r, puzzle, bp, lp, proof), answer, old(Value()), Value())
    {
      hide Bid, ProposeBid, ConfirmBid, Scalar;
      if u !in privates {
        return Done(false);
      }
      var mine := privates[u];
      var proposal := ProposeBid(k, terms(a), mine, bid, r, puzzle);
      match proposal {
        case Stopped => return Panic;
        case Refused => return Done(false);
        case Accepted(_) =>
      }
      var comm := proposal.value.comm;
      var number := if a in bidsPer then bidsPer[a] else 0;
      answer := house.AccountBid(terms(a), a, u, comm, bp, lp);
      if answer != Done(true) {
        return;
      }
      bidsPer := bidsPer[a := (if a in bidsPer then bidsPer[a] else 0) + 1];
      bidIndex := bidIndex[(a, u) := number];
      evidence := evidence[(a, u) := proof];
      answer := StoreClient(u, ConfirmBid(k, terms(a), mine, a, bid, Scalar(k, r), comm));
    }

    method RunSelfOpen(a: int, u: int, bid: int) returns (r: Outcome<bool>)
      requires Valid()
      modifies this, house
      ensures Answers(Worlds.RunSelfOpen(k, terms, old(Value()), a, u, bid), r, old(Value()), Value())
    {
      hide SelfOpen, ConfirmCredit;
      if u !in privates || a !in privates[u].bids {
        return Done(false);
      }
      var mine := privates[u];
      if mine.bids[a].bid != bid {
        return Done(false);
      }
      r := house.AccountSelfOpen(terms(a), a, u, bid, if (a, u) in evidence then evidence[(a, u)] else 0);
      if r == Done(true) {
        if (a, u) in bidIndex {
          InsertRevealed(a, bidIndex[(a, u)]);
        }
        r := StoreClient(u, ConfirmCredit(mine, terms(a).selfOpen + terms(a).forceOpen));
      }
    }

    /**
     * What the long computation needs. In every reachable world there is a job exactly for an active bid, with the
     * commitment, amount and number the house has for it.
     */
    method ForceOpenPrepare(a: int, u: int) returns (job: Option<Job>)
      requires k.p > 0 && LedgerSafety.Sound(k, Value().ledger) && Shadows(Value()) && ClientsAgree(k, Value())
      ensures job.Some? <==> Active(Value().ledger, u, a)
      ensures job.Some? ==>
        && job.value.comm == HouseComm(Value().ledger, u, a)
        && job.value.stored == HouseComm(Value().ledger, u, a).ped.value
        && job.value.id == house.rooms[a].bids[u]
    {
      PreparedIsHouses(k, Value(), a, u);
      hide LedgerSafety.Sound, Shadows, ClientsAgree, Active, HouseComm;
      job := ReadJob(a, u);
    }

    method ReadJob(a: int, u: int) returns (job: Option<Job>)
      ensures job == Prepare(Value(), a, u)
    {
      if u !in privates || a !in privates[u].bids || (a, u) !in bidIndex {
        return None;
      }
      return Some(Job(privates[u].bids[a].comm, privates[u].bids[a].bid, bidIndex[(a, u)]));
    }

    /** Books an opening the house has just accepted. */
    method Book(a: int, u: int, id: int) returns (r: Outcome<bool>)
      modifies this
      ensures Answers(Booked(terms, old(Value()), old(Value()).ledger, a, u, id), r, old(Value()), Value())
    {
      InsertRevealed(a, id);
      if u in privates {
        r := StoreClient(u, ConfirmCredit(privates[u], terms(a).forceOpen));
      } else {
        r := Done(true);
      }
    }

    method ForceOpenSettle(a: int, u: int, job: Job, bid: int, proof: int) returns (r: Outcome<bool>)
      requires Valid()
      modifies this, house
      ensures Answers(ForceSettle(k, terms, old(Value()), a, u, job, bid, proof), r, old(Value()), Value())
    {
      hide ForceOpen, ConfirmCredit;
      if a in revealed && job.id in revealed[a] {
        return Done(true);
      }
      if bid != job.stored {
        return Done(false);
      }
      r := house.AccountForceOpen(terms(a), a, u, job.id, Some(bid), proof);
      if r == Done(true) {
        books := books.(forced := books.forced + multiset{a});
        r := Book(a, u, job.id);
      }
    }

    /** `plain` is what the trapdoor recovers from the stored commitment. */
    method ApplyForceOpenCheating(a: int, u: int, plain: Option<(int, int)>) returns (r: Outcome<bool>)
      requires Valid()
      modifies this, house
      ensures Answers(ForceCheating(k, terms, old(Value()), a, u, plain), r, old(Value()), Value())
    {
      hide ForceOpen, ConfirmCredit;
      var job := ReadJob(a, u);
      if job.None? || plain.None? || plain.value.0 != job.value.stored {
        return Done(false);
      }
      r := house.AccountForceOpen(terms(a), a, u, job.value.id, Some(plain.value.0), plain.value.1);
      if r == Done(true) {
        books := books.(forced := books.forced + multiset{a});
        r := Book(a, u, job.value.id);
      }
    }

    /** The unrevealed bids of an auction. */
    method ListPendingReveals(a: int) returns (pending: map<int, int>)
      ensures pending == PendingReveals(Value(), a)
    {
      pending := map[];
      var left := bidIndex.Keys;
      assert pending == PendingAmong(Value(), a, {});
      while left != {}
        invariant left <= bidIndex.Keys
        invariant pending == PendingAmong(Value(), a, bidIndex.Keys - left)
        decreases |left|
      {
        var key :| key in left;
        ghost var done := bidIndex.Keys - left;
        PendingStep(Value(), a, done, key);
        if key.0 == a && !(a in revealed && bidIndex[key] in revealed[a]) {
          pending := pending[key.1 := bidIndex[key]];
        }
        left := left - {key};
        assert bidIndex.Keys - left == done + {key};
      }
      assert bidIndex.Keys - left == bidIndex.Keys;
      PendingAll(Value(), a);
    }

    /**
     * Every bidder of the auction confirms the settlement. It goes through exactly if every confirmation does; an
     * error leaves the bidders that came later unconfirmed.
     */
    method FinalizePrivateAfterSettlement(a: int, price: int, winners: set<int>) returns (r: Outcome<bool>)
      requires Valid()
      modifies this
      ensures r == Done(true) <==> AllConfirm(k, old(Value()), a, price, winners)
      ensures r == Done(true) ==> Value() == Finalized(k, old(Value()), a, price, winners)
    {
      hide Confirmed, FinalizedAmong, AllAmong, AllConfirm;
      var left := bidIndex.Keys;
      ghost var before := Value();
      NobodyConfirmed(k, before, a, price, winners);
      assert bidIndex.Keys - left == {};
      while left != {}
        invariant left <= bidIndex.Keys
        invariant Value() == before.(privates := privates)
        invariant AllAmong(k, before, a, price, winners, bidIndex.Keys - left)
        invariant privates == FinalizedAmong(k, before, a, price, winners, bidIndex.Keys - left)
        decreases |left|
      {
        var key :| key in left;
        ghost var done := bidIndex.Keys - left;
        UnconfirmedYet(k, before, a, price, winners, done, key);
        if key.0 == a {
          if key.1 !in privates {
            return Done(false);
          }
          match Confirmed(k, privates[key.1], a, price, key.1 in winners) {
            case Stopped => return Panic;
            case Refused => return Done(false);
            case Accepted(c) => privates := privates[key.1 := c];
          }
        }
        left := left - {key};
        assert bidIndex.Keys - left == done + {key};
      }
      assert bidIndex.Keys - left == bidIndex.Keys;
      EverybodyConfirmed(k, before, a, price, winners);
      return Done(true);
    }

    /** The total balance, what is available, and what active bids freeze. */
    method AccountBalances(u: int) returns (total: int, available: int, frozen: int)
      requires Valid() && LedgerSafety.Sound(k, Value().ledger) && ClientsAgree(k, Value()) && u in house.accounts
      ensures total == house.accounts[u].balance
      ensures house.ctrAuction >= 0 && frozen == LedgerSafety.Committed(Value().ledger, u)
      ensures 0 <= available == total - frozen
    {
      hide LedgerSafety.Sound, ClientsAgree, LedgerSafety.Committed, Counted, BidIn;
      BalancesShown(k, Value(), u);
      ghost var n: nat := house.ctrAuction;
      var mine := privates[u];
      frozen := 0;
      var left := mine.bids.Keys;
      NothingCounted(mine, n);
      while left != {}
        invariant left <= mine.bids.Keys
        invariant frozen == SumTo((a: int) => Counted(mine, mine.bids.Keys - left, a), n)
        decreases |left|
      {
        ghost var member := Member(left);
        var a :| a in left;
        ghost var done := mine.bids.Keys - left;
        CountOne(mine, done, a, n);
        frozen := frozen + mine.bids[a].bid;
        left := left - {a};
        assert mine.bids.Keys - left == done + {a};
      }
      AllCounted(mine, mine.bids.Keys - left, n);
      total := mine.balance;
      available := if total >= frozen then total - frozen else 0;
    }
  }
}
