/** A concrete history after which ending the round stops the server (_wsl_sync/main.rs, advance_round). */
module RoundEnd {
  import opened Outcomes
  import opened Ledger
  import opened LedgerSafety
  import opened Clients
  import opened Worlds
  import opened Reveals

  const P: int := 17179869184

  /** Range proofs exist for exactly the small values, openings for exactly the committed ones. */
  function Example(): Setup
  {
    Setup(P, (c: Ped, proof: int) => Small(c.value % P),
             (c: Comm, b: Option<int>, o: int) => Done(b.Some? && Small(b.value) && c.ped.value % P == b.value))
  }

  function Rewards(a: int): Terms
  {
    Terms(1, 1)
  }

  function Nothing(c: Comm): Option<(int, int)>
  {
    None
  }

  lemma ExampleLawful()
    ensures Lawful(Example()) && Fair(Rewards)
  {
  }

  function Client(balance: int, active: Ped, bids: map<int, ActiveBid>): Private
  {
    Private(balance, active, bids, active.value, 0)
  }

  const C0: Comm := Comm(Ped(10, 0), 0)
  const C1: Comm := Comm(Ped(20, 0), 1)

  function Deposited(amount: int): Books
  {
    Books(amount, 0, 0, multiset{}, map[])
  }

  /** A server without tasks, whose world has two accounts and at most one auction. */
  function Of(w: World, credits: multiset<(int, int)>): Server
  {
    Server(w, {}, map[], map[], credits, {})
  }

  function OneAccount(): World
  {
    World(State(House(map[0 := Account(100, Ped(0, 0))], map[], 1, 0), Deposited(100)),
          map[], map[], map[], map[0 := Client(100, Ped(0, 0), map[])], map[])
  }

  function TwoAccounts(rooms: map<int, Room>): World
  {
    World(State(House(map[0 := Account(100, Ped(0, 0)), 1 := Account(100, Ped(0, 0))], rooms, 2, |rooms|), Deposited(200)),
          map[], map[], map[], map[0 := Client(100, Ped(0, 0), map[]), 1 := Client(100, Ped(0, 0), map[])], map[])
  }

  function OneBid(): World
  {
    World(State(House(map[0 := Account(98, Ped(10, 0)), 1 := Account(100, Ped(0, 0))],
                      map[0 := Room(Auction(map[0 := C0], {C0}, map[]), map[0 := 0])], 2, 1), Deposited(200)),
          map[0 := 1], map[(0, 0) := 0], map[],
          map[0 := Client(98, Ped(10, 0), map[0 := ActiveBid(10, 0, C0)]), 1 := Client(100, Ped(0, 0), map[])],
          map[(0, 0) := 0])
  }

  function TwoBids(balance: int, openings: map<int, Option<int>>, revealed: map<int, set<int>>): World
  {
    World(State(House(map[0 := Account(balance, Ped(10, 0)), 1 := Account(98, Ped(20, 0))],
                      map[0 := Room(Auction(map[0 := C0, 1 := C1], {C0, C1}, openings), map[0 := 0, 1 := 1])], 2, 1), Deposited(200)),
          map[0 := 2], map[(0, 0) := 0, (0, 1) := 1], revealed,
          map[0 := Client(balance, Ped(10, 0), map[0 := ActiveBid(10, 0, C0)]), 1 := Client(98, Ped(20, 0), map[0 := ActiveBid(20, 0, C1)])],
          map[(0, 0) := 0, (0, 1) := 0])
  }

  const EMPTY: Room := Room(Auction(map[], {}, map[]), map[])

  lemma Overwrite<V>(x: V, y: V, z: V)
    ensures map[0 := x][0 := y] == map[0 := y]
    ensures map[0 := x, 1 := z][0 := y] == map[0 := y, 1 := z]
    ensures map[0 := z, 1 := x][1 := y] == map[0 := z, 1 := y]
  {
  }

  // ---------------------------------------------------------- what the house does

  lemma HouseEnlists()
    ensures var k := Example();
      && Step(k, Rewards, Start(), DoNewAccount) == Accepted(State(House(map[0 := Account(0, Ped(0, 0))], map[], 1, 0), Deposited(0)))
      && Step(k, Rewards, State(House(map[0 := Account(0, Ped(0, 0))], map[], 1, 0), Deposited(0)), DoDeposit(0, 100)) == Accepted(OneAccount().ledger)
      && Step(k, Rewards, OneAccount().ledger, DoNewAccount)
         == Accepted(State(House(map[0 := Account(100, Ped(0, 0)), 1 := Account(0, Ped(0, 0))], map[], 2, 0), Deposited(100)))
      && Step(k, Rewards, State(House(map[0 := Account(100, Ped(0, 0)), 1 := Account(0, Ped(0, 0))], map[], 2, 0), Deposited(100)), DoDeposit(1, 100))
         == Accepted(TwoAccounts(map[]).ledger)
  {
    Overwrite(Account(0, Ped(0, 0)), Account(100, Ped(0, 0)), Account(100, Ped(0, 0)));
  }

  lemma Enlisted()
    ensures Enroll(Example(), Rewards, Boot().world, 100) == Accepted(OneAccount())
    ensures Enroll(Example(), Rewards, OneAccount(), 100) == Accepted(TwoAccounts(map[]))
    ensures OpenAuction(Example(), Rewards, TwoAccounts(map[])) == Accepted(TwoAccounts(map[0 := EMPTY]))
  {
    HouseEnlists();
    assert Step(Example(), Rewards, TwoAccounts(map[]).ledger, DoNewAuction) == Accepted(TwoAccounts(map[0 := EMPTY]).ledger);
    hide Step;
  }

  lemma Residues()
    ensures 10 % P == 10 && 20 % P == 20 && 98 % P == 98 && 88 % P == 88 && 78 % P == 78 && 0 % P == 0
  {
  }

  lemma FirstTaken()
    ensures Step(Example(), Rewards, TwoAccounts(map[0 := EMPTY]).ledger, DoBid(0, 0, C0, 0, 0)) == Accepted(OneBid().ledger)
  {
    Residues();
    Overwrite(Account(100, Ped(0, 0)), Account(98, Ped(10, 0)), Account(100, Ped(0, 0)));
    Overwrite(EMPTY, Room(Auction(map[0 := C0], {C0}, map[]), map[0 := 0]), EMPTY);
    assert BidRemainder(Example(), 98, C0.ped, Ped(0, 0)) == Ped(88, 0);
    assert Plus(Example(), Ped(0, 0), C0.ped) == Ped(10, 0);
    assert AcceptBid(EMPTY.auction, C0) == Accepted((Auction(map[0 := C0], {C0}, map[]), 0));
  }

  lemma FirstPlaced()
    ensures PlaceBid(Example(), Rewards, TwoAccounts(map[0 := EMPTY]), 0, 0, 10, 0, 0, 0, 0, 0) == Accepted(OneBid())
  {
    Residues();
    FirstTaken();
    Overwrite(Client(100, Ped(0, 0), map[]), Client(98, Ped(10, 0), map[0 := ActiveBid(10, 0, C0)]), Client(100, Ped(0, 0), map[]));
    assert ProposeBid(Example(), Rewards(0), Client(100, Ped(0, 0), map[]), 10, 0, 0).value.comm == C0;
    assert ConfirmBid(Example(), Rewards(0), Client(100, Ped(0, 0), map[]), 0, 10, Scalar(Example(), 0), C0)
      == Accepted(Client(98, Ped(10, 0), map[0 := ActiveBid(10, 0, C0)]));
    hide Step;
  }

  lemma SecondTaken()
    ensures Step(Example(), Rewards, OneBid().ledger, DoBid(0, 1, C1, 0, 0)) == Accepted(TwoBids(98, map[], map[]).ledger)
  {
    Residues();
    var room := Room(Auction(map[0 := C0], {C0}, map[]), map[0 := 0]);
    Overwrite(Account(100, Ped(0, 0)), Account(98, Ped(20, 0)), Account(98, Ped(10, 0)));
    Overwrite(room, Room(Auction(map[0 := C0, 1 := C1], {C0, C1}, map[]), map[0 := 0, 1 := 1]), room);
    assert BidRemainder(Example(), 98, C1.ped, Ped(0, 0)) == Ped(78, 0);
    assert Plus(Example(), Ped(0, 0), C1.ped) == Ped(20, 0);
    assert C1 !in {C0};
    assert {C0} + {C1} == {C0, C1};
    assert AcceptBid(room.auction, C1) == Accepted((Auction(map[0 := C0, 1 := C1], {C0, C1}, map[]), 1));
  }

  lemma SecondPlaced()
    ensures PlaceBid(Example(), Rewards, OneBid(), 0, 1, 20, 0, 1, 0, 0, 0) == Accepted(TwoBids(98, map[], map[]))
  {
    Residues();
    SecondTaken();
    Overwrite(Client(100, Ped(0, 0), map[]), Client(98, Ped(20, 0), map[0 := ActiveBid(20, 0, C1)]), Client(98, Ped(10, 0), map[0 := ActiveBid(10, 0, C0)]));
    assert map[0 := 1][0 := 2] == map[0 := 2] by { Overwrite(1, 2, 2); }
    assert ProposeBid(Example(), Rewards(0), Client(100, Ped(0, 0), map[]), 20, 0, 1).value.comm == C1;
    assert ConfirmBid(Example(), Rewards(0), Client(100, Ped(0, 0), map[]), 0, 20, Scalar(Example(), 0), C1)
      == Accepted(Client(98, Ped(20, 0), map[0 := ActiveBid(20, 0, C1)]));
    hide Step;
  }

  lemma FirstOpened()
    ensures RunSelfOpen(Example(), Rewards, TwoBids(98, map[], map[]), 0, 0, 10) == Accepted(TwoBids(100, map[0 := Some(10)], map[0 := {0}]))
  {
    Residues();
    var room, room' := TwoBids(98, map[], map[]).ledger.house.rooms[0], TwoBids(98, map[0 := Some(10)], map[]).ledger.house.rooms[0];
    Overwrite(Account(98, Ped(10, 0)), Account(100, Ped(10, 0)), Account(98, Ped(20, 0)));
    Overwrite(room, room', room);
    Overwrite(Client(98, Ped(10, 0), map[0 := ActiveBid(10, 0, C0)]), Client(100, Ped(10, 0), map[0 := ActiveBid(10, 0, C0)]),
              Client(98, Ped(20, 0), map[0 := ActiveBid(20, 0, C1)]));
    assert Step(Example(), Rewards, TwoBids(98, map[], map[]).ledger, DoSelfOpen(0, 0, 10, 0))
      == Accepted(TwoBids(100, map[0 := Some(10)], map[0 := {0}]).ledger);
    assert {} + {0} == {0};
    hide Step;
  }

  // -------------------------------------------------------------------- the history

  function History(): seq<Move>
  {
    [Enlist(100), Enlist(100), StartAuction, Place(0, 0, 10, 0, 0, 0, 0, 0), Place(0, 1, 20, 0, 1, 0, 0, 0), OpenSelf(0, 0, 10)]
  }

  lemma ReachedStep(moves: seq<Move>, before: Server, m: Move, s: Server)
    requires ExampleIsPositive() && Reached(Example(), Rewards, Nothing, Nothing, moves, before)
    requires Allowed(Example(), before, m) && Make(Example(), Rewards, Nothing, Nothing, before, m) == Accepted(s)
    ensures Reached(Example(), Rewards, Nothing, Nothing, moves + [m], s)
  {
    hide Allowed, Make;
    var all := moves + [m];
    assert all[..|all| - 1] == moves && all[|all| - 1] == m;
    assert Moved(Example(), Rewards, Nothing, Nothing, before, m, s);
  }

  predicate ExampleIsPositive()
  {
    Example().p > 0
  }

  lemma HistoryReached()
    ensures ExampleIsPositive()
    ensures Reached(Example(), Rewards, Nothing, Nothing, History(), Of(TwoBids(100, map[0 := Some(10)], map[0 := {0}]), multiset{(0, 0)}))
  {
    Enlisted();
    FirstPlaced();
    SecondPlaced();
    FirstOpened();
    hide Enroll, OpenAuction, PlaceBid, RunSelfOpen, Reached, TwoBids, OneBid, OneAccount, TwoAccounts;
    var h := History();
    var none: multiset<(int, int)> := multiset{};
    assert none + none == none && none + multiset{(0, 0)} == multiset{(0, 0)};
    assert Boot() == Of(Boot().world, none);
    BootReached();
    ReachedStep([], Boot(), h[0], Of(OneAccount(), none));
    ReachedStep([] + [h[0]], Of(OneAccount(), none), h[1], Of(TwoAccounts(map[]), none));
    ReachedStep([] + [h[0]] + [h[1]], Of(TwoAccounts(map[]), none), h[2], Of(TwoAccounts(map[0 := EMPTY]), none));
    ReachedStep([] + [h[0]] + [h[1]] + [h[2]], Of(TwoAccounts(map[0 := EMPTY]), none), h[3], Of(OneBid(), none));
    ReachedStep([] + [h[0]] + [h[1]] + [h[2]] + [h[3]], Of(OneBid(), none), h[4], Of(TwoBids(98, map[], map[]), none));
    ReachedStep([] + [h[0]] + [h[1]] + [h[2]] + [h[3]] + [h[4]], Of(TwoBids(98, map[], map[]), none), h[5],
                Of(TwoBids(100, map[0 := Some(10)], map[0 := {0}]), multiset{(0, 0)}));
    assert [] + [h[0]] + [h[1]] + [h[2]] + [h[3]] + [h[4]] + [h[5]] == h;
  }

  lemma BootReached()
    ensures Reached(Example(), Rewards, Nothing, Nothing, [], Boot())
  {
  }

  /**
   * Two accounts, two bids, one of them opened: in this state, which the server does reach, ending the round with one
   * bid more revealed than there are winners stops the program, whatever sale one asks for.
   */
  lemma RoundEndStops(price: int, winners: set<int>)
    ensures ExampleIsPositive() && Lawful(Example()) && Fair(Rewards)
    ensures var s := Of(TwoBids(100, map[0 := Some(10)], map[0 := {0}]), multiset{(0, 0)});
      && Reached(Example(), Rewards, Nothing, Nothing, History(), s)
      && CloseRound(Example(), Rewards, s.world, 0, 0, price, winners).Stopped?
  {
    ExampleLawful();
    HistoryReached();
    hide Reached, History;
    var w := TwoBids(100, map[0 := Some(10)], map[0 := {0}]);
    var room := w.ledger.house.rooms[0];
    assert 1 in room.bids && room.bids[1] !in room.auction.openings;
    assert !AllOpened(room);
    assert |RevealedIn(w, 0)| == 1;
  }
}
