/** Solvency of the house in every reachable state. */
module LedgerSafety {
  import opened Arithmetic
  import opened Outcomes
  import opened Sums
  import opened Ledger
  import Settlement

  ghost predicate Fair(t: int -> Terms)
  {
    forall a: int :: 0 <= t(a).selfOpen && 0 <= t(a).forceOpen
  }

  // -------------------------------------------------------------- the invariant

  /** Commitments are numbered from zero without gaps and are all different. */
  ghost predicate Numbered(x: Auction)
  {
    && (forall id :: id in x.comms <==> 0 <= id < |x.known|)
    && (forall id :: id in x.comms ==> x.comms[id] in x.known)
    && (forall i, j :: i in x.comms && j in x.comms && i != j ==> x.comms[i] != x.comms[j])
  }

  /** Every bid number is held by one account. */
  ghost predicate Held(r: Room, accounts: int)
  {
    && (forall u :: u in r.bids ==> 0 <= u < accounts && 0 <= r.bids[u] < |r.bids|)
    && (forall u, v :: u in r.bids && v in r.bids && u != v ==> r.bids[u] != r.bids[v])
  }

  /** Bid numbers are dense, held by distinct accounts, and name distinct commitments. */
  ghost predicate Indexed(r: Room, accounts: int)
  {
    Numbered(r.auction) && Held(r, accounts) && |r.bids| == |r.auction.known|
  }

  /** Bids are 32-bit values, and a bid opened to a value was committed to that value. */
  ghost predicate Bound(k: Setup, x: Auction)
    requires k.p > 0
  {
    && (forall id :: id in x.comms ==> Canonical(k, x.comms[id].ped) && Small(x.comms[id].ped.value))
    && (forall id :: id in x.openings ==> id in x.comms)
    && (forall id :: id in x.openings && x.openings[id].Some? ==> x.openings[id].value == x.comms[id].ped.value)
  }

  /** The committed value of `u`'s bid in auction `a` while it is active. */
  function Owed(s: State, u: int, a: int): int
  {
    if a in s.house.rooms && u in s.house.rooms[a].bids && !(a in s.books.released && u in s.books.released[a])
       && s.house.rooms[a].bids[u] in s.house.rooms[a].auction.comms
    then s.house.rooms[a].auction.comms[s.house.rooms[a].bids[u]].ped.value
    else 0
  }

  /** The sum of `u`'s active bids. */
  ghost function Committed(s: State, u: int): int
    requires s.house.ctrAuction >= 0
  {
    SumTo((a: int) => Owed(s, u, a), s.house.ctrAuction)
  }

  /** The balance covers the active bids, which the hidden total stands for without wrap-around. */
  ghost predicate Solvent(k: Setup, s: State, u: int)
    requires u in s.house.accounts && s.house.ctrAuction >= 0 && k.p > 0
  {
    && Small(s.house.accounts[u].balance)
    && 0 <= Committed(s, u) <= s.house.accounts[u].balance
    && s.house.accounts[u].active.value == Committed(s, u)
    && Canonical(k, s.house.accounts[u].active)
  }

  ghost predicate Shaped(h: House)
  {
    && 0 <= h.ctrAccount < WORD && 0 <= h.ctrAuction < WORD
    && (forall u :: u in h.accounts <==> 0 <= u < h.ctrAccount)
    && (forall a :: a in h.rooms <==> 0 <= a < h.ctrAuction)
    && (forall a :: a in h.rooms ==> Indexed(h.rooms[a], h.ctrAccount))
  }

  ghost predicate Sound(k: Setup, s: State)
    requires k.p > 0
  {
    && Shaped(s.house)
    && (forall a :: a in s.house.rooms ==> Bound(k, s.house.rooms[a].auction))
    && (forall a :: a in s.books.released ==> a in s.house.rooms && s.books.released[a] <= s.house.rooms[a].bids.Keys)
    && (forall u :: u in s.house.accounts ==> Solvent(k, s, u))
  }

  // ------------------------------------------------------------ frame properties

  /** Nothing that the hidden total rests on has changed, and the balance still covers it. */
  lemma SolventFrame(k: Setup, s: State, s': State, u: int)
    requires k.p > 0 && 0 <= s.house.ctrAuction == s'.house.ctrAuction
    requires u in s.house.accounts && u in s'.house.accounts && Solvent(k, s, u)
    requires forall a :: 0 <= a < s.house.ctrAuction ==> Owed(s, u, a) == Owed(s', u, a)
    requires s'.house.accounts[u].active == s.house.accounts[u].active
    requires Committed(s, u) <= s'.house.accounts[u].balance < WORD
    ensures Solvent(k, s', u)
  {
    hide Owed;
    SumSame((a: int) => Owed(s, u, a), (a: int) => Owed(s', u, a), s.house.ctrAuction);
  }

  lemma CommittedChange(s: State, s': State, u: int, a: int)
    requires 0 <= a < s.house.ctrAuction == s'.house.ctrAuction
    requires forall b :: 0 <= b < s.house.ctrAuction && b != a ==> Owed(s, u, b) == Owed(s', u, b)
    ensures Committed(s', u) == Committed(s, u) + Owed(s', u, a) - Owed(s, u, a)
  {
    hide Owed;
    SumChange((b: int) => Owed(s, u, b), (b: int) => Owed(s', u, b), s.house.ctrAuction, a);
  }

  lemma BoundAt(k: Setup, x: Auction, id: int)
    requires k.p > 0 && Bound(k, x) && id in x.comms
    ensures Canonical(k, x.comms[id].ped) && Small(x.comms[id].ped.value)
  {
  }

  lemma OwedIsSmall(k: Setup, s: State, u: int, a: int)
    requires k.p > 0 && Sound(k, s)
    ensures Small(Owed(s, u, a))
  {
    if a in s.house.rooms && u in s.house.rooms[a].bids {
      BoundAt(k, s.house.rooms[a].auction, s.house.rooms[a].bids[u]);
    }
  }

  lemma OwedBelowCommitted(k: Setup, s: State, u: int, a: int)
    requires k.p > 0 && Sound(k, s) && 0 <= a < s.house.ctrAuction
    ensures Small(Owed(s, u, a)) && Owed(s, u, a) <= Committed(s, u)
  {
    forall b ensures Small(Owed(s, u, b)) {
      OwedIsSmall(k, s, u, b);
    }
    hide Owed, Sound;
    SumBounds((b: int) => Owed(s, u, b), s.house.ctrAuction);
    assert ((b: int) => Owed(s, u, b))(a) == Owed(s, u, a);
  }

  /** A set of accounts has no more members than there are accounts. */
  lemma {:induction false} FewBidders(users: set<int>, n: int)
    requires 0 <= n && forall u :: u in users ==> 0 <= u < n
    ensures |users| <= n
    decreases n
  {
    if |users| > 0 {
      var u := Member(users);
      assert 0 <= u < n;
      var rest := users - {n - 1};
      FewBidders(rest, n - 1);
      if n - 1 in users {
        assert users == rest + {n - 1};
      } else {
        assert users == rest;
      }
    }
  }

  // -------------------------------------------------- what the hidden checks decide

  /** The withdrawal check on residues decides the inequality between integers. */
  lemma WithdrawalDecided(k: Setup, s: State, u: int, amt: nat)
    requires k.p >= 4 * WORD && Sound(k, s) && u in s.house.accounts && amt <= s.house.accounts[u].balance
    ensures Small(Remainder(k, s.house.accounts[u].balance - amt, s.house.accounts[u].active).value)
       <==> Committed(s, u) + amt <= s.house.accounts[u].balance
  {
    var acct := s.house.accounts[u];
    SolventAt(k, s, u);
    hide Committed, Sound, Remainder;
    RemainderIs(k, acct.balance - amt, acct.active);
    ResidueDecides(acct.balance - amt, acct.active.value, k.p);
  }

  /** The bidding checks on residues decide that rewards, new bid and active bids fit the balance. */
  lemma BidDecided(k: Setup, t: Terms, s: State, u: int, c: Ped)
    requires k.p >= 4 * WORD && Sound(k, s) && u in s.house.accounts && Canonical(k, c) && Small(c.value)
    requires 0 <= t.selfOpen && 0 <= t.forceOpen && t.selfOpen + t.forceOpen <= s.house.accounts[u].balance
    ensures Small(BidRemainder(k, s.house.accounts[u].balance - t.selfOpen - t.forceOpen, c, s.house.accounts[u].active).value)
       <==> Committed(s, u) + c.value + t.selfOpen + t.forceOpen <= s.house.accounts[u].balance
  {
    var acct := s.house.accounts[u];
    SolventAt(k, s, u);
    hide Committed, Sound, BidRemainder;
    var x := acct.balance - t.selfOpen - t.forceOpen;
    BidRemainderIs(k, x, c, acct.active);
    ResidueDecides(x, c.value + acct.active.value, k.p);
  }

  lemma SolventAt(k: Setup, s: State, u: int)
    requires k.p > 0 && Sound(k, s) && u in s.house.accounts
    ensures s.house.ctrAuction >= 0 && Small(s.house.accounts[u].balance)
    ensures 0 <= Committed(s, u) <= s.house.accounts[u].balance
    ensures s.house.accounts[u].active.value == Committed(s, u)
    ensures Canonical(k, s.house.accounts[u].active)
  {
    assert Solvent(k, s, u);
  }

  lemma ResidueDecides(x: int, y: int, p: int)
    requires p >= 4 * WORD && Small(x) && 0 <= y < 3 * WORD
    ensures Small((x - y) % p) <==> y <= x
    ensures y <= x ==> (x - y) % p == x - y
  {
    if y > x {
      DivModUnique(x - y, -1, p, x - y + p);
    } else {
      DivModUnique(x - y, 0, p, x - y);
    }
  }

  lemma RemainderIs(k: Setup, x: int, c: Ped)
    requires k.p >= 4 * WORD && Small(x)
    ensures Remainder(k, x, c).value == (x - c.value) % k.p
  {
    DivModUnique(x, 0, k.p, x);
  }

  lemma BidRemainderIs(k: Setup, x: int, c: Ped, active: Ped)
    requires k.p >= 4 * WORD && Small(x)
    ensures BidRemainder(k, x, c, active).value == (x - (c.value + active.value)) % k.p
  {
    DivModUnique(x, 0, k.p, x);
    ModTwice(x - c.value, active.value, k.p);
    assert x - c.value - active.value == x - (c.value + active.value);
  }

  lemma ModTwice(x: int, y: int, p: int)
    requires p > 0
    ensures (x % p - y) % p == (x - y) % p
  {
    CongMod(x, p);
    CongAdd(x % p, x, y, y, p);
  }

  // -------------------------------------------------------- what each step keeps

  lemma NewAccountKeeps(k: Setup, s: State, s': State)
    requires k.p > 0 && Sound(k, s) && NewAccount(s.house) == Accepted(s'.house) && s'.books == s.books
    ensures Sound(k, s')
  {
    forall a | a in s'.house.rooms ensures Indexed(s'.house.rooms[a], s'.house.ctrAccount) {
      assert Indexed(s.house.rooms[a], s.house.ctrAccount);
    }
    forall u | u in s'.house.accounts ensures Solvent(k, s', u) {
      if u == s.house.ctrAccount {
        NothingOwed(s', u);
      } else {
        assert Solvent(k, s, u);
        SolventFrame(k, s, s', u);
      }
    }
  }

  /** Someone who has no bid owes nothing. */
  lemma NothingOwed(s: State, u: int)
    requires s.house.ctrAuction >= 0
    requires forall a :: a in s.house.rooms ==> u !in s.house.rooms[a].bids
    ensures Committed(s, u) == 0
  {
    SumZero((a: int) => Owed(s, u, a), s.house.ctrAuction);
  }

  lemma NewAuctionKeeps(k: Setup, s: State, s': State)
    requires k.p > 0 && Sound(k, s) && NewAuction(s.house) == Accepted(s'.house) && s'.books == s.books
    ensures Sound(k, s')
  {
    ShapedNewAuction(k, s.house, s'.house);
    hide Shaped, Bound, Owed, Committed;
    forall u | u in s'.house.accounts ensures Solvent(k, s', u) {
      assert Solvent(k, s, u);
      OneMoreAuction(s, s', u);
    }
  }

  lemma ShapedNewAuction(k: Setup, h: House, h': House)
    requires k.p > 0 && Shaped(h) && NewAuction(h) == Accepted(h')
    ensures Shaped(h') && h.ctrAuction >= 0 && h'.ctrAuction == h.ctrAuction + 1
    ensures h'.rooms.Keys == h.rooms.Keys + {h.ctrAuction} && h.ctrAuction !in h.rooms
    ensures h'.rooms[h.ctrAuction].bids == map[] && Bound(k, h'.rooms[h.ctrAuction].auction)
    ensures h'.accounts == h.accounts
  {
    hide Indexed, Bound;
    EmptyRoom(k, h'.rooms[h.ctrAuction], h'.ctrAccount);
    assert h'.ctrAccount == h.ctrAccount;
    forall a ensures a in h'.rooms <==> 0 <= a < h'.ctrAuction {
    }
    forall a | a in h'.rooms ensures Indexed(h'.rooms[a], h'.ctrAccount) {
      if a != h.ctrAuction {
        assert h'.rooms[a] == h.rooms[a];
      }
    }
  }

  lemma EmptyRoom(k: Setup, r: Room, accounts: int)
    requires k.p > 0 && r == Room(Auction(map[], {}, map[]), map[])
    ensures Indexed(r, accounts) && Bound(k, r.auction)
  {
  }

  lemma OneMoreAuction(s: State, s': State, u: int)
    requires s.house.ctrAuction >= 0 && s'.house.ctrAuction == s.house.ctrAuction + 1
    requires s'.house.rooms.Keys == s.house.rooms.Keys + {s.house.ctrAuction} && s'.books == s.books
    requires forall a :: a in s.house.rooms && a != s.house.ctrAuction ==> s'.house.rooms[a] == s.house.rooms[a]
    requires s'.house.rooms[s.house.ctrAuction].bids == map[]
    ensures Committed(s', u) == Committed(s, u)
  {
    var n := s.house.ctrAuction;
    var f, f' := (a: int) => Owed(s, u, a), (a: int) => Owed(s', u, a);
    assert Owed(s', u, n) == 0;
    forall a | 0 <= a < n ensures f(a) == f'(a) {
    }
    SumSame(f, f', n);
    assert SumTo(f', n + 1) == SumTo(f', n) + f'(n);
  }

  lemma SetBalance(k: Setup, s: State, s': State, u: int, balance: int)
    requires k.p > 0 && Sound(k, s) && u in s.house.accounts
    requires Committed(s, u) <= balance < WORD
    requires s'.house == WithBalance(s.house, u, balance) && s'.books.released == s.books.released
    ensures Sound(k, s')
  {
    forall v | v in s'.house.accounts ensures Solvent(k, s', v) {
      assert Solvent(k, s, v);
      SolventFrame(k, s, s', v);
    }
  }

  lemma OpeningKeeps(k: Setup, s: State, s': State, a: int, id: int, bid: Option<int>)
    requires k.p > 0 && Sound(k, s) && a in s.house.rooms
    requires var x := s.house.rooms[a].auction;
      && id in x.comms && id !in x.openings && (bid.Some? ==> bid.value == x.comms[id].ped.value)
      && s'.house == s.house.(rooms := s.house.rooms[a := s.house.rooms[a].(auction := x.(openings := x.openings[id := bid]))])
    requires s'.books.released == s.books.released
    ensures Sound(k, s')
    ensures forall u :: Committed(s', u) == Committed(s, u)
  {
    assert Indexed(s.house.rooms[a], s.house.ctrAccount);
    assert Indexed(s'.house.rooms[a], s'.house.ctrAccount);
    assert Bound(k, s'.house.rooms[a].auction);
    forall u, b ensures Owed(s, u, b) == Owed(s', u, b) {
    }
    forall u ensures Committed(s', u) == Committed(s, u) {
      SumSame((b: int) => Owed(s, u, b), (b: int) => Owed(s', u, b), s.house.ctrAuction);
    }
    forall v | v in s'.house.accounts ensures Solvent(k, s', v) {
      assert Solvent(k, s, v);
      SolventFrame(k, s, s', v);
    }
  }

  /** A new bid gets the next number, which fits a word. */
  lemma AcceptKeepsIndex(r: Room, r': Room, c: Comm, u: int, n: int)
    requires Indexed(r, n) && n < WORD && 0 <= u < n && u !in r.bids
    requires AcceptBid(r.auction, c).Accepted?
    requires r' == Room(AcceptBid(r.auction, c).value.0, r.bids[u := AcceptBid(r.auction, c).value.1 % WORD])
    ensures Indexed(r', n) && r' == WithBid(r, u, c)
  {
    NextNumberFits(r, n, u);
    assert r' == WithBid(r, u, c) by { hide Indexed; }
    assert c !in r.auction.known by { hide Indexed; }
    WithBidIndexed(r, c, u, n);
  }

  lemma NextNumberFits(r: Room, n: int, u: int)
    requires Indexed(r, n) && n < WORD && 0 <= u < n && u !in r.bids
    ensures |r.auction.known| == |r.bids| && |r.bids| % WORD == |r.bids|
  {
    hide Numbered;
    FewBidders(r.bids.Keys, n);
    DivModUnique(|r.bids|, 0, WORD, |r.bids|);
  }

  function WithBid(r: Room, u: int, c: Comm): Room
  {
    Room(Auction(r.auction.comms[|r.bids| := c], r.auction.known + {c}, r.auction.openings), r.bids[u := |r.bids|])
  }

  lemma WithBidIndexed(r: Room, c: Comm, u: int, n: int)
    requires Indexed(r, n) && 0 <= u < n && u !in r.bids && c !in r.auction.known
    ensures Indexed(WithBid(r, u, c), n)
  {
    var r' := WithBid(r, u, c);
    NumberedMore(r.auction, r'.auction, c);
    HeldMore(r, r', u, n);
    hide *;
    SizesMore(r, c, u);
  }

  lemma SizesMore(r: Room, c: Comm, u: int)
    requires u !in r.bids && c !in r.auction.known && |r.bids| == |r.auction.known|
    ensures var r' := WithBid(r, u, c); |r'.bids| == |r.bids| + 1 == |r'.auction.known|
  {
    assert WithBid(r, u, c).bids.Keys == r.bids.Keys + {u};
  }

  lemma NumberedMore(x: Auction, x': Auction, c: Comm)
    requires Numbered(x) && c !in x.known
    requires x'.comms == x.comms[|x.known| := c] && x'.known == x.known + {c}
    ensures Numbered(x')
  {
    assert |x'.known| == |x.known| + 1;
  }

  lemma HeldMore(r: Room, r': Room, u: int, n: int)
    requires Held(r, n) && 0 <= u < n && u !in r.bids
    requires r'.bids == r.bids[u := |r.bids|]
    ensures Held(r', n)
  {
    assert r'.bids.Keys == r.bids.Keys + {u};
    assert |r'.bids| == |r.bids| + 1;
  }

  lemma NewBidOwed(s: State, s': State, a: int, u: int, c: Comm, v: int, b: int)
    requires a in s.house.rooms && u !in s.house.rooms[a].bids && s'.books == s.books
    requires Indexed(s.house.rooms[a], s.house.ctrAccount)
    requires a in s.books.released ==> u !in s.books.released[a]
    requires var r := s.house.rooms[a];
      s'.house.rooms == s.house.rooms[a := WithBid(r, u, c)]
    ensures Owed(s', v, b) == Owed(s, v, b) + (if v == u && b == a then c.ped.value else 0)
  {
  }

  /** What an accepted bid passed, and the state it leads to. */
  lemma BidUnfolds(k: Setup, t: Terms, h: House, a: int, u: int, c: Comm, bp: int, lp: int)
    requires k.p > 0 && Bid(k, t, h, a, u, c, bp, lp).Accepted?
    ensures u in h.accounts && a in h.rooms && u !in h.rooms[a].bids
    ensures t.selfOpen + t.forceOpen <= h.accounts[u].balance
    ensures k.verifies(c.ped, bp)
    ensures k.verifies(BidRemainder(k, h.accounts[u].balance - t.selfOpen - t.forceOpen, c.ped, h.accounts[u].active), lp)
    ensures AcceptBid(h.rooms[a].auction, c).Accepted?
    ensures var (x, id) := AcceptBid(h.rooms[a].auction, c).value;
      Bid(k, t, h, a, u, c, bp, lp).value
        == h.(rooms := h.rooms[a := Room(x, h.rooms[a].bids[u := id % WORD])],
              accounts := h.accounts[u := Account(h.accounts[u].balance - t.selfOpen - t.forceOpen,
                                                  Plus(k, h.accounts[u].active, c.ped))])
  {
    hide BidRemainder, Plus;
  }

  lemma RangeSound(k: Setup, c: Ped, proof: int)
    requires Lawful(k) && k.verifies(c, proof)
    ensures k.p >= 4 * WORD && Small(c.value % k.p)
  {
  }

  /** An accepted bid is below 2^32, and together with the rewards and the other active bids it fits the balance. */
  lemma AcceptedBidFits(k: Setup, t: Terms, s: State, a: int, u: int, c: Comm, bp: int, lp: int)
    requires Lawful(k) && Sound(k, s) && Canonical(k, c.ped) && 0 <= t.selfOpen && 0 <= t.forceOpen
    requires Bid(k, t, s.house, a, u, c, bp, lp).Accepted?
    ensures Small(c.ped.value)
    ensures Committed(s, u) + c.ped.value + t.selfOpen + t.forceOpen <= s.house.accounts[u].balance
  {
    hide *;
    LawfulOrder(k);
    BidUnfolds(k, t, s.house, a, u, c, bp, lp);
    var acct := s.house.accounts[u];
    var left := BidRemainder(k, acct.balance - t.selfOpen - t.forceOpen, c.ped, acct.active);
    RangeSound(k, c.ped, bp);
    RangeSound(k, left, lp);
    ResidueItself(c.ped, k);
    RemaindersCanonical(k, acct.balance - t.selfOpen - t.forceOpen, c.ped, acct.active);
    ResidueItself(left, k);
    BidDecided(k, t, s, u, c.ped);
  }

  lemma RemaindersCanonical(k: Setup, balance: int, c: Ped, active: Ped)
    requires k.p > 0
    ensures Canonical(k, BidRemainder(k, balance, c, active)) && Canonical(k, Remainder(k, balance, active))
  {
  }

  lemma LawfulOrder(k: Setup)
    requires Lawful(k)
    ensures 4 * WORD <= k.p && 0 < k.p
  {
  }

  lemma ResidueItself(c: Ped, k: Setup)
    requires k.p > 0 && Canonical(k, c)
    ensures c.value % k.p == c.value
  {
    DivModUnique(c.value, 0, k.p, c.value);
  }

  lemma BidKeeps(k: Setup, t: Terms, s: State, s': State, a: int, u: int, c: Comm, bp: int, lp: int)
    requires Lawful(k) && Sound(k, s) && Canonical(k, c.ped) && 0 <= t.selfOpen && 0 <= t.forceOpen
    requires Bid(k, t, s.house, a, u, c, bp, lp) == Accepted(s'.house) && s'.books == s.books
    ensures Sound(k, s')
  {
    hide *;
    LawfulOrder(k);
    AcceptedBidFits(k, t, s, a, u, c, bp, lp);
    BidUnfolds(k, t, s.house, a, u, c, bp, lp);
    RangeSound(k, c.ped, bp);
    RoomAt(k, s, a);
    AccountAt(k, s, u);
    AcceptKeepsIndex(s.house.rooms[a], s'.house.rooms[a], c, u, s.house.ctrAccount);
    AfterBid(k, s, s', a, u, c, t.selfOpen + t.forceOpen);
  }

  lemma ShapedAt(k: Setup, s: State)
    requires k.p > 0 && Sound(k, s)
    ensures Shaped(s.house)
  {
  }

  lemma AccountAt(k: Setup, s: State, u: int)
    requires k.p > 0 && Sound(k, s) && u in s.house.accounts
    ensures 0 <= u < s.house.ctrAccount < WORD
  {
  }

  lemma AfterBid(k: Setup, s: State, s': State, a: int, u: int, c: Comm, rewards: int)
    requires k.p >= 4 * WORD && Sound(k, s) && u in s.house.accounts && a in s.house.rooms && u !in s.house.rooms[a].bids
    requires Canonical(k, c.ped) && Small(c.ped.value) && 0 <= rewards
    requires Committed(s, u) + c.ped.value + rewards <= s.house.accounts[u].balance
    requires Indexed(WithBid(s.house.rooms[a], u, c), s.house.ctrAccount)
    requires s'.house == s.house.(rooms := s.house.rooms[a := WithBid(s.house.rooms[a], u, c)],
                                  accounts := s.house.accounts[u := Account(s.house.accounts[u].balance - rewards,
                                                                            Plus(k, s.house.accounts[u].active, c.ped))])
    requires s'.books == s.books
    ensures Sound(k, s')
  {
    var r := s.house.rooms[a];
    RoomAt(k, s, a);
    if a in s.books.released {
      ReleasedAt(k, s, a);
    }
    NewBidBound(k, r.auction, WithBid(r, u, c).auction, |r.bids|, c);
    forall v, b ensures Owed(s', v, b) == Owed(s, v, b) + (if v == u && b == a then c.ped.value else 0) {
      NewBidOwed(s, s', a, u, c, v, b);
    }
    hide Indexed, Bound, Owed, Committed, Solvent, Sound;
    BidSolvency(k, s, s', a, u, c.ped, rewards);
    RoomReplaced(k, s, s', a);
  }

  lemma ReleasedAt(k: Setup, s: State, a: int)
    requires k.p > 0 && Sound(k, s) && a in s.books.released
    ensures a in s.house.rooms && s.books.released[a] <= s.house.rooms[a].bids.Keys
  {
  }

  lemma RoomReplaced(k: Setup, s: State, s': State, a: int)
    requires k.p > 0 && Sound(k, s) && a in s.house.rooms && a in s'.house.rooms
    requires s'.house == s.house.(rooms := s.house.rooms[a := s'.house.rooms[a]], accounts := s'.house.accounts)
    requires s'.house.accounts.Keys == s.house.accounts.Keys && s'.books.released == s.books.released
    requires s.house.rooms[a].bids.Keys <= s'.house.rooms[a].bids.Keys
    requires Indexed(s'.house.rooms[a], s.house.ctrAccount) && Bound(k, s'.house.rooms[a].auction)
    requires s'.house.ctrAuction >= 0 && forall v :: v in s'.house.accounts ==> Solvent(k, s', v)
    ensures Sound(k, s')
  {
    hide Indexed, Bound, Solvent;
  }

  lemma RoomAt(k: Setup, s: State, a: int)
    requires k.p > 0 && Sound(k, s) && a in s.house.rooms
    ensures Indexed(s.house.rooms[a], s.house.ctrAccount) && Bound(k, s.house.rooms[a].auction)
    ensures |s.house.rooms[a].bids| == |s.house.rooms[a].auction.known|
    ensures |s.house.rooms[a].bids| !in s.house.rooms[a].auction.comms
  {
  }

  lemma NewBidBound(k: Setup, x: Auction, x': Auction, id: int, c: Comm)
    requires k.p > 0 && Bound(k, x) && Canonical(k, c.ped) && Small(c.ped.value) && id !in x.comms
    requires x'.comms == x.comms[id := c] && x'.openings == x.openings
    ensures Bound(k, x')
  {
  }

  lemma BidSolvency(k: Setup, s: State, s': State, a: int, u: int, c: Ped, rewards: int)
    requires k.p >= 4 * WORD && Sound(k, s) && u in s.house.accounts && a in s.house.rooms
    requires Canonical(k, c) && Small(c.value) && 0 <= rewards
    requires Committed(s, u) + c.value + rewards <= s.house.accounts[u].balance
    requires s'.house.ctrAuction == s.house.ctrAuction
    requires s'.house.accounts == s.house.accounts[u := Account(s.house.accounts[u].balance - rewards,
                                                                Plus(k, s.house.accounts[u].active, c))]
    requires forall v, b :: Owed(s', v, b) == Owed(s, v, b) + (if v == u && b == a then c.value else 0)
    ensures forall v :: v in s'.house.accounts ==> Solvent(k, s', v)
  {
    hide Owed, Bound, Indexed;
    forall v | v in s'.house.accounts ensures Solvent(k, s', v) {
      assert Solvent(k, s, v);
      if v == u {
        CommittedChange(s, s', u, a);
        DivModUnique(Committed(s', u), 0, k.p, Committed(s', u));
      } else {
        SolventFrame(k, s, s', v);
      }
    }
  }

  // ----------------------------------------------------------- opening and settling

  /** An opening the auction accepts to a value shows the value that was committed. */
  lemma AcceptedOpeningBinds(k: Setup, s: State, a: int, id: int, bid: Option<int>, o: int)
    requires Lawful(k) && Sound(k, s) && a in s.house.rooms
    requires AcceptOpening(k, s.house.rooms[a].auction, id, bid, o).Accepted?
    ensures var x := s.house.rooms[a].auction;
      && id in x.comms && id !in x.openings && (bid.Some? ==> bid.value == x.comms[id].ped.value)
      && AcceptOpening(k, x, id, bid, o).value == x.(openings := x.openings[id := bid])
  {
    var x := s.house.rooms[a].auction;
    assert Bound(k, x);
    BoundAt(k, x, id);
    ResidueItself(x.comms[id].ped, k);
    if bid.Some? {
      assert k.opens(x.comms[id], Some(bid.value), o) == Done(true);
    }
  }

  /** An opening of bid `id` recorded as `bid`, and `reward` on the account of `u`. */
  function WithOpened(h: House, a: int, u: int, id: int, bid: Option<int>, reward: int): House
    requires a in h.rooms && u in h.accounts
  {
    var x := h.rooms[a].auction;
    h.(rooms := h.rooms[a := h.rooms[a].(auction := x.(openings := x.openings[id := bid]))],
       accounts := h.accounts[u := h.accounts[u].(balance := h.accounts[u].balance + reward)])
  }

  /**
   * When a forced opening is taken, to a value or to nothing: exactly for a present, unopened number whose opening
   * verifies, with a known account whose balance can hold the reward. It stops only in verification or on that balance.
   */
  lemma ForceOpenTaken(k: Setup, t: Terms, h: House, a: int, u: int, id: int, bid: Option<int>, o: int)
    ensures var r := ForceOpen(k, t, h, a, u, id, bid, o);
      && (r.Accepted? <==>
            && u in h.accounts && a in h.rooms && id in h.rooms[a].auction.comms && id !in h.rooms[a].auction.openings
            && k.opens(h.rooms[a].auction.comms[id], bid, o) == Done(true) && h.accounts[u].balance + t.forceOpen < WORD)
      && (r.Accepted? ==> r.value == WithOpened(h, a, u, id, bid, t.forceOpen))
      && (r.Stopped? ==>
            || k.opens(h.rooms[a].auction.comms[id], bid, o) == Panic
            || (k.opens(h.rooms[a].auction.comms[id], bid, o) == Done(true) && h.accounts[u].balance + t.forceOpen >= WORD))
  {
  }

  /** When a self-opening is taken: exactly for the bidder's own number, if unopened, with an opening that verifies. */
  lemma SelfOpenTaken(k: Setup, t: Terms, h: House, a: int, u: int, bid: int, o: int)
    ensures var r := SelfOpen(k, t, h, a, u, bid, o);
      && (r.Accepted? <==>
            && u in h.accounts && a in h.rooms && u in h.rooms[a].bids
            && var id, x := h.rooms[a].bids[u], h.rooms[a].auction;
            && id in x.comms && id !in x.openings
            && k.opens(x.comms[id], Some(bid), o) == Done(true) && h.accounts[u].balance + t.selfOpen + t.forceOpen < WORD)
      && (r.Accepted? ==> r.value == WithOpened(h, a, u, h.rooms[a].bids[u], Some(bid), t.selfOpen + t.forceOpen))
  {
  }

  lemma OpenKeeps(k: Setup, s: State, s': State, a: int, u: int, id: int, bid: Option<int>, o: int, reward: int)
    requires Lawful(k) && Sound(k, s) && a in s.house.rooms && u in s.house.accounts && reward >= 0
    requires AcceptOpening(k, s.house.rooms[a].auction, id, bid, o).Accepted?
    requires Reward(s.house, a, u, AcceptOpening(k, s.house.rooms[a].auction, id, bid, o).value, reward) == Accepted(s'.house)
    requires s'.books.released == s.books.released
    ensures Sound(k, s')
  {
    hide Sound, AcceptOpening, Committed, Lawful;
    LawfulOrder(k);
    AcceptedOpeningBinds(k, s, a, id, bid, o);
    SolventAt(k, s, u);
    var x := s.house.rooms[a].auction;
    var mid := State(s.house.(rooms := s.house.rooms[a := s.house.rooms[a].(auction := x.(openings := x.openings[id := bid]))]), s.books);
    OpeningKeeps(k, s, mid, a, id, bid);
    SetBalance(k, mid, s', u, s.house.accounts[u].balance + reward);
  }

  /** What a settlement sees of one bidder in a reachable state. */
  lemma SeenBid(k: Setup, s: State, a: int, u: int)
    requires k.p > 0 && Sound(k, s) && a in s.house.rooms && a !in s.books.released
    requires AllOpened(s.house.rooms[a])
    ensures u in s.house.rooms[a].bids ==>
      && u in s.house.accounts && s.house.rooms[a].bids[u] in s.house.rooms[a].auction.comms
      && s.house.rooms[a].auction.comms[s.house.rooms[a].bids[u]].ped.value == Owed(s, u, a)
    ensures u !in s.house.rooms[a].bids ==> Owed(s, u, a) == 0
    ensures u in OpenedBids(s.house.rooms[a]) ==> u in s.house.rooms[a].bids && OpenedBids(s.house.rooms[a])[u] == Owed(s, u, a)
    ensures u in s.house.accounts ==> Small(Owed(s, u, a)) && Owed(s, u, a) <= Committed(s, u) <= s.house.accounts[u].balance < WORD
  {
    RoomAt(k, s, a);
    if u in s.house.accounts {
      SolventAt(k, s, u);
      OwedBelowCommitted(k, s, u, a);
    }
  }

  /** In a reachable state an admissible sale is never more than the winners can pay. */
  lemma SaleChargeable(k: Setup, s: State, a: int, n: nat, price: int, winners: set<int>)
    requires k.p > 0 && Sound(k, s) && a in s.house.rooms && a !in s.books.released && AllOpened(s.house.rooms[a])
    requires Settlement.Admissible(OpenedBids(s.house.rooms[a]), n, price, winners)
    ensures Chargeable(s.house, s.house.rooms[a], price, winners)
    ensures 0 <= price
    ensures forall u :: u in winners ==> u in s.house.accounts && price <= Owed(s, u, a)
  {
    var r := s.house.rooms[a];
    Settlement.WinnersPayLosersDont(OpenedBids(r), n, price, winners);
    hide *;
    forall u ensures u in r.bids ==> r.bids[u] in r.auction.comms && u in s.house.accounts {
      SeenBid(k, s, a, u);
    }
    forall u | u in winners ensures u in s.house.accounts && price <= Owed(s, u, a) && price <= s.house.accounts[u].balance {
      SeenBid(k, s, a, u);
    }
  }

  /** After the settlement the bidders of the auction owe nothing for it; nobody else's bids change. */
  lemma ReleasedOwed(s: State, s': State, a: int, u: int, b: int)
    requires a in s.house.rooms && s'.house.rooms == s.house.rooms
    requires s'.books.released == s.books.released[a := s.house.rooms[a].bids.Keys]
    ensures Owed(s', u, b) == if b == a then 0 else Owed(s, u, b)
  {
  }

  lemma SettledAccount(k: Setup, s: State, s': State, a: int, n: nat, price: int, winners: set<int>, u: int)
    requires Lawful(k) && k.p > 0 && Sound(k, s) && a in s.house.rooms && a !in s.books.released && AllOpened(s.house.rooms[a])
    requires Settlement.Admissible(OpenedBids(s.house.rooms[a]), n, price, winners)
    requires Chargeable(s.house, s.house.rooms[a], price, winners)
    requires s'.house == Charged(k, s.house, s.house.rooms[a], price, winners)
    requires s'.books.released == s.books.released[a := s.house.rooms[a].bids.Keys]
    requires u in s.house.accounts
    ensures Solvent(k, s', u)
  {
    hide Sound, AllOpened, OpenedBids, Settlement.Admissible, Lawful;
    LawfulOrder(k);
    SaleChargeable(k, s, a, n, price, winners);
    SeenBid(k, s, a, u);
    SolventAt(k, s, u);
    AuctionInRange(k, s, a);
    forall b ensures Owed(s', u, b) == if b == a then 0 else Owed(s, u, b) {
      ReleasedOwed(s, s', a, u, b);
    }
    hide Owed;
    CommittedChange(s, s', u, a);
    var active := s.house.accounts[u].active;
    DivModUnique(Committed(s', u), 0, k.p, Committed(s', u));
    assert Canonical(k, s'.house.accounts[u].active);
  }

  lemma AuctionInRange(k: Setup, s: State, a: int)
    requires k.p > 0 && Sound(k, s) && a in s.house.rooms
    ensures 0 <= a < s.house.ctrAuction
  {
  }

  lemma SettleKeeps(k: Setup, s: State, s': State, a: int, n: nat, price: int, winners: set<int>)
    requires Lawful(k) && k.p > 0 && Sound(k, s) && a !in s.books.released
    requires a in s.house.rooms && AllOpened(s.house.rooms[a])
    requires Settlement.Admissible(OpenedBids(s.house.rooms[a]), n, price, winners)
    requires Settle(k, s.house, a, n, price, winners) == Accepted(s'.house)
    requires s'.books.released == s.books.released[a := s.house.rooms[a].bids.Keys]
    ensures Sound(k, s')
  {
    hide OpenedBids, Settlement.Admissible, Lawful, Solvent, AllOpened, Indexed, Bound;
    forall u | u in s'.house.accounts ensures Solvent(k, s', u) {
      SettledAccount(k, s, s', a, n, price, winners, u);
    }
  }

  // ------------------------------------------------------------------ whole runs

  lemma WithdrawKeeps(k: Setup, s: State, s': State, u: int, amt: nat, proof: int)
    requires Lawful(k) && k.p > 0 && Sound(k, s) && Withdraw(k, s.house, u, amt, proof) == Accepted(s'.house)
    requires s'.books.released == s.books.released
    ensures Sound(k, s') && Committed(s, u) + amt <= s.house.accounts[u].balance
  {
    hide Sound, Committed, Remainder, Lawful;
    LawfulOrder(k);
    var acct := s.house.accounts[u];
    SolventAt(k, s, u);
    var left := Remainder(k, acct.balance - amt, acct.active);
    RangeSound(k, left, proof);
    RemaindersCanonical(k, acct.balance - amt, acct.active, acct.active);
    ResidueItself(left, k);
    WithdrawalDecided(k, s, u, amt);
    SetBalance(k, s, s', u, acct.balance - amt);
  }

  lemma DepositKeeps(k: Setup, s: State, s': State, u: int, amt: nat)
    requires k.p > 0 && Sound(k, s) && Deposit(s.house, u, amt) == Accepted(s'.house)
    requires s'.books.released == s.books.released
    ensures Sound(k, s')
  {
    hide Sound, Committed;
    SolventAt(k, s, u);
    SetBalance(k, s, s', u, s.house.accounts[u].balance + amt);
  }

  lemma OpeningsKeep(k: Setup, t: Terms, s: State, s': State, a: int, u: int, id: int, bid: Option<int>, o: int)
    requires Lawful(k) && Sound(k, s) && 0 <= t.selfOpen && 0 <= t.forceOpen && s'.books.released == s.books.released
    requires (bid.Some? && SelfOpen(k, t, s.house, a, u, bid.value, o) == Accepted(s'.house))
          || ForceOpen(k, t, s.house, a, u, id, bid, o) == Accepted(s'.house)
    ensures Sound(k, s')
  {
    hide Sound, AcceptOpening, Lawful;
    if ForceOpen(k, t, s.house, a, u, id, bid, o) == Accepted(s'.house) {
      OpenKeeps(k, s, s', a, u, id, bid, o, t.forceOpen);
    } else {
      OpenKeeps(k, s, s', a, u, s.house.rooms[a].bids[u], bid, o, t.selfOpen + t.forceOpen);
    }
  }

  /** Every operation keeps the house sound. */
  lemma StepKeepsSound(k: Setup, t: int -> Terms, s: State, op: Op)
    requires Lawful(k) && k.p > 0 && Fair(t) && Sound(k, s) && Proper(k, s, op) && Step(k, t, s, op).Accepted?
    ensures Sound(k, Step(k, t, s, op).value)
  {
    var s' := Step(k, t, s, op).value;
    assert Perform(k, t, s.house, op) == Accepted(s'.house);
    hide Sound, Lawful, NewAccount, NewAuction, Deposit, Withdraw, Bid, SelfOpen, ForceOpen, AllOpened, OpenedBids, Settlement.Admissible;
    match op
    case DoNewAccount => NewAccountKeeps(k, s, s');
    case DoNewAuction => NewAuctionKeeps(k, s, s');
    case DoDeposit(u, amt) => DepositKeeps(k, s, s', u, amt);
    case DoWithdraw(u, amt, proof) => WithdrawKeeps(k, s, s', u, amt, proof);
    case DoBid(a, u, c, bp, lp) => BidKeeps(k, t(a), s, s', a, u, c, bp, lp);
    case DoSelfOpen(a, u, bid, o) => OpeningsKeep(k, t(a), s, s', a, u, 0, Some(bid), o);
    case DoForceOpen(a, u, id, bid, o) => OpeningsKeep(k, t(a), s, s', a, u, id, bid, o);
    case DoSettle(a, n, price, winners) => SettleKeeps(k, s, s', a, n, price, winners);
  }

  /** Every state of every run is sound: all accounts are solvent. */
  lemma {:induction false} RunsAreSound(k: Setup, t: int -> Terms, ops: seq<Op>, s: State)
    requires Lawful(k) && k.p > 0 && Fair(t) && Run(k, t, ops, s)
    ensures Sound(k, s)
    decreases |ops|
  {
    if ops != [] {
      var op := ops[|ops| - 1];
      var before: State :| Run(k, t, ops[..|ops| - 1], before) && Proper(k, before, op)
        && match Step(k, t, before, op) { case Stopped => false case Refused => s == before case Accepted(next) => s == next };
      RunsAreSound(k, t, ops[..|ops| - 1], before);
      if Step(k, t, before, op).Accepted? {
        StepKeepsSound(k, t, before, op);
      }
    }
  }

  /** When a first settlement of an auction succeeds in a reachable state: the house holds that auction, all bids are opened and enough have values. */
  lemma SettlementSucceeds(k: Setup, t: int -> Terms, ops: seq<Op>, s: State, a: int, n: nat, price: int, winners: set<int>)
    requires Lawful(k) && k.p > 0 && Fair(t) && Run(k, t, ops, s) && Proper(k, s, DoSettle(a, n, price, winners))
    ensures Settle(k, s.house, a, n, price, winners).Accepted?
       <==> a in s.house.rooms && AllOpened(s.house.rooms[a]) && n < |OpenedBids(s.house.rooms[a])|
    ensures Settle(k, s.house, a, n, price, winners).Refused? <==> a !in s.house.rooms
  {
    RunsAreSound(k, t, ops, s);
    hide Sound, Run;
    if a in s.house.rooms && AllOpened(s.house.rooms[a]) && n < |OpenedBids(s.house.rooms[a])| {
      SaleChargeable(k, s, a, n, price, winners);
    }
  }

  /** In every reachable state each account's balance covers its active bids, and the hidden total is exactly their sum. */
  lemma EveryAccountSolvent(k: Setup, t: int -> Terms, ops: seq<Op>, s: State, u: int)
    requires Lawful(k) && k.p > 0 && Fair(t) && Run(k, t, ops, s) && u in s.house.accounts
    ensures s.house.ctrAuction >= 0 && 0 <= Committed(s, u) <= s.house.accounts[u].balance < WORD
    ensures s.house.accounts[u].active.value == Committed(s, u)
  {
    RunsAreSound(k, t, ops, s);
    SolventAt(k, s, u);
  }
}
