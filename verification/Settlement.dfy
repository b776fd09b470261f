/**
 * The (k+1)-price rule that settles an auction (auction_house/src/house.rs, complete_kplusone_price_auction).
 * `bids` maps each bidder whose bid was opened to a value onto that value.
 */
module Settlement {
  import opened Outcomes
  import opened Sums

  type Bids = map<int, int>

  datatype Entry = Entry(user: int, amount: int)

  /** The outcome of a settlement. */
  datatype Sale = Sale(price: int, winners: seq<int>)

  // -------------------------------------------------------------- the rule

  function Above(bids: Bids, price: int): set<int>
  {
    set u | u in bids && bids[u] > price
  }

  function AtLeast(bids: Bids, price: int): set<int>
  {
    set u | u in bids && bids[u] >= price
  }

  /** `price` is the (k+1)-th highest of the bids, counted with repetition. */
  predicate KPlusOneth(bids: Bids, k: nat, price: int)
  {
    |Above(bids, price)| <= k < |AtLeast(bids, price)|
  }

  /** The sales the rule allows: whom it favours among bids equal to the price is open. */
  predicate Admissible(bids: Bids, k: nat, price: int, winners: set<int>)
  {
    && KPlusOneth(bids, k, price)
    && |winners| == k
    && Above(bids, price) <= winners <= AtLeast(bids, price)
  }

  lemma SubsetCard<T>(a: set<T>, b: set<T>)
    requires a <= b
    ensures |a| <= |b|
    ensures |a| == |b| ==> a == b
  {
    assert b == a + (b - a);
  }

  lemma Outside<T>(a: set<T>, b: set<T>) returns (x: T)
    requires |b| < |a|
    ensures x in a && x !in b
  {
    if forall y :: y in a ==> y in b {
      SubsetCard(a, b);
      assert false;
    }
    x :| x in a && x !in b;
  }

  lemma PriceOrder(bids: Bids, k: nat, k': nat, p: int, q: int)
    requires |Above(bids, p)| <= k && k' < |AtLeast(bids, q)| && k <= k'
    ensures q <= p
  {
    if p < q {
      SubsetCard(AtLeast(bids, q), Above(bids, p));
    }
  }

  /** The price depends on the bids alone: not on the order they are listed in nor on how ties are broken. */
  lemma PriceUnique(bids: Bids, k: nat, p: int, q: int)
    requires KPlusOneth(bids, k, p) && KPlusOneth(bids, k, q)
    ensures p == q
  {
    PriceOrder(bids, k, k, p, q);
    PriceOrder(bids, k, k, q, p);
  }

  /** What every admissible sale guarantees to winners and losers. */
  lemma WinnersPayLosersDont(bids: Bids, k: nat, price: int, winners: set<int>)
    requires Admissible(bids, k, price, winners)
    ensures winners <= bids.Keys
    ensures forall w :: w in winners ==> price <= bids[w]
    ensures forall l :: l in bids.Keys - winners ==> bids[l] <= price
    ensures exists l :: l in bids.Keys - winners && bids[l] == price
  {
    var l := Outside(AtLeast(bids, price), winners);
    assert bids[l] == price;
  }

  // ------------------------------------------------------------ truthfulness

  /** What bidder `i`, to whom the item is worth `v`, gains. */
  function Gain(i: int, v: int, price: int, winners: set<int>): int
  {
    if i in winners then v - price else 0
  }

  /**
   * Bidding one's value weakly dominates: against every opposing bids, under every tie-breaking on both
   * sides, no other bid `d` gains bidder `i` more than bidding the true value `v`.
   */
  lemma Truthful(others: Bids, i: int, v: int, d: int, k: nat,
                 price: int, winners: set<int>, price': int, winners': set<int>)
    requires i !in others
    requires Admissible(others[i := v], k, price, winners)
    requires Admissible(others[i := d], k, price', winners')
    ensures Gain(i, v, price', winners') <= Gain(i, v, price, winners)
  {
    WinnersPayLosersDont(others[i := v], k, price, winners);
    if i in winners' && price' < v {
      var rivals := Above(others, price');
      assert rivals <= winners' - {i} by {
        forall u | u in rivals ensures u in Above(others[i := d], price') { }
      }
      SubsetCard(rivals, winners' - {i});
      assert Above(others[i := v], price') == rivals + {i};
      PriceOrder(others[i := v], k, k, price', price);
    }
  }

  /** Bidding one's value never loses. */
  lemma NeverALoss(others: Bids, i: int, v: int, k: nat, price: int, winners: set<int>)
    requires i !in others && Admissible(others[i := v], k, price, winners)
    ensures 0 <= Gain(i, v, price, winners)
  {
    WinnersPayLosersDont(others[i := v], k, price, winners);
  }

  // --------------------------------------------------------------- selection

  /** `list` enumerates the map, each bidder once. */
  predicate Lists(list: seq<Entry>, bids: Bids)
  {
    && (forall e :: e in list ==> e.user in bids && bids[e.user] == e.amount)
    && (forall u :: u in bids ==> Entry(u, bids[u]) in list)
    && (forall i, j :: 0 <= i < j < |list| ==> list[i].user != list[j].user)
  }

  /** Nothing before position `n` is larger than the entry there, nothing after it smaller. */
  predicate Partitioned(list: seq<Entry>, n: nat)
    requires n < |list|
  {
    && (forall i :: 0 <= i < n ==> list[i].amount <= list[n].amount)
    && (forall i :: n < i < |list| ==> list[n].amount <= list[i].amount)
  }

  function Users(list: seq<Entry>): set<int>
  {
    set e | e in list :: e.user
  }

  lemma {:induction false} UsersCard(list: seq<Entry>)
    requires forall i, j :: 0 <= i < j < |list| ==> list[i].user != list[j].user
    ensures |Users(list)| == |list|
  {
    if list != [] {
      UsersCard(list[1..]);
      assert list == [list[0]] + list[1..];
      assert Users(list) == {list[0].user} + Users(list[1..]);
      assert list[0].user !in Users(list[1..]);
    }
  }

  /** A selected list yields an admissible sale. */
  lemma SelectedIsAdmissible(bids: Bids, k: nat, list: seq<Entry>)
    requires Lists(list, bids) && k < |list| && Partitioned(list, |list| - (k + 1))
    ensures var n := |list| - (k + 1);
            Admissible(bids, k, list[n].amount, Users(list[n + 1..]))
  {
    var n := |list| - (k + 1);
    var p := list[n].amount;
    var top := list[n + 1..];
    UsersCard(top);
    UsersCard(list[n..]);
    forall u | u in Above(bids, p) ensures u in Users(top) {
      var j :| 0 <= j < |list| && list[j] == Entry(u, bids[u]);
      assert list[j] == top[j - n - 1];
    }
    forall u | u in Users(list[n..]) ensures u in AtLeast(bids, p) {
      var e :| e in list[n..] && e.user == u;
    }
    assert Users(top) <= Users(list[n..]);
    SubsetCard(Above(bids, p), Users(top));
    SubsetCard(Users(list[n..]), AtLeast(bids, p));
  }

  lemma {:induction false} Listing(bids: Bids, users: set<int>) returns (r: seq<Entry>)
    requires users <= bids.Keys
    ensures |r| == |users| && ListsGroup(bids, users, r)
    decreases |users|
  {
    if |users| == 0 {
      r := [];
    } else {
      var u := Member(users);
      var rest := Listing(bids, users - {u});
      r := [Entry(u, bids[u])] + rest;
      forall v | v in users ensures Entry(v, bids[v]) in r {
        assert v == u || v in users - {u};
      }
      forall i, j | 0 <= i < j < |r| ensures r[i].user != r[j].user {
        assert rest[j - 1] in rest;
      }
    }
  }

  lemma Marginal(bids: Bids, k: nat, price: int, winners: set<int>) returns (m: int)
    requires Admissible(bids, k, price, winners)
    ensures m in bids.Keys - winners && bids[m] == price
    ensures winners <= bids.Keys && |winners| == k
    ensures forall w :: w in winners ==> price <= bids[w]
    ensures forall l :: l in bids.Keys - winners ==> bids[l] <= price
  {
    WinnersPayLosersDont(bids, k, price, winners);
    m :| m in bids.Keys - winners && bids[m] == price;
  }

  /** Conversely every admissible sale is the result of some selection, so the rule describes all and only those. */
  lemma AdmissibleIsSelected(bids: Bids, k: nat, price: int, winners: set<int>) returns (list: seq<Entry>)
    requires Admissible(bids, k, price, winners)
    ensures Lists(list, bids) && |list| == |bids| && k < |list| && Partitioned(list, |list| - (k + 1))
    ensures list[|list| - (k + 1)].amount == price && Users(list[|list| - k..]) == winners
  {
    hide *;
    var m := Marginal(bids, k, price, winners);
    var low := bids.Keys - winners - {m};
    var before := Listing(bids, low);
    var after := Listing(bids, winners);
    ThreeGroups(bids.Keys, winners, m);
    list := before + [Entry(m, price)] + after;
    Joined(bids, low, m, winners, before, after);
    UsersAre(bids, low, before);
    UsersAre(bids, winners, after);
    assert list[|before| + 1..] == after && list[|before|] == Entry(m, price);
    JoinedInOrder(before, Entry(m, price), after);
  }

  lemma ThreeGroups(all: set<int>, high: set<int>, m: int)
    requires high <= all && m in all - high
    ensures all == (all - high - {m}) + {m} + high
    ensures |all| == |all - high - {m}| + 1 + |high|
  {
  }

  lemma UsersAre(bids: Bids, users: set<int>, r: seq<Entry>)
    requires users <= bids.Keys && ListsGroup(bids, users, r)
    ensures Users(r) == users
    ensures forall e :: e in r ==> e.user in users && e.amount == bids[e.user]
  {
    forall u | u in users ensures u in Users(r) {
      assert Entry(u, bids[u]) in r;
    }
  }

  lemma JoinedInOrder(before: seq<Entry>, mid: Entry, after: seq<Entry>)
    requires forall e :: e in before ==> e.amount <= mid.amount
    requires forall e :: e in after ==> mid.amount <= e.amount
    ensures Partitioned(before + [mid] + after, |before|)
  {
    var list, n := before + [mid] + after, |before|;
    assert forall i :: 0 <= i < n ==> list[i] == before[i];
    assert forall i :: n < i < |list| ==> list[i] == after[i - n - 1];
  }

  ghost predicate ListsGroup(bids: Bids, users: set<int>, r: seq<Entry>)
    requires users <= bids.Keys
  {
    && (forall e :: e in r ==> e.user in users && bids[e.user] == e.amount)
    && (forall u :: u in users ==> Entry(u, bids[u]) in r)
    && (forall i, j :: 0 <= i < j < |r| ==> r[i].user != r[j].user)
  }

  lemma Joined(bids: Bids, low: set<int>, m: int, high: set<int>, before: seq<Entry>, after: seq<Entry>)
    requires bids.Keys == low + {m} + high && m !in low && m !in high && low !! high
    requires ListsGroup(bids, low, before) && ListsGroup(bids, high, after)
    ensures Lists(before + [Entry(m, bids[m])] + after, bids)
  {
    var list, n := before + [Entry(m, bids[m])] + after, |before|;
    forall i | 0 <= i < n ensures list[i] == before[i] && list[i].user in low {
      assert before[i] in before;
    }
    forall i | n < i < |list| ensures list[i] == after[i - n - 1] && list[i].user in high {
      assert after[i - n - 1] in after;
    }
    ListedOnce(list, n, low, m, high);
  }

  /** Three parts over disjoint groups, each without repetition, make a list without repetition. */
  lemma ListedOnce(list: seq<Entry>, n: nat, low: set<int>, m: int, high: set<int>)
    requires n < |list| && list[n].user == m && m !in low && m !in high && low !! high
    requires forall i :: 0 <= i < n ==> list[i].user in low
    requires forall i :: n < i < |list| ==> list[i].user in high
    requires forall i, j :: 0 <= i < j < n ==> list[i].user != list[j].user
    requires forall i, j :: n < i < j < |list| ==> list[i].user != list[j].user
    ensures forall i, j :: 0 <= i < j < |list| ==> list[i].user != list[j].user
  {
  }

  /**
   * Stands for the library's selection: the same entries, the one at `n` in its sorted place. Callers may
   * rely on this contract only, so what they prove holds of every way to order equal amounts.
   */
  method SelectNth(list: seq<Entry>, n: nat) returns (r: seq<Entry>)
    requires n < |list|
    ensures multiset(r) == multiset(list) && |r| == |list|
    ensures Partitioned(r, n)
  {
    r := list;
    var i := 0;
    while i <= n
      invariant 0 <= i <= n + 1
      invariant |r| == |list| && multiset(r) == multiset(list)
      invariant Settled(r, i)
    {
      var m := Smallest(r, i);
      SwapKeeps(r, i, m);
      r := Swapped(r, i, m);
      i := i + 1;
    }
  }

  /** The first `i` entries are in place: each is no larger than anything after it. */
  ghost predicate Settled(r: seq<Entry>, i: nat)
  {
    forall a, b :: 0 <= a < i && a <= b < |r| ==> r[a].amount <= r[b].amount
  }

  method Smallest(r: seq<Entry>, i: nat) returns (m: nat)
    requires i < |r|
    ensures i <= m < |r|
    ensures forall b :: i <= b < |r| ==> r[m].amount <= r[b].amount
  {
    m := i;
    var j := i + 1;
    while j < |r|
      invariant i <= m < j <= |r|
      invariant forall b :: i <= b < j ==> r[m].amount <= r[b].amount
    {
      if r[j].amount < r[m].amount {
        m := j;
      }
      j := j + 1;
    }
  }

  function Swapped(s: seq<Entry>, i: nat, m: nat): seq<Entry>
    requires i <= m < |s|
  {
    s[i := s[m]][m := s[i]]
  }

  lemma SwapKeeps(s: seq<Entry>, i: nat, m: nat)
    requires i <= m < |s| && Settled(s, i)
    requires forall b :: i <= b < |s| ==> s[m].amount <= s[b].amount
    ensures multiset(Swapped(s, i, m)) == multiset(s) && Settled(Swapped(s, i, m), i + 1)
  {
  }

  /** The bidders and bids of a map, in some order. */
  method Collect(bids: Bids) returns (list: seq<Entry>)
    ensures Lists(list, bids) && |list| == |bids|
  {
    hide Lists, ListsGroup;
    list := [];
    var left := bids.Keys;
    NobodyYet(bids);
    assert bids.Keys - left == {};
    while left != {}
      invariant left <= bids.Keys && |list| + |left| == |bids.Keys|
      invariant ListsGroup(bids, bids.Keys - left, list)
      decreases |left|
    {
      ghost var member := Member(left);
      var u :| u in left;
      ghost var done := bids.Keys - left;
      Extend(bids, done, list, u);
      list := list + [Entry(u, bids[u])];
      left := left - {u};
      assert bids.Keys - left == done + {u};
    }
    assert bids.Keys - left == bids.Keys;
    EverybodyListed(bids, list);
  }

  lemma NobodyYet(bids: Bids)
    ensures ListsGroup(bids, {}, [])
  {
  }

  lemma EverybodyListed(bids: Bids, list: seq<Entry>)
    requires ListsGroup(bids, bids.Keys, list)
    ensures Lists(list, bids)
  {
  }

  lemma Extend(bids: Bids, users: set<int>, list: seq<Entry>, u: int)
    requires users <= bids.Keys && u in bids && u !in users && ListsGroup(bids, users, list)
    ensures ListsGroup(bids, users + {u}, list + [Entry(u, bids[u])])
  {
    var r := list + [Entry(u, bids[u])];
    assert forall i :: 0 <= i < |list| ==> list[i] in list;
    assert r[|list|] in r;
  }

  lemma {:induction false} CountedOnce(s: seq<Entry>, e: Entry)
    requires forall i, j :: 0 <= i < j < |s| ==> s[i] != s[j]
    ensures multiset(s)[e] <= 1
  {
    if s != [] {
      assert s == [s[0]] + s[1..];
      CountedOnce(s[1..], e);
      assert s[0] !in multiset(s[1..]);
    }
  }

  lemma CountedTwice(s: seq<Entry>, i: nat, j: nat)
    requires i < j < |s| && s[i] == s[j]
    ensures multiset(s)[s[i]] >= 2
  {
    assert s == s[..j] + [s[j]] + s[j + 1..];
    assert s[i] == s[..j][i];
    assert s[i] in multiset(s[..j]);
  }

  lemma SameEntries(bids: Bids, list: seq<Entry>, r: seq<Entry>)
    requires Lists(list, bids) && |list| == |bids| && multiset(r) == multiset(list) && |r| == |list|
    ensures Lists(r, bids)
  {
    forall e ensures e in r <==> e in list {
      assert e in multiset(r) <==> e in multiset(list);
    }
    forall i, j | 0 <= i < j < |r| ensures r[i].user != r[j].user {
      if r[i].user == r[j].user {
        assert r[i] in r && r[j] in r;
        assert r[i] == r[j];
        CountedTwice(r, i, j);
        CountedOnce(list, r[i]);
        assert false;
      }
    }
  }

  function UserList(list: seq<Entry>): (r: seq<int>)
    ensures |r| == |list|
  {
    seq(|list|, i requires 0 <= i < |list| => list[i].user)
  }

  lemma UsersListed(list: seq<Entry>)
    ensures (set w | w in UserList(list)) == Users(list)
  {
    forall u | u in Users(list) ensures u in UserList(list) {
      var e :| e in list && e.user == u;
      var i :| 0 <= i < |list| && list[i] == e;
      assert UserList(list)[i] == u;
    }
  }

  /** Selects the price and the winners; too few opened bids stop the program. */
  method KPlusOnePrice(bids: Bids, k: nat) returns (r: Outcome<Sale>)
    ensures r.Panic? <==> |bids| <= k
    ensures r.Done? ==> Admissible(bids, k, r.value.price, set w | w in r.value.winners) && |r.value.winners| == k
    ensures r.Done? ==> forall i, j :: 0 <= i < j < k ==> r.value.winners[i] != r.value.winners[j]
  {
    var list := Collect(bids);
    if |list| <= k {
      return Panic;
    }
    var n := |list| - (k + 1);
    var arranged := SelectNth(list, n);
    SameEntries(bids, list, arranged);
    SelectedIsAdmissible(bids, k, arranged);
    var top := arranged[n + 1..];
    UsersListed(top);
    r := Done(Sale(arranged[n].amount, UserList(top)));
  }
}
