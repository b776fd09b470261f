/** What a reveal task achieves, how every task ends, and what the cache holds (_wsl_sync/main.rs). */
module RevealRuns {
  import opened Outcomes
  import opened Sums
  import opened Ledger
  import opened LedgerSafety
  import opened Clients
  import opened Worlds
  import opened WorldClients
  import opened Reveals

  type Solver = Comm -> Option<(int, int)>

  /** The server after up to `n` steps of one task with nothing in between. */
  function RunAlone(k: Setup, t: int -> Terms, solve: Solver, s: Server, id: int, n: nat): Reply<Server>
    requires k.p > 0 && id in s.tasks
    decreases n
  {
    if n == 0 then Accepted(s)
    else
      match RunTask(k, t, solve, s, id)
      case Stopped => Stopped
      case Refused => RunAlone(k, t, solve, s, id, n - 1)
      case Accepted(s') => TaskStays(k, t, solve, s, id); RunAlone(k, t, solve, s', id, n - 1)
  }

  lemma TaskStays(k: Setup, t: int -> Terms, solve: Solver, s: Server, id: int)
    requires k.p > 0 && id in s.tasks && RunTask(k, t, solve, s, id).Accepted?
    ensures id in RunTask(k, t, solve, s, id).value.tasks
  {
    hide ForceSettle, Prepare, Revealed;
  }

  // ---------------------------------------------------------- a task that succeeds

  /**
   * A bid that is active, unrevealed and not being revealed, whose computation gives the committed amount with an
   * opening the house accepts and a reward the balance can hold.
   */
  ghost predicate Ready(k: Setup, t: int -> Terms, solve: Solver, s: Server, a: int, u: int, bid: int, e: int)
    requires k.p > 0
  {
    && Active(s.world.ledger, u, a) && !Revealed(s.world, a, u) && (a, u) !in s.inflight
    && solve(HouseComm(s.world.ledger, u, a)) == Some((bid, e)) && bid == HouseComm(s.world.ledger, u, a).ped.value
    && k.opens(HouseComm(s.world.ledger, u, a), Some(bid), e) == Done(true)
    && u in s.world.ledger.house.accounts && s.world.ledger.house.accounts[u].balance + t(a).forceOpen < WORD
  }

  /** The world after a forced opening of a ready bid is booked. */
  lemma ReadyBooks(k: Setup, t: int -> Terms, solve: Solver, s: Server, a: int, u: int, bid: int, e: int)
    requires k.p > 0 && Safe(k, s) && Ready(k, t, solve, s, a, u, bid, e)
    ensures (a, u) !in s.cache
    ensures var job := Prepare(s.world, a, u);
      && job.Some? && job.value.comm == HouseComm(s.world.ledger, u, a) && job.value.id !in RevealedIn(s.world, a)
      && ForceSettle(k, t, s.world, a, u, job.value, bid, e).Accepted?
      && var w := ForceSettle(k, t, s.world, a, u, job.value, bid, e).value;
      && NewlyRevealed(s.world, w, a, u)
      && a in Rooms(s.world) && u in Rooms(s.world)[a].bids
      && w.ledger.house == WithOpened(s.world.ledger.house, a, u, Rooms(s.world)[a].bids[u], Some(bid), t(a).forceOpen)
  {
    hide Sound, Shadows, ClientsAgree, Exclusive, TasksFaithful, NewlyRevealed, ForceOpen, Revealed, Extends, RevealedIn;
    var w := s.world;
    WorldParts(k, s);
    NotCached(s, a, u);
    PreparedIsHouses(k, w, a, u);
    var job := Prepare(w, a, u).value;
    AgreeAt(k, w, u);
    ShadowedBidder(w, a, u);
    NotRevealedYet(w, a, u);
    ActiveInHouse(k, w.ledger, u, a);
    ForceOpenTaken(k, t(a), w.ledger.house, a, u, job.id, Some(bid), e);
    assert ForceSettle(k, t, w, a, u, job, bid, e).Accepted? by { MirroredBalance(k, w, u); }
    ForceSettleReveals(k, t, w, a, u, job, bid, e);
  }

  lemma NotCached(s: Server, a: int, u: int)
    requires CacheRevealed(s) && !Revealed(s.world, a, u)
    ensures (a, u) !in s.cache
  {
  }

  lemma NotRevealedYet(w: World, a: int, u: int)
    requires !Revealed(w, a, u)
    ensures (a, u) in w.bidIndex ==> w.bidIndex[(a, u)] !in RevealedIn(w, a)
  {
  }

  lemma ActiveInHouse(k: Setup, s: State, u: int, a: int)
    requires Active(s, u, a)
    ensures a in s.house.rooms && u in s.house.rooms[a].bids && s.house.rooms[a].bids[u] in s.house.rooms[a].auction.comms
    ensures HouseComm(s, u, a) == s.house.rooms[a].auction.comms[s.house.rooms[a].bids[u]]
  {
  }

  lemma MirroredBalance(k: Setup, w: World, u: int)
    requires k.p > 0 && ClientsAgree(k, w) && u in w.ledger.house.accounts
    ensures u in w.privates && w.privates[u].balance == w.ledger.house.accounts[u].balance
  {
    AgreeAt(k, w, u);
  }

  /** What a successful task leaves behind. */
  ghost predicate Succeeded(t: int -> Terms, s: Server, s': Server, id: int, a: int, u: int, bid: int)
    requires a in Rooms(s.world) && u in Rooms(s.world)[a].bids && u in s.world.ledger.house.accounts
  {
    && id in s'.tasks && s'.tasks[id].next == Finished
    && NewlyRevealed(s.world, s'.world, a, u)
    && s'.world.ledger.house == WithOpened(s.world.ledger.house, a, u, Rooms(s.world)[a].bids[u], Some(bid), t(a).forceOpen)
    && s'.credits == s.credits + multiset{(a, u)}
    && s'.inflight == s.inflight && (a, u) !in s'.inflight
    && s'.cache == s.cache[(a, u) := bid]
  }

  lemma OneStep(k: Setup, t: int -> Terms, solve: Solver, s: Server, s': Server, id: int, n: nat)
    requires k.p > 0 && id in s.tasks && n > 0 && RunTask(k, t, solve, s, id) == Accepted(s')
    ensures id in s'.tasks && RunAlone(k, t, solve, s, id, n) == RunAlone(k, t, solve, s', id, n - 1)
  {
    TaskStays(k, t, solve, s, id);
  }

  /** The last four steps: record, cache, release. */
  lemma FinishBooked(k: Setup, t: int -> Terms, solve: Solver, s: Server, id: int)
    requires k.p > 0 && id in s.tasks && s.tasks[id].next == Rank && s.tasks[id].plain.Some?
    ensures var task := s.tasks[id];
      RunAlone(k, t, solve, s, id, 3)
      == Accepted(Put(s, id, task.(next := Finished)).(cache := s.cache[Key(task) := task.plain.value.0], inflight := s.inflight - {Key(task)}))
  {
    hide RunAlone;
    var task := s.tasks[id];
    var s1 := Put(s, id, task.(next := Store));
    var s2 := Put(s1, id, task.(next := Release)).(cache := s.cache[Key(task) := task.plain.value.0]);
    var s3 := Put(s2, id, task.(next := Finished)).(inflight := s.inflight - {Key(task)});
    OneStep(k, t, solve, s, s1, id, 3);
    OneStep(k, t, solve, s1, s2, id, 2);
    OneStep(k, t, solve, s2, s3, id, 1);
    NoSteps(k, t, solve, s3, id);
    assert s3.tasks == s.tasks[id := task.(next := Finished)];
  }

  lemma NoSteps(k: Setup, t: int -> Terms, solve: Solver, s: Server, id: int)
    requires k.p > 0 && id in s.tasks
    ensures RunAlone(k, t, solve, s, id, 0) == Accepted(s)
  {
  }

  /** A task that holds its claim and has computed books, records, caches and releases. */
  lemma FinishHolder(k: Setup, t: int -> Terms, solve: Solver, s: Server, s': Server, id: int, task: Task, a: int, u: int, bid: int, e: int)
    requires k.p > 0 && Safe(k, s) && Ready(k, t, solve, s, a, u, bid, e)
    requires Key(task) == (a, u) && task.a == a && task.u == u && task.next == Book && task.job == Prepare(s.world, a, u) && task.plain == Some((bid, e))
    requires a in Rooms(s.world) && u in Rooms(s.world)[a].bids && u in s.world.ledger.house.accounts && (a, u) !in s.inflight
    requires s' == Put(s, id, task).(inflight := s.inflight + {(a, u)})
    ensures id in s'.tasks && RunAlone(k, t, solve, s', id, 4).Accepted?
    ensures Succeeded(t, s, RunAlone(k, t, solve, s', id, 4).value, id, a, u, bid)
  {
    hide *;
    ReadyBooks(k, t, solve, s, a, u, bid, e);
    var w := ForceSettle(k, t, s.world, a, u, task.job.value, bid, e).value;
    PutFields(s, id, task, (a, u));
    BookRuns(k, t, solve, s', id, w);
    var booked := Put(s', id, task.(next := Rank)).(world := w, credits := s'.credits + multiset{Key(task)});
    PutFields(s', id, task.(next := Rank), (a, u));
    OneStep(k, t, solve, s', booked, id, 4);
    FinishBooked(k, t, solve, booked, id);
    SucceededBy(k, t, s, booked, RunAlone(k, t, solve, s', id, 4).value, id, task, a, u, bid, w);
  }

  lemma PutFields(s: Server, id: int, task: Task, key: (int, int))
    ensures Put(s, id, task).tasks == s.tasks[id := task] && Put(s, id, task).world == s.world && Put(s, id, task).credits == s.credits
    ensures Put(s, id, task).cache == s.cache && Put(s, id, task).inflight == s.inflight
    ensures Key(task) == (task.a, task.u)
  {
  }

  lemma BookRuns(k: Setup, t: int -> Terms, solve: Solver, s: Server, id: int, w: World)
    requires k.p > 0 && id in s.tasks && s.tasks[id].next == Book && s.tasks[id].job.Some? && s.tasks[id].plain.Some?
    requires var task := s.tasks[id];
      && ForceSettle(k, t, s.world, task.a, task.u, task.job.value, task.plain.value.0, task.plain.value.1) == Accepted(w)
      && task.job.value.id !in RevealedIn(s.world, task.a)
    ensures RunTask(k, t, solve, s, id)
      == Accepted(Put(s, id, s.tasks[id].(next := Rank)).(world := w, credits := s.credits + multiset{Key(s.tasks[id])}))
  {
    hide ForceSettle, RevealedIn;
  }

  lemma SucceededBy(k: Setup, t: int -> Terms, s: Server, booked: Server, fin: Server, id: int, task: Task, a: int, u: int, bid: int, w: World)
    requires a in Rooms(s.world) && u in Rooms(s.world)[a].bids && u in s.world.ledger.house.accounts
    requires NewlyRevealed(s.world, w, a, u) && (a, u) !in s.inflight && Key(task) == (a, u) && task.plain.Some? && task.plain.value.0 == bid
    requires w.ledger.house == WithOpened(s.world.ledger.house, a, u, Rooms(s.world)[a].bids[u], Some(bid), t(a).forceOpen)
    requires booked.world == w && booked.credits == s.credits + multiset{(a, u)} && booked.cache == s.cache && booked.inflight == s.inflight + {(a, u)}
    requires fin == Put(booked, id, task.(next := Finished)).(cache := booked.cache[Key(task) := task.plain.value.0], inflight := booked.inflight - {Key(task)})
    ensures Succeeded(t, s, fin, id, a, u, bid)
  {
    hide NewlyRevealed, WithOpened;
    assert (s.inflight + {(a, u)}) - {(a, u)} == s.inflight;
  }

  /** One step of a task that stays on its way, seen from the server without it. */
  lemma Passes(k: Setup, t: int -> Terms, solve: Solver, s: Server, id: int, task: Task)
    requires k.p > 0
    ensures task.next == CheckCache && Key(task) !in s.cache ==>
      RunTask(k, t, solve, Put(s, id, task), id) == Accepted(Put(s, id, task.(next := CheckWorld)))
    ensures task.next == CheckWorld && !Revealed(s.world, task.a, task.u) ==>
      RunTask(k, t, solve, Put(s, id, task), id) == Accepted(Put(s, id, task.(next := Claim)))
    ensures task.next == Claim && Key(task) !in s.inflight ==>
      RunTask(k, t, solve, Put(s, id, task), id)
      == Accepted(Put(s, id, task.(next := if task.kind == Teacher then Read else Book)).(inflight := s.inflight + {Key(task)}))
    ensures task.next == Read && Prepare(s.world, task.a, task.u).Some? ==>
      RunTask(k, t, solve, Put(s, id, task), id) == Accepted(Put(s, id, task.(next := Compute, job := Prepare(s.world, task.a, task.u))))
    ensures task.next == Compute && task.job.Some? && solve(task.job.value.comm).Some? ==>
      RunTask(k, t, solve, Put(s, id, task), id)
      == Accepted(Put(s, id, task.(next := if task.kind == Teacher then Book else CheckCache, plain := solve(task.job.value.comm))))
  {
    hide Revealed, Prepare, ForceSettle;
    PutTwice(s, id, task, task.(next := CheckWorld));
    PutTwice(s, id, task, task.(next := Claim));
    PutTwice(s, id, task, task.(next := if task.kind == Teacher then Read else Book));
    PutTwice(s, id, task, task.(next := Compute, job := Prepare(s.world, task.a, task.u)));
    if task.job.Some? {
      PutTwice(s, id, task, task.(next := if task.kind == Teacher then Book else CheckCache, plain := solve(task.job.value.comm)));
    }
  }

  lemma PutTwice(s: Server, id: int, x: Task, y: Task)
    ensures Put(Put(s, id, x), id, y) == Put(s, id, y)
  {
    assert s.tasks[id := x][id := y] == s.tasks[id := y];
  }

  lemma KeyIs(task: Task)
    ensures forall t: Task :: t.a == task.a && t.u == task.u ==> Key(t) == (task.a, task.u)
  {
  }

  lemma Waits(k: Setup, t: int -> Terms, solve: Solver, s: Server, id: int, task: Task, task': Task, n: nat)
    requires k.p > 0 && n > 0 && RunTask(k, t, solve, Put(s, id, task), id) == Accepted(Put(s, id, task'))
    ensures id in Put(s, id, task).tasks && id in Put(s, id, task').tasks
    ensures RunAlone(k, t, solve, Put(s, id, task), id, n) == RunAlone(k, t, solve, Put(s, id, task'), id, n - 1)
  {
    hide RunTask, RunAlone;
    OneStep(k, t, solve, Put(s, id, task), Put(s, id, task'), id, n);
  }

  lemma ReadyPlace(k: Setup, t: int -> Terms, solve: Solver, s: Server, a: int, u: int, bid: int, e: int)
    requires k.p > 0 && Safe(k, s) && Ready(k, t, solve, s, a, u, bid, e)
    ensures !Revealed(s.world, a, u) && (a, u) !in s.inflight && (a, u) !in s.cache && u in s.world.ledger.house.accounts
    ensures a in Rooms(s.world) && u in Rooms(s.world)[a].bids
    ensures Prepare(s.world, a, u).Some? && solve(Prepare(s.world, a, u).value.comm) == Some((bid, e))
  {
    hide Safe, Active, HouseComm, Prepare, Revealed, NewlyRevealed, ForceSettle, WithOpened;
    ReadyBooks(k, t, solve, s, a, u, bid, e);
  }

  /** A task that finds its bid neither cached, revealed nor claimed claims it within three steps. */
  lemma ClaimsFree(k: Setup, t: int -> Terms, solve: Solver, s: Server, id: int, task: Task, n: nat)
    requires k.p > 0 && n >= 3 && task.next == CheckCache
    requires Key(task) !in s.cache && Key(task) !in s.inflight && !Revealed(s.world, task.a, task.u)
    ensures var held := s.(inflight := s.inflight + {Key(task)});
      var task' := task.(next := if task.kind == Teacher then Read else Book);
      && id in Put(s, id, task).tasks && id in Put(held, id, task').tasks
      && RunAlone(k, t, solve, Put(s, id, task), id, n) == RunAlone(k, t, solve, Put(held, id, task'), id, n - 3)
  {
    KeyIs(task);
    hide *;
    var held := s.(inflight := s.inflight + {Key(task)});
    var t1, t2 := task.(next := CheckWorld), task.(next := Claim);
    var t3 := task.(next := if task.kind == Teacher then Read else Book);
    Passes(k, t, solve, s, id, task);
    Waits(k, t, solve, s, id, task, t1, n);
    Passes(k, t, solve, s, id, t1);
    Waits(k, t, solve, s, id, t1, t2, n - 1);
    Passes(k, t, solve, s, id, t2);
    HeldPut(s, held, id, t3, Key(task));
    OneStep(k, t, solve, Put(s, id, t2), Put(held, id, t3), id, n - 2);
  }

  /** A task whose bid can be read and solved has computed after two steps. */
  lemma Computes(k: Setup, t: int -> Terms, solve: Solver, s: Server, id: int, task: Task, n: nat)
    requires k.p > 0 && n >= 2 && task.next == Read
    requires Prepare(s.world, task.a, task.u).Some? && solve(Prepare(s.world, task.a, task.u).value.comm).Some?
    ensures var job := Prepare(s.world, task.a, task.u);
      var task' := task.(next := if task.kind == Teacher then Book else CheckCache, job := job, plain := solve(job.value.comm));
      && id in Put(s, id, task).tasks && id in Put(s, id, task').tasks
      && RunAlone(k, t, solve, Put(s, id, task), id, n) == RunAlone(k, t, solve, Put(s, id, task'), id, n - 2)
  {
    hide *;
    var job := Prepare(s.world, task.a, task.u);
    var t1 := task.(next := Compute, job := job);
    Passes(k, t, solve, s, id, task);
    Waits(k, t, solve, s, id, task, t1, n);
    Passes(k, t, solve, s, id, t1);
    Waits(k, t, solve, s, id, t1, t1.(next := if task.kind == Teacher then Book else CheckCache, plain := solve(job.value.comm)), n - 1);
  }

  lemma Spawned(k: Setup, t: int -> Terms, solve: Solver, cheat: Solver, s: Server, id: int, kind: Kind, a: int, u: int)
    requires k.p > 0 && id !in s.tasks
    ensures Make(k, t, solve, cheat, s, Spawn(id, kind, a, u)) == Accepted(Put(s, id, Task(kind, a, u, First(kind), None, None)))
    ensures First(Teacher) == CheckCache && First(Brute) == Read
  {
  }

  lemma HeldPut(s: Server, held: Server, id: int, task: Task, key: (int, int))
    requires held == s.(inflight := s.inflight + {key})
    ensures Put(held, id, task) == Put(s, id, task).(inflight := s.inflight + {key}) && id in Put(held, id, task).tasks && id in Put(s, id, task).tasks
  {
  }

  /**
   * A teacher's reveal of a ready bid, run alone from any safe state, ends with the bid revealed and opened at the
   * house to the committed amount, one reward credited, the amount cached and the claim released.
   */
  lemma TeacherReveals(k: Setup, t: int -> Terms, solve: Solver, cheat: Solver, s: Server, id: int, a: int, u: int, bid: int, e: int)
    requires k.p > 0 && Safe(k, s) && Ready(k, t, solve, s, a, u, bid, e) && id !in s.tasks
    ensures a in Rooms(s.world) && u in Rooms(s.world)[a].bids && u in s.world.ledger.house.accounts
    ensures var spawned := Make(k, t, solve, cheat, s, Spawn(id, Teacher, a, u));
      && spawned.Accepted? && id in spawned.value.tasks
      && RunAlone(k, t, solve, spawned.value, id, 9).Accepted?
      && Succeeded(t, s, RunAlone(k, t, solve, spawned.value, id, 9).value, id, a, u, bid)
  {
    hide *;
    ReadyPlace(k, t, solve, s, a, u, bid, e);
    var task := Task(Teacher, a, u, CheckCache, None, None);
    Spawned(k, t, solve, cheat, s, id, Teacher, a, u);
    KeyIs(task);
    var held := s.(inflight := s.inflight + {(a, u)});
    ClaimsFree(k, t, solve, s, id, task, 9);
    Computes(k, t, solve, held, id, task.(next := Read), 6);
    var done := task.(next := Book, job := Prepare(s.world, a, u), plain := Some((bid, e)));
    HeldPut(s, held, id, done, (a, u));
    FinishHolder(k, t, solve, s, Put(held, id, done), id, done, a, u, bid, e);
  }

  /** A brute-force task does the same: it computes first and claims to book. */
  lemma BruteReveals(k: Setup, t: int -> Terms, solve: Solver, cheat: Solver, s: Server, id: int, a: int, u: int, bid: int, e: int)
    requires k.p > 0 && Safe(k, s) && Ready(k, t, solve, s, a, u, bid, e) && id !in s.tasks
    ensures a in Rooms(s.world) && u in Rooms(s.world)[a].bids && u in s.world.ledger.house.accounts
    ensures var spawned := Make(k, t, solve, cheat, s, Spawn(id, Brute, a, u));
      && spawned.Accepted? && id in spawned.value.tasks
      && RunAlone(k, t, solve, spawned.value, id, 9).Accepted?
      && Succeeded(t, s, RunAlone(k, t, solve, spawned.value, id, 9).value, id, a, u, bid)
  {
    hide *;
    ReadyPlace(k, t, solve, s, a, u, bid, e);
    var task := Task(Brute, a, u, Read, None, None);
    Spawned(k, t, solve, cheat, s, id, Brute, a, u);
    KeyIs(task);
    var held := s.(inflight := s.inflight + {(a, u)});
    Computes(k, t, solve, s, id, task, 9);
    var solved := task.(next := CheckCache, job := Prepare(s.world, a, u), plain := Some((bid, e)));
    ClaimsFree(k, t, solve, s, id, solved, 7);
    HeldPut(s, held, id, solved.(next := Book), (a, u));
    FinishHolder(k, t, solve, s, Put(held, id, solved.(next := Book)), id, solved.(next := Book), a, u, bid, e);
  }

  // ------------------------------------------------------------ every task ends

  /** How many steps a task is from its end, at most. */
  function StepsLeft(task: Task): nat
  {
    match task.next
    case CheckCache => if task.kind == Teacher then 9 else 7
    case CheckWorld => if task.kind == Teacher then 8 else 6
    case Claim => if task.kind == Teacher then 7 else 5
    case Read => if task.kind == Teacher then 6 else 9
    case Compute => if task.kind == Teacher then 5 else 8
    case Book => 4
    case Rank => 3
    case Store => 2
    case Release => 1
    case Finished => 0
  }

  /** The claims of everybody else. */
  function OtherClaims(s: Server, id: int): set<(int, int)>
    requires id in s.tasks
  {
    if Holds(s.tasks[id]) then s.inflight - {Key(s.tasks[id])} else s.inflight
  }

  lemma StepsDown(k: Setup, t: int -> Terms, solve: Solver, s: Server, id: int)
    requires k.p > 0 && Safe(k, s) && id in s.tasks && s.tasks[id].next != Finished
    ensures !RunTask(k, t, solve, s, id).Refused?
    ensures RunTask(k, t, solve, s, id).Accepted? ==>
      var s' := RunTask(k, t, solve, s, id).value;
      && id in s'.tasks && StepsLeft(s'.tasks[id]) < StepsLeft(s.tasks[id])
      && Key(s'.tasks[id]) == Key(s.tasks[id]) && s'.tasks[id].kind == s.tasks[id].kind
      && OtherClaims(s', id) == OtherClaims(s, id)
  {
    hide ForceSettle, Prepare, Revealed, Safe, Credited;
    SafeTask(k, s, id);
    var task := s.tasks[id];
    if task.next in {CheckCache, CheckWorld, Claim} {
      EarlyStep(k, t, solve, s, id);
    } else {
      LateStep(k, t, solve, s, id);
    }
  }

  lemma SafeTask(k: Setup, s: Server, id: int)
    requires k.p > 0 && Safe(k, s) && id in s.tasks
    ensures Carries(s, id)
  {
    hide Sound, Shadows, ClientsAgree, Revealed;
    assert Faithful(s.world, s.tasks[id]);
  }

  /** A task has what its next step needs, and a holder's claim is marked. */
  ghost predicate Carries(s: Server, id: int)
    requires id in s.tasks
  {
    var task := s.tasks[id];
    && (task.next in {Compute, Book} ==> task.job.Some?) && (task.next in {Book, Rank, Store} ==> task.plain.Some?)
    && (Holds(task) ==> Key(task) in s.inflight)
  }

  lemma EarlyStep(k: Setup, t: int -> Terms, solve: Solver, s: Server, id: int)
    requires k.p > 0 && id in s.tasks && Carries(s, id) && s.tasks[id].next in {CheckCache, CheckWorld, Claim}
    ensures RunTask(k, t, solve, s, id).Accepted?
    ensures var s' := RunTask(k, t, solve, s, id).value;
      && id in s'.tasks && StepsLeft(s'.tasks[id]) < StepsLeft(s.tasks[id])
      && Key(s'.tasks[id]) == Key(s.tasks[id]) && s'.tasks[id].kind == s.tasks[id].kind && OtherClaims(s', id) == OtherClaims(s, id)
  {
    hide Revealed, ForceSettle, Prepare;
    var key := Key(s.tasks[id]);
    if key !in s.inflight {
      assert (s.inflight + {key}) - {key} == s.inflight;
    }
  }

  lemma LateStep(k: Setup, t: int -> Terms, solve: Solver, s: Server, id: int)
    requires k.p > 0 && id in s.tasks && Carries(s, id) && s.tasks[id].next !in {CheckCache, CheckWorld, Claim, Finished}
    ensures !RunTask(k, t, solve, s, id).Refused?
    ensures RunTask(k, t, solve, s, id).Accepted? ==>
      var s' := RunTask(k, t, solve, s, id).value;
      && id in s'.tasks && StepsLeft(s'.tasks[id]) < StepsLeft(s.tasks[id])
      && Key(s'.tasks[id]) == Key(s.tasks[id]) && s'.tasks[id].kind == s.tasks[id].kind && OtherClaims(s', id) == OtherClaims(s, id)
  {
    hide Revealed, ForceSettle, Prepare, Credited;
  }

  /**
   * Run alone from any safe state, a task ends within its steps unless the house stops, whether it succeeds, fails or
   * finds nothing to do; and at its end no claim of its own is left.
   */
  lemma {:induction false} EveryTaskEnds(k: Setup, t: int -> Terms, solve: Solver, s: Server, id: int, n: nat)
    requires Lawful(k) && k.p > 0 && Fair(t) && Safe(k, s) && id in s.tasks && n >= StepsLeft(s.tasks[id])
    ensures var r := RunAlone(k, t, solve, s, id, n);
      && !r.Refused?
      && (r.Accepted? ==>
            && Safe(k, r.value) && id in r.value.tasks && r.value.tasks[id].next == Finished
            && r.value.inflight == OtherClaims(s, id))
    decreases n
  {
    if s.tasks[id].next == Finished {
      EndedStays(k, t, solve, s, id, n);
    } else {
      hide Lawful, Fair, Safe, RunTask, OtherClaims;
      StepsDown(k, t, solve, s, id);
      if RunTask(k, t, solve, s, id).Accepted? {
        RunKeepsSafe(k, t, solve, s, id);
        EveryTaskEnds(k, t, solve, RunTask(k, t, solve, s, id).value, id, n - 1);
      }
    }
  }

  lemma {:induction false} EndedStays(k: Setup, t: int -> Terms, solve: Solver, s: Server, id: int, n: nat)
    requires k.p > 0 && id in s.tasks && s.tasks[id].next == Finished
    ensures RunAlone(k, t, solve, s, id, n) == Accepted(s) && OtherClaims(s, id) == s.inflight
    decreases n
  {
    if n > 0 {
      EndedStays(k, t, solve, s, id, n - 1);
    }
  }

  // ------------------------------------------------------------ what the cache holds

  /** `comm` is the commitment the house has under a bid number. */
  ghost predicate IsComm(w: World, a: int, id: int, comm: Comm)
  {
    a in Rooms(w) && id in Rooms(w)[a].auction.comms && Rooms(w)[a].auction.comms[id] == comm
  }

  /** Commitments stay under their numbers. */
  ghost predicate CommsStay(w: World, w': World)
  {
    forall a, id, comm :: IsComm(w, a, id, comm) ==> IsComm(w', a, id, comm)
  }

  /** What a task has computed is the solution of its bid's commitment. */
  ghost predicate Solved(solve: Solver, w: World, task: Task)
  {
    && (task.job.Some? ==>
          Key(task) in w.bidIndex && task.job.value.id == w.bidIndex[Key(task)] && IsComm(w, task.a, task.job.value.id, task.job.value.comm))
    && (task.plain.Some? ==> task.job.Some? && solve(task.job.value.comm) == task.plain)
  }

  /** What is cached for a bid is the solution of its commitment. */
  ghost predicate CachedSolution(solve: Solver, s: Server, a: int, u: int)
  {
    (a, u) in s.cache ==>
      && (a, u) in s.world.bidIndex
      && exists comm :: IsComm(s.world, a, s.world.bidIndex[(a, u)], comm) && solve(comm).Some? && solve(comm).value.0 == s.cache[(a, u)]
  }

  ghost predicate AllSolved(solve: Solver, s: Server)
  {
    && (forall i :: i in s.tasks ==> Solved(solve, s.world, s.tasks[i]))
    && (forall a, u :: CachedSolution(solve, s, a, u))
  }

  /** Index entries stay with their numbers. */
  ghost predicate IndexStays(w: World, w': World)
  {
    forall key :: key in w.bidIndex ==> key in w'.bidIndex && w'.bidIndex[key] == w.bidIndex[key]
  }

  lemma SolvedStays(solve: Solver, w: World, w': World, task: Task)
    requires Solved(solve, w, task) && CommsStay(w, w') && IndexStays(w, w')
    ensures Solved(solve, w', task)
  {
    hide IsComm;
  }

  lemma CachedStays(solve: Solver, s: Server, s': Server, a: int, u: int)
    requires CachedSolution(solve, s, a, u) && CommsStay(s.world, s'.world) && IndexStays(s.world, s'.world) && s'.cache == s.cache
    ensures CachedSolution(solve, s', a, u)
  {
    hide IsComm;
    if (a, u) in s.cache {
      var comm :| IsComm(s.world, a, s.world.bidIndex[(a, u)], comm) && solve(comm).Some? && solve(comm).value.0 == s.cache[(a, u)];
      assert IsComm(s'.world, a, s'.world.bidIndex[(a, u)], comm);
    }
  }

  lemma WorldMovesOn(solve: Solver, s: Server, s': Server)
    requires AllSolved(solve, s) && s'.tasks == s.tasks && s'.cache == s.cache
    requires CommsStay(s.world, s'.world) && IndexStays(s.world, s'.world)
    ensures AllSolved(solve, s')
  {
    hide Solved, CachedSolution, CommsStay, IndexStays;
    forall i | i in s'.tasks ensures Solved(solve, s'.world, s'.tasks[i]) {
      SolvedStays(solve, s.world, s'.world, s.tasks[i]);
    }
    forall a, u ensures CachedSolution(solve, s', a, u) {
      assert CachedSolution(solve, s, a, u);
      CachedStays(solve, s, s', a, u);
    }
  }

  lemma StepKeepsComms(k: Setup, t: int -> Terms, w: World, w': World, op: Op)
    requires k.p > 0 && Sound(k, w.ledger) && (w'.ledger == w.ledger || Step(k, t, w.ledger, op) == Accepted(w'.ledger))
    ensures CommsStay(w, w')
  {
    hide Sound, CommsStay, Step;
    if w'.ledger == w.ledger {
      SameRoomsKeepComms(w, w');
    } else {
      match op
      case DoBid(a, u, c, bp, lp) => BidKeepsComms(k, t, w, w', a, u, c, bp, lp);
      case DoNewAuction => NewRoomKeepsComms(k, t, w, w');
      case DoSelfOpen(a, u, bid, e) => OpeningKeepsComms(k, t, w, w', op);
      case DoForceOpen(a, u, id, claimed, e) => OpeningKeepsComms(k, t, w, w', op);
      case _ => OtherKeepsComms(k, t, w, w', op);
    }
  }

  lemma OpeningKeepsComms(k: Setup, t: int -> Terms, w: World, w': World, op: Op)
    requires k.p > 0 && Step(k, t, w.ledger, op) == Accepted(w'.ledger) && (op.DoSelfOpen? || op.DoForceOpen?)
    ensures CommsStay(w, w')
  {
    hide CommsStay, WithOpened, SelfOpen, ForceOpen, Settle, Bid, Withdraw, Deposit;
    assert Perform(k, t, w.ledger.house, op) == Accepted(w'.ledger.house);
    match op
    case DoSelfOpen(a, u, bid, e) =>
      SelfOpenTaken(k, t(a), w.ledger.house, a, u, bid, e);
      OpenedKeepsComms(w, w', a, u, Rooms(w)[a].bids[u], Some(bid), t(a).selfOpen + t(a).forceOpen);
    case DoForceOpen(a, u, id, claimed, e) =>
      ForceOpenTaken(k, t(a), w.ledger.house, a, u, id, claimed, e);
      OpenedKeepsComms(w, w', a, u, id, claimed, t(a).forceOpen);
  }

  lemma OtherKeepsComms(k: Setup, t: int -> Terms, w: World, w': World, op: Op)
    requires k.p > 0 && Step(k, t, w.ledger, op) == Accepted(w'.ledger)
    requires !op.DoBid? && !op.DoNewAuction? && !op.DoSelfOpen? && !op.DoForceOpen?
    ensures CommsStay(w, w')
  {
    hide CommsStay, Bid, SelfOpen, ForceOpen, AllOpened, OpenedBids, Remainder, Plus, Minus;
    assert Perform(k, t, w.ledger.house, op) == Accepted(w'.ledger.house);
    SameRoomsKeepComms(w, w');
  }

  lemma SameRoomsKeepComms(w: World, w': World)
    requires forall a :: a in Rooms(w) ==> a in Rooms(w') && Rooms(w')[a].auction.comms == Rooms(w)[a].auction.comms
    ensures CommsStay(w, w')
  {
  }

  lemma NewRoomKeepsComms(k: Setup, t: int -> Terms, w: World, w': World)
    requires k.p > 0 && Sound(k, w.ledger) && Step(k, t, w.ledger, DoNewAuction) == Accepted(w'.ledger)
    ensures CommsStay(w, w')
  {
    hide Sound;
    Worlds.NoRoomYet(k, w);
  }

  lemma BidKeepsComms(k: Setup, t: int -> Terms, w: World, w': World, a: int, u: int, c: Comm, bp: int, lp: int)
    requires k.p > 0 && Sound(k, w.ledger) && Step(k, t, w.ledger, DoBid(a, u, c, bp, lp)) == Accepted(w'.ledger)
    ensures CommsStay(w, w')
  {
    hide Sound, Step, Indexed, Bound;
    BidRoom(k, t, w.ledger, w'.ledger, a, u, c, bp, lp);
    RoomAt(k, w.ledger, a);
  }

  lemma OpenedKeepsComms(w: World, w': World, a: int, u: int, id: int, bid: Option<int>, reward: int)
    requires a in Rooms(w) && u in w.ledger.house.accounts && w'.ledger.house == WithOpened(w.ledger.house, a, u, id, bid, reward)
    ensures CommsStay(w, w')
  {
  }

  lemma ExtendsIndex(w: World, w': World)
    requires Extends(w, w')
    ensures IndexStays(w, w')
  {
    hide RevealedIn;
  }

  lemma EnrollComms(k: Setup, t: int -> Terms, w: World, init: nat)
    requires k.p > 0 && Enroll(k, t, w, init).Accepted?
    ensures CommsStay(w, Enroll(k, t, w, init).value)
  {
    hide ConfirmCredit;
    assert Rooms(Enroll(k, t, w, init).value) == Rooms(w);
  }

  /** No move takes a commitment away or renumbers a bid. */
  lemma MoveKeepsComms(k: Setup, t: int -> Terms, solve: Solver, cheat: Solver, s: Server, m: Move)
    requires k.p > 0 && Sound(k, s.world.ledger) && Make(k, t, solve, cheat, s, m).Accepted?
    ensures CommsStay(s.world, Make(k, t, solve, cheat, s, m).value.world)
  {
    hide Sound, Step, Revealed, RevealedIn, Enroll, ConfirmCredit, ConfirmBid, ConfirmWithdrawal, ProposeBid, ProposeWithdrawal,
      AllConfirm, Scalar, Confirmed, CommsStay;
    var w, w' := s.world, Make(k, t, solve, cheat, s, m).value.world;
    match m
    case Enlist(init) => EnrollComms(k, t, w, init);
    case StartAuction => StepKeepsComms(k, t, w, w', DoNewAuction);
    case PutIn(u, amt) => StepKeepsComms(k, t, w, w', DoDeposit(u, amt));
    case TakeOut(u, amt, proof) => StepKeepsComms(k, t, w, w', DoWithdraw(u, amt, proof));
    case Place(a, u, bid, r, puzzle, bp, lp, e) =>
      StepKeepsComms(k, t, w, w', DoBid(a, u, ProposeBid(k, t(a), w.privates[u], bid, r, puzzle).value.comm, bp, lp));
    case OpenSelf(a, u, bid) => StepKeepsComms(k, t, w, w', DoSelfOpen(a, u, bid, Kept(w, a, u)));
    case Cheat(a, u) =>
      var job, plain := Prepare(w, a, u).value, cheat(Prepare(w, a, u).value.comm).value;
      StepKeepsComms(k, t, w, w', DoForceOpen(a, u, job.id, Some(plain.0), plain.1));
    case Close(a, n, price, winners) => StepKeepsComms(k, t, w, w', DoSettle(a, n, price, winners));
    case Run(id) => TaskKeepsComms(k, t, solve, s, id);
    case _ => StepKeepsComms(k, t, w, w', DoNewAuction);
  }

  lemma TaskKeepsComms(k: Setup, t: int -> Terms, solve: Solver, s: Server, id: int)
    requires k.p > 0 && Sound(k, s.world.ledger) && id in s.tasks && RunTask(k, t, solve, s, id).Accepted?
    ensures CommsStay(s.world, RunTask(k, t, solve, s, id).value.world)
  {
    hide Sound, Step, Revealed, RevealedIn, Prepare, ConfirmCredit, CommsStay;
    var task, w' := s.tasks[id], RunTask(k, t, solve, s, id).value.world;
    if task.next == Book {
      var job, plain := task.job.value, task.plain.value;
      StepKeepsComms(k, t, s.world, w', DoForceOpen(task.a, task.u, job.id, Some(plain.0), plain.1));
    } else {
      StepKeepsComms(k, t, s.world, w', DoNewAuction);
    }
  }

  lemma MoveKeepsIndex(k: Setup, t: int -> Terms, solve: Solver, cheat: Solver, s: Server, m: Move)
    requires k.p > 0 && Safe(k, s) && Make(k, t, solve, cheat, s, m).Accepted?
    ensures IndexStays(s.world, Make(k, t, solve, cheat, s, m).value.world)
  {
    hide Exclusive, TasksFaithful, CacheRevealed, Sound, Shadows, ClientsAgree, PlaceBid, RunTask, Enroll, OpenAuction, TakeDeposit, PayOut,
      RunSelfOpen, ForceCheating, CloseRound, Extends, IndexStays, Prepare;
    var w, w' := s.world, Make(k, t, solve, cheat, s, m).value.world;
    match m
    case Place(a, u, bid, r, puzzle, bp, lp, e) =>
      PlaceBidShadows(k, t, w, a, u, bid, r, puzzle, bp, lp, e);
      ExtendsIndex(w, w');
    case Enlist(init) => EnrollKeepsShadows(k, t, w, init); ExtendsIndex(w, w');
    case StartAuction => AuctionKeepsShadows(k, t, w); ExtendsIndex(w, w');
    case PutIn(u, amt) => DepositKeepsShadows(k, t, w, u, amt); ExtendsIndex(w, w');
    case TakeOut(u, amt, proof) => PayOutKeepsShadows(k, t, w, u, amt, proof); ExtendsIndex(w, w');
    case OpenSelf(a, u, bid) => SelfOpenReveals(k, t, w, a, u, bid); ExtendsIndex(w, w');
    case Cheat(a, u) => CheatingReveals(k, t, w, a, u, cheat(Prepare(w, a, u).value.comm)); ExtendsIndex(w, w');
    case Close(a, n, price, winners) => ClosingKeepsShadows(k, t, w, a, n, price, winners); ExtendsIndex(w, w');
    case Run(id) => TaskKeepsIndex(k, t, solve, s, id);
    case Spawn(_, _, _, _) => SameIndex(w);
    case Drop(_) => SameIndex(w);
  }

  lemma SameIndex(w: World)
    ensures IndexStays(w, w)
  {
  }

  lemma TaskKeepsIndex(k: Setup, t: int -> Terms, solve: Solver, s: Server, id: int)
    requires k.p > 0 && id in s.tasks && RunTask(k, t, solve, s, id).Accepted?
    ensures IndexStays(s.world, RunTask(k, t, solve, s, id).value.world)
  {
    hide Revealed, Prepare, ConfirmCredit, Step, RevealedIn;
  }

  /** A task comes to carry only what it reads from the world and what it computes from that. */
  lemma TaskCarries(k: Setup, t: int -> Terms, solve: Solver, s: Server, id: int)
    requires k.p > 0 && id in s.tasks && RunTask(k, t, solve, s, id).Accepted?
    ensures id in RunTask(k, t, solve, s, id).value.tasks
    ensures var task, task' := s.tasks[id], RunTask(k, t, solve, s, id).value.tasks[id];
      && task'.a == task.a && task'.u == task.u
      && (task'.job == task.job || (task'.job.Some? && task'.job == Prepare(s.world, task.a, task.u)))
      && (task'.plain == task.plain || (task'.job == task.job && task.job.Some? && task'.plain == solve(task.job.value.comm)))
  {
    hide Prepare, ForceSettle, Revealed, Credited;
  }

  /** What `Prepare` reads for a bid. */
  ghost predicate OwnJob(w: World, a: int, u: int, job: Option<Job>)
  {
    job.Some? ==> (a, u) in w.bidIndex && job.value.id == w.bidIndex[(a, u)] && IsComm(w, a, job.value.id, job.value.comm)
  }

  lemma CarriesOn(solve: Solver, w: World, task: Task, task': Task)
    requires Solved(solve, w, task) && task'.a == task.a && task'.u == task.u
    requires task'.job == task.job || OwnJob(w, task.a, task.u, task'.job)
    requires task'.plain == task.plain || (task'.job == task.job && task.job.Some? && task'.plain == solve(task.job.value.comm))
    requires task'.job.None? ==> task.job.None?
    ensures Solved(solve, w, task')
  {
  }

  /** A task's own step keeps what it carries the solution of its commitment. */
  lemma TaskStaysSolved(k: Setup, t: int -> Terms, solve: Solver, s: Server, id: int)
    requires k.p > 0 && Safe(k, s) && id in s.tasks && Solved(solve, s.world, s.tasks[id]) && RunTask(k, t, solve, s, id).Accepted?
    ensures id in RunTask(k, t, solve, s, id).value.tasks
    ensures var s' := RunTask(k, t, solve, s, id).value;
      (CommsStay(s.world, s'.world) && IndexStays(s.world, s'.world)) ==> Solved(solve, s'.world, s'.tasks[id])
  {
    hide Safe, RunTask, Prepare, CommsStay, IndexStays, IsComm;
    var s', task := RunTask(k, t, solve, s, id).value, s.tasks[id];
    TaskCarries(k, t, solve, s, id);
    PreparedComm(k, s, task.a, task.u);
    CarriesOn(solve, s.world, task, s'.tasks[id]);
    if CommsStay(s.world, s'.world) && IndexStays(s.world, s'.world) {
      SolvedStays(solve, s.world, s'.world, s'.tasks[id]);
    }
  }

  lemma PreparedComm(k: Setup, s: Server, a: int, u: int)
    requires k.p > 0 && Safe(k, s)
    ensures OwnJob(s.world, a, u, Prepare(s.world, a, u))
  {
    hide Exclusive, TasksFaithful, CacheRevealed, Sound, Shadows, ClientsAgree;
    PreparedIsHouses(k, s.world, a, u);
    if Prepare(s.world, a, u).Some? {
      ActiveInHouse(k, s.world.ledger, u, a);
    }
  }

  /** A task step touches its own task, and the cache only where it stores. */
  lemma TaskTouches(k: Setup, t: int -> Terms, solve: Solver, s: Server, id: int)
    requires k.p > 0 && id in s.tasks && RunTask(k, t, solve, s, id).Accepted?
    ensures var s', task := RunTask(k, t, solve, s, id).value, s.tasks[id];
      && s'.tasks.Keys == s.tasks.Keys && (forall i :: i in s.tasks && i != id ==> s'.tasks[i] == s.tasks[i])
      && (task.next != Store ==> s'.cache == s.cache)
      && (task.next == Store ==> task.plain.Some? && s'.cache == s.cache[Key(task) := task.plain.value.0] && s'.world == s.world)
  {
    hide Revealed, Prepare, ForceSettle;
  }

  lemma TaskKeepsSolved(k: Setup, t: int -> Terms, solve: Solver, s: Server, id: int)
    requires k.p > 0 && Safe(k, s) && AllSolved(solve, s) && id in s.tasks && RunTask(k, t, solve, s, id).Accepted?
    requires CommsStay(s.world, RunTask(k, t, solve, s, id).value.world) && IndexStays(s.world, RunTask(k, t, solve, s, id).value.world)
    ensures AllSolved(solve, RunTask(k, t, solve, s, id).value)
  {
    hide Safe, RunTask, CommsStay, IndexStays, Solved, CachedSolution;
    var s', task := RunTask(k, t, solve, s, id).value, s.tasks[id];
    TaskTouches(k, t, solve, s, id);
    TaskStaysSolved(k, t, solve, s, id);
    forall i | i in s'.tasks ensures Solved(solve, s'.world, s'.tasks[i]) {
      if i != id {
        SolvedStays(solve, s.world, s'.world, s.tasks[i]);
      }
    }
    forall a, u ensures CachedSolution(solve, s', a, u) {
      assert CachedSolution(solve, s, a, u);
      if task.next == Store && (a, u) == Key(task) {
        StoredSolution(solve, s, s', task);
      } else {
        OtherCached(solve, s, s', a, u);
      }
    }
  }

  lemma StoredSolution(solve: Solver, s: Server, s': Server, task: Task)
    requires Solved(solve, s.world, task) && task.plain.Some? && s'.world == s.world
    requires s'.cache == s.cache[Key(task) := task.plain.value.0]
    ensures CachedSolution(solve, s', task.a, task.u)
  {
    hide IsComm;
  }

  lemma OtherCached(solve: Solver, s: Server, s': Server, a: int, u: int)
    requires CachedSolution(solve, s, a, u) && CommsStay(s.world, s'.world) && IndexStays(s.world, s'.world)
    requires ((a, u) in s'.cache <==> (a, u) in s.cache) && ((a, u) in s.cache ==> s'.cache[(a, u)] == s.cache[(a, u)])
    ensures CachedSolution(solve, s', a, u)
  {
    hide IsComm;
    if (a, u) in s.cache {
      var comm :| IsComm(s.world, a, s.world.bidIndex[(a, u)], comm) && solve(comm).Some? && solve(comm).value.0 == s.cache[(a, u)];
      assert IsComm(s'.world, a, s'.world.bidIndex[(a, u)], comm);
    }
  }

  lemma SpawnedSolved(solve: Solver, s: Server, s': Server, id: int, task: Task)
    requires AllSolved(solve, s) && s'.world == s.world && s'.cache == s.cache
    requires s'.tasks == s.tasks[id := task] && task.job.None? && task.plain.None?
    ensures AllSolved(solve, s')
  {
    forall a, u ensures CachedSolution(solve, s', a, u) {
      assert CachedSolution(solve, s, a, u);
    }
  }

  lemma DroppedSolved(solve: Solver, s: Server, s': Server, id: int)
    requires AllSolved(solve, s) && s'.world == s.world && s'.cache == s.cache && s'.tasks == s.tasks - {id}
    ensures AllSolved(solve, s')
  {
    forall a, u ensures CachedSolution(solve, s', a, u) {
      assert CachedSolution(solve, s, a, u);
    }
  }

  lemma MoveKeepsSolved(k: Setup, t: int -> Terms, solve: Solver, cheat: Solver, s: Server, m: Move)
    requires k.p > 0 && Safe(k, s) && AllSolved(solve, s) && Make(k, t, solve, cheat, s, m).Accepted?
    ensures AllSolved(solve, Make(k, t, solve, cheat, s, m).value)
  {
    WorldParts(k, s);
    hide Safe, WorldSafe, AllSolved, Sound, PlaceBid, RunTask, Enroll, OpenAuction, TakeDeposit, PayOut, RunSelfOpen, ForceCheating, CloseRound,
      IndexStays, CommsStay, Prepare;
    var s' := Make(k, t, solve, cheat, s, m).value;
    MoveKeepsComms(k, t, solve, cheat, s, m);
    MoveKeepsIndex(k, t, solve, cheat, s, m);
    match m
    case Spawn(id, kind, a, u) => SpawnedSolved(solve, s, s', id, s'.tasks[id]);
    case Drop(id) => DroppedSolved(solve, s, s', id);
    case Run(id) => TaskKeepsSolved(k, t, solve, s, id);
    case _ => WorldMovesOn(solve, s, s');
  }

  lemma {:induction false} ReachedSolved(k: Setup, t: int -> Terms, solve: Solver, cheat: Solver, moves: seq<Move>, s: Server)
    requires Lawful(k) && k.p > 0 && Fair(t) && Reached(k, t, solve, cheat, moves, s)
    ensures AllSolved(solve, s)
    decreases |moves|
  {
    if moves != [] {
      hide Lawful, Fair, Safe, Allowed, Make, AllSolved;
      var m := moves[|moves| - 1];
      var before: Server :| Reached(k, t, solve, cheat, moves[..|moves| - 1], before) && Moved(k, t, solve, cheat, before, m, s);
      ReachedSafe(k, t, solve, cheat, moves[..|moves| - 1], before);
      ReachedSolved(k, t, solve, cheat, moves[..|moves| - 1], before);
      if Make(k, t, solve, cheat, before, m).Accepted? {
        MoveKeepsSolved(k, t, solve, cheat, before, m);
      }
    }
  }

  /**
   * Under every interleaving, what is cached for a bid is the solution of the commitment the house has for it, the
   * house has recorded the committed amount for that bid, and so the two agree exactly when the solution is right.
   */
  lemma CacheValues(k: Setup, t: int -> Terms, solve: Solver, cheat: Solver, moves: seq<Move>, s: Server, a: int, u: int)
    requires Lawful(k) && k.p > 0 && Fair(t) && Reached(k, t, solve, cheat, moves, s) && (a, u) in s.cache
    ensures a in Rooms(s.world) && u in Rooms(s.world)[a].bids
    ensures var x, id := Rooms(s.world)[a].auction, Rooms(s.world)[a].bids[u];
      && id in x.comms && id in x.openings && x.openings[id] == Some(x.comms[id].ped.value)
      && solve(x.comms[id]).Some? && s.cache[(a, u)] == solve(x.comms[id]).value.0
      && (x.openings[id] == Some(s.cache[(a, u)]) <==> solve(x.comms[id]).value.0 == x.comms[id].ped.value)
  {
    hide Lawful, Fair, Reached, Exclusive, TasksFaithful, Sound, Shadows, ClientsAgree, Solved;
    ReachedSafe(k, t, solve, cheat, moves, s);
    ReachedSolved(k, t, solve, cheat, moves, s);
    assert CachedSolution(solve, s, a, u);
    assert Revealed(s.world, a, u);
    ShadowedBidder(s.world, a, u);
    RecordedAmount(k, s.world, a, Rooms(s.world)[a].bids[u]);
  }

  lemma RecordedAmount(k: Setup, w: World, a: int, id: int)
    requires k.p > 0 && Sound(k, w.ledger) && Shadows(w) && a in Rooms(w) && id in Rooms(w)[a].auction.openings
    ensures var x := Rooms(w)[a].auction; id in x.comms && x.openings[id] == Some(x.comms[id].ped.value)
  {
    RoomAt(k, w.ledger, a);
    assert ShadowsAt(w, a);
    hide Sound, Shadows, Indexed;
    OpenedToValue(Rooms(w)[a].auction, id);
  }
}
