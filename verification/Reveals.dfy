/**
 * Revealing bids concurrently (_wsl_sync/main.rs): request handlers and background tasks interleave between
 * their lock acquisitions, each acquisition being one step here.
 */
module Reveals {
  import opened Outcomes
  import opened Ledger
  import opened LedgerSafety
  import Settlement
  import opened Sums
  import opened Clients
  import opened Worlds
  import opened WorldClients

  /** Teacher tasks claim before they compute; brute-force tasks compute first and claim to settle. */
  datatype Kind = Teacher | Brute

  /** The lock acquisition, or computation, a task does next. */
  datatype Next = CheckCache | CheckWorld | Claim | Read | Compute | Book | Rank | Store | Release | Finished

  datatype Task = Task(kind: Kind, a: int, u: int, next: Next, job: Option<Job>, plain: Option<(int, int)>)

  /**
   * The server: the world, the two guard maps, the tasks under way, and two histories: how often an opening
   * reward was credited for each auction and bidder, and the claims of tasks that were dropped on the way.
   */
  datatype Server = Server(
    world: World,
    inflight: set<(int, int)>,
    cache: map<(int, int), int>,
    tasks: map<int, Task>,
    credits: multiset<(int, int)>,
    abandoned: set<(int, int)>)

  datatype Move =
    | Enlist(init: nat)
    | StartAuction
    | PutIn(u: int, amt: nat)
    | TakeOut(u: int, amt: nat, proof: int)
    | Place(a: int, u: int, bid: int, r: int, puzzle: int, bp: int, lp: int, evidence: int)
    | OpenSelf(a: int, u: int, bid: int)
    | Cheat(a: int, u: int)
    | Close(a: int, n: nat, price: int, winners: set<int>)
    | Spawn(id: int, kind: Kind, a: int, u: int)
    | Run(id: int)
    | Drop(id: int)

  function Key(task: Task): (int, int)
  {
    (task.a, task.u)
  }

  /** The part of a task between a fresh claim and its release. */
  predicate Holds(task: Task)
  {
    task.next in {Book, Rank, Store, Release} || (task.kind == Teacher && task.next in {Read, Compute})
  }

  function First(kind: Kind): Next
  {
    match kind case Teacher => CheckCache case Brute => Read
  }

  /** Where a task goes on when its computation, or its reading of the world, fails. */
  function Failed(task: Task): Task
  {
    task.(next := if Holds(task) then Release else Finished)
  }

  function Put(s: Server, id: int, task: Task): Server
  {
    s.(tasks := s.tasks[id := task])
  }

  /** One step of a task. `solve` is the outcome of the long computation on a commitment. */
  function RunTask(k: Setup, t: int -> Terms, solve: Comm -> Option<(int, int)>, s: Server, id: int): Reply<Server>
    requires k.p > 0 && id in s.tasks
  {
    var task := s.tasks[id];
    match task.next
    case CheckCache =>
      Accepted(Put(s, id, task.(next := if Key(task) in s.cache then Finished else CheckWorld)))
    case CheckWorld =>
      Accepted(Put(s, id, task.(next := if Revealed(s.world, task.a, task.u) then Finished else Claim)))
    case Claim =>
      if Key(task) in s.inflight then Accepted(Put(s, id, task.(next := Finished)))
      else
        var after := match task.kind case Teacher => Read case Brute => Book;
        Accepted(Put(s, id, task.(next := after)).(inflight := s.inflight + {Key(task)}))
    case Read =>
      (match Prepare(s.world, task.a, task.u)
       case None => Accepted(Put(s, id, Failed(task)))
       case Some(job) => Accepted(Put(s, id, task.(next := Compute, job := Some(job)))))
    case Compute =>
      if task.job.None? then Refused
      else
        (match solve(task.job.value.comm)
         case None => Accepted(Put(s, id, Failed(task)))
         case Some(plain) =>
           var after := match task.kind case Teacher => Book case Brute => CheckCache;
           Accepted(Put(s, id, task.(next := after, plain := Some(plain)))))
    case Book =>
      if task.job.None? || task.plain.None? then Refused
      else
        (match ForceSettle(k, t, s.world, task.a, task.u, task.job.value, task.plain.value.0, task.plain.value.1)
         case Stopped => Stopped
         case Refused => Accepted(Put(s, id, Failed(task)))
         case Accepted(w) =>
           Accepted(Put(s, id, task.(next := Rank)).(world := w, credits := Credited(s, task))))
    case Rank => Accepted(Put(s, id, task.(next := Store)))
    case Store =>
      if task.plain.None? then Refused
      else Accepted(Put(s, id, task.(next := Release)).(cache := s.cache[Key(task) := task.plain.value.0]))
    case Release => Accepted(Put(s, id, task.(next := Finished)).(inflight := s.inflight - {Key(task)}))
    case Finished => Refused
  }

  /** Booking credits the reward unless the bid was revealed before. */
  function Credited(s: Server, task: Task): multiset<(int, int)>
    requires task.job.Some?
  {
    if task.job.value.id in RevealedIn(s.world, task.a) then s.credits else s.credits + multiset{Key(task)}
  }

  function Lift(r: Reply<World>, s: Server, credit: multiset<(int, int)>): Reply<Server>
  {
    match r
    case Stopped => Stopped
    case Refused => Refused
    case Accepted(w) => Accepted(s.(world := w, credits := s.credits + credit))
  }

  function Make(k: Setup, t: int -> Terms, solve: Comm -> Option<(int, int)>, cheat: Comm -> Option<(int, int)>, s: Server, m: Move): Reply<Server>
    requires k.p > 0
  {
    match m
    case Enlist(init) => Lift(Enroll(k, t, s.world, init), s, multiset{})
    case StartAuction => Lift(OpenAuction(k, t, s.world), s, multiset{})
    case PutIn(u, amt) => Lift(TakeDeposit(k, t, s.world, u, amt), s, multiset{})
    case TakeOut(u, amt, proof) => Lift(PayOut(k, t, s.world, u, amt, proof), s, multiset{})
    case Place(a, u, bid, r, puzzle, bp, lp, e) => Lift(PlaceBid(k, t, s.world, a, u, bid, r, puzzle, bp, lp, e), s, multiset{})
    case OpenSelf(a, u, bid) => Lift(RunSelfOpen(k, t, s.world, a, u, bid), s, multiset{(a, u)})
    case Cheat(a, u) =>
      (match Prepare(s.world, a, u)
       case None => Refused
       case Some(job) => Lift(ForceCheating(k, t, s.world, a, u, cheat(job.comm)), s, multiset{(a, u)}))
    case Close(a, n, price, winners) => Lift(CloseRound(k, t, s.world, a, n, price, winners), s, multiset{})
    case Spawn(id, kind, a, u) =>
      if id in s.tasks then Refused else Accepted(Put(s, id, Task(kind, a, u, First(kind), None, None)))
    case Run(id) => if id in s.tasks then RunTask(k, t, solve, s, id) else Refused
    case Drop(id) =>
      if id !in s.tasks then Refused
      else
        var gone := s.tasks[id];
        Accepted(s.(tasks := s.tasks - {id}, abandoned := if Holds(gone) then s.abandoned + {Key(gone)} else s.abandoned))
  }

  /** Bids are 32-bit amounts, and settlements are proper. */
  ghost predicate Allowed(k: Setup, s: Server, m: Move)
    requires k.p > 0
  {
    match m
    case Place(_, _, bid, _, _, _, _, _) => Small(bid)
    case Close(a, n, price, winners) => Proper(k, s.world.ledger, DoSettle(a, n, price, winners))
    case _ => true
  }

  // ----------------------------------------------------------------- the invariant

  ghost predicate WorldSafe(k: Setup, s: Server)
    requires k.p > 0
  {
    && Sound(k, s.world.ledger)
    && Shadows(s.world)
    && ClientsAgree(k, s.world)
    && (forall a, u :: s.credits[(a, u)] == if Revealed(s.world, a, u) then 1 else 0)
  }

  /** Claims are exclusive, and every claim marked in flight is held by a task or was abandoned by one. */
  ghost predicate Exclusive(s: Server)
  {
    && (forall i, j :: i in s.tasks && j in s.tasks && i != j && Holds(s.tasks[i]) && Holds(s.tasks[j]) ==> Key(s.tasks[i]) != Key(s.tasks[j]))
    && (forall i :: i in s.tasks && Holds(s.tasks[i]) ==> Key(s.tasks[i]) in s.inflight && Key(s.tasks[i]) !in s.abandoned)
    && s.abandoned <= s.inflight
    && (forall key :: key in s.inflight ==> key in s.abandoned || exists i :: i in s.tasks && Holds(s.tasks[i]) && Key(s.tasks[i]) == key)
  }

  /** What a task carries is what the world says of its bid, and past booking the bid is revealed. */
  ghost predicate Faithful(w: World, task: Task)
  {
    && (task.job.Some? ==> Key(task) in w.bidIndex && task.job.value.id == w.bidIndex[Key(task)])
    && (task.next in {Compute, Book} ==> task.job.Some?)
    && (task.next == Book ==> task.plain.Some?)
    && (task.kind == Brute && task.next in {CheckCache, CheckWorld, Claim} ==> task.job.Some? && task.plain.Some?)
    && (task.next in {Rank, Store} ==> task.plain.Some? && Revealed(w, task.a, task.u))
  }

  ghost predicate TasksFaithful(s: Server)
  {
    forall i :: i in s.tasks ==> Faithful(s.world, s.tasks[i])
  }

  ghost predicate CacheRevealed(s: Server)
  {
    forall a, u :: (a, u) in s.cache ==> Revealed(s.world, a, u)
  }

  ghost predicate Safe(k: Setup, s: Server)
    requires k.p > 0
  {
    WorldSafe(k, s) && Exclusive(s) && TasksFaithful(s) && CacheRevealed(s)
  }

  // ------------------------------------------------------- steps keep the invariant

  lemma FaithfulExtends(w: World, w': World, task: Task)
    requires Faithful(w, task) && Extends(w, w')
    ensures Faithful(w', task)
  {
  }

  lemma ExtendsKeeps(s: Server, s': Server)
    requires Extends(s.world, s'.world) && s'.tasks == s.tasks && s'.cache == s.cache
    requires TasksFaithful(s) && CacheRevealed(s)
    ensures TasksFaithful(s') && CacheRevealed(s')
  {
    forall i | i in s'.tasks ensures Faithful(s'.world, s'.tasks[i]) {
      FaithfulExtends(s.world, s'.world, s.tasks[i]);
    }
  }

  /** A world step under which no bid, or exactly one new bid, becomes revealed keeps the world part. */
  lemma CreditsKeep(s: Server, s': Server, a: int, u: int)
    requires forall b, v :: s.credits[(b, v)] == if Revealed(s.world, b, v) then 1 else 0
    requires !Revealed(s.world, a, u) && NewlyRevealed(s.world, s'.world, a, u) && s'.credits == s.credits + multiset{(a, u)}
    ensures forall b, v :: s'.credits[(b, v)] == if Revealed(s'.world, b, v) then 1 else 0
  {
    hide Revealed;
  }

  lemma ExclusiveSame(s: Server, s': Server, id: int, task: Task)
    requires Exclusive(s) && s'.inflight == s.inflight && s'.abandoned == s.abandoned && s'.tasks == s.tasks[id := task]
    requires if id in s.tasks then Key(task) == Key(s.tasks[id]) && (Holds(task) <==> Holds(s.tasks[id])) else !Holds(task)
    ensures Exclusive(s')
  {
    hide Holds, Key;
    forall key | key in s'.inflight && key !in s'.abandoned ensures exists i :: i in s'.tasks && Holds(s'.tasks[i]) && Key(s'.tasks[i]) == key {
      var i :| i in s.tasks && Holds(s.tasks[i]) && Key(s.tasks[i]) == key;
      assert i in s'.tasks && Holds(s'.tasks[i]) && Key(s'.tasks[i]) == key;
    }
  }

  lemma ExclusiveClaim(s: Server, s': Server, id: int, task: Task)
    requires Exclusive(s) && id in s.tasks && Key(task) == Key(s.tasks[id]) && Holds(task) && !Holds(s.tasks[id])
    requires Key(task) !in s.inflight && s'.inflight == s.inflight + {Key(task)}
    requires s'.abandoned == s.abandoned && s'.tasks == s.tasks[id := task]
    ensures Exclusive(s')
  {
    hide Holds, Key;
    forall key | key in s'.inflight && key !in s'.abandoned ensures exists i :: i in s'.tasks && Holds(s'.tasks[i]) && Key(s'.tasks[i]) == key {
      if key == Key(task) {
        assert id in s'.tasks && Holds(s'.tasks[id]) && Key(s'.tasks[id]) == key;
      } else {
        var i :| i in s.tasks && Holds(s.tasks[i]) && Key(s.tasks[i]) == key;
        assert i in s'.tasks && Holds(s'.tasks[i]) && Key(s'.tasks[i]) == key;
      }
    }
  }

  lemma ExclusiveRelease(s: Server, s': Server, id: int, tasks: map<int, Task>)
    requires Exclusive(s) && id in s.tasks && Holds(s.tasks[id])
    requires forall i :: i in tasks && Holds(tasks[i]) ==> i in s.tasks && i != id && tasks[i] == s.tasks[i]
    requires forall i :: i in s.tasks && i != id ==> i in tasks && tasks[i] == s.tasks[i]
    requires s'.tasks == tasks
    requires || (s'.inflight == s.inflight - {Key(s.tasks[id])} && s'.abandoned == s.abandoned)
             || (s'.inflight == s.inflight && s'.abandoned == s.abandoned + {Key(s.tasks[id])})
    ensures Exclusive(s')
  {
    hide Holds, Key;
    forall key | key in s'.inflight && key !in s'.abandoned ensures exists i :: i in s'.tasks && Holds(s'.tasks[i]) && Key(s'.tasks[i]) == key {
      var i :| i in s.tasks && Holds(s.tasks[i]) && Key(s.tasks[i]) == key;
      assert i != id;
      assert i in s'.tasks && Holds(s'.tasks[i]) && Key(s'.tasks[i]) == key;
    }
  }

  lemma TaskExclusive(k: Setup, t: int -> Terms, solve: Comm -> Option<(int, int)>, s: Server, id: int)
    requires k.p > 0 && id in s.tasks && Exclusive(s) && RunTask(k, t, solve, s, id).Accepted?
    ensures Exclusive(RunTask(k, t, solve, s, id).value)
  {
    hide Exclusive, Revealed, ForceSettle, Prepare, Credited;
    var s' := RunTask(k, t, solve, s, id).value;
    var task := s.tasks[id];
    match task.next
    case Claim =>
      if Key(task) in s.inflight {
        ExclusiveSame(s, s', id, s'.tasks[id]);
      } else {
        ExclusiveClaim(s, s', id, s'.tasks[id]);
      }
    case Release => ExclusiveRelease(s, s', id, s'.tasks);
    case Finished =>
    case _ => ExclusiveSame(s, s', id, s'.tasks[id]);
  }

  lemma DropExclusive(s: Server, s': Server, id: int)
    requires Exclusive(s) && id in s.tasks && s'.tasks == s.tasks - {id} && s'.inflight == s.inflight
    requires s'.abandoned == if Holds(s.tasks[id]) then s.abandoned + {Key(s.tasks[id])} else s.abandoned
    ensures Exclusive(s')
  {
    if Holds(s.tasks[id]) {
      ExclusiveRelease(s, s', id, s'.tasks);
    } else {
      hide Holds, Key;
      forall key | key in s'.inflight && key !in s'.abandoned ensures exists i :: i in s'.tasks && Holds(s'.tasks[i]) && Key(s'.tasks[i]) == key {
        var i :| i in s.tasks && Holds(s.tasks[i]) && Key(s.tasks[i]) == key;
        assert i in s'.tasks && Holds(s'.tasks[i]) && Key(s'.tasks[i]) == key;
      }
    }
  }

  // --------------------------------------------------------- the bookkeeping of tasks

  /** What `Prepare` reads is the bid's own number. */
  lemma PreparedJob(w: World, a: int, u: int)
    ensures Prepare(w, a, u).Some? ==> (a, u) in w.bidIndex && Prepare(w, a, u).value.id == w.bidIndex[(a, u)]
  {
  }

  /** Task steps that leave the world alone keep every task faithful and every cache entry revealed. */
  lemma QuietTask(k: Setup, t: int -> Terms, solve: Comm -> Option<(int, int)>, s: Server, id: int)
    requires k.p > 0 && id in s.tasks && s.tasks[id].next != Book && TasksFaithful(s) && CacheRevealed(s)
    requires RunTask(k, t, solve, s, id).Accepted?
    ensures var s' := RunTask(k, t, solve, s, id).value;
      s'.world == s.world && s'.credits == s.credits && TasksFaithful(s') && CacheRevealed(s')
  {
    hide Revealed, Prepare, ForceSettle;
    var s' := RunTask(k, t, solve, s, id).value;
    var task := s.tasks[id];
    PreparedJob(s.world, task.a, task.u);
    assert Faithful(s.world, task);
    assert Faithful(s'.world, s'.tasks[id]);
    forall i | i in s'.tasks ensures Faithful(s'.world, s'.tasks[i]) {
      assert i != id ==> s'.tasks[i] == s.tasks[i];
    }
  }

  /** Booking reveals the task's bid and credits it exactly if it was not revealed before. */
  lemma BookTask(k: Setup, t: int -> Terms, solve: Comm -> Option<(int, int)>, s: Server, id: int)
    requires Lawful(k) && k.p > 0 && Fair(t) && id in s.tasks && s.tasks[id].next == Book && WorldSafe(k, s) && TasksFaithful(s) && CacheRevealed(s)
    requires RunTask(k, t, solve, s, id).Accepted?
    ensures var s' := RunTask(k, t, solve, s, id).value;
      Shadows(s'.world) && ClientsAgree(k, s'.world) && TasksFaithful(s') && CacheRevealed(s')
      && forall b, v :: s'.credits[(b, v)] == if Revealed(s'.world, b, v) then 1 else 0
  {
    var task := s.tasks[id];
    assert Faithful(s.world, task);
    hide Lawful, Fair, WorldSafe, TasksFaithful, CacheRevealed, Sound, Shadows, ClientsAgree, Extends, NewlyRevealed, ForceSettle, Revealed;
    var job, plain := task.job.value, task.plain.value;
    var s' := RunTask(k, t, solve, s, id).value;
    WorldParts(k, s);
    match ForceSettle(k, t, s.world, task.a, task.u, job, plain.0, plain.1)
    case Refused => TaskReplaced(s, s, s', id, Failed(task));
    case Accepted(w) =>
      ForceSettleReveals(k, t, s.world, task.a, task.u, job, plain.0, plain.1);
      ForcedClients(k, t, s.world, task.a, task.u, job, plain.0, plain.1);
      RevealedHere(s.world, task);
      NowRevealed(s.world, w, task.a, task.u);
      var mid := s.(world := w);
      ExtendsKeeps(s, mid);
      ExtendedTask(s.world, w, task);
      TaskReplaced(s, mid, s', id, task.(next := Rank));
      if !Revealed(s.world, task.a, task.u) {
        CreditsKeep(s, s', task.a, task.u);
      }
  }

  lemma WorldParts(k: Setup, s: Server)
    requires k.p > 0 && WorldSafe(k, s)
    ensures Sound(k, s.world.ledger) && Shadows(s.world) && ClientsAgree(k, s.world)
    ensures forall a, u :: s.credits[(a, u)] == if Revealed(s.world, a, u) then 1 else 0
  {
  }

  lemma RevealedHere(w: World, task: Task)
    requires task.job.Some? && Key(task) in w.bidIndex && task.job.value.id == w.bidIndex[Key(task)]
    ensures Revealed(w, task.a, task.u) <==> task.job.value.id in RevealedIn(w, task.a)
  {
  }

  lemma ExtendedTask(w: World, w': World, task: Task)
    requires Faithful(w, task) && task.next == Book && Extends(w, w') && Revealed(w', task.a, task.u)
    ensures Faithful(w', task.(next := Rank))
  {
  }

  lemma TaskReplaced(s: Server, mid: Server, s': Server, id: int, task: Task)
    requires TasksFaithful(mid) && CacheRevealed(mid) && mid.tasks == s.tasks && mid.cache == s.cache
    requires s'.tasks == s.tasks[id := task] && s'.cache == s.cache && s'.world == mid.world
    requires Faithful(mid.world, task)
    ensures TasksFaithful(s') && CacheRevealed(s')
  {
    hide Faithful, Revealed;
  }

  // ------------------------------------------------------------------- all moves

  lemma MoveKeepsSound(k: Setup, t: int -> Terms, solve: Comm -> Option<(int, int)>, cheat: Comm -> Option<(int, int)>, s: Server, m: Move)
    requires Lawful(k) && k.p > 0 && Fair(t) && Sound(k, s.world.ledger) && Allowed(k, s, m)
    requires Make(k, t, solve, cheat, s, m).Accepted?
    ensures Sound(k, Make(k, t, solve, cheat, s, m).value.world.ledger)
  {
    hide Sound, Lawful, Fair, Step, Revealed, RevealedIn, Proper, ConfirmCredit, ConfirmBid, ConfirmWithdrawal, ProposeBid, ProposeWithdrawal,
      AllConfirm, Scalar, Confirmed;
    var w, w' := s.world, Make(k, t, solve, cheat, s, m).value.world;
    match m
    case Enlist(init) => EnlistSound(k, t, w, init);
    case StartAuction => OthersProper(k, w, 0, 0, 0); WorldStepSound(k, t, w, w', DoNewAuction);
    case PutIn(u, amt) => OthersProper(k, w, u, amt, 0); WorldStepSound(k, t, w, w', DoDeposit(u, amt));
    case TakeOut(u, amt, proof) => OthersProper(k, w, u, amt, proof); WorldStepSound(k, t, w, w', DoWithdraw(u, amt, proof));
    case Place(a, u, bid, r, puzzle, bp, lp, e) =>
      BidProper(k, t, w, a, u, bid, r, puzzle, bp, lp);
      WorldStepSound(k, t, w, w', DoBid(a, u, ProposeBid(k, t(a), w.privates[u], bid, r, puzzle).value.comm, bp, lp));
    case OpenSelf(a, u, bid) =>
      OpeningProper(k, w, a, u, 0, bid, Kept(w, a, u));
      WorldStepSound(k, t, w, w', DoSelfOpen(a, u, bid, Kept(w, a, u)));
    case Cheat(a, u) =>
      var job, plain := Prepare(w, a, u).value, cheat(Prepare(w, a, u).value.comm).value;
      OpeningProper(k, w, a, u, job.id, plain.0, plain.1);
      WorldStepSound(k, t, w, w', DoForceOpen(a, u, job.id, Some(plain.0), plain.1));
    case Close(a, n, price, winners) => WorldStepSound(k, t, w, w', DoSettle(a, n, price, winners));
    case Run(id) => TaskKeepsSound(k, t, solve, s, id);
    case _ =>
  }

  lemma EnlistSound(k: Setup, t: int -> Terms, w: World, init: nat)
    requires Lawful(k) && k.p > 0 && Fair(t) && Sound(k, w.ledger) && Enroll(k, t, w, init).Accepted?
    ensures Sound(k, Enroll(k, t, w, init).value.ledger)
  {
    hide Sound, Lawful, Fair, Step, ConfirmCredit;
    var l := Step(k, t, w.ledger, DoNewAccount).value;
    StepKeepsSound(k, t, w.ledger, DoNewAccount);
    StepKeepsSound(k, t, l, DoDeposit(w.ledger.house.ctrAccount, init));
  }

  lemma BidProper(k: Setup, t: int -> Terms, w: World, a: int, u: int, bid: int, r: int, puzzle: int, bp: int, lp: int)
    requires Lawful(k) && k.p > 0 && Small(bid) && u in w.privates && ProposeBid(k, t(a), w.privates[u], bid, r, puzzle).Accepted?
    ensures Proper(k, w.ledger, DoBid(a, u, ProposeBid(k, t(a), w.privates[u], bid, r, puzzle).value.comm, bp, lp))
  {
    hide Lawful, Commit, Scalar, BidRemainder;
    ProposedComm(k, bid, r);
  }

  lemma OthersProper(k: Setup, w: World, u: int, amt: nat, proof: int)
    requires k.p > 0
    ensures Proper(k, w.ledger, DoNewAuction) && Proper(k, w.ledger, DoDeposit(u, amt)) && Proper(k, w.ledger, DoWithdraw(u, amt, proof))
  {
  }

  lemma OpeningProper(k: Setup, w: World, a: int, u: int, id: int, bid: int, e: int)
    requires k.p > 0
    ensures Proper(k, w.ledger, DoSelfOpen(a, u, bid, e)) && Proper(k, w.ledger, DoForceOpen(a, u, id, Some(bid), e))
  {
  }

  lemma TaskKeepsSound(k: Setup, t: int -> Terms, solve: Comm -> Option<(int, int)>, s: Server, id: int)
    requires Lawful(k) && k.p > 0 && Fair(t) && Sound(k, s.world.ledger) && id in s.tasks && RunTask(k, t, solve, s, id).Accepted?
    ensures Sound(k, RunTask(k, t, solve, s, id).value.world.ledger)
  {
    hide Sound, Lawful, Fair, Step, Revealed, RevealedIn, Prepare, ConfirmCredit;
    var task := s.tasks[id];
    if task.next == Book {
      var w' := RunTask(k, t, solve, s, id).value.world;
      var job, plain := task.job.value, task.plain.value;
      OpeningProper(k, s.world, task.a, task.u, job.id, plain.0, plain.1);
      WorldStepSound(k, t, s.world, w', DoForceOpen(task.a, task.u, job.id, Some(plain.0), plain.1));
    }
  }

  /** A step on the world that reveals nothing new. */
  lemma QuietWorld(k: Setup, s: Server, s': Server)
    requires k.p > 0 && WorldSafe(k, s) && TasksFaithful(s) && CacheRevealed(s)
    requires s' == s.(world := s'.world) && Shadows(s'.world) && ClientsAgree(k, s'.world) && Extends(s.world, s'.world)
    requires forall b, v :: Revealed(s'.world, b, v) <==> Revealed(s.world, b, v)
    requires Sound(k, s'.world.ledger)
    ensures WorldSafe(k, s') && TasksFaithful(s') && CacheRevealed(s')
  {
    hide Sound, Shadows, ClientsAgree, Extends, Revealed, TasksFaithful, CacheRevealed;
    ExtendsKeeps(s, s');
  }

  /** A step on the world that reveals one bid and credits it. */
  lemma CreditedWorld(k: Setup, s: Server, s': Server, a: int, u: int)
    requires k.p > 0 && WorldSafe(k, s) && TasksFaithful(s) && CacheRevealed(s)
    requires s' == s.(world := s'.world, credits := s.credits + multiset{(a, u)}) && Shadows(s'.world) && ClientsAgree(k, s'.world) && Extends(s.world, s'.world)
    requires !Revealed(s.world, a, u) && NewlyRevealed(s.world, s'.world, a, u)
    requires Sound(k, s'.world.ledger)
    ensures WorldSafe(k, s') && TasksFaithful(s') && CacheRevealed(s')
  {
    hide Sound, Shadows, ClientsAgree, Extends, Revealed, TasksFaithful, CacheRevealed, NewlyRevealed;
    ExtendsKeeps(s, s');
    CreditsKeep(s, s', a, u);
  }

  /** Every move keeps the server safe. */
  lemma MoveKeepsSafe(k: Setup, t: int -> Terms, solve: Comm -> Option<(int, int)>, cheat: Comm -> Option<(int, int)>, s: Server, m: Move)
    requires Lawful(k) && k.p > 0 && Fair(t) && Safe(k, s) && Allowed(k, s, m) && Make(k, t, solve, cheat, s, m).Accepted?
    ensures Safe(k, Make(k, t, solve, cheat, s, m).value)
  {
    hide Sound, Lawful, Fair, WorldSafe, Exclusive, TasksFaithful, CacheRevealed, Shadows, ClientsAgree, Extends, Revealed, NewlyRevealed,
      PlaceBid, RunSelfOpen, ForceCheating, CloseRound, Enroll, OpenAuction, TakeDeposit, PayOut, RunTask, Proper, Prepare;
    var s' := Make(k, t, solve, cheat, s, m).value;
    var w := s.world;
    WorldParts(k, s);
    MoveKeepsSound(k, t, solve, cheat, s, m);
    match m
    case Enlist(init) =>
      EnrollKeepsShadows(k, t, w, init);
      EnrolledClients(k, t, w, init);
      QuietWorld(k, s, s');
      SameGuards(s, s');
    case StartAuction =>
      AuctionKeepsShadows(k, t, w);
      AuctionClients(k, t, w);
      QuietWorld(k, s, s');
      SameGuards(s, s');
    case PutIn(u, amt) =>
      DepositKeepsShadows(k, t, w, u, amt);
      DepositedClients(k, t, w, u, amt);
      QuietWorld(k, s, s');
      SameGuards(s, s');
    case TakeOut(u, amt, proof) =>
      PayOutKeepsShadows(k, t, w, u, amt, proof);
      PaidClients(k, t, w, u, amt, proof);
      QuietWorld(k, s, s');
      SameGuards(s, s');
    case Place(a, u, bid, r, puzzle, bp, lp, e) =>
      PlaceBidShadows(k, t, w, a, u, bid, r, puzzle, bp, lp, e);
      PlacedClients(k, t, w, a, u, bid, r, puzzle, bp, lp, e);
      QuietWorld(k, s, s');
      SameGuards(s, s');
    case OpenSelf(a, u, bid) =>
      SelfOpenReveals(k, t, w, a, u, bid);
      SelfOpenedClients(k, t, w, a, u, bid);
      CreditedWorld(k, s, s', a, u);
      SameGuards(s, s');
    case Cheat(a, u) =>
      CheatingReveals(k, t, w, a, u, cheat(Prepare(w, a, u).value.comm));
      CheatedClients(k, t, w, a, u, cheat(Prepare(w, a, u).value.comm));
      CreditedWorld(k, s, s', a, u);
      SameGuards(s, s');
    case Close(a, n, price, winners) =>
      ClosingKeepsShadows(k, t, w, a, n, price, winners);
      ClosedClients(k, t, w, a, n, price, winners);
      QuietWorld(k, s, s');
      SameGuards(s, s');
    case Spawn(id, kind, a, u) => Spawned(k, s, s', id, Task(kind, a, u, First(kind), None, None));
    case Run(id) => RunKeepsSafe(k, t, solve, s, id);
    case Drop(id) =>
      DropExclusive(s, s', id);
      Dropped(k, s, s', id);
  }

  lemma SameGuards(s: Server, s': Server)
    requires Exclusive(s) && s'.tasks == s.tasks && s'.inflight == s.inflight && s'.abandoned == s.abandoned
    ensures Exclusive(s')
  {
  }

  lemma Spawned(k: Setup, s: Server, s': Server, id: int, task: Task)
    requires k.p > 0 && Safe(k, s) && id !in s.tasks && s' == Put(s, id, task)
    requires task == Task(task.kind, task.a, task.u, First(task.kind), None, None)
    requires Sound(k, s'.world.ledger)
    ensures Safe(k, s')
  {
    hide Sound, Shadows, ClientsAgree, Exclusive, CacheRevealed, Revealed;
    ExclusiveSame(s, s', id, task);
    SameCache(s, s');
    assert WorldSafe(k, s');
    assert Faithful(s'.world, task);
    forall i | i in s'.tasks ensures Faithful(s'.world, s'.tasks[i]) {
      assert i != id ==> s'.tasks[i] == s.tasks[i];
    }
  }

  lemma SameCache(s: Server, s': Server)
    requires CacheRevealed(s) && s'.cache == s.cache && s'.world == s.world
    ensures CacheRevealed(s')
  {
  }

  lemma Dropped(k: Setup, s: Server, s': Server, id: int)
    requires k.p > 0 && WorldSafe(k, s) && TasksFaithful(s) && CacheRevealed(s)
    requires s'.world == s.world && s'.credits == s.credits && s'.cache == s.cache && s'.tasks == s.tasks - {id}
    ensures WorldSafe(k, s') && TasksFaithful(s') && CacheRevealed(s')
  {
    hide Sound, Shadows, ClientsAgree, Faithful, Revealed;
  }

  lemma RunKeepsSafe(k: Setup, t: int -> Terms, solve: Comm -> Option<(int, int)>, s: Server, id: int)
    requires Lawful(k) && k.p > 0 && Fair(t) && Safe(k, s) && id in s.tasks && RunTask(k, t, solve, s, id).Accepted?
    ensures Safe(k, RunTask(k, t, solve, s, id).value)
  {
    hide Sound, Lawful, Fair, WorldSafe, Exclusive, TasksFaithful, CacheRevealed, Shadows, ClientsAgree, Revealed, RunTask;
    WorldParts(k, s);
    TaskKeepsSound(k, t, solve, s, id);
    TaskExclusive(k, t, solve, s, id);
    if s.tasks[id].next == Book {
      BookTask(k, t, solve, s, id);
    } else {
      QuietTask(k, t, solve, s, id);
    }
    WorldTogether(k, RunTask(k, t, solve, s, id).value);
  }

  lemma WorldTogether(k: Setup, s: Server)
    requires k.p > 0 && Sound(k, s.world.ledger) && Shadows(s.world) && ClientsAgree(k, s.world)
    requires forall a, u :: s.credits[(a, u)] == if Revealed(s.world, a, u) then 1 else 0
    ensures WorldSafe(k, s)
  {
  }

  // ------------------------------------------------------------------- whole runs

  function Boot(): Server
  {
    Server(World(Start(), map[], map[], map[], map[], map[]), {}, map[], map[], multiset{}, {})
  }

  /** `s` is a state of some interleaving of allowed moves. */
  ghost predicate Reached(k: Setup, t: int -> Terms, solve: Comm -> Option<(int, int)>, cheat: Comm -> Option<(int, int)>,
                          moves: seq<Move>, s: Server)
    requires k.p > 0
    decreases |moves|
  {
    if moves == [] then s == Boot()
    else
      var m := moves[|moves| - 1];
      exists before: Server :: Reached(k, t, solve, cheat, moves[..|moves| - 1], before) && Moved(k, t, solve, cheat, before, m, s)
  }

  ghost predicate Moved(k: Setup, t: int -> Terms, solve: Comm -> Option<(int, int)>, cheat: Comm -> Option<(int, int)>,
                        before: Server, m: Move, s: Server)
    requires k.p > 0
  {
    && Allowed(k, before, m)
    && match Make(k, t, solve, cheat, before, m)
       case Stopped => false
       case Refused => s == before
       case Accepted(next) => s == next
  }

  lemma BootSafe(k: Setup)
    requires k.p > 0
    ensures Safe(k, Boot())
  {
    var s := Boot();
    forall a, u ensures !Revealed(s.world, a, u) {
    }
    assert s.world.ledger.house.accounts == map[];
  }

  lemma {:induction false} ReachedSafe(k: Setup, t: int -> Terms, solve: Comm -> Option<(int, int)>, cheat: Comm -> Option<(int, int)>,
                                       moves: seq<Move>, s: Server)
    requires Lawful(k) && k.p > 0 && Fair(t) && Reached(k, t, solve, cheat, moves, s)
    ensures Safe(k, s)
    decreases |moves|
  {
    hide Lawful, Fair, Safe, Allowed, Make;
    if moves == [] {
      BootSafe(k);
    } else {
      var m := moves[|moves| - 1];
      var before: Server :| Reached(k, t, solve, cheat, moves[..|moves| - 1], before) && Moved(k, t, solve, cheat, before, m, s);
      ReachedSafe(k, t, solve, cheat, moves[..|moves| - 1], before);
      if Make(k, t, solve, cheat, before, m).Accepted? {
        MoveKeepsSafe(k, t, solve, cheat, before, m);
      }
    }
  }

  /**
   * Under every interleaving: between a fresh claim and its release an auction and bidder have at most one task,
   * whose claim is marked in flight; and a mark outlives its task only if the task was dropped.
   */
  lemma OneHolder(k: Setup, t: int -> Terms, solve: Comm -> Option<(int, int)>, cheat: Comm -> Option<(int, int)>,
                  moves: seq<Move>, s: Server)
    requires Lawful(k) && k.p > 0 && Fair(t) && Reached(k, t, solve, cheat, moves, s)
    ensures forall i, j :: i in s.tasks && j in s.tasks && Holds(s.tasks[i]) && Holds(s.tasks[j]) && Key(s.tasks[i]) == Key(s.tasks[j]) ==> i == j
    ensures forall key :: key in s.inflight <==> key in s.abandoned || exists i :: i in s.tasks && Holds(s.tasks[i]) && Key(s.tasks[i]) == key
  {
    hide Lawful, Fair, Reached, WorldSafe, TasksFaithful, CacheRevealed, Holds, Key;
    ReachedSafe(k, t, solve, cheat, moves, s);
    assert Exclusive(s);
  }

  /**
   * Under every interleaving: a bid's opening reward has been credited exactly once if the bid is revealed and
   * never otherwise, the house agrees on what is opened, and everything in the cache is revealed.
   */
  lemma RewardedOnce(k: Setup, t: int -> Terms, solve: Comm -> Option<(int, int)>, cheat: Comm -> Option<(int, int)>,
                     moves: seq<Move>, s: Server, a: int, u: int)
    requires Lawful(k) && k.p > 0 && Fair(t) && Reached(k, t, solve, cheat, moves, s)
    ensures s.credits[(a, u)] == if Revealed(s.world, a, u) then 1 else 0
    ensures (a, u) in s.cache ==> Revealed(s.world, a, u)
    ensures Revealed(s.world, a, u) <==>
      a in Rooms(s.world) && u in Rooms(s.world)[a].bids && Rooms(s.world)[a].bids[u] in Rooms(s.world)[a].auction.openings
  {
    hide Lawful, Fair, Reached, Exclusive, TasksFaithful, Sound, Shadows, Revealed;
    ReachedSafe(k, t, solve, cheat, moves, s);
    ShadowedReveal(s.world, a, u);
  }

  lemma ShadowedReveal(w: World, a: int, u: int)
    requires Shadows(w)
    ensures Revealed(w, a, u) <==> a in Rooms(w) && u in Rooms(w)[a].bids && Rooms(w)[a].bids[u] in Rooms(w)[a].auction.openings
  {
    ShadowedBidder(w, a, u);
  }

  /**
   * Under every interleaving the server's indices are the house's own: the number of bids of an auction counts its
   * commitments, a bidder's entry is the bid number the house keeps, numbers are dense and shared by no two bidders.
   */
  lemma IndicesAgree(k: Setup, t: int -> Terms, solve: Comm -> Option<(int, int)>, cheat: Comm -> Option<(int, int)>,
                     moves: seq<Move>, s: Server, a: int)
    requires Lawful(k) && k.p > 0 && Fair(t) && Reached(k, t, solve, cheat, moves, s) && a in Rooms(s.world)
    ensures ShadowsAt(s.world, a)
    ensures BidsIn(s.world, a) == |Rooms(s.world)[a].auction.comms|
    ensures forall id :: Taken(s.world, a, id) <==> 0 <= id < BidsIn(s.world, a)
    ensures forall u, v :: (a, u) in s.world.bidIndex && (a, v) in s.world.bidIndex && s.world.bidIndex[(a, u)] == s.world.bidIndex[(a, v)] ==> u == v
  {
    hide Lawful, Fair, Reached, Exclusive, TasksFaithful, CacheRevealed, Sound, Bound;
    ReachedSafe(k, t, solve, cheat, moves, s);
    assert ShadowsAt(s.world, a);
    RoomAt(k, s.world.ledger, a);
    IndexDense(s.world, a, s.world.ledger.house.ctrAccount);
  }

  /** Some bidder holds the bid number. */
  ghost predicate Taken(w: World, a: int, id: int)
  {
    exists u :: (a, u) in w.bidIndex && w.bidIndex[(a, u)] == id
  }

  lemma IndexDense(w: World, a: int, n: int)
    requires a in Rooms(w) && ShadowsAt(w, a) && Indexed(Rooms(w)[a], n)
    ensures BidsIn(w, a) == |Rooms(w)[a].auction.comms|
    ensures forall id :: Taken(w, a, id) <==> 0 <= id < BidsIn(w, a)
    ensures forall u, v :: (a, u) in w.bidIndex && (a, v) in w.bidIndex && w.bidIndex[(a, u)] == w.bidIndex[(a, v)] ==> u == v
  {
    var r := Rooms(w)[a];
    NumberCount(r, n);
    hide RevealedIn, ToValues;
    forall id ensures Taken(w, a, id) <==> 0 <= id < BidsIn(w, a) {
      TakenBelow(w, a, n, id);
    }
  }

  lemma NumberCount(r: Room, n: int)
    requires Indexed(r, n)
    ensures |r.auction.comms| == |r.bids|
  {
    EveryNumberHeld(r, n);
    HeldValues(r, n);
    NumbersFit(r);
    hide Numbered, Held;
    Settlement.SubsetCard(r.bids.Values, r.auction.comms.Keys);
  }

  lemma TakenBelow(w: World, a: int, n: int, id: int)
    requires a in Rooms(w) && ShadowsAt(w, a) && Indexed(Rooms(w)[a], n)
    ensures Taken(w, a, id) <==> 0 <= id < BidsIn(w, a)
  {
    var r := Rooms(w)[a];
    hide RevealedIn, ToValues;
    EveryNumberHeld(r, n);
    if 0 <= id < BidsIn(w, a) {
      var u := KeyFor(r.bids, id);
      assert (a, u) in w.bidIndex && w.bidIndex[(a, u)] == id;
    }
  }

  /**
   * Under every interleaving each client mirrors its account: the balance the server shows is the house's, the amount
   * it shows as frozen is exactly the sum of the committed bids, and the difference is never negative.
   */
  lemma ClientsMirror(k: Setup, t: int -> Terms, solve: Comm -> Option<(int, int)>, cheat: Comm -> Option<(int, int)>,
                      moves: seq<Move>, s: Server, u: int)
    requires Lawful(k) && k.p > 0 && Fair(t) && Reached(k, t, solve, cheat, moves, s)
    ensures u in s.world.privates <==> u in s.world.ledger.house.accounts
    ensures u in s.world.privates ==>
      && s.world.ledger.house.ctrAuction >= 0
      && Mirrors(k, s.world.ledger, u, s.world.privates[u])
      && s.world.privates[u].balance == s.world.ledger.house.accounts[u].balance
      && Frozen(s.world, u) == Committed(s.world.ledger, u) <= s.world.privates[u].balance
  {
    hide Lawful, Fair, Reached, Exclusive, TasksFaithful, CacheRevealed, Sound, Shadows, Mirrors, Committed, Frozen;
    ReachedSafe(k, t, solve, cheat, moves, s);
    AgreeAt(k, s.world, u);
    if u in s.world.privates {
      BalancesShown(k, s.world, u);
    }
  }

  /** Under every interleaving a forced opening works on the house's commitment, amount and number of an active bid. */
  lemma JobsAreRight(k: Setup, t: int -> Terms, solve: Comm -> Option<(int, int)>, cheat: Comm -> Option<(int, int)>,
                     moves: seq<Move>, s: Server, a: int, u: int)
    requires Lawful(k) && k.p > 0 && Fair(t) && Reached(k, t, solve, cheat, moves, s)
    ensures var job := Prepare(s.world, a, u);
      && (job.Some? <==> Active(s.world.ledger, u, a))
      && (job.Some? ==>
            && job.value.comm == HouseComm(s.world.ledger, u, a)
            && job.value.stored == HouseComm(s.world.ledger, u, a).ped.value
            && job.value.id == Rooms(s.world)[a].bids[u])
  {
    hide Lawful, Fair, Reached, Exclusive, TasksFaithful, CacheRevealed, Sound, Shadows, ClientsAgree, Prepare, Active, HouseComm;
    ReachedSafe(k, t, solve, cheat, moves, s);
    PreparedIsHouses(k, s.world, a, u);
  }

  /**
   * Ending a round in any reachable state, for an auction not yet settled: the server stops exactly when more bids
   * are revealed than there are winners while another is still unrevealed, as one in flight or failed would be.
   */
  lemma RoundStops(k: Setup, t: int -> Terms, solve: Comm -> Option<(int, int)>, cheat: Comm -> Option<(int, int)>,
                   moves: seq<Move>, s: Server, a: int, n: nat, price: int, winners: set<int>)
    requires Lawful(k) && k.p > 0 && Fair(t) && Reached(k, t, solve, cheat, moves, s) && Allowed(k, s, Close(a, n, price, winners))
    ensures CloseRound(k, t, s.world, a, n, price, winners).Stopped?
       <==> |RevealedIn(s.world, a)| > n && PendingReveals(s.world, a) != map[]
  {
    hide Lawful, Fair, Reached, Exclusive, TasksFaithful, CacheRevealed, Sound, Shadows, ClientsAgree, CloseRound, Proper;
    ReachedSafe(k, t, solve, cheat, moves, s);
    ClosingStops(k, t, s.world, a, n, price, winners);
  }
}
