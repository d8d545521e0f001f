/** The in-process submit lane: one reference-counted mutex per plan and idempotency key, created and deleted on demand,
    and its client between `Existing` and `Submit`. */
module RunLane {
  import opened Text

  /** What the guard mutex protects: the key table and the user count of every lock ever made. */
  datatype Registry<L> = Registry(table: map<string, L>, users: map<L, int>)

  function UsersOf<L>(r: Registry<L>, lock: L): int {
    if lock in r.users then r.users[lock] else 0
  }

  /** The first critical section: find or insert the lock of `key`, then count one more user. */
  function Joined<L>(r: Registry<L>, key: string, unused: L): Registry<L> {
    var lock := if key in r.table then r.table[key] else unused;
    var count := if key in r.table then UsersOf(r, lock) else 0;
    Registry(r.table[key := lock], r.users[lock := count + 1])
  }

  /** The second critical section: one user less, and the key is deleted with the last one. */
  function Departed<L>(r: Registry<L>, key: string, lock: L): Registry<L> {
    var count := UsersOf(r, lock) - 1;
    Registry(if count == 0 then r.table - {key} else r.table, r.users[lock := count])
  }

  class RunSubmitLock {
    var users: int

    constructor ()
      ensures users == 0
    {
      users := 0;
    }
  }

  class Application {
    var runSubmits: map<string, RunSubmitLock>
    ghost var locks: set<RunSubmitLock>

    ghost predicate Valid()
      reads this
    {
      forall key :: key in runSubmits ==> runSubmits[key] in locks
    }

    ghost function View(): Registry<RunSubmitLock>
      reads this, locks
    {
      Registry(runSubmits, map lock | lock in locks :: lock.users)
    }

    constructor ()
      ensures Valid() && View() == Registry(map[], map[])
    {
      runSubmits := map[];
      locks := {};
    }

    method JoinLane(key: string) returns (lock: RunSubmitLock)
      requires Valid()
      modifies this, locks
      ensures Valid()
      ensures old(key in runSubmits) ==> lock == old(runSubmits[key])
      ensures old(key !in runSubmits) ==> fresh(lock)
      ensures View() == Joined(old(View()), key, lock)
      ensures locks == old(locks) + {lock}
    {
      if key in runSubmits {
        lock := runSubmits[key];
      } else {
        lock := new RunSubmitLock();
        runSubmits := runSubmits[key := lock];
        locks := locks + {lock};
      }
      lock.users := lock.users + 1;
      assert View().table == Joined(old(View()), key, lock).table;
      assert View().users == Joined(old(View()), key, lock).users;
    }

    method DepartLane(key: string, lock: RunSubmitLock)
      requires Valid() && lock in locks
      modifies this, locks
      ensures Valid() && locks == old(locks)
      ensures View() == Departed(old(View()), key, lock)
    {
      lock.users := lock.users - 1;
      if lock.users == 0 {
        runSubmits := runSubmits - {key};
      }
      assert View().users == Departed(old(View()), key, lock).users;
    }
  }

  // ----- the protocol: any number of threads, any interleaving

  /** The text `submitExactPlan` locks. */
  function LaneKey(plan: string, idempotency: string): string {
    plan + [NUL] + idempotency
  }

  /** Plan ids pass the path-token pattern, so the lane text names one plan and one key. */
  lemma LaneKeyNamesOneSubmission(plan: string, idem: string, plan': string, idem': string)
    requires PathToken(plan) && PathToken(plan')
    requires LaneKey(plan, idem) == LaneKey(plan', idem')
    ensures plan == plan' && idem == idem'
  {
    PathTokenHasNoNul(plan);
    PathTokenHasNoNul(plan');
    FirstNulSplits(plan, plan', idem, idem');
  }

  datatype RunId = RunId(plan: string, idempotency: string)

  datatype RunStatus = Queued | Settled

  /** What a lane holder knows: nothing yet, what `Existing` answered, or that `Submit` returned. */
  datatype Lookup = Unread | Missing | FoundQueued | FoundSettled | Submitted

  datatype Stage = Waiting | Holding(lookup: Lookup) | Leaving

  /** `asked` is the status the run had when this client asked for it, None for no run. */
  datatype Client = Client(run: RunId, key: string, lock: nat, stage: Stage, asked: Option<RunStatus>)

  /** A Submit call: the answer it rests on, the status the run had when it was asked for, and whether the call created
      the durable run. */
  datatype Submission = Submission(run: RunId, saw: Lookup, asked: Option<RunStatus>, created: bool)

  datatype State = State(
    registry: Registry<nat>,
    owner: map<nat, nat>,          // lock -> thread inside its mutex
    unused: nat,                   // every lock made so far is smaller
    clients: map<nat, Client>,     // the threads inside submitExactPlan
    runs: map<RunId, RunStatus>,   // the durable runs
    submits: seq<Submission>)      // every Submit call so far

  const Start := State(Registry(map[], map[]), map[], 0, map[], map[], [])

  datatype Action =
    | Enter(thread: nat, run: RunId)   // guard; find or insert; users++; guard released
    | Acquire(thread: nat)             // lock.mutex.Lock returns
    | Existing(thread: nat)
    | Submit(thread: nat, durable: bool) // whether it gets as far as Create, and Create commits
    | Unlock(thread: nat)              // any return: the deferred closure releases the mutex
    | Exit(thread: nat)                // guard; users--; maybe delete; guard released
    | Progress(run: RunId)             // an executor settles a durable run

  predicate Enabled(s: State, a: Action) {
    match a
    case Enter(t, run) => t !in s.clients && PathToken(run.plan)
    case Acquire(t) => t in s.clients && s.clients[t].stage.Waiting? && s.clients[t].lock !in s.owner
    case Existing(t) => t in s.clients && s.clients[t].stage == Holding(Unread)
    case Submit(t, _) =>
      t in s.clients && (s.clients[t].stage == Holding(Missing) || s.clients[t].stage == Holding(FoundQueued))
    case Unlock(t) => t in s.clients && s.clients[t].stage.Holding?
    case Exit(t) => t in s.clients && s.clients[t].stage.Leaving?
    case Progress(run) => run in s.runs
  }

  function Answer(runs: map<RunId, RunStatus>, run: RunId): Lookup {
    if run !in runs then Missing else if runs[run].Queued? then FoundQueued else FoundSettled
  }

  function WithStage(clients: map<nat, Client>, t: nat, stage: Stage): map<nat, Client>
    requires t in clients
  {
    clients[t := clients[t].(stage := stage)]
  }

  function Told(s: State, t: nat): map<nat, Client>
    requires t in s.clients
  {
    var c := s.clients[t];
    s.clients[t := c.(stage := Holding(Answer(s.runs, c.run)),
                      asked := if c.run in s.runs then Some(s.runs[c.run]) else None)]
  }

  function Entered(s: State, t: nat, run: RunId): State {
    var key := LaneKey(run.plan, run.idempotency);
    var registry := Joined(s.registry, key, s.unused);
    s.(registry := registry, unused := s.unused + 1,
       clients := s.clients[t := Client(run, key, registry.table[key], Waiting, None)])
  }

  function Exited(s: State, t: nat): State
    requires t in s.clients
  {
    s.(registry := Departed(s.registry, s.clients[t].key, s.clients[t].lock), clients := s.clients - {t})
  }

  /** Submit returns: a refused plan, admission or write leaves no run; otherwise the run exists afterwards. */
  function Submitting(s: State, t: nat, durable: bool): State
    requires t in s.clients && s.clients[t].stage.Holding?
  {
    var c := s.clients[t];
    var created := durable && c.run !in s.runs;
    s.(clients := WithStage(s.clients, t, Holding(Submitted)),
       runs := if created then s.runs[c.run := Queued] else s.runs,
       submits := s.submits + [Submission(c.run, c.stage.lookup, c.asked, created)])
  }

  /** One step; an action that is not enabled changes nothing. */
  function Step(s: State, a: Action): State {
    if !Enabled(s, a) then s else
    match a
    case Enter(t, run) => Entered(s, t, run)
    case Acquire(t) => s.(owner := s.owner[s.clients[t].lock := t], clients := WithStage(s.clients, t, Holding(Unread)))
    case Existing(t) => s.(clients := Told(s, t))
    case Submit(t, durable) => Submitting(s, t, durable)
    case Unlock(t) => s.(owner := s.owner - {s.clients[t].lock}, clients := WithStage(s.clients, t, Leaving))
    case Exit(t) => Exited(s, t)
    case Progress(run) => s.(runs := s.runs[run := Settled])
  }

  /** The state after any finite interleaving. */
  function Exec(actions: seq<Action>): State {
    if actions == [] then Start else Step(Exec(actions[..|actions| - 1]), actions[|actions| - 1])
  }

  function Active(clients: map<nat, Client>, key: string): set<nat> {
    set t | t in clients && clients[t].key == key
  }

  /** The table holds exactly the keys with active threads, and each lock counts exactly its threads. */
  ghost predicate TableExact(r: Registry<nat>, clients: map<nat, Client>) {
    forall key :: KeyExact(r, clients, key)
  }

  ghost predicate KeyExact(r: Registry<nat>, clients: map<nat, Client>, key: string) {
    && (key in r.table <==> Active(clients, key) != {})
    && (key in r.table ==> UsersOf(r, r.table[key]) == |Active(clients, key)|)
  }

  /** Every thread active on a key refers to the one lock in the table. */
  ghost predicate LocksShared(r: Registry<nat>, clients: map<nat, Client>) {
    forall t :: t in clients ==> clients[t].key in r.table && clients[t].lock == r.table[clients[t].key]
  }

  /** Different keys never share a lock, and no lock is handed out twice. */
  ghost predicate LocksDistinct(r: Registry<nat>, unused: nat) {
    && (forall key :: key in r.table ==> r.table[key] < unused)
    && (forall key, key' :: key in r.table && key' in r.table && r.table[key] == r.table[key'] ==> key == key')
  }

  /** The mutex of a lock is held exactly by the thread that is inside it. */
  ghost predicate OwnerExact(owner: map<nat, nat>, clients: map<nat, Client>) {
    && (forall lock :: lock in owner ==>
          owner[lock] in clients && clients[owner[lock]].lock == lock && clients[owner[lock]].stage.Holding?)
    && (forall t :: t in clients && clients[t].stage.Holding? ==>
          clients[t].lock in owner && owner[clients[t].lock] == t)
  }

  ghost predicate KeysExact(clients: map<nat, Client>) {
    forall t :: t in clients ==> KeyIsToken(clients[t])
  }

  predicate KeyIsToken(c: Client) {
    PathToken(c.run.plan) && c.key == LaneKey(c.run.plan, c.run.idempotency)
  }

  ghost predicate LaneInv(s: State) {
    && TableExact(s.registry, s.clients)
    && LocksShared(s.registry, s.clients)
    && LocksDistinct(s.registry, s.unused)
    && OwnerExact(s.owner, s.clients)
    && KeysExact(s.clients)
  }

  predicate Creates(submits: seq<Submission>, i: int, run: RunId) {
    0 <= i < |submits| && submits[i].run == run && submits[i].created
  }

  /** No Submit among the first n created the run. */
  predicate NoneCreated(submits: seq<Submission>, n: nat, run: RunId) {
    forall i :: 0 <= i < n ==> !Creates(submits, i, run)
  }

  /** What a holder read is still so; the durable runs are those some Submit created; and every Submit rests on the
      answer that the run is missing exactly when no earlier one created it. */
  ghost predicate LookupInv(s: State) {
    && (forall t :: t in s.clients ==> LookupHolds(s.clients[t], s.runs))
    && (forall run :: run in s.runs <==> !NoneCreated(s.submits, |s.submits|, run))
    && SubmitsLogged(s.submits)
  }

  predicate LookupHolds(c: Client, runs: map<RunId, RunStatus>) {
    && (c.stage == Holding(Missing) ==> c.asked.None?)
    && (c.stage == Holding(FoundQueued) ==> c.asked == Some(Queued))
    && (c.stage == Holding(Missing) ==> c.run !in runs)
    && (c.stage == Holding(FoundQueued) || c.stage == Holding(FoundSettled) ==> c.run in runs)
  }

  ghost predicate SubmitsLogged(submits: seq<Submission>) {
    forall j :: 0 <= j < |submits| ==> Logged(submits, j)
  }

  predicate Logged(submits: seq<Submission>, j: int)
    requires 0 <= j < |submits|
  {
    && (submits[j].saw == Missing <==> NoneCreated(submits, j, submits[j].run))
    && (submits[j].created ==> submits[j].saw == Missing)
    && submits[j].asked != Some(Settled) && (submits[j].saw == Missing <==> submits[j].asked.None?)
  }

  // ----- each step keeps the invariant

  lemma EnterCountsItself(r: Registry<nat>, clients: map<nat, Client>, unused: nat, t: nat, c: Client)
    requires KeyExact(r, clients, c.key) && t !in clients
    ensures KeyExact(Joined(r, c.key, unused), clients[t := c], c.key)
  {
    assert Active(clients[t := c], c.key) == Active(clients, c.key) + {t};
  }

  lemma EnterKeepsOtherKey(r: Registry<nat>, clients: map<nat, Client>, unused: nat, t: nat, c: Client, key: string)
    requires KeyExact(r, clients, key) && LocksDistinct(r, unused) && t !in clients && key != c.key
    ensures KeyExact(Joined(r, c.key, unused), clients[t := c], key)
  {
    assert Active(clients[t := c], key) == Active(clients, key);
    var r' := Joined(r, c.key, unused);
    assert key in r.table ==> r'.table[key] == r.table[key] && r.table[key] != r'.table[c.key];
  }

  lemma EnterKeeps(s: State, t: nat, run: RunId)
    requires LaneInv(s) && t !in s.clients && PathToken(run.plan)
    ensures LaneInv(Entered(s, t, run))
  {
    var s' := Entered(s, t, run);
    var c := s'.clients[t];
    forall key ensures KeyExact(s'.registry, s'.clients, key) {
      assert KeyExact(s.registry, s.clients, key);
      if key == c.key {
        EnterCountsItself(s.registry, s.clients, s.unused, t, c);
      } else {
        EnterKeepsOtherKey(s.registry, s.clients, s.unused, t, c, key);
      }
    }
    assert KeyIsToken(c);
    EnterKeepsOwner(s.owner, s.clients, t, c);
    assert LocksDistinct(s'.registry, s'.unused);
  }

  lemma EnterKeepsOwner(owner: map<nat, nat>, clients: map<nat, Client>, t: nat, c: Client)
    requires OwnerExact(owner, clients) && t !in clients && c.stage.Waiting?
    ensures OwnerExact(owner, clients[t := c])
  {
    forall lock | lock in owner
      ensures owner[lock] in clients && owner[lock] != t
    {
    }
  }

  lemma ExitUncountsItself(r: Registry<nat>, clients: map<nat, Client>, t: nat)
    requires t in clients && KeyExact(r, clients, clients[t].key)
    requires clients[t].key in r.table && clients[t].lock == r.table[clients[t].key]
    ensures KeyExact(Departed(r, clients[t].key, clients[t].lock), clients - {t}, clients[t].key)
  {
    var key := clients[t].key;
    assert t in Active(clients, key);
    assert Active(clients - {t}, key) == Active(clients, key) - {t};
    assert |Active(clients - {t}, key)| == |Active(clients, key)| - 1;
  }

  lemma ExitKeepsOtherKey(r: Registry<nat>, clients: map<nat, Client>, unused: nat, t: nat, key: string)
    requires t in clients && KeyExact(r, clients, key) && LocksDistinct(r, unused) && key != clients[t].key
    requires clients[t].key in r.table && clients[t].lock == r.table[clients[t].key]
    ensures KeyExact(Departed(r, clients[t].key, clients[t].lock), clients - {t}, key)
  {
    assert Active(clients - {t}, key) == Active(clients, key);
    assert key in r.table ==> r.table[key] != clients[t].lock;
  }

  lemma ExitKeeps(s: State, t: nat)
    requires LaneInv(s) && t in s.clients && s.clients[t].stage.Leaving?
    ensures LaneInv(Exited(s, t))
  {
    var s' := Exited(s, t);
    forall key ensures KeyExact(s'.registry, s'.clients, key) {
      assert KeyExact(s.registry, s.clients, key);
      if key == s.clients[t].key {
        ExitUncountsItself(s.registry, s.clients, t);
      } else {
        ExitKeepsOtherKey(s.registry, s.clients, s.unused, t, key);
      }
    }
    forall u | u in s'.clients
      ensures s'.clients[u].key in s'.registry.table && s'.clients[u].lock == s'.registry.table[s'.clients[u].key]
    {
      assert u in Active(s'.clients, s'.clients[u].key);
      assert KeyExact(s'.registry, s'.clients, s'.clients[u].key);
    }
    ExitKeepsOwner(s.owner, s.clients, t);
  }

  lemma ExitKeepsOwner(owner: map<nat, nat>, clients: map<nat, Client>, t: nat)
    requires OwnerExact(owner, clients) && t in clients && clients[t].stage.Leaving?
    ensures OwnerExact(owner, clients - {t})
  {
    forall lock | lock in owner
      ensures owner[lock] in clients - {t}
    {
      assert clients[owner[lock]].stage.Holding?;
    }
  }

  /** A step that only moves one thread along leaves every key's set of threads as it was. */
  lemma StageKeepsTable(s: State, t: nat, stage: Stage)
    requires LaneInv(s) && t in s.clients
    ensures var clients' := WithStage(s.clients, t, stage);
            TableExact(s.registry, clients') && LocksShared(s.registry, clients') && KeysExact(clients')
  {
    var clients' := WithStage(s.clients, t, stage);
    forall key ensures KeyExact(s.registry, clients', key) {
      assert KeyExact(s.registry, s.clients, key);
      assert Active(clients', key) == Active(s.clients, key);
    }
    assert KeyIsToken(s.clients[t]);
    assert KeyIsToken(clients'[t]);
  }

  lemma AcquireKeepsOwner(owner: map<nat, nat>, clients: map<nat, Client>, t: nat)
    requires OwnerExact(owner, clients) && t in clients && clients[t].stage.Waiting? && clients[t].lock !in owner
    ensures OwnerExact(owner[clients[t].lock := t], WithStage(clients, t, Holding(Unread)))
  {
  }

  lemma UnlockKeepsOwner(owner: map<nat, nat>, clients: map<nat, Client>, t: nat)
    requires OwnerExact(owner, clients) && t in clients && clients[t].stage.Holding?
    ensures OwnerExact(owner - {clients[t].lock}, WithStage(clients, t, Leaving))
  {
  }

  lemma HoldKeepsOwner(owner: map<nat, nat>, clients: map<nat, Client>, t: nat, lookup: Lookup)
    requires OwnerExact(owner, clients) && t in clients && clients[t].stage.Holding?
    ensures OwnerExact(owner, WithStage(clients, t, Holding(lookup)))
  {
  }

  lemma ToldKeeps(s: State, t: nat)
    requires LaneInv(s) && t in s.clients && s.clients[t].stage.Holding?
    ensures LaneInv(s.(clients := Told(s, t)))
  {
    var stage := Holding(Answer(s.runs, s.clients[t].run));
    StageKeepsTable(s, t, stage);
    HoldKeepsOwner(s.owner, s.clients, t, stage.lookup);
    var told, staged := Told(s, t), WithStage(s.clients, t, stage);
    forall key ensures KeyExact(s.registry, told, key) {
      assert KeyExact(s.registry, staged, key);
      assert Active(told, key) == Active(staged, key);
    }
    assert KeyIsToken(staged[t]);
  }

  lemma StepKeepsLane(s: State, a: Action)
    requires LaneInv(s)
    ensures LaneInv(Step(s, a))
  {
    if Enabled(s, a) {
      match a
      case Enter(t, run) => EnterKeeps(s, t, run);
      case Acquire(t) => StageKeepsTable(s, t, Holding(Unread)); AcquireKeepsOwner(s.owner, s.clients, t);
      case Existing(t) =>
        ToldKeeps(s, t);
      case Submit(t, _) => StageKeepsTable(s, t, Holding(Submitted)); HoldKeepsOwner(s.owner, s.clients, t, Submitted);
      case Unlock(t) => StageKeepsTable(s, t, Leaving); UnlockKeepsOwner(s.owner, s.clients, t);
      case Exit(t) => ExitKeeps(s, t);
      case Progress(run) =>
    }
  }

  /** One holder per run: same run, same lane text, same lock, one owner. */
  lemma OneHolder(s: State, t: nat, u: nat)
    requires LaneInv(s)
    requires t in s.clients && u in s.clients && s.clients[t].stage.Holding? && s.clients[u].stage.Holding?
    requires s.clients[t].run == s.clients[u].run
    ensures t == u
  {
    assert KeyIsToken(s.clients[t]) && KeyIsToken(s.clients[u]);
    assert s.clients[t].lock == s.clients[u].lock;
  }

  lemma LogGrows(submits: seq<Submission>, last: Submission, run: RunId)
    ensures var more := submits + [last];
      && NoneCreated(more, |submits|, run) == NoneCreated(submits, |submits|, run)
      && NoneCreated(more, |more|, run) == (NoneCreated(submits, |submits|, run) && !(last.run == run && last.created))
  {
    var more := submits + [last];
    assert forall i :: 0 <= i < |submits| ==> Creates(more, i, run) == Creates(submits, i, run);
    assert Creates(more, |submits|, run) == (last.run == run && last.created);
  }

  lemma LoggedStays(submits: seq<Submission>, last: Submission)
    requires SubmitsLogged(submits)
    requires last.saw == Missing <==> NoneCreated(submits, |submits|, last.run)
    requires last.created ==> last.saw == Missing
    requires last.asked != Some(Settled) && (last.saw == Missing <==> last.asked.None?)
    ensures SubmitsLogged(submits + [last])
  {
    var more := submits + [last];
    LogGrows(submits, last, last.run);
    forall j | 0 <= j < |more| ensures Logged(more, j) {
      if j < |submits| {
        assert Logged(submits, j);
        assert forall i :: 0 <= i < j ==> Creates(more, i, more[j].run) == Creates(submits, i, more[j].run);
      }
    }
  }

  lemma SubmitKeepsLookups(s: State, t: nat, durable: bool)
    requires LaneInv(s) && LookupInv(s) && Enabled(s, Submit(t, durable))
    ensures LookupInv(Submitting(s, t, durable))
  {
    var s' := Submitting(s, t, durable);
    var c, last := s.clients[t], s'.submits[|s.submits|];
    assert LookupHolds(c, s.runs);
    forall u | u in s'.clients ensures LookupHolds(s'.clients[u], s'.runs) {
      assert LookupHolds(s.clients[u], s.runs);
      if u != t && s.clients[u].stage.Holding? && s.clients[u].run == c.run {
        OneHolder(s, t, u);
      }
    }
    forall run ensures run in s'.runs <==> !NoneCreated(s'.submits, |s'.submits|, run) {
      LogGrows(s.submits, last, run);
    }
    LoggedStays(s.submits, last);
  }

  lemma StepKeepsLookups(s: State, a: Action)
    requires LaneInv(s) && LookupInv(s)
    ensures LookupInv(Step(s, a))
  {
    if a.Submit? && Enabled(s, a) {
      SubmitKeepsLookups(s, a.thread, a.durable);
    } else {
      var s' := Step(s, a);
      forall t | t in s'.clients ensures LookupHolds(s'.clients[t], s'.runs) {
        if t in s.clients {
          assert LookupHolds(s.clients[t], s.runs);
        }
      }
    }
  }

  // ----- over every run

  lemma {:induction false} LaneInvariant(actions: seq<Action>)
    ensures LaneInv(Exec(actions)) && LookupInv(Exec(actions))
  {
    if actions != [] {
      var before := actions[..|actions| - 1];
      LaneInvariant(before);
      StepKeepsLane(Exec(before), actions[|actions| - 1]);
      StepKeepsLookups(Exec(before), actions[|actions| - 1]);
    }
  }

  /** In every interleaving the threads on one plan and key share one lock, which counts exactly them, and at most one
      of them is between `Existing` and the return of `Submit`. */
  lemma LaneIsExclusive(actions: seq<Action>, t: nat, u: nat)
    requires var s := Exec(actions);
             t in s.clients && u in s.clients && s.clients[t].run == s.clients[u].run
    ensures var s := Exec(actions);
            && s.clients[t].lock == s.clients[u].lock
            && UsersOf(s.registry, s.clients[t].lock) == |Active(s.clients, s.clients[t].key)|
            && (s.clients[t].stage.Holding? && s.clients[u].stage.Holding? ==> t == u)
  {
    LaneInvariant(actions);
    var s := Exec(actions);
    assert KeyIsToken(s.clients[t]) && KeyIsToken(s.clients[u]);
    assert KeyExact(s.registry, s.clients, s.clients[t].key);
    if s.clients[t].stage.Holding? && s.clients[u].stage.Holding? {
      OneHolder(s, t, u);
    }
  }

  /** Different submissions never wait for each other: one lock, one plan and key. */
  lemma LanesAreSeparate(actions: seq<Action>, t: nat, u: nat)
    requires var s := Exec(actions);
             t in s.clients && u in s.clients && s.clients[t].lock == s.clients[u].lock
    ensures Exec(actions).clients[t].run == Exec(actions).clients[u].run
  {
    LaneInvariant(actions);
    var c, d := Exec(actions).clients[t], Exec(actions).clients[u];
    assert KeyIsToken(c) && KeyIsToken(d);
    LaneKeyNamesOneSubmission(c.run.plan, c.run.idempotency, d.run.plan, d.run.idempotency);
  }

  /** The table holds exactly the keys with active threads; it is empty when every thread has left. */
  lemma LaneTableIsExact(actions: seq<Action>, key: string)
    ensures key in Exec(actions).registry.table
       <==> exists t :: t in Exec(actions).clients && Exec(actions).clients[t].key == key
  {
    LaneInvariant(actions);
    var s := Exec(actions);
    assert KeyExact(s.registry, s.clients, key);
    assert forall t :: t in Active(s.clients, key) <==> t in s.clients && s.clients[t].key == key;
    if key in s.registry.table {
      var t :| t in Active(s.clients, key);
    }
  }

  /** No stall: while a key has active threads, one of them can take its next step. */
  lemma LaneNeverStalls(actions: seq<Action>, t: nat)
    requires t in Exec(actions).clients
    ensures exists u :: && u in Exec(actions).clients
                        && Exec(actions).clients[u].run == Exec(actions).clients[t].run
                        && (Enabled(Exec(actions), Acquire(u)) || Enabled(Exec(actions), Unlock(u)) ||
                            Enabled(Exec(actions), Exit(u)))
  {
    LaneInvariant(actions);
    var s := Exec(actions);
    if s.clients[t].stage.Waiting? && s.clients[t].lock in s.owner {
      var u := s.owner[s.clients[t].lock];
      LanesAreSeparate(actions, t, u);
      assert Enabled(s, Unlock(u));
    } else {
      assert Enabled(s, Acquire(t)) || Enabled(s, Unlock(t)) || Enabled(s, Exit(t));
    }
  }

  /** In every interleaving, a Submit rests on the answer that the run does not exist exactly when no earlier Submit of
      the run created it. So of two that do, the earlier left no run behind. */
  lemma MissingMeansNotCreated(actions: seq<Action>, j: nat)
    requires j < |Exec(actions).submits|
    ensures var submits := Exec(actions).submits;
      submits[j].saw == Missing <==> forall i :: 0 <= i < j && submits[i].run == submits[j].run ==> !submits[i].created
  {
    LaneInvariant(actions);
    var submits := Exec(actions).submits;
    assert Logged(submits, j);
    assert forall i :: 0 <= i < j ==>
      Creates(submits, i, submits[j].run) == (submits[i].run == submits[j].run && submits[i].created);
  }

  /** At most one Submit of a run acts on the answer that it does not exist with effect; it is the only one that creates
      the run, and no later one gets that answer. */
  lemma MissingIsActedOnOnce(actions: seq<Action>, i: nat, j: nat)
    requires i < |Exec(actions).submits| && j < |Exec(actions).submits| && i != j
    requires Exec(actions).submits[i].run == Exec(actions).submits[j].run && Exec(actions).submits[i].created
    ensures var submits := Exec(actions).submits;
      submits[i].saw == Missing && !submits[j].created && (i < j ==> submits[j].saw != Missing)
  {
    LaneInvariant(actions);
    var submits := Exec(actions).submits;
    assert Logged(submits, i) && Logged(submits, j);
    assert Creates(submits, i, submits[j].run);
    if submits[j].created {
      assert Creates(submits, j, submits[i].run);
    }
  }

  /** No Submit ever rests on a settled run: when it was asked for, the run did not exist or was still queued, and it
      was found missing exactly in the first case. */
  lemma SubmitsAreOfOpenRuns(actions: seq<Action>, j: nat)
    requires j < |Exec(actions).submits|
    ensures var submit := Exec(actions).submits[j];
      submit.asked != Some(Settled) && (submit.saw == Missing <==> submit.asked.None?)
  {
    LaneInvariant(actions);
    assert Logged(Exec(actions).submits, j);
  }

  /** A holder that asks for a run may submit it exactly when the run does not exist or is queued at that moment. */
  lemma SettledRunsAreNotSubmitted(s: State, t: nat, durable: bool)
    requires Enabled(s, Existing(t))
    ensures Enabled(Step(s, Existing(t)), Submit(t, durable)) <==>
      s.clients[t].run !in s.runs || s.runs[s.clients[t].run] == Queued
    ensures s.clients[t].run in s.runs ==>
      Step(s, Existing(t)).clients[t].asked == Some(s.runs[s.clients[t].run])
  {
  }

  /** A run is durable exactly when one Submit created it. */
  lemma RunsComeFromOneSubmit(actions: seq<Action>, run: RunId)
    ensures var s := Exec(actions);
      run in s.runs <==> exists i :: 0 <= i < |s.submits| && s.submits[i].run == run && s.submits[i].created
  {
    LaneInvariant(actions);
    var s := Exec(actions);
    assert forall i :: 0 <= i < |s.submits| ==>
      Creates(s.submits, i, run) == (s.submits[i].run == run && s.submits[i].created);
  }

  // ----- a refused Submit is retried

  /** One thread goes through the lane alone. */
  function Visited(s: State, t: nat, run: RunId, durable: bool): State {
    Step(Step(Holder(s, t, run, durable), Unlock(t)), Exit(t))
  }

  function Holder(s: State, t: nat, run: RunId, durable: bool): State {
    Step(Step(Step(Step(s, Enter(t, run)), Acquire(t)), Existing(t)), Submit(t, durable))
  }

  lemma HolderSubmits(s: State, t: nat, run: RunId, durable: bool)
    requires s.clients == map[] && s.owner == map[] && run !in s.runs && PathToken(run.plan)
    ensures var next := Holder(s, t, run, durable);
      && next.submits == s.submits + [Submission(run, Missing, None, durable)]
      && next.runs == (if durable then s.runs[run := Queued] else s.runs)
      && next.clients.Keys == {t} && next.clients[t].stage == Holding(Submitted)
      && next.owner == map[next.clients[t].lock := t]
  {
  }

  /** Alone in an empty lane and with no such run, a thread submits on the answer that the run is missing, and leaves
      the lane empty; when its Submit is refused, the run is missing as before. */
  lemma VisitSubmits(s: State, t: nat, run: RunId, durable: bool)
    requires s.clients == map[] && s.owner == map[] && run !in s.runs && PathToken(run.plan)
    ensures var next := Visited(s, t, run, durable);
      && next.submits == s.submits + [Submission(run, Missing, None, durable)]
      && next.runs == (if durable then s.runs[run := Queued] else s.runs)
      && next.clients == map[] && next.owner == map[]
  {
    HolderSubmits(s, t, run, durable);
    var held := Holder(s, t, run, durable);
    assert held.owner - {held.clients[t].lock} == map[];
    var left := Step(held, Unlock(t));
    assert left.clients.Keys == {t};
    assert left.clients - {t} == map[];
  }

  function Visit(t: nat, run: RunId, durable: bool): seq<Action> {
    [Enter(t, run)] + [Acquire(t)] + [Existing(t)] + [Submit(t, durable)] + [Unlock(t)] + [Exit(t)]
  }

  lemma ThenStep(actions: seq<Action>, a: Action)
    ensures Exec(actions + [a]) == Step(Exec(actions), a)
  {
    assert (actions + [a])[..|actions|] == actions;
  }

  lemma ThenVisit(actions: seq<Action>, t: nat, run: RunId, durable: bool)
    ensures Exec(actions + Visit(t, run, durable)) == Visited(Exec(actions), t, run, durable)
  {
    var a := actions + [Enter(t, run)];
    ThenStep(actions, Enter(t, run));
    var b := a + [Acquire(t)];
    ThenStep(a, Acquire(t));
    var c := b + [Existing(t)];
    ThenStep(b, Existing(t));
    var d := c + [Submit(t, durable)];
    ThenStep(c, Submit(t, durable));
    ThenStep(d, Unlock(t));
    ThenStep(d + [Unlock(t)], Exit(t));
    assert actions + Visit(t, run, durable) == d + [Unlock(t)] + [Exit(t)];
  }

  /** So two Submits can see the run missing: here the first is refused, and the second creates the run. */
  lemma RefusedSubmitIsRetried(run: RunId)
    requires PathToken(run.plan)
    ensures Exec(Visit(0, run, false) + Visit(1, run, true)).submits ==
            [Submission(run, Missing, None, false), Submission(run, Missing, None, true)]
  {
    var none: seq<Action> := [];
    assert none + Visit(0, run, false) == Visit(0, run, false);
    ThenVisit(none, 0, run, false);
    VisitSubmits(Start, 0, run, false);
    ThenVisit(Visit(0, run, false), 1, run, true);
    VisitSubmits(Visited(Start, 0, run, false), 1, run, true);
  }
}
