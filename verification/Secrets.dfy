/** Passwords and cached tokens of service accounts, behind two fair read-write locks.

    Tasks take turns: an action lets one task run up to its next suspension point, or hands
    a lock to the first task waiting for it.  A lock has no state of its own beyond its
    queue; who holds it is read off the guards that tasks have. */
module Secrets {
  type Jid = string
  type Password = string

  /** A token remembers the account and the password it was issued for. */
  datatype Token = Token(jid: Jid, issuedFor: Password)

  datatype Mode = Free | Shared | Exclusive
  datatype Lock = Passwords | Tokens
  datatype Wait = NotWaiting | Waiting(lock: Lock, exclusive: bool)

  datatype Account = Account(jid: Jid, password: Password)

  datatype Outcome = Used | Failed | Created | Purged | PasswordPanic | TokenPanic | TokenNotDiscarded

  /** Where a task is.  `...Queued` waits for a lock, `...Held` has just been given it. */
  datatype Task =
    // get_token
    | WantsLook(jid: Jid) | LookQueued(jid: Jid) | LookHeld(jid: Jid)
    | WantsCheck(jid: Jid) | CheckQueued(jid: Jid) | CheckHeld(jid: Jid)
    | WantsPassword(jid: Jid) | PasswordQueued(jid: Jid) | PasswordHeld(jid: Jid)
    | LoggingIn(jid: Jid, password: Password)
    | WantsSave(jid: Jid, token: Token) | SaveQueued(jid: Jid, token: Token) | SaveHeld(jid: Jid, token: Token)
    | Saved(jid: Jid)
    | WantsRead(jid: Jid) | ReadQueued(jid: Jid) | ReadHeld(jid: Jid) | Using(jid: Jid)
    // create_service_accounts
    | WantsBoth(todo: seq<Account>) | BothQueued(todo: seq<Account>) | BothHeld(todo: seq<Account>)
    | TokensQueued(todo: seq<Account>)
    | Batch(todo: seq<Account>)
    | Revoking(account: Account, todo: seq<Account>)
    | Storing(account: Account, todo: seq<Account>)
    | Creating(account: Account, todo: seq<Account>)
    | Welcoming(todo: seq<Account>)
    // one tick of the purge task
    | WantsPurge | PurgeQueued | PurgeHeld
    | Finished(outcome: Outcome)

  function Waits(t: Task): Wait {
    match t
    case LookQueued(_) => Waiting(Tokens, false)
    case CheckQueued(_) => Waiting(Passwords, false)
    case PasswordQueued(_) => Waiting(Passwords, false)
    case SaveQueued(_, _) => Waiting(Tokens, true)
    case ReadQueued(_) => Waiting(Tokens, false)
    case BothQueued(_) => Waiting(Passwords, true)
    case TokensQueued(_) => Waiting(Tokens, true)
    case PurgeQueued => Waiting(Tokens, true)
    case _ => NotWaiting
  }

  function Holds(t: Task, lock: Lock): Mode {
    match lock
    case Passwords =>
      if t.CheckHeld? || t.PasswordHeld? || t.LoggingIn? || t.WantsSave? || t.SaveQueued? || t.SaveHeld?
        || t.Saved? then Shared
      else if t.BothHeld? || t.TokensQueued? || InBatch(t) then Exclusive
      else Free
    case Tokens =>
      if t.LookHeld? || t.ReadHeld? || t.Using? then Shared
      else if t.SaveHeld? || InBatch(t) || t.PurgeHeld? then Exclusive
      else Free
  }

  predicate InBatch(t: Task) { t.Batch? || t.Revoking? || t.Storing? || t.Creating? || t.Welcoming? }

  /** What a task has once it is given the lock it waits for. */
  function Granted(t: Task): Task {
    match t
    case LookQueued(jid) => LookHeld(jid)
    case CheckQueued(jid) => CheckHeld(jid)
    case PasswordQueued(jid) => PasswordHeld(jid)
    case SaveQueued(jid, token) => SaveHeld(jid, token)
    case ReadQueued(jid) => ReadHeld(jid)
    case BothQueued(todo) => BothHeld(todo)
    case TokensQueued(todo) => Batch(todo)
    case PurgeQueued => PurgeHeld
    case _ => t
  }

  /** The protected maps; with a zero time-to-live nothing is cached. */
  datatype Data = Data(passwords: map<Jid, Password>, tokens: map<Jid, Token>, zeroTtl: bool)

  function InsertToken(d: Data, jid: Jid, token: Token): Data {
    if d.zeroTtl then d else d.(tokens := d.tokens[jid := token])
  }

  /** The next turn of a task that is not waiting.  `ok` says whether calls to Prosody
      succeed in it, `expired` which tokens a purge finds expired. */
  function Turn(t: Task, ok: bool, expired: set<Jid>, d: Data): (Task, Data) {
    match t
    case WantsLook(jid) => (LookQueued(jid), d)
    case LookHeld(jid) => if jid in d.tokens then (WantsRead(jid), d) else if ok then (WantsCheck(jid), d)
      else (Finished(Failed), d)
    case WantsCheck(jid) => (CheckQueued(jid), d)
    case CheckHeld(jid) => if jid in d.passwords then (WantsPassword(jid), d) else (Finished(Failed), d)
    case WantsPassword(jid) => (PasswordQueued(jid), d)
    case PasswordHeld(jid) => if jid in d.passwords then (LoggingIn(jid, d.passwords[jid]), d)
      else (Finished(PasswordPanic), d)
    case LoggingIn(jid, password) => if ok then (WantsSave(jid, Token(jid, password)), d) else (Finished(Failed), d)
    case WantsSave(jid, token) => (SaveQueued(jid, token), d)
    case SaveHeld(jid, token) => (Saved(jid), InsertToken(d, jid, token))
    case Saved(jid) => (WantsRead(jid), d)
    case WantsRead(jid) => (ReadQueued(jid), d)
    case ReadHeld(jid) => (if jid in d.tokens then Using(jid) else Finished(TokenPanic), d)
    case Using(_) => (Finished(Used), d)
    case WantsBoth(todo) => (BothQueued(todo), d)
    case BothHeld(todo) => (TokensQueued(todo), d)
    case Batch(todo) =>
      if todo == [] then (Finished(Created), d)
      else if !ok then (Finished(Failed), d)
      else if todo[0].jid in d.tokens then (Revoking(todo[0], todo[1..]), d.(tokens := d.tokens - {todo[0].jid}))
      else (Storing(todo[0], todo[1..]), d)
    case Revoking(account, todo) => if ok then (Storing(account, todo), d) else (Finished(Failed), d)
    case Storing(account, todo) => (Creating(account, todo),
      d.(passwords := d.passwords[account.jid := account.password]))
    case Creating(account, todo) =>
      if !ok then (Finished(Failed), d)
      else (if account.jid in d.tokens then Finished(TokenNotDiscarded) else Welcoming(todo),
            InsertToken(d, account.jid, Token(account.jid, account.password)))
    case Welcoming(todo) => if ok then (Batch(todo), d) else (Finished(Failed), d)
    case WantsPurge => (PurgeQueued, d)
    case PurgeHeld => (Finished(Purged), d.(tokens := d.tokens - expired))
    case _ => (t, d)
  }

  // ---- states and actions ----

  datatype State = State(tasks: seq<Task>, data: Data, queues: map<Lock, seq<nat>>)

  datatype Action = Run(task: nat, ok: bool, expired: set<Jid>) | Grant(lock: Lock)

  predicate Runnable(t: Task) { Waits(t) == NotWaiting && !t.Finished? }

  /** The lock can be given in the wanted mode. */
  predicate Available(tasks: seq<Task>, lock: Lock, exclusive: bool) {
    forall i :: 0 <= i < |tasks| ==>
      Holds(tasks[i], lock) != Exclusive && (exclusive ==> Holds(tasks[i], lock) == Free)
  }

  predicate Enabled(s: State, a: Action) {
    match a
    case Run(i, _, _) => i < |s.tasks| && Runnable(s.tasks[i])
    case Grant(lock) =>
      && lock in s.queues && s.queues[lock] != [] && s.queues[lock][0] < |s.tasks|
      && Available(s.tasks, lock, Waits(s.tasks[s.queues[lock][0]]) == Waiting(lock, true))
  }

  function Enqueued(queues: map<Lock, seq<nat>>, i: nat, wait: Wait): map<Lock, seq<nat>> {
    match wait
    case NotWaiting => queues
    case Waiting(lock, _) => if lock in queues then queues[lock := queues[lock] + [i]] else queues
  }

  function Step(s: State, a: Action): State
    requires Enabled(s, a)
  {
    match a
    case Run(i, ok, expired) =>
      var (t, d) := Turn(s.tasks[i], ok, expired, s.data);
      State(s.tasks[i := t], d, Enqueued(s.queues, i, Waits(t)))
    case Grant(lock) =>
      var i := s.queues[lock][0];
      State(s.tasks[i := Granted(s.tasks[i])], s.data, s.queues[lock := s.queues[lock][1..]])
  }

  // ---- invariant ----

  /** What a task knows about the maps at this point. */
  predicate Knows(t: Task, d: Data) {
    match t
    case WantsPassword(jid) => jid in d.passwords
    case PasswordQueued(jid) => jid in d.passwords
    case PasswordHeld(jid) => jid in d.passwords
    case LoggingIn(jid, password) => jid in d.passwords && d.passwords[jid] == password
    case WantsSave(jid, token) => Current(d, jid, token)
    case SaveQueued(jid, token) => Current(d, jid, token)
    case SaveHeld(jid, token) => Current(d, jid, token)
    case Using(jid) => jid in d.tokens
    case Revoking(account, _) => account.jid !in d.tokens
    case Storing(account, _) => account.jid !in d.tokens
    case Creating(account, _) =>
      account.jid !in d.tokens && account.jid in d.passwords && d.passwords[account.jid] == account.password
    case Finished(outcome) => outcome != PasswordPanic && outcome != TokenNotDiscarded
    case _ => true
  }

  /** The token was issued for the password now stored for the account. */
  predicate Current(d: Data, jid: Jid, token: Token) {
    jid in d.passwords && token == Token(jid, d.passwords[jid])
  }

  predicate TokensCurrent(d: Data) {
    forall jid :: jid in d.tokens ==> Current(d, jid, d.tokens[jid])
  }

  /** Whoever has a lock exclusively is alone with it. */
  ghost predicate Exclusion(tasks: seq<Task>, lock: Lock) {
    forall i, j :: 0 <= i < |tasks| && 0 <= j < |tasks| && i != j && Holds(tasks[i], lock) == Exclusive ==>
      Holds(tasks[j], lock) == Free
  }

  /** A queue holds exactly the tasks that wait for its lock, once each. */
  ghost predicate QueueOk(tasks: seq<Task>, queue: seq<nat>, lock: Lock) {
    && (forall k :: 0 <= k < |queue| ==>
        queue[k] < |tasks| && Waits(tasks[queue[k]]).Waiting? && Waits(tasks[queue[k]]).lock == lock)
    && (forall i :: 0 <= i < |tasks| && Waits(tasks[i]).Waiting? && Waits(tasks[i]).lock == lock ==> i in queue)
    && (forall k, m :: 0 <= k < m < |queue| ==> queue[k] != queue[m])
  }

  ghost predicate LockOk(s: State, lock: Lock) {
    lock in s.queues && QueueOk(s.tasks, s.queues[lock], lock) && Exclusion(s.tasks, lock)
  }

  ghost predicate Inv(s: State) {
    && (forall lock :: LockOk(s, lock))
    && (forall i :: 0 <= i < |s.tasks| ==> Knows(s.tasks[i], s.data))
    && TokensCurrent(s.data)
  }

  // ---- one turn ----

  /** A turn takes no lock by itself, and writes a map only under an exclusive guard; a
      password changes only under both. */
  lemma TurnRespectsLocks(t: Task, ok: bool, expired: set<Jid>, d: Data, lock: Lock)
    requires Runnable(t)
    ensures var (t', d') := Turn(t, ok, expired, d);
      && (Holds(t', lock) == Holds(t, lock) || Holds(t', lock) == Free)
      && (d'.passwords != d.passwords ==> Holds(t, Passwords) == Exclusive && Holds(t, Tokens) == Exclusive)
      && (d'.tokens != d.tokens ==> Holds(t, Tokens) == Exclusive)
      && d.passwords.Keys <= d'.passwords.Keys
  {
    TurnWritesUnderGuards(t, ok, expired, d);
    match lock
    case Passwords => TurnHoldsPasswords(t, ok, expired, d);
    case Tokens => TurnHoldsTokens(t, ok, expired, d);
  }

  lemma TurnHoldsPasswords(t: Task, ok: bool, expired: set<Jid>, d: Data)
    requires Runnable(t)
    ensures var t' := Turn(t, ok, expired, d).0;
      Holds(t', Passwords) == Holds(t, Passwords) || Holds(t', Passwords) == Free
  {
  }

  lemma TurnHoldsTokens(t: Task, ok: bool, expired: set<Jid>, d: Data)
    requires Runnable(t)
    ensures var t' := Turn(t, ok, expired, d).0; Holds(t', Tokens) == Holds(t, Tokens) || Holds(t', Tokens) == Free
  {
  }

  lemma TurnWritesUnderGuards(t: Task, ok: bool, expired: set<Jid>, d: Data)
    ensures var d' := Turn(t, ok, expired, d).1;
      && (d'.passwords != d.passwords ==> InBatch(t))
      && (d'.tokens != d.tokens ==> InBatch(t) || t.SaveHeld? || t.PurgeHeld?)
      && d.passwords.Keys <= d'.passwords.Keys
  {
  }

  lemma TurnKnows(t: Task, ok: bool, expired: set<Jid>, d: Data)
    requires Runnable(t) && Knows(t, d) && TokensCurrent(d)
    ensures var (t', d') := Turn(t, ok, expired, d); Knows(t', d') && TokensCurrent(d')
  {
  }

  /** What another task knows stays true, because of the guards it has. */
  lemma OthersKnow(t: Task, ok: bool, expired: set<Jid>, d: Data, other: Task)
    requires Runnable(t) && Knows(other, d)
    requires forall lock :: Holds(t, lock) == Exclusive ==> Holds(other, lock) == Free
    ensures Knows(other, Turn(t, ok, expired, d).1)
  {
    TurnRespectsLocks(t, ok, expired, d, Passwords);
  }

  // ---- queues ----

  lemma QueueGrows(tasks: seq<Task>, queue: seq<nat>, lock: Lock, i: nat, t: Task)
    requires QueueOk(tasks, queue, lock) && i < |tasks| && Waits(tasks[i]) == NotWaiting
    ensures QueueOk(tasks[i := t], if Waits(t).Waiting? && Waits(t).lock == lock then queue + [i] else queue, lock)
  {
  }

  lemma QueueShrinks(tasks: seq<Task>, queue: seq<nat>, lock: Lock, t: Task)
    requires QueueOk(tasks, queue, lock) && queue != [] && Waits(t) == NotWaiting
    ensures QueueOk(tasks[queue[0] := t], queue[1..], lock)
  {
    var tasks' := tasks[queue[0] := t];
    forall i | 0 <= i < |tasks'| && Waits(tasks'[i]).Waiting? && Waits(tasks'[i]).lock == lock ensures i in queue[1..] {
      var k :| 0 <= k < |queue| && queue[k] == i;
      assert queue[1..][k - 1] == i;
    }
  }

  lemma QueueUnaffected(tasks: seq<Task>, queue: seq<nat>, lock: Lock, i: nat, t: Task)
    requires QueueOk(tasks, queue, lock) && i < |tasks|
    requires (Waits(tasks[i]).Waiting? ==> Waits(tasks[i]).lock != lock) && Waits(t) == NotWaiting
    ensures QueueOk(tasks[i := t], queue, lock)
  {
  }

  lemma ExclusionKept(tasks: seq<Task>, lock: Lock, i: nat, t: Task)
    requires Exclusion(tasks, lock) && i < |tasks|
    requires (Holds(t, lock) == Holds(tasks[i], lock) || Holds(t, lock) == Free)
    ensures Exclusion(tasks[i := t], lock)
  {
  }

  // ---- every step keeps the invariant ----

  lemma RunKeepsInv(s: State, i: nat, ok: bool, expired: set<Jid>)
    requires Inv(s) && Enabled(s, Run(i, ok, expired))
    ensures Inv(Step(s, Run(i, ok, expired)))
  {
    var s' := Step(s, Run(i, ok, expired));
    var (t, d) := Turn(s.tasks[i], ok, expired, s.data);
    forall lock ensures LockOk(s', lock) {
      assert LockOk(s, lock);
      TurnRespectsLocks(s.tasks[i], ok, expired, s.data, lock);
      QueueGrows(s.tasks, s.queues[lock], lock, i, t);
      ExclusionKept(s.tasks, lock, i, t);
    }
    TurnKnows(s.tasks[i], ok, expired, s.data);
    forall j | 0 <= j < |s'.tasks| ensures Knows(s'.tasks[j], d) {
      if j != i {
        assert LockOk(s, Passwords) && LockOk(s, Tokens);
        OthersKnow(s.tasks[i], ok, expired, s.data, s.tasks[j]);
      }
    }
  }

  lemma GrantedHolds(t: Task, lock: Lock)
    requires Waits(t).Waiting?
    ensures Waits(Granted(t)) == NotWaiting && !Granted(t).Finished?
    ensures Holds(Granted(t), lock) == if lock == Waits(t).lock then (if Waits(t).exclusive then Exclusive else Shared)
      else Holds(t, lock)
  {
  }

  lemma GrantKnows(t: Task, d: Data)
    requires Knows(t, d)
    ensures Knows(Granted(t), d)
  {
  }

  lemma GrantKeepsInv(s: State, lock: Lock)
    requires Inv(s) && Enabled(s, Grant(lock))
    ensures Inv(Step(s, Grant(lock)))
  {
    var s' := Step(s, Grant(lock));
    assert LockOk(s, lock);
    var i := s.queues[lock][0];
    var t := s.tasks[i];
    forall l ensures LockOk(s', l) {
      assert LockOk(s, l);
      GrantedHolds(t, l);
      if l == lock {
        QueueShrinks(s.tasks, s.queues[l], l, Granted(t));
      } else {
        QueueUnaffected(s.tasks, s.queues[l], l, i, Granted(t));
        ExclusionKept(s.tasks, l, i, Granted(t));
      }
    }
    GrantKnows(t, s.data);
  }

  // ---- whole runs ----

  /** Nobody has begun, nothing is cached. */
  predicate Initial(s: State) {
    && (forall i :: 0 <= i < |s.tasks| ==> s.tasks[i].WantsLook? || s.tasks[i].WantsBoth? || s.tasks[i].WantsPurge?)
    && s.data.tokens == map[] && s.queues == map[Passwords := [], Tokens := []]
  }

  /** `s'` is reached from `s` by these actions. */
  ghost predicate Reaches(s: State, actions: seq<Action>, s': State)
    decreases |actions|
  {
    if actions == [] then s == s'
    else Enabled(s, actions[0]) && Reaches(Step(s, actions[0]), actions[1..], s')
  }

  lemma StepKeepsInv(s: State, a: Action)
    requires Inv(s) && Enabled(s, a)
    ensures Inv(Step(s, a))
  {
    match a
    case Run(i, ok, expired) => RunKeepsInv(s, i, ok, expired);
    case Grant(lock) => GrantKeepsInv(s, lock);
  }

  lemma {:induction false} RunsKeepInv(s: State, actions: seq<Action>, s': State)
    requires Inv(s) && Reaches(s, actions, s')
    ensures Inv(s')
    decreases |actions|
  {
    if actions != [] {
      StepKeepsInv(s, actions[0]);
      RunsKeepInv(Step(s, actions[0]), actions[1..], s');
    }
  }

  lemma InitialIsInv(s: State)
    requires Initial(s)
    ensures Inv(s)
  {
    forall lock ensures LockOk(s, lock) {
      match lock case Passwords => case Tokens =>
    }
  }

  /** In every interleaving, every cached token was issued for the password now stored for
      its account, a token in use is still cached, and neither reading a password that was
      just found nor the discarding of old tokens ever goes wrong. */
  lemma TokensStayCurrent(s: State, actions: seq<Action>, s': State)
    requires Initial(s) && Reaches(s, actions, s')
    ensures forall jid :: jid in s'.data.tokens ==>
      jid in s'.data.passwords && s'.data.tokens[jid] == Token(jid, s'.data.passwords[jid])
    ensures forall i :: 0 <= i < |s'.tasks| && s'.tasks[i].Using? ==> s'.tasks[i].jid in s'.data.tokens
    ensures forall i :: 0 <= i < |s'.tasks| ==>
      s'.tasks[i] != Finished(PasswordPanic) && s'.tasks[i] != Finished(TokenNotDiscarded)
  {
    InitialIsInv(s);
    RunsKeepInv(s, actions, s');
    forall i | 0 <= i < |s'.tasks|
      ensures s'.tasks[i].Using? ==> s'.tasks[i].jid in s'.data.tokens
      ensures s'.tasks[i] != Finished(PasswordPanic) && s'.tasks[i] != Finished(TokenNotDiscarded)
    {
      KnowsSays(s'.tasks[i], s'.data);
    }
  }

  lemma KnowsSays(t: Task, d: Data)
    requires Knows(t, d)
    ensures t.Using? ==> t.jid in d.tokens
    ensures t != Finished(PasswordPanic) && t != Finished(TokenNotDiscarded)
  {
  }

  // ---- what a batch stores ----

  /** The password of the account and, unless nothing is cached, a token for it. */
  predicate Stored(d: Data, a: Account) {
    && a.jid in d.passwords && d.passwords[a.jid] == a.password
    && (!d.zeroTtl ==> a.jid in d.tokens && d.tokens[a.jid] == Token(a.jid, a.password))
  }

  /** No later account of the batch has the same name. */
  ghost predicate LastOfName(todo: seq<Account>, i: nat) {
    i < |todo| && forall j :: i < j < |todo| ==> todo[j].jid != todo[i].jid
  }

  /** The first `n` accounts are stored, as far as no later one replaces them. */
  ghost predicate Done(todo: seq<Account>, n: nat, d: Data) {
    forall i :: 0 <= i < n && LastOfName(todo, i) ==> Stored(d, todo[i])
  }

  /** How far a batch that began with `todo` has come. */
  ghost predicate OnItsWay(todo: seq<Account>, t: Task, d: Data) {
    match t
    case WantsBoth(rest) => rest == todo
    case BothQueued(rest) => rest == todo
    case BothHeld(rest) => rest == todo
    case TokensQueued(rest) => rest == todo
    case Batch(rest) => |rest| <= |todo| && rest == todo[|todo| - |rest|..] && Done(todo, |todo| - |rest|, d)
    case Revoking(account, rest) => AtAccount(todo, account, rest, d)
    case Storing(account, rest) => AtAccount(todo, account, rest, d)
    case Creating(account, rest) =>
      AtAccount(todo, account, rest, d) && account.jid in d.passwords && d.passwords[account.jid] == account.password
    case Welcoming(rest) => |rest| <= |todo| && rest == todo[|todo| - |rest|..] && Done(todo, |todo| - |rest|, d)
    case Finished(_) => true
    case _ => false
  }

  ghost predicate AtAccount(todo: seq<Account>, account: Account, rest: seq<Account>, d: Data) {
    |rest| < |todo| && [account] + rest == todo[|todo| - |rest| - 1..] && Done(todo, |todo| - |rest| - 1, d)
  }

  /** A change for one account leaves the others done before it as they were. */
  lemma DoneElsewhere(todo: seq<Account>, n: nat, d: Data, d': Data)
    requires n < |todo| && Done(todo, n, d) && d'.zeroTtl == d.zeroTtl
    requires forall jid :: jid != todo[n].jid && jid in d.passwords ==>
      jid in d'.passwords && d'.passwords[jid] == d.passwords[jid]
    requires forall jid :: jid != todo[n].jid && jid in d.tokens ==> jid in d'.tokens && d'.tokens[jid] == d.tokens[jid]
    ensures Done(todo, n, d')
  {
    forall i | 0 <= i < n && LastOfName(todo, i) ensures Stored(d', todo[i]) {
      assert Stored(d, todo[i]) && todo[n].jid != todo[i].jid;
    }
  }

  lemma DoneOneMore(todo: seq<Account>, n: nat, d: Data)
    requires n < |todo| && Done(todo, n, d) && Stored(d, todo[n])
    ensures Done(todo, n + 1, d)
  {
  }

  lemma RestOf(todo: seq<Account>, account: Account, rest: seq<Account>)
    requires |rest| < |todo| && [account] + rest == todo[|todo| - |rest| - 1..]
    ensures todo[|todo| - |rest| - 1] == account && rest == todo[|todo| - |rest|..]
  {
    assert rest == ([account] + rest)[1..] && account == ([account] + rest)[0];
    assert todo[|todo| - |rest| - 1..][1..] == todo[|todo| - |rest|..];
  }

  lemma BatchOnItsWay(todo: seq<Account>, rest: seq<Account>, ok: bool, expired: set<Jid>, d: Data)
    requires OnItsWay(todo, Batch(rest), d)
    ensures var (t', d') := Turn(Batch(rest), ok, expired, d);
      OnItsWay(todo, t', d') && (t' == Finished(Created) ==> Done(todo, |todo|, d'))
  {
    if rest != [] && ok {
      var n := |todo| - |rest|;
      assert [rest[0]] + rest[1..] == rest && todo[n] == rest[0];
      DoneElsewhere(todo, n, d, Turn(Batch(rest), ok, expired, d).1);
    }
  }

  lemma StoringOnItsWay(todo: seq<Account>, account: Account, rest: seq<Account>, ok: bool, expired: set<Jid>, d: Data)
    requires OnItsWay(todo, Storing(account, rest), d)
    ensures var (t', d') := Turn(Storing(account, rest), ok, expired, d); OnItsWay(todo, t', d') && !t'.Finished?
  {
    RestOf(todo, account, rest);
    DoneElsewhere(todo, |todo| - |rest| - 1, d, Turn(Storing(account, rest), ok, expired, d).1);
  }

  lemma CreatingOnItsWay(todo: seq<Account>, account: Account, rest: seq<Account>, ok: bool, expired: set<Jid>, d: Data)
    requires OnItsWay(todo, Creating(account, rest), d) && Knows(Creating(account, rest), d)
    ensures var (t', d') := Turn(Creating(account, rest), ok, expired, d);
      OnItsWay(todo, t', d') && t' == if ok then Welcoming(rest) else Finished(Failed)
  {
    RestOf(todo, account, rest);
    if ok {
      var d' := Turn(Creating(account, rest), ok, expired, d).1;
      DoneElsewhere(todo, |todo| - |rest| - 1, d, d');
      DoneOneMore(todo, |todo| - |rest| - 1, d');
    }
  }

  /** A turn brings its own batch forward. */
  lemma TurnOnItsWay(todo: seq<Account>, t: Task, ok: bool, expired: set<Jid>, d: Data)
    requires Runnable(t) && Knows(t, d) && OnItsWay(todo, t, d)
    ensures var (t', d') := Turn(t, ok, expired, d);
      && OnItsWay(todo, t', d') && (t' == Finished(Created) ==> Done(todo, |todo|, d') && InBatch(t))
      && (ok && t'.Finished? ==> t' == Finished(Created))
  {
    match t
    case Batch(rest) => BatchOnItsWay(todo, rest, ok, expired, d);
    case Storing(account, rest) => StoringOnItsWay(todo, account, rest, ok, expired, d);
    case Creating(account, rest) => CreatingOnItsWay(todo, account, rest, ok, expired, d);
    case _ =>
  }

  /** No other task changes what a batch has done, as the batch has both guards. */
  lemma OthersLeaveBatch(todo: seq<Account>, t: Task, ok: bool, expired: set<Jid>, d: Data, other: Task)
    requires Runnable(t) && OnItsWay(todo, other, d)
    requires forall lock :: Holds(other, lock) == Exclusive ==> Holds(t, lock) == Free
    ensures OnItsWay(todo, other, Turn(t, ok, expired, d).1)
  {
    if InBatch(other) {
      TurnRespectsLocks(t, ok, expired, d, Passwords);
      assert Holds(other, Passwords) == Exclusive && Holds(other, Tokens) == Exclusive;
      SameMaps(t, ok, expired, d);
    }
  }

  lemma SameMaps(t: Task, ok: bool, expired: set<Jid>, d: Data)
    requires Runnable(t) && Holds(t, Passwords) == Free && Holds(t, Tokens) == Free
    ensures Turn(t, ok, expired, d).1 == d
  {
  }

  lemma GrantedOnItsWay(todo: seq<Account>, t: Task, d: Data)
    requires OnItsWay(todo, t, d) && Waits(t).Waiting?
    ensures OnItsWay(todo, Granted(t), d)
  {
    assert todo[|todo| - |todo|..] == todo;
  }

  lemma StepOnItsWay(s: State, a: Action, k: nat, todo: seq<Account>)
    requires Inv(s) && Enabled(s, a) && k < |s.tasks| && OnItsWay(todo, s.tasks[k], s.data)
    ensures var s' := Step(s, a); |s'.tasks| == |s.tasks| && OnItsWay(todo, s'.tasks[k], s'.data)
  {
    match a
    case Run(i, ok, expired) =>
      if i == k {
        TurnOnItsWay(todo, s.tasks[k], ok, expired, s.data);
      } else {
        assert LockOk(s, Passwords) && LockOk(s, Tokens);
        OthersLeaveBatch(todo, s.tasks[i], ok, expired, s.data, s.tasks[k]);
      }
    case Grant(lock) =>
      assert LockOk(s, lock);
      if s.queues[lock][0] == k { GrantedOnItsWay(todo, s.tasks[k], s.data); }
  }

  lemma {:induction false} RunOnItsWay(s: State, actions: seq<Action>, s': State, k: nat, todo: seq<Account>)
    requires Inv(s) && Reaches(s, actions, s') && k < |s.tasks| && OnItsWay(todo, s.tasks[k], s.data)
    ensures |s'.tasks| == |s.tasks| && OnItsWay(todo, s'.tasks[k], s'.data)
    decreases |actions|
  {
    if actions != [] {
      StepKeepsInv(s, actions[0]);
      StepOnItsWay(s, actions[0], k, todo);
      RunOnItsWay(Step(s, actions[0]), actions[1..], s', k, todo);
    }
  }

  /** In every interleaving, at the turn in which a batch ends as created it still has both
      guards, and every account of it has its password stored and, unless nothing is cached,
      a token for that password.  (Where names are repeated, the last account counts.) */
  lemma BatchStores(s: State, actions: seq<Action>, u: State, k: nat, todo: seq<Account>, ok: bool, expired: set<Jid>)
    requires Initial(s) && k < |s.tasks| && s.tasks[k] == WantsBoth(todo) && Reaches(s, actions, u)
    requires Enabled(u, Run(k, ok, expired)) && Step(u, Run(k, ok, expired)).tasks[k] == Finished(Created)
    ensures Holds(u.tasks[k], Passwords) == Exclusive && Holds(u.tasks[k], Tokens) == Exclusive
    ensures var d := Step(u, Run(k, ok, expired)).data;
      forall i :: 0 <= i < |todo| && LastOfName(todo, i) ==>
        && todo[i].jid in d.passwords && d.passwords[todo[i].jid] == todo[i].password
        && (!d.zeroTtl ==> todo[i].jid in d.tokens && d.tokens[todo[i].jid] == Token(todo[i].jid, todo[i].password))
  {
    InitialIsInv(s);
    RunsKeepInv(s, actions, u);
    RunOnItsWay(s, actions, u, k, todo);
    TurnOnItsWay(todo, u.tasks[k], ok, expired, u.data);
    var d := Step(u, Run(k, ok, expired)).data;
    forall i | 0 <= i < |todo| && LastOfName(todo, i) ensures Stored(d, todo[i]) {}
  }

  /** ... and it does end so if its own calls succeed. */
  lemma {:induction false} BatchSucceeds(s: State, actions: seq<Action>, s': State, k: nat, todo: seq<Account>)
    requires Inv(s) && k < |s.tasks| && OnItsWay(todo, s.tasks[k], s.data) && Reaches(s, actions, s')
    requires s.tasks[k].Finished? ==> s.tasks[k] == Finished(Created)
    requires forall i :: 0 <= i < |actions| && actions[i].Run? && actions[i].task == k ==> actions[i].ok
    ensures |s'.tasks| == |s.tasks| && (s'.tasks[k].Finished? ==> s'.tasks[k] == Finished(Created))
    decreases |actions|
  {
    if actions != [] {
      var a, t := actions[0], Step(s, actions[0]);
      assert a.Run? && a.task == k ==> a.ok;
      StepKeepsInv(s, a);
      StepOnItsWay(s, a, k, todo);
      if a.Run? && a.task == k { TurnOnItsWay(todo, s.tasks[k], a.ok, a.expired, s.data); }
      if a.Grant? { assert LockOk(s, a.lock); }
      BatchSucceeds(t, actions[1..], s', k, todo);
    }
  }

  /** The accounts a task still has before it. */
  function Todo(t: Task): seq<Account> {
    match t
    case WantsBoth(todo) => todo
    case BothQueued(todo) => todo
    case BothHeld(todo) => todo
    case TokensQueued(todo) => todo
    case Batch(todo) => todo
    case Revoking(account, todo) => [account] + todo
    case Storing(account, todo) => [account] + todo
    case Creating(_, todo) => todo
    case Welcoming(todo) => todo
    case _ => []
  }

  ghost predicate Wanted(tasks: seq<Task>, a: Account) {
    exists i :: 0 <= i < |tasks| && a in Todo(tasks[i])
  }

  lemma TurnWants(t: Task, ok: bool, expired: set<Jid>, d: Data)
    ensures var (t', d') := Turn(t, ok, expired, d);
      && (forall a :: a in Todo(t') ==> a in Todo(t))
      && (forall jid :: jid in d.passwords ==> jid in d'.passwords)
      && (forall jid :: jid in d'.passwords ==>
            (jid in d.passwords && d'.passwords[jid] == d.passwords[jid]) || Account(jid, d'.passwords[jid]) in Todo(t))
  {
  }

  lemma StepWants(s: State, a: Action)
    requires Enabled(s, a)
    ensures var s' := Step(s, a);
      && (forall account :: Wanted(s'.tasks, account) ==> Wanted(s.tasks, account))
      && (forall jid :: jid in s.data.passwords ==> jid in s'.data.passwords)
      && (forall jid :: jid in s'.data.passwords ==>
            || (jid in s.data.passwords && s'.data.passwords[jid] == s.data.passwords[jid])
            || Wanted(s.tasks, Account(jid, s'.data.passwords[jid])))
  {
    var s' := Step(s, a);
    match a
    case Run(i, ok, expired) =>
      TurnWants(s.tasks[i], ok, expired, s.data);
      forall account | Wanted(s'.tasks, account) ensures Wanted(s.tasks, account) {
        var j :| 0 <= j < |s'.tasks| && account in Todo(s'.tasks[j]);
        assert account in Todo(s.tasks[j]);
      }
    case Grant(lock) =>
      forall account | Wanted(s'.tasks, account) ensures Wanted(s.tasks, account) {
        var j :| 0 <= j < |s'.tasks| && account in Todo(s'.tasks[j]);
        assert account in Todo(s.tasks[j]);
      }
  }

  /** No password is ever lost, and every one that is stored was there before or is that of
      an account some task was to create: all others are unchanged. */
  lemma {:induction false} PasswordsComeFromBatches(s: State, actions: seq<Action>, s': State, jid: Jid)
    requires Reaches(s, actions, s')
    ensures jid in s.data.passwords ==> jid in s'.data.passwords
    ensures jid in s'.data.passwords ==>
      || (jid in s.data.passwords && s'.data.passwords[jid] == s.data.passwords[jid])
      || Wanted(s.tasks, Account(jid, s'.data.passwords[jid]))
    decreases |actions|
  {
    if actions != [] {
      StepWants(s, actions[0]);
      PasswordsComeFromBatches(Step(s, actions[0]), actions[1..], s', jid);
    }
  }

  // ---- where tokens come from ----

  /** The task calls Prosody to log in to the account with this password. */
  predicate LogsInAs(t: Task, jid: Jid, password: Password) {
    t == LoggingIn(jid, password) || (t.Creating? && t.account == Account(jid, password))
  }

  /** In this run such a call succeeds. */
  ghost predicate LogsIn(s: State, actions: seq<Action>, jid: Jid, password: Password)
    decreases |actions|
  {
    actions != [] && Enabled(s, actions[0]) &&
    ((actions[0].Run? && actions[0].ok && LogsInAs(s.tasks[actions[0].task], jid, password))
     || LogsIn(Step(s, actions[0]), actions[1..], jid, password))
  }

  /** The task has logged in and not saved its token yet. */
  predicate Carries(t: Task, jid: Jid, password: Password) {
    match t
    case WantsSave(j, token) => j == jid && token == Token(jid, password)
    case SaveQueued(j, token) => j == jid && token == Token(jid, password)
    case SaveHeld(j, token) => j == jid && token == Token(jid, password)
    case _ => false
  }

  predicate Cached(d: Data, jid: Jid, password: Password) {
    jid in d.tokens && d.tokens[jid] == Token(jid, password)
  }

  /** The token is cached or about to be. */
  ghost predicate Issued(s: State, jid: Jid, password: Password) {
    Cached(s.data, jid, password) || exists i :: 0 <= i < |s.tasks| && Carries(s.tasks[i], jid, password)
  }

  lemma TurnIssues(t: Task, ok: bool, expired: set<Jid>, d: Data, jid: Jid, password: Password)
    ensures var (t', d') := Turn(t, ok, expired, d);
      && (Carries(t', jid, password) ==> Carries(t, jid, password) || (ok && LogsInAs(t, jid, password)))
      && (Cached(d', jid, password) ==>
            Cached(d, jid, password) || Carries(t, jid, password) || (ok && LogsInAs(t, jid, password)))
  {
  }

  lemma StepIssues(s: State, a: Action, jid: Jid, password: Password)
    requires Enabled(s, a) && Issued(Step(s, a), jid, password)
    ensures Issued(s, jid, password) || (a.Run? && a.ok && LogsInAs(s.tasks[a.task], jid, password))
  {
    var s' := Step(s, a);
    if a.Run? { TurnIssues(s.tasks[a.task], a.ok, a.expired, s.data, jid, password); }
    if !Cached(s'.data, jid, password) {
      var i :| 0 <= i < |s'.tasks| && Carries(s'.tasks[i], jid, password);
      assert Carries(s.tasks[i], jid, password) || (a.Run? && a.task == i);
    }
  }

  lemma {:induction false} IssuedByLogIn(s: State, actions: seq<Action>, s': State, jid: Jid, password: Password)
    requires Reaches(s, actions, s') && Issued(s', jid, password)
    ensures Issued(s, jid, password) || LogsIn(s, actions, jid, password)
    decreases |actions|
  {
    if actions != [] {
      IssuedByLogIn(Step(s, actions[0]), actions[1..], s', jid, password);
      if Issued(Step(s, actions[0]), jid, password) { StepIssues(s, actions[0], jid, password); }
    }
  }

  /** From the start, every cached token comes from a successful log-in to its account with
      the password it was issued for. */
  lemma TokensComeFromLogIns(s: State, actions: seq<Action>, s': State, jid: Jid)
    requires Initial(s) && Reaches(s, actions, s') && jid in s'.data.tokens
    ensures LogsIn(s, actions, jid, s'.data.tokens[jid].issuedFor)
  {
    var password := s'.data.tokens[jid].issuedFor;
    TokensStayCurrent(s, actions, s');
    assert Cached(s'.data, jid, password);
    IssuedByLogIn(s, actions, s', jid, password);
  }

  /** A lookup that found its token where it looked first, or what came of it. */
  predicate Reuses(t: Task, jid: Jid) {
    match t
    case WantsRead(j) => j == jid
    case ReadQueued(j) => j == jid
    case ReadHeld(j) => j == jid
    case Using(j) => j == jid
    case Finished(outcome) => outcome == Used || outcome == TokenPanic
    case _ => false
  }

  lemma StepReuses(s: State, a: Action, k: nat, jid: Jid)
    requires Enabled(s, a) && k < |s.tasks| && Reuses(s.tasks[k], jid)
    ensures var s' := Step(s, a); |s'.tasks| == |s.tasks| && Reuses(s'.tasks[k], jid)
  {
  }

  lemma {:induction false} RunReuses(s: State, actions: seq<Action>, s': State, k: nat, jid: Jid)
    requires k < |s.tasks| && Reuses(s.tasks[k], jid) && Reaches(s, actions, s')
    ensures |s'.tasks| == |s.tasks| && Reuses(s'.tasks[k], jid)
    decreases |actions|
  {
    if actions != [] {
      StepReuses(s, actions[0], k, jid);
      RunReuses(Step(s, actions[0]), actions[1..], s', k, jid);
    }
  }

  /** A lookup that finds a token cached never logs in and never needs the passwords, and
      no call of its own can fail. */
  lemma CachedTokenIsReused(s: State, ok: bool, expired: set<Jid>, actions: seq<Action>, s': State, k: nat, jid: Jid)
    requires k < |s.tasks| && s.tasks[k] == LookHeld(jid) && jid in s.data.tokens
    requires Reaches(Step(s, Run(k, ok, expired)), actions, s')
    ensures |s'.tasks| == |s.tasks| && Holds(s'.tasks[k], Passwords) == Free
    ensures Waits(s'.tasks[k]) == NotWaiting || Waits(s'.tasks[k]) == Waiting(Tokens, false)
    ensures forall password :: !LogsInAs(s'.tasks[k], jid, password)
    ensures s'.tasks[k].Finished? ==> s'.tasks[k] == Finished(Used) || s'.tasks[k] == Finished(TokenPanic)
  {
    RunReuses(Step(s, Run(k, ok, expired)), actions, s', k, jid);
  }

  // ---- failing calls ----

  /** A task in a call to Prosody, or about to make one. */
  predicate Calls(t: Task) {
    t.LoggingIn? || t.Revoking? || t.Creating? || t.Welcoming? || (t.Batch? && t.todo != [])
  }

  lemma {:induction false} FinishedStays(s: State, actions: seq<Action>, s': State, k: nat)
    requires k < |s.tasks| && s.tasks[k].Finished? && Reaches(s, actions, s')
    ensures |s'.tasks| == |s.tasks| && s'.tasks[k] == s.tasks[k]
    decreases |actions|
  {
    if actions != [] {
      assert Step(s, actions[0]).tasks[k] == s.tasks[k];
      FinishedStays(Step(s, actions[0]), actions[1..], s', k);
    }
  }

  /** The first failing call ends its task for good, and changes nothing: no password, no
      token; and without a password on record nothing is asked of Prosody. */
  lemma FailingCallEnds(s: State, expired: set<Jid>, ok: bool, actions: seq<Action>, s': State, k: nat)
    requires k < |s.tasks|
    requires (Calls(s.tasks[k]) && !ok) || (s.tasks[k].CheckHeld? && s.tasks[k].jid !in s.data.passwords)
    requires Reaches(Step(s, Run(k, ok, expired)), actions, s')
    ensures Step(s, Run(k, ok, expired)).data == s.data
    ensures |s'.tasks| == |s.tasks| && s'.tasks[k] == Finished(Failed)
  {
    FinishedStays(Step(s, Run(k, ok, expired)), actions, s', k);
  }

  // ---- progress ----

  /** Locks are taken in order: passwords, then tokens. */
  lemma LockOrder(t: Task)
    ensures Waits(t).Waiting? ==> Holds(t, Tokens) == Free
    ensures Waits(t).Waiting? && Waits(t).lock == Passwords ==> Holds(t, Passwords) == Free
    ensures t.Finished? ==> Holds(t, Tokens) == Free && Holds(t, Passwords) == Free
  {
  }

  /** As long as a task is unfinished, something can happen: no deadlock. */
  lemma SomethingCanHappen(s: State, i: nat) returns (a: Action)
    requires Inv(s) && i < |s.tasks| && !s.tasks[i].Finished?
    ensures Enabled(s, a)
  {
    forall j | 0 <= j < |s.tasks|
      ensures Waits(s.tasks[j]).Waiting? ==> Holds(s.tasks[j], Tokens) == Free
    {
      LockOrder(s.tasks[j]);
    }
    if j :| 0 <= j < |s.tasks| && Runnable(s.tasks[j]) {
      return Run(j, true, {});
    }
    forall j | 0 <= j < |s.tasks| ensures Holds(s.tasks[j], Tokens) == Free { LockOrder(s.tasks[j]); }
    assert LockOk(s, Tokens) && LockOk(s, Passwords);
    if s.queues[Tokens] != [] {
      return Grant(Tokens);
    }
    forall j | 0 <= j < |s.tasks| ensures Holds(s.tasks[j], Passwords) == Free { LockOrder(s.tasks[j]); }
    return Grant(Passwords);
  }

  /** Turns a task still has before it, at most. */
  function Rank(t: Task): nat {
    match t
    case WantsLook(_) => 20 case LookQueued(_) => 19 case LookHeld(_) => 18
    case WantsCheck(_) => 17 case CheckQueued(_) => 16 case CheckHeld(_) => 15
    case WantsPassword(_) => 14 case PasswordQueued(_) => 13 case PasswordHeld(_) => 12
    case LoggingIn(_, _) => 11
    case WantsSave(_, _) => 10 case SaveQueued(_, _) => 9 case SaveHeld(_, _) => 8
    case Saved(_) => 7
    case WantsRead(_) => 6 case ReadQueued(_) => 5 case ReadHeld(_) => 4 case Using(_) => 3
    case WantsBoth(todo) => 5 * |todo| + 10
    case BothQueued(todo) => 5 * |todo| + 9 case BothHeld(todo) => 5 * |todo| + 8
    case TokensQueued(todo) => 5 * |todo| + 7
    case Batch(todo) => 5 * |todo| + 1
    case Revoking(_, todo) => 5 * |todo| + 5
    case Storing(_, todo) => 5 * |todo| + 4
    case Creating(_, todo) => 5 * |todo| + 3
    case Welcoming(todo) => 5 * |todo| + 2
    case WantsPurge => 3 case PurgeQueued => 2 case PurgeHeld => 1
    case Finished(_) => 0
  }

  function Work(tasks: seq<Task>): nat {
    if tasks == [] then 0 else Rank(tasks[0]) + Work(tasks[1..])
  }

  lemma {:induction false} WorkAfter(tasks: seq<Task>, i: nat, t: Task)
    requires i < |tasks|
    ensures Work(tasks[i := t]) == Work(tasks) - Rank(tasks[i]) + Rank(t)
  {
    if i == 0 {
      assert tasks[0 := t][1..] == tasks[1..];
    } else {
      WorkAfter(tasks[1..], i - 1, t);
      assert tasks[i := t][1..] == tasks[1..][i - 1 := t];
    }
  }

  lemma TurnLowersRank(t: Task, ok: bool, expired: set<Jid>, d: Data)
    requires Runnable(t)
    ensures Rank(Turn(t, ok, expired, d).0) < Rank(t)
  {
    if InBatch(t) { BatchTurnLowersRank(t, ok, expired, d); }
  }

  lemma BatchTurnLowersRank(t: Task, ok: bool, expired: set<Jid>, d: Data)
    requires InBatch(t)
    ensures Rank(Turn(t, ok, expired, d).0) < Rank(t)
  {
  }

  lemma StepLowersWork(s: State, a: Action)
    requires Inv(s) && Enabled(s, a)
    ensures Work(Step(s, a).tasks) < Work(s.tasks)
  {
    match a
    case Run(i, ok, expired) =>
      TurnLowersRank(s.tasks[i], ok, expired, s.data);
      WorkAfter(s.tasks, i, Turn(s.tasks[i], ok, expired, s.data).0);
    case Grant(lock) =>
      assert LockOk(s, lock);
      var i := s.queues[lock][0];
      GrantLowersRank(s.tasks[i]);
      WorkAfter(s.tasks, i, Granted(s.tasks[i]));
  }

  lemma GrantLowersRank(t: Task)
    requires Waits(t).Waiting?
    ensures Rank(Granted(t)) < Rank(t)
  {
  }

  /** Every run is finite, and one that cannot go on has finished every task. */
  lemma {:induction false} RunsFinish(s: State, actions: seq<Action>, s': State)
    requires Inv(s) && Reaches(s, actions, s')
    ensures |actions| + Work(s'.tasks) <= Work(s.tasks)
    ensures (forall a :: !Enabled(s', a)) <==> (forall i :: 0 <= i < |s'.tasks| ==> s'.tasks[i].Finished?)
    decreases |actions|
  {
    if actions == [] {
      if i :| 0 <= i < |s'.tasks| && !s'.tasks[i].Finished? {
        var a := SomethingCanHappen(s', i);
      } else {
        NothingLeft(s');
      }
    } else {
      StepKeepsInv(s, actions[0]);
      StepLowersWork(s, actions[0]);
      RunsFinish(Step(s, actions[0]), actions[1..], s');
    }
  }

  lemma NothingLeft(s: State)
    requires Inv(s) && forall i :: 0 <= i < |s.tasks| ==> s.tasks[i].Finished?
    ensures forall a :: !Enabled(s, a)
  {
    forall a ensures !Enabled(s, a) {
      if a.Grant? {
        assert LockOk(s, a.lock);
      }
    }
  }

  // ---- lookups in company ----

  /** The lookup has found or saved its token, and not used it yet. */
  predicate HasFound(t: Task) { t.Saved? || t.WantsRead? || t.ReadQueued? || t.ReadHeld? || t.Using? }

  predicate LooksUp(t: Task, jid: Jid) {
    match t
    case WantsLook(j) => j == jid
    case LookQueued(j) => j == jid
    case LookHeld(j) => j == jid
    case WantsCheck(j) => j == jid
    case CheckQueued(j) => j == jid
    case CheckHeld(j) => j == jid
    case WantsPassword(j) => j == jid
    case PasswordQueued(j) => j == jid
    case PasswordHeld(j) => j == jid
    case LoggingIn(j, _) => j == jid
    case WantsSave(j, _) => j == jid
    case SaveQueued(j, _) => j == jid
    case SaveHeld(j, _) => j == jid
    case Saved(j) => j == jid
    case WantsRead(j) => j == jid
    case ReadQueued(j) => j == jid
    case ReadHeld(j) => j == jid
    case Using(j) => j == jid
    case Finished(outcome) => outcome == Used
    case _ => false
  }

  /** A lookup of an account with a stored password, on its way to being served. */
  predicate OnTrack(t: Task, jid: Jid, d: Data) {
    LooksUp(t, jid) && jid in d.passwords && !d.zeroTtl && (HasFound(t) ==> jid in d.tokens)
  }

  lemma TurnStaysOnTrack(t: Task, jid: Jid, expired: set<Jid>, d: Data)
    requires Runnable(t) && OnTrack(t, jid, d)
    ensures var (t', d') := Turn(t, true, expired, d); OnTrack(t', jid, d')
  {
  }

  lemma OthersKeepTrack(t: Task, ok: bool, expired: set<Jid>, d: Data, other: Task, jid: Jid)
    requires OnTrack(other, jid, d)
    requires HasFound(other) ==> jid in Turn(t, ok, expired, d).1.tokens
    ensures OnTrack(other, jid, Turn(t, ok, expired, d).1)
  {
  }

  lemma GrantKeepsTrack(t: Task, jid: Jid, d: Data)
    requires OnTrack(t, jid, d)
    ensures OnTrack(Granted(t), jid, d)
  {
  }

  /** While the `k`th task has found the token of `jid`, no action takes it away. */
  ghost predicate TokenStays(s: State, actions: seq<Action>, k: nat, jid: Jid)
    decreases |actions|
  {
    actions == [] ||
    (&& Enabled(s, actions[0])
     && (k < |s.tasks| && HasFound(s.tasks[k]) && jid in s.data.tokens ==> jid in Step(s, actions[0]).data.tokens)
     && TokenStays(Step(s, actions[0]), actions[1..], k, jid))
  }

  lemma StepStaysOnTrack(s: State, a: Action, k: nat, jid: Jid)
    requires Enabled(s, a) && k < |s.tasks| && OnTrack(s.tasks[k], jid, s.data)
    requires HasFound(s.tasks[k]) && jid in s.data.tokens ==> jid in Step(s, a).data.tokens
    requires a.Run? && a.task == k ==> a.ok
    ensures var s' := Step(s, a); |s'.tasks| == |s.tasks| && OnTrack(s'.tasks[k], jid, s'.data)
  {
    match a
    case Run(i, ok, expired) =>
      if i == k {
        TurnStaysOnTrack(s.tasks[k], jid, expired, s.data);
      } else {
        OthersKeepTrack(s.tasks[i], ok, expired, s.data, s.tasks[k], jid);
      }
    case Grant(lock) =>
      if s.queues[lock][0] == k {
        GrantKeepsTrack(s.tasks[k], jid, s.data);
      }
  }

  /** Whatever other tasks do, a lookup whose own calls succeed ends with its token, unless
      that token is taken away between being found and being read. */
  lemma {:induction false} LookupIsServed(s: State, actions: seq<Action>, s': State, k: nat, jid: Jid)
    requires k < |s.tasks| && OnTrack(s.tasks[k], jid, s.data)
    requires Reaches(s, actions, s') && TokenStays(s, actions, k, jid)
    requires forall i :: 0 <= i < |actions| && actions[i].Run? && actions[i].task == k ==> actions[i].ok
    ensures |s'.tasks| == |s.tasks| && (s'.tasks[k].Finished? ==> s'.tasks[k] == Finished(Used))
    decreases |actions|
  {
    if actions != [] {
      StepStaysOnTrack(s, actions[0], k, jid);
      forall i | 0 <= i < |actions[1..]| && actions[1..][i].Run? && actions[1..][i].task == k
        ensures actions[1..][i].ok {
        assert actions[1..][i] == actions[i + 1];
      }
      LookupIsServed(Step(s, actions[0]), actions[1..], s', k, jid);
    }
  }

  /** The task does not change the password of `jid`. */
  predicate Spares(t: Task, jid: Jid) {
    match t
    case WantsBoth(todo) => SparedBy(todo, jid)
    case BothQueued(todo) => SparedBy(todo, jid)
    case BothHeld(todo) => SparedBy(todo, jid)
    case TokensQueued(todo) => SparedBy(todo, jid)
    case Batch(todo) => SparedBy(todo, jid)
    case Revoking(account, todo) => account.jid != jid && SparedBy(todo, jid)
    case Storing(account, todo) => account.jid != jid && SparedBy(todo, jid)
    case Creating(account, todo) => account.jid != jid && SparedBy(todo, jid)
    case Welcoming(todo) => SparedBy(todo, jid)
    case _ => true
  }

  predicate SparedBy(todo: seq<Account>, jid: Jid) { forall i :: 0 <= i < |todo| ==> todo[i].jid != jid }

  lemma TurnSpares(t: Task, ok: bool, expired: set<Jid>, d: Data, jid: Jid)
    requires Spares(t, jid) && (t.PurgeHeld? ==> jid !in expired)
    ensures var (t', d') := Turn(t, ok, expired, d); Spares(t', jid) && (jid in d.tokens ==> jid in d'.tokens)
  {
  }

  lemma StepSpares(s: State, a: Action, jid: Jid)
    requires Enabled(s, a) && forall i :: 0 <= i < |s.tasks| ==> Spares(s.tasks[i], jid)
    requires a.Run? ==> jid !in a.expired
    ensures var s' := Step(s, a);
      (forall i :: 0 <= i < |s'.tasks| ==> Spares(s'.tasks[i], jid)) && (jid in s.data.tokens ==> jid in s'.data.tokens)
  {
    match a
    case Run(i, ok, expired) => TurnSpares(s.tasks[i], ok, expired, s.data, jid);
    case Grant(lock) =>
  }

  lemma {:induction false} SparingKeepsToken(s: State, actions: seq<Action>, s': State, k: nat, jid: Jid)
    requires Reaches(s, actions, s') && forall i :: 0 <= i < |s.tasks| ==> Spares(s.tasks[i], jid)
    requires forall i :: 0 <= i < |actions| && actions[i].Run? ==> jid !in actions[i].expired
    ensures TokenStays(s, actions, k, jid)
    decreases |actions|
  {
    if actions != [] {
      StepSpares(s, actions[0], jid);
      forall i | 0 <= i < |actions[1..]| && actions[1..][i].Run? ensures jid !in actions[1..][i].expired {
        assert actions[1..][i] == actions[i + 1];
      }
      SparingKeepsToken(Step(s, actions[0]), actions[1..], s', k, jid);
    }
  }

  ghost predicate ServedSoFar(s: State, k: nat, jid: Jid) {
    k < |s.tasks| && OnTrack(s.tasks[k], jid, s.data) && (s.tasks[k].Finished? ==> jid in s.data.tokens)
  }

  lemma {:induction false} TokenIsLeft(s: State, actions: seq<Action>, s': State, k: nat, jid: Jid)
    requires ServedSoFar(s, k, jid) && Reaches(s, actions, s')
    requires forall i :: 0 <= i < |s.tasks| ==> Spares(s.tasks[i], jid)
    requires forall i :: 0 <= i < |actions| && actions[i].Run? ==>
      jid !in actions[i].expired && (actions[i].task == k ==> actions[i].ok)
    ensures |s'.tasks| == |s.tasks| && ServedSoFar(s', k, jid)
    decreases |actions|
  {
    if actions != [] {
      StepSpares(s, actions[0], jid);
      StepStaysOnTrack(s, actions[0], k, jid);
      if !s.tasks[k].Finished? { OnlyUseFinishes(s, actions[0], k, jid); }
      forall i | 0 <= i < |actions[1..]| && actions[1..][i].Run?
        ensures jid !in actions[1..][i].expired && (actions[1..][i].task == k ==> actions[1..][i].ok)
      {
        assert actions[1..][i] == actions[i + 1];
      }
      TokenIsLeft(Step(s, actions[0]), actions[1..], s', k, jid);
    }
  }

  /** A lookup on track finishes by using the token, which it does under the lock. */
  lemma OnlyUseFinishes(s: State, a: Action, k: nat, jid: Jid)
    requires Enabled(s, a) && k < |s.tasks| && OnTrack(s.tasks[k], jid, s.data) && !s.tasks[k].Finished?
    requires a.Run? && a.task == k ==> a.ok
    ensures Step(s, a).tasks[k].Finished? ==> jid in s.data.tokens
  {
    if a.Run? && a.task == k && Step(s, a).tasks[k].Finished? {
      UseFinishes(s.tasks[k], jid, a.expired, s.data);
    } else if a.Grant? && s.queues[a.lock][0] == k {
      assert !Granted(s.tasks[k]).Finished?;
    }
  }

  lemma UseFinishes(t: Task, jid: Jid, expired: set<Jid>, d: Data)
    requires Runnable(t) && OnTrack(t, jid, d) && Turn(t, true, expired, d).0.Finished?
    ensures t.Using?
  {
  }

  /** In particular, among any number of other tasks, as long as no purge finds the token of
      `jid` expired and no password change is about `jid`, every interleaving that finishes
      the lookup serves it, and leaves the current token cached. */
  lemma LookupInGoodCompany(s: State, actions: seq<Action>, s': State, k: nat, jid: Jid)
    requires Initial(s) && k < |s.tasks| && s.tasks[k] == WantsLook(jid) && jid in s.data.passwords && !s.data.zeroTtl
    requires forall i :: 0 <= i < |s.tasks| ==> Spares(s.tasks[i], jid)
    requires Reaches(s, actions, s')
    requires forall i :: 0 <= i < |actions| && actions[i].Run? ==>
      jid !in actions[i].expired && (actions[i].task == k ==> actions[i].ok)
    ensures |s'.tasks| == |s.tasks|
    ensures s'.tasks[k].Finished? ==>
      s'.tasks[k] == Finished(Used) && jid in s'.data.tokens && Current(s'.data, jid, s'.data.tokens[jid])
  {
    TokenIsLeft(s, actions, s', k, jid);
    TokensStayCurrent(s, actions, s');
  }

  // ---- the last unwrap ----

  /** With a zero time-to-live nothing is ever cached, so no lookup ever gets a token. */
  lemma {:induction false} ZeroTtlServesNothing(s: State, actions: seq<Action>, s': State)
    requires s.data.zeroTtl && s.data.tokens == map[] && Reaches(s, actions, s')
    requires forall i :: 0 <= i < |s.tasks| ==> !Serves(s.tasks[i])
    ensures s'.data.tokens == map[] && forall i :: 0 <= i < |s'.tasks| ==> !Serves(s'.tasks[i])
    decreases |actions|
  {
    if actions != [] {
      StepServesNothing(s, actions[0]);
      ZeroTtlServesNothing(Step(s, actions[0]), actions[1..], s');
    }
  }

  predicate Serves(t: Task) { t.Using? || t == Finished(Used) }

  lemma TurnServesNothing(t: Task, ok: bool, expired: set<Jid>, d: Data)
    requires d.zeroTtl && d.tokens == map[] && !Serves(t)
    ensures var (t', d') := Turn(t, ok, expired, d); d'.zeroTtl && d'.tokens == map[] && !Serves(t')
  {
  }

  lemma StepServesNothing(s: State, a: Action)
    requires s.data.zeroTtl && s.data.tokens == map[] && Enabled(s, a)
    requires forall i :: 0 <= i < |s.tasks| ==> !Serves(s.tasks[i])
    ensures var s' := Step(s, a);
      s'.data.zeroTtl && s'.data.tokens == map[] && forall i :: 0 <= i < |s'.tasks| ==> !Serves(s'.tasks[i])
  {
    if a.Run? { TurnServesNothing(s.tasks[a.task], a.ok, a.expired, s.data); }
  }

  // ---- runs of two tasks ----

  ghost predicate CanStep(s: State, s': State) {
    exists a :: Enabled(s, a) && Step(s, a) == s'
  }

  /** A route names the states on the way instead of the actions. */
  ghost predicate IsRoute(route: seq<State>, s: State, s': State) {
    && route != [] && route[0] == s && route[|route| - 1] == s'
    && forall i :: 0 <= i < |route| - 1 ==> StepsAt(route, i)
  }

  ghost predicate StepsAt(route: seq<State>, i: nat)
    requires i < |route| - 1
  {
    CanStep(route[i], route[i + 1])
  }

  ghost predicate CanReach(s: State, s': State) {
    exists route :: IsRoute(route, s, s')
  }

  lemma Then(s: State, t: State, u: State)
    requires CanReach(s, t) && CanReach(t, u)
    ensures CanReach(s, u)
  {
    var x :| IsRoute(x, s, t);
    var y :| IsRoute(y, t, u);
    var z := x + y[1..];
    forall i | 0 <= i < |z| - 1 ensures StepsAt(z, i) {
      if i < |x| - 1 {
        assert StepsAt(x, i);
      } else {
        assert StepsAt(y, i - |x| + 1);
      }
    }
    assert IsRoute(z, s, u);
  }

  lemma OneAction(s: State, a: Action)
    requires Enabled(s, a)
    ensures CanReach(s, Step(s, a))
  {
    var route := [s, Step(s, a)];
    assert CanStep(route[0], route[1]);
    assert IsRoute(route, s, Step(s, a));
  }

  lemma {:induction false} RouteReaches(route: seq<State>, s: State, s': State) returns (actions: seq<Action>)
    requires IsRoute(route, s, s')
    ensures Reaches(s, actions, s')
  {
    if |route| == 1 {
      actions := [];
    } else {
      assert StepsAt(route, 0);
      var a :| Enabled(s, a) && Step(s, a) == route[1];
      forall i | 0 <= i < |route[1..]| - 1 ensures StepsAt(route[1..], i) {
        assert StepsAt(route, i + 1);
      }
      var rest := RouteReaches(route[1..], route[1], s');
      actions := [a] + rest;
      assert actions[1..] == rest;
    }
  }

  function Two(t0: Task, t1: Task, d: Data, passwords: seq<nat>, tokens: seq<nat>): State {
    State([t0, t1], d, map[Passwords := passwords, Tokens := tokens])
  }

  function Queue(queue: seq<nat>, i: nat, wait: Wait, lock: Lock): seq<nat> {
    if wait.Waiting? && wait.lock == lock then queue + [i] else queue
  }

  lemma EnqueuedTwo(p: seq<nat>, t: seq<nat>, i: nat, wait: Wait)
    ensures Enqueued(map[Passwords := p, Tokens := t], i, wait) ==
      map[Passwords := Queue(p, i, wait, Passwords), Tokens := Queue(t, i, wait, Tokens)]
  {
  }

  lemma RunsFirst(t0: Task, t1: Task, d: Data, p: seq<nat>, t: seq<nat>, t0': Task, d': Data, p': seq<nat>,
                  t': seq<nat>)
    requires Runnable(t0) && Turn(t0, true, {}, d) == (t0', d')
    requires p' == Queue(p, 0, Waits(t0'), Passwords) && t' == Queue(t, 0, Waits(t0'), Tokens)
    ensures CanReach(Two(t0, t1, d, p, t), Two(t0', t1, d', p', t'))
  {
    var s, a := Two(t0, t1, d, p, t), Run(0, true, {});
    EnqueuedTwo(p, t, 0, Waits(t0'));
    assert [t0, t1][0 := t0'] == [t0', t1];
    assert Step(s, a) == Two(t0', t1, d', p', t');
    OneAction(s, a);
  }

  lemma RunsSecond(t0: Task, t1: Task, d: Data, p: seq<nat>, t: seq<nat>, ok: bool, expired: set<Jid>, t1': Task,
                   d': Data, p': seq<nat>, t': seq<nat>)
    requires Runnable(t1) && Turn(t1, ok, expired, d) == (t1', d')
    requires p' == Queue(p, 1, Waits(t1'), Passwords) && t' == Queue(t, 1, Waits(t1'), Tokens)
    ensures CanReach(Two(t0, t1, d, p, t), Two(t0, t1', d', p', t'))
  {
    var s, a := Two(t0, t1, d, p, t), Run(1, ok, expired);
    EnqueuedTwo(p, t, 1, Waits(t1'));
    assert [t0, t1][1 := t1'] == [t0, t1'];
    assert Step(s, a) == Two(t0, t1', d', p', t');
    OneAction(s, a);
  }

  lemma GrantsFirst(t0: Task, t1: Task, d: Data, p: seq<nat>, t: seq<nat>, lock: Lock, t0': Task)
    requires Waits(t0).Waiting? && Waits(t0).lock == lock && (if lock == Passwords then p else t) == [0]
    requires t0' == Granted(t0)
    requires Available([t0, t1], lock, Waits(t0).exclusive) && (if lock == Passwords then t else p) == []
    ensures CanReach(Two(t0, t1, d, p, t), Two(t0', t1, d, [], []))
  {
    var s, a := Two(t0, t1, d, p, t), Grant(lock);
    assert s.queues[lock] == [0] && s.tasks[0] == t0 && s.queues[lock][1..] == [];
    assert Step(s, a).queues == map[Passwords := [], Tokens := []];
    assert Step(s, a) == Two(t0', t1, d, [], []);
    OneAction(s, a);
  }

  lemma GrantsSecond(t0: Task, t1: Task, d: Data, p: seq<nat>, t: seq<nat>, lock: Lock, t1': Task, p': seq<nat>,
                     t': seq<nat>)
    requires Waits(t1).Waiting? && Waits(t1).lock == lock && t1' == Granted(t1)
    requires if lock == Passwords then p == [1] + p' && t == t' else t == [1] + t' && p == p'
    requires Available([t0, t1], lock, Waits(t1).exclusive)
    ensures CanReach(Two(t0, t1, d, p, t), Two(t0, t1', d, p', t'))
  {
    var s, a := Two(t0, t1, d, p, t), Grant(lock);
    assert s.tasks[1] == t1 && s.queues[lock][0] == 1;
    assert Step(s, a) == Two(t0, t1', d, p', t');
    OneAction(s, a);
  }

  predicate Idle(t: Task) { t.WantsPurge? || t.WantsBoth? }

  /** Waiting for a lock nobody has, and getting it. */
  lemma Takes(wants: Task, queued: Task, other: Task, d: Data)
    requires Runnable(wants) && Turn(wants, true, {}, d) == (queued, d) && Waits(queued).Waiting?
    requires Idle(other) && Available([queued, other], Waits(queued).lock, Waits(queued).exclusive)
    ensures CanReach(Two(wants, other, d, [], []), Two(Granted(queued), other, d, [], []))
  {
    var lock := Waits(queued).lock;
    var p, t := Queue([], 0, Waits(queued), Passwords), Queue([], 0, Waits(queued), Tokens);
    RunsFirst(wants, other, d, [], [], queued, d, p, t);
    GrantsFirst(queued, other, d, p, t, lock, Granted(queued));
    Then(Two(wants, other, d, [], []), Two(queued, other, d, p, t), Two(Granted(queued), other, d, [], []));
  }

  /** A turn that waits for nothing. */
  lemma Goes(t0: Task, t0': Task, other: Task, d: Data, d': Data)
    requires Runnable(t0) && Turn(t0, true, {}, d) == (t0', d') && Waits(t0') == NotWaiting
    ensures CanReach(Two(t0, other, d, [], []), Two(t0', other, d', [], []))
  {
    RunsFirst(t0, other, d, [], [], t0', d', [], []);
  }

  /** A lookup that finds no token asks for the password ... */
  lemma LookupAsks(jid: Jid, other: Task, d: Data)
    requires jid !in d.tokens && Idle(other)
    ensures CanReach(Two(WantsLook(jid), other, d, [], []), Two(WantsCheck(jid), other, d, [], []))
  {
    Takes(WantsLook(jid), LookQueued(jid), other, d);
    Goes(LookHeld(jid), WantsCheck(jid), other, d, d);
    Then(Two(WantsLook(jid), other, d, [], []), Two(LookHeld(jid), other, d, [], []),
      Two(WantsCheck(jid), other, d, [], []));
  }

  /** ... finds it ... */
  lemma LookupFindsPassword(jid: Jid, other: Task, d: Data)
    requires jid in d.passwords && Idle(other)
    ensures CanReach(Two(WantsCheck(jid), other, d, [], []), Two(PasswordHeld(jid), other, d, [], []))
  {
    var start := Two(WantsCheck(jid), other, d, [], []);
    Takes(WantsCheck(jid), CheckQueued(jid), other, d);
    Goes(CheckHeld(jid), WantsPassword(jid), other, d, d);
    Then(start, Two(CheckHeld(jid), other, d, [], []), Two(WantsPassword(jid), other, d, [], []));
    Takes(WantsPassword(jid), PasswordQueued(jid), other, d);
    Then(start, Two(WantsPassword(jid), other, d, [], []), Two(PasswordHeld(jid), other, d, [], []));
  }

  /** ... and gets a token for it ... */
  lemma LookupLogsIn(jid: Jid, other: Task, d: Data)
    requires jid in d.passwords && Idle(other)
    ensures CanReach(Two(PasswordHeld(jid), other, d, [], []),
      Two(WantsSave(jid, Token(jid, d.passwords[jid])), other, d, [], []))
  {
    var password := d.passwords[jid];
    Goes(PasswordHeld(jid), LoggingIn(jid, password), other, d, d);
    Goes(LoggingIn(jid, password), WantsSave(jid, Token(jid, password)), other, d, d);
    Then(Two(PasswordHeld(jid), other, d, [], []), Two(LoggingIn(jid, password), other, d, [], []),
         Two(WantsSave(jid, Token(jid, password)), other, d, [], []));
  }

  /** ... which it saves. */
  lemma LookupSaves(jid: Jid, token: Token, other: Task, d: Data)
    requires Idle(other)
    ensures CanReach(Two(WantsSave(jid, token), other, d, [], []),
      Two(WantsRead(jid), other, InsertToken(d, jid, token), [], []))
  {
    var d' := InsertToken(d, jid, token);
    var start := Two(WantsSave(jid, token), other, d, [], []);
    Takes(WantsSave(jid, token), SaveQueued(jid, token), other, d);
    Goes(SaveHeld(jid, token), Saved(jid), other, d, d');
    Then(start, Two(SaveHeld(jid, token), other, d, [], []), Two(Saved(jid), other, d', [], []));
    Goes(Saved(jid), WantsRead(jid), other, d', d');
    Then(start, Two(Saved(jid), other, d', [], []), Two(WantsRead(jid), other, d', [], []));
  }

  lemma LookupBegins(jid: Jid, other: Task, d: Data)
    requires jid in d.passwords && jid !in d.tokens && Idle(other)
    ensures CanReach(Two(WantsLook(jid), other, d, [], []),
                     Two(WantsRead(jid), other, InsertToken(d, jid, Token(jid, d.passwords[jid])), [], []))
  {
    var start, token := Two(WantsLook(jid), other, d, [], []), Token(jid, d.passwords[jid]);
    LookupAsks(jid, other, d);
    LookupFindsPassword(jid, other, d);
    Then(start, Two(WantsCheck(jid), other, d, [], []), Two(PasswordHeld(jid), other, d, [], []));
    LookupLogsIn(jid, other, d);
    Then(start, Two(PasswordHeld(jid), other, d, [], []), Two(WantsSave(jid, token), other, d, [], []));
    LookupSaves(jid, token, other, d);
    Then(start, Two(WantsSave(jid, token), other, d, [], []),
      Two(WantsRead(jid), other, InsertToken(d, jid, token), [], []));
  }

  /** Once the token is gone, the reader is given the lock and panics. */
  lemma ReaderPanics(jid: Jid, outcome: Outcome, d: Data)
    requires jid !in d.tokens
    ensures CanReach(Two(ReadQueued(jid), Finished(outcome), d, [], [0]),
      Two(Finished(TokenPanic), Finished(outcome), d, [], []))
  {
    GrantsFirst(ReadQueued(jid), Finished(outcome), d, [], [0], Tokens, ReadHeld(jid));
    RunsFirst(ReadHeld(jid), Finished(outcome), d, [], [], Finished(TokenPanic), d, [], []);
    Then(Two(ReadQueued(jid), Finished(outcome), d, [], [0]), Two(ReadHeld(jid), Finished(outcome), d, [], []),
         Two(Finished(TokenPanic), Finished(outcome), d, [], []));
  }

  /** The reader queues behind a task that waits for the tokens, which is then served. */
  lemma OtherGoesFirst(jid: Jid, queued: Task, d: Data)
    requires Waits(queued) == Waiting(Tokens, true)
    ensures CanReach(Two(WantsRead(jid), queued, d, [], [1]), Two(ReadQueued(jid), Granted(queued), d, [], [0]))
  {
    assert [1] + [0] == [1, 0];
    RunsFirst(WantsRead(jid), queued, d, [], [1], ReadQueued(jid), d, [], [1, 0]);
    LockOrder(queued);
    GrantsSecond(ReadQueued(jid), queued, d, [], [1, 0], Tokens, Granted(queued), [], [0]);
    Then(Two(WantsRead(jid), queued, d, [], [1]), Two(ReadQueued(jid), queued, d, [], [1, 0]),
      Two(ReadQueued(jid), Granted(queued), d, [], [0]));
  }

  /** A purge queued ahead of the reader finds the token expired. */
  lemma PurgeGoesFirst(jid: Jid, d: Data)
    ensures CanReach(Two(WantsRead(jid), WantsPurge, d, [], []),
                     Two(ReadQueued(jid), Finished(Purged), d.(tokens := d.tokens - {jid}), [], [0]))
  {
    var d', start := d.(tokens := d.tokens - {jid}), Two(WantsRead(jid), WantsPurge, d, [], []);
    RunsSecond(WantsRead(jid), WantsPurge, d, [], [], true, {}, PurgeQueued, d, [], [1]);
    OtherGoesFirst(jid, PurgeQueued, d);
    Then(start, Two(WantsRead(jid), PurgeQueued, d, [], [1]), Two(ReadQueued(jid), PurgeHeld, d, [], [0]));
    RunsSecond(ReadQueued(jid), PurgeHeld, d, [], [0], true, {jid}, Finished(Purged), d', [], [0]);
    Then(start, Two(ReadQueued(jid), PurgeHeld, d, [], [0]), Two(ReadQueued(jid), Finished(Purged), d', [], [0]));
  }

  lemma ChangeTakesPasswords(jid: Jid, todo: seq<Account>, d: Data)
    ensures CanReach(Two(WantsRead(jid), WantsBoth(todo), d, [], []), Two(WantsRead(jid), BothHeld(todo), d, [], []))
  {
    RunsSecond(WantsRead(jid), WantsBoth(todo), d, [], [], true, {}, BothQueued(todo), d, [1], []);
    GrantsSecond(WantsRead(jid), BothQueued(todo), d, [1], [], Passwords, BothHeld(todo), [], []);
    Then(Two(WantsRead(jid), WantsBoth(todo), d, [], []), Two(WantsRead(jid), BothQueued(todo), d, [1], []),
      Two(WantsRead(jid), BothHeld(todo), d, [], []));
  }

  /** A password change queued ahead of the reader takes both locks ... */
  lemma ChangeGoesFirst(jid: Jid, todo: seq<Account>, d: Data)
    ensures CanReach(Two(WantsRead(jid), WantsBoth(todo), d, [], []), Two(ReadQueued(jid), Batch(todo), d, [], [0]))
  {
    var start := Two(WantsRead(jid), WantsBoth(todo), d, [], []);
    ChangeTakesPasswords(jid, todo, d);
    RunsSecond(WantsRead(jid), BothHeld(todo), d, [], [], true, {}, TokensQueued(todo), d, [], [1]);
    Then(start, Two(WantsRead(jid), BothHeld(todo), d, [], []), Two(WantsRead(jid), TokensQueued(todo), d, [], [1]));
    OtherGoesFirst(jid, TokensQueued(todo), d);
    Then(start, Two(WantsRead(jid), TokensQueued(todo), d, [], [1]), Two(ReadQueued(jid), Batch(todo), d, [], [0]));
  }

  /** ... discards the token, and gives up when revoking it fails. */
  lemma ChangeGivesUp(jid: Jid, account: Account, d: Data)
    requires account.jid == jid && jid in d.tokens
    ensures CanReach(Two(ReadQueued(jid), Batch([account]), d, [], [0]),
                     Two(ReadQueued(jid), Finished(Failed), d.(tokens := d.tokens - {jid}), [], [0]))
  {
    var d' := d.(tokens := d.tokens - {jid});
    assert [account][1..] == [];
    RunsSecond(ReadQueued(jid), Batch([account]), d, [], [0], true, {}, Revoking(account, []), d', [], [0]);
    RunsSecond(ReadQueued(jid), Revoking(account, []), d', [], [0], false, {}, Finished(Failed), d', [], [0]);
    Then(Two(ReadQueued(jid), Batch([account]), d, [], [0]), Two(ReadQueued(jid), Revoking(account, []), d', [], [0]),
         Two(ReadQueued(jid), Finished(Failed), d', [], [0]));
  }

  /** Between saving a token and reading it back no lock is held.  From the very start, one
      lookup and one purge can interleave so that the lookup panics, whoever is looked up
      and whatever the password ... */
  lemma PurgedBeforeRead(jid: Jid, password: Password) returns (s: State, actions: seq<Action>, s': State)
    ensures Initial(s) && s.tasks == [WantsLook(jid), WantsPurge] && s.data == Data(map[jid := password], map[], false)
    ensures Reaches(s, actions, s') && s'.tasks == [Finished(TokenPanic), Finished(Purged)]
  {
    var d := Data(map[jid := password], map[], false);
    var saved := InsertToken(d, jid, Token(jid, password));
    var gone := saved.(tokens := saved.tokens - {jid});
    s, s' := Two(WantsLook(jid), WantsPurge, d, [], []), Two(Finished(TokenPanic), Finished(Purged), gone, [], []);
    LookupBegins(jid, WantsPurge, d);
    PurgeGoesFirst(jid, saved);
    Then(s, Two(WantsRead(jid), WantsPurge, saved, [], []), Two(ReadQueued(jid), Finished(Purged), gone, [], [0]));
    ReaderPanics(jid, Purged, gone);
    Then(s, Two(ReadQueued(jid), Finished(Purged), gone, [], [0]), s');
    var route :| IsRoute(route, s, s');
    actions := RouteReaches(route, s, s');
  }

  /** ... and so can one lookup and one password change that fails after it has discarded
      the token. */
  lemma ChangedBeforeRead(jid: Jid, password: Password, changed: Password)
    returns (s: State, actions: seq<Action>, s': State)
    ensures Initial(s) && s.tasks == [WantsLook(jid), WantsBoth([Account(jid, changed)])]
    ensures s.data == Data(map[jid := password], map[], false)
    ensures Reaches(s, actions, s') && s'.tasks == [Finished(TokenPanic), Finished(Failed)]
  {
    var d := Data(map[jid := password], map[], false);
    var account := Account(jid, changed);
    var saved := InsertToken(d, jid, Token(jid, password));
    var gone := saved.(tokens := saved.tokens - {jid});
    s, s' := Two(WantsLook(jid), WantsBoth([account]), d, [], []),
      Two(Finished(TokenPanic), Finished(Failed), gone, [], []);
    LookupBegins(jid, WantsBoth([account]), d);
    ChangeGoesFirst(jid, [account], saved);
    Then(s, Two(WantsRead(jid), WantsBoth([account]), saved, [], []),
      Two(ReadQueued(jid), Batch([account]), saved, [], [0]));
    ChangeGivesUp(jid, account, saved);
    Then(s, Two(ReadQueued(jid), Batch([account]), saved, [], [0]),
      Two(ReadQueued(jid), Finished(Failed), gone, [], [0]));
    ReaderPanics(jid, Failed, gone);
    Then(s, Two(ReadQueued(jid), Finished(Failed), gone, [], [0]), s');
    var route :| IsRoute(route, s, s');
    actions := RouteReaches(route, s, s');
  }
}
