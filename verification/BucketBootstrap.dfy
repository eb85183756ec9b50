/** Any number of initialisers racing to prepare one bucket on one store. Each is a small program
over remote calls whose replies it does not control; the store answers truthfully or fails. */
module BucketBootstrap {

  type Account = string
  type Pid = nat

  datatype Bucket = Absent | Owned(owner: Account, openTo: set<Account>)

  /** `creations` counts the initialisers' creations that took effect. */
  datatype Store = Store(bucket: Bucket, objects: map<string, string>, creations: nat)

  datatype HeadReply = Found | ClientStatus(code: int) | HeadFailed | HeadInterrupted

  datatype CreateReply = Created | ClientCode(code: string) | CreateFailed | CreateInterrupted

  datatype CloseReply = Closed | CloseFailed | CloseInterrupted

  /** How a run ends: the refusals are the source's, one for each branch that raises. */
  datatype Outcome =
    | Ready | Misconfigured | Unverified | Unavailable | NotCreated | NotRechecked | CleanupFailed | Interrupted

  datatype Pc = Start | Missing | Contested | Closing(result: Outcome) | Done(outcome: Outcome)

  // ---- The program's branches -----------------------------------------------------------------

  /** After the first head_bucket: only an authenticated 404 leads to creation. */
  function AfterHead(r: HeadReply): Pc {
    match r
    case Found => Closing(Ready)
    case ClientStatus(code) => if code == 404 then Missing else Closing(Unverified)
    case HeadFailed => Closing(Unavailable)
    case HeadInterrupted => Closing(Interrupted)
  }

  function AfterCreate(r: CreateReply): Pc {
    match r
    case Created => Closing(Ready)
    case ClientCode(code) => if code == "BucketAlreadyOwnedByYou" then Contested else Closing(NotCreated)
    case CreateFailed => Closing(NotCreated)
    case CreateInterrupted => Closing(Interrupted)
  }

  /** The recheck after losing a race. */
  function AfterRecheck(r: HeadReply): Pc {
    match r
    case Found => Closing(Ready)
    case HeadInterrupted => Closing(Interrupted)
    case _ => Closing(NotRechecked)
  }

  /** client.close(): its failure is reported only when there was nothing else to report. */
  function AfterClose(result: Outcome, r: CloseReply): Pc {
    if result != Ready then Done(result)
    else match r
      case Closed => Done(Ready)
      case CloseFailed => Done(CleanupFailed)
      case CloseInterrupted => Done(Interrupted)
  }

  // ---- What the store may answer --------------------------------------------------------------

  predicate Accessible(s: Store, a: Account) { s.bucket.Owned? && a in s.bucket.openTo }

  /** Success and 404 are true of the store; any other reply may come at any time. */
  predicate HeadMayReply(s: Store, a: Account, r: HeadReply) {
    (r == Found ==> Accessible(s, a)) && (r == ClientStatus(404) ==> s.bucket == Absent)
  }

  function WithBucket(s: Store, a: Account): Store {
    s.(bucket := Owned(a, {a}), creations := s.creations + 1)
  }

  /** A creation may take effect only where there is no bucket; it may do so and its reply be lost, be
      an error, or, the client having sent it twice, say that the bucket is already the caller's. */
  predicate CreateMayReply(s: Store, a: Account, r: CreateReply, s': Store) {
    match r
    case Created => (s.bucket == Absent && s' == WithBucket(s, a))
                    || (s.bucket.Owned? && s.bucket.owner == a && Accessible(s, a) && s' == s)
    case ClientCode(code) =>
      (s.bucket == Absent && s' == WithBucket(s, a))
      || (s' == s && (code == "BucketAlreadyOwnedByYou" ==> s.bucket.Owned? && s.bucket.owner == a))
    case _ => s' == s || (s.bucket == Absent && s' == WithBucket(s, a))
  }

  /** A creation either takes effect on an absent bucket or changes nothing; and what the replies that
      matter say of the store is true afterwards. Every other reply may come either way. */
  lemma RepliesAreTrue(s: Store, a: Account, r: CreateReply, s': Store)
    ensures CreateMayReply(s, a, r, s') <==>
            && (s' == s || (s.bucket == Absent && s' == Store(Owned(a, {a}), s.objects, s.creations + 1)))
            && (r == Created ==> s'.bucket.Owned? && s'.bucket.owner == a && a in s'.bucket.openTo)
            && (r == ClientCode("BucketAlreadyOwnedByYou") ==> s'.bucket.Owned? && s'.bucket.owner == a)
  {
  }

  // ---- The system -----------------------------------------------------------------------------

  datatype System = System(store: Store, pcs: map<Pid, Pc>)

  datatype Action =
    | Misconfigure(p: Pid)
    | Head(p: Pid, head: HeadReply)
    | Create(p: Pid, create: CreateReply, after: Store)
    | Recheck(p: Pid, head: HeadReply)
    | Close(p: Pid, close: CloseReply)
    | Outside(bucket: Bucket, objects: map<string, string>)   // other clients of the store: anything

  predicate Allowed(accounts: Pid -> Account, s: System, a: Action) {
    match a
    case Misconfigure(p) => p in s.pcs && s.pcs[p] == Start
    case Head(p, r) => p in s.pcs && s.pcs[p] == Start && HeadMayReply(s.store, accounts(p), r)
    case Create(p, r, after) => p in s.pcs && s.pcs[p] == Missing && CreateMayReply(s.store, accounts(p), r, after)
    case Recheck(p, r) => p in s.pcs && s.pcs[p] == Contested && HeadMayReply(s.store, accounts(p), r)
    case Close(p, _) => p in s.pcs && s.pcs[p].Closing?
    case Outside(_, _) => true
  }

  /** Who may move when: each call at its place in the program, and the other clients always. */
  lemma MovesMean(accounts: Pid -> Account, s: System, a: Action)
    ensures a.Outside? ==> Allowed(accounts, s, a)
    ensures a.Head? ==> (Allowed(accounts, s, a) <==> At(s, a.p, Start) && HeadMayReply(s.store, accounts(a.p), a.head))
    ensures a.Recheck? ==>
              (Allowed(accounts, s, a) <==> At(s, a.p, Contested) && HeadMayReply(s.store, accounts(a.p), a.head))
    ensures a.Create? ==>
              (Allowed(accounts, s, a)
               <==> At(s, a.p, Missing) && CreateMayReply(s.store, accounts(a.p), a.create, a.after))
    ensures a.Close? ==> (Allowed(accounts, s, a) <==> exists result :: At(s, a.p, Closing(result)))
    ensures a.Misconfigure? ==> (Allowed(accounts, s, a) <==> At(s, a.p, Start))
  {
  }

  ghost predicate At(s: System, p: Pid, pc: Pc) { p in s.pcs && s.pcs[p] == pc }

  function After(s: System, a: Action): System
    requires a.Close? ==> a.p in s.pcs && s.pcs[a.p].Closing?
  {
    match a
    case Misconfigure(p) => s.(pcs := s.pcs[p := Done(Misconfigured)])
    case Head(p, r) => s.(pcs := s.pcs[p := AfterHead(r)])
    case Create(p, r, after) => System(after, s.pcs[p := AfterCreate(r)])
    case Recheck(p, r) => s.(pcs := s.pcs[p := AfterRecheck(r)])
    case Close(p, r) => s.(pcs := s.pcs[p := AfterClose(s.pcs[p].result, r)])
    case Outside(bucket, objects) => s.(store := s.store.(bucket := bucket, objects := objects))
  }

  /** A run: states joined by allowed actions. */
  ghost predicate IsRun(accounts: Pid -> Account, run: seq<System>, acts: seq<Action>) {
    && |run| == |acts| + 1
    && forall i | 0 <= i < |acts| :: Allowed(accounts, run[i], acts[i]) && run[i + 1] == After(run[i], acts[i])
  }

  predicate Fresh(s: System) {
    s.store.creations == 0 && forall p | p in s.pcs :: s.pcs[p] == Start
  }

  predicate Succeeding(pc: Pc) { pc == Closing(Ready) || pc == Done(Ready) }

  /** The action on which an initialiser settles for success: a bucket found, created, or found again
      after a lost race. */
  predicate Grants(a: Action, p: Pid) {
    (a.Head? || a.Create? || a.Recheck?) && a.p == p
    && (if a.Create? then a.create == Created else a.head == Found)
  }

  lemma StepGrants(accounts: Pid -> Account, s: System, a: Action, p: Pid)
    requires Allowed(accounts, s, a) && p in After(s, a).pcs && Succeeding(After(s, a).pcs[p])
    ensures (p in s.pcs && Succeeding(s.pcs[p])) || (Grants(a, p) && Accessible(After(s, a).store, accounts(p)))
  {
  }

  /** Whatever other clients do to the store meanwhile, deleting the bucket included: an initialiser
      that reports ready could reach an existing bucket at the step, one of its own, on which it
      settled. */
  lemma {:induction false} ReadyMeansAccessible(
    accounts: Pid -> Account, run: seq<System>, acts: seq<Action>, k: nat, p: Pid) returns (j: nat)
    requires IsRun(accounts, run, acts) && Fresh(run[0]) && k < |run|
    requires p in run[k].pcs && (run[k].pcs[p] == Closing(Ready) || run[k].pcs[p] == Done(Ready))
    ensures j < k && run[j + 1].store.bucket.Owned? && accounts(p) in run[j + 1].store.bucket.openTo
    ensures || acts[j] == Head(p, Found) || acts[j] == Recheck(p, Found)
            || (acts[j].Create? && acts[j].p == p && acts[j].create == Created)
  {
    assert k > 0;
    assert Allowed(accounts, run[k - 1], acts[k - 1]) && run[k] == After(run[k - 1], acts[k - 1]);
    StepGrants(accounts, run[k - 1], acts[k - 1], p);
    if p in run[k - 1].pcs && Succeeding(run[k - 1].pcs[p]) {
      j := ReadyMeansAccessible(accounts, run, acts, k - 1, p);
    } else {
      j := k - 1;
    }
  }

  /** The other clients leave a bucket where there is one, and take no access away. */
  predicate LeavesBucket(s: Store, a: Action) {
    a.Outside? && s.bucket.Owned? ==> a.bucket.Owned? && s.bucket.openTo <= a.bucket.openTo
  }

  ghost predicate BucketLeft(run: seq<System>, acts: seq<Action>, j: nat, k: nat)
    requires |run| == |acts| + 1 && k <= |acts|
  {
    forall i | j <= i < k :: LeavesBucket(run[i].store, acts[i])
  }

  lemma StepStaysAccessible(accounts: Pid -> Account, s: System, a: Action, account: Account)
    requires Allowed(accounts, s, a) && LeavesBucket(s.store, a) && Accessible(s.store, account)
    ensures Accessible(After(s, a).store, account)
  {
  }

  /** What an account can reach it can reach for as long as the bucket is left. */
  lemma {:induction false} StaysAccessible(
    accounts: Pid -> Account, run: seq<System>, acts: seq<Action>, j: nat, k: nat, account: Account)
    requires IsRun(accounts, run, acts) && j <= k < |run| && BucketLeft(run, acts, j, k)
    requires run[j].store.bucket.Owned? && account in run[j].store.bucket.openTo
    ensures run[k].store.bucket.Owned? && account in run[k].store.bucket.openTo
    decreases k - j
  {
    if j < k {
      assert Allowed(accounts, run[j], acts[j]) && run[j + 1] == After(run[j], acts[j]);
      StepStaysAccessible(accounts, run[j], acts[j], account);
      StaysAccessible(accounts, run, acts, j + 1, k, account);
    }
  }

  /** The steps at which other clients have left no bucket where there was one. */
  ghost function Removals(run: seq<System>, acts: seq<Action>, k: nat): set<int>
    requires |run| == |acts| + 1 && k <= |acts|
  {
    set i | 0 <= i < k && acts[i].Outside? && acts[i].bucket == Absent && run[i].store.bucket.Owned?
  }

  /** However many initialisers race, at most one creation takes effect, and one more for each time the
      bucket was taken away again. */
  lemma {:induction false} OneCreationTakesEffect(
    accounts: Pid -> Account, run: seq<System>, acts: seq<Action>, k: nat)
    requires IsRun(accounts, run, acts) && Fresh(run[0]) && k < |run|
    ensures run[k].store.creations <= |Removals(run, acts, k)| + (if run[k].store.bucket.Owned? then 1 else 0)
  {
    if k > 0 {
      OneCreationTakesEffect(accounts, run, acts, k - 1);
      assert Allowed(accounts, run[k - 1], acts[k - 1]) && run[k] == After(run[k - 1], acts[k - 1]);
      RemovalsNext(run, acts, k - 1);
      StepCreates(accounts, run[k - 1], acts[k - 1]);
    }
  }

  /** Another client takes the bucket away. */
  predicate Removes(s: System, a: Action) { a.Outside? && a.bucket == Absent && s.store.bucket.Owned? }

  lemma RemovalsNext(run: seq<System>, acts: seq<Action>, k: nat)
    requires |run| == |acts| + 1 && k < |acts|
    ensures |Removals(run, acts, k + 1)| == |Removals(run, acts, k)| + if Removes(run[k], acts[k]) then 1 else 0
  {
    assert Removals(run, acts, k + 1) == Removals(run, acts, k) + if Removes(run[k], acts[k]) then {k} else {};
  }

  lemma StepCreates(accounts: Pid -> Account, s: System, a: Action)
    requires Allowed(accounts, s, a)
    ensures After(s, a).store.creations + (if s.store.bucket.Owned? then 1 else 0)
         <= s.store.creations + (if After(s, a).store.bucket.Owned? then 1 else 0) + (if Removes(s, a) then 1 else 0)
  {
  }

  /** Creation is attempted only by an initialiser that was told 404, while there was no bucket. */
  lemma {:induction false} CreationFollowsAbsence(accounts: Pid -> Account, run: seq<System>, acts: seq<Action>,
      k: nat, p: Pid)
    returns (j: nat)
    requires IsRun(accounts, run, acts) && Fresh(run[0]) && k < |run|
    requires p in run[k].pcs && run[k].pcs[p] == Missing
    ensures j < k && acts[j] == Head(p, ClientStatus(404)) && run[j].store.bucket == Absent
  {
    assert k > 0;
    assert Allowed(accounts, run[k - 1], acts[k - 1]) && run[k] == After(run[k - 1], acts[k - 1]);
    if p in run[k - 1].pcs && run[k - 1].pcs[p] == Missing {
      j := CreationFollowsAbsence(accounts, run, acts, k - 1, p);
    } else {
      j := k - 1;
    }
  }

  /** Losing a race, too, is only ever reported as ready after looking again. */
  lemma CreateAttemptsAreAuthorised(accounts: Pid -> Account, run: seq<System>, acts: seq<Action>, k: nat)
    returns (j: nat)
    requires IsRun(accounts, run, acts) && Fresh(run[0]) && k < |acts| && acts[k].Create?
    ensures j < k && acts[j] == Head(acts[k].p, ClientStatus(404)) && run[j].store.bucket == Absent
    ensures acts[k].create == ClientCode("BucketAlreadyOwnedByYou") ==> run[k + 1].pcs[acts[k].p] == Contested
  {
    assert Allowed(accounts, run[k], acts[k]) && run[k + 1] == After(run[k], acts[k]);
    j := CreationFollowsAbsence(accounts, run, acts, k, acts[k].p);
  }

  /** Nothing an initialiser does changes a stored object or takes a bucket from its owner. */
  lemma InitialisersChangeNothingStored(accounts: Pid -> Account, s: System, a: Action)
    requires Allowed(accounts, s, a) && !a.Outside?
    ensures After(s, a).store.objects == s.store.objects
    ensures s.store.bucket.Owned? ==> After(s, a).store == s.store
  {
  }

  /** A settled result is never replaced by how cleaning up went, unless the result was success. */
  lemma {:induction false} PrimaryRefusalStands(
    accounts: Pid -> Account, run: seq<System>, acts: seq<Action>, i: nat, k: nat, p: Pid, result: Outcome)
    requires IsRun(accounts, run, acts) && i <= k < |run| && result != Ready
    requires p in run[i].pcs && (run[i].pcs[p] == Closing(result) || run[i].pcs[p] == Done(result))
    ensures p in run[k].pcs && (run[k].pcs[p] == Closing(result) || run[k].pcs[p] == Done(result))
    decreases k - i
  {
    if i < k {
      assert Allowed(accounts, run[i], acts[i]) && run[i + 1] == After(run[i], acts[i]);
      PrimaryRefusalStands(accounts, run, acts, i + 1, k, p, result);
    }
  }

  // ---- One initialiser's own code ---------------------------------------------------------------

  /** What one run's calls come back with. */
  datatype Replies = Replies(configured: bool, head: HeadReply, create: CreateReply, recheck: HeadReply,
      close: CloseReply)

  /** Where the machine takes an initialiser that meets these replies. */
  function Settled(pc: Pc, r: Replies): Outcome
    decreases match pc case Start => 4 case Missing => 3 case Contested => 2 case Closing(_) => 1 case Done(_) => 0
  {
    match pc
    case Start => if r.configured then Settled(AfterHead(r.head), r) else Misconfigured
    case Missing => Settled(AfterCreate(r.create), r)
    case Contested => Settled(AfterRecheck(r.recheck), r)
    case Closing(result) => Settled(AfterClose(result, r.close), r)
    case Done(outcome) => outcome
  }

  /** initialize_bucket, its handlers as branches: it ends where the machine says. */
  method InitializeBucket(r: Replies) returns (outcome: Outcome)
    ensures outcome == Settled(Start, r)
  {
    if !r.configured { return Misconfigured; }
    var refusal := PrepareBucket(r);
    if refusal != Ready { return refusal; }
    match r.close
    case Closed => return Ready;
    case CloseFailed => return CleanupFailed;
    case CloseInterrupted => return Interrupted;
  }

  /** _prepare_bucket; Ready when it returns, what it raises otherwise. */
  method PrepareBucket(r: Replies) returns (raised: Outcome)
    requires r.configured
    ensures raised != Ready ==> Settled(Start, r) == raised
    ensures raised == Ready ==> Settled(Start, r) == Settled(Closing(Ready), r)
  {
    match r.head
    case Found => return Ready;
    case HeadFailed => return Unavailable;
    case HeadInterrupted => return Interrupted;
    case ClientStatus(code) =>
      if code != 404 { return Unverified; }
      match r.create {
        case Created => return Ready;
        case CreateFailed => return NotCreated;
        case CreateInterrupted => return Interrupted;
        case ClientCode(error) =>
          if error != "BucketAlreadyOwnedByYou" { return NotCreated; }
          match r.recheck {
            case Found => return Ready;
            case HeadInterrupted => return Interrupted;
            case _ => return NotRechecked;
          }
      }
  }

  /** Ready is reported only on a success reply, and for an absent bucket only through a creation the
      store granted or a recheck it answered; closing must have worked too. */
  lemma ReadyExactlyWhen(r: Replies)
    ensures Settled(Start, r) == Ready <==>
      && r.configured && r.close == Closed
      && (|| r.head == Found
          || (r.head == ClientStatus(404)
              && (r.create == Created || (r.create == ClientCode("BucketAlreadyOwnedByYou") && r.recheck == Found))))
  {
    assert AfterHead(r.head).Missing? <==> r.head == ClientStatus(404);
    assert AfterCreate(r.create).Contested? <==> r.create == ClientCode("BucketAlreadyOwnedByYou");
  }

  /** The calls before closing ended well. */
  predicate Prepared(r: Replies) {
    || r.head == Found
    || (r.head == ClientStatus(404)
        && (r.create == Created || (r.create == ClientCode("BucketAlreadyOwnedByYou") && r.recheck == Found)))
  }

  /** Each refusal names the call that failed: the first look with any status but 404, or with none; the
      creation; the second look; closing, when all else went well. Interruption anywhere is itself. */
  lemma RefusedExactlyWhen(r: Replies)
    requires r.configured
    ensures Settled(Start, r) == Unverified <==> r.head.ClientStatus? && r.head.code != 404
    ensures Settled(Start, r) == Unavailable <==> r.head == HeadFailed
    ensures Settled(Start, r) == NotCreated <==>
            r.head == ClientStatus(404)
            && (r.create == CreateFailed || (r.create.ClientCode? && r.create.code != "BucketAlreadyOwnedByYou"))
    ensures Settled(Start, r) == NotRechecked <==>
            r.head == ClientStatus(404) && r.create == ClientCode("BucketAlreadyOwnedByYou")
            && (r.recheck == HeadFailed || r.recheck.ClientStatus?)
    ensures Settled(Start, r) == CleanupFailed <==> Prepared(r) && r.close == CloseFailed
    ensures Settled(Start, r) == Interrupted <==>
            || r.head == HeadInterrupted
            || (r.head == ClientStatus(404) && r.create == CreateInterrupted)
            || (r.head == ClientStatus(404) && r.create == ClientCode("BucketAlreadyOwnedByYou")
                && r.recheck == HeadInterrupted)
            || (Prepared(r) && r.close == CloseInterrupted)
    ensures Settled(Start, r) != Misconfigured && Settled(Start, r.(configured := false)) == Misconfigured
  {
    SettledPrepared(r);
    if r.head == ClientStatus(404) {
      assert Settled(Start, r) == Settled(AfterCreate(r.create), r);
      if r.create == ClientCode("BucketAlreadyOwnedByYou") {
        assert Settled(Start, r) == Settled(AfterRecheck(r.recheck), r);
      }
    }
  }

  lemma SettledPrepared(r: Replies)
    requires r.configured
    ensures Prepared(r) ==> Settled(Start, r) == Settled(Closing(Ready), r)
    ensures forall result | result != Ready :: Settled(Closing(result), r) == result
    ensures r.head == ClientStatus(404) ==> Settled(Start, r) == Settled(Missing, r)
    ensures r.head == ClientStatus(404) && r.create == ClientCode("BucketAlreadyOwnedByYou") ==>
            Settled(Start, r) == Settled(Contested, r)
  {
    assert Settled(Start, r) == Settled(AfterHead(r.head), r);
    if r.head == ClientStatus(404) {
      assert Settled(Missing, r) == Settled(AfterCreate(r.create), r);
      if r.create == ClientCode("BucketAlreadyOwnedByYou") {
        assert Settled(Contested, r) == Settled(AfterRecheck(r.recheck), r);
      }
    }
  }
}
