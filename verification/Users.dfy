/** The last-admin guard. */
module Users {
  // revoke_user (service/users.py) under row locks, over every interleaving, and as one
  // uninterrupted call.

  import opened Common

  type UserId = nat
  type KeyId = nat
  type TxId = nat

  datatype Role = Read | Write | Admin

  datatype User = User(email: string, role: Role, revoked: bool)

  datatype Key = Key(owner: Option<UserId>, revoked: bool)

  type Accounts = map<UserId, User>

  predicate ActiveAdmin(users: Accounts, id: UserId) {
    id in users && users[id].role.Admin? && !users[id].revoked
  }

  function ActiveAdmins(users: Accounts): set<UserId> {
    set id | id in users && ActiveAdmin(users, id)
  }

  predicate EmailTaken(users: Accounts, email: string) {
    exists id :: id in users && users[id].email == email
  }

  function Revoked(users: Accounts, id: UserId): Accounts {
    if id in users then users[id := users[id].(revoked := true)] else users
  }

  /** The statements of revoke_user, in order. Begun: nothing read. Read: the
      target was an active admin. Locking: the FOR UPDATE scan is under way.
      Cleared: the guard passed. Written: the user row is updated, uncommitted. */
  datatype Stage = Begun | ReadAdmin | Locking | Cleared | Written

  /** `todo` are the scan's rows not yet reached, `seen` the rows it returned. */
  datatype Tx = Tx(target: UserId, stage: Stage, todo: set<UserId>, seen: set<UserId>, locked: set<UserId>)

  datatype State = State(users: Accounts, txs: map<TxId, Tx>)

  datatype Label =
    | Create(id: UserId, email: string, role: Role)
    | Begin(t: TxId, target: UserId)
    | ReadTarget(t: TxId)
    | Scan(t: TxId)
    | LockRow(t: TxId, id: UserId)
    | Count(t: TxId)
    | Update(t: TxId)
    | Commit(t: TxId)
    | Abort(t: TxId)

  predicate FreeFor(s: State, t: TxId, id: UserId) {
    forall u | u in s.txs && u != t :: id !in s.txs[u].locked
  }

  predicate Enabled(s: State, l: Label) {
    match l
    case Create(id, email, _) => id !in s.users && !EmailTaken(s.users, email)
    case Begin(t, _) => t !in s.txs
    case ReadTarget(t) => t in s.txs && s.txs[t].stage.Begun?
    case Scan(t) => t in s.txs && s.txs[t].stage.ReadAdmin?
    case LockRow(t, id) => t in s.txs && s.txs[t].stage.Locking? && id in s.txs[t].todo && FreeFor(s, t, id)
    case Count(t) => t in s.txs && s.txs[t].stage.Locking? && s.txs[t].todo == {}
    case Update(t) => t in s.txs && s.txs[t].stage.Cleared? && FreeFor(s, t, s.txs[t].target)
    case Commit(t) => t in s.txs && s.txs[t].stage.Written?
    case Abort(t) => t in s.txs
  }

  function Do(s: State, l: Label): State
    requires Enabled(s, l)
  {
    match l
    case Create(id, email, role) => s.(users := s.users[id := User(email, role, false)])
    case Begin(t, target) => s.(txs := s.txs[t := Tx(target, Begun, {}, {}, {})])
    case ReadTarget(t) =>
      // An unlocked read: the target may be revoked by someone else right after.
      var tx := s.txs[t];
      if tx.target !in s.users || s.users[tx.target].revoked then s.(txs := s.txs - {t})
      else s.(txs := s.txs[t := tx.(stage := if s.users[tx.target].role.Admin? then ReadAdmin else Cleared)])
    case Scan(t) =>
      s.(txs := s.txs[t := s.txs[t].(stage := Locking, todo := ActiveAdmins(s.users))])
    case LockRow(t, id) =>
      // The lock may have been waited for: the predicate is evaluated again on the newest version.
      var tx := s.txs[t];
      var seen := if ActiveAdmin(s.users, id) then tx.seen + {id} else tx.seen;
      s.(txs := s.txs[t := tx.(todo := tx.todo - {id}, locked := tx.locked + {id}, seen := seen)])
    case Count(t) =>
      var tx := s.txs[t];
      if tx.seen - {tx.target} == {} then s.(txs := s.txs - {t}) else s.(txs := s.txs[t := tx.(stage := Cleared)])
    case Update(t) =>
      var tx := s.txs[t];
      s.(txs := s.txs[t := tx.(stage := Written, locked := tx.locked + {tx.target})])
    case Commit(t) =>
      s.(users := Revoked(s.users, s.txs[t].target), txs := s.txs - {t})
    case Abort(t) => s.(txs := s.txs - {t})
  }

  predicate Behaviour(s: State, labels: seq<Label>)
    decreases |labels|
  {
    labels == [] || (Enabled(s, labels[0]) && Behaviour(Do(s, labels[0]), labels[1..]))
  }

  function Final(s: State, labels: seq<Label>): State
    requires Behaviour(s, labels)
    decreases |labels|
  {
    if labels == [] then s else Final(Do(s, labels[0]), labels[1..])
  }

  // ----- The invariant -----

  predicate TxOk(users: Accounts, tx: Tx) {
    && tx.seen <= tx.locked
    && (forall id | id in tx.seen :: ActiveAdmin(users, id))
    && (!tx.stage.Begun? ==> tx.target in users)
    && (tx.stage.Cleared? || tx.stage.Written? ==>
          users[tx.target].role.Admin? ==> exists id :: id in tx.seen && id != tx.target)
    && (tx.stage.Written? ==> tx.target in tx.locked)
  }

  predicate Inv(s: State) {
    && (forall t, u | t in s.txs && u in s.txs && t != u :: s.txs[t].locked !! s.txs[u].locked)
    && (forall t | t in s.txs :: TxOk(s.users, s.txs[t]))
  }

  lemma {:induction false} StepKeepsInv(s: State, l: Label)
    requires Inv(s) && Enabled(s, l)
    ensures Inv(Do(s, l))
  {
    var s' := Do(s, l);
    forall t | t in s'.txs ensures TxOk(s'.users, s'.txs[t]) {
      if t in s.txs { assert TxOk(s.users, s.txs[t]); }
      if l.Commit? {
        assert TxOk(s.users, s.txs[l.t]);
        assert s.txs[l.t].target !in s.txs[t].locked;
      }
    }
  }

  /** The guard as it stands at the moment of the commit: whoever else committed
      since the count, another active admin is still there. */
  lemma {:induction false} GuardHoldsAtCommit(s: State, t: TxId)
    requires Inv(s) && Enabled(s, Commit(t))
    ensures ActiveAdmin(s.users, s.txs[t].target) ==> |ActiveAdmins(s.users)| >= 2
    ensures ActiveAdmins(Do(s, Commit(t)).users) == ActiveAdmins(s.users) - {s.txs[t].target}
  {
    var tx := s.txs[t];
    assert TxOk(s.users, tx);
    if ActiveAdmin(s.users, tx.target) {
      var other :| other in tx.seen && other != tx.target;
      SubsetIsNoLarger({other, tx.target}, ActiveAdmins(s.users));
    }
  }

  lemma {:induction false} StepKeepsAnAdmin(s: State, l: Label)
    requires Inv(s) && Enabled(s, l) && ActiveAdmins(s.users) != {}
    ensures ActiveAdmins(Do(s, l).users) != {}
  {
    var a :| a in ActiveAdmins(s.users);
    match l
    case Commit(t) =>
      GuardHoldsAtCommit(s, t);
      var tx := s.txs[t];
      assert TxOk(s.users, tx);
      if a == tx.target {
        var other :| other in tx.seen && other != tx.target;
        assert other in ActiveAdmins(Do(s, l).users);
      } else {
        assert a in ActiveAdmins(Do(s, l).users);
      }
    case _ => assert a in ActiveAdmins(Do(s, l).users);
  }

  lemma {:induction false} BehaviourKeepsAnAdmin(s: State, labels: seq<Label>)
    requires Inv(s) && Behaviour(s, labels) && ActiveAdmins(s.users) != {}
    ensures ActiveAdmins(Final(s, labels).users) != {}
    decreases |labels|
  {
    if labels != [] {
      StepKeepsInv(s, labels[0]);
      StepKeepsAnAdmin(s, labels[0]);
      BehaviourKeepsAnAdmin(Do(s, labels[0]), labels[1..]);
    }
  }

  lemma {:induction false} BehaviourKeepsInv(s: State, labels: seq<Label>)
    requires Inv(s) && Behaviour(s, labels)
    ensures Inv(Final(s, labels))
    decreases |labels|
  {
    if labels != [] {
      StepKeepsInv(s, labels[0]);
      BehaviourKeepsInv(Do(s, labels[0]), labels[1..]);
    }
  }

  lemma {:induction false} BehaviourSplits(s: State, a: seq<Label>, b: seq<Label>)
    requires Behaviour(s, a + b)
    ensures Behaviour(s, a) && Behaviour(Final(s, a), b)
    ensures Final(s, a + b) == Final(Final(s, a), b)
    decreases |a|
  {
    if a == [] {
      assert a + b == b;
    } else {
      assert (a + b)[1..] == a[1..] + b;
      BehaviourSplits(Do(s, a[0]), a[1..], b);
    }
  }

  /** Over every interleaving of concurrent revokes and creations from an idle
      database: once there is an active admin, there always is one. */
  lemma {:induction false} OnceAnAdminAlwaysAnAdmin(users: Accounts, before: seq<Label>, after: seq<Label>)
    requires Behaviour(State(users, map[]), before + after)
    requires Behaviour(State(users, map[]), before)
    requires ActiveAdmins(Final(State(users, map[]), before).users) != {}
    ensures ActiveAdmins(Final(State(users, map[]), before + after).users) != {}
  {
    var s := State(users, map[]);
    BehaviourSplits(s, before, after);
    BehaviourKeepsInv(s, before);
    BehaviourKeepsAnAdmin(Final(s, before), after);
  }

  // ----- Revoking alone -----

  /** What an uninterrupted revoke leaves. */
  function RevokeOutcome(users: Accounts, id: UserId): Accounts {
    if id !in users || users[id].revoked || ActiveAdmins(users) == {id} then users
    else users[id := users[id].(revoked := true)]
  }

  lemma {:induction false} BehaviourConcat(s: State, a: seq<Label>, b: seq<Label>)
    requires Behaviour(s, a) && Behaviour(Final(s, a), b)
    ensures Behaviour(s, a + b) && Final(s, a + b) == Final(Final(s, a), b)
    decreases |a|
  {
    if a == [] {
      assert a + b == b;
    } else {
      BehaviourConcat(Do(s, a[0]), a[1..], b);
      assert (a + b)[1..] == a[1..] + b;
    }
  }

  lemma {:induction false} StepThen(s: State, l: Label, rest: seq<Label>)
    requires Enabled(s, l) && Behaviour(Do(s, l), rest)
    ensures Behaviour(s, [l] + rest) && Final(s, [l] + rest) == Final(Do(s, l), rest)
  {
    assert ([l] + rest)[1..] == rest;
  }

  /** Alone, the FOR UPDATE scan gets and sees every active admin row. */
  lemma {:induction false} LocksAllAlone(s: State, t: TxId) returns (labels: seq<Label>)
    requires s.txs.Keys == {t} && s.txs[t].stage.Locking? && s.txs[t].todo <= ActiveAdmins(s.users)
    ensures Behaviour(s, labels)
    ensures var s' := Final(s, labels);
      && s'.users == s.users && s'.txs.Keys == {t} && s'.txs[t].stage.Locking?
      && s'.txs[t].target == s.txs[t].target && s'.txs[t].todo == {} && s'.txs[t].seen == s.txs[t].seen + s.txs[t].todo
    decreases |s.txs[t].todo|
  {
    labels := [];
    if s.txs[t].todo != {} {
      var id :| id in s.txs[t].todo;
      var l := LockRow(t, id);
      var s' := Do(s, l);
      var rest := LocksAllAlone(s', t);
      StepThen(s, l, rest);
      labels := [l] + rest;
      assert s'.txs[t].seen + s'.txs[t].todo == s.txs[t].seen + s.txs[t].todo;
    }
  }

  /** From a passed guard on: update and commit. */
  lemma {:induction false} UpdatesAlone(s: State, t: TxId) returns (labels: seq<Label>)
    requires s.txs.Keys == {t} && s.txs[t].stage.Cleared?
    ensures Behaviour(s, labels) && Final(s, labels) == State(Revoked(s.users, s.txs[t].target), map[])
  {
    var s1 := Do(s, Update(t));
    var s2 := Do(s1, Commit(t));
    assert s1.txs - {t} == map[];
    StepThen(s1, Commit(t), []);
    StepThen(s, Update(t), [Commit(t)] + []);
    labels := [Update(t)] + ([Commit(t)] + []);
  }

  /** From the scan on: refused for the last active admin, else carried out. */
  lemma {:induction false} GuardAlone(s: State, t: TxId) returns (labels: seq<Label>)
    requires s.txs.Keys == {t} && s.txs[t].stage.ReadAdmin? && s.txs[t].seen == {} && ActiveAdmin(s.users, s.txs[t].target)
    ensures Behaviour(s, labels) && Final(s, labels) == State(RevokeOutcome(s.users, s.txs[t].target), map[])
  {
    var target := s.txs[t].target;
    var s1 := Do(s, Scan(t));
    var locks := LocksAllAlone(s1, t);
    var s2 := Final(s1, locks);
    var s3 := Do(s2, Count(t));
    var rest: seq<Label> := [];
    assert s2.txs[t].seen == ActiveAdmins(s.users) && target in ActiveAdmins(s.users);
    if ActiveAdmins(s.users) - {target} == {} {
      assert ActiveAdmins(s.users) == {target};
      assert s3.txs == map[];
    } else {
      assert ActiveAdmins(s.users) != {target};
      rest := UpdatesAlone(s3, t);
    }
    StepThen(s2, Count(t), rest);
    BehaviourConcat(s1, locks, [Count(t)] + rest);
    StepThen(s, Scan(t), locks + ([Count(t)] + rest));
    labels := [Scan(t)] + (locks + ([Count(t)] + rest));
  }

  /** With no other transaction open, the statements of a revoke do what the
      uninterrupted call does, refusals included. */
  lemma {:induction false} RevokeAlone(s: State, t: TxId, id: UserId) returns (labels: seq<Label>)
    requires s.txs == map[]
    ensures Behaviour(s, labels) && Final(s, labels) == State(RevokeOutcome(s.users, id), map[])
  {
    var s1 := Do(s, Begin(t, id));
    var s2 := Do(s1, ReadTarget(t));
    var rest: seq<Label> := [];
    if id !in s.users || s.users[id].revoked {
      assert s2.txs == map[];
    } else if s.users[id].role.Admin? {
      rest := GuardAlone(s2, t);
    } else {
      assert id !in ActiveAdmins(s.users);
      rest := UpdatesAlone(s2, t);
    }
    StepThen(s1, ReadTarget(t), rest);
    StepThen(s, Begin(t, id), [ReadTarget(t)] + rest);
    labels := [Begin(t, id)] + ([ReadTarget(t)] + rest);
  }

  // ----- The race the locks are for -----

  /** Two transactions in the middle of their scans, nothing locked yet. */
  function BothScanning(users: Accounts, a: UserId, b: UserId): State {
    State(users, map[0 := Tx(a, Locking, {a, b}, {}, {}), 1 := Tx(b, Locking, {a, b}, {}, {})])
  }

  lemma {:induction false} BothScan(users: Accounts, a: UserId, b: UserId) returns (labels: seq<Label>)
    requires a != b && ActiveAdmins(users) == {a, b}
    ensures Behaviour(State(users, map[]), labels) && Final(State(users, map[]), labels) == BothScanning(users, a, b)
  {
    assert a in ActiveAdmins(users) && b in ActiveAdmins(users);
    var s := State(users, map[]);
    var s1 := Do(s, Begin(0, a));
    var s2 := Do(s1, Begin(1, b));
    var s3 := Do(s2, ReadTarget(0));
    var s4 := Do(s3, ReadTarget(1));
    var s5 := Do(s4, Scan(0));
    assert Do(s5, Scan(1)).txs == BothScanning(users, a, b).txs;
    StepThen(s5, Scan(1), []);
    StepThen(s4, Scan(0), [Scan(1)] + []);
    StepThen(s3, ReadTarget(1), [Scan(0)] + ([Scan(1)] + []));
    StepThen(s2, ReadTarget(0), [ReadTarget(1)] + ([Scan(0)] + ([Scan(1)] + [])));
    StepThen(s1, Begin(1, b), [ReadTarget(0)] + ([ReadTarget(1)] + ([Scan(0)] + ([Scan(1)] + []))));
    labels := [Begin(1, b)] + ([ReadTarget(0)] + ([ReadTarget(1)] + ([Scan(0)] + ([Scan(1)] + []))));
    StepThen(s, Begin(0, a), labels);
    labels := [Begin(0, a)] + labels;
  }

  lemma {:induction false} FirstGoesThrough(users: Accounts, a: UserId, b: UserId) returns (labels: seq<Label>)
    requires a != b && ActiveAdmins(users) == {a, b}
    ensures Behaviour(BothScanning(users, a, b), labels)
    ensures Final(BothScanning(users, a, b), labels) == State(Revoked(users, a), map[1 := Tx(b, Locking, {a, b}, {}, {})])
  {
    assert a in ActiveAdmins(users) && b in ActiveAdmins(users);
    var s := BothScanning(users, a, b);
    var s1 := Do(s, LockRow(0, a));
    var s2 := Do(s1, LockRow(0, b));
    assert s2.txs[0] == Tx(a, Locking, {}, {a, b}, {a, b});
    assert b in s2.txs[0].seen - {a};
    var s3 := Do(s2, Count(0));
    var s4 := Do(s3, Update(0));
    assert Do(s4, Commit(0)).txs == map[1 := Tx(b, Locking, {a, b}, {}, {})];
    StepThen(s4, Commit(0), []);
    StepThen(s3, Update(0), [Commit(0)] + []);
    StepThen(s2, Count(0), [Update(0)] + ([Commit(0)] + []));
    StepThen(s1, LockRow(0, b), [Count(0)] + ([Update(0)] + ([Commit(0)] + [])));
    labels := [LockRow(0, b)] + ([Count(0)] + ([Update(0)] + ([Commit(0)] + [])));
    StepThen(s, LockRow(0, a), labels);
    labels := [LockRow(0, a)] + labels;
  }

  lemma {:induction false} SecondIsRefused(users: Accounts, a: UserId, b: UserId) returns (labels: seq<Label>)
    requires a != b && ActiveAdmins(users) == {b}
    ensures var s := State(users, map[1 := Tx(b, Locking, {a, b}, {}, {})]);
      Behaviour(s, labels) && Final(s, labels) == State(users, map[])
  {
    assert a !in ActiveAdmins(users) && b in ActiveAdmins(users);
    var s := State(users, map[1 := Tx(b, Locking, {a, b}, {}, {})]);
    var s1 := Do(s, LockRow(1, a));
    var s2 := Do(s1, LockRow(1, b));
    assert s2.txs[1] == Tx(b, Locking, {}, {b}, {a, b});
    assert Do(s2, Count(1)).txs == map[];
    StepThen(s2, Count(1), []);
    StepThen(s1, LockRow(1, b), [Count(1)] + []);
    StepThen(s, LockRow(1, a), [LockRow(1, b)] + ([Count(1)] + []));
    labels := [LockRow(1, a)] + ([LockRow(1, b)] + ([Count(1)] + []));
  }

  /** A transaction that ends lets go of all its rows; aborted, it revokes no one. */
  lemma {:induction false} EndReleases(s: State, t: TxId, other: TxId, id: UserId)
    requires t in s.txs && t != other
    ensures var after := Do(s, Abort(t));
      && after.users == s.users
      && (FreeFor(after, other, id) <==> forall u | u in s.txs && u != t && u != other :: id !in s.txs[u].locked)
    ensures Enabled(s, Commit(t)) ==> (FreeFor(Do(s, Commit(t)), other, id) <==> FreeFor(Do(s, Abort(t)), other, id))
  {
    var after := Do(s, Abort(t));
    forall u ensures u in after.txs <==> u in s.txs && u != t {}
    forall u | u in after.txs ensures after.txs[u] == s.txs[u] {}
  }

  /** The last two admins revoked at once, each call having scanned both rows before
      either locks one: the one that waits evaluates the row again, counts no other
      admin and is refused. */
  lemma {:induction false} RaceIsRefused(users: Accounts, a: UserId, b: UserId) returns (labels: seq<Label>)
    requires a != b && ActiveAdmins(users) == {a, b}
    ensures Behaviour(State(users, map[]), labels)
    ensures Final(State(users, map[]), labels) == State(users[a := users[a].(revoked := true)], map[])
  {
    assert a in ActiveAdmins(users) && b in ActiveAdmins(users);
    var scans := BothScan(users, a, b);
    var first := FirstGoesThrough(users, a, b);
    assert ActiveAdmins(Revoked(users, a)) == ActiveAdmins(users) - {a};
    assert {a, b} - {a} == {b};
    var second := SecondIsRefused(Revoked(users, a), a, b);
    BehaviourConcat(BothScanning(users, a, b), first, second);
    BehaviourConcat(State(users, map[]), scans, first + second);
    labels := scans + (first + second);
  }

  // ----- One uninterrupted call -----

  class Team {
    var users: Accounts
    var keys: map<KeyId, Key>

    constructor ()
      ensures users == map[] && keys == map[]
    {
      users, keys := map[], map[];
    }

    /** The serial id and the UNIQUE email constraint of app_user. */
    method CreateUser(id: UserId, email: string, role: Role) returns (res: Result<User, ServiceError>)
      requires id !in users
      modifies this`users
      ensures res.Err? <==> exists u :: u in old(users) && old(users)[u].email == email
      ensures res.Err? ==> res.error == Conflict && users == old(users)
      ensures res.Ok? ==> users == old(users)[id := User(email, role, false)] && res.value == users[id]
      ensures res.Ok? <==> Enabled(State(old(users), map[]), Create(id, email, role))
      ensures res.Ok? ==> Do(State(old(users), map[]), Create(id, email, role)).users == users
    {
      if exists u :: u in users && users[u].email == email { return Err(Conflict); }
      users := users[id := User(email, role, false)];
      return Ok(users[id]);
    }

    /** Refuses an unknown or revoked user, refuses the last active admin, and
        otherwise revokes the user together with exactly that user's live keys. */
    method RevokeUser(id: UserId) returns (res: Result<(), ServiceError>)
      modifies this
      ensures res == Err(NotFound) <==> id !in old(users) || old(users)[id].revoked
      ensures res == Err(Conflict) <==> ActiveAdmins(old(users)) == {id}
      ensures res.Err? ==> users == old(users) && keys == old(keys) && (res.error == NotFound || res.error == Conflict)
      ensures res.Ok? ==>
        && id in old(users) && users == old(users)[id := old(users)[id].(revoked := true)]
        && keys.Keys == old(keys).Keys
        && (forall k | k in keys :: keys[k].owner == old(keys)[k].owner)
        && (forall k | k in keys :: keys[k].revoked <==> old(keys)[k].revoked || keys[k].owner == Some(id))
      ensures users == RevokeOutcome(old(users), id)
      ensures ActiveAdmins(old(users)) != {} ==> ActiveAdmins(users) != {}
    {
      if id !in users || users[id].revoked {
        assert id !in ActiveAdmins(users);
        return Err(NotFound);
      }
      if users[id].role.Admin? {
        var adminRows := ActiveAdmins(users);
        assert id in adminRows;
        if adminRows - {id} == {} {
          assert adminRows == {id};
          return Err(Conflict);
        }
      }
      ghost var someone := if ActiveAdmins(users) - {id} != {} then (var a :| a in ActiveAdmins(users) - {id}; a) else id;
      assert ActiveAdmins(users) != {id};
      users := users[id := users[id].(revoked := true)];
      keys := map k | k in keys ::
        if keys[k].owner == Some(id) && !keys[k].revoked then keys[k].(revoked := true) else keys[k];
      assert ActiveAdmins(old(users)) != {} ==> someone in ActiveAdmins(users);
      return Ok(());
    }
  }
}
