/**
 API keys, their permission rows and the resources they own, as a state machine: every handler is one
 atomic step that either refuses or produces the next database.
 */
module Keys {
  import opened Optional

  type KeyId = nat

  datatype Kind = DestinationGroup | SyncTask | VaultEndpoint
  datatype Resource = Resource(kind: Kind, id: nat)

  /** `serial` is the order of insertion. */
  datatype Key = Key(
    isMaster: bool, manageKeys: bool, manageSources: bool, manageVaults: bool,
    parent: Option<KeyId>, serial: nat)

  datatype Grants = Grants(sync: bool, manage: bool, viewLogs: bool)

  /** Permission rows are unique per key and resource. `used` is every resource id ever handed out. */
  datatype Db = Db(
    keys: map<KeyId, Key>,
    rows: map<(KeyId, Resource), Grants>,
    owners: map<Resource, Option<KeyId>>,
    used: set<Resource>,
    nextSerial: nat)

  datatype Op =
    | CreateKey(id: KeyId, wantsKeys: bool, wantsSources: bool, wantsVaults: bool)
    | UpdateKey(id: KeyId, rename: bool, setKeys: Option<bool>, setSources: Option<bool>, setVaults: Option<bool>)
    | DeleteKey(id: KeyId)
    | Grant(id: KeyId, resource: Resource, grants: Grants)
    | Revoke(id: KeyId, resource: Resource)
    | CreateResource(resource: Resource)
    | EditResource(resource: Resource)
    | DeleteResource(resource: Resource, dependents: set<Resource>)

  datatype Answer = Done(db: Db) | Forbidden | NotFound | Conflict

  // ---------------------------------------------------------------- guards

  predicate GuardManageKeys(caller: Key) {
    caller.isMaster || caller.manageKeys
  }

  predicate GuardScopeElevation(caller: Key, keys: bool, sources: bool, vaults: bool) {
    !((keys || sources || vaults) && !caller.isMaster)
  }

  predicate GuardResourceCreation(caller: Key, hasRight: bool) {
    caller.isMaster || hasRight
  }

  predicate GuardResourceManage(caller: Key, row: Option<Grants>) {
    caller.isMaster || (caller.manageKeys && row.Some? && row.value.manage)
  }

  predicate GuardResourceLifecycle(callerId: KeyId, caller: Key, owner: Option<KeyId>) {
    caller.isMaster || owner == Some(callerId)
  }

  predicate GuardDelegatedGrant(caller: Key, row: Option<Grants>, g: Grants) {
    caller.isMaster
    || (&& GuardResourceManage(caller, row)
        && (g.sync ==> row.Some? && row.value.sync)
        && (g.viewLogs ==> row.Some? && row.value.viewLogs)
        && (g.manage ==> row.Some? && row.value.manage))
  }

  predicate GuardRevocation(caller: Key, row: Option<Grants>) {
    GuardResourceManage(caller, row)
  }

  predicate GuardMasterImmutable(targetIsMaster: bool, touchesOtherField: bool) {
    !(targetIsMaster && touchesOtherField)
  }

  predicate CanAdminister(callerId: KeyId, caller: Key, target: Key) {
    caller.isMaster || (caller.manageKeys && target.parent == Some(callerId))
  }

  // ---------------------------------------------------------------- lineage

  /** Every parent is a stored key inserted earlier than its child. */
  predicate Lineage(keys: map<KeyId, Key>) {
    forall k :: k in keys && keys[k].parent.Some? ==>
      keys[k].parent.value in keys && keys[keys[k].parent.value].serial < keys[k].serial
  }

  /** `k` is `root` or one of its descendants. */
  predicate Below(keys: map<KeyId, Key>, root: KeyId, k: KeyId)
    requires Lineage(keys) && k in keys
    decreases keys[k].serial
  {
    k == root || (keys[k].parent.Some? && Below(keys, root, keys[k].parent.value))
  }

  function Subtree(keys: map<KeyId, Key>, root: KeyId): set<KeyId>
    requires Lineage(keys)
  {
    set k | k in keys && Below(keys, root, k)
  }

  predicate Owns(db: Db, ids: set<KeyId>) {
    exists r :: r in db.owners && db.owners[r].Some? && db.owners[r].value in ids
  }

  // ---------------------------------------------------------------- handlers

  function RowOf(db: Db, k: KeyId, r: Resource): Option<Grants> {
    if (k, r) in db.rows then Some(db.rows[(k, r)]) else None
  }

  function Either(o: Option<bool>, d: bool): bool {
    if o.Some? then o.value else d
  }

  function CreationRight(caller: Key, kind: Kind): bool {
    match kind
    case DestinationGroup => caller.manageSources
    case SyncTask => caller.manageVaults
    case VaultEndpoint => caller.manageVaults
  }

  function Handle(db: Db, callerId: KeyId, op: Op): Answer
    requires Lineage(db.keys) && callerId in db.keys
  {
    var caller := db.keys[callerId];
    match op
    case CreateKey(id, k, s, v) =>
      if !GuardManageKeys(caller) || !GuardScopeElevation(caller, k, s, v) then Forbidden
      else if id in db.keys then Conflict
      else Done(db.(keys := db.keys[id := Key(false, k, s, v, Some(callerId), db.nextSerial)],
                    nextSerial := db.nextSerial + 1))
    case UpdateKey(id, rename, k, s, v) =>
      if !GuardManageKeys(caller) then Forbidden
      else if id !in db.keys then NotFound
      else
        var target := db.keys[id];
        if !CanAdminister(callerId, caller, target)
           || !GuardMasterImmutable(target.isMaster, rename || k.Some? || s.Some? || v.Some?)
           || !GuardScopeElevation(caller, Either(k, false), Either(s, false), Either(v, false))
        then Forbidden
        else Done(db.(keys := db.keys[id := target.(manageKeys := Either(k, target.manageKeys),
                                                    manageSources := Either(s, target.manageSources),
                                                    manageVaults := Either(v, target.manageVaults))]))
    case DeleteKey(id) =>
      if !GuardManageKeys(caller) then Forbidden
      else if id !in db.keys then NotFound
      else if db.keys[id].isMaster || !CanAdminister(callerId, caller, db.keys[id]) then Forbidden
      else
        var doomed := Subtree(db.keys, id);
        if Owns(db, doomed) then Conflict
        else Done(db.(keys := db.keys - doomed,
                      rows := map p | p in db.rows && p.0 !in doomed :: db.rows[p]))
    case Grant(id, r, g) =>
      if !GuardManageKeys(caller) then Forbidden
      else if id !in db.keys then NotFound
      else if !GuardDelegatedGrant(caller, RowOf(db, callerId, r), g) then Forbidden
      else Done(db.(rows := db.rows[(id, r) := g]))
    case Revoke(id, r) =>
      if !GuardManageKeys(caller) then Forbidden
      else if (id, r) !in db.rows then NotFound
      else if !GuardRevocation(caller, RowOf(db, callerId, r)) then Forbidden
      else Done(db.(rows := db.rows - {(id, r)}))
    case CreateResource(r) =>
      if !GuardResourceCreation(caller, CreationRight(caller, r.kind)) then Forbidden
      else if r in db.owners then Conflict
      else Done(db.(owners := db.owners[r := Some(callerId)],
                    rows := db.rows[(callerId, r) := Grants(true, true, true)],
                    used := db.used + {r}))
    case EditResource(r) =>
      if r !in db.owners then NotFound
      else if !GuardResourceManage(caller, RowOf(db, callerId, r)) then Forbidden
      else Done(db)
    case DeleteResource(r, dependents) =>
      if r !in db.owners then NotFound
      else if !GuardResourceLifecycle(callerId, caller, db.owners[r]) then Forbidden
      else Done(db.(owners := db.owners - ({r} + dependents)))
  }

  /** New resources get ids never used before; only sync tasks hanging off a deleted vault go with it. */
  predicate Sensible(db: Db, op: Op) {
    match op
    case CreateResource(r) => r !in db.used
    case DeleteResource(r, dependents) =>
      forall d :: d in dependents ==> r.kind.VaultEndpoint? && d.kind.SyncTask?
    case _ => true
  }

  datatype Call = Call(caller: KeyId, op: Op)

  function After(db: Db, c: Call): Db
    requires Lineage(db.keys) && c.caller in db.keys
  {
    var answer := Handle(db, c.caller, c.op);
    if answer.Done? then answer.db else db
  }

  // ---------------------------------------------------------------- the invariant

  /** One Master, the root of every lineage; rows and ownership only name stored keys and used ids. */
  predicate WellKept(db: Db, master: KeyId) {
    && Lineage(db.keys)
    && (forall k :: k in db.keys ==> db.keys[k].serial < db.nextSerial)
    && master in db.keys
    && (forall k :: k in db.keys ==> (db.keys[k].isMaster <==> k == master))
    && (forall k :: k in db.keys ==> (db.keys[k].parent.None? <==> k == master))
    && (forall p :: p in db.rows ==> p.0 in db.keys)
    && (forall r :: r in db.owners && db.owners[r].Some? ==> db.owners[r].value in db.keys)
    && (forall r :: r in db.owners ==> r in db.used)
  }

  predicate Run(db: Db, calls: seq<Call>, db': Db)
    requires Lineage(db.keys)
    decreases |calls|
  {
    if calls == [] then db' == db
    else
      && calls[0].caller in db.keys
      && Sensible(db, calls[0].op)
      && Lineage(After(db, calls[0]).keys)
      && Run(After(db, calls[0]), calls[1..], db')
  }

  /** Any call by a stored key is a run, provided that a new resource gets an id never used before and that
      only sync tasks go with a deleted vault. */
  lemma {:induction false} OneCallRuns(db: Db, master: KeyId, c: Call)
    requires WellKept(db, master) && c.caller in db.keys
    requires c.op.CreateResource? ==> c.op.resource !in db.used
    requires c.op.DeleteResource? ==>
               forall d :: d in c.op.dependents ==> c.op.resource.kind == VaultEndpoint && d.kind == SyncTask
    ensures Run(db, [c], After(db, c))
  {
    StepKeeps(db, master, c);
    assert Run(After(db, c), [c][1..], After(db, c));
  }

  lemma {:induction false} CreateKeeps(db: Db, master: KeyId, c: Call)
    requires WellKept(db, master) && c.caller in db.keys && c.op.CreateKey?
    ensures WellKept(After(db, c), master) && After(db, c).keys[master] == db.keys[master]
  {
  }

  lemma {:induction false} UpdateKeeps(db: Db, master: KeyId, c: Call)
    requires WellKept(db, master) && c.caller in db.keys && c.op.UpdateKey?
    ensures WellKept(After(db, c), master) && After(db, c).keys[master] == db.keys[master]
  {
  }

  /** A subtree is closed under children, so what survives a cascade has all its ancestors. */
  lemma {:induction false} DeleteKeeps(db: Db, master: KeyId, c: Call)
    requires WellKept(db, master) && c.caller in db.keys && c.op.DeleteKey?
    ensures WellKept(After(db, c), master) && After(db, c).keys[master] == db.keys[master]
  {
    if Handle(db, c.caller, c.op).Done? {
      var db', doomed := After(db, c), Subtree(db.keys, c.op.id);
      forall k | k in db'.keys && db'.keys[k].parent.Some?
        ensures db'.keys[k].parent.value in db'.keys
      {
        assert !Below(db.keys, c.op.id, k);
      }
    }
  }

  lemma {:induction false} OtherKeeps(db: Db, master: KeyId, c: Call)
    requires WellKept(db, master) && c.caller in db.keys
    requires c.op.Grant? || c.op.Revoke? || c.op.CreateResource? || c.op.EditResource? || c.op.DeleteResource?
    ensures WellKept(After(db, c), master) && After(db, c).keys[master] == db.keys[master]
  {
  }

  lemma {:induction false} StepKeeps(db: Db, master: KeyId, c: Call)
    requires WellKept(db, master) && c.caller in db.keys
    ensures WellKept(After(db, c), master) && After(db, c).keys[master] == db.keys[master]
  {
    match c.op {
      case CreateKey(_, _, _, _) => CreateKeeps(db, master, c);
      case UpdateKey(_, _, _, _, _) => UpdateKeeps(db, master, c);
      case DeleteKey(_) => DeleteKeeps(db, master, c);
      case _ => OtherKeeps(db, master, c);
    }
  }

  /** In every run from a well-kept database, whoever calls: one Master whose row never changes and which
      is never deleted, an acyclic lineage under it, no orphaned parent, permission row or owner. */
  lemma {:induction false} RunKeeps(db: Db, master: KeyId, calls: seq<Call>, db': Db)
    requires WellKept(db, master) && Run(db, calls, db')
    ensures WellKept(db', master) && db'.keys[master] == db.keys[master]
    decreases |calls|
  {
    if calls != [] {
      StepKeeps(db, master, calls[0]);
      RunKeeps(After(db, calls[0]), master, calls[1..], db');
    }
  }

  /** Every key descends from the Master. */
  lemma {:induction false} AllDescendFromMaster(db: Db, master: KeyId, k: KeyId)
    requires WellKept(db, master) && k in db.keys
    ensures Below(db.keys, master, k)
    decreases db.keys[k].serial
  {
    if k != master {
      AllDescendFromMaster(db, master, db.keys[k].parent.value);
    }
  }

  /** No key is its own proper ancestor. */
  lemma {:induction false} Acyclic(keys: map<KeyId, Key>, k: KeyId, ancestor: KeyId)
    requires Lineage(keys) && k in keys && ancestor in keys && Below(keys, ancestor, k)
    ensures k == ancestor || keys[ancestor].serial < keys[k].serial
    decreases keys[k].serial
  {
    if k != ancestor {
      Acyclic(keys, keys[k].parent.value, ancestor);
    }
  }

  // ---------------------------------------------------------------- confinement of rights

  datatype Verb = Sync | Manage | ViewLogs

  predicate Has(g: Grants, v: Verb) {
    match v
    case Sync => g.sync
    case Manage => g.manage
    case ViewLogs => g.viewLogs
  }

  predicate Holds(db: Db, k: KeyId, r: Resource, v: Verb) {
    (k, r) in db.rows && Has(db.rows[(k, r)], v)
  }

  /** A key other than the Master that could hand the verb on: it manages keys and its own row on the
      resource carries both `manage` and the verb. */
  predicate CanDelegate(db: Db, k: KeyId, r: Resource, v: Verb) {
    && k in db.keys && !db.keys[k].isMaster && db.keys[k].manageKeys
    && Holds(db, k, r, Manage) && Holds(db, k, r, v)
  }

  predicate Undelegable(db: Db, r: Resource, v: Verb) {
    forall k :: k in db.keys ==> !CanDelegate(db, k, r, v)
  }

  predicate MasterIdle(master: KeyId, calls: seq<Call>) {
    forall c :: c in calls ==> c.caller != master
  }

  /** One call by anyone but the Master: nobody gains the verb, and nobody becomes able to delegate it. */
  lemma {:induction false} StepConfines(db: Db, master: KeyId, c: Call, r: Resource, v: Verb)
    requires WellKept(db, master) && c.caller in db.keys && c.caller != master && Sensible(db, c.op)
    requires r in db.used && Undelegable(db, r, v)
    ensures forall k :: Holds(After(db, c), k, r, v) ==> Holds(db, k, r, v)
    ensures Undelegable(After(db, c), r, v)
    ensures r in After(db, c).used
  {
    var db' := After(db, c);
    assert !CanDelegate(db, c.caller, r, v);
    forall k
      ensures Holds(db', k, r, v) ==> Holds(db, k, r, v)
      ensures !CanDelegate(db', k, r, v)
    {
      assert !CanDelegate(db, k, r, v);
    }
  }

  lemma {:induction false} Confinement(db: Db, master: KeyId, calls: seq<Call>, db': Db, r: Resource, v: Verb)
    requires WellKept(db, master) && Run(db, calls, db') && MasterIdle(master, calls)
    requires r in db.used && Undelegable(db, r, v)
    ensures forall k :: Holds(db', k, r, v) ==> Holds(db, k, r, v)
    decreases |calls|
  {
    if calls != [] {
      StepConfines(db, master, calls[0], r, v);
      StepKeeps(db, master, calls[0]);
      var m := After(db, calls[0]);
      assert MasterIdle(master, calls[1..]) by {
        assert forall c :: c in calls[1..] ==> c in calls;
      }
      Confinement(m, master, calls[1..], db', r, v);
    }
  }

  lemma {:induction false} FreshId(ids: set<nat>) returns (n: nat)
    ensures forall i :: i in ids ==> i < n
    decreases |ids|
  {
    if ids == {} {
      n := 0;
    } else {
      var i :| i in ids;
      var m := FreshId(ids - {i});
      n := if i < m then m else i + 1;
      assert forall j :: j in ids ==> j == i || j in ids - {i};
    }
  }

  /** A key that can delegate the verb can bring it to a key that never had it, in two calls. */
  lemma {:induction false} DelegationSpreads(db: Db, master: KeyId, k: KeyId, r: Resource, v: Verb)
    returns (calls: seq<Call>, db': Db, n: KeyId)
    requires WellKept(db, master) && CanDelegate(db, k, r, v)
    ensures Run(db, calls, db') && MasterIdle(master, calls)
    ensures Holds(db', n, r, v) && !Holds(db, n, r, v)
  {
    n := FreshId(db.keys.Keys);
    assert n !in db.keys;
    var create, m := MintKey(db, master, k, n);
    var grant;
    grant, db' := HandOn(m, master, k, r, v, n);
    calls := [create, grant];
    assert calls[1..] == [grant];
  }

  /** The delegate's first call: a new key without any right. */
  lemma {:induction false} MintKey(db: Db, master: KeyId, k: KeyId, n: KeyId) returns (c: Call, m: Db)
    requires WellKept(db, master) && k in db.keys && db.keys[k].manageKeys && n !in db.keys
    ensures c == Call(k, CreateKey(n, false, false, false)) && m == After(db, c)
    ensures WellKept(m, master) && n in m.keys && k in m.keys && m.keys[k] == db.keys[k] && m.rows == db.rows
  {
    c := Call(k, CreateKey(n, false, false, false));
    m := After(db, c);
    StepKeeps(db, master, c);
  }

  /** Its second: the verb alone, on the new key. */
  lemma {:induction false} HandOn(db: Db, master: KeyId, k: KeyId, r: Resource, v: Verb, n: KeyId) returns (c: Call, db': Db)
    requires WellKept(db, master) && CanDelegate(db, k, r, v) && n in db.keys
    ensures c.caller == k && Run(db, [c], db') && Holds(db', n, r, v)
  {
    c := Call(k, Grant(n, r, Grants(v.Sync?, v.Manage?, v.ViewLogs?)));
    db' := After(db, c);
    StepKeeps(db, master, c);
    assert Run(db', [c][1..], db');
  }

  /** Some run without the Master ends with a key holding the verb that did not hold it before. */
  ghost predicate CanSpread(db: Db, master: KeyId, r: Resource, v: Verb)
    requires Lineage(db.keys)
  {
    exists calls: seq<Call>, db': Db :: Run(db, calls, db') && MasterIdle(master, calls) && Gained(db, db', r, v)
  }

  ghost predicate Gained(db: Db, db': Db, r: Resource, v: Verb) {
    exists k :: Holds(db', k, r, v) && !Holds(db, k, r, v)
  }

  /** A verb can spread without the Master exactly when some key can delegate it. */
  lemma {:induction false} SpreadsIffDelegable(db: Db, master: KeyId, r: Resource, v: Verb)
    requires WellKept(db, master) && r in db.used
    ensures CanSpread(db, master, r, v) <==> exists k :: CanDelegate(db, k, r, v)
  {
    if exists k :: CanDelegate(db, k, r, v) {
      var k :| CanDelegate(db, k, r, v);
      var calls, db', n := DelegationSpreads(db, master, k, r, v);
      assert Gained(db, db', r, v);
    } else {
      forall calls: seq<Call>, db': Db | Run(db, calls, db') && MasterIdle(master, calls)
        ensures !Gained(db, db', r, v)
      {
        Confinement(db, master, calls, db', r, v);
      }
    }
  }

  predicate NoMoreFlags(now: Key, before: Option<Key>) {
    && (now.manageKeys ==> before.Some? && before.value.manageKeys)
    && (now.manageSources ==> before.Some? && before.value.manageSources)
    && (now.manageVaults ==> before.Some? && before.value.manageVaults)
    && (now.isMaster ==> before.Some? && before.value.isMaster)
  }

  function KeyAt(db: Db, k: KeyId): Option<Key> {
    if k in db.keys then Some(db.keys[k]) else None
  }

  predicate FlagsWithin(db': Db, db: Db) {
    forall k :: k in db'.keys ==> NoMoreFlags(db'.keys[k], KeyAt(db, k))
  }

  lemma {:induction false} CreateFlags(db: Db, master: KeyId, c: Call, k: KeyId)
    requires WellKept(db, master) && c.caller in db.keys && c.caller != master
    requires k in After(db, c).keys && c.op.CreateKey?
    ensures NoMoreFlags(After(db, c).keys[k], KeyAt(db, k))
  {
  }

  lemma {:induction false} UpdateFlags(db: Db, master: KeyId, c: Call, k: KeyId)
    requires WellKept(db, master) && c.caller in db.keys && c.caller != master
    requires k in After(db, c).keys && c.op.UpdateKey?
    ensures NoMoreFlags(After(db, c).keys[k], KeyAt(db, k))
  {
  }

  lemma {:induction false} OtherFlags(db: Db, master: KeyId, c: Call, k: KeyId)
    requires WellKept(db, master) && c.caller in db.keys && c.caller != master
    requires k in After(db, c).keys && !c.op.CreateKey? && !c.op.UpdateKey?
    ensures NoMoreFlags(After(db, c).keys[k], KeyAt(db, k))
  {
    assert After(db, c).keys[k] == db.keys[k];
  }

  lemma {:induction false} StepFlags(db: Db, master: KeyId, c: Call, k: KeyId)
    requires WellKept(db, master) && c.caller in db.keys && c.caller != master
    requires k in After(db, c).keys
    ensures NoMoreFlags(After(db, c).keys[k], KeyAt(db, k))
  {
    match c.op {
      case CreateKey(_, _, _, _) => CreateFlags(db, master, c, k);
      case UpdateKey(_, _, _, _, _) => UpdateFlags(db, master, c, k);
      case _ => OtherFlags(db, master, c, k);
    }
  }

  /** Without the Master, the keys holding each global flag only ever become fewer. */
  lemma {:induction false} FlagsOnlyShrink(db: Db, master: KeyId, calls: seq<Call>, db': Db)
    requires WellKept(db, master) && Run(db, calls, db') && MasterIdle(master, calls)
    ensures FlagsWithin(db', db)
    decreases |calls|
  {
    if calls != [] {
      var m := After(db, calls[0]);
      assert calls[0] in calls;
      forall k | k in m.keys
        ensures NoMoreFlags(m.keys[k], KeyAt(db, k))
      {
        StepFlags(db, master, calls[0], k);
      }
      StepKeeps(db, master, calls[0]);
      assert MasterIdle(master, calls[1..]) by {
        assert forall c :: c in calls[1..] ==> c in calls;
      }
      FlagsOnlyShrink(m, master, calls[1..], db');
    }
  }

  // ---------------------------------------------------------------- what each call does, and for whom

  /** A deletion goes through exactly for the Master or a key-managing parent of the key, never on the Master
      and never while the key or a descendant owns something; it takes the key, its descendants and their
      permission rows, and nothing else. */
  lemma {:induction false} DeleteKeyMeans(db: Db, c: KeyId, id: KeyId)
    requires Lineage(db.keys) && c in db.keys
    ensures var a := Handle(db, c, DeleteKey(id));
            && (a.Done? <==>
                && id in db.keys && !db.keys[id].isMaster
                && (db.keys[c].isMaster || (db.keys[c].manageKeys && db.keys[id].parent == Some(c)))
                && !SubtreeOwns(db, id))
            && (a.Conflict? <==>
                && id in db.keys && !db.keys[id].isMaster
                && (db.keys[c].isMaster || (db.keys[c].manageKeys && db.keys[id].parent == Some(c)))
                && SubtreeOwns(db, id))
            && (a.NotFound? <==> (db.keys[c].isMaster || db.keys[c].manageKeys) && id !in db.keys)
    ensures var a := Handle(db, c, DeleteKey(id));
            a.Done? ==>
              && (forall k :: k in a.db.keys <==> k in db.keys && !Below(db.keys, id, k))
              && (forall k :: k in a.db.keys ==> a.db.keys[k] == db.keys[k])
              && (forall p :: p in a.db.rows <==> p in db.rows && !(p.0 in db.keys && Below(db.keys, id, p.0)))
              && (forall p :: p in a.db.rows ==> a.db.rows[p] == db.rows[p])
              && a.db.owners == db.owners && a.db.used == db.used
  {
    if id in db.keys {
      assert Owns(db, Subtree(db.keys, id)) <==> SubtreeOwns(db, id);
    }
  }

  /** Something is owned by the key or by a descendant of it. */
  predicate SubtreeOwns(db: Db, id: KeyId)
    requires Lineage(db.keys)
  {
    exists r :: && r in db.owners && db.owners[r].Some? && db.owners[r].value in db.keys
                && Below(db.keys, id, db.owners[r].value)
  }

  /** An update goes through exactly for the Master or a key-managing parent of the key; the Master's own row
      takes nothing but a change of bound addresses, and only the Master turns a flag on. It changes the
      flags it names, and nothing else. */
  lemma {:induction false} UpdateKeyMeans(
    db: Db, c: KeyId, id: KeyId, rename: bool, k: Option<bool>, s: Option<bool>, v: Option<bool>)
    requires Lineage(db.keys) && c in db.keys
    ensures var a := Handle(db, c, UpdateKey(id, rename, k, s, v));
            && (a.Done? <==>
                && id in db.keys
                && (db.keys[c].isMaster || (db.keys[c].manageKeys && db.keys[id].parent == Some(c)))
                && (db.keys[id].isMaster ==> !rename && k == None && s == None && v == None)
                && (Some(true) in {k, s, v} ==> db.keys[c].isMaster))
            && (a.NotFound? <==> (db.keys[c].isMaster || db.keys[c].manageKeys) && id !in db.keys)
            && !a.Conflict?
    ensures var a := Handle(db, c, UpdateKey(id, rename, k, s, v));
            a.Done? ==>
              && a.db == db.(keys := a.db.keys) && a.db.keys.Keys == db.keys.Keys
              && (forall x :: x in db.keys && x != id ==> a.db.keys[x] == db.keys[x])
              && (k == None ==> a.db.keys[id].manageKeys == db.keys[id].manageKeys)
              && (k.Some? ==> a.db.keys[id].manageKeys == k.value)
              && (s == None ==> a.db.keys[id].manageSources == db.keys[id].manageSources)
              && (s.Some? ==> a.db.keys[id].manageSources == s.value)
              && (v == None ==> a.db.keys[id].manageVaults == db.keys[id].manageVaults)
              && (v.Some? ==> a.db.keys[id].manageVaults == v.value)
              && a.db.keys[id].isMaster == db.keys[id].isMaster
              && a.db.keys[id].parent == db.keys[id].parent && a.db.keys[id].serial == db.keys[id].serial
  {
  }

  /** A key is created exactly by the Master or a key-managing key, with flags only by the Master, and is the
      caller's child. */
  lemma {:induction false} CreateKeyMeans(db: Db, c: KeyId, id: KeyId, k: bool, s: bool, v: bool)
    requires Lineage(db.keys) && c in db.keys
    ensures var a := Handle(db, c, CreateKey(id, k, s, v));
            && (a.Done? <==>
                id !in db.keys && (db.keys[c].isMaster || (db.keys[c].manageKeys && !k && !s && !v)))
            && (a.Conflict? <==>
                id in db.keys && (db.keys[c].isMaster || (db.keys[c].manageKeys && !k && !s && !v)))
            && !a.NotFound?
            && (a.Done? ==>
                  && id in a.db.keys && a.db.keys - {id} == db.keys
                  && a.db.rows == db.rows && a.db.owners == db.owners && a.db.used == db.used
                  && !a.db.keys[id].isMaster && a.db.keys[id].parent == Some(c)
                  && a.db.keys[id].manageKeys == k && a.db.keys[id].manageSources == s
                  && a.db.keys[id].manageVaults == v)
  {
    if Handle(db, c, CreateKey(id, k, s, v)).Done? {
      assert db.keys[id := Key(false, k, s, v, Some(c), db.nextSerial)] - {id} == db.keys;
    }
  }

  /** A grant goes through exactly on a stored key, by the Master or by a key-managing key whose own row on
      the resource carries `manage` and every verb it hands on; it sets that one row. */
  lemma {:induction false} GrantMeans(db: Db, c: KeyId, id: KeyId, r: Resource, g: Grants)
    requires Lineage(db.keys) && c in db.keys
    ensures var a := Handle(db, c, Grant(id, r, g));
            && (a.Done? <==>
                && id in db.keys
                && (|| db.keys[c].isMaster
                    || (&& db.keys[c].manageKeys
                        && (c, r) in db.rows && db.rows[(c, r)].manage
                        && (g.sync ==> db.rows[(c, r)].sync)
                        && (g.viewLogs ==> db.rows[(c, r)].viewLogs))))
            && (a.NotFound? <==> (db.keys[c].isMaster || db.keys[c].manageKeys) && id !in db.keys)
            && !a.Conflict?
            && (a.Done? ==>
                  && a.db == db.(rows := a.db.rows)
                  && (id, r) in a.db.rows && a.db.rows[(id, r)] == g
                  && (forall p :: p != (id, r) ==> (p in a.db.rows <==> p in db.rows))
                  && (forall p :: p != (id, r) && p in db.rows ==> a.db.rows[p] == db.rows[p]))
  {
  }

  /** A revocation goes through exactly on a stored row, by the Master or by a key-managing key whose own row
      on the resource carries `manage`; it removes that one row. */
  lemma {:induction false} RevokeMeans(db: Db, c: KeyId, id: KeyId, r: Resource)
    requires Lineage(db.keys) && c in db.keys
    ensures var a := Handle(db, c, Revoke(id, r));
            && (a.Done? <==>
                && (id, r) in db.rows
                && (|| db.keys[c].isMaster
                    || (db.keys[c].manageKeys && (c, r) in db.rows && db.rows[(c, r)].manage)))
            && (a.NotFound? <==> (db.keys[c].isMaster || db.keys[c].manageKeys) && (id, r) !in db.rows)
            && !a.Conflict?
            && (a.Done? ==>
                  && a.db == db.(rows := a.db.rows)
                  && (id, r) !in a.db.rows
                  && (forall p :: p != (id, r) ==> (p in a.db.rows <==> p in db.rows))
                  && (forall p :: p in a.db.rows ==> a.db.rows[p] == db.rows[p]))
  {
  }

  /** A resource is created exactly by the Master or a key with its kind's flag; the creator owns it and holds
      every verb on it. It is deleted exactly by the Master or its owner, with its dependents. */
  lemma {:induction false} ResourceMeans(db: Db, c: KeyId, r: Resource, dependents: set<Resource>)
    requires Lineage(db.keys) && c in db.keys
    ensures var a := Handle(db, c, CreateResource(r));
            && (a.Done? <==>
                && r !in db.owners
                && (|| db.keys[c].isMaster
                    || (r.kind == DestinationGroup && db.keys[c].manageSources)
                    || (r.kind in {SyncTask, VaultEndpoint} && db.keys[c].manageVaults)))
            && (a.Conflict? ==> r in db.owners) && !a.NotFound?
            && (a.Done? ==>
                  && a.db.keys == db.keys
                  && r in a.db.owners && a.db.owners[r] == Some(c) && a.db.owners - {r} == db.owners
                  && (c, r) in a.db.rows && a.db.rows[(c, r)] == Grants(true, true, true)
                  && (forall p :: p != (c, r) ==> (p in a.db.rows <==> p in db.rows))
                  && (forall p :: p != (c, r) && p in db.rows ==> a.db.rows[p] == db.rows[p])
                  && a.db.used == db.used + {r})
    ensures var a := Handle(db, c, DeleteResource(r, dependents));
            && (a.Done? <==> r in db.owners && (db.keys[c].isMaster || db.owners[r] == Some(c)))
            && (a.NotFound? <==> r !in db.owners) && !a.Conflict?
            && (a.Done? ==>
                  && a.db == db.(owners := a.db.owners)
                  && (forall x :: x in a.db.owners <==> x in db.owners && x != r && x !in dependents)
                  && (forall x :: x in a.db.owners ==> a.db.owners[x] == db.owners[x]))
  {
    if r !in db.owners {
      assert db.owners[r := Some(c)] - {r} == db.owners;
    }
  }

  /** The settings of a resource are edited exactly by the Master or by a key that manages keys and holds
      `manage` on that resource; neither right alone is enough. Keys, rows and owners stay as they are. */
  lemma {:induction false} EditMeans(db: Db, c: KeyId, r: Resource)
    requires Lineage(db.keys) && c in db.keys
    ensures var a := Handle(db, c, EditResource(r));
            && (a.Done? <==>
                && r in db.owners
                && (|| db.keys[c].isMaster
                    || (db.keys[c].manageKeys && (c, r) in db.rows && db.rows[(c, r)].manage)))
            && (a.NotFound? <==> r !in db.owners) && !a.Conflict?
            && (a.Done? ==> a.db == db)
  {
  }

  /** Whoever calls whatever: a key goes only by a call of the Master or of an ancestor, through a child of
      the caller above it; a key's fields change only by a call of the Master or of its own parent; and a
      key appears only as a child of the caller. */
  lemma {:induction false} WhoseKeys(db: Db, c: Call, k: KeyId)
    requires Lineage(db.keys) && c.caller in db.keys
    ensures k in db.keys && k !in After(db, c).keys ==>
              || db.keys[c.caller].isMaster
              || exists t :: t in db.keys && db.keys[t].parent == Some(c.caller) && Below(db.keys, t, k)
    ensures k in db.keys && k in After(db, c).keys && After(db, c).keys[k] != db.keys[k] ==>
              db.keys[c.caller].isMaster || db.keys[k].parent == Some(c.caller)
    ensures k !in db.keys && k in After(db, c).keys ==> After(db, c).keys[k].parent == Some(c.caller)
  {
    match c.op {
      case DeleteKey(id) =>
        DeleteKeyMeans(db, c.caller, id);
      case UpdateKey(id, rename, x, s, v) =>
        UpdateKeyMeans(db, c.caller, id, rename, x, s, v);
      case CreateKey(id, x, s, v) =>
        CreateKeyMeans(db, c.caller, id, x, s, v);
        if k in db.keys && k in After(db, c).keys && k != id {
          assert (After(db, c).keys - {id})[k] == After(db, c).keys[k];
        }
      case _ =>
        assert After(db, c).keys == db.keys;
    }
  }

  /** A permission row changes only by a call of the Master, of a key that manages keys and the resource, or
      of its own holder creating the resource; or it goes together with its key. */
  lemma {:induction false} WhoseRows(db: Db, c: Call, k: KeyId, r: Resource)
    requires Lineage(db.keys) && c.caller in db.keys && k in db.keys
    ensures RowOf(After(db, c), k, r) != RowOf(db, k, r) ==>
              || db.keys[c.caller].isMaster
              || (&& db.keys[c.caller].manageKeys
                  && (c.caller, r) in db.rows && db.rows[(c.caller, r)].manage)
              || (k == c.caller && r !in db.owners && r in After(db, c).owners)
              || k !in After(db, c).keys
  {
    match c.op {
      case DeleteKey(id) => DeleteKeyMeans(db, c.caller, id);
      case Grant(id, x, g) => GrantMeans(db, c.caller, id, x, g);
      case Revoke(id, x) => RevokeMeans(db, c.caller, id, x);
      case CreateResource(x) => ResourceMeans(db, c.caller, x, {});
      case _ =>
        assert After(db, c).rows == db.rows;
    }
  }

  /** Ownership never passes on: a resource is owned by its creator until the Master, its owner or the owner
      of the vault it hangs off deletes it. */
  lemma {:induction false} WhoseResources(db: Db, c: Call, r: Resource)
    requires Lineage(db.keys) && c.caller in db.keys && Sensible(db, c.op)
    ensures r in db.owners && r in After(db, c).owners ==> After(db, c).owners[r] == db.owners[r]
    ensures r !in db.owners && r in After(db, c).owners ==> After(db, c).owners[r] == Some(c.caller)
    ensures r in db.owners && r !in After(db, c).owners ==>
              || db.keys[c.caller].isMaster
              || db.owners[r] == Some(c.caller)
              || (r.kind == SyncTask && exists x :: x in db.owners && x.kind == VaultEndpoint && db.owners[x] == Some(c.caller))
  {
    match c.op {
      case CreateResource(x) => ResourceMeans(db, c.caller, x, {});
      case DeleteResource(x, dependents) => ResourceMeans(db, c.caller, x, dependents);
      case _ =>
        assert After(db, c).owners == db.owners;
    }
  }

  // ---------------------------------------------------------------- collecting a subtree

  predicate ParentIn(keys: map<KeyId, Key>, k: KeyId, ids: seq<KeyId>)
    requires k in keys
  {
    keys[k].parent.Some? && keys[k].parent.value in ids
  }

  /** The rows of `table` whose parent is in the frontier, in table order. */
  function ChildrenOf(keys: map<KeyId, Key>, table: seq<KeyId>, frontier: seq<KeyId>): seq<KeyId>
    requires forall k :: k in table ==> k in keys
  {
    if table == [] then []
    else
      var k := table[0];
      (if ParentIn(keys, k, frontier) then [k] else [])
      + ChildrenOf(keys, table[1..], frontier)
  }

  predicate NoRepeats(ids: seq<KeyId>) {
    forall i, j :: 0 <= i < j < |ids| ==> ids[i] != ids[j]
  }

  lemma {:induction false} ChildrenMean(keys: map<KeyId, Key>, table: seq<KeyId>, frontier: seq<KeyId>)
    requires forall k :: k in table ==> k in keys
    requires NoRepeats(table)
    ensures NoRepeats(ChildrenOf(keys, table, frontier))
    ensures forall k :: k in ChildrenOf(keys, table, frontier) <==>
              k in table && ParentIn(keys, k, frontier)
    decreases |table|
  {
    if table != [] {
      assert table == [table[0]] + table[1..];
      assert NoRepeats(table[1..]);
      ChildrenMean(keys, table[1..], frontier);
      assert table[0] !in table[1..];
    }
  }

  /** The breadth-first collection: terminates, and returns the root and every descendant exactly once. */
  method CollectSubtree(keys: map<KeyId, Key>, table: seq<KeyId>, root: KeyId) returns (result: seq<KeyId>)
    requires Lineage(keys) && root in keys
    requires NoRepeats(table) && forall k :: k in table <==> k in keys
    ensures NoRepeats(result)
    ensures forall k :: k in result <==> k in Subtree(keys, root)
  {
    result := [root];
    var frontier := [root];
    while frontier != []
      invariant NoRepeats(result) && root in result
      invariant forall k :: k in frontier ==> k in result
      invariant forall k :: k in result ==> k in keys && Below(keys, root, k)
      invariant forall k :: k in result && k != root ==> ParentIn(keys, k, result) && !ParentIn(keys, k, frontier)
      invariant forall k :: k in keys && ParentIn(keys, k, result) && !ParentIn(keys, k, frontier) ==> k in result
      decreases |keys| - |result|, |frontier|
    {
      var children := ChildrenOf(keys, table, frontier);
      ChildrenMean(keys, table, frontier);
      RootHasNoParentBelow(keys, root);
      NoRepeatsAppend(result, children);
      frontier := children;
      result := result + children;
      NoMoreThanKeys(keys, result);
    }
    forall k | k in Subtree(keys, root)
      ensures k in result
    {
      ClosedHoldsSubtree(keys, root, k, result);
    }
  }

  lemma {:induction false} NoRepeatsAppend(p: seq<KeyId>, q: seq<KeyId>)
    requires NoRepeats(p) && NoRepeats(q) && forall k :: k in q ==> k !in p
    ensures NoRepeats(p + q)
  {
    forall i, j | 0 <= i < j < |p + q|
      ensures (p + q)[i] != (p + q)[j]
    {
      if i < |p| <= j {
        assert p[i] in p && q[j - |p|] in q;
      }
    }
  }

  lemma {:induction false} RootHasNoParentBelow(keys: map<KeyId, Key>, root: KeyId)
    requires Lineage(keys) && root in keys
    ensures keys[root].parent.Some? ==> !Below(keys, root, keys[root].parent.value)
  {
    if keys[root].parent.Some? && Below(keys, root, keys[root].parent.value) {
      Acyclic(keys, keys[root].parent.value, root);
    }
  }

  lemma {:induction false} NoMoreThanKeys(keys: map<KeyId, Key>, ids: seq<KeyId>)
    requires NoRepeats(ids) && forall k :: k in ids ==> k in keys
    ensures |ids| <= |keys|
    decreases |ids|
  {
    if ids != [] {
      var last := ids[|ids| - 1];
      var rest := ids[..|ids| - 1];
      assert forall k :: k in rest ==> k in keys - {last};
      NoMoreThanKeys(keys - {last}, rest);
      assert |keys| == |keys - {last}| + 1 by {
        assert keys.Keys == (keys - {last}).Keys + {last};
      }
    }
  }

  lemma {:induction false} ClosedHoldsSubtree(keys: map<KeyId, Key>, root: KeyId, k: KeyId, ids: seq<KeyId>)
    requires Lineage(keys) && k in keys && Below(keys, root, k) && root in ids
    requires forall c :: c in keys && ParentIn(keys, c, ids) ==> c in ids
    ensures k in ids
    decreases keys[k].serial
  {
    if k != root {
      ClosedHoldsSubtree(keys, root, keys[k].parent.value, ids);
    }
  }
}
