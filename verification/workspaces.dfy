/** `DistributedWorkspaceManager`: workspace records kept as hashes at
    `workspaces:{id}:keys`, an operation log at `operations:{id}` with its id queue, and
    lock-guarded create and delete. Commands follow Redis semantics where FakeValkey lacks
    them (SET NX, EVAL, glob KEYS). */
module Workspaces {
  import opened Results
  import opened Seqs
  import opened Text
  import opened Valkey
  import opened Locks
  import Glob

  /** Operation record TTL in seconds (`operation_timeout`), recorded but not modelled. */
  const OperationTtl: nat := 30
  const OperationQueue: string := "workspace_operations_queue"
  const ListLock: string := "workspace_list_operation"
  const WorkspacePattern: string := "workspaces:*:keys"
  const NotDurable: string := "Workspace data not found after storage"

  /** A `WorkspaceOperation`; an absent `error` is the empty string. */
  datatype Operation = Operation(
    id: string,
    kind: string,
    workspaceId: string,
    data: Hash,
    timestamp: string,
    status: string,
    error: string)

  function WorkspaceKey(workspaceId: string): string {
    "workspaces:" + workspaceId + ":keys"
  }

  function OperationKey(operationId: string): string {
    "operations:" + operationId
  }

  function CreateLock(workspaceId: string): string {
    "workspace_create:" + workspaceId
  }

  function DeleteLock(workspaceId: string): string {
    "workspace_delete:" + workspaceId
  }

  /** The record a reply is given: the stored fields, decoded, with `id` set (overriding any
      stored `id` field). */
  function WithId(fields: Hash, workspaceId: string): (r: Hash)
    ensures r.Keys == fields.Keys + {"id"}
    ensures r["id"] == Str(workspaceId)
    ensures forall f :: f in fields && f != "id" ==> r[f] == fields[f]
  {
    fields["id" := Str(workspaceId)]
  }

  function Decoded(st: Store, key: string, workspaceId: string): Hash {
    WithId(DecodeMap(HGetAll(st, key)), workspaceId)
  }

  // ---------------------------------------------------------------- key shapes

  lemma WorkspaceKeyIsNotOperationKey(w: string, o: string)
    ensures WorkspaceKey(w) != OperationKey(o)
  {
    assert WorkspaceKey(w)[0] == 'w';
    assert OperationKey(o)[0] == 'o';
  }

  lemma WorkspaceKeyIsNotLockKey(w: string, resource: string)
    ensures WorkspaceKey(w) != LockKey(resource)
  {
    assert WorkspaceKey(w)[0] == 'w';
    assert LockKey(resource)[0] == 'l';
  }

  lemma OperationKeyIsNotLockKey(o: string, resource: string)
    ensures OperationKey(o) != LockKey(resource)
  {
    assert OperationKey(o)[0] == 'o';
    assert LockKey(resource)[0] == 'l';
  }

  lemma WorkspaceKeyInjective(w1: string, w2: string)
    requires WorkspaceKey(w1) == WorkspaceKey(w2)
    ensures w1 == w2
  {
    var k := WorkspaceKey(w1);
    assert w1 == k[11..|k| - 5];
    assert w2 == k[11..|k| - 5];
  }

  /** The keys the listing pattern matches are exactly the workspace keys. */
  lemma MatchesPatternIffWorkspaceKey(k: string)
    ensures Glob.Match(WorkspacePattern, k) <==> k == WorkspaceKey(KeyId(k))
  {
    assert WorkspacePattern == "workspaces:" + "*" + ":keys";
    Glob.MatchPrefixSuffixPattern("workspaces:", ":keys", k);
    if Glob.Match(WorkspacePattern, k) {
      assert k == "workspaces:" + k[11..|k| - 5] + ":keys";
    }
  }

  // ---------------------------------------------------------------- workspace id of a key

  /** The id the listing code derives from a key: the second `:`-separated part when there
      are at least three parts, otherwise the whole key. */
  function SplitId(key: string): string {
    var parts := Split(key, ':');
    if |parts| >= 3 then parts[1] else key
  }

  /** For ids without `:`, the split-based derivation recovers the id. */
  lemma SplitIdOfPlainId(w: string)
    requires ':' !in w
    ensures SplitId(WorkspaceKey(w)) == w
  {
    assert "workspaces" + [':'] + (w + [':'] + "keys") == WorkspaceKey(w);
    SplitAfterPiece("workspaces", ':', w + [':'] + "keys");
    SplitAfterPiece(w, ':', "keys");
    SplitWithout("keys", ':');
  }

  /** The split-based derivation truncates an id that contains `:`. */
  lemma SplitIdTruncatesColonId()
    ensures SplitId(WorkspaceKey("team:a")) == "team"
    ensures KeyId(WorkspaceKey("team:a")) == "team:a"
  {
    assert "workspaces" + [':'] + ("team" + [':'] + ("a" + [':'] + "keys")) == WorkspaceKey("team:a");
    SplitAfterPiece("workspaces", ':', "team" + [':'] + ("a" + [':'] + "keys"));
    SplitAfterPiece("team", ':', "a" + [':'] + "keys");
    SplitAfterPiece("a", ':', "keys");
    SplitWithout("keys", ':');
    KeyIdOfWorkspaceKey("team:a");
  }

  /** The id of a key: the text between `workspaces:` and `:keys` for a workspace key, the
      split-based derivation for any other key. */
  function KeyId(key: string): string {
    if |key| >= 16 && IsPrefix("workspaces:", key) && IsSuffix(":keys", key) then key[11..|key| - 5]
    else SplitId(key)
  }

  /** Every workspace id, `:` or not, is recovered from its key. */
  lemma KeyIdOfWorkspaceKey(w: string)
    ensures KeyId(WorkspaceKey(w)) == w
  {
    var k := WorkspaceKey(w);
    assert k[..11] == "workspaces:";
    assert k[|k| - 5..] == ":keys";
    assert k[11..|k| - 5] == w;
  }

  /** On ids without `:` the corrected derivation and the split-based one agree. */
  lemma KeyIdAgreesOnPlainIds(w: string)
    requires ':' !in w
    ensures KeyId(WorkspaceKey(w)) == SplitId(WorkspaceKey(w))
  {
    KeyIdOfWorkspaceKey(w);
    SplitIdOfPlainId(w);
  }

  // ---------------------------------------------------------------- operation log

  /** The hash `_queue_operation` stores for an operation. */
  function OperationRecord(op: Operation): (h: Hash)
    ensures h.Keys == {"operation_id", "operation_type", "workspace_id", "data", "timestamp", "status", "error"}
    ensures h["operation_id"] == Str(op.id) && h["operation_type"] == Str(op.kind)
    ensures h["data"] == Doc(op.data) && h["timestamp"] == Str(op.timestamp)
    ensures "status" in h && h["status"] == Str(op.status)
    ensures "error" in h && h["error"] == Str(op.error)
    ensures "workspace_id" in h && h["workspace_id"] == Str(op.workspaceId)
  {
    map[
      "operation_id" := Str(op.id),
      "operation_type" := Str(op.kind),
      "workspace_id" := Str(op.workspaceId),
      "data" := Doc(op.data),
      "timestamp" := Str(op.timestamp),
      "status" := Str(op.status),
      "error" := Str(op.error)]
  }

  /** `_queue_operation`: writes the operation record and pushes its id at the head of the
      operation queue; returns the id. */
  function QueueOperation(st: Store, op: Operation): (r: (Store, string))
    ensures r.1 == op.id
    ensures HGetAll(r.0, OperationKey(op.id)) == HGetAll(st, OperationKey(op.id)) + OperationRecord(op)
    ensures ListAt(r.0, OperationQueue) == [Str(op.id)] + ListAt(st, OperationQueue)
    ensures forall n :: n != OperationKey(op.id) ==> HGetAll(r.0, n) == HGetAll(st, n)
    ensures r.0.strings == st.strings && r.0.channels == st.channels
    ensures forall k :: k != OperationKey(op.id) && k != OperationQueue ==> Exists(r.0, k) == Exists(st, k)
    ensures Valid(st) ==> Valid(r.0)
  {
    var written := HSet(st, OperationKey(op.id), OperationRecord(op), map[]);
    (LPush(written, OperationQueue, [Str(op.id)]), op.id)
  }

  /** The status field of an operation record. */
  function OperationStatus(st: Store, operationId: string): Option<Value> {
    var h := HGetAll(st, OperationKey(operationId));
    if "status" in h then Some(h["status"]) else None
  }

  // ---------------------------------------------------------------- create

  /** Sets the operation's `status` field (and `error`, when given) in its record. */
  function MarkOperation(st: Store, operationId: string, status: string, error: Option<string>): (r: Store)
    ensures HGetAll(r, OperationKey(operationId)) ==
              match error
              case None => HGetAll(st, OperationKey(operationId))["status" := Str(status)]
              case Some(e) => HGetAll(st, OperationKey(operationId))["status" := Str(status)]["error" := Str(e)]
    ensures forall n :: n != OperationKey(operationId) ==>
              HGetAll(r, n) == HGetAll(st, n) && (n in r.hashes <==> n in st.hashes)
    ensures r.strings == st.strings && r.lists == st.lists && r.channels == st.channels
    ensures Valid(st) ==> Valid(r)
  {
    var key := OperationKey(operationId);
    var marked := HSetField(st, key, "status", Str(status));
    match error
    case None => marked
    case Some(e) => HSetField(marked, key, "error", Str(e))
  }

  /** The write path of the guarded body, for a record that is empty or absent: the fields
      are written and read back; the operation is marked `completed`, or `failed` with the
      error text when the read-back is empty (which happens exactly for empty fields). */
  function CreateFresh(st: Store, op: Operation): (r: Step<Hash>)
    requires HGetAll(st, WorkspaceKey(op.workspaceId)) == map[]
    ensures HGetAll(r.st, WorkspaceKey(op.workspaceId)) == op.data
    ensures op.data != map[] ==>
              && r.out == Ok(WithId(DecodeMap(op.data), op.workspaceId))
              && HGetAll(r.st, OperationKey(op.id)) ==
                 HGetAll(st, OperationKey(op.id))["status" := Str("completed")]
    ensures op.data == map[] ==>
              && r.out == Err(NotDurable)
              && HGetAll(r.st, OperationKey(op.id)) ==
                 HGetAll(st, OperationKey(op.id))["status" := Str("failed")]["error" := Str(NotDurable)]
    ensures forall n :: n != WorkspaceKey(op.workspaceId) && n != OperationKey(op.id) ==>
              HGetAll(r.st, n) == HGetAll(st, n) && (n in r.st.hashes <==> n in st.hashes)
    ensures r.st.strings == st.strings && r.st.lists == st.lists && r.st.channels == st.channels
    ensures Valid(st) ==> Valid(r.st)
  {
    var key := WorkspaceKey(op.workspaceId);
    WorkspaceKeyIsNotOperationKey(op.workspaceId, op.id);
    var written := HSet(st, key, op.data, map[]);
    var stored := HGetAll(written, key);
    assert stored == op.data;
    assert HGetAll(written, OperationKey(op.id)) == HGetAll(st, OperationKey(op.id));
    if stored == map[] then Step(MarkOperation(written, op.id, "failed", Some(NotDurable)), Err(NotDurable))
    else Step(MarkOperation(written, op.id, "completed", None), Ok(WithId(DecodeMap(stored), op.workspaceId)))
  }

  /** The guarded body of `_process_create_operation`, run while the create lock is held:
      an existing record is returned as it is, with nothing written; otherwise the write
      path runs. */
  function CreateBody(st: Store, op: Operation): (r: Step<Hash>)
    ensures HGetAll(st, WorkspaceKey(op.workspaceId)) != map[] ==>
              r == Step(st, Ok(Decoded(st, WorkspaceKey(op.workspaceId), op.workspaceId)))
    ensures HGetAll(st, WorkspaceKey(op.workspaceId)) == map[] ==> r == CreateFresh(st, op)
    ensures forall n :: n != WorkspaceKey(op.workspaceId) && n != OperationKey(op.id) ==>
              HGetAll(r.st, n) == HGetAll(st, n) && (n in r.st.hashes <==> n in st.hashes)
    ensures r.st.strings == st.strings && r.st.lists == st.lists && r.st.channels == st.channels
    ensures Valid(st) ==> Valid(r.st)
  {
    var existing := HGetAll(st, WorkspaceKey(op.workspaceId));
    if existing != map[] then Step(st, Ok(WithId(DecodeMap(existing), op.workspaceId)))
    else CreateFresh(st, op)
  }

  lemma MarkReadsHashes(a: Store, b: Store, operationId: string, status: string, error: Option<string>)
    requires a.hashes == b.hashes && a.order == b.order
    ensures MarkOperation(a, operationId, status, error).hashes == MarkOperation(b, operationId, status, error).hashes
    ensures MarkOperation(a, operationId, status, error).order == MarkOperation(b, operationId, status, error).order
  {
    var key := OperationKey(operationId);
    HSetReadsHashes(a, b, key, map["status" := Str(status)], map[]);
    if error.Some? {
      HSetReadsHashes(HSet(a, key, map["status" := Str(status)], map[]), HSet(b, key, map["status" := Str(status)], map[]),
                      key, map["error" := Str(error.value)], map[]);
    }
  }

  /** The guarded body reads and writes only the hashes (and their order): stores that
      agree there give the same reply and the same hashes afterwards. */
  lemma CreateBodyReadsHashes(a: Store, b: Store, op: Operation)
    requires a.hashes == b.hashes && a.order == b.order
    ensures CreateBody(a, op).out == CreateBody(b, op).out
    ensures CreateBody(a, op).st.hashes == CreateBody(b, op).st.hashes
    ensures CreateBody(a, op).st.order == CreateBody(b, op).st.order
  {
    var key := WorkspaceKey(op.workspaceId);
    if HGetAll(a, key) == map[] {
      HSetReadsHashes(a, b, key, op.data, map[]);
      var wa := HSet(a, key, op.data, map[]);
      var wb := HSet(b, key, op.data, map[]);
      MarkReadsHashes(wa, wb, op.id, "failed", Some(NotDurable));
      MarkReadsHashes(wa, wb, op.id, "completed", None);
    }
  }

  /** Runs the guarded body and then releases the lock held under `token`. */
  function CreateHolding(st: Store, op: Operation, token: string): (r: Step<Hash>)
    requires Holder(st, CreateLock(op.workspaceId)) == Some(token)
    ensures r.out == CreateBody(st, op).out
    ensures r.st.hashes == CreateBody(st, op).st.hashes && r.st.order == CreateBody(st, op).st.order
    ensures LockKey(CreateLock(op.workspaceId)) !in st.hashes && LockKey(CreateLock(op.workspaceId)) !in st.lists ==>
              !Exists(r.st, LockKey(CreateLock(op.workspaceId)))
  {
    var lock := LockKey(CreateLock(op.workspaceId));
    var body := CreateBody(st, op);
    OperationKeyIsNotLockKey(op.id, CreateLock(op.workspaceId));
    WorkspaceKeyIsNotLockKey(op.workspaceId, CreateLock(op.workspaceId));
    assert lock in st.hashes <==> lock in body.st.hashes;
    Step(ReleaseLock(body.st, CreateLock(op.workspaceId), token).0, body.out)
  }

  /** `_process_create_operation`: takes the create lock, retrying once after a pause during
      which other clients turn the store `st` into `sleep(st)`; gives up with an error when
      both attempts fail. The lock is released on every path that took it. */
  function ProcessCreate(st: Store, op: Operation, t1: string, t2: string, sleep: Store -> Store): (r: Step<Hash>)
    requires t1 != "" && t2 != ""
    ensures !Exists(st, LockKey(CreateLock(op.workspaceId))) ==>
              && r.out == CreateBody(st, op).out
              && r.st.hashes == CreateBody(st, op).st.hashes && r.st.order == CreateBody(st, op).st.order
              && !Exists(r.st, LockKey(CreateLock(op.workspaceId)))
    ensures Exists(st, LockKey(CreateLock(op.workspaceId))) &&
            Exists(sleep(st), LockKey(CreateLock(op.workspaceId))) ==>
              r == Step(sleep(st), Err("Could not acquire lock for workspace " + op.workspaceId))
    ensures Exists(st, LockKey(CreateLock(op.workspaceId))) &&
            !Exists(sleep(st), LockKey(CreateLock(op.workspaceId))) ==>
              && r.out == CreateBody(sleep(st), op).out
              && r.st.hashes == CreateBody(sleep(st), op).st.hashes
              && !Exists(r.st, LockKey(CreateLock(op.workspaceId)))
  {
    var resource := CreateLock(op.workspaceId);
    var (held, first) := AcquireLock(st, resource, t1);
    if first.Some? then
      CreateBodyReadsHashes(held, st, op);
      CreateHolding(held, op, t1)
    else
      var (retried, second) := AcquireLock(sleep(held), resource, t2);
      if second.Some? then
        CreateBodyReadsHashes(retried, sleep(st), op);
        CreateHolding(retried, op, t2)
      else Step(retried, Err("Could not acquire lock for workspace " + op.workspaceId))
  }

  function NewOperation(operationId: string, workspaceId: string, data: Hash, timestamp: string): Operation {
    Operation(operationId, "create", workspaceId, data, timestamp, "pending", "")
  }

  /** `create_workspace_distributed`: logs a pending `create` operation, then processes it.
      With the create lock free: an existing record is returned (with `id`) and neither it
      nor the operation's `pending` status is rewritten; otherwise exactly the given fields
      are stored and returned, the operation becoming `completed`, or `failed` when there
      are no fields; the lock is free again afterwards. */
  function CreateWorkspace(st: Store, workspaceId: string, data: Hash, operationId: string,
                           timestamp: string, t1: string, t2: string, sleep: Store -> Store): (r: Step<Hash>)
    requires t1 != "" && t2 != ""
    ensures !Exists(st, LockKey(CreateLock(workspaceId))) ==>
              && !Exists(r.st, LockKey(CreateLock(workspaceId)))
              && (Valid(st) ==> Valid(r.st))
    ensures !Exists(st, LockKey(CreateLock(workspaceId))) && HGetAll(st, WorkspaceKey(workspaceId)) != map[] ==>
              && r.out == Ok(Decoded(st, WorkspaceKey(workspaceId), workspaceId))
              && HGetAll(r.st, WorkspaceKey(workspaceId)) == HGetAll(st, WorkspaceKey(workspaceId))
              && OperationStatus(r.st, operationId) == Some(Str("pending"))
    ensures !Exists(st, LockKey(CreateLock(workspaceId))) && HGetAll(st, WorkspaceKey(workspaceId)) == map[] ==>
              && HGetAll(r.st, WorkspaceKey(workspaceId)) == data
              && (data != map[] ==> r.out == Ok(WithId(DecodeMap(data), workspaceId))
                                    && OperationStatus(r.st, operationId) == Some(Str("completed")))
              && (data == map[] ==> r.out == Err(NotDurable)
                                    && OperationStatus(r.st, operationId) == Some(Str("failed")))
  {
    var op := NewOperation(operationId, workspaceId, data, timestamp);
    var r := ProcessCreate(QueueOperation(st, op).0, op, t1, t2, sleep);
    if Exists(st, LockKey(CreateLock(workspaceId))) then r
    else
      QueuedCreate(st, op);
      if HGetAll(st, WorkspaceKey(workspaceId)) != map[] then
        CreateFound(st, op, t1, t2, sleep);
        r
      else
        CreateStored(st, op, t1, t2, sleep);
        r
  }

  /** Logging the operation leaves the create lock and the workspace record alone. */
  lemma QueuedCreate(st: Store, op: Operation)
    ensures var queued := QueueOperation(st, op).0;
            && Exists(queued, LockKey(CreateLock(op.workspaceId))) == Exists(st, LockKey(CreateLock(op.workspaceId)))
            && HGetAll(queued, WorkspaceKey(op.workspaceId)) == HGetAll(st, WorkspaceKey(op.workspaceId))
            && (Valid(st) ==> Valid(queued))
  {
    WorkspaceKeyIsNotOperationKey(op.workspaceId, op.id);
    OperationKeyIsNotLockKey(op.id, CreateLock(op.workspaceId));
    assert LockKey(CreateLock(op.workspaceId))[0] != OperationQueue[0];
  }

  /** The create path for a workspace that already has a record. */
  lemma CreateFound(st: Store, op: Operation, t1: string, t2: string, sleep: Store -> Store)
    requires t1 != "" && t2 != "" && op.status == "pending"
    requires !Exists(st, LockKey(CreateLock(op.workspaceId))) && HGetAll(st, WorkspaceKey(op.workspaceId)) != map[]
    ensures var r := ProcessCreate(QueueOperation(st, op).0, op, t1, t2, sleep);
            && r.out == Ok(Decoded(st, WorkspaceKey(op.workspaceId), op.workspaceId))
            && HGetAll(r.st, WorkspaceKey(op.workspaceId)) == HGetAll(st, WorkspaceKey(op.workspaceId))
            && OperationStatus(r.st, op.id) == Some(Str("pending"))
            && !Exists(r.st, LockKey(CreateLock(op.workspaceId)))
            && (Valid(st) ==> Valid(r.st))
  {
    var queued := QueueOperation(st, op).0;
    QueuedCreate(st, op);
    assert OperationStatus(queued, op.id) == Some(Str("pending"));
  }

  /** The create path for a workspace without a record. */
  lemma CreateStored(st: Store, op: Operation, t1: string, t2: string, sleep: Store -> Store)
    requires t1 != "" && t2 != ""
    requires !Exists(st, LockKey(CreateLock(op.workspaceId))) && HGetAll(st, WorkspaceKey(op.workspaceId)) == map[]
    ensures var r := ProcessCreate(QueueOperation(st, op).0, op, t1, t2, sleep);
            && HGetAll(r.st, WorkspaceKey(op.workspaceId)) == op.data
            && (op.data != map[] ==> r.out == Ok(WithId(DecodeMap(op.data), op.workspaceId))
                                     && OperationStatus(r.st, op.id) == Some(Str("completed")))
            && (op.data == map[] ==> r.out == Err(NotDurable)
                                     && OperationStatus(r.st, op.id) == Some(Str("failed")))
            && !Exists(r.st, LockKey(CreateLock(op.workspaceId)))
            && (Valid(st) ==> Valid(r.st))
  {
    QueuedCreate(st, op);
  }

  /** Creating a workspace twice with the same fields gives the same reply both times, and
      the second call leaves the stored record as the first one wrote it. */
  lemma CreateIsIdempotent(st: Store, w: string, data: Hash, o1: string, o2: string, ts: string,
                           t1: string, t2: string, sleep: Store -> Store)
    requires t1 != "" && t2 != "" && data != map[]
    requires !Exists(st, LockKey(CreateLock(w))) && HGetAll(st, WorkspaceKey(w)) == map[]
    ensures var first := CreateWorkspace(st, w, data, o1, ts, t1, t2, sleep);
            var second := CreateWorkspace(first.st, w, data, o2, ts, t1, t2, sleep);
            second.out == first.out && HGetAll(second.st, WorkspaceKey(w)) == data
  {
    var first := CreateWorkspace(st, w, data, o1, ts, t1, t2, sleep);
    assert !Exists(first.st, LockKey(CreateLock(w))) && HGetAll(first.st, WorkspaceKey(w)) == data;
    assert first.out == Ok(WithId(DecodeMap(data), w));
    var second := CreateWorkspace(first.st, w, data, o2, ts, t1, t2, sleep);
    assert second.out == Ok(Decoded(first.st, WorkspaceKey(w), w));
    assert Decoded(first.st, WorkspaceKey(w), w) == WithId(DecodeMap(data), w);
  }

  /** A workspace created on a free id is then found by `get_workspace_distributed`, with
      the reply the create returned. */
  lemma CreateThenGet(st: Store, w: string, data: Hash, o: string, ts: string,
                      t1: string, t2: string, sleep: Store -> Store)
    requires t1 != "" && t2 != "" && data != map[]
    requires !Exists(st, LockKey(CreateLock(w))) && HGetAll(st, WorkspaceKey(w)) == map[]
    ensures var created := CreateWorkspace(st, w, data, o, ts, t1, t2, sleep);
            created.out.Ok? && GetWorkspace(created.st, w) == Ok(created.out.value)
  {
  }

  /** A workspace created on a free id appears in the listing. */
  lemma CreateThenListed(st: Store, w: string, data: Hash, o: string, ts: string,
                         t1: string, t2: string, sleep: Store -> Store)
    requires t1 != "" && t2 != "" && data != map[] && Valid(st)
    requires !Exists(st, LockKey(CreateLock(w))) && HGetAll(st, WorkspaceKey(w)) == map[]
    ensures var created := CreateWorkspace(st, w, data, o, ts, t1, t2, sleep);
            created.out.Ok? && created.out.value in ListWithoutLock(created.st)
  {
    var created := CreateWorkspace(st, w, data, o, ts, t1, t2, sleep);
    var after := created.st;
    assert Valid(after) && HGetAll(after, WorkspaceKey(w)) == data && created.out == Ok(WithId(DecodeMap(data), w));
    ListedWhenStored(after, w);
  }

  lemma ListedWhenStored(st: Store, w: string)
    requires Valid(st) && HGetAll(st, WorkspaceKey(w)) != map[]
    ensures Decoded(st, WorkspaceKey(w), w) in ListWithoutLock(st)
  {
  }

  // ---------------------------------------------------------------- get

  /** `get_workspace_distributed`: the stored fields, decoded, with `id`; "not found" when
      the hash is empty or absent. */
  function GetWorkspace(st: Store, workspaceId: string): (r: Result<Hash>)
    ensures r.Ok? <==> HGetAll(st, WorkspaceKey(workspaceId)) != map[]
    ensures r.Ok? ==> r.value.Keys == HGetAll(st, WorkspaceKey(workspaceId)).Keys + {"id"}
    ensures r.Ok? ==> r.value["id"] == Str(workspaceId)
    ensures r.Ok? ==> r.value == Decoded(st, WorkspaceKey(workspaceId), workspaceId)
    ensures r.Err? ==> r.msg == "Workspace " + workspaceId + " not found"
  {
    var data := HGetAll(st, WorkspaceKey(workspaceId));
    if data == map[] then Err("Workspace " + workspaceId + " not found")
    else Ok(WithId(DecodeMap(data), workspaceId))
  }

  // ---------------------------------------------------------------- delete

  /** `delete_workspace_distributed`: takes the delete lock once (no retry), fails with
      "not found" for an empty or absent record, otherwise deletes the key and returns true;
      the lock is released on both paths. */
  function DeleteWorkspace(st: Store, workspaceId: string, token: string): (r: Step<bool>)
    requires token != ""
    ensures Exists(st, LockKey(DeleteLock(workspaceId))) ==>
              r == Step(st, Err("Could not acquire lock for workspace deletion " + workspaceId))
    ensures !Exists(st, LockKey(DeleteLock(workspaceId))) && HGetAll(st, WorkspaceKey(workspaceId)) == map[] ==>
              r == Step(st, Err("Workspace " + workspaceId + " not found"))
    ensures !Exists(st, LockKey(DeleteLock(workspaceId))) && HGetAll(st, WorkspaceKey(workspaceId)) != map[] ==>
              && r.out == Ok(true)
              && !Exists(r.st, WorkspaceKey(workspaceId))
              && !Exists(r.st, LockKey(DeleteLock(workspaceId)))
              && (forall n :: n != WorkspaceKey(workspaceId) ==> HGetAll(r.st, n) == HGetAll(st, n))
  {
    var resource := DeleteLock(workspaceId);
    var key := WorkspaceKey(workspaceId);
    var (held, lock) := AcquireLock(st, resource, token);
    WorkspaceKeyIsNotLockKey(workspaceId, resource);
    if lock.None? then Step(st, Err("Could not acquire lock for workspace deletion " + workspaceId))
    else if HGetAll(held, key) == map[] then
      AcquireReleaseRestores(st, resource, token);
      Step(ReleaseLock(held, resource, token).0, Err("Workspace " + workspaceId + " not found"))
    else
      var deleted := Delete(held, key);
      Step(ReleaseLock(deleted, resource, token).0, Ok(true))
  }

  // ---------------------------------------------------------------- list

  /** One listing entry per key whose hash is non-empty, in key order, carrying the id
      `idOf` derives from its key. */
  function Entries(st: Store, keys: seq<string>, idOf: string -> string): (r: seq<Hash>)
    ensures |r| <= |keys|
    ensures forall k :: k in keys && HGetAll(st, k) != map[] ==> Decoded(st, k, idOf(k)) in r
    ensures forall e :: e in r ==> exists k :: k in keys && HGetAll(st, k) != map[] && e == Decoded(st, k, idOf(k))
  {
    if |keys| == 0 then []
    else
      var rest := Entries(st, keys[1..], idOf);
      assert forall k :: k in keys[1..] ==> k in keys;
      assert forall k :: k in keys ==> k == keys[0] || k in keys[1..];
      if HGetAll(st, keys[0]) != map[] then [Decoded(st, keys[0], idOf(keys[0]))] + rest else rest
  }

  /** Listing the keys of `a + b` lists those of `a`, then those of `b`. */
  lemma {:induction false} EntriesAppend(st: Store, a: seq<string>, b: seq<string>, idOf: string -> string)
    ensures Entries(st, a + b, idOf) == Entries(st, a, idOf) + Entries(st, b, idOf)
    decreases |a|
  {
    if |a| == 0 {
      assert a + b == b;
    } else {
      assert (a + b)[1..] == a[1..] + b;
      EntriesAppend(st, a[1..], b, idOf);
    }
  }

  /** One key gives one entry when its hash is non-empty, and none otherwise. */
  lemma EntriesSingle(st: Store, k: string, idOf: string -> string)
    ensures Entries(st, [k], idOf) == if HGetAll(st, k) != map[] then [Decoded(st, k, idOf(k))] else []
  {
    assert [k][1..] == [];
  }

  /** Exactly one entry per key with a non-empty hash, in key order: entry `i` is the
      `i`-th such key's record. */
  lemma {:induction false} EntriesOnePerKey(st: Store, keys: seq<string>, idOf: string -> string)
    ensures var ks := Filter(keys, HoldsHash(st));
            && |Entries(st, keys, idOf)| == |ks|
            && forall i :: 0 <= i < |ks| ==> Entries(st, keys, idOf)[i] == Decoded(st, ks[i], idOf(ks[i]))
    decreases |keys|
  {
    if |keys| > 0 {
      EntriesOnePerKey(st, keys[1..], idOf);
      EntriesCons(st, keys, idOf);
      FilterCons(keys, HoldsHash(st));
    }
  }

  /** The first key's entry, if any, followed by the entries of the rest. */
  lemma EntriesCons(st: Store, keys: seq<string>, idOf: string -> string)
    requires |keys| > 0
    ensures Entries(st, keys, idOf) ==
            (if HoldsHash(st)(keys[0]) then [Decoded(st, keys[0], idOf(keys[0]))] else []) + Entries(st, keys[1..], idOf)
  {
  }

  /** `_list_workspaces_without_lock` with the id taken from between `workspaces:` and
      `:keys`: an entry for every workspace key with a non-empty record, under its own id,
      and nothing else. */
  function ListWithoutLock(st: Store): (r: seq<Hash>)
    ensures Valid(st) ==> forall w :: HGetAll(st, WorkspaceKey(w)) != map[] ==>
              Decoded(st, WorkspaceKey(w), w) in r
    ensures forall e :: e in r ==>
              exists w :: HGetAll(st, WorkspaceKey(w)) != map[] && e == Decoded(st, WorkspaceKey(w), w)
  {
    var keys := GlobKeys(st, WorkspacePattern);
    var r := Entries(st, keys, KeyId);
    forall w | Valid(st) && HGetAll(st, WorkspaceKey(w)) != map[]
      ensures Decoded(st, WorkspaceKey(w), w) in r
    {
      KeyIdOfWorkspaceKey(w);
      MatchesPatternIffWorkspaceKey(WorkspaceKey(w));
    }
    forall e | e in r
      ensures exists w :: HGetAll(st, WorkspaceKey(w)) != map[] && e == Decoded(st, WorkspaceKey(w), w)
    {
      var k :| k in keys && HGetAll(st, k) != map[] && e == Decoded(st, k, KeyId(k));
      MatchesPatternIffWorkspaceKey(k);
      assert k == WorkspaceKey(KeyId(k));
    }
    r
  }

  /** `_list_workspaces_without_lock` as written: the same records, but each entry's id is
      derived by splitting its key on `:`. */
  function ListWithoutLockAsWritten(st: Store): (r: seq<Hash>)
    ensures Valid(st) ==> forall w :: HGetAll(st, WorkspaceKey(w)) != map[] ==>
              Decoded(st, WorkspaceKey(w), SplitId(WorkspaceKey(w))) in r
    ensures forall e :: e in r ==>
              exists w :: HGetAll(st, WorkspaceKey(w)) != map[] && e == Decoded(st, WorkspaceKey(w), SplitId(WorkspaceKey(w)))
  {
    var keys := GlobKeys(st, WorkspacePattern);
    var r := Entries(st, keys, SplitId);
    forall w | Valid(st) && HGetAll(st, WorkspaceKey(w)) != map[]
      ensures Decoded(st, WorkspaceKey(w), SplitId(WorkspaceKey(w))) in r
    {
      KeyIdOfWorkspaceKey(w);
      MatchesPatternIffWorkspaceKey(WorkspaceKey(w));
    }
    forall e | e in r
      ensures exists w :: HGetAll(st, WorkspaceKey(w)) != map[] &&
                e == Decoded(st, WorkspaceKey(w), SplitId(WorkspaceKey(w)))
    {
      var k :| k in keys && HGetAll(st, k) != map[] && e == Decoded(st, k, SplitId(k));
      MatchesPatternIffWorkspaceKey(k);
      assert k == WorkspaceKey(KeyId(k));
    }
    r
  }

  /** The listing holds exactly one entry per matched key with a non-empty record, in the
      order `KEYS` returns the keys; on a well-formed store no key is matched twice. */
  lemma ListWithoutLockOnePerKey(st: Store)
    ensures var ks := Filter(GlobKeys(st, WorkspacePattern), HoldsHash(st));
            && (Valid(st) ==> NoDups(ks))
            && |ListWithoutLock(st)| == |ks|
            && forall i :: 0 <= i < |ks| ==> ListWithoutLock(st)[i] == Decoded(st, ks[i], KeyId(ks[i]))
  {
    EntriesOnePerKey(st, GlobKeys(st, WorkspacePattern), KeyId);
  }

  /** The same for the listing as written: one entry per key, even when two keys give the
      same split-based id. */
  lemma ListWithoutLockAsWrittenOnePerKey(st: Store)
    ensures var ks := Filter(GlobKeys(st, WorkspacePattern), HoldsHash(st));
            && (Valid(st) ==> NoDups(ks))
            && |ListWithoutLockAsWritten(st)| == |ks|
            && forall i :: 0 <= i < |ks| ==> ListWithoutLockAsWritten(st)[i] == Decoded(st, ks[i], SplitId(ks[i]))
  {
    EntriesOnePerKey(st, GlobKeys(st, WorkspacePattern), SplitId);
  }

  /** The id the as-written listing gives a record is a `:`-free part of its key, or the
      whole key when the key has fewer than three parts. */
  lemma SplitIdShape(key: string)
    ensures ':' !in SplitId(key) || SplitId(key) == key
  {
    var parts := Split(key, ':');
    if |parts| >= 3 {
      SplitPartsAvoidSeparator(key, ':');
    }
  }

  /** A workspace stored under the id `team:a` is listed, as written, with the id `team`, and
      no entry of that listing carries the id `team:a`; the corrected listing has it under
      `team:a`. */
  lemma ListingAsWrittenTruncatesColonId(st: Store)
    requires Valid(st) && HGetAll(st, WorkspaceKey("team:a")) != map[]
    ensures Decoded(st, WorkspaceKey("team:a"), "team") in ListWithoutLockAsWritten(st)
    ensures forall e :: e in ListWithoutLockAsWritten(st) ==> e["id"] != Str("team:a")
    ensures Decoded(st, WorkspaceKey("team:a"), "team:a") in ListWithoutLock(st)
  {
    SplitIdTruncatesColonId();
    forall e | e in ListWithoutLockAsWritten(st)
      ensures e["id"] != Str("team:a")
    {
      var w :| HGetAll(st, WorkspaceKey(w)) != map[] && e == Decoded(st, WorkspaceKey(w), SplitId(WorkspaceKey(w)));
      var k := WorkspaceKey(w);
      SplitIdShape(k);
      assert ':' in "team:a" by { assert "team:a"[4] == ':'; }
      assert k[0] == 'w';
    }
  }

  /** The listing reads only the hashes and their order. */
  lemma {:induction false} EntriesReadOnlyHashes(a: Store, b: Store, keys: seq<string>)
    requires a.hashes == b.hashes
    ensures Entries(a, keys, KeyId) == Entries(b, keys, KeyId)
  {
    if |keys| > 0 {
      EntriesReadOnlyHashes(a, b, keys[1..]);
    }
  }

  /** `list_workspaces_distributed`: the same listing whether or not the list lock is
      obtained, and the lock is gone afterwards if it was free. */
  function ListDistributed(st: Store, token: string): (r: (Store, seq<Hash>))
    requires token != ""
    ensures r.1 == ListWithoutLock(st)
    ensures r.0 == st
  {
    var (held, lock) := AcquireLock(st, ListLock, token);
    if lock.None? then (st, ListWithoutLock(st))
    else
      AcquireReleaseRestores(st, ListLock, token);
      EntriesReadOnlyHashes(held, st, GlobKeys(st, WorkspacePattern));
      (ReleaseLock(held, ListLock, token).0, ListWithoutLock(held))
  }

  /** A deleted workspace is gone: a second delete fails with "not found", and so does
      `get_workspace_distributed`. */
  lemma DeleteTwiceFails(st: Store, w: string, t1: string, t2: string)
    requires t1 != "" && t2 != ""
    requires !Exists(st, LockKey(DeleteLock(w))) && HGetAll(st, WorkspaceKey(w)) != map[]
    ensures var first := DeleteWorkspace(st, w, t1);
            && first.out == Ok(true)
            && DeleteWorkspace(first.st, w, t2) == Step(first.st, Err("Workspace " + w + " not found"))
            && GetWorkspace(first.st, w) == Err("Workspace " + w + " not found")
  {
    var first := DeleteWorkspace(st, w, t1);
    assert HGetAll(first.st, WorkspaceKey(w)) == map[];
  }
}
