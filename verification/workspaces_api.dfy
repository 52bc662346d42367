/** The workspace HTTP endpoints: the API-token check, the request mapping `add_workspace`
    stores, and how the workspace manager's replies and exceptions become HTTP responses. */
module WorkspacesApi {
  import opened Results
  import opened Text
  import opened Valkey
  import opened Locks
  import opened Workspaces

  const InvalidToken: string := "invalid API token"
  const WorkspaceNotFound: string := "workspace not found"
  const DeleteFailed: string := "Delete operation failed"
  const NotFound: string := "not found"

  /** The `keys` object of a create request; an omitted key is `None`. */
  datatype WorkspaceKeys = WorkspaceKeys(
    provider: string,
    openaiKey: Option<string>,
    geminiKey: Option<string>,
    tavilyKey: Option<string>)

  /** A `WorkspaceCreate` request body. */
  datatype WorkspaceCreate = WorkspaceCreate(
    workspaceId: Option<string>,
    provider: string,
    keys: WorkspaceKeys)

  // ---------------------------------------------------------------- token

  /** `verify_token`: `expected` is the `API_TOKEN` setting, `""` when it is unset (both are
      falsy); `header` is the `X-API-Token` header, if sent. */
  predicate TokenAccepted(expected: string, header: Option<string>) {
    !(expected != "" && header != Some(expected))
  }

  /** With no token configured every request passes; with one, exactly the requests that
      send it verbatim pass. */
  lemma TokenCheck(expected: string, header: Option<string>)
    ensures expected == "" ==> TokenAccepted(expected, header)
    ensures expected != "" ==> (TokenAccepted(expected, header) <==> header == Some(expected))
  {
  }

  // ---------------------------------------------------------------- create

  /** Python's `value or ""` on an optional string. */
  function OrEmpty(value: Option<string>): (r: string)
    ensures value.None? ==> r == ""
    ensures value.Some? ==> r == value.value
  {
    value.GetOr("")
  }

  /** The id `add_workspace` uses: the requested one when non-empty, else the fresh one. */
  function ChosenId(payload: WorkspaceCreate, freshId: string): (r: string)
    ensures payload.workspaceId.Some? && payload.workspaceId.value != "" ==> r == payload.workspaceId.value
    ensures payload.workspaceId.None? || payload.workspaceId.value == "" ==> r == freshId
  {
    match payload.workspaceId
    case Some(w) => if w != "" then w else freshId
    case None => freshId
  }

  /** The fields `add_workspace` asks the manager to store. */
  function RequestMapping(payload: WorkspaceCreate): (m: Hash)
    ensures m.Keys == {"provider", "openai_key", "gemini_key", "tavily_key"}
    ensures forall f :: f in m ==> m[f].Str?
  {
    map[
      "provider" := Str(payload.keys.provider),
      "openai_key" := Str(OrEmpty(payload.keys.openaiKey)),
      "gemini_key" := Str(OrEmpty(payload.keys.geminiKey)),
      "tavily_key" := Str(OrEmpty(payload.keys.tavilyKey))]
  }

  /** The stored provider is the one inside `keys`; the top-level `provider` is never
      stored, and an omitted key is stored as the empty string. */
  lemma RequestMappingFields(payload: WorkspaceCreate, other: string)
    ensures RequestMapping(payload)["provider"] == Str(payload.keys.provider)
    ensures RequestMapping(payload.(provider := other)) == RequestMapping(payload)
    ensures payload.keys.openaiKey.None? ==> RequestMapping(payload)["openai_key"] == Str("")
    ensures payload.keys.geminiKey.None? ==> RequestMapping(payload)["gemini_key"] == Str("")
    ensures payload.keys.tavilyKey.None? ==> RequestMapping(payload)["tavily_key"] == Str("")
  {
  }

  /** The body `add_workspace` returns. */
  function CreatedBody(workspaceId: string): Hash {
    map["workspace_id" := Str(workspaceId)]
  }

  /** `add_workspace`: token check, then `create_workspace_distributed` with the request
      mapping; the reply names the id whether the record was new or already there, and any
      exception of the manager becomes a 500. */
  function AddWorkspace(st: Store, payload: WorkspaceCreate, expected: string, header: Option<string>,
                        freshId: string, operationId: string, timestamp: string,
                        t1: string, t2: string, sleep: Store -> Store): (r: (Store, Response<Hash>))
    requires t1 != "" && t2 != ""
    ensures !TokenAccepted(expected, header) ==> r == (st, Refused(401, InvalidToken))
    ensures r.1.Reply? ==> r.1.body == CreatedBody(ChosenId(payload, freshId))
    ensures r.1.Refused? ==> r.1.code == 401 || r.1.code == 500
    ensures TokenAccepted(expected, header) ==>
              var created := CreateWorkspace(st, ChosenId(payload, freshId), RequestMapping(payload),
                                             operationId, timestamp, t1, t2, sleep);
              && r.0 == created.st
              && (r.1.Reply? <==> created.out.Ok?)
              && (created.out.Err? ==> r.1 == Refused(500, "Failed to create workspace: " + created.out.msg))
  {
    if !TokenAccepted(expected, header) then (st, Refused(401, InvalidToken))
    else
      var workspaceId := ChosenId(payload, freshId);
      var created := CreateWorkspace(st, workspaceId, RequestMapping(payload), operationId, timestamp, t1, t2, sleep);
      match created.out
      case Ok(_) => (created.st, Reply(CreatedBody(workspaceId)))
      case Err(msg) => (created.st, Refused(500, "Failed to create workspace: " + msg))
  }

  /** On a free id the request mapping is stored and the reply names the id. */
  lemma AddWorkspaceStoresMapping(st: Store, payload: WorkspaceCreate, expected: string, header: Option<string>,
                                  freshId: string, operationId: string, timestamp: string,
                                  t1: string, t2: string, sleep: Store -> Store)
    requires t1 != "" && t2 != "" && TokenAccepted(expected, header)
    requires var w := ChosenId(payload, freshId);
             !Exists(st, LockKey(CreateLock(w))) && HGetAll(st, WorkspaceKey(w)) == map[]
    ensures var r := AddWorkspace(st, payload, expected, header, freshId, operationId, timestamp, t1, t2, sleep);
            && r.1 == Reply(CreatedBody(ChosenId(payload, freshId)))
            && HGetAll(r.0, WorkspaceKey(ChosenId(payload, freshId))) == RequestMapping(payload)
  {
    var w := ChosenId(payload, freshId);
    var created := CreateWorkspace(st, w, RequestMapping(payload), operationId, timestamp, t1, t2, sleep);
    assert RequestMapping(payload) != map[] by {
      assert "provider" in RequestMapping(payload);
    }
    assert created.out.Ok?;
  }

  /** On an id that already has a record the reply is the same, and the record is kept. */
  lemma AddWorkspaceOnExistingId(st: Store, payload: WorkspaceCreate, expected: string, header: Option<string>,
                                 freshId: string, operationId: string, timestamp: string,
                                 t1: string, t2: string, sleep: Store -> Store)
    requires t1 != "" && t2 != "" && TokenAccepted(expected, header)
    requires var w := ChosenId(payload, freshId);
             !Exists(st, LockKey(CreateLock(w))) && HGetAll(st, WorkspaceKey(w)) != map[]
    ensures var r := AddWorkspace(st, payload, expected, header, freshId, operationId, timestamp, t1, t2, sleep);
            && r.1 == Reply(CreatedBody(ChosenId(payload, freshId)))
            && HGetAll(r.0, WorkspaceKey(ChosenId(payload, freshId))) == HGetAll(st, WorkspaceKey(ChosenId(payload, freshId)))
  {
    var w := ChosenId(payload, freshId);
    var created := CreateWorkspace(st, w, RequestMapping(payload), operationId, timestamp, t1, t2, sleep);
    assert created.out.Ok?;
  }

  // ---------------------------------------------------------------- errors

  /** The message of the manager's "not found" exception. */
  function MissingMessage(workspaceId: string): string {
    "Workspace " + workspaceId + " not found"
  }

  lemma MissingMessageSaysNotFound(workspaceId: string)
    ensures Contains(MissingMessage(workspaceId), NotFound)
  {
    var m := MissingMessage(workspaceId);
    assert m[|m| - 9..] == NotFound;
    ContainsWitness(m, NotFound, |m| - 9);
  }

  /** The `except` clause of the get and delete endpoints: an exception whose text contains
      "not found" is a 404, every other one a 500 naming the action and the text. */
  function ErrorResponse<T>(action: string, msg: string): (r: Response<T>)
    ensures r.Refused?
    ensures r.code == 404 <==> Contains(msg, NotFound)
    ensures r.code == 404 ==> r.detail == WorkspaceNotFound
    ensures r.code != 404 ==> r.code == 500 && r.detail == "Failed to " + action + " workspace: " + msg
  {
    if Contains(msg, NotFound) then Refused(404, WorkspaceNotFound)
    else Refused(500, "Failed to " + action + " workspace: " + msg)
  }

  // ---------------------------------------------------------------- list, get, delete

  /** `list_workspaces`: token check, then the manager's listing. */
  function ListWorkspaces(st: Store, expected: string, header: Option<string>, token: string): (r: (Store, Response<seq<Hash>>))
    requires token != ""
    ensures r.0 == st
    ensures !TokenAccepted(expected, header) ==> r.1 == Refused(401, InvalidToken)
    ensures TokenAccepted(expected, header) ==> r.1 == Reply(ListWithoutLock(st))
  {
    if !TokenAccepted(expected, header) then (st, Refused(401, InvalidToken))
    else
      var (after, items) := ListDistributed(st, token);
      (after, Reply(items))
  }

  /** `get_workspace_detail`: token check, then `get_workspace_distributed`. */
  function GetWorkspaceDetail(st: Store, workspaceId: string, expected: string, header: Option<string>): (r: Response<Hash>)
    ensures !TokenAccepted(expected, header) ==> r == Refused(401, InvalidToken)
    ensures TokenAccepted(expected, header) ==>
              (r.Reply? <==> HGetAll(st, WorkspaceKey(workspaceId)) != map[])
    ensures r.Reply? ==> r.body == Decoded(st, WorkspaceKey(workspaceId), workspaceId)
  {
    if !TokenAccepted(expected, header) then Refused(401, InvalidToken)
    else
      match GetWorkspace(st, workspaceId)
      case Ok(fields) => Reply(fields)
      case Err(msg) => ErrorResponse("get", msg)
  }

  /** A workspace without a record is a 404, never a 500. */
  lemma GetMissingIs404(st: Store, workspaceId: string, expected: string, header: Option<string>)
    requires TokenAccepted(expected, header) && HGetAll(st, WorkspaceKey(workspaceId)) == map[]
    ensures GetWorkspaceDetail(st, workspaceId, expected, header) == Refused(404, WorkspaceNotFound)
  {
    MissingMessageSaysNotFound(workspaceId);
  }

  /** The body `delete_workspace` returns. */
  function DeletedBody(workspaceId: string): Hash {
    map["message" := Str("Workspace " + workspaceId + " deleted successfully")]
  }

  /** `delete_workspace`: token check, then `delete_workspace_distributed`; a `False` reply
      is turned into an exception and mapped like the others. */
  function DeleteWorkspaceEndpoint(st: Store, workspaceId: string, expected: string, header: Option<string>,
                                   token: string): (r: (Store, Response<Hash>))
    requires token != ""
    ensures !TokenAccepted(expected, header) ==> r == (st, Refused(401, InvalidToken))
    ensures TokenAccepted(expected, header) ==>
              (r.1.Reply? <==> !Exists(st, LockKey(DeleteLock(workspaceId))) && HGetAll(st, WorkspaceKey(workspaceId)) != map[])
    ensures r.1.Reply? ==> r.1.body == DeletedBody(workspaceId) && HGetAll(r.0, WorkspaceKey(workspaceId)) == map[]
  {
    if !TokenAccepted(expected, header) then (st, Refused(401, InvalidToken))
    else
      var deleted := DeleteWorkspace(st, workspaceId, token);
      match deleted.out
      case Ok(success) =>
        if success then (deleted.st, Reply(DeletedBody(workspaceId)))
        else (deleted.st, ErrorResponse("delete", DeleteFailed))
      case Err(msg) => (deleted.st, ErrorResponse("delete", msg))
  }

  /** Deleting a workspace through the endpoint succeeds once; the second delete, and a get
      afterwards, are 404s. */
  lemma DeleteEndpointTwice(st: Store, workspaceId: string, expected: string, header: Option<string>,
                            t1: string, t2: string)
    requires t1 != "" && t2 != "" && TokenAccepted(expected, header)
    requires !Exists(st, LockKey(DeleteLock(workspaceId))) && HGetAll(st, WorkspaceKey(workspaceId)) != map[]
    ensures var first := DeleteWorkspaceEndpoint(st, workspaceId, expected, header, t1);
            && first.1 == Reply(DeletedBody(workspaceId))
            && DeleteWorkspaceEndpoint(first.0, workspaceId, expected, header, t2) == (first.0, Refused(404, WorkspaceNotFound))
            && GetWorkspaceDetail(first.0, workspaceId, expected, header) == Refused(404, WorkspaceNotFound)
  {
    var first := DeleteWorkspace(st, workspaceId, t1);
    DeleteTwiceFails(st, workspaceId, t1, t2);
    MissingMessageSaysNotFound(workspaceId);
    GetMissingIs404(first.st, workspaceId, expected, header);
  }

  /** A request with a wrong token is refused with 401 by every endpoint, which then leaves
      the store as it was. */
  lemma WrongTokenRefusedEverywhere(st: Store, payload: WorkspaceCreate, workspaceId: string, expected: string,
                                    header: Option<string>, freshId: string, operationId: string, timestamp: string,
                                    t1: string, t2: string, sleep: Store -> Store)
    requires t1 != "" && t2 != "" && expected != "" && header != Some(expected)
    ensures AddWorkspace(st, payload, expected, header, freshId, operationId, timestamp, t1, t2, sleep) ==
              (st, Refused(401, InvalidToken))
    ensures ListWorkspaces(st, expected, header, t1) == (st, Refused(401, InvalidToken))
    ensures GetWorkspaceDetail(st, workspaceId, expected, header) == Refused(401, InvalidToken)
    ensures DeleteWorkspaceEndpoint(st, workspaceId, expected, header, t1) == (st, Refused(401, InvalidToken))
  {
  }
}
